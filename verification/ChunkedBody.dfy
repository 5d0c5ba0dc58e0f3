/** Chunked bodies as HttpResponse.h prints them, and decoding them from any reads. */
module ChunkedBody {
  import opened Bytes
  import opened ChunkedEncoding
  import Utilities

  // ---------------------------------------------------------------- reads

  function Concat(pieces: seq<seq<Byte>>): (data: seq<Byte>) {
    if pieces == [] then [] else pieces[0] + Concat(pieces[1..])
  }

  /** What a decoder that keeps only words makes of some reads. */
  function RunReads(word: Word, pieces: seq<seq<Byte>>, trailer: bool): (r: Result)
    decreases |pieces|
  {
    if pieces == [] then Result(PhaseOf(word), [], [])
    else
      var r := Run(PhaseOf(word), pieces[0], trailer);
      if r.phase.Live? then Before(r.outs, RunReads(WordOf(r.phase), pieces[1..], trailer))
      else Result(r.phase, r.outs, r.left + Concat(pieces[1..]))
  }

  /** The receiving side: a read after another until the body ends or is malformed. */
  method DecodeReads(pieces: seq<seq<Byte>>, state: Word, trailer: bool) returns (outs: seq<Out>, rest: seq<Byte>, word: Word)
    requires Good(state)
    ensures Same(Result(PhaseOf(word), outs, rest), RunReads(state, pieces, trailer))
  {
    hide Run, Good;
    outs, rest, word := [], [], state;
    var i := 0;
    assert pieces[0..] == pieces;
    GoodIsLive(word);
    while i < |pieces|
      invariant i <= |pieces| && Good(word) && rest == []
      invariant Same(Before(outs, RunReads(word, pieces[i..], trailer)), RunReads(state, pieces, trailer))
    {
      var more;
      GoodIsLive(word);
      assert pieces[i..][0] == pieces[i] && pieces[i..][1..] == pieces[i + 1..];
      ghost var r := Run(PhaseOf(word), pieces[i], trailer);
      RunOrderly(PhaseOf(word), pieces[i], trailer);
      LiveLeavesNothing(PhaseOf(word), pieces[i], trailer);
      more, rest, word := DecodeRead(pieces[i], word, trailer);
      GoodWords(r.phase);
      Joined(outs, more, RunReads(word, pieces[i + 1..], trailer));
      outs := outs + more;
      i := i + 1;
      if word == 0 || word == STATE_IS_ERROR {
        rest := rest + Concat(pieces[i..]);
        return;
      }
    }
    GoodIsLive(word);
  }

  lemma GoodWords(phase: Phase)
    requires Orderly(phase)
    ensures phase.Live? <==> WordOf(phase) != 0 && WordOf(phase) != STATE_IS_ERROR
    ensures phase.Live? ==> Good(WordOf(phase))
    ensures !phase.Live? ==> PhaseOf(WordOf(phase)) == phase
  {
  }

  lemma {:induction false} LiveLeavesNothing(phase: Phase, data: seq<Byte>, trailer: bool)
    ensures Run(phase, data, trailer).phase.Live? ==> Run(phase, data, trailer).left == []
    decreases |data|
  {
    if data != [] && phase.Live? {
      var (next, outs, consumed) := Step(phase.word, phase.skipping, data[0], trailer);
      if consumed {
        LiveLeavesNothing(next, data[1..], trailer);
      }
    }
  }

  lemma {:induction false} RunConcat(phase: Phase, a: seq<Byte>, b: seq<Byte>, trailer: bool)
    ensures var r := Run(phase, a, trailer);
            Run(phase, a + b, trailer)
            == if r.phase.Live? then Before(r.outs, Run(r.phase, b, trailer)) else Result(r.phase, r.outs, r.left + b)
    decreases |a|
  {
    hide Step;
    if a == [] {
      assert a + b == b;
    } else if phase.Live? {
      assert (a + b)[0] == a[0] && (a + b)[1..] == a[1..] + b;
      var (next, outs, consumed) := Step(phase.word, phase.skipping, a[0], trailer);
      if consumed {
        RunConcat(next, a[1..], b, trailer);
      } else {
        StepStops(phase.word, phase.skipping, a[0], trailer);
      }
    }
  }

  lemma StepStops(word: Word, skipping: bool, b: Byte, trailer: bool)
    ensures !Step(word, skipping, b, trailer).2 ==> Step(word, skipping, b, trailer).0 == Broken && Step(word, skipping, b, trailer).1 == []
  {
  }

  // ---------------------------------------------------------------- where reads may end

  /** On a size line, no byte over 32 follows one that is not. */
  predicate Clean(phase: Phase, data: seq<Byte>, trailer: bool)
    decreases |data|
  {
    data != [] && phase.Live? ==>
      && (phase.skipping && !HasSize(phase.word) ==> !IsPrinting(data[0]))
      && Clean(Step(phase.word, phase.skipping, data[0], trailer).0, data[1..], trailer)
  }

  /** Then what the word does not say makes no difference. */
  lemma Forgetful(phase: Phase, data: seq<Byte>, trailer: bool)
    requires Orderly(phase) && Clean(phase, data, trailer)
    ensures Same(Run(PhaseOf(WordOf(phase)), data, trailer), Run(phase, data, trailer))
  {
    GoodWords(phase);
    if phase.Live? {
      GoodIsLive(phase.word);
      if data != [] {
        assert Step(phase.word, false, data[0], trailer) == Step(phase.word, phase.skipping, data[0], trailer);
      }
    }
  }

  lemma {:induction false} CleanParts(phase: Phase, a: seq<Byte>, b: seq<Byte>, trailer: bool)
    ensures Clean(phase, a + b, trailer) <==>
              Clean(phase, a, trailer) && (Run(phase, a, trailer).phase.Live? ==> Clean(Run(phase, a, trailer).phase, b, trailer))
    decreases |a|
  {
    hide Step;
    if a == [] {
      assert a + b == b;
    } else if phase.Live? {
      assert (a + b)[0] == a[0] && (a + b)[1..] == a[1..] + b;
      CleanParts(Step(phase.word, phase.skipping, a[0], trailer).0, a[1..], b, trailer);
      StepStops(phase.word, phase.skipping, a[0], trailer);
    }
  }

  lemma ForgetfulClean(phase: Phase, data: seq<Byte>, trailer: bool)
    requires phase.Live? && Good(phase.word) && Clean(phase, data, trailer)
    ensures Clean(PhaseOf(phase.word), data, trailer)
  {
    GoodIsLive(phase.word);
    if data != [] {
      assert Step(phase.word, false, data[0], trailer) == Step(phase.word, phase.skipping, data[0], trailer);
    }
  }

  /** However such data is cut into reads, what comes out is the same. */
  lemma {:induction false} CutsMakeNoDifference(word: Word, pieces: seq<seq<Byte>>, trailer: bool)
    requires Good(word) && Clean(PhaseOf(word), Concat(pieces), trailer)
    ensures Same(RunReads(word, pieces, trailer), Run(PhaseOf(word), Concat(pieces), trailer))
    decreases |pieces|
  {
    hide Good, Clean, PhaseOf;
    GoodIsLive(word);
    if pieces != [] {
      var a, b := pieces[0], Concat(pieces[1..]);
      var r := Run(PhaseOf(word), a, trailer);
      RunConcat(PhaseOf(word), a, b, trailer);
      CleanParts(PhaseOf(word), a, b, trailer);
      RunOrderly(PhaseOf(word), a, trailer);
      GoodWords(r.phase);
      hide Run;
      if r.phase.Live? {
        ForgetfulClean(r.phase, b, trailer);
        CutsMakeNoDifference(WordOf(r.phase), pieces[1..], trailer);
        Forgetful(r.phase, b, trailer);
      }
    }
  }

  /** A byte is only skipped on a size line. */
  predicate SkipsOnLine(phase: Phase) {
    phase.Live? && phase.skipping ==> !HasSize(phase.word)
  }

  lemma {:induction false} RunSkipsOnLine(phase: Phase, data: seq<Byte>, trailer: bool)
    requires SkipsOnLine(phase)
    ensures SkipsOnLine(Run(phase, data, trailer).phase)
    decreases |data|
  {
    if data != [] && phase.Live? {
      var (next, outs, consumed) := Step(phase.word, phase.skipping, data[0], trailer);
      RunSkipsOnLine(next, data[1..], trailer);
    }
  }

  predicate CutIsSeen(word: Word, a: seq<Byte>, b: seq<Byte>, trailer: bool) {
    !Same(RunReads(word, [a, b], trailer), Run(PhaseOf(word), a + b, trailer))
  }

  lemma TwoReads(word: Word, a: seq<Byte>, b: seq<Byte>, trailer: bool)
    ensures var r := Run(PhaseOf(word), a, trailer);
            RunReads(word, [a, b], trailer)
            == if r.phase.Live? then Before(r.outs, RunReads(WordOf(r.phase), [b], trailer)) else Result(r.phase, r.outs, r.left + b)
  {
    hide Run, PhaseOf, WordOf;
    assert [a, b][1..] == [b];
    assert Concat([b]) == b by { assert b + [] == b; }
  }

  /** Exactly when a read may end anywhere, whatever follows: not on a size line behind a byte that is not over
      32. The decoder does not note that and takes more digits from the next read. */
  lemma {:induction false} CutMakesNoDifference(word: Word, a: seq<Byte>, trailer: bool)
    requires Good(word)
    ensures var phase := Run(PhaseOf(word), a, trailer).phase;
            (forall b :: !CutIsSeen(word, a, b, trailer)) <==> !(phase.Live? && phase.skipping)
  {
    hide Good, PhaseOf;
    GoodIsLive(word);
    var r := Run(PhaseOf(word), a, trailer);
    RunOrderly(PhaseOf(word), a, trailer);
    RunSkipsOnLine(PhaseOf(word), a, trailer);
    GoodWords(r.phase);
    hide Run, RunReads;
    if r.phase.Live? && r.phase.skipping {
      var one: seq<Byte> := ['1' as int];
      TwoReads(word, a, one, trailer);
      RunConcat(PhaseOf(word), a, one, trailer);
      OneMoreDigit(r.phase.word, trailer);
      assert CutIsSeen(word, a, one, trailer);
    } else {
      forall b ensures !CutIsSeen(word, a, b, trailer) {
        TwoReads(word, a, b, trailer);
        RunConcat(PhaseOf(word), a, b, trailer);
        if r.phase.Live? {
          OneRead(WordOf(r.phase), b, trailer);
          GoodIsLive(WordOf(r.phase));
        }
      }
    }
  }

  lemma OneRead(word: Word, b: seq<Byte>, trailer: bool)
    requires Good(word)
    ensures Same(RunReads(word, [b], trailer), Run(PhaseOf(word), b, trailer))
  {
    GoodIsLive(word);
    var r := Run(PhaseOf(word), b, trailer);
    RunOrderly(PhaseOf(word), b, trailer);
    LiveLeavesNothing(PhaseOf(word), b, trailer);
    GoodWords(r.phase);
    assert [b][1..] == [];
    if r.phase.Live? {
      GoodIsLive(r.phase.word);
    }
  }

  /** Skipped or taken for a digit, a '1' leads to different words. */
  lemma OneMoreDigit(word: Word, trailer: bool)
    requires Good(word) && !HasSize(word)
    ensures Run(Live(word, true), ['1' as int], trailer) == Result(Live(word, true), [], [])
    ensures var r := RunReads(word, [['1' as int]], trailer); r.left != [] || WordOf(r.phase) != word
  {
    var one: seq<Byte> := ['1' as int];
    GoodIsLive(word);
    OneRead(word, one, trailer);
    assert one[1..] == [] && DigitValue(one[0]) == 1;
    if Overflows(word) {
      assert Run(Live(word, false), one, trailer) == Result(Broken, [], one);
    } else {
      DigitGood(word, one[0]);
      assert Run(Live(word, false), one, trailer) == Result(Live(AddDigit(word, one[0]), false), [], []);
    }
  }

  // ---------------------------------------------------------------- printed bodies

  const CRLF: seq<Byte> := [CR, LF]
  const LAST: seq<Byte> := ['0' as int, CR, LF, CR, LF]
  const MAX_CHUNK := 0x1_0000_0000

  predicate ChunkOk(data: seq<Byte>) {
    0 < |data| < MAX_CHUNK
  }

  function Framed(data: seq<Byte>): seq<Byte> {
    Utilities.Text(|data|, 16) + CRLF + data + CRLF
  }

  /** A body in chunks. */
  function Printed(chunks: seq<seq<Byte>>): seq<Byte> {
    if chunks == [] then LAST else Framed(chunks[0]) + Printed(chunks[1..])
  }

  /** The same as it is written: each chunk with the line end before it. */
  function Opened(chunks: seq<seq<Byte>>): seq<Byte> {
    if chunks == [] then []
    else CRLF + Utilities.Text(|chunks[0]|, 16) + CRLF + chunks[0] + Opened(chunks[1..])
  }

  lemma {:induction false} OpenedIsPrinted(chunks: seq<seq<Byte>>)
    ensures Opened(chunks) + CRLF + LAST == CRLF + Printed(chunks)
  {
    if chunks != [] {
      OpenedIsPrinted(chunks[1..]);
      var first := CRLF + Utilities.Text(|chunks[0]|, 16) + CRLF + chunks[0];
      assert Opened(chunks) + CRLF + LAST == first + (Opened(chunks[1..]) + CRLF + LAST);
      assert first + (CRLF + Printed(chunks[1..])) == CRLF + (Framed(chunks[0]) + Printed(chunks[1..]));
    }
  }

  lemma {:induction false} OpenedOneMore(chunks: seq<seq<Byte>>, data: seq<Byte>)
    ensures Opened(chunks + [data]) == Opened(chunks) + CRLF + Utilities.Text(|data|, 16) + CRLF + data
  {
    if chunks == [] {
      assert (chunks + [data])[1..] == [];
      assert Opened([]) == [];
    } else {
      OpenedOneMore(chunks[1..], data);
      assert (chunks + [data])[1..] == chunks[1..] + [data];
    }
  }

  /** A response written in chunks, from the end of its last header on. */
  class Response {
    var out: seq<Byte>
    var writeCalled: bool
    ghost var chunks: seq<seq<Byte>>

    ghost predicate Valid()
      reads this
    {
      && (writeCalled <==> chunks != []) && out == Opened(chunks)
      && forall i :: 0 <= i < |chunks| ==> ChunkOk(chunks[i])
    }

    constructor ()
      ensures Valid() && chunks == []
    {
      out, writeCalled, chunks := [], false, [];
    }

    method Frame(data: seq<Byte>)
      requires ChunkOk(data)
      modifies `out
      ensures out == old(out) + CRLF + Utilities.Text(|data|, 16) + CRLF + data
    {
      out := out + CRLF;
      var size := Utilities.U32ToHex(|data|);
      out := out + size;
      out := out + CRLF;
      out := out + data;
    }

    /** Empty data is not a chunk. */
    method Write(data: seq<Byte>)
      requires Valid() && |data| < MAX_CHUNK
      modifies this
      ensures Valid() && chunks == if data == [] then old(chunks) else old(chunks) + [data]
    {
      if |data| == 0 {
        return;
      }
      writeCalled := true;
      OpenedOneMore(chunks, data);
      Frame(data);
      chunks := chunks + [data];
    }

    /** Ends the body, of which this may be the last chunk. */
    method End(data: seq<Byte>)
      requires Valid() && writeCalled && |data| < MAX_CHUNK
      modifies this
      ensures chunks == if data == [] then old(chunks) else old(chunks) + [data]
      ensures out == CRLF + Printed(chunks) && forall i :: 0 <= i < |chunks| ==> ChunkOk(chunks[i])
    {
      if |data| > 0 {
        OpenedOneMore(chunks, data);
        Frame(data);
        chunks := chunks + [data];
      }
      OpenedIsPrinted(chunks);
      assert CRLF + LAST == [CR, LF, '0' as int, CR, LF, CR, LF];
      out := out + [CR, LF, '0' as int, CR, LF, CR, LF];
    }
  }

  // ---------------------------------------------------------------- decoding what was printed

  /** The data is used up, cleanly. */
  predicate Passes(phase: Phase, data: seq<Byte>, then_: Phase, outs: seq<Out>) {
    Run(phase, data, false) == Result(then_, outs, []) && Clean(phase, data, false) && then_.Live?
  }

  lemma PassesBoth(p: Phase, a: seq<Byte>, q: Phase, x: seq<Out>, b: seq<Byte>, r: Phase, y: seq<Out>)
    requires Passes(p, a, q, x) && Passes(q, b, r, y)
    ensures Passes(p, a + b, r, x + y)
  {
    hide Run, Clean;
    RunConcat(p, a, b, false);
    CleanParts(p, a, b, false);
  }

  const NONE: seq<Out> := []
  const SIZED := STATE_HAS_SIZE + STATE_IS_CHUNKED

  lemma PassesOne(word: Word, skipping: bool, b: Byte, then_: Phase, outs: seq<Out>)
    requires Step(word, skipping, b, false) == (then_, outs, true) && then_.Live?
    requires skipping ==> !IsPrinting(b)
    ensures Passes(Live(word, skipping), [b], then_, outs)
  {
    assert [b][1..] == [] && outs + [] == outs;
    assert Clean(then_, [], false);
  }

  /** A size in hex, spelled in any way, is read as the number it stands for, if that is less than 60 bits long. */
  lemma {:induction false} PassesSize(text: seq<Byte>, n: nat)
    requires Utilities.Spells(text, n) && n < 0x1000_0000_0000_0000
    ensures Passes(Live(STATE_IS_CHUNKED, false), text, Live(STATE_IS_CHUNKED + n, false), [])
  {
    hide Passes, Step;
    if text == [] {
      PassesNothing(STATE_IS_CHUNKED);
    } else {
      var m, k := n / 16, |text| - 1;
      PassesSize(text[..k], m);
      HexDigit(m, n % 16, text[k]);
      PassesOne(STATE_IS_CHUNKED + m, false, text[k], Live(STATE_IS_CHUNKED + n, false), []);
      PassesBoth(Live(STATE_IS_CHUNKED, false), text[..k], Live(STATE_IS_CHUNKED + m, false), [],
                 [text[k]], Live(STATE_IS_CHUNKED + n, false), []);
      assert text[..k] + [text[k]] == text && NONE + NONE == NONE;
    }
  }

  /** Behind the digits the rest of the line does not matter, if it starts with white space or a byte from 128 on. */
  lemma RestOfLineIsSkipped(n: nat, junk: seq<Byte>, rest: seq<Byte>)
    requires 0 < n < 0x1000_0000_0000_0000 && 10 !in junk && (junk != [] ==> junk[0] <= 32 || junk[0] >= 128)
    ensures Run(Live(STATE_IS_CHUNKED + n, false), junk + [10] + rest, false) == Run(Live(SIZED + n + 2, false), rest, false)
  {
    var word, line := STATE_IS_CHUNKED + n, [10] + rest;
    hide Run;
    LineEnds(n, false, rest);
    LineEnds(n, true, rest);
    if junk == [] {
      assert junk + [10] + rest == line;
    } else {
      assert junk + [10] + rest == [junk[0]] + (junk[1..] + line);
      assert Step(word, false, junk[0], false) == (Live(word, true), [], true);
      hide Step;
      RunOne(Live(word, false), junk[0], junk[1..] + line, Live(word, true));
      Skips(word, junk[1..], line);
    }
  }

  lemma LineEnds(n: nat, skipping: bool, rest: seq<Byte>)
    requires 0 < n < 0x1000_0000_0000_0000
    ensures Run(Live(STATE_IS_CHUNKED + n, skipping), [10] + rest, false) == Run(Live(SIZED + n + 2, false), rest, false)
  {
    var word := STATE_IS_CHUNKED + n;
    SizedGood(word);
    assert LineEnd(Sized(word), false) == (Live(SIZED + n + 2, false), []);
    assert Step(word, skipping, 10, false) == (Live(SIZED + n + 2, false), [], true);
    hide Step;
    RunOne(Live(word, skipping), 10, rest, Live(SIZED + n + 2, false));
  }

  lemma RunOne(phase: Phase, b: Byte, rest: seq<Byte>, then_: Phase)
    requires phase.Live? && Step(phase.word, phase.skipping, b, false) == (then_, [], true)
    ensures Run(phase, [b] + rest, false) == Run(then_, rest, false)
  {
    hide Step;
    assert ([b] + rest)[1..] == rest;
  }

  lemma {:induction false} Skips(word: Word, junk: seq<Byte>, line: seq<Byte>)
    requires !HasSize(word) && !Dropping(word) && 10 !in junk
    ensures Run(Live(word, true), junk + line, false) == Run(Live(word, true), line, false)
    decreases |junk|
  {
    if junk == [] {
      assert junk + line == line;
    } else {
      assert junk + line == [junk[0]] + (junk[1..] + line);
      assert Step(word, true, junk[0], false) == (Live(word, true), [], true);
      hide Step, Run;
      RunOne(Live(word, true), junk[0], junk[1..] + line, Live(word, true));
      Skips(word, junk[1..], line);
    }
  }

  lemma PassesNothing(word: Word)
    ensures Passes(Live(word, false), [], Live(word, false), [])
  {
  }

  lemma HexDigit(m: nat, d: nat, b: Byte)
    requires Utilities.IsHex(b, d) && 16 * m + d < 0x1000_0000_0000_0000
    ensures Step(STATE_IS_CHUNKED + m, false, b, false) == (Live(STATE_IS_CHUNKED + 16 * m + d, false), [], true)
  {
    var word := STATE_IS_CHUNKED + m;
    HexValue(b, d);
    assert ChunkSize(word) == m && !HasSize(word) && !Overflows(word);
    DigitGood(word, b);
  }

  lemma HexValue(b: Byte, d: nat)
    requires Utilities.IsHex(b, d)
    ensures IsPrinting(b) && IsDigit(b) && DigitValue(b) == d
  {
  }

  /** A longer size is refused at some digit. */
  lemma {:induction false} HugeSizeBreaks(text: seq<Byte>, n: nat, rest: seq<Byte>)
    requires Utilities.Spells(text, n) && n >= 0x1000_0000_0000_0000
    ensures Run(Live(STATE_IS_CHUNKED, false), text + rest, false).phase == Broken && WordOf(Broken) == 0xFFFF_FFFF_FFFF_FFFF
  {
    hide Run, Clean;
    var start, m, k := Live(STATE_IS_CHUNKED, false), n / 16, |text| - 1;
    assert text + rest == text[..k] + ([text[k]] + rest);
    if m >= 0x1000_0000_0000_0000 {
      HugeSizeBreaks(text[..k], m, [text[k]] + rest);
    } else {
      PassesSize(text[..k], m);
      RunConcat(start, text[..k], [text[k]] + rest, false);
      HugeDigit(m, n % 16, text[k], rest);
    }
  }

  lemma HugeDigit(m: nat, d: nat, b: Byte, rest: seq<Byte>)
    requires Utilities.IsHex(b, d) && 0x100_0000_0000_0000 <= m < 0x1000_0000_0000_0000
    ensures Run(Live(STATE_IS_CHUNKED + m, false), [b] + rest, false).phase == Broken
  {
    var word := STATE_IS_CHUNKED + m;
    HexValue(b, d);
    assert ChunkSize(word) == m && !HasSize(word) && Overflows(word);
  }

  lemma PassesLineEnd(n: nat)
    requires 0 < n < MAX_SIZE
    ensures Passes(Live(STATE_IS_CHUNKED + n, false), CRLF, Live(SIZED + n + 2, false), [])
  {
    var word := STATE_IS_CHUNKED + n;
    SizedGood(word);
    assert Step(word, false, CR, false) == (Live(word, true), [], true);
    assert Step(word, true, LF, false) == (Live(SIZED + n + 2, false), [], true);
    PassesOne(word, false, CR, Live(word, true), []);
    PassesOne(word, true, LF, Live(SIZED + n + 2, false), []);
    PassesBoth(Live(word, false), [CR], Live(word, true), [], [LF], Live(SIZED + n + 2, false), []);
    assert [CR] + [LF] == CRLF && NONE + NONE == NONE;
  }

  lemma {:induction false} PassesData(data: seq<Byte>, n: nat)
    requires |data| <= n < MAX_SIZE
    ensures Passes(Live(SIZED + n + 2, false), data, Live(SIZED + n + 2 - |data|, false), Chunk(data))
    decreases |data|
  {
    if data == [] {
      NoChunk();
    } else {
      DataByte(n, data[0]);
      PassesOne(SIZED + n + 2, false, data[0], Live(SIZED + n + 1, false), [Body(data[0])]);
      PassesData(data[1..], n - 1);
      hide Passes;
      PassesBoth(Live(SIZED + n + 2, false), [data[0]], Live(SIZED + n + 1, false), [Body(data[0])],
                 data[1..], Live(SIZED + n + 2 - |data|, false), Chunk(data[1..]));
      assert [data[0]] + data[1..] == data;
      assert [Body(data[0])] + Chunk(data[1..]) == Chunk(data);
    }
  }

  lemma DataByte(n: nat, b: Byte)
    requires 0 < n < MAX_SIZE
    ensures Step(SIZED + n + 2, false, b, false) == (Live(SIZED + n + 1, false), [Body(b)], true)
  {
  }

  lemma PassesDataEnd()
    ensures Passes(Live(SIZED + 2, false), CRLF, Live(STATE_IS_CHUNKED, false), [])
  {
    assert Step(SIZED + 2, false, CR, false) == (Live(SIZED + 1, false), [], true);
    assert Step(SIZED + 1, false, LF, false) == (Live(STATE_IS_CHUNKED, false), [], true);
    PassesOne(SIZED + 2, false, CR, Live(SIZED + 1, false), []);
    PassesOne(SIZED + 1, false, LF, Live(STATE_IS_CHUNKED, false), []);
    PassesBoth(Live(SIZED + 2, false), [CR], Live(SIZED + 1, false), [], [LF], Live(STATE_IS_CHUNKED, false), []);
    assert [CR] + [LF] == CRLF && NONE + NONE == NONE;
  }

  lemma PassesChunk(size: seq<Byte>, data: seq<Byte>)
    requires Utilities.Spells(size, |data|) && 0 < |data| < 0x1000_0000_0000_0000
    ensures Passes(Live(STATE_IS_CHUNKED, false), size + CRLF + data + CRLF, Live(STATE_IS_CHUNKED, false), Chunk(data))
  {
    hide Passes;
    var n, start := |data|, Live(STATE_IS_CHUNKED, false);
    PassesSize(size, n);
    PassesLineEnd(n);
    PassesData(data, n);
    PassesDataEnd();
    PassesBoth(start, size, Live(STATE_IS_CHUNKED + n, false), [], CRLF, Live(SIZED + n + 2, false), []);
    assert NONE + NONE == NONE && NONE + Chunk(data) == Chunk(data) && Chunk(data) + NONE == Chunk(data);
    PassesBoth(start, size + CRLF, Live(SIZED + n + 2, false), [], data, Live(SIZED + 2, false), Chunk(data));
    PassesBoth(start, size + CRLF + data, Live(SIZED + 2, false), Chunk(data), CRLF, start, []);
  }

  /** The end of a body behind its last size, which is zero. */
  lemma LastLine(following: seq<Byte>)
    ensures var s := [CR, LF, CR, LF] + following;
            && Run(Live(STATE_IS_CHUNKED, false), s, false) == Result(Finished, [End], following)
            && Clean(Live(STATE_IS_CHUNKED, false), s, false)
  {
    var start := Live(STATE_IS_CHUNKED, false);
    var word := STATE_HAS_SIZE + 2;
    assert Step(STATE_IS_CHUNKED, false, CR, false) == (Live(STATE_IS_CHUNKED, true), [], true);
    assert Step(STATE_IS_CHUNKED, true, LF, false) == (Live(word, false), [End], true);
    assert Step(word, false, CR, false) == (Live(word - 1, false), [], true);
    assert Step(word - 1, false, LF, false) == (Finished, [], true);
    var s := [CR, LF, CR, LF] + following;
    assert s[1..][1..] == s[2..] && s[2..][1..] == s[3..] && s[3..][1..] == following;
    hide Step;
    assert Run(Live(word - 1, false), s[3..], false) == Result(Finished, [], following);
    assert Run(Live(word, false), s[2..], false) == Result(Finished, [], following);
    assert Run(Live(STATE_IS_CHUNKED, true), s[1..], false) == Result(Finished, [End], following);
    assert Clean(Live(word - 1, false), s[3..], false) && Clean(Live(word, false), s[2..], false);
    assert Clean(Live(STATE_IS_CHUNKED, true), s[1..], false);
  }

  /** With trailers, four bytes behind the last size line are dropped where there are two without, whatever they are. */
  lemma LastLineWithTrailer(a: Byte, b: Byte, c: Byte, d: Byte, following: seq<Byte>)
    ensures Run(Live(STATE_IS_CHUNKED, false), [CR, LF, a, b, c, d] + following, true) == Result(Finished, [End], following)
  {
    var word := STATE_HAS_SIZE + 4;
    var s := [CR, LF, a, b, c, d] + following;
    assert Step(STATE_IS_CHUNKED, false, CR, true) == (Live(STATE_IS_CHUNKED, true), [], true);
    assert Step(STATE_IS_CHUNKED, true, LF, true) == (Live(word, false), [End], true);
    assert s[1..][1..] == s[2..] && s[2..][1..] == s[3..] && s[3..][1..] == s[4..] && s[4..][1..] == s[5..];
    assert s[5..][1..] == following;
    assert Step(word, false, a, true) == (Live(word - 1, false), [], true);
    assert Step(word - 1, false, b, true) == (Live(word - 2, false), [], true);
    assert Step(word - 2, false, c, true) == (Live(word - 3, false), [], true);
    assert Step(word - 3, false, d, true) == (Finished, [], true);
    hide Step;
    assert Run(Live(word - 3, false), s[5..], true) == Result(Finished, [], following);
    assert Run(Live(word - 2, false), s[4..], true) == Result(Finished, [], following);
    assert Run(Live(word - 1, false), s[3..], true) == Result(Finished, [], following);
    assert Run(Live(word, false), s[2..], true) == Result(Finished, [], following);
    assert Run(Live(STATE_IS_CHUNKED, true), s[1..], true) == Result(Finished, [End], following);
  }

  lemma {:induction false} ChunkConcat(a: seq<Byte>, b: seq<Byte>)
    ensures Chunk(a + b) == Chunk(a) + Chunk(b)
  {
  }

  /** A body in chunks whose sizes are spelled in some way. */
  function Spelled(sizes: seq<seq<Byte>>, chunks: seq<seq<Byte>>, last: seq<Byte>): seq<Byte>
    requires |sizes| == |chunks|
  {
    if chunks == [] then last + [13, 10, 13, 10]
    else sizes[0] + [13, 10] + chunks[0] + [13, 10] + Spelled(sizes[1..], chunks[1..], last)
  }

  predicate SizesOk(sizes: seq<seq<Byte>>, chunks: seq<seq<Byte>>, last: seq<Byte>) {
    && |sizes| == |chunks| && Utilities.Spells(last, 0)
    && forall i :: 0 <= i < |chunks| ==> 0 < |chunks[i]| < 0x1000_0000_0000_0000 && Utilities.Spells(sizes[i], |chunks[i]|)
  }

  /** Such a body in one piece. */
  lemma {:induction false} SpelledRun(sizes: seq<seq<Byte>>, chunks: seq<seq<Byte>>, last: seq<Byte>, following: seq<Byte>)
    requires SizesOk(sizes, chunks, last)
    ensures Run(Live(STATE_IS_CHUNKED, false), Spelled(sizes, chunks, last) + following, false)
         == Result(Finished, Chunk(Concat(chunks)) + [End], following)
    ensures Clean(Live(STATE_IS_CHUNKED, false), Spelled(sizes, chunks, last) + following, false)
    decreases |chunks|
  {
    var start := Live(STATE_IS_CHUNKED, false);
    hide Run, Clean, Chunk, Utilities.Spells;
    if chunks == [] {
      LastPart(last, following);
      assert Concat(chunks) == [];
      assert Spelled(sizes, chunks, last) + following == last + ([CR, LF, CR, LF] + following);
    } else {
      var a, b := sizes[0] + CRLF + chunks[0] + CRLF, Spelled(sizes[1..], chunks[1..], last) + following;
      assert Spelled(sizes, chunks, last) + following == a + b;
      SpelledRun(sizes[1..], chunks[1..], last, following);
      FirstPart(sizes[0], chunks[0], b, Chunk(Concat(chunks[1..])) + [End], following);
      ChunkConcat(chunks[0], Concat(chunks[1..]));
      assert Chunk(chunks[0]) + (Chunk(Concat(chunks[1..])) + [End]) == Chunk(Concat(chunks)) + [End];
    }
  }

  lemma LastPart(last: seq<Byte>, following: seq<Byte>)
    requires Utilities.Spells(last, 0)
    ensures var s := last + ([CR, LF, CR, LF] + following);
            && Run(Live(STATE_IS_CHUNKED, false), s, false) == Result(Finished, Chunk([]) + [End], following)
            && Clean(Live(STATE_IS_CHUNKED, false), s, false)
  {
    hide Run, Clean, Chunk;
    var start, end := Live(STATE_IS_CHUNKED, false), [CR, LF, CR, LF] + following;
    PassesSize(last, 0);
    LastLine(following);
    RunConcat(start, last, end, false);
    CleanParts(start, last, end, false);
    NoChunk();
    assert Chunk([]) + [End] == [End] && NONE + [End] == [End];
  }

  lemma FirstPart(size: seq<Byte>, data: seq<Byte>, rest: seq<Byte>, outs: seq<Out>, following: seq<Byte>)
    requires Utilities.Spells(size, |data|) && 0 < |data| < 0x1000_0000_0000_0000
    requires Run(Live(STATE_IS_CHUNKED, false), rest, false) == Result(Finished, outs, following)
    requires Clean(Live(STATE_IS_CHUNKED, false), rest, false)
    ensures var s := size + CRLF + data + CRLF + rest;
            && Run(Live(STATE_IS_CHUNKED, false), s, false) == Result(Finished, Chunk(data) + outs, following)
            && Clean(Live(STATE_IS_CHUNKED, false), s, false)
  {
    hide Run, Clean, Chunk;
    PassesChunk(size, data);
    RunConcat(Live(STATE_IS_CHUNKED, false), size + CRLF + data + CRLF, rest, false);
    CleanParts(Live(STATE_IS_CHUNKED, false), size + CRLF + data + CRLF, rest, false);
  }

  /** A body with sizes of less than 60 bits, spelled in hex of either case and with any zeros in front, is decoded, from
      whatever reads, to its bytes and one end, and what follows is left alone. */
  lemma {:induction false} SpelledIsDecoded(sizes: seq<seq<Byte>>, chunks: seq<seq<Byte>>, last: seq<Byte>,
                                            following: seq<Byte>, pieces: seq<seq<Byte>>)
    requires SizesOk(sizes, chunks, last) && Concat(pieces) == Spelled(sizes, chunks, last) + following
    ensures Same(RunReads(STATE_IS_CHUNKED, pieces, false), Result(Finished, Chunk(Concat(chunks)) + [End], following))
  {
    hide Run, Clean, RunReads, Spelled, Concat, Chunk, PhaseOf;
    SpelledRun(sizes, chunks, last, following);
    GoodIsLive(STATE_IS_CHUNKED);
    CutsMakeNoDifference(STATE_IS_CHUNKED, pieces, false);
  }

  /** Printed sizes are one such spelling. */
  lemma {:induction false} PrintedIsSpelled(chunks: seq<seq<Byte>>)
    requires forall i :: 0 <= i < |chunks| ==> ChunkOk(chunks[i])
    ensures var sizes := seq(|chunks|, i requires 0 <= i < |chunks| => Utilities.Text(|chunks[i]|, 16));
            SizesOk(sizes, chunks, ['0' as int]) && Printed(chunks) == Spelled(sizes, chunks, ['0' as int])
  {
    hide Utilities.Text;
    var sizes := seq(|chunks|, i requires 0 <= i < |chunks| => Utilities.Text(|chunks[i]|, 16));
    var zero: seq<Byte> := ['0' as int];
    assert Utilities.Spells(zero, 0) by { assert zero[..0] == []; }
    if chunks == [] {
      assert LAST == zero + [13, 10, 13, 10];
    } else {
      PrintedIsSpelled(chunks[1..]);
      Utilities.TextSpells(|chunks[0]|);
      assert sizes[1..] == seq(|chunks[1..]|, i requires 0 <= i < |chunks[1..]| => Utilities.Text(|chunks[1..][i]|, 16));
      forall i | 0 <= i < |chunks| ensures Utilities.Spells(sizes[i], |chunks[i]|) {
        Utilities.TextSpells(|chunks[i]|);
      }
    }
  }

  /** What is written in chunks is decoded, from whatever reads, to the same bytes and one end, and what follows
      is left alone. */
  lemma PrintedIsDecoded(chunks: seq<seq<Byte>>, following: seq<Byte>, pieces: seq<seq<Byte>>)
    requires forall i :: 0 <= i < |chunks| ==> 0 < |chunks[i]| < 0x1_0000_0000
    requires Concat(pieces) == Printed(chunks) + following
    ensures Same(RunReads(STATE_IS_CHUNKED, pieces, false), Result(Finished, Chunk(Concat(chunks)) + [End], following))
  {
    hide RunReads, Printed, Spelled, Concat, Chunk, SizesOk;
    var sizes := seq(|chunks|, i requires 0 <= i < |chunks| => Utilities.Text(|chunks[i]|, 16));
    PrintedIsSpelled(chunks);
    SpelledIsDecoded(sizes, chunks, ['0' as int], following, pieces);
  }

  /** Both ends together. The first line end is still the headers'. */
  method WriteAndDecode(data: seq<seq<Byte>>, last: seq<Byte>, following: seq<Byte>, cut: seq<Byte> -> seq<seq<Byte>>)
    returns (outs: seq<Out>, rest: seq<Byte>, word: Word)
    requires forall i :: 0 <= i < |data| ==> ChunkOk(data[i])
    requires data != [] && |last| < MAX_CHUNK
    requires forall s :: Concat(cut(s)) == s
    ensures outs == Chunk(Concat(data + [last])) + [End] && rest == following && word == 0
  {
    hide Passes, Run, Clean, Chunk;
    var response := new Response();
    var i := 0;
    while i < |data|
      invariant i <= |data| && fresh(response) && response.Valid() && response.chunks == data[..i]
    {
      response.Write(data[i]);
      i := i + 1;
    }
    response.End(last);
    assert data[..i] == data;
    var stream := response.out[2..] + following;
    assert stream == Printed(response.chunks) + following;
    PrintedIsDecoded(response.chunks, following, cut(stream));
    outs, rest, word := DecodeReads(cut(stream), STATE_IS_CHUNKED, false);
    ConcatLast(data, last);
  }

  lemma {:induction false} ConcatLast(data: seq<seq<Byte>>, last: seq<Byte>)
    ensures last == [] ==> Concat(data + [last]) == Concat(data)
  {
    if data == [] {
      assert (data + [last])[1..] == [];
    } else {
      ConcatLast(data[1..], last);
      assert (data + [last])[1..] == data[1..] + [last];
    }
  }
}
