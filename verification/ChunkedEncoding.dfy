/** The resumable decoder of chunked bodies (ChunkedEncoding.h; RFC 9112, section 7.1), whose whole state is one
    64-bit word, and a machine that takes one byte at a time. */
module ChunkedEncoding {
  import opened Bytes

  type Word = w: nat | w < 0x1_0000_0000_0000_0000

  const WORDS := 0x1_0000_0000_0000_0000
  const STATE_HAS_SIZE: Word := 0x8000_0000_0000_0000
  const STATE_IS_CHUNKED: Word := 0x4000_0000_0000_0000
  const STATE_IS_ERROR: Word := 0xFFFF_FFFF_FFFF_FFFF

  function ChunkSize(state: Word): nat {
    state % STATE_IS_CHUNKED
  }

  predicate HasSize(state: Word) {
    state >= STATE_HAS_SIZE
  }

  predicate IsChunked(state: Word) {
    (state / STATE_IS_CHUNKED) % 2 == 1
  }

  /** One of the bits 56 to 59 of the size is set. */
  predicate Overflows(state: Word) {
    (ChunkSize(state) / 0x100_0000_0000_0000) % 16 != 0
  }

  function SetChunked(state: Word): Word {
    if IsChunked(state) then state else state + STATE_IS_CHUNKED
  }

  function SetHasSize(state: Word): Word {
    if HasSize(state) then state else state + STATE_HAS_SIZE
  }

  const LF: Byte := 10
  const CR: Byte := 13

  /** Characters are signed: those from 128 on are below zero. */
  predicate IsPrinting(b: Byte) {
    32 < b < 128
  }

  /** Below zero or over 16 for what is not taken for a digit. */
  function DigitValue(b: Byte): int {
    (if b >= 'a' as int then b - ('a' as int - ':' as int)
     else if b >= 'A' as int then b - ('A' as int - ':' as int)
     else b) - '0' as int
  }

  predicate IsDigit(b: Byte) {
    0 <= DigitValue(b) <= 16
  }

  /** Of the characters that are not white space, '0' to '9', 'A' to 'F' and 'a' to 'f' are what they are in hex; but
      ':' to '?' are taken for 10 to 15, and '@', 'G' and 'g' for 16. No other is taken for a digit. */
  lemma DigitIs(b: Byte)
    ensures IsPrinting(b) <==> 32 < b < 128
    ensures 32 < b < 128 ==> (IsDigit(b) <==> '0' as int <= b <= 'G' as int || 'a' as int <= b <= 'g' as int)
    ensures '0' as int <= b <= '@' as int ==> DigitValue(b) == b - 48
    ensures 'A' as int <= b <= 'G' as int ==> DigitValue(b) == b - 55
    ensures 'a' as int <= b <= 'g' as int ==> DigitValue(b) == b - 87
  {
  }

  function AddDigit(state: Word, b: Byte): Word
    requires IsDigit(b)
  {
    SetChunked((ChunkSize(state) * 16 + DigitValue(b)) % WORDS)
  }

  /** At the end of a size line: the size counts the line end behind the data too. */
  function Sized(state: Word): Word {
    SetHasSize(SetChunked((state + 2) % WORDS))
  }

  // ---------------------------------------------------------------- one byte at a time

  datatype Out = Body(b: Byte) | End

  /** `skipping` is what the word does not say: that on this size line a byte that ends the digits was met. */
  datatype Phase = Live(word: Word, skipping: bool) | Finished | Broken

  datatype Result = Result(phase: Phase, outs: seq<Out>, left: seq<Byte>)

  predicate Dropping(word: Word) {
    HasSize(word) && !IsChunked(word) && ChunkSize(word) > 0
  }

  /** Where the end of a size line leads. */
  function LineEnd(word: Word, trailer: bool): (Phase, seq<Out>) {
    if ChunkSize(word) == 2 then (Live(STATE_HAS_SIZE + (if trailer then 4 else 2), false), [End]) else (Live(word, false), [])
  }

  /** The phase after a byte, what it puts out, and whether it is consumed. */
  function Step(word: Word, skipping: bool, b: Byte, trailer: bool): (r: (Phase, seq<Out>, bool)) {
    if Dropping(word) then
      (if ChunkSize(word) == 1 then Finished else Live(word - 1, false), [], true)
    else if !HasSize(word) then
      if !skipping && IsPrinting(b) then
        if !IsDigit(b) || Overflows(word) then (Broken, [], false) else (Live(AddDigit(word, b), false), [], true)
      else if b != LF then (Live(word, true), [], true)
      else var (phase, outs) := LineEnd(Sized(word), trailer); (phase, outs, true)
    else
      (if ChunkSize(word) <= 1 then Live(STATE_IS_CHUNKED, false) else Live(word - 1, false),
       if ChunkSize(word) > 2 then [Body(b)] else [], true)
  }

  function Before(outs: seq<Out>, r: Result): Result {
    r.(outs := outs + r.outs)
  }

  function Run(phase: Phase, data: seq<Byte>, trailer: bool): (r: Result)
    decreases |data|
  {
    if data == [] || !phase.Live? then Result(phase, [], data)
    else
      var (next, outs, consumed) := Step(phase.word, phase.skipping, data[0], trailer);
      if !consumed then Result(next, outs, data) else Before(outs, Run(next, data[1..], trailer))
  }

  /** What the decoder keeps of a phase from one read to the next. */
  function WordOf(phase: Phase): Word {
    match phase
    case Live(word, _) => word
    case Finished => 0
    case Broken => STATE_IS_ERROR
  }

  function PhaseOf(word: Word): Phase {
    if word == 0 then Finished else if word == STATE_IS_ERROR then Broken else Live(word, false)
  }

  /** The words met between two reads. */
  predicate Good(word: Word) {
    if HasSize(word) then
      if IsChunked(word) then 1 <= ChunkSize(word) <= MAX_SIZE + 2 else 1 <= ChunkSize(word) <= 4
    else IsChunked(word) && ChunkSize(word) <= MAX_SIZE
  }

  predicate Orderly(phase: Phase) {
    phase.Live? ==> Good(phase.word)
  }

  const MAX_SIZE := 0x1000_0000_0000_0000

  /** The size after one more digit. It can be one over 60 bits (a digit may be worth 16) and is then lost. */
  lemma {:induction false} DigitGood(word: Word, b: Byte)
    requires Good(word) && !HasSize(word) && IsDigit(b) && !Overflows(word)
    ensures Good(AddDigit(word, b)) && !HasSize(AddDigit(word, b))
    ensures ChunkSize(AddDigit(word, b)) == (if ChunkSize(word) == MAX_SIZE then 0 else ChunkSize(word) * 16) + DigitValue(b)
  {
    var size := ChunkSize(word);
    assert size < 0x100_0000_0000_0000 || size == MAX_SIZE;
    var next := (size * 16 + DigitValue(b)) % WORDS;
    assert next == (if size == MAX_SIZE then 0 else size * 16) + DigitValue(b);
  }

  /** No more digits are taken from 2 to the 56th on; but at exactly 2 to the 60th, which only a digit worth 16 leads to,
      they are. */
  lemma OverflowsIs(word: Word)
    requires Good(word) && !HasSize(word)
    ensures Overflows(word) <==> 0x100_0000_0000_0000 <= ChunkSize(word) < 0x1000_0000_0000_0000
    ensures ChunkSize(word) <= 0x1000_0000_0000_0000 && word == 0x4000_0000_0000_0000 + ChunkSize(word)
  {
  }

  lemma SizedGood(word: Word)
    requires Good(word) && !HasSize(word)
    ensures Good(Sized(word)) && HasSize(Sized(word)) && IsChunked(Sized(word)) && ChunkSize(Sized(word)) == ChunkSize(word) + 2
    ensures Sized(word) == STATE_HAS_SIZE + STATE_IS_CHUNKED + ChunkSize(word) + 2 < STATE_IS_ERROR
  {
    var size := ChunkSize(word);
    assert word == STATE_IS_CHUNKED + size;
    var next: Word := STATE_IS_CHUNKED + (size + 2);
    assert (word + 2) % WORDS == next && IsChunked(next) && !HasSize(next);
    var sized: Word := STATE_HAS_SIZE + next;
    assert Sized(word) == sized && HasSize(sized);
    assert sized == STATE_IS_CHUNKED * 3 + (size + 2);
    assert sized % STATE_IS_CHUNKED == size + 2 && sized / STATE_IS_CHUNKED == 3;
  }

  lemma {:induction false} StepOrderly(word: Word, skipping: bool, b: Byte, trailer: bool)
    requires Good(word)
    ensures Orderly(Step(word, skipping, b, trailer).0)
  {
    hide AddDigit, Sized, Overflows, IsPrinting;
    if !HasSize(word) {
      SizedGood(word);
      if IsDigit(b) && !Overflows(word) {
        DigitGood(word, b);
      }
    }
  }

  lemma {:induction false} RunOrderly(phase: Phase, data: seq<Byte>, trailer: bool)
    requires Orderly(phase)
    ensures Orderly(Run(phase, data, trailer).phase)
    decreases |data|
  {
    if data != [] && phase.Live? {
      StepOrderly(phase.word, phase.skipping, data[0], trailer);
      var (next, outs, consumed) := Step(phase.word, phase.skipping, data[0], trailer);
      RunOrderly(next, data[1..], trailer);
    }
  }

  // ---------------------------------------------------------------- the decoder

  /** The same to somebody who sees words only. */
  predicate Same(a: Result, b: Result) {
    a.outs == b.outs && a.left == b.left && WordOf(a.phase) == WordOf(b.phase)
  }

  function Chunk(data: seq<Byte>): (outs: seq<Out>) {
    seq(|data|, i requires 0 <= i < |data| => Body(data[i]))
  }

  function OutsOf(chunk: Option): (outs: seq<Out>) {
    match chunk
    case None => []
    case Some(data) => if data == [] then [End] else Chunk(data)
  }

  datatype Option = None | Some(data: seq<Byte>)

  /** Reads a hex number and the rest of its line, if there is so much. */
  method ConsumeHexNumber(data: seq<Byte>, state: Word, ghost trailer: bool) returns (rest: seq<Byte>, word: Word)
    requires Good(state) && !HasSize(state)
    ensures |rest| <= |data| && (word != STATE_IS_ERROR ==> Good(word))
    ensures word == STATE_IS_ERROR ==> Run(Live(state, false), data, trailer) == Result(Broken, [], rest)
    ensures word != STATE_IS_ERROR && !HasSize(word) ==>
              rest == [] && exists skipping :: Run(Live(state, false), data, trailer) == Result(Live(word, skipping), [], [])
    ensures word != STATE_IS_ERROR && HasSize(word) ==>
              |rest| < |data| && IsChunked(word) && ChunkSize(word) >= 2
              && var (phase, outs) := LineEnd(word, trailer);
                 Run(Live(state, false), data, trailer) == Before(outs, Run(phase, rest, trailer))
  {
    rest, word := data, state;
    while |rest| > 0 && IsPrinting(rest[0])
      invariant |rest| <= |data| && Good(word) && !HasSize(word)
      invariant Run(Live(word, false), rest, trailer) == Run(Live(state, false), data, trailer)
      decreases |rest|
    {
      if !IsDigit(rest[0]) || Overflows(word) {
        return rest, STATE_IS_ERROR;
      }
      DigitGood(word, rest[0]);
      word := AddDigit(word, rest[0]);
      rest := rest[1..];
    }
    rest := SkipLine(rest, word, trailer);
    if |rest| > 0 {
      SizedGood(word);
      word := Sized(word);
      rest := rest[1..];
    }
  }

  /** Skips what is left of a line, up to its end or that of the data. */
  method SkipLine(data: seq<Byte>, word: Word, ghost trailer: bool) returns (rest: seq<Byte>)
    requires Good(word) && !HasSize(word) && (data != [] ==> !IsPrinting(data[0]))
    ensures |rest| <= |data| && (rest != [] ==> rest[0] == LF)
    ensures exists skipping :: Run(Live(word, false), data, trailer) == Run(Live(word, skipping), rest, trailer)
  {
    rest := data;
    ghost var skipping := false;
    while |rest| > 0 && rest[0] != LF
      invariant |rest| <= |data| && (!skipping && rest != [] ==> !IsPrinting(rest[0]))
      invariant Run(Live(word, false), data, trailer) == Run(Live(word, skipping), rest, trailer)
      decreases |rest|
    {
      rest := rest[1..];
      skipping := true;
    }
  }

  /** How many of the next `k` bytes of a chunk with `size` bytes to go are data. */
  function DataBytes(size: nat, k: nat): (n: nat)
    ensures n <= k
  {
    if size <= 2 then 0 else if k <= size - 2 then k else size - 2
  }

  function AfterData(word: Word, k: nat): Word
    requires k <= ChunkSize(word)
  {
    if k == ChunkSize(word) then STATE_IS_CHUNKED else word - k
  }

  predicate InData(word: Word) {
    HasSize(word) && IsChunked(word)
  }

  lemma Fewer(word: Word, k: nat)
    requires Good(word) && InData(word) && k < ChunkSize(word)
    ensures word - k >= 0 && InData(word - k) && Good(word - k) && ChunkSize(word - k) == ChunkSize(word) - k
  {
  }

  /** A word is never one of the two that end the decoding. */
  lemma GoodIsLive(word: Word)
    requires Good(word)
    ensures PhaseOf(word) == Live(word, false)
  {
  }

  lemma OneByte(word: Word, data: seq<Byte>, trailer: bool)
    requires Good(word) && InData(word) && data != []
    ensures Run(Live(word, false), data, trailer)
         == Before(if ChunkSize(word) > 2 then [Body(data[0])] else [], Run(Live(AfterData(word, 1), false), data[1..], trailer))
  {
    hide ChunkSize;
  }

  lemma ChunkParts(data: seq<Byte>, n: nat, k: nat)
    requires 0 < k <= |data|
    ensures Chunk(data[..DataBytes(n, k)])
         == (if n > 2 then [Body(data[0])] else []) + (if k > 1 && n > 1 then Chunk(data[1..][..DataBytes(n - 1, k - 1)]) else [])
  {
    var m := DataBytes(n, k);
    if m > 0 {
      assert data[..m] == [data[0]] + data[1..][..m - 1];
    }
  }

  /** `k` bytes of a chunk taken at once. */
  lemma {:induction false} RunData(word: Word, data: seq<Byte>, k: nat, trailer: bool)
    requires Good(word) && InData(word) && k <= ChunkSize(word) && k <= |data|
    ensures Run(Live(word, false), data, trailer)
         == Before(Chunk(data[..DataBytes(ChunkSize(word), k)]), Run(Live(AfterData(word, k), false), data[k..], trailer))
    decreases k
  {
    hide Chunk, DataBytes, ChunkSize, InData, Good, Run;
    OneMoreByte(word, k);
    if k == 0 {
      assert data[0..] == data && data[..DataBytes(ChunkSize(word), k)] == [];
      NoChunk();
    } else {
      OneByte(word, data, trailer);
      ChunkParts(data, ChunkSize(word), k);
      if k == 1 {
        assert Chunk(data[..DataBytes(ChunkSize(word), k)]) == if ChunkSize(word) > 2 then [Body(data[0])] else [];
      } else {
        hide AfterData;
        RunData(word - 1, data[1..], k - 1, trailer);
        assert data[1..][k - 1..] == data[k..];
      }
    }
  }

  lemma OneMoreByte(word: Word, k: nat)
    requires Good(word) && InData(word) && k <= ChunkSize(word)
    ensures ChunkSize(word) >= 1
    ensures k > 1 ==>
              word >= 1 && InData(word - 1) && Good(word - 1) && ChunkSize(word - 1) == ChunkSize(word) - 1
              && AfterData(word, 1) == word - 1 && AfterData(word, k) == AfterData(word - 1, k - 1)
  {
  }

  lemma NoChunk()
    ensures Chunk([]) == []
  {
  }

  /** Returns the next piece of a chunk, an empty one at the end of the body, or None. Then either all data is
      used up, or the decoder stands right behind the body, or the data is malformed. */
  method GetNextChunk(data: seq<Byte>, state: Word, trailer: bool) returns (chunk: Option, rest: seq<Byte>, word: Word)
    requires Good(state)
    ensures word == 0 || word == STATE_IS_ERROR || Good(word)
    ensures Same(Before(OutsOf(chunk), Run(PhaseOf(word), rest, trailer)), Run(Live(state, false), data, trailer))
    ensures chunk.None? ==> rest == [] || word == 0 || word == STATE_IS_ERROR
    ensures |rest| <= |data| && (chunk.Some? ==> |rest| < |data| && Good(word))
  {
    hide Run, Good, ChunkSize, HasSize, IsChunked, Chunk, PhaseOf, DataBytes;
    rest, word := data, state;
    while |rest| > 0
      invariant Good(word) && |rest| <= |data|
      invariant Same(Run(Live(word, false), rest, trailer), Run(Live(state, false), data, trailer))
      decreases |rest|
    {
      Kinds(word);
      if !IsChunked(word) && HasSize(word) && ChunkSize(word) > 0 {
        rest, word := Drop(rest, word, trailer);
        NothingLeft(word, rest, trailer);
        if word == 0 {
          return None, rest, word;
        }
      } else if !HasSize(word) {
        rest, word := ConsumeHexNumber(rest, word, trailer);
        NothingLeft(word, rest, trailer);
        if word == STATE_IS_ERROR {
          return None, rest, word;
        }
        if HasSize(word) && ChunkSize(word) == 2 {
          word := STATE_HAS_SIZE + if trailer then 4 else 2;
          DropWord(trailer);
          return Some([]), rest, word;
        }
      } else {
        chunk, rest, word := TakeData(rest, word, trailer);
        GoodIsLive(word);
        if chunk.Some? || rest == [] {
          return;
        }
      }
    }
    GoodIsLive(word);
    return None, rest, word;
  }

  /** What is there of the current chunk. */
  method TakeData(data: seq<Byte>, state: Word, ghost trailer: bool) returns (chunk: Option, rest: seq<Byte>, word: Word)
    requires Good(state) && InData(state) && data != []
    ensures Good(word) && |rest| < |data| && (chunk.Some? ==> chunk.data != [])
    ensures Run(Live(state, false), data, trailer) == Before(OutsOf(chunk), Run(Live(word, false), rest, trailer))
  {
    var size := ChunkSize(state);
    hide Run, Chunk, DataBytes;
    assert size > 0;
    NoChunk();
    if |data| >= size {
      RunData(state, data, size, trailer);
      var emit := data[..DataBytes(size, size)];
      assert |emit| == 0 ==> emit == [];
      rest, word := data[size..], STATE_IS_CHUNKED;
      chunk := if |emit| > 0 then Some(emit) else None;
    } else {
      RunData(state, data, |data|, trailer);
      Fewer(state, |data|);
      var emit := data[..DataBytes(size, |data|)];
      assert |emit| == 0 ==> emit == [];
      assert data[|data|..] == [];
      rest, word := [], state - |data|;
      chunk := if |emit| > 0 then Some(emit) else None;
    }
  }

  lemma Joined(a: seq<Out>, b: seq<Out>, r: Result)
    ensures Before(a, Before(b, r)) == Before(a + b, r)
  {
    assert a + (b + r.outs) == (a + b) + r.outs;
  }

  lemma Kinds(word: Word)
    requires Good(word)
    ensures !HasSize(word) || Dropping(word) || InData(word)
  {
  }

  lemma NothingLeft(word: Word, rest: seq<Byte>, trailer: bool)
    ensures word == 0 ==> Run(PhaseOf(word), rest, trailer) == Result(Finished, [], rest) && PhaseOf(word) == Finished
    ensures word == STATE_IS_ERROR ==> Run(PhaseOf(word), rest, trailer) == Result(Broken, [], rest) && PhaseOf(word) == Broken
    ensures forall skipping :: Run(Live(word, skipping), [], trailer) == Result(Live(word, skipping), [], [])
    ensures Run(PhaseOf(word), [], trailer) == Result(PhaseOf(word), [], [])
  {
  }

  lemma DropWord(trailer: bool)
    ensures var word := STATE_HAS_SIZE + if trailer then 4 else 2;
            Good(word) && PhaseOf(word) == Live(word, false)
  {
  }

  /** Drops what is left behind the last chunk, a byte at a time. */
  method Drop(data: seq<Byte>, state: Word, ghost trailer: bool) returns (rest: seq<Byte>, word: Word)
    requires Good(state) && Dropping(state) && data != []
    ensures |rest| < |data|
    ensures word == 0 || (rest == [] && Good(word))
    ensures Run(Live(state, false), data, trailer) == if word == 0 then Result(Finished, [], rest) else Result(Live(word, false), [], [])
  {
    rest, word := data, state;
    while |rest| > 0
      invariant |rest| <= |data| && (rest == [] ==> data != rest) && Good(word) && Dropping(word)
      invariant Run(Live(word, false), rest, trailer) == Run(Live(state, false), data, trailer)
      decreases |rest|
    {
      rest := rest[1..];
      if ChunkSize(word) == 1 {
        return rest, 0;
      }
      word := word - 1;
    }
  }

  /** All of one read, as the parser does it: chunks are handed out until there is none. */
  method DecodeRead(data: seq<Byte>, state: Word, trailer: bool) returns (outs: seq<Out>, rest: seq<Byte>, word: Word)
    requires Good(state)
    ensures word == 0 || word == STATE_IS_ERROR || Good(word)
    ensures Same(Result(PhaseOf(word), outs, rest), Run(Live(state, false), data, trailer))
  {
    hide Run, Good, PhaseOf, OutsOf;
    outs, rest, word := [], data, state;
    var chunk;
    chunk, rest, word := GetNextChunk(rest, word, trailer);
    while chunk.Some?
      invariant word == 0 || word == STATE_IS_ERROR || Good(word)
      invariant Same(Before(outs, Before(OutsOf(chunk), Run(PhaseOf(word), rest, trailer))), Run(Live(state, false), data, trailer))
      invariant chunk.None? ==> rest == [] || word == 0 || word == STATE_IS_ERROR
      invariant chunk.Some? ==> Good(word)
      decreases |rest|, chunk.Some?
    {
      GoodIsLive(word);
      Joined(outs, OutsOf(chunk), Run(PhaseOf(word), rest, trailer));
      outs := outs + OutsOf(chunk);
      chunk, rest, word := GetNextChunk(rest, word, trailer);
    }
    NothingLeft(word, rest, trailer);
    assert OutsOf(None) == [] by { NoPiece(); }
  }

  lemma NoPiece()
    ensures OutsOf(None) == []
  {
  }
}
