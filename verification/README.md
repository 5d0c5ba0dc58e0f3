# uWebSockets chat server: a verified model

A Dafny model of the hard logic of this chat server: the vendored uWebSockets code it runs on and its own queues,
workers and session registry. Code that changes state in place is modelled by classes and methods with loops, each
proved against a specification function; what the code is for is then proved of those functions.

- **WebSocket receiving** (`FrameMachine`, `FrameFeed`, `Wire`, `Masking`, `Utf8`, `Receiver`). A machine that takes one byte
  at a time is the specification. The parser object, with its spill, opcode stack, rotating mask, unmasking in place
  and one buffer for messages and control frames, is proved to do for each read what the machine does for its bytes;
  what the machine does is said by the bytes on the wire (`Wire`).
- **WebSocket sending** (`Printer`, `Conversation`, `BackPressure`, `AsyncSocket`, `WebSocket`, `Delivery`). Frames are
  read back by the other role; bytes keep their order through cork buffer, backpressure and partial writes of the kernel.
- **Publish and subscribe** (`TopicTree`). Palette, 16-bit indices and the intrusive list amount to one plain queue
  for each subscriber.
- **HTTP router** (`RouteTree`, `RouteUpdate`, `RouteTable`, `RouteOrder`, `HttpRouter`). The backtracking search is a
  linear scan of a flat list of routes in a known order; the tree is exactly the table of registered handlers.
- **Chunked coding and number helpers** (`ChunkedEncoding`, `ChunkedBody`, `Utilities`, `FieldValue`).
- **The server's own concurrency** (`ThreadSafeQueue`, `WorkerPool`, `UserSessions`), as atomic steps over all
  interleavings; sections under one lock are one step.

Conventions: bytes are the numbers 0 to 255 and `char` is signed where the code compares it; 64-bit state words wrap
around explicitly. The environment is a parameter or a field: how much the kernel takes is the field `room` of a
socket, what handlers answer is any function of all calls made so far, the hash of a socket's address is any function.
The size of the receive buffer is a parameter of the receiver, since libusockets.h is not part of this model.

Four times the code does less than it is for. Each time the case is built, and the exact condition proved:

- `AsyncSocket::write` loses a whole write when the flush before it fails (`WebSocket.FlushFailureLosesWrite`; the
  condition is `FlushFails`, in the contract of `AsyncSocket.Socket.Write`).
- Subscribers freed with something pending, as each disconnect may do it, leave it in the palette, whose indices
  then wrap (`TopicTree.FreedSubscribersFillThePalette`). A publish that finds the palette full and nothing pending
  (`Overflows`) is where this starts: all is well before it (`TopicTree.TopicTree.Run`), and after every such publish
  the next message can be the wrong one (`TopicTree.TopicTree.OverflowMisleads`). For a single publish the exact
  condition is in the contract of `TopicTree.TopicTree.Publish`.
- `HttpRouter::route` takes the last method for the one that stands for any, which culling may have removed
  (`HttpRouter.ReplacedRouteTakesAnyMethod`; the condition is `RouteTable.FallsToAny`). The comment in the source says
  that there is always an ANY route; the code does not keep it.
- A user put on a socket that another user holds spoils the reverse index
  (`UserSessions.SharedSocketIsForgotten`; the condition is `HeldByOther`).

A fifth is about reads only: a size line cut behind a byte that ends its digits (`ChunkedBody.CutMakesNoDifference`).

`dafny verify dfyconfig.toml` checks everything.

## Model

| member | source | states |
|---|---|---|
| FrameFeed.SegmentationInvariance | include/uWebSockets/WebSocketProtocol.h:461-501 | Two ways of cutting one byte stream, well formed or not, into reads lead to the same events, the same verdict and the same state. |
| Receiver.Receiver.ReceiveAll | include/uWebSockets/WebSocketContext.h:286-323 | The parser object fed any reads ends in the state the byte machine reaches on the whole stream, so the cuts do not matter. |
| Receiver.Receiver.OnData | include/uWebSockets/WebSocketContext.h:286-323 | One read takes the parser exactly where the byte machine goes on its bytes; a connection that is over ignores what still comes. |
| Receiver.Receiver.Consume | include/uWebSockets/WebSocketProtocol.h:461-501 | The same for `consume`: spill put back in front, rest of a payload, then whole heads. |
| Receiver.Receiver.PrependSpill | include/uWebSockets/WebSocketProtocol.h:462-466 | The spilled start of a head and the new bytes lie side by side in the buffer. |
| Receiver.Receiver.ParseNext | include/uWebSockets/WebSocketProtocol.h:467-497 | From a frame boundary any bytes are parsed as the machine parses them; the start of an incomplete head is kept. |
| Receiver.Receiver.ConsumeMessage | include/uWebSockets/WebSocketProtocol.h:343-399 | A frame with a complete head: refused, taken whole with the parser moved behind it, or taken in part. |
| Receiver.Receiver.AdmitFrame | include/uWebSockets/WebSocketProtocol.h:344-359 | The opcode stack and the limit refuse exactly the heads the machine objects to, and otherwise push opcode and fin as the machine does. |
| Receiver.Receiver.ContinueToEnd | include/uWebSockets/WebSocketProtocol.h:408-429 | The rest of a payload is delivered, and parsing goes on behind it. |
| Receiver.Receiver.ContinueInTheMiddle | include/uWebSockets/WebSocketProtocol.h:430-453 | A read in the middle of a payload delivers it with the rotated mask and leaves the mask right for the next. |
| Receiver.Receiver.RotateMask | include/uWebSockets/WebSocketProtocol.h:325-331 | Copying the mask round by an offset turns it the other way by what is missing to four. |
| Receiver.Receiver.HandleFragment | include/uWebSockets/WebSocketContext.h:60-239 | Reassembly in one buffer with a control frame at its tail does what separate message and control buffers do, refusals included. |
| Receiver.Receiver.HandleDataFragment | include/uWebSockets/WebSocketContext.h:66-174 | A part of a message: limit, appending, text check and delivery as the machine has it. |
| Receiver.Receiver.HandleControlFragment | include/uWebSockets/WebSocketContext.h:175-237 | A part of a control frame gathered behind the message leaves the message untouched. |
| Receiver.Receiver.StateSafety | include/uWebSockets/WebSocketContext.h:60-246 | In every reachable state of an open connection: opcode stack within -1 to 1 and not empty where it is indexed, spill at most 13 bytes, 0 < remaining <= limit and no spill inside a payload, control tip at most 125 and inside the buffer, buffered data within the limit. |
| FrameMachine.Feed | include/uWebSockets/WebSocketProtocol.h:461-501 | The byte-at-a-time machine keeps the connection well formed over every stream. |
| FrameMachine.TakeHeadWellFormed | include/uWebSockets/WebSocketProtocol.h:468-497 | Taking in a head byte keeps the state well formed. |
| FrameFeed.FeedConcat | include/uWebSockets/WebSocketProtocol.h:461-501 | Feeding two stretches is feeding one after the other. |
| FrameFeed.FeedPayload | include/uWebSockets/WebSocketProtocol.h:408-454 | A stretch of payload taken at once equals its bytes taken one by one, mask rotation included. |
| FrameFeed.FragmentSplit | include/uWebSockets/WebSocketContext.h:60-239 | Handing on a payload in two parts is handing it on at once. |
| FrameFeed.FeedBadHead | include/uWebSockets/WebSocketProtocol.h:471-476 | A head with reserved bits or opcodes, or an over-long or fragmented control frame, ends the connection whatever follows. |
| FrameFeed.WholeFrame | include/uWebSockets/WebSocketProtocol.h:343-383 | A frame that is there completely does what its bytes do. |
| FrameFeed.PartFrame | include/uWebSockets/WebSocketProtocol.h:384-398 | A frame that is there in part does what those bytes do. |
| FrameFeed.RefusedFrame | include/uWebSockets/WebSocketProtocol.h:344-359 | A refused head ends the connection with the reason of the first failing test. |
| Wire.WholeFrameIs | include/uWebSockets/WebSocketContext.h:60-239 | By the first byte of a whole frame in the idle state: 0x81 is text and checked for UTF-8, 0x82 binary and not, 0x88 close, 0x89 a ping, 0x8A a pong; the payload is changed byte by byte with the last four bytes of a client's head. |
| Wire.TwoFramesAre | include/uWebSockets/WebSocketContext.h:60-174 | 0x01 or 0x02 and then 0x80: one message of both payloads in order, too big if they are together over the limit, refused if it is text and not UTF-8. |
| Wire.HeadIs | include/uWebSockets/WebSocketProtocol.h:467-497 | By bytes: heads have 2, 4 or 10 bytes and four more from a client; the length is the low seven bits, or two or eight bytes with the most significant first. |
| Wire.BadHeadIs | include/uWebSockets/WebSocketProtocol.h:471-476 | Malformed are exactly reserved bits, opcodes 3 to 7 and 11 to 15, and control frames that are fragments or over 125. |
| Wire.MalformedIsRefused | include/uWebSockets/WebSocketProtocol.h:471-476 | Such a head ends the connection with a protocol error. |
| Wire.ObjectionIs | include/uWebSockets/WebSocketProtocol.h:344-359 | Objected to are exactly a continuation of nothing, a third frame inside a second one, text inside an unfinished message (binary is not), and then what is over the limit. |
| Wire.OutOfOrderIsRefused | include/uWebSockets/WebSocketProtocol.h:344-353 | The first three end the connection with a protocol error. |
| Wire.ParseCloseIs | include/uWebSockets/WebSocketProtocol.h:167-180 | By bytes and numbers: less than two bytes are 1005; 1000 to 1003, 1007 to 1011 and 4000 to 4999 with UTF-8 are themselves; all else is 1006. |
| Masking.UnmaskImpreciseCopyMask | include/uWebSockets/WebSocketProtocol.h:311-323 | For head sizes 6, 8 and 14 and every length: the payload lands unmasked on its own head, and no byte from the end of the frame on is changed although the loop runs over. |
| Masking.UnmaskImprecise8 | include/uWebSockets/WebSocketProtocol.h:288-296 | The eight-byte loop: exactly what it writes, over-run included. |
| Masking.UnmaskImprecise4 | include/uWebSockets/WebSocketProtocol.h:300-308 | The four-byte loop: exactly what it writes, over-run included. |
| Masking.UnmaskPart | include/uWebSockets/WebSocketProtocol.h:393 | The loop over a part of a frame unmasks that part and changes nothing before it. |
| Masking.UnmaskInplace | include/uWebSockets/WebSocketProtocol.h:333-340 | Groups of four unmasked in place, over-running by at most three. |
| Masking.UnmaskAll | include/uWebSockets/WebSocketProtocol.h:402-406 | The vectorised path is the same unmasking. |
| Bytes.XorExact | include/uWebSockets/WebSocketProtocol.h:287-340 | What unmasking does to a byte: each of its eight bits is set exactly if that of the byte and that of the mask differ. |
| Utf8.IsValidUtf8 | include/uWebSockets/WebSocketProtocol.h:119-159 | The scan with its 16-byte skip accepts exactly the well-formed byte strings and stays inside them. |
| Utf8.ValidUtf8Exact | include/uWebSockets/WebSocketProtocol.h:119-159 | Accepted are exactly the encodings of sequences of Unicode scalar values (RFC 3629 section 4). |
| Utf8.MultibyteLength | include/uWebSockets/WebSocketProtocol.h:137-156 | The three multi-byte branches take exactly the well-formed characters. |
| Printer.FormatMessage | include/uWebSockets/WebSocketProtocol.h:212-260 | Writes head and payload, masked for a client, into its slot and nothing beside it. |
| Printer.HeadBytes | include/uWebSockets/WebSocketProtocol.h:212-250 | The bytes of a printed head: 128 for the last fragment and the opcode; the length, or 126 and two bytes, or 127 and eight; 128 more in the second byte, and the mask at the end, exactly when it is printed for a server. |
| Printer.FrameBytes | include/uWebSockets/WebSocketProtocol.h:250-260 | Behind the head the payload, each byte combined with its turn's mask byte for a server and left alone for a client. |
| Printer.MessageFrameSizeExact | include/uWebSockets/WebSocketProtocol.h:196-203 | The size reserved for a server's frame is the size printed. |
| Printer.CloseRoundTrip | include/uWebSockets/WebSocketProtocol.h:167-194 | A close payload reads back as written if and only if the code is one the reader accepts and the reason is UTF-8, or there is nothing to write; codes 1012 to 3999 are refused. |
| Printer.FormatCloseIs | include/uWebSockets/WebSocketProtocol.h:183-194 | A close payload is the code in two bytes and the reason, and empty for 0, 1005 and 1006. |
| Printer.PrintedHead | include/uWebSockets/WebSocketProtocol.h:212-260 | A printed head is a whole and acceptable head to the other role and says opcode, fin and length again. |
| Printer.ReadFrame | include/uWebSockets/WebSocketProtocol.h:343-383 | A printed frame delivers its own payload to the reader. |
| Conversation.ConversationRoundTrip | include/uWebSockets/WebSocketProtocol.h:212-260 | Any messages, fragmented with control frames in between (RFC 6455 sections 5.4 and 5.5), printed with any masks within the limit, read by the other role in any reads: the same messages with first opcodes, the same control frames, the same order. Both roles. |
| Conversation.ItemOkIs | include/uWebSockets/WebSocketProtocol.h:343-383 | What such a conversation may hold: any pings and pongs of up to 125 bytes, binary messages, and text in UTF-8, within the limit. |
| Conversation.ReadParts | include/uWebSockets/WebSocketProtocol.h:343-383 | The continuation frames of a message with pings and pongs between them. |
| Conversation.CloseEnds | include/uWebSockets/WebSocketProtocol.h:167-180 | A close frame ends the conversation with its code and reason, and nothing behind it is looked at. |
| AsyncSocket.Socket.Write | include/uWebSockets/AsyncSocket.h:236-323 | Whatever the kernel takes: outgoing bytes grow by exactly the reported prefix, in order; waiting bytes and our corked bytes never coexist; whether it fails, the exact count, that of an optional write that fails included, and how much room is left. |
| AsyncSocket.Socket.Place | include/uWebSockets/AsyncSocket.h:271-322 | The part behind the drain: cork buffer, through it, or directly. |
| AsyncSocket.Socket.DrainFirst | include/uWebSockets/AsyncSocket.h:245-269 | What has been waiting leaves first, as far as the kernel goes along, and no byte is lost or doubled. |
| AsyncSocket.Socket.WriteDirect | include/uWebSockets/AsyncSocket.h:294-318 | What the kernel leaves of a direct write waits in the socket's buffer, unless the write was optional. |
| AsyncSocket.Socket.Uncork | include/uWebSockets/AsyncSocket.h:327-350 | Corked bytes leave before the new ones; the count is of new bytes only, and is 0 when the flush fails. |
| AsyncSocket.Socket.Flush | include/uWebSockets/AsyncSocket.h:330-342 | Giving up the cork buffer keeps every byte, in the kernel or waiting. |
| AsyncSocket.Socket.GetSendBuffer | include/uWebSockets/AsyncSocket.h:155-190 | The slot lies behind everything accepted so far and before nothing; which of the three kinds it is, exactly. |
| AsyncSocket.Socket.GrowPressure | include/uWebSockets/AsyncSocket.h:172-189 | Corked bytes are moved behind the waiting ones and the slot opened behind them. |
| AsyncSocket.Socket.Fill | include/uWebSockets/WebSocket.h:185-187 | Filling a slot appends its bytes to what goes out. |
| AsyncSocket.Socket.Cork | include/uWebSockets/AsyncSocket.h:133-142 | Corking moves no byte of any socket. |
| AsyncSocket.Socket.UncorkWithoutSending | include/uWebSockets/AsyncSocket.h:126-130 | Nor does giving up an empty cork. |
| AsyncSocket.Socket.OthersKeepOutgoing | include/uWebSockets/AsyncSocket.h:121-350 | A call on one socket keeps the outgoing bytes of every other socket of the loop. |
| AsyncSocket.Socket.KernelFirst | include/uWebSockets/AsyncSocket.h:155-350 | What counts as outgoing: the kernel's bytes first, then those waiting, then those corked. |
| WebSocket.Send | include/uWebSockets/WebSocket.h:113-216 | One complete frame goes out, or DROPPED and nothing changes at all; dropped exactly when over the limit; SUCCESS exactly when nothing is left waiting, and something is only if the kernel is full. |
| WebSocket.SendLong | include/uWebSockets/WebSocket.h:136-155 | The two-part direct write puts out header and message as one frame. |
| WebSocket.SendBuffered | include/uWebSockets/WebSocket.h:184-203 | The path through a slot, with the drain or uncork it asks for. |
| WebSocket.BufferUnsent | include/uWebSockets/WebSocket.h:142-149 | What the kernel left of header and message, wherever it stopped, waits in order. |
| WebSocket.Run | include/uWebSockets/WebSocket.h:113-216 | Over every run of send, write, getSendBuffer, cork and uncork with bytes, and changing room in the kernel, on any sockets of a loop: each report is true of the state its call finds, and each socket's outgoing bytes grow by exactly what its own calls have reported as accepted, in order: the whole frame of each send that is not DROPPED, and the counted prefix of each write. |
| WebSocket.PerformAmong | include/uWebSockets/AsyncSocket.h:121-350 | One call on one socket of many: its report follows from what waits, what is corked and what room there is (DROPPED if and only if over the limit; count and failure of a write), its stream grows by what is reported, no byte of the kernel's room is unaccounted for, and no other socket loses more than an empty cork buffer. |
| WebSocket.StreamsGrow | include/uWebSockets/AsyncSocket.h:121-350 | On any sequence of states in which each step is such a call, a socket's stream at the end is that at the start and then the contributions of its own calls. |
| Delivery.SentIsRead | include/uWebSockets/WebSocket.h:113-216 | Both ends together: after any run in which a socket sends whole messages, pings and pongs, with corking, partial writes, drops and calls on other sockets in between, a client that reads the stream in any pieces gets exactly the messages that were not dropped, in order. |
| Delivery.WholeIs | include/uWebSockets/WebSocket.h:113-216 | The sends this speaks of: text in UTF-8, binary data, and pings and pongs of up to 125 bytes, each in one frame within the reader's limit. |
| Delivery.TranscriptIsPrinted | include/uWebSockets/WebSocket.h:113-216 | What such sends report as accepted is the printed conversation of the messages that were not dropped. |
| WebSocket.FlushFailureLosesWrite | include/uWebSockets/AsyncSocket.h:333-342 | A write that is not optional can be lost whole: cork, write one byte, then write a full buffer while the kernel takes nothing. The last write reports 0, and its bytes never go out. |
| WebSocket.LostWrite | include/uWebSockets/AsyncSocket.h:333-342 | Those three calls on an unused socket always end so. |
| BackPressure.BackPressure.Erase | include/uWebSockets/AsyncSocketData.h:36-43 | The front leaves the queue, at most a thirty-second of the buffer is waiting to be removed, and over any run at most 31 bytes are moved for each erased. |
| BackPressure.BackPressure.Append | include/uWebSockets/AsyncSocketData.h:33-35 | Appending appends, and keeps the bounds. |
| BackPressure.BackPressure.Resize | include/uWebSockets/AsyncSocketData.h:58-60 | Growing keeps contents and bounds; the laziness bound survives a resize if and only if the new length is at least 31 times what waits to be removed. |
| BackPressure.BackPressure.Clear | include/uWebSockets/AsyncSocketData.h:48-52 | Nothing is left. |
| BackPressure.BackPressure.TotalLength | include/uWebSockets/AsyncSocketData.h:65-67 | Zero only for an empty queue. |
| TopicTree.TopicTree.RunAndDrain | include/uWebSockets/TopicTree.h:114-359 | After a run, up to its end or to the first publish that overflows the palette, and a drain: whoever was not freed, newcomers included, has been delivered exactly the messages published by others to topics it held at publish time, in order and once each, behind what it had before. |
| TopicTree.TopicTree.Run | include/uWebSockets/TopicTree.h:162-359 | Any run of creating, subscribing, publishing, draining and freeing, also of subscribers with messages pending as a disconnect does it, keeps the tree in step with one plain queue per subscriber, despite 32-index drains, full palettes and clearing in mid-publish; it stops only before a publish that finds nothing pending and 65535 entries in the palette. If whoever is freed was drained just before, there is no such publish. |
| TopicTree.TopicTree.OverflowMisleads | include/uWebSockets/TopicTree.h:305-359 | After any such publish indices wrap: the next message published to somebody who has nothing pending reaches it as the oldest in the palette. |
| TopicTree.TopicTree.Perform | include/uWebSockets/TopicTree.h:162-359 | One call does to the queues what it says, and the palette passes 65535 entries at an overflowing publish only. |
| TopicTree.EverybodyGetsWhatIsDue | include/uWebSockets/TopicTree.h:305-359 | On plain queues: what a subscriber gets over a run is what its own subscriptions entitle it to, from its creation on. |
| TopicTree.NamedDue | include/uWebSockets/TopicTree.h:305-359 | The same whether subscribers are counted by number or are objects. |
| TopicTree.DueOneMore | include/uWebSockets/TopicTree.h:305-359 | What is due grows exactly by a message that somebody else publishes to a topic held at that time. |
| TopicTree.HeldIs | include/uWebSockets/TopicTree.h:162-215 | A topic is held if and only if it was subscribed to, or held at first, with no unsubscription since. |
| TopicTree.PublishedIs | include/uWebSockets/TopicTree.h:305-359 | On plain queues a message goes to those in the topic but the sender, and to nobody else. |
| TopicTree.MembersAre | include/uWebSockets/TopicTree.h:162-247 | Subscribing, unsubscribing and freeing change exactly that membership and no message. |
| TopicTree.TopicTree.Publish | include/uWebSockets/TopicTree.h:305-359 | In every state: true exactly if somebody but the sender holds the topic; all of them, and nobody else, get the entry that the 16-bit index points to; this is the message if and only if that entry equals it, which is so up to 65536 entries; and from up to 65535 entries the palette gets longer than that exactly if nothing is pending and it is full. |
| TopicTree.TopicTree.NoteAll | include/uWebSockets/TopicTree.h:322-350 | The loop over the topic gives all of them an index to the same entry, though draining a full subscriber may clear the palette before the first. |
| TopicTree.TopicTree.AddIndex | include/uWebSockets/TopicTree.h:331-348 | One subscriber's index, wrapping at 65536: drained first at 32, linked at its first; the palette is cleared only if nobody else is on the list. |
| TopicTree.TopicTree.MakeRoom | include/uWebSockets/TopicTree.h:312-317 | A full palette is drained, unless nothing is pending. |
| TopicTree.TopicTree.Drain | include/uWebSockets/TopicTree.h:269-281 | All pending messages are delivered, the list is empty and the palette gone. |
| TopicTree.TopicTree.DrainOne | include/uWebSockets/TopicTree.h:250-266 | One subscriber is delivered and unlinked; the palette goes with the last, and no other subscriber's messages change. |
| TopicTree.TopicTree.DrainImpl | include/uWebSockets/TopicTree.h:114-131 | Pending indices are delivered in order and forgotten. |
| TopicTree.TopicTree.UnlinkDrainableSubscriber | include/uWebSockets/TopicTree.h:133-144 | The list stays linked both ways, acyclic and without repetition, and loses exactly this subscriber. |
| TopicTree.TopicTree.Invariants | include/uWebSockets/TopicTree.h:133-359 | In every state: prev and next are inverse and the list ends; it holds exactly those with pending indices, once each; indices are below the palette's size and increase strictly while that is at most 65536; membership is symmetric and no empty topic is kept. |
| TopicTree.TopicTree.LinkAtHead | include/uWebSockets/TopicTree.h:340-348 | The list gains this subscriber at its head. |
| TopicTree.TopicTree.Subscribe | include/uWebSockets/TopicTree.h:162-183 | Membership on both sides; false if held already; nothing pending changes. |
| TopicTree.TopicTree.Unsubscribe | include/uWebSockets/TopicTree.h:186-215 | Membership on both sides, no empty topic kept, and the three results. |
| TopicTree.TopicTree.CreateSubscriber | include/uWebSockets/TopicTree.h:218-220 | A newcomer has nothing pending and no topics. |
| TopicTree.TopicTree.FreeSubscriber | include/uWebSockets/TopicTree.h:223-247 | Out of all topics and off the list; the palette stays. |
| TopicTree.FreedSubscribersFillThePalette | include/uWebSockets/TopicTree.h:223-247 | It happens: 65536 times somebody subscribes, has a message published and is freed, so that the palette is 65536 times this message and then the last one published, which reaches its one subscriber as the very first. |
| RouteTable.RouteFinds | include/uWebSockets/HttpRouter.h:257-279 | While a request falls through to the node for any method, it is taken if and only if a registered handler of its method or any matches the URL and accepts. |
| HttpRouter.Router.TakesWhatIsRegistered | include/uWebSockets/HttpRouter.h:257-279 | The same said of the router object and its table of handlers. |
| RouteTable.RightMethodsOnly | include/uWebSockets/HttpRouter.h:257-279 | A request calls handlers of its own method and any only, for all handler behaviours, if and only if the last node is the one for any, or none of the last node's routes match. |
| RouteTable.AnyRegistered | include/uWebSockets/HttpRouter.h:274-278 | That is so as long as some handler for any method is registered. |
| HttpRouter.ReplacedRouteTakesAnyMethod | include/uWebSockets/HttpRouter.h:322-379 | Otherwise it need not be: replacing a GET route culls the empty node for any, and a request of every other method is then given to the GET handler. |
| HttpRouter.Router.Route | include/uWebSockets/HttpRouter.h:257-279 | The calls made, and what each handler can look at, are those of a linear scan of the flat list of routes. |
| RouteOrder.KeysInOrder | include/uWebSockets/HttpRouter.h:66-99 | Of two registered keys of a method that match a request, the one of high priority is met first; of two of one kind with one path, the smaller priority number; and else, where the paths first differ, a plain name before ':' before '*'. |
| RouteOrder.MetInOrder | include/uWebSockets/HttpRouter.h:66-99 | The other way round: what the order of two matching routes in the search says of their priorities and names. |
| RouteOrder.CallsInOrder | include/uWebSockets/HttpRouter.h:168-207 | Handlers of matching routes are called in this order, each with its own parameters, until one accepts. |
| RouteTree.MatchesWithoutWildcard | include/uWebSockets/HttpRouter.h:185-204 | A path without wildcard matches exactly as many segments, each equal to its name, or not empty where the name starts with ':'. |
| RouteTree.MatchesWithWildcard | include/uWebSockets/HttpRouter.h:186-192 | A name that starts with '*' matches all that is left, of which there must be some, if it is the last, and nothing otherwise. |
| RouteTree.ParametersOneMore | include/uWebSockets/HttpRouter.h:193-198 | Parameters are the segments at names that start with ':', in order. |
| RouteTree.SegmentsAre | include/uWebSockets/HttpRouter.h:134-165 | Segments have no slash in them, and put together with slashes are the URL. |
| RouteTree.SeenAre | include/uWebSockets/HttpRouter.h:134-138 | Only the first hundred segments are looked at. |
| HttpRouter.Router.ExecuteHandlers | include/uWebSockets/HttpRouter.h:168-207 | The backtracking search below a node is a linear scan of the routes below it, for any handler behaviour; found: the stack holds the parameters of the accepting call; not found: the stack is as before. |
| HttpRouter.Router.TryChild | include/uWebSockets/HttpRouter.h:185-204 | Wildcard, parameter and static children. |
| HttpRouter.Router.CallWildcard | include/uWebSockets/HttpRouter.h:186-192 | A wildcard's own handlers only. |
| HttpRouter.Router.GetUrlSegment | include/uWebSockets/HttpRouter.h:134-165 | The lazily filled cache gives the n-th segment, and stops behind the last or the hundredth. |
| HttpRouter.Router.Push | include/uWebSockets/HttpRouter.h:112-115 | The parameter stack never passes its hundred entries. |
| RouteTree.ScanBelow | include/uWebSockets/HttpRouter.h:185-204 | Routes below a name: none match, or those of the rest of the URL. |
| RouteTable.ScanCallsMatching | include/uWebSockets/HttpRouter.h:168-207 | Every handler called is that of a matching route, with the segments its parameters match. |
| RouteTable.ScanFinds | include/uWebSockets/HttpRouter.h:168-207 | A scan finds something if and only if a route matches and its handler accepts. |
| RouteTable.RoutesListed | include/uWebSockets/HttpRouter.h:282-320 | A method's routes in the tree are exactly the keys registered for it. |
| RouteTable.RoutesOnce | include/uWebSockets/HttpRouter.h:168-207 | Nothing is met twice among the routes of a method. |
| HttpRouter.Router.Add | include/uWebSockets/HttpRouter.h:282-320 | The key maps to the new handler, all other keys to theirs. |
| HttpRouter.Router.Remove | include/uWebSockets/HttpRouter.h:362-379 | The key is gone if it was there, all other keys keep their handlers; the handlers are one fewer. |
| RouteTable.AddKeeps | include/uWebSockets/HttpRouter.h:282-320 | The tree holds each index 0 to n-1 exactly once, where its key says, in strictly sorted lists; adding keeps that. |
| RouteTable.RemoveKeeps | include/uWebSockets/HttpRouter.h:322-379 | Removing keeps it, though indices are shifted and empty nodes culled. |
| RouteUpdate.InsertEntries | include/uWebSockets/HttpRouter.h:286-301 | Adding under a path changes the entries of that path and no others. |
| RouteUpdate.CullEntries | include/uWebSockets/HttpRouter.h:322-357 | Culling lowers or removes entries and nothing else. |
| RouteUpdate.InsertKeepsTidy | include/uWebSockets/HttpRouter.h:81-99 | New nodes keep children apart and in order of rank, and leave no empty node. |
| RouteUpdate.LaterGoesBehind | include/uWebSockets/HttpRouter.h:91-98 | Among plain names, parameters or wildcards of one kind a new node goes behind those there are. |
| RouteUpdate.CullKeepsTidy | include/uWebSockets/HttpRouter.h:322-357 | So does culling. |
| HttpRouter.Router.FindHandler | include/uWebSockets/HttpRouter.h:210-240 | The entry found is that of the key, parameter names aside. |
| HttpRouter.Router.InsertBelow | include/uWebSockets/HttpRouter.h:286-301 | Descending and adding nodes segment by segment builds the tree that `Insert` says. |
| HttpRouter.CullNode | include/uWebSockets/HttpRouter.h:322-357 | The depth-first loops, with erasing while iterating, build the tree that `Culled` says. |
| HttpRouter.UpperBound | include/uWebSockets/HttpRouter.h:91-98 | Halving finds the place behind the last that is not greater. |
| RouteTable.Sorted | include/uWebSockets/HttpRouter.h:306-319 | Sorting methods changes their order only, and puts any last. |
| RouteTable.SortedInOrder | include/uWebSockets/HttpRouter.h:306-319 | Methods are in the order GET, then by name, then any. |
| RouteTable.StringLessIs | include/uWebSockets/HttpRouter.h:306-319 | By name is by the first character that differs, a prefix first. |
| ChunkedBody.PrintedIsDecoded | include/uWebSockets/ChunkedEncoding.h:104-191 | A printed body, cut into any reads, decodes to the same bytes, then one end, then state 0, and what follows is left alone (RFC 9112 section 7.1). |
| ChunkedBody.SpelledIsDecoded | include/uWebSockets/ChunkedEncoding.h:104-191 | The same for sizes of less than 60 bits spelled in hex in any way, in either case and with zeros in front (RFC 9112 section 7.1). |
| ChunkedBody.PassesSize | include/uWebSockets/ChunkedEncoding.h:43-79 | Such a size is read as the number it stands for by the table of hex digits. |
| ChunkedBody.RestOfLineIsSkipped | include/uWebSockets/ChunkedEncoding.h:69-78 | What follows the digits on a size line, from white space or a byte of 128 or more on, is skipped up to the line feed. |
| ChunkedBody.HugeSizeBreaks | include/uWebSockets/ChunkedEncoding.h:59-62 | A size of 60 bits or more is refused at some digit. |
| ChunkedBody.LastLineWithTrailer | include/uWebSockets/ChunkedEncoding.h:128-140 | With trailers exactly four bytes behind the last size line are dropped. |
| ChunkedEncoding.DigitIs | include/uWebSockets/ChunkedEncoding.h:45-58 | What is taken for a digit: hex digits for what they are; and, more lenient than RFC 9112 section 7.1, ':' to '?' for 10 to 15 and '@', 'G' and 'g' for 16; and nothing else. |
| ChunkedBody.WriteAndDecode | include/uWebSockets/HttpResponse.h:446-470 | Both ends together: `write` and `end` on one side, any reads on the other. |
| ChunkedBody.CutMakesNoDifference | include/uWebSockets/ChunkedEncoding.h:43-79 | A read may end somewhere, whatever follows, if and only if that is not on a size line behind a byte that ends the digits: the state word does not note that, and more digits are taken from the next read. |
| ChunkedBody.CutsMakeNoDifference | include/uWebSockets/ChunkedEncoding.h:104-191 | Any cuts are harmless on data in which no size line has a byte over 32 behind one that is not. |
| ChunkedBody.DecodeReads | include/uWebSockets/ChunkedEncoding.h:104-191 | Read after read: the decoder does what the byte machine does that forgets at each read what the word does not say. |
| ChunkedEncoding.DecodeRead | include/uWebSockets/ChunkedEncoding.h:194-232 | All chunks of one read, handed out until there is none. |
| ChunkedEncoding.GetNextChunk | include/uWebSockets/ChunkedEncoding.h:104-191 | A piece, an end or nothing, as the byte machine has it; each piece consumes input; nothing more comes only at the end of the data, behind the body, or for malformed data. |
| ChunkedEncoding.ConsumeHexNumber | include/uWebSockets/ChunkedEncoding.h:43-79 | A size line read at once: refused at the first bad digit or overflow, or its end found, or all used up. |
| ChunkedEncoding.Drop | include/uWebSockets/ChunkedEncoding.h:107-124 | What is left behind the last chunk is dropped, and the decoder stops at state 0. |
| ChunkedEncoding.RunData | include/uWebSockets/ChunkedEncoding.h:153-187 | Any number of chunk bytes taken at once are those bytes one by one, the line end behind them not emitted. |
| ChunkedEncoding.DigitGood | include/uWebSockets/ChunkedEncoding.h:49-66 | A digit multiplies the size by 16; digits may be worth 16, so that it can reach 2 to the 60th and is then lost. |
| ChunkedEncoding.OverflowsIs | include/uWebSockets/ChunkedEncoding.h:59-62 | When a further digit is refused: from 2 to the 56th on, except at exactly 2 to the 60th. |
| ChunkedEncoding.StepOrderly | include/uWebSockets/ChunkedEncoding.h:43-191 | Every word met is one of the four kinds. |
| ChunkedBody.Response.Write | include/uWebSockets/HttpResponse.h:446-470 | Each non-empty write is one chunk with its length in hex. |
| ChunkedBody.Response.End | include/uWebSockets/HttpResponse.h:118-135 | The whole is the printed body behind the headers' last line end. |
| Utilities.U32ToHex | include/uWebSockets/Utilities.h:28-44 | The digit loop and the reversal print the number in hex. |
| Utilities.TextSpells | include/uWebSockets/Utilities.h:28-44 | It is lower-case hex without zeros in front, and stands for the number by the table of hex digits. |
| Utilities.U64ToA | include/uWebSockets/Utilities.h:46-61 | The same in decimal. |
| Utilities.ToUnsignedInteger | include/uWebSockets/HttpParser.h:203-218 | Up to 18 decimal digits give their number, below the error value; all else is the error. |
| Utilities.PrintedIsRead | include/uWebSockets/HttpParser.h:203-218 | It reads back every number of up to 18 digits that `u64toa` prints. |
| FieldValue.HasLessExact | include/uWebSockets/HttpParser.h:220-222 | The word trick says yes if and only if some byte is below 32, borrows notwithstanding. |
| FieldValue.SubtractWord | include/uWebSockets/HttpParser.h:220-222 | Borrowing byte by byte is subtracting 64-bit words. |
| FieldValue.TryConsumeFieldValue | include/uWebSockets/HttpParser.h:344-353 | Stops at exactly the first byte below 32, and reads at most seven bytes beyond it. |
| ThreadSafeQueue.NoLostWakeUp | include/thread_safe_queue.h:24-56 | In every interleaving of any number of producers and consumers, spurious wake-ups included: items are taken in order and once; while somebody sleeps, items do not outnumber notifications under way and consumers about to look; after a stop has notified nobody sleeps. |
| ThreadSafeQueue.RunCounts | include/thread_safe_queue.h:24-32 | Every push has sent its one notification or has it under way. |
| ThreadSafeQueue.StepKeepsInv | include/thread_safe_queue.h:24-56 | Every atomic step keeps this. |
| ThreadSafeQueue.StoppedStaysAwake | include/thread_safe_queue.h:49-56 | Once a stop has notified no consumer goes to sleep again. |
| ThreadSafeQueue.ItemIsTaken | include/thread_safe_queue.h:35-46 | An item beside a sleeper is taken within two steps that need no producer and no luck. |
| ThreadSafeQueue.StopIsHeard | include/thread_safe_queue.h:49-56 | A sleeper of a stopped queue has a notification coming to it. |
| ThreadSafeQueue.Guarded.TryPop | include/thread_safe_queue.h:35-46 | What the locked section decides and takes. |
| WorkerPool.SocketsStayInOrder | src/server.cpp:97-106 | In every interleaving of receive, pop, handle, stop and exit: what is handled, in hand and queued for a socket at its worker is what was received from it, in order, and no other worker has any of it. |
| WorkerPool.NothingIsLostOnExit | src/message_processor.cpp:62-90 | A worker that leaves its loop was stopped and has handled all it was given. |
| WorkerPool.ShutdownHandlesAll | src/message_processor.cpp:45-50 | After an orderly shutdown everything received from a socket has been handled in order. |
| WorkerPool.ShutdownEnds | src/message_processor.cpp:45-90 | And it does end: once all are stopped, from every reachable state and in whatever order workers go on, some worker can take a step until all have left; that takes exactly a number of steps fixed at the start, and then everything received is handled. |
| WorkerPool.OwnStepsWork | src/message_processor.cpp:57-90 | Each pop, each handled packet and each exit after the stop is one step less to come. |
| WorkerPool.StepKeepsInv | src/message_processor.cpp:57-90 | Every step keeps each worker's share. |
| WorkerPool.WorkerIndexFor | src/server.cpp:53-56 | Always a worker of the pool. |
| WorkerPool.SharedWorker | src/server.cpp:53-56 | Two sockets share a worker if and only if their hashes are congruent modulo the number of workers. |
| WorkerPool.MessageProcessor.Process | src/message_processor.cpp:62-90 | On a stopped queue the loop ends with everything handled in order. |
| WorkerPool.MessageProcessor.Destroy | src/message_processor.cpp:45-50 | Stopping and joining drains the queue. |
| UserSessions.Run | src/user_session_manager.cpp:20-116 | Every run does to both maps exactly what its calls say one by one, sends on each socket exactly what they send there, in order, and keeps index entries leading to live sessions on that very socket and counts at 1; as long as nobody is put on somebody else's socket, the maps are as good as one map that is scanned. |
| UserSessions.SecondLoginKicks | src/user_session_manager.cpp:41-48 | A user who comes back on another socket has the first one told once, and no other socket is told anything. |
| UserSessions.IndexIsScan | src/user_session_manager.cpp:20-116 | The last part, of the two maps alone. |
| UserSessions.UserSessionManager.AttachSession | src/user_session_manager.cpp:20-49 | The user is online on the new socket, only the replaced socket is told, and an exact index stays exact if and only if nobody else is online on the new socket. |
| UserSessions.UserSessionManager.RemoveSessionByWs | src/user_session_manager.cpp:87-116 | Nobody who is online on another socket goes, a late disconnect of a kicked socket included; with an exact index it is a linear scan. |
| UserSessions.UserSessionManager.RemoveSession | src/user_session_manager.cpp:65-85 | This user and nobody else goes. |
| UserSessions.UserSessionManager.SendToUser | src/user_session_manager.cpp:51-63 | The payload goes to the user's socket and no other. |
| UserSessions.SharedSocketIsForgotten | src/user_session_manager.cpp:41-48 | Two users put on one socket, the first then on another, and the shared socket gone: the second is still online on it, where a scan would have removed it. |

## Left out

- TopicTree.TopicTree.Run: goes as far as the first publish that overflows the palette; what the calls after it do, one by one, is in their own contracts.
- TopicTree.TopicTree.DrainImpl: the drain callback never asks to stop, and its flags for the first and last message are not modelled.
- AsyncSocket.Socket.Write: sockets stay open; closed sockets, TLS, the hint about more data to come and the reservation of buffer space are not modelled, and lengths are below 2 to the 31st.
- WebSocket.Send: the socket is no subscriber, so that there are no published messages to send first; message sizes are below 2 to the 31st; compression is off.
- HttpRouter.Router.InsertBelow: nodes are values held by the router, so that descending and adding rebuilds the path; pointers between nodes, and node identity, are not modelled.
- HttpRouter.Router.Add: one method for each handler, as all callers have it, one of the three priorities, and fewer than 2 to the 28th handlers.
- ChunkedBody.Response.Write: the cast of a chunk's length to a signed 32-bit number when its data is written, and the status and header lines before the first chunk.
- ChunkedBody.Response.End: the branch for a response without chunks, which prints a content length.
- WorkerPool.MessageProcessor.Process: a loop that may block is modelled by the steps of the pool; as a method it is given for a stopped queue.
- Receiver.Receiver.OnData: the application's callbacks only take the message; closing from a callback, timeouts, and automatic pongs are not modelled.
- Compression, its negotiation and the compressed branches of fragment handling: the server never turns compression on.
- `publishBig` and the iteration over a subscriber's topics: they bypass the batching.
- The HTTP request parser's buffering, header parsing and request line: what it reports for a body depends on where the input is cut.
- The trailer fields of chunked coding and chunk extensions: the decoder does not support them.
- The WebSocket handshake, TLS, timeouts, socket closing and kernel polling.
- MySQL access, JSON messages and the request handlers, logging, configuration and signal handling: plumbing around foreign systems.
- Worker threads sending on a socket outside the event loop's thread: sending is modelled on one thread for each loop.
- HTTP/3, the caching and client apps, local clusters, multipart and the proxy parser: not used by the server.
