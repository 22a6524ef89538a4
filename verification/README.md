# A verified model of libkzr

libkzr turns 9P2000 messages into bytes and back, in three layers: a byte stream
with little-endian integers, counted strings and counted lists; twenty-eight
message types with a dispatcher that looks at the operation byte; and
length-prefixed frames over a byte transport.  This project models all three and
proves how they fit together.

* **What goes out comes back.**  Every message type survives encoding and
  dispatching with anything behind it exactly when the object carries its own type's
  code (`RoundTripIffGenuine`).  Encodings determine messages exactly up to their type
  (`UniqueFirst`, `UniquelyDecodable`), so that those of objects carrying their own
  types' codes are prefix-free (`PrefixFree`), while a foreign code makes one encoding
  begin another (`ForeignCodeBeginsOthers`).  Whatever the dispatcher accepts
  re-encodes to the same bytes, except for the ignored length of a WStat request,
  whose freedom is stated exactly, with the family of inputs that shows it (`Canonical`,
  `WStatCanonical`, `WStatAnyLength`); so are the messages that the dispatcher can
  produce at all (`ProducedIff`).
* **The format.**  What every type is on the wire is written out field by field, digit
  by digit and with its literal code, apart from the encoders and decoders.  Encoders
  write exactly that, also when they throw (`EncodesAsFormat`), and the dispatcher
  decodes a message from exactly the inputs that spell it (`DispatchIff`,
  `TypedDecodeIff`, `DirectDispatchIff`); frames, the buffer and rejected input are
  pinned to the byte in the same way (`FrameOnWire`, `ReadIff`, `StoreMeaning`,
  `RejectedDispatch`).
* **More input.**  What was decoded or rejected stays so as bytes arrive
  (`DispatchExtends`), and input is short exactly when it is an unfinished message
  (`UnderflowMeaning`, `UnderflowCompletes`).
* **End to end.**  A sender puts any number of interactions on a stream, writes the
  stream as one frame, and resets it, each whenever it likes; a receiver reads frames
  and decodes what is in them.  For every interleaving of these, and whatever number of
  bytes the transport moves in each call, the batches received are a prefix of those
  sent and the pipe holds exactly the frames of the others, at every point of the run
  exactly if each act meets a stated condition (`EveryRunConserves`).  The interactions
  sent, followed by those still on the sender's stream, are the ones encoded, each once
  and in order, exactly if no write repeats and no reset discards any
  (`EveryCarefulRunIsOnceEach`).  Enough receives then deliver everything and leave
  nothing (`EndToEndDelivery`).
* **Limits.**  Encoding succeeds on exactly the stated domain and writes exactly the
  stated number of bytes (`DomainAndSize`); which messages can outgrow a 32-bit frame
  (`FrameFit`, `LargestWalkOverflows`) and what framing does when one does
  (`WriteContract`, `WrappedFrameRaises`).
* **The stream.**  Over every run of a message stream each byte is accounted for
  (`RunIsAccounted`), output is dropped exactly when it meets a stream that has run
  dry (`NothingDroppedIffHeard`, `GoodIffFed`), and a stream is a queue of interactions
  exactly when it is used fairly (`EveryFairRunIsInOrder`).
* **The code.**  Each `encode`, `decode`, stream, dispatch and connection operation
  is an imperative method proved to do what these laws speak about, throwing
  included.

## How it is built

| file | holds |
|---|---|
| `Bits.dfy`, `BitFields.dfy` | bitwise operators on unsigned integers of any width; masked field access |
| `LittleEndian.dfy` | integer widths, little-endian bytes, the `build` family |
| `Operations.dfy` | operation codes |
| `Wire.dfy`, `WireLaws.dfy` | leaves (integers, strings, qids) and tails (lists, data, stat), written and read; their laws |
| `Messages.dfy`, `MessageLaws.dfy` | message types, their layouts, the dispatcher on bytes; their laws |
| `WireFormat.dfy` | the format of every type, byte by byte; encoders and decoders agree with it |
| `Extensions.dfy` | decoding as bytes keep arriving |
| `Streams.dfy` | the stream class and its state |
| `MessageCodecs.dfy` | `encode` and `decode` of every type, on a stream |
| `Interactions.dfy` | the variant that a decode fills in place; dispatch on a stream |
| `StreamRuns.dfy`, `StreamQueue.dfy` | whole runs of a stream: its bytes, and its interactions as a queue |
| `Batches.dfy` | several interactions on one stream: encoding a batch, decoding until there is no more |
| `Connections.dfy`, `EndToEnd.dfy` | framing; sending and receiving over one pipe |
| `Departures.dfy` | where the code as written differs from what it is for |

A writer's result is an `Emit`: the bytes that reached the stream and whether the
writer returned.  A reader's result is a `Parsed`: a value and what is left, or
`Short`.  Exceptions are `Outcome` and `Result` values.  The only nondeterminism,
how many bytes a raw transport call moves, is a parameter.

## Where the model follows intent instead of the letter

* `MessageStream::decode(std::string&)` reserves instead of resizing
  (MessageStream.cc:83-87).  The model yields exactly the bytes counted.
  `LiteralStringAgreesIffSameLength` says when the letter does too.
* The 64-bit decode depends on the order in which two arguments are evaluated
  (MessageStream.cc:73).  The model reads the low word first.
  `WordOrderMattersUnlessEqual` says when the other order agrees.
* `Connection::read` swaps the arguments of two string constructors and makes two
  tests that contradict each other (Connection.cc:60-78).  The model reads four bytes
  and then the rest of the frame.  `LiteralReadNeverDelivers` shows the
  contradiction.
* Primitive decoders do not check for short input.  The model reports `ShortInput`
  and stops; the stream is then at its end and no longer good, as in the source.  What
  the half-filled object contains is left open.
* `peek` is modelled as written (MessageStream.cc:132-139): a zero byte reads as
  nothing and the end of input as 255.

The layouts follow the code where it differs from sections version(5) and stat(5) of
the Plan 9 manual: `msize` has two bytes, and a WStat request has no second length in
front of its stat.

## Model

| member | source | states |
|---|---|---|
| BitFields.WrittenBit | Core.h:41-49 | bit by bit, a write stores the shifted insert under the mask and the old value elsewhere |
| BitFields.ReadBit | Core.h:31-39 | bit by bit, a read returns the masked bits shifted down, as far as the result type holds them |
| BitFields.OutsideSurvives | Core.h:41-49 | a masked write stays in the type and keeps every bit outside the mask |
| BitFields.LastWriteWins | Core.h:41-49 | a later write to the same field overrides an earlier one |
| BitFields.DisjointWritesCommute | Core.h:41-49 | writes to disjoint masks commute |
| BitFields.ReadAfterWrite | Core.h:31-49 | reading a field just written returns the insert iff it fits the shifted mask, at every width of both types |
| BitFields.WriteAfterRead | Core.h:31-49 | writing back what was read is the identity on every value iff the mask has no bit below the shift and the result type can hold the shifted mask |
| LittleEndian.Build16 | MessageStream.h:46-48 | shift-and-or of two bytes is their little-endian value |
| LittleEndian.Build32 | MessageStream.h:49-51 | shift-and-or of two half words is low plus 2^16 times high |
| LittleEndian.Build32From8 | MessageStream.h:52-54 | the four-byte form is the little-endian value of the four bytes |
| LittleEndian.Build64 | MessageStream.h:55-57 | shift-and-or of two words is low plus 2^32 times high |
| LittleEndian.ValOfLE | MessageStream.cc:45-80 | n bytes hold every number below 256^n and give it back |
| LittleEndian.LEOfVal | MessageStream.cc:45-80 | bytes are determined by their number and the value they spell |
| LittleEndian.HalvesAreLE | MessageStream.cc:65-80 | narrowing the low half and shifting out the high half gives the base-256 digits of the whole |
| LittleEndian.FourShifts | Connection.cc:44-49 | the hand-written frame header is the 32-bit stream encoding |
| Operations.CodeTable | Operations.h:32-99 | operation i of the protocol, in its order, has request code 100 + 2i and response code 101 + 2i, in all three tables |
| Operations.BadCodes | Operations.h:53-54 | no operation stands for 254 as a request and 255 as a response |
| Operations.CodeIsConceptAndParity | Operations.h:66-114 | the legal codes are exactly 100..127, and a legal code is recovered from its concept and parity |
| Operations.CodeNamesItsConcept | Message.h:169-176 | translating a concept and direction to a code loses neither |
| Operations.ExpectedReply | Operations.h:158-171 | a reply is expected exactly for legal requests, is the next code of the same concept, and is not itself replied to |
| WireLaws.LeafRoundTrip | MessageStream.cc:33-98 | every integer, string and qid reads back as written, leaving what follows |
| WireLaws.LeavesRoundTrip | Message.cc:38-297 | a run of leaves, read by its kinds from any point on, comes back whole |
| WireLaws.TailRoundTrip | MessageStream.h:122-143 | lists, data blocks and stats read back as written, leaving what follows |
| WireLaws.LeavesCanonical | Message.cc:38-297 | leaves that were read always write back to the bytes they were read from |
| WireLaws.TailCanonical | MessageStream.h:135-143 | so do lists and data blocks |
| WireLaws.StatIsAllOrNothing | Message.cc:70-88 | a stat is written iff its four string lengths sum to at most 65488; its prefix then counts the inner bytes; otherwise nothing is written |
| WireLaws.FirstUnfit | MessageStream.h:122-133 | a run that throws at leaf i has written exactly the leaves before i |
| MessageLaws.BuildOfLayout | Message.cc:38-297 | a body is recovered from its own layout, for every type |
| MessageLaws.LayoutOfBuild | Message.h:609-622 | a body built from a type's layout has that type and lays out as what it was built from |
| MessageLaws.DomainAndSize | Message.cc:38-328 | encoding returns iff the message is defined, its strings and lists have at most 65535 elements, its data at most 2^32-1 bytes and its stat fits; it then writes a closed-form number of bytes |
| MessageLaws.TypedRoundTrip | Message.cc:38-328 | any encodable object decoded as its own type comes back, leaving what follows |
| MessageLaws.RoundTrip | Interaction.cc:29-101 | any encodable object carrying its type's code comes back through the dispatcher, leaving what follows |
| MessageLaws.RoundTripIffGenuine | Message.h:178-186 | an encodable object comes back through the dispatcher iff its header carries its type's code |
| MessageLaws.DispatchedIsGenuine | Interaction.cc:86-101 | what the dispatcher decodes has the type the first byte names and carries that byte as its code |
| MessageLaws.Canonical | Interaction.cc:39-79 | any accepted input other than a WStat request re-encodes to exactly the bytes consumed |
| MessageLaws.WStatCanonical | Message.cc:286-297 | a WStat request re-encodes to the bytes consumed iff the ignored length was 47 plus the string lengths; otherwise only those two bytes change, or it throws iff the strings exceed 65488 |
| MessageLaws.WStatAnyLength | Message.cc:286-297 | every WStat request carrying its code, its four strings of at most 65535 bytes each, decodes with any length in front of its stat; it re-encodes to that input iff the length is 47 plus the string lengths, and throws iff these sum to more than 65488 |
| MessageLaws.ProducedIff | Interaction.cc:39-101 | the dispatcher can produce a message iff it carries its type's code and either encodes or is a WStat request whose strings fit one by one |
| MessageLaws.UniqueFirst | Message.cc:38-328 | if two encodings with anything behind them are equal, then the messages and what is behind are equal iff the messages have the same type |
| MessageLaws.PrefixFreeIffSameType | Message.cc:38-328 | of two encodable messages, one of whose encodings begins the other, the messages are equal iff they have the same type |
| MessageLaws.ForeignCodeBeginsOthers | Message.h:162-186 | the failing family: any message's code and tag in an error request encode to a beginning of that message, and to all of it iff the message is only a header |
| MessageLaws.GenuineCodeIsType | Message.h:169-186 | messages carrying their own types' codes have equal codes iff they have the same type |
| MessageLaws.PrefixFree | Message.cc:38-328 | among encodable messages that carry their own types' codes, no encoding is a proper prefix of another |
| MessageLaws.UniquelyDecodable | Interaction.cc:81-101 | two lists of encodable messages with equal back-to-back encodings are equal iff their types agree one by one |
| MessageLaws.GenuineListsAreUnique | Interaction.cc:81-101 | lists of encodable messages that carry their own types' codes are determined by their back-to-back encodings |
| MessageLaws.FrameFit | Connection.cc:39-53 | every message but Walk request, Read response and Write request has at most 851960 bytes; those three fit a frame iff the stated bound on names or data holds |
| MessageLaws.LargestWalkOverflows | Message.cc:169-174 | the largest encodable walk has 2^32+12 bytes, and none is larger |
| MessageLaws.WalkFailure | Message.cc:169-174 | a walk that throws at name i has written its header, fids, count and the names before i, nothing more |
| MessageLaws.SilentIffUndefined | Message.h:204-210 | an encoder throws having written nothing iff the message is undefined |
| MessageLaws.RepeatedDecodeAccumulates | MessageStream.h:135-143 | decoding k messages into one object concatenates their lists or data after what it held, and keeps the last message's other fields; a type without lists or data is replaced whole |
| MessageLaws.FreshHoldsNothing | Interaction.cc:44-48 | decoding into a default-constructed object is decoding from the bytes alone |
| WireFormat.LeafOnWire | MessageStream.cc:40-98 | each integer is its base-256 digits, low first, a string its two-byte length and its characters in order, a qid its kind, version and path |
| WireFormat.StringOnWire | MessageStream.cc:88-98 | position by position: the length, then character i at offset 2 + i; over 65535 characters nothing is written |
| WireFormat.LeafFromWire | MessageStream.cc:33-87 | for every input, when a reader has enough bytes, which number, characters or qid they are, and what is left |
| WireFormat.EncodesAsFormat | Message.cc:38-328 | for every message of every type, returning or throwing, the bytes written are those of the format spelled out field by field, up to the first field that is refused |
| WireFormat.CodeIsRawOperation | Message.h:178-186 | each of the thirty types has its literal code |
| WireFormat.CodeOnWire | Interaction.cc:39-101 | a message's first byte is its type's literal code, and a first byte is decoded to the type with that code |
| WireFormat.TypedDecodeIff | Message.cc:42-328 | decoding as a type yields a message and a rest iff the message has the type and the input is that message's format followed by the rest, any two bytes in front of a stat allowed |
| WireFormat.DispatchIff | Interaction.cc:39-101 | the dispatcher decodes a message and leaves a rest iff the message carries its literal code and the input is its format followed by the rest |
| WireFormat.RejectedIff | Interaction.cc:39-101 | it rejects an input iff that is empty or begins with a byte outside 100..127 |
| WireFormat.DecodeIntoSpelled | MessageStream.h:86-89 | an object told to decode an input that spells a message of its type adds the lists and data of that message to its own and takes over all else |
| WireFormat.DecodeIntoIff | MessageStream.h:86-89 | it runs short iff the input spells no message of its type |
| WireFormat.FreshMeaning | Message.h:178-186 | a default-constructed object has the type asked for, its literal code and the tag 65535 |
| Streams.ChunksDeliverInOrder | MessageStream.cc:117-131 | any sequence of reads from a good stream delivers the unread bytes in order, as many as asked for, and leaves it good |
| Streams.StoreAppends | MessageStream.cc:106-116 | output on a good stream positioned at its end appends and can be read back after what was unread |
| Streams.StoreMeaning | MessageStream.cc:106-116 | output replaces exactly the bytes from the write position on, extends the buffer only if it has to and moves nothing; a stream that is not good ignores it |
| Streams.PeekMeaning | MessageStream.cc:132-139 | peek tells the byte that a read would deliver unless it is zero or missing, 255 at the end; it moves nothing and marks the stream iff nothing is left |
| Streams.MessageStream.Write | MessageStream.cc:106-116 | output lands at the write position; on a stream that is not good it is dropped |
| Streams.MessageStream.Read | MessageStream.cc:117-131 | delivers min(n, unread) bytes and leaves the stream good |
| Streams.MessageStream.PeekByte | MessageStream.cc:132-139 | the literal peek, its effect on the stream's condition included |
| Streams.MessageStream.Assign | MessageStream.cc:103-103 | replaces the buffer and rewinds both positions |
| Streams.MessageStream.Reset | MessageStream.cc:104-104 | empties the buffer and rewinds both positions; the stream's condition stays |
| Streams.MessageStream.EncodeU8 | MessageStream.cc:40-43 | writes the byte |
| Streams.MessageStream.EncodeU16 | MessageStream.cc:52-56 | writes the two base-256 digits, low first |
| Streams.MessageStream.EncodeU32 | MessageStream.cc:65-69 | the two half-word calls write the four base-256 digits |
| Streams.MessageStream.EncodeU64 | MessageStream.cc:76-80 | the two word calls write the eight base-256 digits |
| Streams.MessageStream.EncodeString | MessageStream.cc:88-98 | the narrowing test passes iff the length is at most 65535; count and characters are written, or nothing |
| Streams.MessageStream.DecodeU8 | MessageStream.cc:33-38 | takes one byte, or reports short input and drains the stream |
| Streams.MessageStream.DecodeU16 | MessageStream.cc:45-50 | takes a little-endian 16-bit value, or reports short input |
| Streams.MessageStream.DecodeU32 | MessageStream.cc:58-63 | takes a little-endian 32-bit value, or reports short input |
| Streams.MessageStream.DecodeU64 | MessageStream.cc:71-74 | two word reads take the little-endian 64-bit value, or report short input |
| Streams.MessageStream.DecodeString | MessageStream.cc:82-87 | takes the count and that many bytes, or reports short input |
| MessageCodecs.EncodeQid | Message.cc:58-61 | writes kind, version and path |
| MessageCodecs.DecodeQid | Message.cc:63-66 | takes kind, version and path |
| MessageCodecs.EncodeNames | MessageStream.h:122-133 | count and names, throwing with exactly the specified bytes written |
| MessageCodecs.EncodeQids | MessageStream.h:122-133 | count and qids |
| MessageCodecs.EncodeData | Message.cc:299-309 | 32-bit count and bytes, or nothing if the count does not fit |
| MessageCodecs.EncodeStat | Message.cc:70-88 | the inner stream's contents as one string; the outer stream is untouched on failure |
| MessageCodecs.DecodeNames | MessageStream.h:135-143 | the names read are added to what the vector held |
| MessageCodecs.DecodeQids | MessageStream.h:135-143 | the qids read are added to what the vector held |
| MessageCodecs.DecodeData | Message.cc:311-318 | the bytes read are added to what the vector held |
| MessageCodecs.DecodeStat | Message.cc:90-105 | the length is taken and ignored, then the stat's own fields |
| MessageCodecs.EncodeHeader | Message.cc:38-41 | code, then tag |
| MessageCodecs.DecodeHeader | Message.cc:42-45 | code, then tag |
| MessageCodecs.EncodeHeaderOnly | Message.cc:38-41 | error request, flush, clunk, remove and wstat responses write the code and the tag, and nothing else |
| MessageCodecs.EncodeErrorResponse | Message.cc:47-51 | header, error name; throws after the header iff the name is too long |
| MessageCodecs.EncodeVersion | Message.h:249-252 | header, 16-bit msize, version, in both directions; throws before the version iff it is too long |
| MessageCodecs.EncodeAuthRequest | Message.cc:107-111 | header, afid, uname, aname; throws at the first name that is too long, with all before it written |
| MessageCodecs.EncodeQidResponse | Message.cc:119-123 | header, qid, for auth and attach responses |
| MessageCodecs.EncodeFlushRequest | Message.cc:134-138 | header, old tag |
| MessageCodecs.EncodeAttachRequest | Message.cc:145-150 | header, fid, afid, uname, aname; throws at the first name that is too long, with all before it written |
| MessageCodecs.EncodeWalkRequest | Message.cc:169-174 | header, fid, newfid, counted names; throws with exactly the bytes before the failure written |
| MessageCodecs.EncodeWalkResponse | Message.cc:183-187 | header, counted qids; throws after the header iff there are too many |
| MessageCodecs.EncodeOpenRequest | Message.cc:196-201 | header, fid, mode |
| MessageCodecs.EncodeOpenOrCreateResponse | Message.h:437-441 | header, qid, iounit |
| MessageCodecs.EncodeCreateRequest | Message.cc:210-216 | header, fid, name, permissions, mode; throws after the fid iff the name is too long |
| MessageCodecs.EncodeFidRequest | Message.h:480-483 | header, fid, for clunk, remove and stat requests |
| MessageCodecs.EncodeReadRequest | Message.cc:226-230 | header, fid, offset, count |
| MessageCodecs.EncodeReadResponse | Message.cc:238-242 | header, counted data; throws after the header iff the count does not fit 32 bits |
| MessageCodecs.EncodeWriteRequest | Message.cc:250-254 | header, fid, offset, counted data; throws after the offset iff the count does not fit 32 bits |
| MessageCodecs.EncodeWriteResponse | Message.cc:262-266 | header, count |
| MessageCodecs.EncodeStatResponse | Message.cc:274-278 | header, stat data as a string; throws after the header iff it is too long |
| MessageCodecs.EncodeWStatRequest | Message.cc:286-291 | header, fid, stat; throws after the fid iff the stat does not fit |
| MessageCodecs.EncodeMessage | Interaction.cc:81-85 | the held type's own encoder; an undefined message throws with nothing written; returning or throwing, the buffer before the write position is untouched, and at the end of a good stream exactly the specified bytes are appended |
| MessageCodecs.DecodeHeaderOnly | Message.cc:42-45 | code and tag replace the held ones; short input is reported |
| MessageCodecs.DecodeErrorResponse | Message.cc:52-56 | header and error name replace the held ones; short anywhere drains the stream |
| MessageCodecs.DecodeVersion | Message.h:253-256 | header, msize and version, in both directions, or short input |
| MessageCodecs.DecodeAuthRequest | Message.cc:113-117 | header, afid, uname and aname, or short input |
| MessageCodecs.DecodeQidResponse | Message.cc:124-128 | header and qid, for auth and attach responses, or short input |
| MessageCodecs.DecodeFlushRequest | Message.cc:139-143 | header and old tag, or short input |
| MessageCodecs.DecodeAttachRequest | Message.cc:151-156 | header, fid, afid, uname and aname, or short input |
| MessageCodecs.DecodeWalkRequest | Message.cc:176-181 | header, fid and newfid replace, the names read are added to those held, or short input |
| MessageCodecs.DecodeWalkResponse | Message.cc:189-193 | header replaces, the qids read are added to those held, or short input |
| MessageCodecs.DecodeOpenRequest | Message.cc:203-208 | header, fid and mode, or short input |
| MessageCodecs.DecodeOpenOrCreateResponse | Message.h:442-446 | header, qid and iounit, or short input |
| MessageCodecs.DecodeCreateRequest | Message.cc:218-224 | header, fid, name, permissions and mode, or short input |
| MessageCodecs.DecodeFidRequest | Message.h:484-487 | header and fid, for clunk, remove and stat requests, or short input |
| MessageCodecs.DecodeReadRequest | Message.cc:232-236 | header, fid, offset and count, or short input |
| MessageCodecs.DecodeReadResponse | Message.cc:244-248 | header replaces, the data read is added to that held, or short input |
| MessageCodecs.DecodeWriteRequest | Message.cc:256-260 | header, fid and offset replace, the data read is added to that held, or short input |
| MessageCodecs.DecodeWriteResponse | Message.cc:268-272 | header and count, or short input |
| MessageCodecs.DecodeStatResponse | Message.cc:280-284 | header and stat data, or short input |
| MessageCodecs.DecodeWStatRequest | Message.cc:292-297 | header, fid and stat, the stat's length ignored, or short input |
| MessageCodecs.DecodeHeld | MessageStream.h:86-89 | the held type's own decoder; an undefined message throws with nothing taken |
| Interactions.InteractionSlot.constructor | Interaction.h:49-49 | a default Interaction holds an undefined response |
| Interactions.InteractionSlot.DecodeInPlace | MessageStream.h:86-89 | the held object is filled in place, keeping its type and growing its lists and data |
| Interactions.InteractionSlot.ReadAs | Interaction.cc:39-79 | dispatch by concept into a Request or a Response, with its exceptions |
| Interactions.InteractionSlot.ReadInteraction | Interaction.cc:86-101 | dispatch by parity and concept, replacing what the variant held, with its exceptions; after short input the variant holds the selected type |
| Interactions.DispatchMeaning | Interaction.cc:86-101 | dispatch on a stream depends on its unread bytes alone; a rejected input leaves both positions and the buffer as they were |
| Interactions.SelectsExactlyTheCodes | MessageStream.cc:132-139 | even with the literal peek, a type is selected iff there is a next byte and it is in 100..127 |
| Interactions.DecodedIff | Interaction.cc:86-101 | on a stream too, a message is decoded and a rest left iff the unread bytes are its format, under its literal code, followed by the rest |
| Interactions.RejectedDispatch | Interaction.cc:86-101 | a zero byte is refused with nothing touched; any other byte outside 100..127, and the end, throws the other exception after the variant was replaced by an undefined message of the byte's parity, a response at the end |
| Interactions.ShortDispatch | Interaction.cc:86-101 | after short input the stream is at its end and not good, and the variant holds the type whose literal code the byte is |
| Extensions.DispatchExtends | Interaction.cc:39-101 | for every type, more input changes neither what was decoded nor what was rejected, and stays behind what was left |
| Extensions.DispatchCompletes | Interaction.cc:39-101 | every input that begins with an operation code can be extended to one that decodes |
| Extensions.UnderflowMeaning | Interaction.cc:39-101 | input runs short iff it begins with one of 100..127 and no prefix of it decodes |
| Extensions.UnderflowCompletes | Interaction.cc:39-101 | input that runs short can always be extended to one that decodes |
| Interactions.IndependentOfHeld | Interaction.cc:86-97 | once a type is selected, nothing the variant held before matters |
| Interactions.DirectDispatchIsGenuineIffParity | Interaction.cc:39-79 | a Request or Response decoding itself ends up with its own type's code iff the parity of the byte announced its direction |
| Interactions.DirectMeaning | Interaction.cc:39-79 | a Request or Response decoding itself: which bytes are refused, with which exception and nothing replaced, and that any code selects the type of its own direction |
| Interactions.DirectDispatchIff | Interaction.cc:39-79 | it decodes a message and leaves a rest iff the message has its direction, carries its own code or the other direction's, and the unread bytes are its format followed by the rest |
| Interactions.ResponseCodeDecodesAsRequest | Interaction.cc:39-58 | an input on which it does not: a response code decoded as a request |
| Interactions.StreamRoundTrip | Interaction.cc:81-101 | an interaction encoded on a drained good stream is what the next dispatch yields, and the stream is drained again |
| Interactions.EncodeAfterAssignOverwrites | MessageStream.cc:103-103 | after the contents are replaced, output follows them iff they or the output are empty |
| Interactions.DispatchKeepsGoodIff | MessageStream.cc:132-139 | a dispatch leaves the stream good iff there was a next byte and the input did not run short |
| Interactions.DispatchLosesOutputIff | MessageStream.cc:106-139 | output after a dispatch is dropped iff there was nothing to read or the input ran short, until a read clears the condition |
| StreamRuns.RunIsAccounted | MessageStream.cc:33-139 | over every run, bytes consumed followed by bytes unread are exactly the bytes written, all of which the contents report |
| StreamRuns.FreshRunIsAccounted | MessageStream.h:62-99 | the same over every run from a fresh stream, where `str` and `length` thus report the whole written history |
| StreamRuns.NothingDroppedIffHeard | MessageStream.cc:106-116 | over every run, all bytes offered for output are kept iff every event that offers some finds the stream good |
| StreamRuns.GoodIffFed | MessageStream.cc:33-139 | an event leaves a good stream good iff the unread bytes suffice for it |
| StreamRuns.SuppliedRunKeepsAll | MessageStream.cc:33-139 | from a good stream, a run stays good throughout iff the unread bytes suffice for each event in turn, and then nothing offered for output is dropped |
| StreamQueue.PutKeepsOrder | Interaction.cc:81-85 | encoding onto a stream keeps it a queue iff the object encodes and carries its type's code, or is undefined |
| StreamQueue.TakeKeepsOrder | Interaction.cc:86-101 | dispatching keeps it a queue iff it was not empty, and then yields the oldest message |
| StreamQueue.EveryFairRunIsInOrder | Interaction.cc:81-101 | over every run of encodes and dispatches on one stream, messages come out in the order they went in and the unread bytes are the encodings of the rest, at every point iff the run is fair |
| StreamQueue.FairRunFromStart | Interaction.cc:81-101 | from a fresh stream, once as many are taken as were put, the lists are equal and nothing is unread |
| Batches.CleanMeaning | Interaction.cc:81-85 | after any run of encodes, returning or throwing, the stream holds exactly the encodings of those that returned, all decodable, iff every object carries its type's code and encodes, or is undefined |
| Batches.DrainStops | Interaction.cc:86-101 | dispatching until it throws, on encodings followed by something that is not a message, yields exactly those messages; which exception ends it, what is left unread, and what the variant then holds |
| Batches.DrainDelivers | Interaction.cc:86-101 | with nothing behind the encodings, it yields exactly the messages in order, ends with an undefined response in the variant, and after one read the stream is good and drained |
| Connections.Connection.Write | Connection.cc:35-55 | what reaches the transport and when it raises, for every payload and every count the transport accepts |
| Connections.Connection.Read | Connection.cc:56-82 | what is taken from the transport and delivered, for every supply of bytes |
| Connections.FrameOnWire | Connection.cc:44-50 | a frame is the four digits of its length modulo 2^32, low first, and then the payload's bytes as they are |
| Connections.ReadIff | Connection.cc:61-79 | for every pipe and supply, a read delivers exactly the bytes behind the length, iff both raw reads are supplied in full; otherwise how many bytes it has taken |
| Connections.FrameRoundTrip | Connection.cc:35-82 | the frame of a payload that fits is delivered iff the transport supplies all of it, and then whole, leaving what follows |
| Connections.WriteContract | Connection.cc:39-53 | up to 2^32-5 bytes, normal return iff the whole frame was accepted, and the header is its length; beyond, a complete write raises and normal return means fewer than 4 bytes went out |
| Connections.WrappedFrameRaises | Connection.cc:44-53 | a frame whose length wrapped makes the reader raise with the payload still on the pipe |
| Connections.RaisedReadKeepsPipeIff | Connection.cc:61-79 | a read that raises leaves the pipe as it was iff the pipe was empty or nothing was supplied; otherwise it has consumed from its front |
| EndToEnd.TransmitConserves | Connection.cc:35-55 | writing a stream keeps the received batches a prefix of the sent ones, with the rest framed on the pipe, iff its contents exceed 32 bits and nothing happens; or the frame's length does not wrap, it is accepted whole, and all that was put on the stream since its reset encoded with its type's code or was undefined; or nothing is accepted and the length does not wrap to 0 |
| EndToEnd.ReceiveConserves | Connection.cc:56-82 | a receive keeps the account iff nothing is on its way, nothing is supplied, or the whole next frame is; in the last case it delivers exactly the next batch sent |
| EndToEnd.EveryRunConserves | Connection.cc:35-82 | over every interleaving of encodes, writes, resets and receives with any byte counts, the received batches are a prefix of the sent ones and the pipe holds exactly the frames of the rest, at every point of the run iff every act meets the conditions above |
| EndToEnd.StepOnceEach | MessageStream.cc:99-104 | an act keeps the interactions sent, then those waiting on the stream, equal to those encoded iff it is not a write that repeats some or a reset that discards some |
| EndToEnd.EveryCarefulRunIsOnceEach | Connection.cc:35-55 | over every run, whatever the transport does, each interaction encoded is sent or waiting exactly once and in order, at every point iff every act meets that condition |
| EndToEnd.WrittenTwiceSendsTwice | Connection.cc:35-39 | a stream written twice sends its whole contents twice |
| EndToEnd.ResetAfterWriteIsCareful | MessageStream.cc:104-104 | resetting after each write that returns meets the condition |
| EndToEnd.DrainingDeliversAll | Connection.cc:56-82 | receives that meet the condition, enough of them supplied with anything, deliver everything on its way and empty the pipe |
| EndToEnd.AmpleReceivesAreServed | Connection.cc:56-82 | receives supplied with at least 4 and then at least 2^32-5 bytes always meet the condition |
| EndToEnd.EndToEndDelivery | Interaction.cc:81-101 | any run that meets the conditions, then enough receives that do: the received batches are the sent ones with nothing left over; if no write repeated and no reset discarded any, the interactions received, then those waiting, are exactly those encoded, in order |
| EndToEnd.SendBatch | Interaction.h:52-52 | encoding a batch on a stream and writing it does what the corresponding acts do, for every count the transport accepts, and returns iff the batch counts as sent |
| EndToEnd.DrainStream | Interaction.h:51-51 | dispatching in a loop until it throws, then reading, yields what draining is specified to yield |
| EndToEnd.ReceiveBatch | Interaction.h:51-51 | reading a frame and draining the stream does what a receive step does, for every supply |
| Departures.LiteralStringAgreesIffSameLength | MessageStream.cc:82-87 | the literal string decode, which keeps the old length and overwrites from the front, yields the string read iff the old string had its length |
| Departures.WordOrderMattersUnlessEqual | MessageStream.cc:71-74 | evaluating the high word first gives the value of the words exchanged, which differs iff the words do |
| Departures.LiteralReadNeverDelivers | Connection.cc:61-79 | as written, the tests of a read cannot both pass |

## Left out

- EndToEnd.EveryRunConserves: says when the account is kept, not what a receiver makes of the pipe once a frame has been cut; a single call's behaviour there is stated by `Connections.Connection.Read` and `RaisedReadKeepsPipeIff`.
- Reading from the sender's stream, or assigning its contents, between writes: `EndToEnd` only encodes on it, writes it and resets it; single streams under any use are covered by `StreamRuns` and `EncodeAfterAssignOverwrites`.
- Sockets and file handles (FileHandleConnection, SocketConnection, UnixDomainSocketConnection): operating-system calls; the transport is a byte pipe that moves as many bytes as its caller's parameter allows.
- Message objects as separate heap objects: in the source they live by value inside a variant, so the variant is the object here and a message is a value that it holds.
- Short input inside an object: the outcome and the stream are stated, the contents of the half-filled object are not.
- Fields that a default constructor leaves unset read as 0 here; decoding overwrites them (`IndependentOfHeld`).
- Getters, setters, the non-copyable and non-movable helpers and the session, file and metadata classification of codes: no behaviour beyond a lookup.
- Exception texts: a failure is one of six reasons.
- Memory exhaustion, and stream conditions other than end of input: an in-memory buffer cannot raise them.
- The logic layer that the repository's introduction announces: it does not exist yet.
