# Heaven, verified

Heaven is an in-memory store that speaks RESP2. This project models four parts of it in Dafny and
proves what they promise.

- **Request decoder** (`Decoder`, `Sessions`, `SessionLaws`, `Grammar`, `Wish`, `Numbers`). `Wish` is the code in its
  own form: a buffer that is compacted, grown and filled in place, and the loop over the phase machine.
  It is proved equal to functions on session values. On those: the commands handed over never depend on
  how the socket splits the stream; on well-formed streams nothing is held back and nothing fails; the
  loop terminates; the buffer stays within its bounds. `Grammar` compares the decoder with a RESP2 reader:
  they accept the same streams of requests, and where a stream stops being one the failure is the right one.
- **Replies** (`Resp`, `Replies`, `WireBytes`, `RoundTrip`, `Egress`). The printer fills its buffer with exactly the
  wire form of a reply; a RESP2 reader recovers every reply and pushed message from a client's stream; printing
  commands and feeding them to the decoder in any chunks gives them back.
- **Keyspace** (`Keyspace`, `Souls`, `Entries`, `StringCommands`, `HashCommands`, `ListCommands`, `SetCommands`,
  `ManyKeys`, `LazyExpiry`, `ListLaws`, `KeyspaceLaws`, `BatchLaws`). `Keyspace.Exec` says what each command does
  and answers; `Souls` is the code in its own form, with its loops, proved to do that. On `Exec`: what every
  command stores, keeps and answers, in terms of what there is to see under its key; lazy expiry refines
  eager expiry over whole runs, and laws of lists, counters, sets and hashes over whole runs in which other
  keys are used freely.
- **Threads** (`PubSub`, `Channels`, `Temples`, `Subscribers`, `Handoff`, `OwnAnswers`, `Progress`, `Server`, `Songs`,
  `Heaven`, `Clients`, `EndToEnd`). The publish/subscribe structures agree with one relation after any history;
  the Temple loop answers each request with one decree; in every interleaving of event loop, workers, Temple and
  writer a connection has one owner, each client's requests keep their order, and nothing ever gets stuck
  (`Progress`). `Server` is the event loop in its own form, proved to be steps of `Handoff`.
  `Songs` puts a session of wish behind every connection, `Heaven` a keyspace and a history behind the
  Temple thread: in every interleaving the answers sent are those of one sequential run of commands.
  `Clients` says what a client gets of them: it is sent its own answers in the order of its requests, and
  reads, if no write to it fails, exactly what was sent to it before its farewell. `Subscribers` tells publish
  and subscribe from the requests alone, `OwnAnswers` the replies workers send themselves, and `EndToEnd`
  follows a value from SET to the bytes GET is answered with.

A socket is a finite script of what reads find: bytes, nothing yet, or the end. Channels between threads
are queues. Time is whole seconds and a parameter of each command. The order in which a hash table lists
its elements is left open. Integer arithmetic on `i32` indexes wraps, as in a release build.

## What does not hold

- A byte dropped in place of a `$` marker makes `wish` read again even though unread bytes remain
  (src/wish.rs:203-208). If that read finds nothing, complete commands behind the byte stay undelivered
  although `wish` returns Ok. `HeldBackBehindSkip` says exactly when, `SkipHoldsBack` shows such a call.
- An announced length of 2^64-2 or 2^64-1 makes `len + 2` leave the usize (src/wish.rs:225-226): the worker
  panics and takes the connection with it, with no farewell. `PanicsOnHugeLengths` shows there are no other
  such lengths, `HugeTermPanics` shows both. Well-formed streams and printed commands never hold one.
- A failed write does not end a client's stream (src/egress.rs:26-36): the next reply follows the torn one.
  `ClientsReadWhatWasSent` says exactly when a stream is whole, `TornReply` shows two replies read as one.
- The pops look at a value's type before its deadline (src/temple/soul.rs:351-375), so a dead key that holds
  no list answers wrong type instead of nothing. `LazyRefinesEager` shows this is the only difference,
  `DeadPop` what it is. Times must not decrease: `RefinesIffInOrder` shows that nothing weaker will do.
- HSET on a missing key answers the number of pairs, not of new fields (src/temple/soul.rs:237-242).
  `HashRepliesCount` says exactly when the two agree, `RepeatedFieldIsCountedTwice` shows them apart.
- A counter that reaches -2^63 can never be changed again, since its own text is refused
  (src/wish/util.rs:87-93). `CounterHoldsTotal` has the condition, `CounterGetsStuck` the requests.
- LRANGE, LREM, LINDEX and LSET work on the list length as an `i32` (src/temple/soul.rs:523, 567, 593, 624).
  `LrangeAllIffShort`, `ScanCoversAll` and `PlacesIffShort` give the exact lengths up to which they work.
- A pop with count 0 deletes a dead or an empty list, which no single pops do (src/temple/soul.rs:403-405);
  `PopIsPopEach` has the condition, `PopOfNothingDeletes` the requests.
- Not every request is answered. A SUBSCRIBE that adds no channel gets no bytes at all
  (src/egress/send.rs:111-122): `AnsweredUnlessNothingNew` and `DatabaseIsAnswered` show that the decree for
  any other request holds a value for its client, `SecondSubscribeIsSilent` is such a request.
- Pipelined commands may be answered out of turn: a worker answers PING itself (src/wish/grant/ping.rs:25-33)
  while an earlier request still waits for Temple. `AnswersKeepOrderIff` says exactly for which streams that
  cannot happen, `AnsweredTooEarly` gives the runs in which it does.
- An answer may be lost even so: a client's farewell, sent by its worker when wish fails (src/server.rs:228-235),
  can overtake answers still to come from Temple, and the writer then finds no socket (src/egress.rs:19-27).
  `AnswerWrittenUnlessFarewell` says exactly which answers, `FarewellLosesAnswer` shows such a run, and
  `GrantedThenFails` the bytes: a command, then a byte that starts none.
- A TTL on a deadline the clock's i64 cannot hold panics (src/temple/soul.rs:685) and ends the Temple thread,
  for all clients. `PanicsOnFarDeadline` gives the exact condition, `FarDeadlinePanics` the requests;
  `RunsEndForCause` and `NothingAfterFatal` show that no other request of a client ends it, and what follows.

## Model

| member | source | states |
|---|---|---|
| `Decoder.Next` | src/wish.rs:172-249 | one arm of the loop: takes at least one byte, keeps the phase invariant (no terms held between commands, one still to come inside one), and hands over at most one command, with exactly the announced number of terms; an announced length whose sum with 2 leaves the usize is a panic |
| `Decoder.PanicsOnHugeLengths` | src/wish.rs:224-226 | the machine panics on exactly the announced lengths 2^64-2 and 2^64-1, as soon as a byte follows them |
| `Decoder.NextIsStable` | src/wish.rs:172-249 | a step that is possible stays the same step when more bytes follow |
| `Decoder.StarvedIsShort` | src/wish.rs:224-247 | a step is starved only by fewer bytes than it will take |
| `Decoder.DecodeSplit` | src/wish.rs:165-250 | decoding a stream is decoding any prefix and going on from where that stopped; a failure is final |
| `Sessions.RoomIsMade` | src/wish.rs:46-59 | making room keeps the buffer legal and the unread bytes, frees at least 1024 bytes, doubles exactly when the window exceeds the capacity less 1024, refuses exactly when it exceeds 64 MiB - 1024 |
| `Sessions.FillIsSound` | src/wish.rs:46-69 | a read moves at least one byte from the front of the stream to the back of the window and nothing else; refused exactly beyond the limit |
| `Sessions.RoundIsSound` | src/wish.rs:165-250 | every round keeps the buffer and phase invariants, and each round that goes on lowers twice the bytes in the socket plus the unread bytes |
| `SessionLaws.RoundKeeps` | src/wish.rs:165-250 | every round keeps the session faithful to the one-shot decoder, and stops only for a justified cause |
| `SessionLaws.GrantedIsPrefix` | src/wish.rs:158-253 | after any number of calls on any split, the commands handed over are a prefix of the one-shot decoding of the bytes received, and of the stream |
| `SessionLaws.AtEveryMoment` | src/wish.rs:158-253 | the same in the middle of a call, with the buffer and phase invariants, and every command handed over has a first term |
| `SessionLaws.NothingHeldBack` | src/wish.rs:158-253 | if no byte received is skipped, every complete command has been handed over whenever wish returns Ok, and the session stands where the one-shot decoder stands |
| `SessionLaws.FailuresAreEarned` | src/wish.rs:147-153 | a failure is a connection that has met an end of file or an error, a failure or panic of the received bytes themselves behind all the commands they complete, or a window beyond the limit |
| `SessionLaws.LastBytesStopAtSkip` | src/wish.rs:203-208 | when no further read of a call finds bytes, its loop stops behind the first skipped byte |
| `SessionLaws.HeldBackBehindSkip` | src/wish.rs:203-208 | for a whole call on any socket: an Ok leaves a received command undelivered if and only if one lies behind the first byte skipped after the last successful read of the call, or the call read nothing while one was left already |
| `SessionLaws.SkipHoldsBack` | src/wish.rs:203-208 | such a call of wish: a stray byte before the marker; it returns Ok, has received the whole command and delivered nothing |
| `SessionLaws.WellFormedIsServed` | src/wish.rs:158-253 | on a well-formed stream that fits the buffer wish never fails, and after enough calls has handed over every command |
| `SessionLaws.MistakesAreFound` | src/wish.rs:158-253 | however a quiet socket splits a stream that decodes to a failure without a skip, enough calls of wish fail in just that way, with just the commands before it handed over |
| `Sessions.EndIsNoticed` | src/wish.rs:61-66 | a read that finds the end or an error ends the call as Disconnected, with nothing received or handed over |
| `Grammar.DecoderReadsRequests` | src/wish.rs:165-250 | the decoder reads a stream to its end, unfailing and unskipping, if and only if a RESP2 reader reads it as arrays of present bulk strings; what it hands over are the arrays with a term, in order |
| `Grammar.RequestsAreServed` | src/wish.rs:158-253 | however a quiet socket splits such a stream, wish hands over exactly those commands and never fails |
| `Grammar.StrayByte` | src/wish.rs:173-180 | behind whole requests a byte other than * is blasphemy |
| `Grammar.BadCount` | src/wish.rs:181-184 | behind whole requests a term count that is no number is a parse error |
| `Grammar.BadLength` | src/wish.rs:211-215 | inside a command a length that is no number is a parse error |
| `Grammar.BadEnd` | src/wish.rs:224-228 | a term not followed by CR LF is blasphemy |
| `Grammar.JunkComesToNothing` | src/wish.rs:198-210 | bytes where a marker should be are dropped and counted, and change nothing else of what the stream decodes to |
| `RoundTrip.HugeTermPanics` | src/wish.rs:224-226 | a call of wish on a term with one of the two lengths takes its worker down |
| `RoundTrip.GrantedThenFails` | src/wish.rs:172-179 | a command followed by a byte that starts none is handed over, if it has a term, and then the call fails |
| `RoundTrip.WellFormedNeverPanics` | src/wish.rs:158-253 | no split of a well-formed stream leads to a panic |
| `Wish.Stream.Read` | src/wish.rs:61-66 | a read into the buffer behind the window does what the socket script says |
| `Wish.Virtue.constructor` | src/wish.rs:26-35 | a new Virtue: 4096 bytes, empty window, Idle |
| `Wish.Virtue.Compact` | src/wish.rs:37-44 | moves the unread bytes to the front in place and changes none of them |
| `Wish.Virtue.Resize` | src/wish.rs:57 | grows the buffer and keeps the unread bytes |
| `Wish.Virtue.MakeRoom` | src/wish.rs:47-59 | compaction and growth in place are MakeRoom on values; refusal exactly when that refuses |
| `Wish.Virtue.PotentiallyResizeAndRead` | src/wish.rs:46-69 | the method in place is FillOnce on values, outcome by outcome |
| `Wish.Virtue.TakeTermCount` | src/wish.rs:181-197 | the term-count arm in place is the round on values |
| `Wish.Virtue.TakeMarker` | src/wish.rs:198-210 | the marker arm in place, which may both consume and read, is the round on values |
| `Wish.Virtue.TakeBulkStringLength` | src/wish.rs:211-223 | the length arm in place is the round on values |
| `Wish.Virtue.TakeBulkString` | src/wish.rs:224-248 | the bulk-string arm in place, in wrapping usize arithmetic and with the grant, is the round on values |
| `Wish.Virtue.Round` | src/wish.rs:165-250 | one pass through the loop body in place is the round on values |
| `Wish.Virtue.Serve` | src/wish.rs:165-252 | the loop terminates and does what the loop on values does |
| `Wish.Pilgrim.Wish` | src/wish.rs:158-253 | one call of wish, from a connection with or without a Virtue, is Wish on values: outcome, session, bytes received, commands granted |
| `Numbers.FindCrlf` | src/wish/util.rs:3-5 | the first position of CR LF, or none |
| `Numbers.PrefixMagnitude` | src/wish/util.rs:28-36 | a digit prefix denotes no more than the whole, so an intermediate overflow implies a final one |
| `Numbers.ParseDigits` | src/wish/util.rs:20-36 | the checked digit loop accepts exactly the digit strings within the type, with their value |
| `Numbers.BytesToUnsigned` | src/wish/util.rs:96-115 | bytes_to_usize and bytes_to_u64 succeed exactly on non-empty digit strings of magnitude at most MAX |
| `Numbers.BytesToSigned` | src/wish/util.rs:62-94 | bytes_to_i64 and bytes_to_i32: the same with an optional leading minus |
| `Numbers.ParsePrinted` | src/wish/util.rs:62-94 | reading printed decimals gives the number back exactly between -MAX and MAX, so the type's MIN is refused |
| `Numbers.AcceptsDecimalTexts` | src/wish/util.rs:96-115 | the unsigned parsers accept exactly the decimal texts of the type's values, with any number of zeros in front |
| `Numbers.AcceptsSignedTexts` | src/wish/util.rs:62-94 | the signed ones those, and those of their negatives behind a minus |
| `Replies.Printer.ExtendBulk` | src/egress/send.rs:58-70 | prints a present or absent bulk string as its wire form |
| `Replies.Printer.ExtendRows` | src/egress/send.rs:71-91 | prints an array header and each row |
| `Replies.Printer.ExtendChannel` | src/egress/send.rs:113-121 | the literal header, the channel and the count are the wire form of a three-element array; and so for unsubscribe (lines 125-135) |
| `Replies.Printer.ExtendChannels` | src/egress/send.rs:111-136 | prints one three-element array for each channel and count |
| `Replies.HeaderLiteral` | src/egress/send.rs:113 | a literal frame header is right if the length written into it is the length of its verb |
| `Replies.NothingLeftLiteral` | src/egress/send.rs:138 | the literal for an UNSUBSCRIBE with nothing left is the wire form of its array |
| `Replies.Printer.Send` | src/egress/send.rs:6-248 | whatever the reused buffer held, it ends up holding exactly the wire form of the reply |
| `Replies.RepliesArePrintable` | src/egress/send.rs:141-247 | every reply within its types prints as values on their own lines, error texts included |
| `WireBytes.BytesOfReplies` | src/egress/send.rs:6-248 | the bytes of every kind of reply, written out |
| `WireBytes.BytesOfMessage` | src/egress.rs:40-48 | the bytes of a pushed message |
| `WireBytes.TypeErrorLine` | src/egress/send.rs:145-160 | a wrong value is told as the wrong type, by every command but the counters and those with an index |
| `Resp.ReadWire` | src/egress/send.rs:6-248 | a RESP2 reader undoes the wire form of any value, whatever follows |
| `Resp.ReadAllWire` | src/egress/send.rs:6-248 | a stream of printed values reads back as exactly those values |
| `RoundTrip.PrintedCommand` | src/egress/send.rs:71-91 | send prints a command as an array header and its terms |
| `RoundTrip.DecodePrinted` | src/wish.rs:165-250 | one pass over printed commands yields exactly those that have a term, in order, with no failure and no skip, and ends in Idle with nothing unread |
| `RoundTrip.PrintThenWish` | src/wish.rs:158-253 | printing commands and feeding them to wish in any chunks hands over exactly those that have a term, in order, and ends in Idle with nothing unread; wish never fails on the way |
| `Egress.Writer.Serve` | src/egress.rs:15-70 | one turn of the writer, whatever becomes of its writes: each write of the decree goes to its socket, in order, and the event loop is told of a farewell and of a reply that could not be written |
| `Egress.Writer.ServeBroadcast` | src/egress.rs:37-67 | subscribers get the message once for each mention, then the publisher gets their number |
| `Egress.MessageFrame` | src/egress.rs:40-48 | the frame built from the literal header is the wire form of the message |
| `Egress.ClientsReadWhatWasSent` | src/egress.rs:15-70 | for any decrees, farewells included, and any failures: a client's stream holds the wire form of what was sent to it while it was open if and only if no write to it failed, and a RESP2 reader then recovers exactly those values, in decree order |
| `Egress.BroadcastIsSent` | src/egress.rs:37-67 | a published message reaches each of its clients as one frame of three bulk strings, and after that its publisher is told how many they are |
| `Egress.ToldOfFailures` | src/egress.rs:20-36 | the event loop is told of a client exactly when it takes its farewell or a reply to it could not be written |
| `Egress.TornReply` | src/egress.rs:26-36 | after a failed write the next reply follows the torn one: two replies are read as one |
| `Egress.AnsweredUnlessNothingNew` | src/egress/send.rs:111-122 | the decree for a request outside the database commands holds no value for its client if and only if the request is a SUBSCRIBE to nothing new |
| `Egress.DatabaseIsAnswered` | src/temple.rs:576-1594 | the decree for a database command, refused or executed, holds exactly one value for its client |
| `Egress.SecondSubscribeIsSilent` | src/egress/send.rs:111-122 | the second SUBSCRIBE to a channel is answered by no bytes |
| `Egress.OpenUntilFarewell` | src/egress.rs:15-25 | when every client is welcomed once and first, its socket is open exactly after its welcome and before its farewell |
| `Egress.WrittenUnlessFarewell` | src/egress.rs:19-27 | then a decree for a client finds its socket if and only if no farewell of that client precedes it |
| `Egress.SentUntilFarewell` | src/egress.rs:15-70 | then what is sent to a client is everything meant for it up to its farewell, and nothing after |
| `Souls.Soul.GetValidValue` | src/temple/soul.rs:854-880 | a look removes a dead entry and returns a live value |
| `Souls.Soul.RemoveValidValue` | src/temple/soul.rs:882-894 | removes the key and returns its value if it was live |
| `Souls.Soul.Get` | src/temple/soul.rs:57-63 | GET is Exec on values |
| `Souls.Soul.Set` | src/temple/soul.rs:65-67 | SET is Exec on values |
| `Souls.Soul.Append` | src/temple/soul.rs:69-87 | APPEND is Exec on values |
| `Souls.Soul.Strlen` | src/temple/soul.rs:180-186 | STRLEN is Exec on values |
| `Souls.Soul.Add` | src/temple/soul.rs:89-178 | INCR, INCRBY and DECR are Exec on values |
| `Souls.Soul.Hset` | src/temple/soul.rs:212-249 | HSET, both loops, is Exec on values |
| `Souls.Soul.Hget` | src/temple/soul.rs:251-262 | HGET is Exec on values |
| `Souls.Soul.Hmget` | src/temple/soul.rs:264-283 | HMGET is Exec on values |
| `Souls.Soul.Hdel` | src/temple/soul.rs:285-301 | HDEL is Exec on values |
| `Souls.Soul.Hexists` | src/temple/soul.rs:303-315 | HEXISTS is Exec on values |
| `Souls.Soul.Hlen` | src/temple/soul.rs:317-323 | HLEN is Exec on values |
| `Souls.Soul.Hgetall` | src/temple/soul.rs:813-832 | HGETALL lists every field and value once, in some order |
| `Souls.Soul.Push` | src/temple/soul.rs:325-349 | LPUSH, and RPUSH likewise (lines 416-439), is Exec on values in both branches |
| `Souls.Soul.Pop` | src/temple/soul.rs:351-375 | LPOP, and RPOP likewise (lines 441-465), is Exec on values: type first, then deadline |
| `Souls.Soul.PopMany` | src/temple/soul.rs:377-414 | LPOP with a count, and RPOP likewise (lines 467-504), is Exec on values |
| `Souls.PopLoop` | src/temple/soul.rs:393-401 | the popping loop takes the first min(count, length) elements from the side, in order |
| `Souls.Soul.Llen` | src/temple/soul.rs:506-512 | LLEN is Exec on values |
| `Souls.Soul.Lrange` | src/temple/soul.rs:514-557 | LRANGE is Exec on values |
| `Souls.RangeOf` | src/temple/soul.rs:523-552 | the slice taken is a stretch of the list on any length, whatever wraps; on lengths that fit an i32 it is what lies between the ends of unbounded arithmetic |
| `ListLaws.EndsFit` | src/temple/soul.rs:525-539 | on lengths that fit an i32 the wrapping ends are those of unbounded arithmetic |
| `Souls.Soul.Lindex` | src/temple/soul.rs:559-582 | LINDEX is Exec on values |
| `Souls.Soul.Lset` | src/temple/soul.rs:584-610 | LSET is Exec on values |
| `Souls.Soul.Lrem` | src/temple/soul.rs:612-658 | LREM is Exec on values |
| `Souls.ScanBackward` | src/temple/soul.rs:623-633 | the backward loop removes the last matches of the part it scans |
| `Souls.RemoveForward` | src/temple/soul.rs:634-648 | the forward loop removes the first matches |
| `Souls.Soul.Expire` | src/temple/soul.rs:660-677 | EXPIRE is Exec on values |
| `Souls.Soul.Ttl` | src/temple/soul.rs:679-704 | TTL in whole seconds is Exec on values, the panic on a deadline past the clock's i64 included |
| `Souls.Soul.Mset` | src/temple/soul.rs:706-710 | MSET is Exec on values |
| `Souls.Soul.Mget` | src/temple/soul.rs:712-729 | MGET is Exec on values |
| `Souls.Soul.Sadd` | src/temple/soul.rs:731-765 | SADD is Exec on values in both branches |
| `Souls.Soul.Srem` | src/temple/soul.rs:767-792 | SREM is Exec on values |
| `Souls.Soul.Sismember` | src/temple/soul.rs:794-811 | SISMEMBER is Exec on values |
| `Souls.Soul.Smembers` | src/temple/soul.rs:834-852 | SMEMBERS lists every member once, in some order |
| `Souls.Soul.Del` | src/temple/soul.rs:188-198 | DEL is Exec on values |
| `Souls.Soul.Exists` | src/temple/soul.rs:200-210 | EXISTS is Exec on values |
| `Souls.Soul.Execute` | src/temple.rs:594-1594 | any database command is Exec on values, or the panic Exec says |
| `LazyExpiry.StepAgrees` | src/temple/soul.rs:854-894 | on two stores readers cannot tell apart, the second without dead keys, a command keeps them so, and answers alike if and only if it is not a pop of a dead non-list |
| `LazyExpiry.LazyRefinesEager` | src/temple/soul.rs:854-894 | over whole runs with non-decreasing times, the lazy store and one that purges before every command show readers the same before and after each command and answer it alike, if and only if it is not a pop of a dead non-list |
| `LazyExpiry.DeadPop` | src/temple/soul.rs:351-375 | the exception: the lazy store answers wrong type, the eager one that there is nothing |
| `LazyExpiry.OrderMatters` | src/temple/soul.rs:854-866 | for every sequence of times with a decrease, a run in which the lazy store still answers a key and the eager one no longer does |
| `LazyExpiry.RefinesIffInOrder` | src/temple/soul.rs:854-894 | a sequence of times lets the two stores answer every run alike, but for the pops of dead non-lists, if and only if it never decreases |
| `ListLaws.LremTakesMatches` | src/temple/soul.rs:612-658 | LREM takes exactly the first, last or all matches, min(count, occurrences) of them, leaves the others in order, and answers their number |
| `ListLaws.LremTakesScannedMatches` | src/temple/soul.rs:623-633 | on lists of any length a negative count takes the matches within its scan, so as many as asked exactly when the scan holds them |
| `ListLaws.ScanCoversAll` | src/temple/soul.rs:624 | the backward scan covers the whole list if and only if it has at most 2^31 elements |
| `ListLaws.RemoveLastMirrors` | src/temple/soul.rs:623-648 | removing from the back is removing from the front of the mirror image |
| `ListLaws.LremMirrors` | src/temple/soul.rs:612-658 | LREM by -n is reverse, LREM by n, reverse |
| `ListCommands.LrangeAnswers` | src/temple/soul.rs:514-557 | LRANGE answers exactly the elements from its first end to its second, for every pair of i32 indexes, and changes nothing |
| `ListCommands.LlenCounts` | src/temple/soul.rs:506-512 | LLEN answers the length |
| `ListCommands.LindexAnswers` | src/temple/soul.rs:559-582 | LINDEX answers the element at its index, from the back if negative, or nothing |
| `ListCommands.LsetReplaces` | src/temple/soul.rs:584-610 | LSET replaces the element there and keeps the deadline; an index outside is an error that changes nothing |
| `ListCommands.LremRemoves` | src/temple/soul.rs:612-658 | LREM stores the list without the first, last or all matches asked for, keeps the deadline and answers how many have gone |
| `ListCommands.PushExtends` | src/temple/soul.rs:416-439 | RPUSH puts its elements behind the list in order, LPUSH (lines 325-349) in front in the opposite order; both keep the deadline and answer the new length |
| `ListCommands.PushCreates` | src/temple/soul.rs:325-349 | on a key with nothing to see they make a new list without a deadline |
| `ListCommands.PopTakes` | src/temple/soul.rs:377-414 | a counted pop takes min(count, length) elements from its side, in order, and leaves the others with the deadline; an emptied list goes with its key |
| `ListCommands.PopTakesOne` | src/temple/soul.rs:351-375 | a pop takes one element and answers it by itself |
| `ListCommands.PopsLookAtTypeFirst` | src/temple/soul.rs:351-375 | on anything but a list, dead or not, a pop answers wrong type and changes nothing |
| `ListCommands.NothingToPop` | src/temple/soul.rs:351-375 | on a missing or dead list it answers that there is nothing |
| `ListCommands.NoList` | src/temple/soul.rs:506-658 | what the others answer when there is nothing to see |
| `ListCommands.NotAList` | src/temple/soul.rs:325-658 | on a value of another type each answers wrong type under its own name and changes nothing |
| `ListLaws.DifferenceWrapsPastTheEnd` | src/temple/soul.rs:541 | the difference of the ends leaves i32 only for a start beyond the list |
| `ListLaws.LrangeAllIffShort` | src/temple/soul.rs:523 | LRANGE 0 -1 is the whole list if and only if its length fits an i32 |
| `ListLaws.LindexIsLrange` | src/temple/soul.rs:559-582 | LINDEX i is the sole element of LRANGE i i, or absent, on lists of any length |
| `ListLaws.PlacesIffShort` | src/temple/soul.rs:567-573 | every index of LINDEX and LSET (lines 593-599) names the right position if and only if the length fits an i32 |
| `ListLaws.LsetThenLindex` | src/temple/soul.rs:584-610 | a successful LSET changes what LINDEX answers at the position named and nowhere else |
| `ListLaws.PushIsPushEach` | src/temple/soul.rs:325-349 | a batch push is its single pushes, keyspace and answer, whatever the key holds |
| `ListLaws.PopUndoesPush` | src/temple/soul.rs:377-414 | popping as many as were pushed returns them last in first out and restores the keyspace |
| `ListLaws.PopIsPopEach` | src/temple/soul.rs:377-414 | n pops are one pop with count n, keyspace and rows, except exactly when n is 0 and the key holds a dead or empty list |
| `ListLaws.PopOfNothingDeletes` | src/temple/soul.rs:403-405 | RPUSH, LREM, LPOP with count 0: the empty list is deleted |
| `ListLaws.KeyGoesWithLastElement` | src/temple/soul.rs:403-405 | the key of a live list disappears exactly when the pop takes all its elements |
| `KeyspaceLaws.ExecFrame` | src/temple/soul.rs:57-852 | a command changes nothing under a key it does not name |
| `Entries.SetStores` | src/temple/soul.rs:65-67 | SET stores its value, whatever the key held, with just the deadline it names |
| `Entries.SeenUntilDeadline` | src/temple/soul.rs:854-880 | a string can be read up to and including its deadline's second and no longer; a read behind it finds nothing and removes it |
| `Entries.ExpireThenTtl` | src/temple/soul.rs:660-704 | TTL counts down to the deadline EXPIRE set, and then answers -2 |
| `Entries.SetThenTtl` | src/temple/soul.rs:679-704 | and to the one SET set; -1 if it set none |
| `Entries.ExpireSets` | src/temple/soul.rs:660-677 | EXPIRE gives what is there, of any type, a new deadline and answers 1 |
| `Entries.TtlCountsDown` | src/temple/soul.rs:679-704 | TTL answers the seconds left, for any type, and changes nothing |
| `Entries.NoDeadline` | src/temple/soul.rs:660-704 | where there is nothing to see EXPIRE answers 0 and TTL -2 |
| `Entries.DeadlineIsKept` | src/temple/soul.rs:57-852 | every other command keeps the deadline of what it changes and gives none to what it creates |
| `StringCommands.GetAnswers` | src/temple/soul.rs:57-63 | GET and STRLEN (lines 180-186) answer the text and its length |
| `StringCommands.AppendExtends` | src/temple/soul.rs:69-79 | APPEND puts its text behind what is there, keeps the deadline and answers the new length |
| `StringCommands.AppendThenGet` | src/temple/soul.rs:69-87 | two appends are one, and GET reads it all in one piece |
| `StringCommands.NoString` | src/temple/soul.rs:81-87 | what they do and answer when there is nothing to see |
| `StringCommands.NotAString` | src/temple/soul.rs:57-87 | on a value of another type each answers wrong type under its own name and changes nothing |
| `StringCommands.CounterAdds` | src/temple/soul.rs:89-178 | a counter command stores the sum as decimal text, keeps the deadline and answers the sum |
| `StringCommands.CounterRefuses` | src/temple/soul.rs:89-178 | on a text that is no i64, a sum that is none or another type it answers so and changes nothing |
| `StringCommands.CounterStarts` | src/temple/soul.rs:108-111 | on a key with nothing to see it starts from zero |
| `StringCommands.CountThenGet` | src/temple/soul.rs:89-178 | what a counter answers can be read as its text and counted on from |
| `KeyspaceLaws.CounterHoldsTotal` | src/temple/soul.rs:89-178 | over any run that touches a key, absent at first, by INCR, DECR and INCRBY only: it holds the decimal text of the sum of the successful deltas; a delta succeeds if and only if the key is unused, or the value is not -2^63 and the sum fits; a failed one changes nothing |
| `KeyspaceLaws.CounterSum` | src/temple/soul.rs:94-100 | the stored text of a total plus a delta: refused exactly at i64 MIN or on overflow |
| `KeyspaceLaws.CounterGetsStuck` | src/wish/util.rs:87-93 | INCRBY, DECR, INCR that leave a counter at -2^63 and refuse to change it |
| `KeyspaceLaws.PanicsOnFarDeadline` | src/temple/soul.rs:679-685 | a command panics if and only if it is a TTL on a deadline past i64, and then changes nothing |
| `KeyspaceLaws.FarDeadlinePanics` | src/temple/soul.rs:660-685 | SET, EXPIRE with 10^19 seconds, TTL: the last one panics |
| `KeyspaceLaws.SetSizeIsBalance` | src/temple/soul.rs:731-792 | over any run that touches a key, absent at first, by set commands only: the stored size is the SADD answers less the SREM answers |
| `SetCommands.MembersAreRead` | src/temple/soul.rs:794-852 | SISMEMBER and SMEMBERS answer from the members stored |
| `SetCommands.MembersAreListed` | src/temple/soul.rs:834-852 | the rows of SMEMBERS are the members, each once |
| `SetCommands.SaddAdds` | src/temple/soul.rs:731-747 | SADD stores the union, keeps the deadline and answers the growth |
| `SetCommands.SaddCreates` | src/temple/soul.rs:749-765 | on a key with nothing to see it makes a new set and answers its size |
| `SetCommands.SremTakesOut` | src/temple/soul.rs:767-792 | SREM stores the difference, keeps the deadline and answers the shrinkage; an emptied set goes with its key |
| `SetCommands.NoSet` | src/temple/soul.rs:767-852 | what they answer when there is nothing to see |
| `SetCommands.NotASet` | src/temple/soul.rs:731-852 | on a value of another type each answers wrong type under its own name and changes nothing |
| `KeyspaceLaws.AddedIsGrowth` | src/temple/soul.rs:741-745 | SADD answers the growth of the set, repeated values included |
| `KeyspaceLaws.RemovedIsShrinkage` | src/temple/soul.rs:777-781 | SREM answers the shrinkage of the set |
| `KeyspaceLaws.ExecKeepsNoEmptySet` | src/temple/soul.rs:783-785 | no command stores an empty set |
| `KeyspaceLaws.RunsStoreNoEmptySet` | src/wish/grant/sadd.rs:15 | nor does any run, SADD naming at least one value |
| `KeyspaceLaws.HashRepliesCount` | src/temple/soul.rs:212-301 | HDEL answers the exact shrinkage; HSET the exact growth if and only if the hash existed or no field is repeated |
| `HashCommands.FieldsAreRead` | src/temple/soul.rs:251-323 | HGET, HEXISTS, HLEN and HGETALL (lines 813-832) answer from the fields stored |
| `HashCommands.FieldsAreReadTogether` | src/temple/soul.rs:264-283 | HMGET answers one row for each field named, in order |
| `HashCommands.FieldsAreListed` | src/temple/soul.rs:813-832 | the rows of HGETALL are the fields, each once and followed by its value |
| `HashCommands.LastPairIsLast` | src/temple/soul.rs:222-228 | of two pairs with one field the later one holds |
| `HashCommands.HsetFills` | src/temple/soul.rs:219-231 | HSET puts its pairs in, keeps other fields and the deadline, and answers the growth |
| `HashCommands.HsetCreates` | src/temple/soul.rs:233-247 | on a key with nothing to see it makes a new hash and answers the number of pairs |
| `HashCommands.HdelTakesOut` | src/temple/soul.rs:285-301 | HDEL takes its fields out, keeps the others and the deadline, and answers the shrinkage |
| `HashCommands.NoHash` | src/temple/soul.rs:251-323 | what they answer when there is nothing to see |
| `HashCommands.NotAHash` | src/temple/soul.rs:212-323 | on a value of another type each answers wrong type under its own name and changes nothing |
| `KeyspaceLaws.RepeatedFieldIsCountedTwice` | src/temple/soul.rs:237-242 | HSET of one field twice on a missing key answers 2 and stores one field |
| `KeyspaceLaws.NewFieldsAtMost` | src/temple/soul.rs:222-228 | as many new fields as pairs exactly when the fields are distinct and new |
| `BatchLaws.DelCountsLiveKeys` | src/temple/soul.rs:188-198 | DEL removes every key named and counts the live ones once each |
| `BatchLaws.ExistsCountsMentions` | src/temple/soul.rs:200-210 | EXISTS counts every mention of a live key and removes exactly the dead ones named |
| `BatchLaws.MgetReadsEachKey` | src/temple/soul.rs:712-729 | MGET answers each key from the keyspace it started from, and removes exactly the dead ones named |
| `BatchLaws.MsetKeepsLast` | src/temple/soul.rs:706-710 | after MSET a key holds what its last pair says, and other keys what they held |
| `BatchLaws.HsetKeepsLast` | src/temple/soul.rs:212-249 | after HSET a field holds what its last pair says, and other fields what they held |
| `BatchLaws.HdelRemovesFields` | src/temple/soul.rs:285-301 | after HDEL exactly the named fields are gone |
| `ManyKeys.DelRemoves` | src/temple/soul.rs:188-198 | DEL removes its keys and answers how many there were to see |
| `ManyKeys.ExistsCounts` | src/temple/soul.rs:200-210 | EXISTS answers how often it names a key with something to see, and removes exactly the expired ones named |
| `ManyKeys.MgetAnswers` | src/temple/soul.rs:712-729 | MGET answers, for each key in order, the text to see under it or nothing |
| `ManyKeys.MsetStores` | src/temple/soul.rs:706-710 | MSET stores the text of the last pair with a key, without a deadline, and leaves keys in no pair alone |
| `PubSub.SubscribeAgrees` | src/temple.rs:514-536 | SUBSCRIBE keeps the three structures in agreement with the relation |
| `PubSub.UnsubscribeAgrees` | src/temple.rs:537-560 | UNSUBSCRIBE, with names or without, keeps them in agreement |
| `PubSub.IndexRefinesRelation` | src/temple.rs:514-574 | after any run the two maps and the set agree with the one relation the history defines, and hold no empty set |
| `PubSub.RefusedIffSubscribed` | src/temple.rs:576-593 | database commands are refused exactly to clients with a pair in the relation; a message goes exactly to those of its channel |
| `PubSub.JoinedCounts` | src/temple.rs:97-130 | SUBSCRIBE reports counts that rise by one to the number held at the end |
| `PubSub.JoinedNames` | src/temple.rs:97-130 | SUBSCRIBE reports exactly the channels added |
| `PubSub.JoinedOnce` | src/temple.rs:97-130 | SUBSCRIBE reports no channel twice |
| `PubSub.DepartedSteps` | src/temple.rs:143-150 | UNSUBSCRIBE with names reports counts that start from the number held and fall by one at a time, if at all |
| `PubSub.DepartedEnds` | src/temple.rs:143-157 | and that end at the number still held |
| `PubSub.DepartedInOrder` | src/temple.rs:143-157 | it reports every name in order, with the number of channels held that have not been named by then |
| `Subscribers.RelationIsSubscription` | src/temple.rs:514-560 | a client is subscribed to a channel if and only if some SUBSCRIBE of it names the channel and no later UNSUBSCRIBE of it names the channel or nothing |
| `Subscribers.MessagesReachSubscribers` | src/temple.rs:561-574 | a PUBLISH goes, unchanged, once to each client so subscribed to its channel and to no other |
| `Subscribers.RefusedIffSubscribed` | src/temple.rs:576-593 | a database command is refused, and changes nothing, if and only if its client is so subscribed to some channel |
| `Subscribers.NewChannelsAreTold` | src/temple.rs:514-536 | SUBSCRIBE is told exactly the channels named that its client was not subscribed to, once each, with rising counts |
| `Subscribers.LeftChannelsAreTold` | src/temple.rs:537-560 | UNSUBSCRIBE is told every name it gave, in order, with the number still held, or that there was nothing |
| `Subscribers.AllChannelsAreLeft` | src/temple.rs:537-560 | without names it is told every channel its client was subscribed to, once each, counting down to zero |
| `Subscribers.PublishedToSubscribers` | src/temple.rs:561-574 | in every interleaving a message goes to exactly the clients subscribed by the requests served before it |
| `Channels.ClientMap.Subscribe` | src/temple.rs:47-61 | the loop adds the client to every channel named |
| `Channels.ClientMap.Unsubscribe` | src/temple.rs:63-76 | the loop removes the client from every channel reported, and channels left empty |
| `Channels.ClientMap.Publish` | src/temple.rs:78-83 | returns each subscriber of the channel exactly once |
| `Channels.EventMap.Subscribe` | src/temple.rs:97-130 | the new set of the client, and the report of what is new with running counts |
| `Channels.EventMap.Unsubscribe` | src/temple.rs:132-176 | the remaining set, the report, and the set of subscribed clients |
| `Channels.JoinLoop` | src/temple.rs:104-109 | the subscribe loop and its counter |
| `Channels.LeaveNamed` | src/temple.rs:143-157 | the unsubscribe loop with names; the counter never underflows |
| `Channels.LeaveEverything` | src/temple.rs:159-171 | unsubscribing from all reports each channel once, counting down from n - 1 to 0 |
| `Temples.Temple.Serve` | src/temple.rs:456-1639 | one request, one decree, or the end of the thread on exactly the requests that panic: refused exactly to subscribed clients, otherwise executed or answered from the history |
| `Temples.Temple.ServeDatabase` | src/temple.rs:575-594 | a refusal leaves the keyspace alone; anything else is Exec on values |
| `Temples.Temple.Join` | src/temple.rs:514-536 | SUBSCRIBE answers the report for what the client held before |
| `Temples.Temple.Part` | src/temple.rs:537-560 | UNSUBSCRIBE answers the report, or that there was nothing |
| `Temples.Temple.Announce` | src/temple.rs:561-574 | PUBLISH broadcasts to exactly the channel's subscribers, once each |
| `Temples.IndexMatchesHistory` | src/temple.rs:436-438 | what the index holds for a client is what its history says |
| `Handoff.StepMoves` | src/server.rs:133-239 | a step only moves a connection: where it is now it came from one place |
| `Handoff.StepKeepsInv` | src/server.rs:125-243 | every step of every thread keeps ownership, progress and order |
| `Handoff.OneOwner` | src/server.rs:133-239 | in every interleaving a connection is in at most one of the map, the choir, a worker and the return channel |
| `Handoff.NoneLost` | src/server.rs:133-239 | in every interleaving every accepted client's connection is somewhere, unless its song failed or panicked, the loop took a notice for it, or its welcome went unheard |
| `Handoff.HeldUnlessDropped` | src/server.rs:133-239 | and if and only if: a connection that a step has given up is nowhere, and never comes back |
| `Handoff.WelcomedOnceAndFirst` | src/server.rs:179-216 | in every interleaving whatever is sent to the egress thread about a client has exactly one welcome of that client, and it comes first |
| `Handoff.StepKeepsConnection` | src/server.rs:133-239 | no other step gives up a connection |
| `Handoff.GrantKeepsOrdered` | src/server.rs:224-230 | a worker passing on its next command keeps the order |
| `Handoff.ServeKeepsOrdered` | src/temple.rs:456-1639 | the Temple thread answering its next request keeps the order, with one decree |
| `Handoff.RequestsKeepTheirOrder` | src/server.rs:218-239 | in every interleaving Temple receives each client's requests in stream order and sends exactly one decree for each, in the order received |
| `OwnAnswers.LocalOrRouted` | src/wish/grant.rs:62-110 | every command of a stream is answered by its worker or passed to Temple, never both |
| `OwnAnswers.WorkersAnswerTheirOwn` | src/wish/grant/ping.rs:25-33 | in every interleaving what workers have answered themselves is, client by client, exactly the local commands decoded so far, once each and in stream order |
| `OwnAnswers.ClientsGetTheirOwnAnswers` | src/wish/grant/ping.rs:25-33 | in every interleaving a client has been sent its worker's reply to each of them, in order |
| `OwnAnswers.OwnAnswersAreWritten` | src/server.rs:224-237 | in every interleaving such a reply finds its client's socket: no farewell overtakes it |
| `OwnAnswers.AnsweredTooEarly` | src/server.rs:224-230 | a run in which a worker's answer overtakes an earlier request still with Temple |
| `OwnAnswers.AnswersKeepOrderIff` | src/server.rs:218-239 | pipelined commands are answered in order in every interleaving if and only if no local one comes behind one for Temple |
| `Progress.CanAlwaysFinish` | src/server.rs:125-243 | from every reachable state the threads can go on until a client that has its connection has every command answered, everything sent is taken, and its connection waits in the loop |
| `Server.ArrivalsAreTakenIn` | src/server.rs:160-216 | every arrival that does not fail gets the next token; taken in, it is welcomed and waits in the loop; unheard, it does not |
| `Server.EventLoop.TakeReturnedConnections` | src/server.rs:133-143 | draining the return channel is as many of its steps as it held connections |
| `Server.EventLoop.TakeNotices` | src/server.rs:145-155 | taking the notices is one step for each up to one for the server, which ends the process |
| `Server.EventLoop.AcceptAll` | src/server.rs:160-216 | accepting waiting clients is a run of accept steps, failed accepts and clones leaving no trace, an unheard welcome only its token |
| `Server.EventLoop.DispatchClient` | src/server.rs:218-224 | a readable client is dispatched exactly if the loop holds its connection |
| `Server.EventLoop.Pass` | src/server.rs:125-243 | a whole pass is all returns, then the notices up to one for the server, then, unless there was one, everything the poll reported: just these steps of the machine, in this order |
| `Heaven.Worship` | src/temple.rs:456-1639 | the Temple thread's loop over any queue of requests answers them as one sequential run, up to the first one that panics |
| `Heaven.AnswersAreSequential` | src/temple.rs:456-1639 | in every interleaving of all threads the decrees sent in answer to requests are the answers of one sequential run over the requests received, and what Temple keeps is what that run leads to |
| `Heaven.RunsEndForCause` | src/temple.rs:456-1639 | in every interleaving the Temple thread ends only on a request that panics |
| `Heaven.NothingAfterFatal` | src/temple.rs:456-1639 | in every interleaving, once such a request comes first, neither it nor any behind it is answered |
| `Clients.ClientsGetTheirAnswers` | src/server.rs:218-239 | in every interleaving the k-th answer a client is sent is the right answer to the k-th request its stream holds for Temple, at the moment it was served |
| `Clients.AnswerWrittenUnlessFarewell` | src/egress.rs:19-27 | in every interleaving the k-th answer to a client finds its socket if and only if the client's farewell has not overtaken it |
| `Clients.ClientsReadTheirAnswers` | src/egress.rs:15-70 | in every interleaving, if no write to it failed, a client reads exactly its shares of the decrees taken so far, up to its farewell, in order; the answers among them are the first of the answers sent to it |
| `Clients.WriterTellsTheLoop` | src/egress.rs:20-36 | the writer tells the event loop what the machine says it does |
| `EndToEnd.ReadsLastWrite` | src/temple/soul.rs:57-67 | in a sequential run a GET finds what the last request that named its key has set, unless its deadline has passed |
| `EndToEnd.SetThenGetIsRead` | src/egress/send.rs:10-70 | SET k v, then GET k: a RESP2 reader of the client's stream finds OK and then v, for all k and v |
| `EndToEnd.ReadsItsOwnWrite` | src/temple.rs:456-1639 | in every interleaving a client's GET is answered with what its own earlier SET has set, if no other request names the key between them |
| `Clients.FarewellLosesAnswer` | src/server.rs:228-235 | a run of all threads in which the answer to a GET is sent behind the farewell, and written nowhere |
| `Songs.StepKeepsTune` | src/wish.rs:158-253 | with a session of wish behind every connection, every step keeps the connection on what its session has handed over |
| `Songs.PassedOnIsHandedOver` | src/wish.rs:158-253 | in every interleaving and for every split of the streams, the jobs a connection has passed on are those of the commands its session has handed over, the first of its client's byte stream |

## Left out

- Sockets, polling, thread start-up, ctrl-c and the command line: sockets are scripts, channels are queues.
- Snapshots, the Save and GetFilePath requests: foreign serialisation and files.
- The command wrappers in src/wish/grant: arity checks and sends. Only what they guarantee is used: SADD
  and SUBSCRIBE name at least one argument, SET stores a string.
- What the commands answered without Temple (PING, COMMAND, QUIT, argument errors) reply: the hand-off machine
  has them as the worker's own replies, whatever these are.
- Replies.Printer.Send: does not print the COMMAND table, a constant.
- Souls.Soul.Execute: does not answer CONFIG GET, a table of constants kept beside the keyspace.
- Temples.Temple.Serve: does not answer CONFIG GET or the requests of the server itself (Save, GetFilePath).
- Heaven.Worship: does not answer CONFIG GET or the requests of the server either; a snapshot's keyspace is a
  parameter.
- Souls.Soul.Ttl: compares deadlines in whole seconds, where the source compares at a finer grain.
- Sums of a time and an expiry beyond u64; the count of a u32 reply past its range.
- The end of the event loop when a dispatch finds that every worker has panicked.
- Subscriptions of disconnected clients: Temple is never told, so the relation speaks of requests only.
- Wish.Stream.Read: the deterministic reading of a script; which script a real socket follows is not modelled.
- LazyExpiry.LazyRefinesEager: for runs whose times never decrease; `RefinesIffInOrder` shows the bound is exact.
- ListLaws.LremTakesMatches: for a negative count, lists of at most 2^31 elements; `LremTakesScannedMatches`
  covers longer ones.
- ListCommands.LrangeAnswers: lists whose length fits an i32; `LrangeAllIffShort` shows the bound is exact.
- ListCommands.LindexAnswers: the same, for the bound of `PlacesIffShort`; so for ListCommands.LsetReplaces.
- ListCommands.LremRemoves: for a negative count, lists of at most 2^31 elements, as for LremTakesMatches.
- Grammar.RequestsAreServed: streams no line or term of which is wider than the buffer can hold.
- SessionLaws.MistakesAreFound: streams of at most 64 MiB - 1024 bytes, so that no refusal of room comes first.
- Progress.CanAlwaysFinish: that the threads can go on so, not that a scheduler lets them.
- Entries.TtlCountsDown: deadlines within i64; `PanicsOnFarDeadline` has the others.
- ListLaws.PopUndoesPush: the key starts absent, dead or as a live non-empty list, and a dead entry is gone
  afterwards rather than restored.
- RoundTrip.PrintThenWish: terms of at most 64 MiB - 1026 bytes, which is what the buffer can hold.
