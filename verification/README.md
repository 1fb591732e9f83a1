# Verified model of redis-migrate and its hiredis

redis-migrate is a Redis module built together with a vendored copy of the hiredis client library. This project
models the parts of both that carry state machines, protocols and in-place data structures, and proves what they
promise. It is one Dafny project; `dafny verify dfyconfig.toml` checks all of it.

## What is modelled

**The reply reader** (`Bytes`, `IntegerCodec`, `Resp`, `RespGrammar`, `ReplyObjects`, `ReaderSpec`, `Reader`,
`Transcripts`, `Chunking`). `Resp` is the reference: a short recursive parser of RESP items with the verdicts Incomplete, Bad
and Done, and a serialiser that it undoes. `RespGrammar` says on literal bytes what every input means to it. `Reader` is the push parser as the C code has it: an object with a buffer, a cursor, an
explicit task stack that grows by nine entries, a half-built reply tree on a heap, and a sticky error. The heap is explicit
(`ReplyObjects`): an address is an allocation number, so leaks, double releases and dangling slots are visible. The bridge is
`ReaderSpec`: a stack plus the consumed bytes *denote* a continuation of the recursive parser. Every processing step keeps
the denotation, consumes bytes, and frees everything it built if it fails. `Chunking` lifts this to whole sessions: how the
bytes are cut into feeds does not matter.

**Commands and output** (`Formatter`, `Pipeline`, `NextArgument`, `SdsSpec`, `SdsBuffer`). The two command formatters write
the same bytes, exactly as many as computed beforehand; what they write is the serialised array of the arguments, so a
pipeline of commands is read back by the reader under any chunking, and the second parser in `async.c` finds the same
arguments. `SdsBuffer` holds the growable string with its five header types and the output buffer of a connection.

**The asynchronous engine** (`CallbackList`, `PubSub`, `PubSubWords`, `Pushes`, `AsyncEngine`). Callbacks are cells of linked queues. A callback may
issue commands, disconnect or free the context while it runs; what all callbacks of a run do is an arbitrary script. A
history records what the user and the callbacks did, what arrived and what failed. The callbacks of the accepted commands
are consumed exactly once, in order, with replies first and NULL after; with regular commands only, the k-th gets the k-th
reply that arrived. `PubSub` is the state machine of the subscription tables against a server that answers in order; the
tables of a context whose history is foreseen are exactly those of that machine, and every message for a subscribed name
reaches the callback last given for it. `PubSubWords` and `Pushes` spell the words of the protocol out.

**The hash table** (`Dict`), with entries as linked cells that a rehash relinks in place, and its iterator.
**String utilities** (`SdsQuote`, `SdsWords`, `SdsSplit`). **The module's own code** (`Calendar`, `WorkQueue`, `MigrationRegistry`).

## Where the code and its words differ

- `read.c:456` speaks of a nesting limit of seven. There is none: the stack grows. The model follows the code.
- `read.c:302-305` compares the payload of a double with `,inf` and `,-inf` although the comma was consumed before, so
  infinities reach `strtod` like every other text.
- `async.c:566` asserts that a reply without a queued callback finds a subscribed context. It does not hold for every
  pipeline of subscribe and unsubscribe commands: `PubSub.DrainAbortsIffAny` says exactly when the assert fails, in every
  reachable state, and `PubSub.DoubleUnsubscribeAborts` names the shortest run.
- `async.c:770-790` hands `pending_subs` of one name on to the new names behind it in the same SUBSCRIBE.
  `PubSub.CountLeaks` is an input on which a count goes wrong, `PubSub.CountsRightIff` says exactly when all are right, and
  `PubSub.TablesOkOverRuns` is the run theorem for commands with any number of names under that check.
- `dict.c:286-287` casts the table size to int. In a table of 2^31 buckets, the largest that `_dictKeyIndex` can index,
  `dictNext` returns NULL at once, whatever the table holds; below that it returns every entry (`DictModel.Iterator.Next`,
  `DictModel.Sweep`).
- `async.c:762-764` drops a leading p before all three comparisons, so PMONITOR counts as MONITOR (`PubSub.ClassifyIs`).
- The `max` given to the thread pool is ignored when it is below `num` (`WorkQueue.Construct`).
- The command filter sees `rm.migrate` too, whose argument 1 is the host. A host that equals a protected key makes the handler refuse
  the command for its number of arguments (`MigrationRegistry.HostThatIsAKey`).
- `rm.migrate` accepts an empty host. Such a key counts towards the limit and is not protected
  (`MigrationRegistry.EmptyHostPasses`).
- `nolocks_localtime` yields fields in range exactly for adjusted times that are not negative (`Calendar.NolocksLocaltime`).
- A list holding only the empty string does not survive joining and splitting; `SdsSplit.SplitOfJoin` gives all lists that do.

## Model

| member | source | states |
|---|---|---|
| Bytes.FindCRLF | src/hiredis/read.c:125-159 | the result is the leftmost CR that an LF follows, and there is none if and only if it is None |
| Bytes.SeekNewline | src/hiredis/read.c:125-159 | the scan that restarts after a lone CR finds the leftmost CRLF |
| Bytes.FindCRLFStable | src/hiredis/read.c:226-239 | a line that is complete is not changed by later bytes |
| IntegerCodec.String2ll | src/hiredis/read.c:163-224 | the loop with its 64-bit accumulator computes the specified parse of every byte string |
| IntegerCodec.Accumulate | src/hiredis/read.c:198-207 | the guards before multiply and add trip exactly when the digits exceed the unsigned 64-bit range, so the accumulator never wraps |
| IntegerCodec.ParseLLExact | src/hiredis/read.c:163-224 | accepted are precisely the canonical decimal strings of values in -2^63 .. 2^63-1, each with the value it denotes |
| IntegerCodec.DecimalInjective | src/hiredis/sds.c:431-460 | different integers print differently |
| IntegerCodec.DecimalBytes | src/hiredis/sds.c:431-460 | which bytes are printed: a minus sign, then digits, most significant first |
| IntegerCodec.U64Fits | src/hiredis/sds.c:424-431 | the digits of every 64-bit magnitude fit the 21-byte buffer with sign and NUL |
| IntegerCodec.PutDigitsBackwards | src/hiredis/sds.c:438-446 | the digit loop leaves the decimal digits in reverse and touches nothing behind them |
| IntegerCodec.ReversePrefix | src/hiredis/sds.c:452-459 | the in-place swap loop reverses exactly the first l bytes |
| IntegerCodec.SdsLl2str | src/hiredis/sds.c:431-460 | the buffer starts with the canonical decimal string and its NUL, for the smallest value too |
| Resp.ItemStable | src/hiredis/read.c:528-603 | a verdict Done or Bad of the recursive parser never changes when bytes are appended; Done leaves exactly the appended bytes in addition |
| Resp.ItemConsumesPrefix | src/hiredis/read.c:528-603 | what is left after an item is a suffix of the input |
| Resp.RoundTrip | src/hiredis/read.c:269-603 | every well-formed reply, serialised and followed by any bytes, parses to itself and leaves those bytes |
| Resp.ParsedIsWellFormed | src/hiredis/read.c:269-603 | every reply the parser yields is well-formed: no missing child, even map arity, counts in range, integers in 64 bits |
| RespGrammar.BeforeTheLine | src/hiredis/read.c:528-573 | nothing is decided before the header line is whole; a first byte that is no tag is an error |
| RespGrammar.TextItems | src/hiredis/read.c:329-341 | what a `+` and a `-` line mean |
| RespGrammar.IntegerItems | src/hiredis/read.c:276-287 | a `:` line is its 64-bit value, or an error exactly when it spells none |
| RespGrammar.NilAndBoolItems | src/hiredis/read.c:318-328 | `_` lines are nil, `#` lines are true exactly when they begin with t or T; inside a push both abort |
| RespGrammar.DoubleItems | src/hiredis/read.c:288-317 | which `,` lines are doubles, and with which text |
| RespGrammar.NilLengths | src/hiredis/read.c:377-382 | the length -1 behind any of the six tags with a length is nil, and aborts inside a push |
| RespGrammar.BulkItems | src/hiredis/read.c:351-421 | a `$` item holds as many bytes as its length says, is incomplete before, and is an error out of range |
| RespGrammar.VerbatimItems | src/hiredis/read.c:388-406 | the same for `=` items, whose payload is a type of three bytes, a colon and a text |
| RespGrammar.BadLengths | src/hiredis/read.c:362-374 | a length that spells no 64-bit value is an error |
| RespGrammar.AggregateItems | src/hiredis/read.c:449-526 | an aggregate is complete with exactly its count of items, read one after the other; it is incomplete or an error as its first bad item is |
| RespGrammar.NilIff | src/hiredis/read.c:269-526 | the verdict is nil exactly on a `_` line and on the six headers with length -1, outside a push |
| RespGrammar.EveryInput | src/hiredis/read.c:528-603 | these laws leave no input out |
| ReplyObjects.TreeFrame | src/hiredis/hiredis.c:79-196 | a reply tree depends only on its own objects |
| ReplyObjects.TreeFills | src/hiredis/hiredis.c:90-119 | every address of a reply tree is live |
| ReplyObjects.TreeIs | src/hiredis/hiredis.c:79-196 | a leaf is its object; the elements of an aggregate are in its slots, in order |
| ReplyObjects.ObjectHeap.Create | src/hiredis/hiredis.c:79-88 | one new object, stored in the parent's slot idx, nothing else changed |
| ReplyObjects.ObjectHeap.CreateOutsidePush | src/hiredis/hiredis.c:218-286 | the nil, double and bool constructors succeed exactly when the parent is no push |
| ReplyObjects.ObjectHeap.CreateString | src/hiredis/hiredis.c:121-167 | string objects, a verbatim payload split into type and text |
| ReplyObjects.ObjectHeap.CreateArray | src/hiredis/hiredis.c:169-196 | an array object with all element slots empty |
| ReplyObjects.ObjectHeap.FreeReplyObject | src/hiredis/hiredis.c:90-119 | exactly the objects of the tree, which may have empty slots, are released, each once |
| ReaderSpec.FreshDenotes | src/hiredis/read.c:713-722 | an empty stack stands for the start of an item |
| ReaderSpec.TypeByteStep | src/hiredis/read.c:528-573 | a type byte moves the denoted continuation on by that byte |
| ReaderSpec.LeafStep | src/hiredis/read.c:269-421 | a childless item completes the current item of the denoted continuation |
| ReaderSpec.OpenStep | src/hiredis/read.c:449-526 | an aggregate header pushes a frame on the denoted continuation |
| ReaderSpec.PopStep | src/hiredis/read.c:241-267 | completing the last child completes the container with all its children in order |
| ReaderSpec.NextStep | src/hiredis/read.c:241-267 | completing another child moves on to the next slot |
| ReaderSpec.HeadExact | src/hiredis/read.c:351-421 | a header decision depends only on the bytes it consumes |
| ReaderSpec.ChildDone | src/hiredis/hiredis.c:169-196 | a complete child that is not the last leaves exactly idx complete children and an empty next slot |
| ReaderSpec.ContainerDone | src/hiredis/hiredis.c:169-196 | the last child makes the container a complete tree in its own parent's slot |
| ReaderSpec.SpineIsTree | src/hiredis/read.c:53-75 | all objects allocated since the item began hang below its root, so one release frees all |
| ReaderModel.PopClosed | src/hiredis/read.c:241-259 | one round of the loop that closes containers keeps stack, heap and denotation together |
| ReaderModel.NextOpen | src/hiredis/read.c:259-265 | resetting the task for the next element keeps stack, heap and denotation together |
| ReaderModel.HalfBuilt | src/hiredis/read.c:53-75 | in every open state the half-built reply is one tree, from its root to the newest object |
| ReaderModel.Reader.SetError | src/hiredis/read.c:53-75 | the half-built tree is released completely and nothing older; buffer and stack are cleared; the error is set |
| ReaderModel.Reader.ReadLine | src/hiredis/read.c:226-239 | the bytes before the first CRLF, both consumed, or nothing consumed when there is none |
| ReaderModel.Reader.MoveToNextTask | src/hiredis/read.c:241-267 | closes every container that is full and ends at the root or at an open slot |
| ReaderModel.Reader.ProcessLineItem | src/hiredis/read.c:269-349 | consumed, starved or failed, each as the recursive parser decides on the pending bytes |
| ReaderModel.Reader.ProcessBulkItem | src/hiredis/read.c:351-421 | as above for bulk items: nothing is consumed before the whole payload is there, the two bytes behind it are not looked at |
| ReaderModel.Reader.Grow | src/hiredis/read.c:423-447 | growing the stack keeps every open task |
| ReaderModel.Reader.ProcessAggregateItem | src/hiredis/read.c:449-526 | as above for arrays, maps, sets and pushes: nil, empty or a new innermost container; map counts doubled after the range check |
| ReaderModel.Reader.ProcessItem | src/hiredis/read.c:528-603 | a successful step consumes bytes and keeps what is pending; a failing one says Incomplete or the parser's error |
| ReaderModel.Reader.Feed | src/hiredis/read.c:657-686 | the chunk is appended to what is pending, whatever happens to the buffer; a failed reader refuses |
| ReaderModel.Reader.Compact | src/hiredis/read.c:726-731 | dropping consumed bytes keeps the unread ones |
| ReaderModel.Reader.GetReply | src/hiredis/read.c:688-739 | emits a reply exactly when the recursive parser says Done on the pending bytes, namely that tree, leaving its rest; nothing when Incomplete; its error, sticky, when Bad; older objects untouched, nothing leaked |
| Chunking.StreamAppend | src/hiredis/read.c:657-739 | parsing two byte strings in a row is parsing their concatenation |
| Chunking.DriveIsStream | src/hiredis/read.c:657-739 | draining after every feed yields what parsing the whole stream yields |
| Chunking.ChunkingInvariance | src/hiredis/read.c:657-739 | two ways of cutting the same bytes yield the same replies and the same final error or pending bytes |
| Chunking.StreamOfEncoded | src/hiredis/read.c:528-603 | a stream of serialised replies yields exactly those, nothing left over |
| Chunking.StreamOfEncodedAnd | src/hiredis/read.c:688-739 | replies before an error or before an incomplete item are all delivered; then the error, or the incomplete bytes |
| Chunking.ForestIs | src/hiredis/read.c:688-739 | emitted trees share no object, and every address between them is live |
| Chunking.StillGrowing | src/hiredis/read.c:53-75 | without an error every address from the root of the current item to the newest object is live |
| Chunking.Drain | src/hiredis/read.c:688-739 | calling GetReply until it gives nothing yields the trees of the parsed stream side by side; what the reader has allocated since is these trees and the half-built reply, after an error these trees alone |
| Chunking.Session | src/hiredis/read.c:657-739 | feeding any chunks to the reader object yields the transcript of the whole byte string; older objects are untouched, and what was allocated since is the emitted trees and the half-built reply, after an error the emitted trees alone |
| Formatter.FormattedIsEncode | src/hiredis/hiredis.c:625-661 | a formatted command is the serialised array of its arguments |
| Formatter.FormattedBytes | src/hiredis/hiredis.c:640-655 | a command byte by byte |
| Formatter.CountDigits | src/hiredis/hiredis.c:288-299 | the loop returns the number of decimal digits |
| Formatter.BulkLen | src/hiredis/hiredis.c:301-303 | the length of a bulk item without forming it |
| Formatter.TotalLength | src/hiredis/hiredis.c:632-638 | the precomputed length is exactly the number of bytes of the command |
| Formatter.FormatCommandArgv | src/hiredis/hiredis.c:625-661 | the buffer is filled with exactly the command and its NUL; the final position assert holds |
| Formatter.FormatSdsCommandArgv | src/hiredis/hiredis.c:568-614 | the same bytes in a growing string; the final length assert holds |
| Pipelining.PipelinedRoundTrip | src/hiredis/hiredis.c:625-661 | any list of commands, concatenated and cut in any way, is read back as exactly those argument vectors with no byte left |
| NextArgument.StrtolReads | src/hiredis/async.c:720-732 | strtol reads back every printed argument length |
| NextArgument.NextAt | src/hiredis/async.c:720-732 | at the start of argument j the result is that argument and the start of the next, whatever bytes it holds |
| NextArgument.FirstArgument | src/hiredis/async.c:720-732 | the first call skips the argument count; a command without arguments has none |
| NextArgument.Arguments | src/hiredis/async.c:720-732 | iterating visits exactly the arguments, in order, then stops |
| SdsSpec.SdsRangeDrops | src/hiredis/sds.c:726-754 | sdsrange(s, k, -1) drops the first k bytes |
| SdsSpec.SdsRangeKeeps | src/hiredis/sds.c:726-754 | which bytes are kept for all pairs of indices, negative and out of range |
| SdsBuffer.ReqType | src/hiredis/sds.c:59-75 | the chosen header type can hold the size, and the NUL unless it is the smallest type; the exact limits |
| SdsBuffer.Sds.SetLen | src/hiredis/sds.h:134-156 | stores the low bits that fit the header, hence the length whenever it fits |
| SdsBuffer.Sds.NewLen | src/hiredis/sds.c:83-137 | a fresh string with the given bytes and no spare room, valid in its header type; an empty one gets the second type |
| SdsBuffer.Sds.MakeRoomFor | src/hiredis/sds.c:196-239 | room for the addition, twice what is needed below 1 MB and 1 MB more above, nothing if there was room; same bytes, len <= alloc <= header width across a change of type |
| SdsBuffer.Sds.RemoveFreeSpace | src/hiredis/sds.c:247-272 | same bytes, no spare room |
| SdsBuffer.Sds.CatLen | src/hiredis/sds.c:378-387 | the bytes are appended |
| SdsBuffer.Sds.GrowZero | src/hiredis/sds.c:360-372 | padded with zeros to the length, never shortened |
| SdsBuffer.Sds.Range | src/hiredis/sds.c:726-754 | the in-place move keeps exactly the inclusive range, negative positions from the end; refused above SSIZE_MAX |
| SdsBuffer.RangeBounds | src/hiredis/sds.c:731-750 | the index arithmetic stays in bounds and selects the specified range |
| SdsBuffer.Connection.AppendCommand | src/hiredis/hiredis.c:1061-1072 | appended to the output, nothing written |
| SdsBuffer.Connection.BufferWrite | src/hiredis/hiredis.c:963-990 | the accepted prefix goes to the wire and leaves the buffer; done if and only if the buffer is empty; a failed write stops all later ones |
| SdsBuffer.Connection.Run | src/hiredis/hiredis.c:963-1072 | after every schedule of appends and partial or failing writes, wire followed by buffer is all that was appended |
| CallbackQueue.CallbackList.Push | src/hiredis/async.c:245-265 | the entry is linked behind the last |
| CallbackQueue.CallbackList.Shift | src/hiredis/async.c:267-281 | the oldest entry is unlinked and released; head and tail agree when it was the last |
| PubSub.ClassifyIs | src/hiredis/async.c:758-801 | which command an argument vector is: its first word up to a CRLF, in any case, with or without a leading p; a subscribe needs a name |
| PubSub.RouteAnswer | src/hiredis/async.c:414-478 | a server reply goes to the entry of its name, updates exactly that, and drops the subscribed flag with the last entry |
| PubSub.CountsRightIff | src/hiredis/async.c:766-790 | a SUBSCRIBE gives every name its right count if and only if no new name has, as the nearest known name before it, one with an unanswered subscribe |
| PubSub.CountLeaks | src/hiredis/async.c:766-790 | SUBSCRIBE a a b on empty tables gives b the count two with one unanswered subscribe |
| PubSub.SubscribeKeepsIff | src/hiredis/async.c:766-790 | issuing a subscribe of any number of names keeps the table invariant if and only if no count leaks |
| PubSub.UnsubscribeKeeps | src/hiredis/async.c:791-798 | issuing an unsubscribe of any number of names keeps the table invariant |
| PubSub.AnswerKeeps | src/hiredis/async.c:414-478 | routing an in-order answer keeps the table invariant and fails no assert |
| PubSub.AnswerIsSafe | src/hiredis/async.c:414-478 | an in-order answer neither leaks a count nor heals a leaked one, and fails no assert |
| PubSub.TablesOkOverRuns | src/hiredis/async.c:414-478 | over every interleaving of subscribes, unsubscribes and answers: all along, pending_subs is the number of unanswered subscribes, an entry exists iff that is positive or the name is subscribed, it holds the newest callback, and entries are there exactly while the flag is set, if and only if no subscribe leaks a count |
| PubSub.TablesSafeOverRuns | src/hiredis/async.c:414-478 | over every interleaving, leaks or no leaks: every unanswered or answered subscription has its entry with the newest callback, no count is too low, an entry with the right count is needed, and entries are there exactly while the flag is set |
| PubSub.SafeAndTight | src/hiredis/async.c:766-790 | such tables are in order if and only if no count is too high |
| PubSub.SingleNamesPass | src/hiredis/async.c:766-790 | runs whose subscribes name one channel or pattern each leak nothing |
| PubSub.SubscribedIffAny | src/hiredis/async.c:452-475 | in every reachable state the flag is set exactly while something is subscribed, a subscribe is unanswered, or a count has leaked |
| PubSub.DrainAbortsIffAny | src/hiredis/async.c:552-567 | in every reachable state, answering what is outstanding fails the assert if and only if no count has leaked and some command is answered when nothing is subscribed and no subscribe is on its way |
| PubSub.DoubleUnsubscribeAborts | src/hiredis/async.c:552-567 | one subscribe and two unsubscribes sent ahead fail the assert |
| PubSubWords.CommandWords | src/hiredis/async.c:758-801 | which command a name is, letter by letter in any case |
| PubSubWords.SubscribeOne | src/hiredis/async.c:766-790 | a subscribe to one name enters its callback with one more answer to come |
| PubSubWords.RoutedTo | src/hiredis/async.c:414-478 | to whom any reply with a word and a name goes, and what it does to the tables, by the letters of its word |
| PubSubWords.MessageRouted | src/hiredis/async.c:427-449 | a message goes to the callback of its channel or pattern, whatever its payload, and changes nothing |
| PubSubWords.ConfirmationIs | src/hiredis/async.c:442-472 | how the server confirms one name; a confirmation is no message |
| Pushes.SubscribersAre | src/hiredis/async.c:483-502 | which replies are for subscribers: a word of at least 7 bytes that begins subscribe or message, behind an optional p |
| Pushes.DroppedIff | src/hiredis/async.c:480-538 | a reply is no answer exactly when it is a push that is not for subscribers |
| Pushes.AnswersAppend | src/hiredis/async.c:534-538 | the answers among replies are those of the parts, in order |
| Pushes.AllAreAnswers | src/hiredis/async.c:534-538 | without pushes every reply is an answer |
| AsyncEngine.ConsumeState | src/hiredis/async.c:504-592 | taking the oldest entry, for a reply or for NULL, keeps the account of entries and answers |
| AsyncEngine.OnlyRegularIs | src/hiredis/async.c:799-818 | what it means that only regular commands were accepted |
| AsyncEngine.JudgedIs | src/hiredis/async.c:750-751 | what a history's judgements say of each command: which were accepted, and that none was after the close |
| AsyncEngine.EntryAt | src/hiredis/async.c:267-281 | the k-th entry consumed is the k-th in the account |
| AsyncEngine.FlatMore | src/hiredis/async.c:283-290 | the actions of a script are those of its lists, in order |
| AsyncEngine.RegularHistory | src/hiredis/async.c:737-818 | if user and callbacks issued nothing but regular commands, nothing else was accepted |
| AsyncEngine.TrackCommand | src/hiredis/async.c:766-798 | issuing a command moves the tables of a context as the table model does |
| AsyncEngine.TrackAnswer | src/hiredis/async.c:542-569 | a stray reply that is the next answer of the server moves the tables as the table model does, and fails an assert exactly when that one does; a message changes nothing; both reach the callback last given for their name |
| AsyncEngine.MessageReaches | src/hiredis/async.c:427-449 | in every reachable state a message for a subscribed name finds the callback last given for it, and fails no assert |
| AsyncEngine.AnswerReaches | src/hiredis/async.c:427-472 | in every reachable state the answer to a subscribe finds the callback last given for its name |
| AsyncEngine.AllReachIs | src/hiredis/async.c:542-584 | what it means that all messages and answers of a history reached their callbacks |
| AsyncEngine.FoundIs | src/hiredis/async.c:427-468 | whom a stray reply finds: a message its channel's or pattern's entry, a reply that is no array the oldest stray callback |
| AsyncEngine.Matched | src/hiredis/async.c:504-592 | without pushes the k-th accepted entry gets the k-th of all replies read |
| AsyncEngine.AsyncContext.AsyncCommand | src/hiredis/async.c:737-821 | accepted exactly when the context is not closing and an unsubscribe finds it subscribed; which queue or table gets the callback; the bytes sent; the attempt goes on record |
| AsyncEngine.AsyncContext.AddNames | src/hiredis/async.c:766-790 | the loop over the names enters them with the counts the code gives them |
| AsyncEngine.AsyncContext.RunCallback | src/hiredis/async.c:283-290 | the function is called once if there is one and performs the next list of the script, all of it; whatever it does, a closing context accepts nothing |
| AsyncEngine.AsyncContext.DrainReplies | src/hiredis/async.c:301-310 | the teardown loop ends and gives NULL to exactly the entries that were queued, in order, in every context |
| AsyncEngine.AsyncContext.Teardown | src/hiredis/async.c:301-357 | afterwards the context is gone; queued entries, stray callbacks and those of both tables were called with NULL, each once, in this order |
| AsyncEngine.AsyncContext.DrainSubscriptions | src/hiredis/async.c:312-337 | stray callbacks in order, then each channel's and each pattern's, once with NULL |
| AsyncEngine.AsyncContext.AsyncFree | src/hiredis/async.c:363-369 | frees at once, or sets the flag when called from a callback |
| AsyncEngine.AsyncContext.DisconnectNow | src/hiredis/async.c:371-402 | ends in the teardown; the assert on a clean disconnect holds, and a clean disconnect gives no NULL; a failure goes on record with its cause |
| AsyncEngine.AsyncContext.AsyncDisconnect | src/hiredis/async.c:404-412 | ends the context at once if nothing is queued, otherwise refuses new work and lets replies arrive |
| AsyncEngine.AsyncContext.GetSubscribeCallback | src/hiredis/async.c:414-478 | arrays and pushes are routed through the tables, other replies take the oldest stray callback; else the callback stays what it was |
| AsyncEngine.AsyncContext.TakeReply | src/hiredis/async.c:542-584 | a reply goes to the oldest entry exactly when there is one; an error reply without an entry ends the context; any other goes to the entry of its name or the oldest stray callback; the callback found, and no other, is called with the reply; when an assert fails, and when the callback ends the context |
| AsyncEngine.AsyncContext.EndOfReplies | src/hiredis/async.c:510-533 | a read error ends the context; so does a requested disconnect, exactly when nothing is queued or left to write; a monitoring context puts the callback back |
| AsyncEngine.AsyncContext.ProcessCallbacks | src/hiredis/async.c:504-592 | the replies that are no spontaneous pushes are handed out in order: all of them if the context goes on, a beginning of them if it ends, a proper one if an assert fails; each other reply is one call of the push handler; what can end the context |
| AsyncEngine.AsyncContext.Handle | src/hiredis/async.c:504-592 | one user event is recorded and hands out the replies it brings, or a beginning of them if the context ends; a free, a failed read or broken input end the context, a disconnect exactly when nothing is queued, a command or a write never; a failure has its cause in the event; what is left to write; who is called with NULL |
| AsyncEngine.AsyncContext.Run | src/hiredis/async.c:504-592 | over every run: the history is what the user and the callbacks did and what arrived; the context ends after every free, failed read or broken input, and only then or by a callback, a disconnect or a refusal; every failure has its cause; accepted entries are those of the accepted commands, = consumed followed by queued, replies first, NULL only by a free or when nothing more can be read, none left once freed; the k-th gets the k-th reply that found an entry waiting, and functions are called with replies exactly as the history hands them out; the push handler is called once for each other reply. If only regular commands were accepted, which is so when only such were issued: accepted exactly before the first disconnect, free or failure; the k-th entry gets the k-th reply that arrived; the replies handed out are a beginning of those that arrived, all of them while the context lives; each function called exactly once; without pushes, the k-th accepted command gets the k-th of all replies read. If commands are regular outside a subscription, or subscribe or unsubscribe names, and what arrives is for a waiting entry, the server's next answer, or a message for a subscribed name: the tables are those of the table model, in order unless a count leaked, and every message, and every answer to a subscribe, is handed to the callback last given for its name |
| DictModel.MaskIsMod | src/hiredis/dict.c:124-124 | masking with size - 1 is the remainder for sizes that are powers of two |
| DictModel.IndexIsMod | src/hiredis/dict.c:342-342 | a key goes to the bucket that is the remainder of its hash |
| DictModel.SignedFits | src/hiredis/dict.c:286-287 | the cast to int keeps exactly the sizes below 2^31, and turns 2^31 negative |
| DictModel.MoveOne | src/hiredis/dict.c:117-130 | moving one entry to the front of its new bucket keeps every other entry reachable in exactly one place |
| DictModel.Dict.NextPower | src/hiredis/dict.c:320-329 | the least power of two from 4 up that is at least the size; LONG_MAX from there on |
| DictModel.Dict.Rehash | src/hiredis/dict.c:111-131 | every entry, unchanged but for its link, sits in the bucket of its hash in the new array; `used` ends at 0 |
| DictModel.Dict.Expand | src/hiredis/dict.c:92-138 | the represented map is unchanged; refused exactly when the size is below `used` |
| DictModel.Dict.ExpandIfNeeded | src/hiredis/dict.c:309-317 | there is room for one more entry and the map is unchanged |
| DictModel.Dict.KeyIndex | src/hiredis/dict.c:334-351 | -1 exactly for a key that exists, else its bucket in a table with room; the map is unchanged |
| DictModel.Dict.Find | src/hiredis/dict.c:255-268 | the entry of the key, found if and only if the map has the key |
| DictModel.Dict.Add | src/hiredis/dict.c:141-163 | adds the key exactly when the map lacks it |
| DictModel.Dict.Replace | src/hiredis/dict.c:169-191 | the map is updated at the key; the result says whether it is new |
| DictModel.Dict.Delete | src/hiredis/dict.c:194-222 | the map loses exactly the key; one entry is unlinked and released |
| DictModel.Dict.Clear | src/hiredis/dict.c:225-247 | every entry is released once and the table is as new |
| DictModel.UsedOf | src/hiredis/dict.h:111-111 | `used` is the number of keys of the represented map and at most the size |
| DictModel.PerformAll | src/hiredis/dict.c:92-268 | a new table answers every sequence of add, replace, delete and find as a plain map does, through any number of rehashes, as long as the map keeps fewer than 2^31 keys |
| DictModel.Iterator.constructor | src/hiredis/dict.c:270-280 | what is to come is every live entry, none twice |
| DictModel.Iterator.Next | src/hiredis/dict.c:282-300 | below 2^31 buckets every call returns the first of what is to come, and NULL exactly at the end; at 2^31 buckets NULL always |
| DictModel.StandingKept | src/hiredis/dict.c:292-297 | deleting an entry already returned leaves the iterator where it was |
| DictModel.DeleteReturned | src/hiredis/dict.c:292-297 | deleting an entry already returned keeps the iterator valid |
| DictModel.Sweep | src/hiredis/dict.c:282-300 | iterating while deleting any of the entries just returned meets each key exactly once and leaves exactly the others; at 2^31 buckets it meets none |
| SdsQuote.CatRepr | src/hiredis/sds.c:872-895 | the loop appends the quoted form of the bytes |
| SdsQuote.SplitArgs | src/hiredis/sds.c:940-1056 | the pointer loops compute the arguments of the line, or NULL, and never read past the final NUL |
| SdsQuote.ReadToken | src/hiredis/sds.c:955-1028 | the flags inq, insq and done drive the specified token |
| SdsQuote.HexRoundTrip | src/hiredis/sds.c:899-919 | the two hex digits written for a byte are recognised and give the byte back |
| SdsQuote.EscapeStep | src/hiredis/sds.c:876-891 | reading the escape of any byte yields that byte and goes on behind the escape |
| SdsQuote.QuoteRoundTrip | src/hiredis/sds.c:940-1056 | every list of byte strings, quoted and joined by single spaces, is split into itself |
| SdsWords.EscapedBytes | src/hiredis/sds.c:876-891 | how each byte is written in quoted text |
| SdsWords.ReprIs | src/hiredis/sds.c:872-895 | quoted text is its bytes' escapes in order, between double quotes |
| SdsWords.HexEscapes | src/hiredis/sds.c:958-967 | in double quotes, backslash, x and two hex digits in either case are one byte |
| SdsWords.LetterEscapes | src/hiredis/sds.c:968-981 | five letters behind a backslash are control bytes, any other byte is itself |
| SdsWords.LinesOfWords | src/hiredis/sds.c:940-1056 | every line of words reads as those words: bare, in double quotes, in single quotes with `\'` for a quote, or bare and then quoted, with any blanks around them |
| SdsWords.BareWords | src/hiredis/sds.c:1008-1026 | every list of bare words, joined by spaces, is split into itself |
| SdsWords.DoubleQuotedLine | src/hiredis/sds.c:956-991 | text in double quotes is one argument |
| SdsWords.SingleQuotedLine | src/hiredis/sds.c:992-1006 | text in single quotes is one argument |
| SdsWords.FlawedLines | src/hiredis/sds.c:981-1006 | a line is refused for a quote that is not closed or that something other than a blank follows |
| SdsSplit.JoinSds | src/hiredis/sds.c:1095-1104 | one separator between neighbours, none at the ends |
| SdsSplit.JoinSteps | src/hiredis/sds.c:1095-1104 | one more token is one more separator and the token |
| SdsSplit.SplitLen | src/hiredis/sds.c:809-846 | the tokens between the leftmost separators; every write to the doubled array is in bounds, the last one too |
| SdsSplit.SepAtIs | src/hiredis/sds.c:833-833 | where the separator stands, byte by byte |
| SdsSplit.SplitSteps | src/hiredis/sds.c:831-846 | the first token ends at the leftmost separator, and the rest is split the same way |
| SdsSplit.SplitIs | src/hiredis/sds.c:809-846 | for a non-empty string the split is the one list of tokens that joins to it and whose separators are the leftmost ones |
| SdsSplit.JoinOfSplit | src/hiredis/sds.c:809-846 | joining undoes splitting for every string and separator; no token contains the separator |
| SdsSplit.SplitOfJoin | src/hiredis/sds.c:1095-1104 | splitting undoes joining exactly for lists whose separators are the leftmost ones, the list of one empty token apart |
| SdsSplit.OneByteSep | src/hiredis/sds.c:833-833 | with a one-byte separator these are the lists none of whose tokens contains it |
| Calendar.IsLeapYear | src/log.cpp:12-21 | leap exactly when divisible by 400, or by 4 and not by 100 |
| Calendar.YearStartIs | src/log.cpp:74-82 | adding up the years is the closed form of the standard |
| Calendar.SetYear | src/log.cpp:74-83 | the year loop leaves the year the day falls in and the day within it |
| Calendar.SetMonth | src/log.cpp:85-97 | the month index never leaves the table; month and day of month agree with the day of the year |
| Calendar.NolocksLocaltime | src/log.cpp:54-99 | the fields satisfy the closed form of the standard always; day of the year, month and day of the month agree by the calendar's own formula; the fields are in range, month lengths included, if and only if the adjusted time is not negative; then the weekday is right |
| Calendar.MonthStartIs | src/log.cpp:85-97 | the days before a month in closed form |
| Calendar.SpeltOut | src/log.cpp:54-99 | the same in plain numbers, without the tables |
| Calendar.OrderPreserved | src/log.cpp:54-99 | fields in range are ordered as their times are |
| Calendar.FieldsUnique | src/log.cpp:54-99 | the closed form has one solution in range: a time determines its fields |
| WorkQueue.Construct | src/thread_pool.cpp:5-18 | which numbers of workers are accepted, and that as many start |
| WorkQueue.ExclusiveKept | src/thread_pool.cpp:32-63 | every step keeps exactly the mutex owner inside |
| WorkQueue.WakeupKept | src/thread_pool.cpp:32-63 | every step keeps: while tasks wait, a worker is awake or a notification is on its way |
| WorkQueue.OrderKept | src/thread_pool.cpp:48-63 | every step keeps submitted = taken followed by queued, and processed = taken in order |
| WorkQueue.JobsAre | src/thread_pool.cpp:55-61 | what was processed is every task that is not null, in order |
| WorkQueue.Safety | src/thread_pool.cpp:32-63 | over all interleavings: first in first out, nothing lost or doubled, no two process() calls overlap, no lost wakeup |
| WorkQueue.Drains | src/thread_pool.cpp:48-63 | from any reachable state, without new calls and spurious wakeups, a bounded number of steps is left, and it is stuck exactly when everything submitted has been processed in order |
| MigrationRegistry.Registry.FindMigrating | src/redis_migrate.cpp:35-42 | the registered entry or an empty one |
| MigrationRegistry.Registry.MigrateCommand | src/redis_migrate.cpp:63-99 | the answer in the order of the checks, and the new registry |
| MigrationRegistry.Registry.MigrateFilter | src/redis_migrate.cpp:101-131 | the delete-while-scanning loop ends and leaves the name alone exactly for a protected first argument, everything otherwise |
| MigrationRegistry.ValidOverRuns | src/redis_migrate.cpp:63-99 | over every run at most 50 keys, the flag set iff there is one, each entry under its own key |
| MigrationRegistry.EntriesStay | src/redis_migrate.cpp:63-99 | no run drops a key or alters an entry with a host |
| MigrationRegistry.BlockedForGood | src/redis_migrate.cpp:63-131 | after a key was accepted with a host every later command on it is reduced to its name |
| MigrationRegistry.AcceptedBlocksIff | src/redis_migrate.cpp:86-96 | in every state an accepted command protects its key if and only if it gives a host |
| MigrationRegistry.BlockedIff | src/redis_migrate.cpp:63-131 | over every run a key is protected if and only if it was before or some accepted command gave it a host |
| MigrationRegistry.OthersPass | src/redis_migrate.cpp:101-131 | after every run a command passes untouched if and only if no accepted command gave its first argument a host |
| MigrationRegistry.FullForGood | src/redis_migrate.cpp:82-84 | with 50 keys the registry never changes again |
| MigrationRegistry.EmptyHostPasses | src/redis_migrate.cpp:86-96 | in every state a key accepted with an empty host is counted and not protected, and can be registered again unless the registry is full |
| MigrationRegistry.Serve | src/redis_migrate.cpp:63-131 | a client command passes the filter, then the handler, on what the filter left |
| MigrationRegistry.HostThatIsAKey | src/redis_migrate.cpp:63-131 | behind the filter rm.migrate is accepted exactly when it would be without it and its host is no protected key |
| MigrationRegistry.ClientsBlockedIff | src/redis_migrate.cpp:63-131 | over every run of client commands a key is protected if and only if it was before or some accepted rm.migrate, with a host that was no protected key, gave it one |
| MigrationRegistry.ClientsAreARun | src/redis_migrate.cpp:63-131 | every run of client commands is a run of the handler, so the run results hold over it |
| MigrationRegistry.ClientsCannotUnblock | src/redis_migrate.cpp:101-131 | whatever clients send, a protected key stays protected |
| MigrationRegistry.CommandSpeltOut | src/redis_migrate.cpp:63-99 | when each answer is given, and every field of the stored entry |
| MigrationRegistry.FilterSpeltOut | src/redis_migrate.cpp:101-131 | what the filter leaves; a request for key positions stores nothing |

## Left out

- Sockets, connecting, polling and errno (`net.c`, `sockcompat.c`): a write accepts any count up to the buffer length or
  fails, a read delivers any chunk.
- TLS (`ssl.c`), the event-loop adapters, module loading and logging calls: foreign interfaces.
- Out-of-memory branches and the allocator: allocation succeeds.
- Raw memory: reply objects, callbacks and hash entries are numbered cells of a map, so address reuse is not modelled;
  the reader's buffer and the bytes on the wire are sequences. An empty reader buffer may be dropped at any feed, where the
  code looks at its spare room.
- Lengths from 2^31 up, where `seekNewline`, `idx` and the formatter's totals would overflow `int`.
- DictModel.Dict.Add: is for tables below 2^31 keys and up to 2^31 buckets, as are KeyIndex, ExpandIfNeeded and Replace,
  because `_dictKeyIndex` returns the bucket as an int. `Expand` is for sizes below LONG_MAX: no larger array can be allocated.
- IntegerCodec.SdsLl2str: negates in unbounded integers, where the code negates the smallest value in signed arithmetic.
- `strtod`: a predicate parameter decides which texts are doubles; the double keeps its text.
- A failed assert (nil, bool or double directly inside a push) is modelled as the error Aborted, not as the end of the process.
- printf delegation and varargs in `redisvFormatCommand`, `sdscatvprintf` and the log messages; of `sdscatfmt` only the two
  formats the formatter uses.
- Confirmations that arrive as RESP3 pushes (messages may), an UNSUBSCRIBE without names in the table theorem, `redisAsyncHandleTimeout`, connect and
  disconnect callbacks, and contexts without auto-free: the code gives no clean guarantee there.
- AsyncEngine.AsyncContext.Run: does not say over whole runs which reply reaches which callback in MONITOR mode, or when
  regular commands are issued while subscribed; `TakeReply` says it reply by reply. A free requested by the push handler takes effect at the next callback or teardown, as in the code.
- MigrationRegistry.Serve: a keys-position request reaches the handler through another command and is part of the handler's
  runs only.
- A command without a name: `__redisAsyncCommand` asserts that there is one.
- The hash function of the table is a parameter; keys and values are values, so destructors are not modelled.
- SdsQuote.CatRepr: appends to a byte sequence rather than to the header-typed string, whose appending is `SdsBuffer.Sds.CatLen`.
- Characters are classified as in the C locale; bytes from 128 up are neither printable nor blank.
- Calendar.NolocksLocaltime: does not model the width of `tm_year`, which limits the year to 2^31.
- The destructor of ThreadPool and `stop`: nothing is claimed about shutdown. A spurious wakeup may happen at any time.
- Lifetimes of the host and key strings in `migrateObj`: they are values; the cast of a double to int is a parameter.
- `sdstrim`, `sdsmapchars`, `sdscmp`, `sdstolower` and the other small string helpers: they would only add easy members.
