# A verified model of the PetsServer core

PetsServer is a game server on muduo. This project models, in Dafny 4.11, the parts of it where correctness is not
obvious, and proves what they promise for every input, every run and every interleaving:

* **Byte-stream framing** (`Endian.dfy`, `Buffer.dfy`, `Framing.dfy`, `Codec.dfy`). `muduo::net::Buffer` is a class
  over a real array with both indices, its overlapping copy and its growth; `onMessage` and `SendMsg` run on it.
  However TCP cuts a stream, the packets are those of a one-pass decode of the whole stream; the array stays bounded.
* **Monitors** (`Threads.dfy`, `BoundedQueue.dfy`, `BlockingQueue.dfy`, `MutexHolder.dfy`). Step systems with any
  number of threads, barging, spurious wakeups and signals that may wake several waiters (IEEE Std 1003.1,
  `pthread_cond_wait` and `pthread_cond_signal`). What the queues hold is tied to the arguments of the calls.
* **Packet flow** (`Dispatcher.dfy`, `PacketFlow.dfy`). The dispatcher queue as a class, and the whole path from
  received bytes to callbacks under every interleaving of the I/O threads and the game loop.
* **SQL worker** (`SqlWorker.dfy`). The database thread, with producers that notify after unlocking.
* **Stored procedures** (`Decimal.dfy`, `Words.dfy`, `ParamList.dfy`, `SqlText.dfy`, `QueryText.dfy`,
  `ProcedureHelper.dfy`). The parameter-list parser against a printer, the generated SQL against an independent
  reader of SQL text, and the class with its fixed buffer tied to both.
* **String splitter** (`Splitter.dfy`), **connection numbers** (`Connections.dfy`) and the **object map**
  (`ObjectTable.dfy`).

Classes and methods are proved against specification functions; the theorems are lemmas about those functions, or
about every state of every run of a step system (`IsRun`). A run is a sequence of states, each reached from the one
before by an enabled action.

## Results that are conditions

Some natural properties hold only under a condition; each is proved as an equivalence or with the failing case beside it.

* `Parse` gives a string back exactly when its last part does not end in the start of a self-overlapping delimiter;
  the delimiters safe for all strings are exactly those without a border. With an empty delimiter the source never ends.
* The generated `set` text is read as intended exactly when there is no INOUT blob (its branch writes no variable
  name), no IN blob of length 0, and every INOUT string is verbatim: no quote, and a backslash only before `%` or `_`.
  The `call` is read as intended exactly when every IN string is verbatim. No text behind a string that is not can make
  up for it.
* The length of a blob comes from its declaration only. One declared without a length, `in b blob`, has length 0: its
  text is a bare `0x`, which MySQL takes for a name, whatever bytes were bound.
* Result columns reach their parameters exactly when every IN parameter comes first. The header comment asks for the
  order in, out, inout; the order of OUT and INOUT among themselves does not matter to the code.
* An int64_t survives its way through decimal text only where int64_t is long long, and a blob result never does:
  both branches any_cast a temporary `any` of another type, which throws.
* A parameter list in the documented shape is parsed, one parameter per declaration, exactly when it has at most ten
  declarations, every length is an int, and no declaration without a direction has a name that reads like one.
* Sent messages come back exactly when none is longer than 65536 bytes.
* The memory bound needs that no header is refused; after a refused header every later byte stays in the buffer.
* A bounded queue of capacity 0 never serves anybody; with capacity at least 1 it cannot deadlock.

## How the code is read

* The final `return` missing from `Execute` is read as `return 0`, the one missing from `Parse` as `return res`, and
  `%s` given a `std::string` as that string's text.
* Undefined behaviour and uncaught exceptions are explicit outcomes (`Lost`, `Raised`, `Undefined`, `Threw`), not
  preconditions: more than ten parameters, text past the buffer, `atoi` out of range, a wrong `any_cast`.
* `Buffer`'s asserts, which are demands on its callers, are preconditions; `PerformAll` stops at the first that fails.
* Clock readings, random numbers, the result of `malloc(0)`, the host's byte order and everything the database answers
  are parameters, and so is the C type int64_t stands for.
* The database's reading of generated SQL is `SqlText`, after MySQL's default mode: commas outside single quotes
  separate, `@_n` is a user variable, and a literal is `null`, a decimal integer, `0x` with at least one pair of
  hexadecimal digits, or a quoted string, where a doubled quote is a quote and a backslash escapes (except before `%`
  and `_`, where it stays).
* Every access to shared data is one atomic step.

## Model

| member | source | states |
|---|---|---|
| Endian.WireOrder | muduo/include/muduo/net/Endian.h:29-42 | a converted integer lies in memory most significant byte first, on either kind of host and for every width: byte i counts the (width - 1 - i)-th power of 256 |
| Endian.WireValue | muduo/include/muduo/net/Endian.h:44-57 | loading wire bytes as a host integer and converting gives the number they spell |
| Endian.ConversionsInverse | muduo/include/muduo/net/Endian.h:29-57 | the two conversions undo each other for every value of the width |
| ByteBuffer.Reserve | muduo/include/muduo/net/Buffer.h:194-201 | room for the bytes exists, nothing readable is lost, the array grows only when nearly full and by at most the request, and prepend room is never traded below 8 |
| ByteBuffer.Buffer.constructor | muduo/include/muduo/net/Buffer.h:48-56 | an empty buffer with both indices at 8 |
| ByteBuffer.Buffer.MoveDown | muduo/include/muduo/net/Buffer.h:402-404 | the forward copy onto lower addresses keeps the bytes although the ranges overlap |
| ByteBuffer.Buffer.MakeSpace | muduo/include/muduo/net/Buffer.h:390-409 | content kept, layout as specified; the assert `kCheapPrepend < readerIndex_` holds whenever the branch is reached |
| ByteBuffer.Buffer.EnsureWritableBytes | muduo/include/muduo/net/Buffer.h:194-201 | at least the requested room afterwards, content unchanged |
| ByteBuffer.Buffer.Append | muduo/include/muduo/net/Buffer.h:182-187 | the content is the old content followed by the bytes |
| ByteBuffer.Buffer.Prepend | muduo/include/muduo/net/Buffer.h:354-360 | the content is the bytes followed by the old content, in the same array |
| ByteBuffer.Buffer.Retrieve | muduo/include/muduo/net/Buffer.h:113-124 | the first bytes are gone; an emptied buffer resets both indices to 8, otherwise only the reader index moves |
| ByteBuffer.Buffer.RetrieveAll | muduo/include/muduo/net/Buffer.h:153-157 | empty, both indices at 8 |
| ByteBuffer.Buffer.Unwrite | muduo/include/muduo/net/Buffer.h:215-219 | the last bytes are gone |
| ByteBuffer.Buffer.Shrink | muduo/include/muduo/net/Buffer.h:362-369 | same content in a fresh array of the smallest size that leaves room for the reserve |
| ByteBuffer.Buffer.PerformAll | muduo/include/muduo/net/Buffer.h:113-219 | under every run of append, prepend, retrieve, unwrite and shrink the array buffer refines a plain byte sequence, and the run stops only at an operation whose assert fails in the source |
| ByteBuffer.Buffer.AppendInt | muduo/include/muduo/net/Buffer.h:224-248 | the integer's two's complement bytes are appended in network order, for every width |
| ByteBuffer.Buffer.PrependInt | muduo/include/muduo/net/Buffer.h:328-352 | the same in front |
| ByteBuffer.Buffer.PeekInt | muduo/include/muduo/net/Buffer.h:290-323 | the result is the signed integer whose network-order bytes are in front |
| ByteBuffer.Buffer.ReadInt | muduo/include/muduo/net/Buffer.h:254-284 | the same, and exactly those bytes are consumed |
| Framing.FrameBytes | codec.cpp:79-88 | a frame on the wire is the length in four bytes, most significant first, then the body |
| Framing.FrameHeader | codec.cpp:32-41 | the header of a framed message is accepted exactly when the message has at most 65536 bytes |
| Framing.DecodeKeepsBytes | codec.cpp:30-74 | the decoded bodies, framed again, and the rest are the stream, byte for byte |
| Framing.DecodeUnique | codec.cpp:30-74 | any way to write a stream as frames of legal bodies and a rest without a complete frame is the decode |
| Framing.DecodeResumes | codec.cpp:30-74 | decoding may stop anywhere and continue with the leftover |
| Framing.BadHeaderIsFinal | codec.cpp:35-40 | after a refused length no later byte ever yields a packet |
| Framing.RoundTrip | codec.cpp:79-88 | a list of messages comes back whole with no residue if and only if none exceeds 65536 bytes |
| Framing.OversizedMessage | codec.cpp:35-40 | with a longer one, exactly the messages before it come back and the stream is refused there |
| Codec.OnMessage | codec.cpp:25-77 | pushes exactly the packets of the decode of the buffer, leaves exactly its rest, and asks for shutdown exactly on a refused header |
| Codec.SendMsg | codec.cpp:79-88 | what is sent is the frame of the data; the 4-byte prepend fits whatever append did |
| Codec.GrowthIsBounded | muduo/include/muduo/net/Buffer.h:390-408 | appending at most L bytes to a short leftover keeps the array within max(1032, 65546 + 2L) |
| Codec.Receive | codec.cpp:25-77 | for every stream and every cutting: packets and leftover of the one-pass decode; at most 65539 bytes are left over and the array stays within max(1032, 65546 + 2L) when no header is refused |
| Codec.EndToEnd | codec.cpp:30-88 | messages of at most 65536 bytes, sent one by one and cut anywhere, arrive whole and no header is ever refused |
| Codec.RefusedKeepsAll | codec.cpp:35-40 | once a header is refused every later byte stays in the buffer |
| BoundedQueue.SurroundingsAreFree | muduo/include/muduo/base/BoundedBlockingQueue.h:30-66 | what the model leaves open: any threads and capacity, calls at any time, barging, spurious wakeups, signals that wake one waiter or several |
| BoundedQueue.StepKeepsExclusive | muduo/include/muduo/base/BoundedBlockingQueue.h:30-66 | every step keeps the critical section occupied by exactly the mutex owner |
| BoundedQueue.StepKeepsGuarded | muduo/include/muduo/base/BoundedBlockingQueue.h:33-38 | every step keeps the size within capacity, both asserts true where they stand, and accepted = taken + queued |
| BoundedQueue.StepKeepsWakeups | muduo/include/muduo/base/BoundedBlockingQueue.h:30-66 | every step keeps the wakeup balance |
| BoundedQueue.RunInv | muduo/include/muduo/base/BoundedBlockingQueue.h:30-66 | all three hold in every state of every run |
| BoundedQueue.WakeupsNeverLost | muduo/include/muduo/base/BoundedBlockingQueue.h:30-66 | with the mutex free, a blocked taker implies at least size takers signalled, a blocked putter at least capacity - size putters |
| BoundedQueue.Fifo | muduo/include/muduo/base/BoundedBlockingQueue.h:33-64 | linearizable FIFO: taken, then queued, is what was accepted, and the overwrite-on-full case of the circular buffer is unreachable |
| BoundedQueue.PushServesItsPut | muduo/include/muduo/base/BoundedBlockingQueue.h:30-40 | every push serves a put called before by the same thread and not served yet, and adds exactly the argument of that call |
| BoundedQueue.ReturnsAreServed | muduo/include/muduo/base/BoundedBlockingQueue.h:30-66 | a put returns only after exactly one push of its own, a take after exactly one pop |
| BoundedQueue.LedgerIsHistory | muduo/include/muduo/base/BoundedBlockingQueue.h:30-66 | in every state, taken then queued items are the arguments of the puts that pushed, in that order, as told by the calls alone |
| BoundedQueue.DeadlockFree | muduo/include/muduo/base/BoundedBlockingQueue.h:30-66 | with capacity at least 1, pending calls none of which can advance are all takers on an empty queue or all putters on a full one |
| BoundedQueue.ZeroCapacityNeverServes | muduo/include/muduo/base/BoundedBlockingQueue.h:22-66 | with capacity 0 no push or pop ever happens |
| UnboundedQueue.SurroundingsAreFree | muduo/include/muduo/base/BlockingQueue.h:31-69 | what the model leaves open, as for the bounded queue |
| UnboundedQueue.RunInv | muduo/include/muduo/base/BlockingQueue.h:31-69 | mutual exclusion, safe pops, the ledger and the wakeup balance in every state of every run |
| UnboundedQueue.Fifo | muduo/include/muduo/base/BlockingQueue.h:31-69 | taken and drained items, then the queue, are the items put, in order |
| UnboundedQueue.PushServesItsPut | muduo/include/muduo/base/BlockingQueue.h:31-37 | every push adds exactly the argument of its own put |
| UnboundedQueue.ReturnsAreServed | muduo/include/muduo/base/BlockingQueue.h:31-69 | a put, take or drain returns only after exactly one push, pop or drain of its own |
| UnboundedQueue.LedgerIsHistory | muduo/include/muduo/base/BlockingQueue.h:31-69 | removed then queued items are the arguments of the puts that pushed, in order; a pop removes one item and a drain all |
| UnboundedQueue.WakeupsNeverLost | muduo/include/muduo/base/BlockingQueue.h:31-58 | with the mutex free, a blocked taker implies at least as many takers signalled as items |
| UnboundedQueue.DeadlockFree | muduo/include/muduo/base/BlockingQueue.h:31-69 | pending calls none of which can advance are takers on an empty queue |
| MutexHolder.StepKeepsInv | muduo/include/muduo/base/Mutex.h:149-195 | every micro-step of lock, unlock and wait keeps holder_ consistent with the pthread mutex |
| MutexHolder.HolderIsTruthful | muduo/include/muduo/base/Mutex.h:137-195 | a non-zero holder_ is the owner; isLockedByThisThread is true in a thread exactly while it runs user code inside; the destructor's assert holds when nobody is inside |
| MutexHolder.NeverStuck | muduo/include/muduo/base/Mutex.h:149-195 | unless everybody is outside or blocked on a condition, somebody can go on |
| MutexHolder.RunInv | muduo/include/muduo/base/Condition.h:30-34 | the same over every interleaving, condition waits included |
| Dispatch.Dispatcher.BindCB | Dispatcher.cpp:12-15 | the message type has a callback afterwards |
| Dispatch.Dispatcher.PushPack | Dispatcher.cpp:17-25 | the packet is last in the queue |
| Dispatch.Dispatcher.GetPack | Dispatcher.cpp:27-41 | the first packet, if there is one, and the queue without it |
| Dispatch.Dispatcher.DispatchMsg | Dispatcher.cpp:43-68 | callbacks are made for exactly the popped packets with a buffer, in order, counted, and each had a callback; every pop is made on a clock reading within the second, and it goes on until the queue is empty or the second is over; an exception comes from the last popped packet, for the stated reason |
| Dispatch.WithinTheSecond | Dispatcher.cpp:47-48 | with a clock that neither goes back nor wraps around, the QWORD difference is the plain one |
| PacketFlow.NeverPopsEmpty | Dispatcher.cpp:27-41 | over every interleaving the pop after the unlocked emptiness test never meets an empty queue |
| PacketFlow.RunInv | Dispatcher.cpp:17-68 | per connection, popped, queued, in-flight and undecoded messages always account for all bytes received |
| PacketFlow.ReceivedIsArrived | codec.cpp:25-35 | the bytes a connection has received are those that arrived for it, in order |
| PacketFlow.NeverStuck | Dispatcher.cpp:17-68 | while anything is queued or on its way, some step other than an arrival is possible and changes something |
| PacketFlow.PoppedInOrder | codec.cpp:41-68 | per connection, the packets popped are a prefix of the bodies of the bytes received |
| PacketFlow.DispatchedInOrder | Dispatcher.cpp:43-68 | per connection, the callbacks made are, in order and without repetition, the bodies of a prefix, minus those without a buffer |
| PacketFlow.DispatchedIsPrefix | Dispatcher.cpp:43-68 | unless an empty body got no buffer, the messages dispatched are a plain prefix of the bodies received |
| PacketFlow.VisibleSnoc | Dispatcher.cpp:54-55 | what is skipped: exactly an empty body for which malloc gave no block |
| PacketFlow.QuietMeansAllDispatched | Dispatcher.cpp:17-68 | at rest nothing is missing: every body that arrived has been dispatched, the empty ones without a buffer excepted |
| PacketFlow.SentInOrder | codec.cpp:41-88 | if the bytes are the start of framed messages, what was popped is the start of those messages |
| SqlWorker.RunInv | MySqlModule/MysqlQuery.cpp:207-270 | exclusion, the ledger of packs and the pending-notify property in every state of every run |
| SqlWorker.WakeupComes | ObjectModule/Pet.cpp:56-57 | an unsignalled worker waiting beside a non-empty queue has a producer that still owes a notify, and that notify wakes it |
| SqlWorker.ExecutedInOrder | MySqlModule/MysqlQuery.cpp:216-236 | executed packs are exactly those with a bind among the first packs pushed, once each and in push order |
| SqlWorker.PushServesItsCall | ObjectModule/Pet.cpp:45-58 | every push serves one call of PrepareSQL and adds exactly its pack, so the packs pushed are the packs asked for |
| SqlWorker.NoIdleRounds | MySqlModule/MysqlQuery.cpp:211-238 | the worker never makes more rounds than packs were popped: it does not leave its wait for nothing |
| SqlWorker.NeverStuck | MySqlModule/MysqlQuery.cpp:207-270 | until the worker has stopped, pending pushes, notifies and packs can always go on |
| SqlWorker.StopsBetweenRounds | MySqlModule/MysqlQuery.cpp:211-211 | the worker stops exactly at the top of its loop and exactly if the exit flag was set before |
| SqlWorker.QuietMeansDone | MySqlModule/MysqlQuery.cpp:211-238 | producers idle and worker waiting means everything pushed has been executed |
| Decimal.DigitsAt | MySqlModule/ProcedureHelper.cpp:282-289 | the digits, from the right, count ones, tens, hundreds and so on, without a leading zero |
| Decimal.ReadsSigned | MySqlModule/ProcedureHelper.cpp:326-329 | atoi skips white space, takes a sign or none, reads the digits and stops at anything else |
| Decimal.ReadsNothing | MySqlModule/ProcedureHelper.cpp:326-329 | text that starts with neither space, sign nor digit reads as 0 |
| Decimal.RoundTrip | MySqlModule/ProcedureHelper.cpp:326-329 | the text of a number reads back as that number exactly from -2147483648 to 2147483647 for int and from -9223372036854775808 to 9223372036854775807 for int64_t; outside it is out of range |
| Words.LowerMeans | MySqlModule/ProcedureHelper.cpp:37-37 | the 26 capital letters become their small letters and every other character stays |
| Words.LowerIgnoresCase | MySqlModule/ProcedureHelper.cpp:37-37 | two texts that differ in upper and lower case only are the same once lowered |
| Words.LayoutMeans | MySqlModule/ProcedureHelper.cpp:38-43 | white space is exactly the six characters of the C locale, and any gaps of them are allowed |
| Words.TokensOfSpaced | MySqlModule/ProcedureHelper.cpp:38-43 | words laid out with any white space are read back one by one |
| ParamList.GetMySqlTypeIsTable | MySqlModule/ProcedureHelper.cpp:345-367 | the nested switch recognises exactly five names |
| ParamList.CountersAgree | MySqlModule/ProcedureHelper.cpp:43-106 | whatever the text, the counters are the numbers of parameters of each direction and add up to totalCount between parameters |
| ParamList.PrepareReadsList | MySqlModule/ProcedureHelper.cpp:37-107 | any printed list of at most ten well-formed declarations parses to its directions, types, lengths and counters |
| ParamList.PrepareReadsExactly | MySqlModule/ProcedureHelper.cpp:37-107 | a list in the documented shape, of any length, case and layout, is parsed to its end with one parameter per declaration if and only if it has at most ten, every length is an int, and no declaration without a direction has a name that reads like one |
| ParamList.PrepareReadsAnyCase | MySqlModule/ProcedureHelper.cpp:37-107 | the same for every text equal to the list but for upper and lower case, with direction, type and length of every parameter as written |
| ParamList.UnsupportedTypeIsRefused | MySqlModule/ProcedureHelper.cpp:94-99 | wherever it stands among the first ten declarations, a type outside the five is refused, whatever follows |
| ParamList.StrayComma | MySqlModule/ProcedureHelper.cpp:81-87 | a comma on its own where a type is due throws |
| SqlText.HexRoundTrip | MySqlModule/ProcedureHelper.cpp:157-162 | the `%02x` text of a blob decodes to its bytes |
| SqlText.UnquoteNeedsVerbatim | MySqlModule/ProcedureHelper.cpp:304-309 | put between quotes as it is, a string denotes itself only if it has no quote and a backslash only before % or _, however much of the text behind it the literal swallows |
| QueryText.SetItemText | MySqlModule/ProcedureHelper.cpp:152-205 | the items of the `set` statement, literally, for every direction and type |
| QueryText.EmptyInBlobFails | MySqlModule/ProcedureHelper.cpp:152-162 | the assignment generated for an IN blob of length 0, a bare `0x`, is not read as any value |
| QueryText.SetReadsBack | MySqlModule/ProcedureHelper.cpp:142-205 | the `set` text is read as exactly the intended assignments if and only if there is no INOUT blob, no IN blob of length 0 and no INOUT string that is not verbatim |
| QueryText.CallReadsBack | MySqlModule/ProcedureHelper.cpp:118-218 | the `call` text is read as one argument per parameter, in order, if and only if every IN string is verbatim |
| QueryText.SelectReadsBack | MySqlModule/ProcedureHelper.cpp:211-213 | the `select` text asks for exactly the listed user variables |
| QueryText.OutIndicesExact | MySqlModule/ProcedureHelper.cpp:169-214 | those are the OUT and INOUT parameters, all of them, ascending, once |
| QueryText.AssignedOnce | MySqlModule/ProcedureHelper.cpp:142-205 | each variable used is assigned exactly once, with its parameter's value |
| QueryText.CallReceivesInputs | MySqlModule/ProcedureHelper.cpp:123-218 | meaning preserved: the call's arguments, evaluated after the `set`, are the bound values in order, NULL for OUT |
| QueryText.PassesInputs | MySqlModule/ProcedureHelper.cpp:123-218 | after the `set`, the `call` passes exactly the bound values, whatever the session variables held before |
| QueryText.BindingReachesItsParameter | MySqlModule/ProcedureHelper.cpp:262-263 | column i is bound to the parameter it stands for, for all i, if and only if every IN parameter precedes every other |
| ProcedureHelper.IntegersSurvive | MySqlModule/ProcedureHelper.cpp:326-329 | an int rendered for the database and read back binds the same value; an int64_t does exactly where int64_t is long long, and elsewhere the any_cast of atoll's result throws |
| ProcedureHelper.NumberIsStored | MySqlModule/ProcedureHelper.cpp:326-329 | whatever the parameter held before, the text of a number in range stores that number; out of range and NULL are undefined, and a bigint throws where int64_t is long |
| ProcedureHelper.TextIsStored | MySqlModule/ProcedureHelper.cpp:334-341 | a string parameter gets the text of the column, or the null pointer for NULL; a blob always throws |
| ProcedureHelper.BindingSucceeds | MySqlModule/ProcedureHelper.cpp:322-341 | the results can be bound if and only if there are enough columns, every integer is present and in range, no bound parameter is a blob, and none is a bigint where int64_t is long |
| ProcedureHelper.BindingFails | MySqlModule/ProcedureHelper.cpp:262-263 | otherwise the first column that cannot be bound decides between an exception and undefined behaviour |
| ProcedureHelper.FaultMeans | MySqlModule/ProcedureHelper.cpp:131-133 | a parameter stops Execute exactly where AnyValueToString throws or returns nothing, or where the blob cannot be read |
| ProcedureHelper.SetTextHasNoNul | MySqlModule/ProcedureHelper.cpp:144-205 | the `set` text contains no NUL |
| ProcedureHelper.Helper.constructor | MySqlModule/ProcedureHelper.cpp:371-374 | a new helper is cleared |
| ProcedureHelper.Helper.Clear | MySqlModule/ProcedureHelper.cpp:269-278 | names, counters and all ten parameters are back at their start |
| ProcedureHelper.Helper.Take | MySqlModule/ProcedureHelper.cpp:45-103 | one round of the switch is one step of the specification parser, errors included |
| ProcedureHelper.Helper.Prepare | MySqlModule/ProcedureHelper.cpp:7-108 | the return codes of the look-up failures, and otherwise the specification parser run over the lowered words |
| ProcedureHelper.Helper.AppendHex | MySqlModule/ProcedureHelper.cpp:158-162 | behind the text so far the buffer holds the hex of the blob; overlapping terminators leave no trace |
| ProcedureHelper.Helper.AddSetItem | MySqlModule/ProcedureHelper.cpp:142-205 | prepareIdx is the length of the text and the buffer's front is the text, separator included; it fails only when the text reaches the end of the buffer |
| ProcedureHelper.Helper.BuildTexts | MySqlModule/ProcedureHelper.cpp:114-218 | the three texts are those of the specification, or building stops at a parameter that cannot be rendered or at the end of the buffer |
| ProcedureHelper.Helper.BindResults | MySqlModule/ProcedureHelper.cpp:262-263 | column j is converted into parameter inCount + j and no other parameter changes; the first column that cannot be converted decides how it fails |
| ProcedureHelper.Helper.Execute | MySqlModule/ProcedureHelper.cpp:112-267 | set, call and select are sent in that order, each after the success of the one before; the C string sent is the whole `set` text; the outcome is that of the first failing answer, of binding the results, or of the first parameter that cannot be rendered |
| ProcedureHelper.FirstFaultDecides | MySqlModule/ProcedureHelper.cpp:123-218 | if a parameter cannot be rendered nothing is sent, and the first such parameter decides how the call ends |
| ProcedureHelper.CountersMatch | MySqlModule/ProcedureHelper.cpp:50-70 | after every parse that ends between two parameters, inCount is the number of IN parameters of the call and outCount + inoutCount the number of columns of the `select` |
| ProcedureHelper.ResultsReachTheirParameters | MySqlModule/ProcedureHelper.cpp:211-263 | with the IN parameters first, binding by the code's own counters stores each column's value in the parameter the `select` named and leaves every IN parameter as it was |
| ProcedureHelper.StatementsMean | MySqlModule/ProcedureHelper.cpp:220-249 | the statements, read one after the other by a database with any session variables, call the procedure once with the bound values and then ask for exactly the output variables |
| ProcedureHelper.ProcedureCall | MySqlModule/MysqlQuery.cpp:312-330 | end to end, from a parameter list in any case and layout to the callback: read statement by statement, what is sent calls the procedure once with the bound values and asks for the results after that; a refused set, call or select, a row count other than 1 and a failed fetch each have their stated code; on success the callback sees each result's value in its own parameter |
| ProcedureHelper.Helper.ExecuteProcedure | MySqlModule/MysqlQuery.cpp:312-330 | prepare, bind, execute, call back; the callback sees the bound results exactly on success, and on every returned code the helper is left cleared |
| Splitter.Find | ObjectModule/Pet.cpp:30-30 | the first occurrence, or none |
| Splitter.Parse | ObjectModule/Pet.cpp:23-43 | strings of at most one character give nothing, others the pieces of the specification; it ends for every non-empty delimiter |
| Splitter.EmptyDelimiterNeverAdvances | ObjectModule/Pet.cpp:34-41 | with an empty delimiter the loop removes nothing |
| Splitter.ParseIsLossless | ObjectModule/Pet.cpp:29-41 | no piece contains the delimiter; the joined pieces are the string if and only if its last part does not straddle the appended delimiter |
| Splitter.BorderlessIsSafe | ObjectModule/Pet.cpp:29-41 | the delimiters for which this holds for all strings are exactly those without a border |
| Splitter.ParseJoined | ObjectModule/Pet.cpp:29-41 | pieces free of a borderless delimiter, joined, are found again |
| Connections.DnidHalves | PetsServer.cpp:220-220 | a number is the clock's low 16 bits and a low half below 0xFFFF, so never the unset value |
| Connections.Server.GreateDnid | PetsServer.cpp:214-225 | the first free number drawn; it goes on exactly while all draws are taken |
| Connections.Server.OnUp | PetsServer.cpp:176-186 | a live connection gets a number nobody else has |
| Connections.Server.OnDown | PetsServer.cpp:187-205 | exactly this connection and its number disappear |
| Connections.Serve | PetsServer.cpp:170-225 | after any run of events the keys are exactly the pairwise distinct numbers of the live connections, none of them unset |
| ObjectTable.ObjectManager.RealseObject | ObjectModule/ObjectManager.cpp:50-65 | deletes and hides exactly the object of the key, once, and says whether there was one |
| ObjectTable.ObjectManager.Run | ObjectModule/ObjectManager.cpp:18-42 | all tombstones go, and no answer of `_Locate` changes |
| ObjectTable.LocateIsLookup | ObjectModule/ObjectManager.cpp:67-77 | `_Locate` answers like a look-up in the plain map of live objects |
| ObjectTable.Drive | ObjectModule/ObjectManager.cpp:18-77 | after any run of releases and sweeps the plain map lacks exactly the released keys and no object was deleted twice |

## Left out

- MySQL client calls, result handles and statement binding: the library is not part of this model; the database answers through parameters.
- Floating-point parameters: `GetMySqlType` never produces those types, so their branches in `AnyValueToString` and `SqlValueToAny` are not reached.
- Memory ownership (malloc and delete pairing, pack release in `MysqlLoop`, `memset` over `boost::any`, unaligned reads) and the memory model: every shared access is one atomic step.
- SQL expressions: the reader of generated SQL knows literals and user variables; a text that MySQL would take for an operator expression or for adjacent string literals counts as not read.
- Length of the look-up query in `Prepare`: its 1024-byte text is not modelled, so a procedure name is never too long for it.
- `readFd`: only declared in the source, so arriving data is an append of a chunk.
- The search helpers of `Buffer` (`findCRLF`, `findEOL`) and its string conveniences: they would add only easy members.
- `CObjectManager::Clear`, `Destroy`, `TraversalObjects` and object creation: nothing shown inserts objects, so runs start from any map of distinct objects.
- Pet contexts of connections: nothing shown stores one, so a context is always a connection number.
- Connections that come and go, and callbacks that throw, in `PacketFlow`: a run has any fixed set of connections with distinct numbers, and every protocol byte has a callback; `Dispatcher` and `Connections` model the other cases by themselves.
- Callbacks that push SQL packs: they would run under the lock they need, so `SqlWorker` has none.
- Message handlers, timers, server pacing and logging: empty, or clock and I/O.
- Fairness: the queue results say that a step can be taken, not that the scheduler takes it.
