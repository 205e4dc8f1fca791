# Proofs about the libraries under the services

This project models the logic the services stand on: the buffered byte streams of `bufio.v1`, the Redis
protocol, client and connection pool of `redis.v2`, and the TOML lexer, parser, string encoder and field
selection of `BurntSushi/toml`. It proves what these parts promise, or the exact condition under which they do.

* **Byte streams** (`Streams`, `Reader`, `Writer`, `GrowBuffer`). `Reader` and `Writer` are classes with the fields
  of the original, over a source that delivers arbitrary chunks and a sink that may write short or fail. What a source
  will still deliver is a tape: bytes, then a read that fails, then more bytes, and so on to the end of input. Each
  method is related to the tape: what was consumed, followed by what is left, never changes.
* **Redis** (`Resp`, `RespLaws`, `RespParser`, `Commands`, `Transactions`, `Exchange`, `CutReplies`, `Faults`, `Client`,
  `Pool`, `RateLimiter`). RESP2 is specified on tapes (section "RESP protocol description" of the Redis serialization
  protocol specification); the parser's loops over the buffered reader are proved against it. `Exchange` says what a batch
  does to a connection, `CutReplies` what a reply says that a failed read cuts off, `Faults` what becomes of a batch then.
  `Client` proves that the client's methods do just that, and `Pool` carries it to every run of a pool with any number of
  callers, one atomic step at a time.
* **TOML** (`StringEscapes`, `TokenGrammar`, `LexMachine`, `LexHalting`, `TomlLexer`, `TomlTables`, `TomlReading`,
  `TomlBuild`, `TomlClashes`, `TomlParser`, `TomlDocument`, `TomlRendering`, `TomlRoundTrip`). `LexMachine` is one step of
  the lexer as a function, `LexHalting` says which texts it gets through, `TomlLexer` is the object that takes the steps.
  `TomlReading` reads items from left to right with a stack; the recursive parser in `TomlDocument` is proved against it.
  `TomlBuild` is the building of tables as a function of the state, and beside it what a document is told by its statements
  alone; they agree on every document. `TomlRendering` and `TomlRoundTrip` take what the encoder writes all the way back
  through lexer and parser.
* **Field selection** (`TypeFields`, `FieldDominance`, `FieldAmbiguity`). The breadth-first walk over a possibly
  circular embedding graph, the sort, and the in-place filter.
* `EndToEnd` puts writers and readers together. `Bytes` holds what all share.

`dafny verify dfyconfig.toml` verifies the project.

## What the proofs turned up

* `ReadLine` loses a failed read in the middle of a line and returns the beginning of the line as a whole one
  (`EndToEnd.SwallowedFault`; exactly when, `Streams.ReportShows`). Exactly one buffer without a newline is read differently
  depending on when the end of input is reported (`Streams.ChunkingShowsOnlyInTies`). After a full buffer that ends in CR,
  `UnreadByte` puts a CR in place of the byte before it (`EndToEnd.LineThenUnread`, with the exact condition).
* The error `redis: nil`, sent by a server, cannot be told from a nil bulk reply (`RespLaws.NilLookalike`).
* An array with an error in it is not read to its end, and the next command of the batch is told one of its elements
  (`Commands.AnotherCommandsReply`). A failed read behind an earlier redis error returns a connection to the pool that is
  out of step (`Client.HiddenFault`, `Pool.HiddenFault`), and so does a cut reply that is taken for a whole one
  (`Client.HalfANumberTold`); the exact condition is in `Faults.CutExchange` and `Pool.PoisonedExactlyWhen`. A read that fails
  once and then goes on gives every later command of the batch the reply to the one before it (`Faults.ShiftedReplies`;
  exactly when there is one, `Faults.CrossTalkExactlyWhen`), and one that tears a line end apart a panic
  (`Faults.TornLineEnd`). A `Multi` keeps its connection after that, and never looks at what is buffered when there is no
  error (`Client.Multi`).
* `lexConst` reports a mismatch as success: an error item is followed by a boolean item (`TomlLexer.Lexer.LexConst`). A
  multi-line string that is not closed makes the lexer spin for ever (`LexHalting.UnclosedSpins`; exactly when,
  `LexHalting.HaltsExactly`).
* `replaceUnicode` runs after `replaceEscapes`, so a string with a literal backslash u does not survive encoding and
  decoding (`StringEscapes.QuoteRoundTrip`). The encoder's key check is far weaker than what the lexer can read back
  (`TomlRendering.KeyComesBack`); its comment says that key names cannot contain white space, its code does not check it.
* The mark of an implicit table outlives the array element it was made for, and a text of six lines ends in a BUG branch
  (`TomlRoundTrip.ParseLost`; exactly when, `TomlClashes.BugExactly`). A key with a dot in it can be defined twice
  (`TomlRoundTrip.ParseTwice`; exactly when, `TomlClashes.SecondDefinition`). A value whose key names an implicit table is
  dropped without an error (`TomlClashes.ValueDropped`).
* The walk for embedded structs counts one level at a time and misses ambiguities inherited from above, so that a
  field is returned which Go calls ambiguous (`FieldAmbiguity.AmbiguousFieldShown`); the exact condition
  is `FieldAmbiguity.FlagsRightExactlyWhen`.

## Model

| member | source | states |
|---|---|---|
| Bufio.Reader.constructor | anyd/src/gopkg.in/bufio.v1/bufio.go:46-58 | A new reader has a buffer of at least 16 bytes and nothing consumed: its tape is the whole source, faults included. |
| Bufio.Reader.Fill | anyd/src/gopkg.in/bufio.v1/bufio.go:83-111 | Sliding and reading leave the tape as it is; the window grows or an error is recorded: "no progress" after exactly a hundred empty reads, otherwise what the source reports behind the bytes it still had, all of them in the window. |
| Bufio.Reader.Peek | anyd/src/gopkg.in/bufio.v1/bufio.go:123-146 | The next bytes of the tape, consuming none; fewer only with a full buffer or in front of a report, which is then given and forgotten. |
| Bufio.Reader.Read | anyd/src/gopkg.in/bufio.v1/bufio.go:153-189 | What is delivered, followed by the new tape, is the old tape; an error is the report that stands there, and is passed; progress or one more idle read. |
| Bufio.Reader.ReadByte | anyd/src/gopkg.in/bufio.v1/bufio.go:193-205 | The first byte of the tape, or the report in front of it. |
| Bufio.Reader.UnreadByte | anyd/src/gopkg.in/bufio.v1/bufio.go:208-223 | Succeeds exactly when a last byte is known and there is room for it, and then puts that byte back in front; otherwise nothing changes. |
| Bufio.Reader.ReadSlice | anyd/src/gopkg.in/bufio.v1/bufio.go:273-307 | Consumes a line ending in the first delimiter, or a full buffer, or what is left before a report, which is passed; no error exactly when the line ends in the delimiter. |
| Bufio.Reader.ReadN | anyd/src/gopkg.in/bufio.v1/bufio.go:318-337 | Consumes exactly n bytes without error, or a full buffer, or what is left before a report; the last byte is not updated. |
| Bufio.Reader.ReadLine | anyd/src/gopkg.in/bufio.v1/bufio.go:355-388 | One of the two outcomes of the line specification for the whole tape, whatever the chunks: a full buffer, with CR at its end kept back; a line; an unfinished line, whose report is lost; or the report, exactly when nothing is in front of it. The last byte is that of the line as it was read, CR after a put-back. |
| Bufio.Reader.ReadBytes | anyd/src/gopkg.in/bufio.v1/bufio.go:397-436 | Everything through the first delimiter of what arrives before a read fails, and an error exactly when there is no delimiter; result followed by the new tape is the old tape. |
| Streams.ChunkingShowsOnlyInTies | anyd/src/gopkg.in/bufio.v1/bufio.go:273-307 | The line read depends on when the end of input is reported exactly when the stream is one buffer long without a newline. |
| Streams.ReportShows | anyd/src/gopkg.in/bufio.v1/bufio.go:355-388 | A failed read or the end of input shows exactly when nothing is in front of it; in the middle of a line it is lost and the beginning of the line is returned as a whole one. |
| Streams.NextLineTerminated | anyd/src/gopkg.in/bufio.v1/bufio.go:355-388 | A CR LF line that fits the buffer is read exactly, whatever follows it. |
| EndToEnd.WholeLine | anyd/src/gopkg.in/bufio.v1/bufio.go:355-388 | On any reader, with any chunks and any buffer size: joining what ReadLine returns until it is not a prefix gives the bytes before the next newline less one CR, and leaves the tape just behind the newline, CR LF across the buffer end included; without a newline before a read fails it gives all there is. |
| EndToEnd.SameLine | anyd/src/gopkg.in/bufio.v1/bufio.go:397-436 | Reader.ReadBytes over any chunks and buffer size and Buffer.ReadBytes on the whole content give the same bytes, the same verdict and leave the same rest. |
| EndToEnd.ReadThenUnread | anyd/src/gopkg.in/bufio.v1/bufio.go:208-223 | UnreadByte after ReadByte restores the tape, for every state of the reader. |
| EndToEnd.SliceThenUnread | anyd/src/gopkg.in/bufio.v1/bufio.go:193-223 | UnreadByte after a ReadSlice that returned bytes gives back exactly the last of them. |
| EndToEnd.LineThenUnread | anyd/src/gopkg.in/bufio.v1/bufio.go:208-223 | After a ReadLine that returned a full buffer UnreadByte gives back its last byte if and only if no CR was kept back or that byte is a CR itself; otherwise a CR takes the place of the byte. |
| EndToEnd.SwallowedFault | anyd/src/gopkg.in/bufio.v1/bufio.go:355-388 | A run on every unfinished line: a read fails behind it, ReadLine returns it without an error, and the next call reads on behind the failure; only behind nothing is the fault reported. |
| BufferedWriter.Writer.constructor | anyd/src/gopkg.in/bufio.v1/bufio.go:519-532 | A size that is not positive becomes 4096; nothing is accepted yet. |
| BufferedWriter.Writer.Flush | anyd/src/gopkg.in/bufio.v1/bufio.go:553-574 | Bytes delivered and buffered stay what was accepted, through short and failed writes; success empties the buffer. |
| BufferedWriter.Writer.Write | anyd/src/gopkg.in/bufio.v1/bufio.go:586-608 | Exactly the reported number of bytes is added to what was accepted; all of them unless an error is returned; after an earlier error the sink is not called again. |
| BufferedWriter.Writer.WriteByte | anyd/src/gopkg.in/bufio.v1/bufio.go:611-621 | The byte is accepted exactly when no error is returned. |
| BufferedWriter.Writer.WriteString | anyd/src/gopkg.in/bufio.v1/bufio.go:656-672 | As Write, always through the buffer. |
| GrowBuffer.Buffer.Truncate | anyd/src/gopkg.in/bufio.v1/buffer.go:62-72 | Keeps the first n unread bytes; n = 0 also rewinds. |
| GrowBuffer.Buffer.GrowBy | anyd/src/gopkg.in/bufio.v1/buffer.go:81-108 | Keeps the unread bytes in front of the room it makes; exactly the unread bytes are counted as slid, or as copied, when that is how room is made; bytes slid never exceed bytes read, bytes copied never exceed the capacity, and the capacity stays within max(64, 5 times the largest size asked for). |
| GrowBuffer.Buffer.Reallocate | anyd/src/gopkg.in/bufio.v1/buffer.go:98-104 | A new array of twice the capacity plus n holds the unread bytes and respects the capacity bound; exactly they are counted as copied. |
| GrowBuffer.Buffer.Grow | anyd/src/gopkg.in/bufio.v1/buffer.go:115-121 | Room for n more bytes without changing the contents, at the cost GrowBy states. |
| GrowBuffer.Buffer.Write | anyd/src/gopkg.in/bufio.v1/buffer.go:126-130 | Appends all of p to the queue, at the cost GrowBy states. |
| GrowBuffer.Buffer.WriteByte | anyd/src/gopkg.in/bufio.v1/buffer.go:227-232 | Appends one byte. |
| GrowBuffer.Buffer.Read | anyd/src/gopkg.in/bufio.v1/buffer.go:252-268 | Takes the first bytes off the queue; end of input exactly when it is empty and something was asked for. |
| GrowBuffer.Buffer.Next | anyd/src/gopkg.in/bufio.v1/buffer.go:274-286 | Takes the first min(n, length) bytes. |
| GrowBuffer.Buffer.ReadByte | anyd/src/gopkg.in/bufio.v1/buffer.go:290-301 | Takes the first byte, or reports the end exactly on an empty queue. |
| GrowBuffer.Buffer.UnreadByte | anyd/src/gopkg.in/bufio.v1/buffer.go:346-355 | Succeeds exactly after a read, and gives back the byte before the read position. |
| GrowBuffer.Buffer.ReadBytes | anyd/src/gopkg.in/bufio.v1/buffer.go:363-383 | Everything through the first delimiter; found exactly when the result ends in it. |
| GrowBuffer.ReadThenUnread | anyd/src/gopkg.in/bufio.v1/buffer.go:290-355 | Reading a byte and giving it back leaves the queue as it was. |
| RespParser.AppendArgs | anyd/src/gopkg.in/redis.v2/parser.go:19-31 | Appends the encoding of the request to the buffer, nothing else. |
| RespParser.ReadLine | anyd/src/gopkg.in/redis.v2/parser.go:35-44 | Agrees with the line specification on the whole tape: too long a line is an error. |
| RespParser.ReadN | anyd/src/gopkg.in/redis.v2/parser.go:46-68 | Exactly n bytes, values longer than the buffer included, read on in an array of their own; the report in front of them otherwise. |
| RespParser.ReadBulk | anyd/src/gopkg.in/redis.v2/parser.go:96-106 | The body of the declared length and its CR LF, on 64-bit arithmetic that wraps around. |
| RespParser.ParseReq | anyd/src/gopkg.in/redis.v2/parser.go:72-108 | Agrees with the request specification on the whole tape, for every chunking. |
| RespParser.ParseArg | anyd/src/gopkg.in/redis.v2/parser.go:87-106 | One argument: its header, its length in 32 bits, its body. |
| RespParser.ParseReply | anyd/src/gopkg.in/redis.v2/parser.go:112-157 | Agrees with the reply specification on the whole tape, failing reads included; the mutual recursion with the array parsers ends because every reply consumes input. |
| RespParser.ParseMultiBulk | anyd/src/gopkg.in/redis.v2/parser.go:159-188 | parseSlice and parseStringSlice: elements are kept in order up to the first that is not. |
| RespLaws.RequestRoundTrip | anyd/src/gopkg.in/redis.v2/parser.go:19-108 | parseReq gives back the arguments of appendArgs and leaves exactly the following bytes if and only if the request is within the limits of the format; outside of them it fails. |
| RespLaws.RequestRoundTripAnyBuffer | anyd/src/gopkg.in/redis.v2/parser.go:72-108 | With a buffer of 22 bytes or more the only limit is 2^31-1 bytes per argument. |
| RespLaws.ArgRoundTrip | anyd/src/gopkg.in/redis.v2/parser.go:87-106 | An argument is read back exactly when its length fits 32 bits. |
| RespLaws.BatchRoundTrip | anyd/src/gopkg.in/redis.v2/redis.go:15-23 | k commands written together decode to the same k commands and leave the stream just behind them. |
| EndToEnd.OverTheWire | anyd/src/gopkg.in/redis.v2/parser.go:19-108 | The same through the buffered reader: parseReq, called once per command, returns every command for every chunking and buffer size, and leaves what follows. |
| RespLaws.LineFits | anyd/src/gopkg.in/redis.v2/parser.go:35-44 | A CR LF line is read back whole exactly when it fits the buffer. |
| RespLaws.ReplyDecodes | anyd/src/gopkg.in/redis.v2/parser.go:112-188 | For every reply tree, errors and nils at any depth included: the caller is told its meaning and a precisely known part of it stays unread. |
| RespLaws.ElementsDecode | anyd/src/gopkg.in/redis.v2/parser.go:159-188 | The same for the elements of an array, under either array parser. |
| RespLaws.ConsumedExactly | anyd/src/gopkg.in/redis.v2/parser.go:159-188 | A reply is consumed exactly if and only if nothing follows the element that ended the parse, at every depth. |
| RespLaws.CalmIsConsumed | anyd/src/gopkg.in/redis.v2/parser.go:159-172 | Without an error inside an array parseSlice consumes exactly one reply, and fails at most with the nil error. |
| RespLaws.NilLookalike | anyd/src/gopkg.in/redis.v2/parser.go:112-172 | The error text "redis: nil", and no other, is taken for the nil reply, at the top and as an element. |
| Client.Cmd.ParseReply | anyd/src/gopkg.in/redis.v2/command.go:132-143 | The verdict is that of the reply specification; the fields it sets depend on the kind of command, an old error is cleared by the general command only, and a failed type assertion sets none. |
| Commands.FirstErrorIsLowest | anyd/src/gopkg.in/redis.v2/pipeline.go:81-90 | The error reported for a batch is that of the failing command with the lowest index. |
| Commands.BatchAligned | anyd/src/gopkg.in/redis.v2/pipeline.go:75-91 | Whatever earlier commands failed with, command i gets reply i and the stream ends just behind the last reply. |
| Commands.MisalignedAfter | anyd/src/gopkg.in/redis.v2/pipeline.go:81-90 | After a reply that was not read to its end the next command parses the unread part of it instead of its own reply; this happens exactly when an element follows the one that ended the parse. |
| Commands.AnotherCommandsReply | anyd/src/gopkg.in/redis.v2/parser.go:162-166 | A run in which it happens: an array beginning with an error, after which an integer command is told an element of that array. |
| Transactions.StatusesRead | anyd/src/gopkg.in/redis.v2/multi.go:95-106 | n+1 statuses are skipped, no more. |
| Transactions.TransactionAligned | anyd/src/gopkg.in/redis.v2/multi.go:88-138 | With n queued statuses and an array of n replies user command i gets element i and the stream is consumed exactly. |
| Transactions.TransactionAborted | anyd/src/gopkg.in/redis.v2/multi.go:119-122 | A nil array marks every command as failed and is consumed exactly. |
| Transactions.RefusedInQueue | anyd/src/gopkg.in/redis.v2/multi.go:101-106 | A command refused while it is queued ends the transaction at once: everything after the refusal, the answer to EXEC included, stays unread. |
| Client.WriteCmd | anyd/src/gopkg.in/redis.v2/redis.go:15-23 | One write with the encodings of the whole batch in order, or a beginning of them if it fails. |
| Client.SetCmdsErr | anyd/src/gopkg.in/redis.v2/command.go:41-45 | Every command gets the error, nothing else in it changes. |
| Client.ReadReplies | anyd/src/gopkg.in/redis.v2/pipeline.go:81-90 | Each command records the verdict on its reply, up to a panic; the first error is returned. |
| Client.ExecPipeline | anyd/src/gopkg.in/redis.v2/pipeline.go:75-91 | An exchange on the connection: the verdicts and what is left are what the reply specification makes of everything under way, failing reads included; a failed write is the error of every command. |
| Client.Pipeline | anyd/src/gopkg.in/redis.v2/pipeline.go:48-73 | Always an exchange, with the fields of the commands and the fate of the connection that follow from it. On a connection in step whose answer arrives before a read fails every command has its own reply, the first error is returned, and the connection goes back in step. |
| Client.ReadQueued | anyd/src/gopkg.in/redis.v2/multi.go:101-106 | Reads k statuses with one command object, up to the first failure. |
| Client.ReadTransaction | anyd/src/gopkg.in/redis.v2/multi.go:101-138 | The outcome of the transaction specification shows in the commands and in the stream. |
| Client.ExecMulti | anyd/src/gopkg.in/redis.v2/multi.go:88-138 | MULTI, the commands and EXEC are sent, and the outcome of the transaction specification on everything under way shows in the commands. |
| Client.Multi | anyd/src/gopkg.in/redis.v2/multi.go:58-86 | Always an exchange of a transaction; the Multi keeps the connection when there is no error, however much is buffered, or a redis error with nothing buffered, or a panic, and otherwise it is closed. On a connection in step whose answer arrives before a read fails a committed or aborted transaction is told as the server meant it, and the connection stays in step. |
| Client.Conn.FreeConn | anyd/src/gopkg.in/redis.v2/redis.go:72-80 | A connection with unread data or an error that is not a redis error is closed, any other goes back to the pool. |
| Client.Conn.Put | anyd/src/gopkg.in/redis.v2/pool.go:193-208 | A connection with unread data is closed instead of pooled. |
| Client.Run | anyd/src/gopkg.in/redis.v2/redis.go:102-133 | Always an exchange of a batch of one, with the fields and the fate that follow; on a connection in step whose answer arrives before a read fails the command is told exactly its own reply and leaves the connection in step. |
| Client.HiddenFault | anyd/src/gopkg.in/redis.v2/pipeline.go:48-91 | A run of Pipeline on a new connection: the first of two commands is answered with an error, then reads fail; the error of the first command is returned, the connection goes back to the pool, and the reply to the second is still to come. |
| Client.HalfANumberTold | anyd/src/gopkg.in/redis.v2/redis.go:102-133 | A run of Run on a new connection: a read fails behind the first digit of the reply 12; the command holds 1 and no error, the connection goes back to the pool, and the rest of the reply is still to come. |
| Exchange.ServedInStep | anyd/src/gopkg.in/redis.v2/pipeline.go:75-91 | A served batch is read to exactly the end of its answer and every command is told what the server meant for it, whatever follows. |
| CutReplies.CutReply | anyd/src/gopkg.in/redis.v2/parser.go:112-188 | A reply that suits its reader and is cut off anywhere by a failed read, with nothing arriving for a while, is used up, together with that failure; at most one further read fails. |
| CutReplies.CutTells | anyd/src/gopkg.in/redis.v2/parser.go:112-188 | What the caller of a reply that is cut off anywhere is told, for every kind of reply: a shorter text or error, a smaller number; the nil error once the number of a nil is there; of a bulk always a failure; of an array what its elements up to the cut decide. |
| CutReplies.NoticedReply | anyd/src/gopkg.in/redis.v2/parser.go:130-143 | A cut in front of a reply, or in the body of a bulk, also inside an array, is told as the failed read, whatever arrives afterwards. |
| CutReplies.CutNoPanic | anyd/src/gopkg.in/redis.v2/parser.go:159-188 | A cut makes no reply panic that does not panic as a whole. |
| Faults.CutBatch | anyd/src/gopkg.in/redis.v2/pipeline.go:75-91 | When reply k of a pipeline is cut off and nothing more arrives, the commands before it are told their own replies, command k what the cut reply says, and those behind it time out. |
| Faults.EveryPlace | anyd/src/gopkg.in/redis.v2/multi.go:88-138 | Every point short of the end of an answer, of a pipeline or a transaction, is one of the places told apart. |
| Faults.CutExchange | anyd/src/gopkg.in/redis.v2/pipeline.go:75-91 | A batch whose answer is cut off at any place uses up all that came, does not panic, and its connection goes back to the pool if and only if the place poisons it: the first failure among the replies before it is a redis error, or there is none and the cut reply says such an error or completes the batch; in a transaction only there, or right before the line end of the nil array. The condition is on the replies and the place. |
| Faults.FaultShows | anyd/src/gopkg.in/redis.v2/multi.go:88-138 | A read that fails in front of a status or of the line that answers EXEC, or, with no redis error before it, in front of a reply, in the body of a bulk, or behind another failure, is the failure of the batch and keeps its connection from the pool, whatever arrives afterwards. |
| Faults.ShiftedReplies | anyd/src/gopkg.in/redis.v2/pipeline.go:81-90 | When a read fails once behind k replies and the others then arrive after all, the commands before it are told their own replies, the next one times out, each further one is told the reply to the one before it, and the last reply stays owed. |
| Faults.ToldThere | anyd/src/gopkg.in/redis.v2/pipeline.go:81-90 | What command j of a batch is told is what it makes of the tape as the commands before it leave it. |
| Faults.CrossTalkExactlyWhen | anyd/src/gopkg.in/redis.v2/pipeline.go:81-90 | When the rest of the answer arrives after such a fault, some command is told the reply to another one if and only if the read that failed was not the one for the last reply. |
| Faults.TornLineEnd | anyd/src/gopkg.in/redis.v2/parser.go:112-127 | A status whose line end is torn apart by a failed read is told with its CR, and the next command of the batch panics on the empty line that is left. |
| Pool.CapacityKept | anyd/src/gopkg.in/redis.v2/pool.go:119-219 | Every atomic step keeps the counter equal to idle, held and dialled connections plus reservations in flight plus connections dropped after close, and those connections within the pool size. |
| Pool.OwnershipKept | anyd/src/gopkg.in/redis.v2/pool.go:119-219 | Every step keeps each connection with at most one owner, in the channel at most once, and not in both. |
| Pool.PoolIsSafe | anyd/src/gopkg.in/redis.v2/pool.go:119-219 | Both in every state of every run with any number of callers. |
| Pool.SendNeverBlocks | anyd/src/gopkg.in/redis.v2/pool.go:193-208 | The channel send of Put always finds room. |
| Pool.InStepKept | anyd/src/gopkg.in/redis.v2/redis.go:72-133 | A fair step keeps every connection that could still be handed out in step with its server. |
| Pool.PoolStaysInStep | anyd/src/gopkg.in/redis.v2/redis.go:72-133 | In every run in which batches are served, a read that fails before the whole answer has come is the failure of its batch, and no Multi goes on after a panic, every idle connection has consumed exactly the replies it was sent. |
| Pool.ShownIsFair | anyd/src/gopkg.in/redis.v2/redis.go:72-92 | Said of the answer alone: a batch that is served is such a step when its answer comes as a whole, or is cut off where Faults.FaultShows notices it whatever follows, or is cut off anywhere that does not poison the connection with silence behind it. |
| Pool.NoCrossTalk | anyd/src/gopkg.in/redis.v2/pipeline.go:48-91 | In such a run a batch whose answer arrives before a read fails is told exactly its own replies. |
| Pool.PoisonedExactlyWhen | anyd/src/gopkg.in/redis.v2/redis.go:72-92 | A served batch whose answer is cut off anywhere, with silence behind it, puts its connection back out of step, or leaves it out of step with the Multi that keeps it, if and only if that place, and what the commands before it were told, poison it. |
| Pool.HiddenFault | anyd/src/gopkg.in/redis.v2/pipeline.go:81-90 | From every state in which a caller holds a connection: an error reply, then silence, and the pool is out of step, one reply owed. |
| Pool.OwedReplyIsTold | anyd/src/gopkg.in/redis.v2/redis.go:102-133 | The next command on a connection that owes a reply is told that reply, and its own is owed in turn. |
| RateLimiter.GrantsAreBounded | anyd/src/gopkg.in/redis.v2/rate_limit.go:22-44 | Under every interleaving 0 <= v <= bucket size, v is bucket size plus refills minus grants, and so grants never exceed bucket size plus refills. |
| LexMachine.StepKeeps | anyd/src/github.com/BurntSushi/toml/lex.go:182-797 | Whatever it reads, a step keeps the stack, the pending text and the items emitted in agreement with the token grammar, emits at most two items, sound before the first error, and consumes input, lowers its rank or spins at the end of a multi-line string. |
| LexMachine.RunKeeps | anyd/src/github.com/BurntSushi/toml/lex.go:77-86 | The same in every state of every run: the parser is never handed an item it does not expect, a key is trimmed and free of key terminators, a name in a header is not empty and has no dot in it, an integer is all digits. |
| LexMachine.RunEnds | anyd/src/github.com/BurntSushi/toml/lex.go:77-86 | Without three equal quotes in a row every run ends, with the end of the text or with an error. |
| LexHalting.HaltsExactly | anyd/src/github.com/BurntSushi/toml/lex.go:77-86 | Lexing a text ends if and only if no value in it opens a multi-line string that nothing in the rest of the text closes: no three apostrophes, or no three quotes but those escapes reach over, and no escape that is none. |
| LexHalting.UnclosedPlainly | anyd/src/github.com/BurntSushi/toml/lex.go:554-620 | Where there are no escapes that is to say that no closing quotes follow. |
| LexHalting.UnclosedSpins | anyd/src/github.com/BurntSushi/toml/lex.go:554-577 | A text whose multi-line string is not closed: its lexing never ends. |
| TomlLexer.Lexer.constructor | anyd/src/github.com/BurntSushi/toml/lex.go:88-97 | The text with a newline appended, at line 1, in the top state, nothing pending. |
| TomlLexer.Lexer.Emit | anyd/src/github.com/BurntSushi/toml/lex.go:116-119 | The pending text goes out as one item, and nothing is pending. |
| TomlLexer.Lexer.EmitTrim | anyd/src/github.com/BurntSushi/toml/lex.go:121-124 | The same, with the white space around the text removed. |
| TomlLexer.Lexer.Errorf | anyd/src/github.com/BurntSushi/toml/lex.go:172-179 | An error item and the nil state. |
| TomlLexer.Lexer.Next | anyd/src/github.com/BurntSushi/toml/lex.go:126-138 | One character on, or the end of input; the line number stays 1 plus the newlines passed. |
| TomlLexer.Lexer.Backup | anyd/src/github.com/BurntSushi/toml/lex.go:146-151 | Undoes the last step of one character, line number included. |
| TomlLexer.Lexer.Accepts | anyd/src/github.com/BurntSushi/toml/lex.go:154-160 | Consumes the next character exactly if it is the one wanted. |
| TomlLexer.Lexer.Pop | anyd/src/github.com/BurntSushi/toml/lex.go:103-110 | Takes the last return state; never called on an empty stack. |
| TomlLexer.Lexer.LexTop | anyd/src/github.com/BurntSushi/toml/lex.go:182-207 | White space is skipped, # starts a comment, [ a header, the end of the text ends the run; anything else is left for a key, with lexTopEnd to return to. |
| TomlLexer.Lexer.LexTopEnd | anyd/src/github.com/BurntSushi/toml/lex.go:212-230 | Only white space, a comment or a line end may follow an item; a line end and the end of the text go back to the top with nothing pending. |
| TomlLexer.Lexer.LexTableStart | anyd/src/github.com/BurntSushi/toml/lex.go:237-247 | [[ and [ are told apart and emitted, and the matching closing state is pushed. |
| TomlLexer.Lexer.LexTableEnd | anyd/src/github.com/BurntSushi/toml/lex.go:249-252 | The end of a header is emitted with its ]. |
| TomlLexer.Lexer.LexArrayTableEnd | anyd/src/github.com/BurntSushi/toml/lex.go:254-261 | The second ] is required, and then the end of the header emitted. |
| TomlLexer.Lexer.LexTableNameStart | anyd/src/github.com/BurntSushi/toml/lex.go:263-273 | A name does not start with ], a dot or the end of the text. |
| TomlLexer.Lexer.LexTableName | anyd/src/github.com/BurntSushi/toml/lex.go:277-296 | A name runs up to ] or a dot and is emitted; [ and the end of the text are errors; behind a dot another name starts, behind ] the header ends. |
| TomlLexer.Lexer.LexKeyStart | anyd/src/github.com/BurntSushi/toml/lex.go:300-314 | The start of a key is emitted with its first character pending; an equals sign is an error; the branch for white space is dead. |
| TomlLexer.Lexer.LexKey | anyd/src/github.com/BurntSushi/toml/lex.go:318-344 | A key runs up to an equals sign or a line end and is emitted without the white space around it; # in it is an error. |
| TomlLexer.Lexer.LexKeyEnd | anyd/src/github.com/BurntSushi/toml/lex.go:348-355 | Behind a key there must be an equals sign; a value follows. |
| TomlLexer.Lexer.LexValue | anyd/src/github.com/BurntSushi/toml/lex.go:360-410 | The first character, or the first three, decide the kind of value; the opening quotes are not part of the text. |
| TomlLexer.Lexer.LexArrayValue | anyd/src/github.com/BurntSushi/toml/lex.go:414-432 | White space and comments may precede a value; a comma in its place is an error; ] ends the array; a value returns to lexArrayValueEnd. |
| TomlLexer.Lexer.LexArrayValueEnd | anyd/src/github.com/BurntSushi/toml/lex.go:436-452 | Behind a value only white space, comments, one comma or ]. |
| TomlLexer.Lexer.LexArrayEnd | anyd/src/github.com/BurntSushi/toml/lex.go:456-460 | The end of the array is emitted, and the enclosing state returned to. |
| TomlLexer.Lexer.LexString | anyd/src/github.com/BurntSushi/toml/lex.go:464-479 | A string runs up to its quote and is emitted without it; a line end is an error; a backslash starts an escape. |
| TomlLexer.Lexer.LexStringEscape | anyd/src/github.com/BurntSushi/toml/lex.go:483-485 | Escapes of a basic string, back to it or on to its four digits. |
| TomlLexer.Lexer.EscapeHandler | anyd/src/github.com/BurntSushi/toml/lex.go:500-525 | Eight letters are escapes, u asks for digits, anything else is an error. |
| TomlLexer.Lexer.LexStringUnicode | anyd/src/github.com/BurntSushi/toml/lex.go:529-531 | Four digits, then back to the basic string. |
| TomlLexer.Lexer.UnicodeHandler | anyd/src/github.com/BurntSushi/toml/lex.go:539-550 | Exactly four hexadecimal digits; the first other character is an error. |
| TomlLexer.Lexer.LexMultilineString | anyd/src/github.com/BurntSushi/toml/lex.go:554-577 | Runs up to three quotes and is emitted without them; at the end of the text it stays where it is. |
| TomlLexer.Lexer.LexMultilineStringEscape | anyd/src/github.com/BurntSushi/toml/lex.go:489-498 | An escaped line end takes the next character with it; other escapes as in a basic string. |
| TomlLexer.Lexer.LexMultilineStringUnicode | anyd/src/github.com/BurntSushi/toml/lex.go:535-537 | Four digits, then back to the multi-line string. |
| TomlLexer.Lexer.LexRawString | anyd/src/github.com/BurntSushi/toml/lex.go:581-594 | Runs up to its quote and is emitted without it; a line end is an error; nothing is escaped. |
| TomlLexer.Lexer.LexMultilineRawString | anyd/src/github.com/BurntSushi/toml/lex.go:599-620 | Runs up to three apostrophes and is emitted without them; at the end of the text it stays where it is. |
| TomlLexer.Lexer.LexNumberOrDateStart | anyd/src/github.com/BurntSushi/toml/lex.go:624-634 | A digit is required. |
| TomlLexer.Lexer.LexNumberOrDate | anyd/src/github.com/BurntSushi/toml/lex.go:637-654 | Digits run on; - behind exactly four of them starts a date, a dot a fraction, anything else ends an integer, which is emitted. |
| TomlLexer.Lexer.LexDateAfterYear | anyd/src/github.com/BurntSushi/toml/lex.go:658-681 | The rest of a date matches the fixed pattern character by character and the date is emitted; the first mismatch is an error. |
| TomlLexer.Lexer.LexNumberStart | anyd/src/github.com/BurntSushi/toml/lex.go:686-697 | Behind a minus sign a digit is required. |
| TomlLexer.Lexer.LexNumber | anyd/src/github.com/BurntSushi/toml/lex.go:700-712 | Digits run on; a dot starts a fraction, anything else ends an integer, which is emitted. |
| TomlLexer.Lexer.LexFloatStart | anyd/src/github.com/BurntSushi/toml/lex.go:716-723 | Behind the dot a digit is required. |
| TomlLexer.Lexer.LexFloat | anyd/src/github.com/BurntSushi/toml/lex.go:727-736 | Digits run on, anything else ends the float, which is emitted. |
| TomlLexer.Lexer.LexConst | anyd/src/github.com/BurntSushi/toml/lex.go:740-748 | Stops at the first character that differs; a mismatch emits an error item, which its caller takes for success. |
| TomlLexer.Lexer.LexTrue | anyd/src/github.com/BurntSushi/toml/lex.go:752-758 | What was read in place of true is emitted as a boolean, behind an error item if it differs. |
| TomlLexer.Lexer.LexFalse | anyd/src/github.com/BurntSushi/toml/lex.go:762-768 | What was read in place of false is emitted as a boolean, behind an error item if it differs. |
| TomlLexer.Lexer.LexCommentStart | anyd/src/github.com/BurntSushi/toml/lex.go:772-776 | The start of a comment is emitted and nothing consumed. |
| TomlLexer.Lexer.LexComment | anyd/src/github.com/BurntSushi/toml/lex.go:781-789 | A comment runs up to the line end, which is left, and is emitted. |
| TomlLexer.Lexer.LexSkip | anyd/src/github.com/BurntSushi/toml/lex.go:792-797 | What was read is dropped, and the given state is next. |
| TomlLexer.Lexer.Step | anyd/src/github.com/BurntSushi/toml/lex.go:77-86 | One state function: the machine of the specification moves with it, and everything StepKeeps promises holds of the object. |
| TomlLexer.Lexer.NextItem | anyd/src/github.com/BurntSushi/toml/lex.go:77-86 | Hands out the next item the grammar expects, or spins, which takes three equal quotes in a row; at most two items are ever pending in the ten-slot channel. |
| StringEscapes.EscapesUndoQuote | anyd/src/github.com/BurntSushi/toml/encode.go:33-39 | replaceEscapes undoes the quoting of every byte string. |
| StringEscapes.QuoteRoundTrip | anyd/src/github.com/BurntSushi/toml/parse.go:384-426 | Decoding the quoted string gives it back if and only if it does not contain backslash u; otherwise decoding crashes or shortens it. |
| StringEscapes.UnicodeNeverGrows | anyd/src/github.com/BurntSushi/toml/parse.go:417-426 | The rewriting loop of replaceUnicode ends because every round shortens the string. |
| StringEscapes.StripEscapedWhitespace | anyd/src/github.com/BurntSushi/toml/parse.go:405-415 | No backslash is left at the end of a line. |
| StringEscapes.StripSplits | anyd/src/github.com/BurntSushi/toml/parse.go:405-415 | What is in front of the first escaped line end is kept, that line end and all white space behind it go, and the rest is treated alike. |
| StringEscapes.StripKeeps | anyd/src/github.com/BurntSushi/toml/parse.go:405-415 | Text without an escaped line end is kept whole. |
| TomlRendering.StringLexes | anyd/src/github.com/BurntSushi/toml/encode.go:205-207 | A quoted string is lexed to one string item holding the text between the quotes, ending just behind the closing quote. |
| TomlReading.DocumentUniform | anyd/src/github.com/BurntSushi/toml/type_check.go:77-91 | Every array that is read holds values of one type, at every depth. |
| TomlReading.ReadingGrows | anyd/src/github.com/BurntSushi/toml/parse.go:99-144 | Reading on only adds statements, and a fault stays. |
| TomlDocument.Parser.Next | anyd/src/github.com/BurntSushi/toml/parse.go:75-81 | The next item, which is one that may come; an error item stops the parse; what has been read grows by exactly this item. |
| TomlDocument.Parser.ExpectText | anyd/src/github.com/BurntSushi/toml/parse.go:87-97 | Only a text item can come here: the BUG branch is dead. |
| TomlDocument.Parser.ParseValue | anyd/src/github.com/BurntSushi/toml/parse.go:148-225 | The recursive reading of a value equals the left-to-right reading of its items; a crash or refusal is explained by a fault in them; the closing BUG branch is dead. |
| TomlDocument.Parser.Primitive | anyd/src/github.com/BurntSushi/toml/parse.go:150-205 | Each value of one item; the BUG branch for a boolean is dead. |
| TomlDocument.Parser.IntegerValue | anyd/src/github.com/BurntSushi/toml/parse.go:168-183 | Only the range can be wrong: the BUG branch is dead. |
| TomlDocument.Parser.ParseArray | anyd/src/github.com/BurntSushi/toml/parse.go:206-222 | The elements in order up to the end of the array, refused if their types are mixed. |
| TomlDocument.Parser.MixedTypes | anyd/src/github.com/BurntSushi/toml/type_check.go:77-91 | Whether some element has another type than the first. |
| TomlDocument.Parser.ParseNames | anyd/src/github.com/BurntSushi/toml/parse.go:104-111 | The names of a header up to the matching end: the BUG branch is dead. |
| TomlDocument.Parser.TopLevel | anyd/src/github.com/BurntSushi/toml/parse.go:99-144 | One statement: read, and put into the tables as establishContext and setValue do, or a reason to stop; the default BUG branch is dead. |
| TomlDocument.Parser.ReadPair | anyd/src/github.com/BurntSushi/toml/parse.go:128-136 | A key and its value are what the items say. |
| TomlDocument.Parser.Parse | anyd/src/github.com/BurntSushi/toml/parse.go:40-67 | Accepted means read to the end of the text, with the tables those the statements build; a refusal, and the BUG branch of setValue, come exactly where building refuses or fails; any other outcome is explained by the items read. |
| TomlDocument.ParseText | anyd/src/github.com/BurntSushi/toml/parse.go:40-67 | The same for every text; the outcome is the one its statements decide, what is accepted holds what they say, and the BUG branch takes an array of tables and a header of the exact kind. |
| TomlTables.PutKind | anyd/src/github.com/BurntSushi/toml/parse.go:292-339 | Writing an entry changes what stands at its own path, clears what stood below it, and keeps everything else, the closed elements of every other array of tables included. |
| TomlTables.DottedInjective | anyd/src/github.com/BurntSushi/toml/parse.go:358-371 | On names without dots the dotted string determines the path, so marks cannot collide. |
| TomlParser.Builder.EnterTable | anyd/src/github.com/BurntSushi/toml/parse.go:241-270 | A missing table on the way is made and marked, and nothing else changes; only a value in the way is refused. |
| TomlParser.Builder.EstablishContext | anyd/src/github.com/BurntSushi/toml/parse.go:233-287 | As the function from state to state that makes the tables on the way and defines the last name, for tables and for arrays of tables; accepted, the header becomes the context. |
| TomlParser.Builder.AppendTable | anyd/src/github.com/BurntSushi/toml/parse.go:273-282 | One empty element more, the last closed as it is, everything else kept; refused exactly when a value or a table has the name. |
| TomlParser.Builder.SetValue | anyd/src/github.com/BurntSushi/toml/parse.go:292-339 | A new key is found with its value and nothing else changes; a marked one loses its mark and the given value is ignored; any other is refused; a context that names a value is the BUG branch. |
| TomlParser.Builder.DefineKey | anyd/src/github.com/BurntSushi/toml/parse.go:128-141 | As the function that applies a key/value statement: outcome, tables, marks, context and the list of paths. |
| TomlParser.Builder.DefineTable | anyd/src/github.com/BurntSushi/toml/parse.go:101-127 | As the function that applies a header; never the BUG branch. |
| TomlBuild.Agreement | anyd/src/github.com/BurntSushi/toml/parse.go:233-339 | For every document, arrays of tables and dots included: it is accepted, refused or runs into the BUG branch exactly as its statements alone decide, and then the tables hold at every path what the statements say, the marks, the context and the list of paths are theirs, and nothing else is there. |
| TomlClashes.ValuesExactly | anyd/src/github.com/BurntSushi/toml/parse.go:292-339 | A path has a value if and only if some statement gives it: nothing stood there then, and no array of tables it goes through has started a new element since. |
| TomlClashes.MarkedExactly | anyd/src/github.com/BurntSushi/toml/parse.go:357-371 | A mark stands if and only if a header has set it and no statement has taken it away since. |
| TomlClashes.ClosedStay | anyd/src/github.com/BurntSushi/toml/parse.go:273-282 | The elements of an array of tables that are closed stay as they are; a new element closes the last as it is. |
| TomlClashes.HeadersSplit | anyd/src/github.com/BurntSushi/toml/lex.go:263-296 | In the statements of any text no header is empty and no name in a header has a dot. |
| TomlClashes.DefinedExactly | anyd/src/github.com/BurntSushi/toml/parse.go:315-338 | Without arrays of tables and dots, the paths that have been defined are exactly those that stand without a mark. |
| TomlClashes.DefinedOnce | anyd/src/github.com/BurntSushi/toml/parse.go:289-339 | There a further statement is refused if and only if its path has been defined before, or a value stands in the way of its header. |
| TomlClashes.AllDifferent | anyd/src/github.com/BurntSushi/toml/parse.go:289-339 | So the paths of an accepted document are all different. |
| TomlClashes.SecondDefinition | anyd/src/github.com/BurntSushi/toml/parse.go:317-336 | In any document a second definition of a path is refused if and only if no mark stands by its dotted name. |
| TomlClashes.TwiceAccepted | anyd/src/github.com/BurntSushi/toml/parse.go:317-336 | A key with a dot in it is mistaken for an implied table of the same dotted name: its second value is accepted and dropped. |
| TomlClashes.ValueDropped | anyd/src/github.com/BurntSushi/toml/parse.go:317-331 | A value whose key names a table that a deeper header has implied is accepted and dropped. |
| TomlClashes.BugExactly | anyd/src/github.com/BurntSushi/toml/parse.go:296-314 | A document ends in the BUG branch if and only if some table header names a value that carries a mark, with no value in its way, and a key follows it. |
| TomlClashes.NoArraysNoBug | anyd/src/github.com/BurntSushi/toml/parse.go:296-314 | Without arrays of tables it never does. |
| TomlClashes.LostTable | anyd/src/github.com/BurntSushi/toml/parse.go:233-339 | A document that does: a mark outlives the element of the array it was made in. |
| TomlRendering.ValueLexes | anyd/src/github.com/BurntSushi/toml/encode.go:156-220 | Every string, boolean, integer and array the encoder writes is lexed to its own items, at any nesting. |
| TomlRendering.StmtLexes | anyd/src/github.com/BurntSushi/toml/encode.go:439-447 | So is every key/value line and every header. |
| TomlRendering.HeaderLexes | anyd/src/github.com/BurntSushi/toml/encode.go:239-251 | A table header is lexed to its names and the matching end. |
| TomlRendering.ArrayHeaderLexes | anyd/src/github.com/BurntSushi/toml/encode.go:222-237 | So is the header of an array of tables. |
| TomlRendering.DocLexes | anyd/src/github.com/BurntSushi/toml/encode.go:264-295 | A whole encoded document, with any blank lines and indentation, is lexed to exactly its items and the end of the text. |
| TomlRendering.KeyComesBack | anyd/src/github.com/BurntSushi/toml/encode.go:482-515 | The encoder accepts every key that is not empty; its line is lexed back exactly if and only if the key has no white space around it, none of the characters that end keys in it, and begins neither a header nor with a NUL. |
| TomlRoundTrip.ValueReads | anyd/src/github.com/BurntSushi/toml/parse.go:148-225 | The items of a value are read as that value. |
| TomlRoundTrip.DocReads | anyd/src/github.com/BurntSushi/toml/parse.go:99-144 | The items of an encoded document are read as its statements, and nothing is wrong with them. |
| TomlRoundTrip.NothingElse | anyd/src/github.com/BurntSushi/toml/lex.go:77-86 | However far the lexer has come in an encoded document, what it has handed out is the beginning of the document and says the first of its statements. |
| TomlRoundTrip.ParseRendered | anyd/src/github.com/BurntSushi/toml/parse.go:40-67 | Parsing what the encoder writes gives exactly the outcome and the tables that building the written statements gives: only a statement that clashes with earlier ones is refused, and exactly those are; accepted, the tables hold exactly what was written; without arrays of tables the BUG branch is out of reach. |
| TomlRoundTrip.ParseLost | anyd/src/github.com/BurntSushi/toml/parse.go:40-67 | A text of six lines that ends in the BUG branch. |
| TomlRoundTrip.ParseTwice | anyd/src/github.com/BurntSushi/toml/parse.go:40-67 | A text of four lines that defines a key twice and is accepted with the first value. |
| FieldDominance.StrictWeakOrder | anyd/src/github.com/BurntSushi/toml/type_fields.go:32-62 | Both orders are irreflexive, asymmetric, transitive, and so is being unordered. |
| FieldDominance.IndexLess | anyd/src/github.com/BurntSushi/toml/type_fields.go:52-62 | The loop decides lexicographic order. |
| TypeFields.Scan | anyd/src/github.com/BurntSushi/toml/type_fields.go:98-143 | One struct: its fields are recorded, twice if it is ambiguous; what it embeds is queued and counted. |
| TypeFields.Collect | anyd/src/github.com/BurntSushi/toml/type_fields.go:67-145 | The walk ends on every graph, circular ones included, visits every reachable struct once by a shortest path, and flags those the level above embeds repeatedly. |
| FieldDominance.DominantField | anyd/src/github.com/BurntSushi/toml/type_fields.go:181-211 | The one field that hides all others of its name, or none exactly when there is no such field. |
| FieldDominance.Filter | anyd/src/github.com/BurntSushi/toml/type_fields.go:147-170 | In place: exactly the winners of their names survive, one per name. |
| FieldDominance.Visible | anyd/src/github.com/BurntSushi/toml/type_fields.go:67-173 | The result is exactly the recorded fields that dominate their name, in index order, with different names. |
| FieldAmbiguity.AmbiguousExactlyWhen | anyd/src/github.com/BurntSushi/toml/type_fields.go:123-141 | A struct reached by two shortest paths is one the walk flags, or one embedded by such a struct, which the walk does not notice. |
| FieldAmbiguity.FlagsRightExactlyWhen | anyd/src/github.com/BurntSushi/toml/type_fields.go:123-141 | The flags are right for every struct exactly when no struct owes its only embedding to a flagged one. |
| FieldAmbiguity.ConflictMissed | anyd/src/github.com/BurntSushi/toml/type_fields.go:123-141 | A diamond with a tail: two shortest paths lead to the last struct, and it is not flagged. |
| FieldAmbiguity.AmbiguousFieldShown | anyd/src/github.com/BurntSushi/toml/type_fields.go:123-163 | typeFields on that diamond: the one field it returns is the field of that ambiguous struct. |

## Left out

- Bufio.Reader.constructor: `NewReaderSize` hands back a reader it is given when its buffer is large enough; here every reader is new.
- Bufio.Reader.ReadLine: once a hundred empty reads have been given up on, or a source has reported a failure along with the last bytes of a direct read, its result is only bounded; `Bufio.Reader` also leaves out `Reset`, runes, `WriteTo` and the aliasing of returned slices with the buffer.
- BufferedWriter.Writer.constructor: `NewWriterSize` hands back a writer it is given when its buffer is large enough; here every writer is new.
- BufferedWriter.Writer.Write: runes, `ReadFrom` and `Reset` of the writer are not modelled.
- GrowBuffer.Buffer.GrowBy: running out of memory is not modelled, nor `ReadFrom`, `WriteTo` and runes of the buffer.
- RespParser.ReadN: the allocation of huge values cannot fail in the model.
- RespParser.ParseMultiBulk: the boolean, map and sorted-set parsers repeat the same loop and are left out, as are the float, duration, boolean and scan commands.
- Client.Cmd.ParseReply: error texts pass through `Sprintf` in the source; the model keeps the text the server sent.
- Client.Conn.Put: the branch for a closed pool and the counter are in `Pool`, where the calls of `Put` run interleaved.
- Client.Pipeline: the closed flag, `Discard` and the choice of a connection are left out; `Client` works on a connection it is given, `Pool` says who is given which. The connection is a socket: it never returns nothing without an error, nor bytes along with a failure.
- Client.WriteCmd: deadlines are left out; a write either succeeds or fails after some of its bytes, and a read fails wherever the tape says.
- Client.Multi: taking the first connection, the closed flag of the pool of one, `Watch` and `Discard` are left out.
- Exchange.ServedInStep: where the bytes at hand are exactly one buffer without a newline an exchange promises nothing; a served answer never gets there.
- Faults.CutExchange: nothing more arrives while the batch is read; when it does, `Faults.FaultShows`, `Faults.ShiftedReplies` and `Faults.CrossTalkExactlyWhen` say what is lost, but not every way in which the rest may be misread.
- Pool.PoolIsSafe: the pool is a state machine over values, not a class, since its methods run interleaved; sockets, idle clocks, the rate limiter's verdict and log output are free choices; `initConn` (no password, database 0), `Filter` and closing the connections a closed pool still finds held are left out.
- Pool.PoolStaysInStep: the pool of one connection that `Multi` keeps appears as the step that keeps a connection between batches, and giving it back as another; that nobody goes on using a `Multi` whose batch panicked is a condition on the callers.
- RateLimiter.GrantsAreBounded: time is left out; a refill may happen at any moment.
- LexMachine.StepKeeps: the text of error items is left out, and a character is a byte, which is what the source does on ASCII text; multi-byte characters, and a second step back over one of another width, are not modelled.
- TomlDocument.Parser.ParseValue: floats and dates keep the text they were written in; `ParseFloat`'s range error and the BUG branch for impossible dates are not modelled.
- TomlDocument.Parser.Primitive: so the branches of floats and dates that can fail are absent.
- TomlDocument.Parser.Parse: the types recorded by `setType` and the approximate line numbers are left out.
- TomlParser.Builder.EstablishContext: tables are nested values and the table at a path is replaced on the way back up, where the source changes shared maps in place.
- TomlRoundTrip.ParseRendered: floats and dates are not written.
- TomlRendering.DocLexes: which statements the encoder writes for a Go value, and in which order, is left out, as are `decode.go` and everything that needs reflection.
- TypeFields.Collect: types are numbers in a graph given beforehand instead of being asked for by reflection.
- FieldDominance.Visible: `sort.Sort` is an insertion sort here; of it only the order and the elements are used.
- The services themselves, `commands.go`, `script.go`, `pubsub.go` and `sentinel.go` are thin layers over what is modelled and would only add easy members.
