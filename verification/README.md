# libattachsql, modelled in Dafny

libattachsql is a non-blocking client library for MySQL servers. This project models the parts of it in which the hard
logic sits, and proves what they are for:

| files | what they model |
|---|---|
| `Fips180.dfy`, `Sha1Block.dfy`, `Sha1.dfy`, `Scramble.dfy` | SHA-1 (`src/sha1.cc`) against FIPS 180-4, and the password reply |
| `Options.dfy`, `Arithmetic.dfy`, `Bytes.dfy`, `Pack.dfy`, `Types.dfy`, `Rows.dfy`, `BinaryValues.dfy` | integers, lengths, strings, dates, NULL bitmaps, text and binary rows |
| `Execute.dfy`, `ExecuteProofs.dfy`, `Documented.dfy`, `Binding.dfy` | bound parameters, the execute packet, the layout the code intends for it and the documented one |
| `Literals.dfy`, `Query.dfy`, `Templates.dfy`, `Statements.dfy` | placeholders, escaping, and a server's reading of the statement |
| `Buffers.dfy`, `Protocol.dfy`, `Connection.dfy`, `Application.dfy` | the read buffer, the connection as a state machine, the object that runs it, and an application that drives the object |
| `Safety.dfy`, `Chunking.dfy`, `History.dfy`, `Results.dfy`, `Answers.dfy`, `Cells.dfy`, `Preparing.dfy`, `Commands.dfy`, `Login.dfy`, `Limits.dfy` | what all runs keep and what they can reach, and whole answers of a server |

Code that changes things in place is modelled by classes and by methods on arrays. Each of these methods is proved equal to a
function of the old state (`Compress`, `Sha1`, `Rendered`, `Packet`, `Process`, ...), and the theorems are about those
functions. For the connection the functions know no capacity; that the object can be taken through a run is proved for the
runs in which, between two moments at which all that came has been used up, at most half of the initial buffer arrives
(`Application.RunAll`). Within them no buffer and no stack is too small.

Where the code keeps a promise only in part, the theorem is an equivalence. The conditions found:

- `SHA1Update` leaves its loop exactly if the buffered bytes and the new ones together are fewer than 2^32 (`UpdateLimit`).
- A time is sent exactly unless an hour or a sign stands alone; a datetime exactly if it is not negative and its day is below
  256 (`TimeRoundTrip`, `DateTimeRoundTrip`).
- The execute packet leaves out the types of NULL parameters, which the protocol documentation asks for. A reader of the
  documented layout finds what was bound, in whatever memory the packet was built, exactly if no parameter is NULL and no
  value loses anything in its encoding (`DocumentedExact`). From the setters on this means: exactly if every parameter was
  last set to a value, and none to a time of nothing but hours or a sign (`SettersToServer`); five o'clock arrives as
  midnight. Without parameters the packet is one byte too long (`NoParameters`). In the layout the code intends, with types for
  the other parameters only, the packet holds what was bound exactly if no NULL comes before a value and no value loses
  anything (`ExecuteExact`, `SettersAsIntended`).
- A bigint parameter is sent as its value exactly if its sign bit is clear (`NumberSent`): the two formats are swapped.
- Data inside a literal and not behind a backslash is read back exactly if the quotes around it are single, backslash escapes
  are on, or it contains no quote (`LikeExact`). Behind a backslash of the template it is exactly if its first byte that is not
  a backslash is neither escaped nor one of `0bnrtZ%_` (`BehindBackslashExact`).
- Data is escaped in the mode of the last status that was dispatched since the last command or next result, and with
  backslashes if there was none (`ModeOverRun`): so it is before the connection is made and after every command that failed.
  A server without backslash escapes then reads it right exactly if there was nothing to escape (`ModeAfterError`,
  `WrongMode`). Where some status has been dispatched, a server of that mode reads the whole statement as meant
  (`QueryReadAsMeant`).
- The size of the first pass always suffices, and it is exact for the longest ints only (`SizeSuffices`, `SizeTight`).
- The space the read buffer reports is there exactly while read offset plus used bytes fit the buffer; the branch that moves
  the data is taken only where the move reads beyond the buffer (`AvailableExact`, `ShiftExact`). A run of three operations
  gets there (`OverrunReachable`).
- The assertion in `attachsql_connect_poll` fails after a row was fetched exactly if the next packet was not yet there, or not
  in sequence (`AssertExact`), as it happens in ordinary runs (`AssertReachable`); and it fails after a command whose write
  fails at once (`SendFailureAsserts`). As long as both are avoided, no poll runs into it (`PatientRun`).
- A wrong sequence number while the connection is busy is never reported: as long as no read or write fails, every later poll
  says that the command goes on (`WrongNumberHangs`).
- Where a response is expected, in every run, an error packet ends the command: the connection is failed exactly if the packet
  is the first one after `next_result` or answers the handshake response, and idle otherwise (`ErrorExact`). In the place of a
  definition an error packet is counted as a definition, and no error is reported (`ErrorAsDefinition`); in the place of a row
  it is handed over as a row (`RowExact`).
- In every run a column definition is written to a column that exists exactly if the number of definitions since the last
  command, modulo 2^16, is below the last count, as is always so with a single count that is not zero (`ColumnWriteExact`);
  with a second, smaller count it is not (`SecondCount`).
- The packets dispatched after a command are ones that were sent after it exactly if nothing else was on its way or waiting
  when the command was sent (`OwnAnswer`). The library does not wait for the answer to COM_STMT_RESET, so that this answer is
  taken for that of the next command (`StaleAnswer`).
- A greeting of another protocol version, or one without a scramble for a client with a password, leaves the connection in the
  state of being made for ever (`OtherVersionRefused`, `NoScrambleFound`).
- Every greeting with a given version string is read as its fields exactly if the string has at most 31 bytes
  (`VersionExact`).

Assumptions: `char` is unsigned (bytes are 0..255), the host is little-endian, allocation succeeds up to 2^63 - 1 bytes, and
the write callback of a command comes while a packet is expected or before anything has been answered. In a run, a
command is sent only on an idle connection without a row in the buffer, the next row is asked for only when there is one in
the buffer, and the next result only at the end of one; the library itself does not check this (`Safety.Enabled` says it
precisely). A packet that is shorter than what the code reads of it leads to the state `fault`, of which nothing is claimed;
definitions are apart, as what is read of them is not modelled.

The reference for SHA-1 is FIPS 180-4; for string literals, section 9.1.1 "String Literals" of the MySQL 5.7 Reference Manual;
for packets, "COM_QUERY Response", "COM_STMT_PREPARE Response", "COM_STMT_EXECUTE" and "Binary Protocol Resultset Row" of the
MySQL Client/Server Protocol documentation. `dafny verify dfyconfig.toml` checks the project.

## Model

| member | source | states |
|---|---|---|
| `Sha1Block.ByteSwapOfLoad` | src/sha1.cc:35-36 | the two rotations and masks turn a word loaded in host order into the big-endian word of the standard |
| `Sha1Block.ChoiceForms` | src/sha1.cc:46-47 | the choice of rounds 0 to 19 is Ch of section 4.1.1 on every word |
| `Sha1Block.MajorityForms` | src/sha1.cc:49 | the majority of rounds 40 to 59 is Maj of section 4.1.1 on every word |
| `Sha1Block.Blk0` | src/sha1.cc:34-39 | swaps a word in place and yields the word of the plain schedule, the other words untouched |
| `Sha1Block.Blk` | src/sha1.cc:40-41 | overwrites word i mod 16 with W[i] of the 80-word schedule; the array then holds the last sixteen words |
| `Sha1Block.R0` | src/sha1.cc:46 | one macro call with renamed registers is one turn of the loop of section 6.1.2 |
| `Sha1Block.R1` | src/sha1.cc:47 | the same where the schedule is extended |
| `Sha1Block.R2` | src/sha1.cc:48 | the same for rounds 20 to 39 |
| `Sha1Block.R3` | src/sha1.cc:49 | the same for rounds 40 to 59 |
| `Sha1Block.R4` | src/sha1.cc:50 | the same for rounds 60 to 79 |
| `Sha1Block.Transform` | src/sha1.cc:55-111 | 80 unrolled rounds over a circular schedule change the state as the 80-step reference does, for every state and block |
| `Sha1Code.Context.Init` | src/sha1.cc:117-128 | the context stands for the empty message |
| `Sha1Code.Context.Update` | src/sha1.cc:134-151 | absorbs data: the context stands for the message so far followed by data |
| `Sha1Code.UpdateLimit` | src/sha1.cc:144-149 | an index exists at which the loop ends if and only if pending bytes plus length are below 2^32 |
| `Sha1Code.IndexStep` | src/sha1.cc:145-146 | the wrapping index keeps its distance to the block boundary |
| `Sha1Code.Context.PadZeros` | src/sha1.cc:167-168 | the padding loop ends, having added exactly the zeros of section 5.1.1 |
| `Sha1Code.LengthBytes` | src/sha1.cc:162-165 | the eight shifted bytes are the big-endian counter |
| `Sha1Code.LengthFieldWraps` | src/sha1.cc:140-165 | the counter, wrapped at 64 bits any number of times, still gives the standard's length field |
| `Sha1Code.Context.Pad` | src/sha1.cc:157-171 | the message is padded as in section 5.1.1, and no byte is left waiting in the buffer |
| `Sha1Code.Context.Final` | src/sha1.cc:173-186 | the digest is that of FIPS 180-4 for all bytes given in any number of calls; the context is wiped, a null digest only pads |
| `Fips180.DigestWords` | src/sha1.cc:180-183 | the digest holds the words of the state, most significant octet first |
| `Scramble.ScramblePassword` | src/connect.cc:832-866 | no reply without a scramble; else exactly the 20 bytes SHA1(scramble + SHA1(SHA1(pass))) XOR SHA1(pass) |
| `Scramble.XorInto` | src/connect.cc:859-863 | the loop masks twenty bytes in place and no others |
| `Scramble.OwnReplyIsAccepted` | src/connect.cc:832-866 | a server that stores the double hash accepts the reply, for every password and scramble |
| `Scramble.OnlyReplyRevealsHash` | src/connect.cc:859-863 | the reply is the only 20-byte string that unmasks to the password hash |
| `Bytes.UnpackPacked` | src/pack_macros.h:49-85 | what the pack macros write is read back as the number, wherever it stands |
| `Bytes.PackInt2` | src/pack_macros.h:49-51 | writes the two low bytes, least significant first, and nothing else |
| `Bytes.PackInt3` | src/pack_macros.h:52-55 | the same with three bytes |
| `Bytes.PackInt4` | src/pack_macros.h:56-60 | the same with four bytes |
| `Bytes.PackInt8` | src/pack_macros.h:61-69 | the same with eight bytes |
| `Bytes.UnpackInt2` | src/pack_macros.h:71-73 | the sum of shifted bytes is the inverse of packing |
| `Bytes.UnpackInt3` | src/pack_macros.h:74-77 | the same with three bytes |
| `Bytes.UnpackInt4` | src/pack_macros.h:78-82 | the same with four bytes |
| `Bytes.UnpackInt8` | src/pack_macros.h:83-85 | two four-byte halves make up the eight-byte number |
| `Pack.LengthRoundTrip` | src/pack.cc:28-113 | every 64-bit length is read back, and as many bytes are consumed as were produced |
| `Pack.LengthPrefixFree` | src/pack.cc:83-113 | no encoding is a prefix of another one |
| `Pack.LengthLead` | src/pack.cc:83-113 | 0xfb and 0xff are never lead bytes; 0xfe leads exactly the lengths from 2^24 on |
| `Pack.LengthWire` | src/pack.cc:83-113 | the bytes of each of the four forms, one by one |
| `Pack.PackLength` | src/pack.cc:83-113 | writes exactly the encoding into the buffer and returns the position behind it |
| `Pack.PackData` | src/pack.cc:71-81 | writes the length and the bytes, nothing else |
| `Pack.StreamUnique` | src/pack.cc:71-113 | two lists of strings with the same packed stream are equal |
| `Pack.PackDateTime` | src/pack.cc:115-159 | writing microseconds, time, date and length backwards leaves the 0, 4, 7 or 11 byte form |
| `Pack.DateTimeAt` | src/pack.cc:115-180 | what is unpacked from each of the four forms |
| `Pack.DateTimeRoundTrip` | src/pack.cc:115-180 | pack then unpack is the identity if and only if the value is not negative and its day fits a byte |
| `Pack.DateTimeWire` | src/pack.cc:115-159 | the bytes of each of the four forms, field by field |
| `Pack.PackTime` | src/pack.cc:198-226 | writes the 0, 8 or 12 byte form, and nothing else |
| `Pack.TimeRoundTrip` | src/pack.cc:182-226 | pack then unpack is the identity if and only if no hour or sign stands alone and there is no year or month |
| `Pack.TimeWire` | src/pack.cc:198-226 | the bytes of each of the three forms, field by field |
| `Pack.WholeHourIsLost` | src/pack.cc:206-224 | five o'clock is sent as midnight |
| `Types.BitmapBit` | src/statement.cc:98-117 | every column has its own bit, inside the bitmap, in the layouts with offset 0 and with offset 2 |
| `Rows.TextRowRecovered` | src/query.cc:389-398 | the loop finds exactly the cells of any row, NULL as an empty one, and uses up the row |
| `Rows.RowMark` | src/query.cc:389-398 | a row begins with the end-of-rows mark if and only if its first cell has 2^24 bytes or more, so no row of one packet does |
| `Rows.NullReadsAsEmpty` | src/pack.cc:48-53 | a NULL cell and an empty one are read alike |
| `Rows.RowGet` | src/query.cc:351-399 | the error results, or the slots of all cells in a new array or in that of an earlier row, whose other entries stay |
| `Rows.BinaryRowRecovered` | src/statement_getset.cc:247-317 | every column gets its type or NULL and exactly its bytes; the cells tile the row; bitmap reads stay inside |
| `BinaryValues.ServerRowRead` | src/statement_getset.cc:247-317 | for typed values encoded as the protocol documentation says, every column is read with its type or NULL, its width and its value |
| `Rows.StatementRowGet` | src/statement_getset.cc:221-318 | stores the fields up to the first type the switch does not know, and fails exactly if there is one |
| `Execute.MarkNulls` | src/statement.cc:100-117 | ORing in place leaves the NULL bitmap of the parameters, and the others are counted |
| `Execute.WriteValue` | src/statement.cc:163-235 | writes the value of each type the switch knows, and rejects the rest |
| `Execute.StmtExecute` | src/statement.cc:81-243 | what is sent is the specified packet, or the call is rejected for a bad parameter |
| `ExecuteProofs.PacketLayout` | src/statement.cc:119-241 | with NULLs last the packet is header, types of the other parameters, and values, whatever the buffer held |
| `ExecuteProofs.PacketRead` | src/statement.cc:119-241 | a reader of the layout the code intends recovers statement id, NULL set, types with sign, and of the values what their encoding carries |
| `ExecuteProofs.AllArriveExact` | src/pack.cc:115-226 | what the encodings carry is what was bound if and only if no value loses anything: a condition on its type and fields |
| `ExecuteProofs.PacketGarbled` | src/statement.cc:127-143 | with a NULL before a value a type is left over from earlier contents of the buffer |
| `ExecuteProofs.ExecuteExact` | src/statement.cc:119-241 | in the layout the code intends the packet holds what was bound, whatever the buffer held, if and only if no NULL comes before a value and no value loses anything |
| `Documented.DocumentedExact` | src/statement.cc:119-241 | a reader of the documented layout, with a type for every parameter, recovers id, NULL set, types and the bound values if and only if no parameter is NULL and no value loses anything |
| `Documented.NoParameters` | src/statement.cc:97-118 | without parameters the packet ends with a flag that the documented layout does not have |
| `Binding.SetParam` | src/statement_getset.cc:149-219 | the switch sets type, value and, of a number, the sign of this parameter only, or reports that it does not exist |
| `Binding.LastWins` | src/statement_getset.cc:57-219 | after any calls every parameter has the type and value of its own last setting, and the sign of its last number |
| `Binding.MeantArguments` | src/statement_getset.cc:57-147 | what is to be read is what the setter was given, argument by argument |
| `Binding.SettersAsIntended` | src/statement.cc:81-243 | for all calls of setters the packet holds, in the layout the code intends, what was set last, if and only if no NULL comes before a value and no time has nothing but hours or a sign |
| `Binding.SettersToServer` | src/statement.cc:81-243 | for all calls of setters and in any memory a server reads exactly what was set last for each parameter if and only if every parameter was last set to a value and no time has nothing but hours or a sign |
| `Literals.EscapeData` | src/query.cc:204-256 | writes the backslash-escaped data and its length, and nothing else |
| `Literals.NoBackslashEscapeData` | src/query.cc:185-202 | writes the data with single quotes doubled, and nothing else |
| `Literals.EscapeTable` | src/query.cc:185-256 | the bytes that are sent for each byte of data in either mode, and the quotes around it |
| `Literals.LikeExact` | src/query.cc:123-132 | inside a literal, not behind a backslash, the escaped data is read back as the data if and only if the literal is safe for it |
| `Literals.BehindBackslashExact` | src/query.cc:123-132 | behind a backslash of the template it is if and only if its first byte that is not a backslash is neither escaped nor has a meaning there |
| `Literals.CharExact` | src/query.cc:109-122 | outside a literal the quoted data is one literal with that value if and only if no single quote stands directly before |
| `Literals.AfterExact` | src/query.cc:120-121 | the closing quote closes the literal if and only if no single quote follows |
| `Literals.QuotedReadsBack` | src/query.cc:185-256 | in either mode reading inverts quoting, for all bytes |
| `Literals.WrongMode` | src/query.cc:109-122 | a server in the other mode reads backslash-escaped data right if and only if nothing was escaped |
| `Query.TextFits` | src/query.cc:64-94 | the space for a parameter and its question mark holds its text, and only the longest ints fill it |
| `Query.Size` | src/query.cc:64-94 | the first pass computes the size that the proofs about it use |
| `Query.SizeSuffices` | src/query.cc:64-168 | the size suffices for the whole text and the NUL of the last sprintf |
| `Query.SizeTight` | src/query.cc:64-168 | the buffer is filled to the last byte if and only if all parameters used are longest ints and the others take no space |
| `Query.SplitAtMarks` | src/query.cc:100-105 | the pieces of a template contain no question mark and make it up again |
| `Query.RenderedInterleaves` | src/query.cc:97-168 | the result is the pieces interleaved with the texts of the parameters, in order |
| `Query.MarkIsReplaced` | src/query.cc:100-107 | byte 63 is replaced by the text of a parameter, every other byte is copied |
| `Query.SentAsItIs` | src/query.cc:110-113 | parameters that are not escaped are sent byte for byte between the pieces of the template, and the statement itself without parameters |
| `Query.NumberSent` | src/query.cc:133-158 | an int is sent as its value; a bigint is if and only if its sign bit is clear |
| `Query.WriteParam` | src/query.cc:107-166 | appends exactly the text of the parameter |
| `Query.MakeQuery` | src/query.cc:43-170 | the statement itself without parameters, else a buffer of the computed size that begins with the rendered template |
| `Templates.TemplateMeans` | src/query.cc:97-168 | for well-placed parameters the server reads the template's own tokens with exactly the data in place |
| `Templates.StructureUnchanged` | src/query.cc:97-168 | whatever bytes are bound, the tokens are the same but for the values of the literals |
| `Templates.LikeValue` | src/query.cc:123-132 | a literal around a placeholder has the value prefix, data, suffix |
| `Statements.QueryReadAsMeant` | src/query.cc:97-168 | in every run in which a status has come since the last command, a server of that mode reads what is built as the meant tokens |
| `Buffers.AvailableExact` | src/buffer.cc:56-63 | the space reported never exceeds the real one if and only if read offset plus used bytes fit the buffer |
| `Buffers.ShiftExact` | src/buffer.cc:74-82 | when the moving branch is taken, and that it then reads beyond the buffer |
| `Buffers.OverrunReachable` | src/buffer.cc:56-82 | from the start, a full buffer of which one packet has been read reports space that is not there |
| `Buffers.EndTwice` | src/buffer.cc:125-141 | ending a packet twice is ending it once |
| `Buffers.Refines` | src/buffer.cc:56-141 | every operation acts on the unread bytes as on a queue, and used bytes equal the write offset |
| `Buffers.FifoRun` | src/buffer.cc:56-141 | over any run what was taken and what is unread make up what was appended, in order |
| `Buffers.ReadBuffer.constructor` | src/buffer.cc:25-48 | an empty buffer of the default size |
| `Buffers.ReadBuffer.GetAvailable` | src/buffer.cc:56-63 | the space is really there if and only if read offset and used bytes fit the buffer, and then it is the real one less the read offset |
| `Buffers.ReadBuffer.Increase` | src/buffer.cc:86-111 | doubles the buffer and keeps the queue |
| `Buffers.ReadBuffer.MoveWrite` | src/buffer.cc:114-118 | appends the received bytes to the queue |
| `Buffers.ReadBuffer.UnreadData` | src/buffer.cc:120-123 | the number of unread bytes |
| `Buffers.ReadBuffer.PacketReadEnd` | src/buffer.cc:125-141 | drops the rest of the packet, and resets the buffer if nothing is left |
| `Buffers.ReadBuffer.Alloc` | src/connect.cc:614-627 | grows the buffer if asked for too much; the room given is really there |
| `Safety.DispatchHandled` | src/net.cc:616-867 | every handler, on every payload, keeps the invariant of the connection |
| `Safety.RunSafe` | src/net.cc:516-614 | in every run at most one packet is expected, and then the read pointer is at a packet boundary; a row in the buffer is what is reported |
| `Safety.StreamRun` | src/net.cc:516-614 | in every run the packets dispatched and the bytes behind them are exactly the bytes delivered |
| `Safety.SequenceRun` | src/net.cc:560-576 | from one command to the next the numbers of dispatched packets are consecutive modulo 256 |
| `Safety.CommandSequence` | src/command.cc:59-61 | a command starts the numbers anew |
| `Safety.WrongNumberStops` | src/net.cc:568-576 | a packet is dispatched if and only if it has the expected number; a wrong one empties the stack and stops dispatch |
| `Safety.WrongNumberHangs` | src/net.cc:568-576 | after a wrong number during a command every later poll reports that the command goes on, unless a read or write fails |
| `Safety.AssertExact` | src/connect.cc:275-316 | the assertion fails after a fetch if and only if the next packet was not whole and in sequence |
| `Safety.SendFailureAsserts` | src/command.cc:110-118 | a write that fails at once leaves a state in which the next poll reaches the assertion |
| `Safety.PatientRun` | src/connect.cc:275-316 | if rows are fetched only when the next packet is whole and in sequence, and no write fails at once, every poll of the run finds an error, an end, a row or a connection |
| `Safety.OwnAnswer` | src/command.cc:121-135 | the packets dispatched after a command were sent after it if and only if nothing was on its way or waiting when it was sent |
| `Safety.PollTable` | src/connect.cc:231-328 | what poll reports, status by status |
| `Safety.BrokenForever` | src/net.cc:380-391 | after a failed read or write every poll to the end of the run reports an error, and nothing more is dispatched |
| `Chunking.DeliverJoins` | src/net.cc:422-431 | two deliveries act as one |
| `Chunking.RunReplays` | src/net.cc:516-614 | any run, write callbacks included, acts as its calls alone, all bytes being there from the start |
| `Chunking.ChunkingIrrelevant` | src/net.cc:422-431 | two runs with the same bytes and calls dispatch the same packets and end in the same state |
| `Results.ColumnsInside` | src/net.cc:851-867 | while as many definitions come as were announced, each has a column of its own |
| `Results.Columns` | src/net.cc:851-867 | N column packets fill the columns, then a response is expected |
| `Results.RowsFetched` | src/net.cc:616-631 | R rows stop the loop R times, each with its own row in the buffer; then the command is over |
| `Results.BusyOnPrefix` | src/net.cc:536-557 | while a part of the packets is missing, the connection is busy and expects one |
| `Answers.AnswerRead` | src/net.cc:696-815 | a result set is taken as N + R + 3 packets with R stops and ends idle with an empty stack |
| `Answers.AnswerInChunks` | src/net.cc:374-431 | the same in any chunks and with fetches at any time |
| `Answers.ChainRead` | src/command.cc:147-168 | K results in a chain are consumed to the last byte, and next_result returns true K - 1 times |
| `Answers.ChainInChunks` | src/command.cc:147-168 | the same chain in any chunks and with calls at any time |
| `History.ErrorExact` | src/net.cc:739-766 | in every run, where a response is expected an error packet ends in a failed connection if and only if it is the first packet after next_result or answers the handshake response, otherwise in an idle one; poll reports an error unless the connection is idle and the code is zero |
| `History.ErrorAsDefinition` | src/net.cc:817-867 | in every run, where a definition is expected an error packet is counted as one: the command goes on and no error is reported |
| `History.ConnectingUntilAnswered` | src/connect.cc:241-243 | until a second packet has been dispatched every poll reports that the connection is being made, unless a read or write has failed |
| `Commands.SentState` | src/command.cc:47-61 | a command clears counters, status and error of the last one and expects the packet that belongs to it |
| `Commands.PrepareAnswered` | src/command.cc:121-124 | after any run, a prepare whose reply comes in any chunks ends with the statement prepared as the reply says |
| `Commands.CommandAnswered` | src/command.cc:129-135 | after any run, the results that answer a command are taken in any chunks to the last byte |
| `Commands.NothingAnswered` | src/command.cc:125-128 | closing or resetting a statement is over with its write, idle and with nothing expected |
| `History.ModeOverRun` | src/query.cc:112-119 | in every run data is escaped in the mode of the last status dispatched since the last command or next result, with backslashes if there was none |
| `History.ModeAfterError` | src/command.cc:48-54 | after a failed command a server without backslash escapes reads the next quoted data right if and only if nothing is escaped |
| `History.ColumnWriteExact` | src/net.cc:851-867 | in every run a column definition has a column to be written to if and only if the number that came, modulo 2^16, is below the last count; with one count it always has |
| `Limits.AssertReachable` | src/connect.cc:275-316 | logging in, sending a query and fetching a row too early reaches the assertion |
| `Limits.SecondCount` | src/net.cc:804-815 | a second, smaller count leaves the next definition without a column |
| `Limits.StaleAnswer` | src/command.cc:125-128 | the answer to COM_STMT_RESET is taken for that of the next command, which is over before its own has come |
| `Cells.TableRecovered` | src/query.cc:389-398 | for a result set that encodes a table, every fetch followed by reading the row yields the cells of its next row |
| `Answers.RowExact` | src/net.cc:616-631 | a packet in the place of a row is shown as a row if and only if it does not begin with 0xfe |
| `Preparing.ReplyRead` | src/net.cc:640-694 | the reply to a prepare is consumed as 1 + (P > 0 ? P + 1 : 0) + (C > 0 ? C + 1 : 0) packets, and the statement is prepared with P and C counted |
| `Preparing.BusyUntilLast` | src/net.cc:640-694 | on every proper prefix of the reply the connection is busy |
| `Preparing.Parameters` | src/net.cc:817-833 | P parameter packets are counted to P, then a response is expected |
| `Preparing.PrepareColumns` | src/net.cc:835-849 | C column packets are counted to C, then a response is expected |
| `Login.GreetingCut` | src/connect.cc:683-685 | whatever the version, the fields are looked for behind its NUL, or behind 32 bytes |
| `Login.VersionExact` | src/connect.cc:682-718 | every greeting with a version string is read as its fields if and only if the string has at most 31 bytes |
| `Login.LongVersionMisread` | src/connect.cc:683-685 | for every longer version a greeting whose scramble is misread |
| `Login.LoginExact` | src/connect.cc:660-830 | the client gets in if and only if it has no password or finds a scramble; behind a short version it finds all 20 bytes that were sent |
| `Login.NoScrambleFound` | src/connect.cc:800-812 | a client that finds no scramble for its password sends nothing and waits for nothing |
| `Login.OtherVersionRefused` | src/connect.cc:671-678 | a greeting of another protocol version is left where it is, and every poll reports that the connection is being made |
| `Login.ResponseParsed` | src/connect.cc:752-829 | an independent reader recovers every field of the response, with and without a password, and no byte is left over |
| `Login.CapabilitySent` | src/connect.cc:732-734 | a capability is sent if and only if the server offers it and it is in the client's list, or it is the one for several results, or the caller asked for it |
| `Login.ServerConvinced` | src/connect.cc:724-866 | the answer to a greeting says who the client is and what schema it wants, and its reply is accepted by the server that sent the greeting and keeps the double hash |
| `Connections.Connection.constructor` | src/connect.cc:565-585 | a connection that waits for the handshake |
| `Connections.Connection.PacketQueuePush` | src/net.cc:1035-1062 | puts a packet type on the stack, which is proved to have room wherever the library pushes in a run |
| `Connections.Connection.PacketQueuePop` | src/net.cc:1064-1073 | takes the topmost one off, or tells that there is none |
| `Connections.Connection.PacketQueuePeek` | src/net.cc:1075-1083 | tells the topmost one, or that there is none |
| `Connections.Connection.PacketReadHandshake` | src/connect.cc:660-722 | acts as the specified handler, in place |
| `Connections.Connection.VersionLength` | src/connect.cc:683-685 | the length of the version string, cut off as strncpy does |
| `Connections.Connection.HandshakeResponse` | src/connect.cc:724-830 | sends the specified response with the scrambled password and expects an answer, unless there is no scramble |
| `Connections.Connection.PacketReadResponse` | src/net.cc:696-815 | acts as the specified handler, in place |
| `Connections.Connection.PacketReadPrepareResponse` | src/net.cc:640-694 | the same, although the packet is ended twice where no definitions follow |
| `Connections.Connection.PacketReadPrepareParameter` | src/net.cc:817-833 | acts as the specified handler, in place |
| `Connections.Connection.PacketReadPrepareColumn` | src/net.cc:835-849 | acts as the specified handler, in place |
| `Connections.Connection.PacketReadColumn` | src/net.cc:851-867 | acts as the specified handler, in place |
| `Connections.Connection.PacketReadRow` | src/net.cc:616-631 | acts as the specified handler, in place; a row is left in the buffer |
| `Connections.Connection.ProcessPackets` | src/net.cc:516-614 | the loop with its early returns does what the iterated step does, and keeps the invariant |
| `Connections.Connection.OnAlloc` | src/connect.cc:587-658 | growing does not change what the connection has received |
| `Connections.Connection.Receive` | src/net.cc:374-431 | received bytes are appended and all whole packets processed |
| `Connections.Connection.ReadFails` | src/net.cc:380-391 | a failed read empties the stack and ends the connection |
| `Connections.Connection.CommandSend` | src/command.cc:43-136 | resets the counters and expects the packet that belongs to the command, or, if the write fails at once, nothing |
| `Connections.Connection.OnWrite` | src/net.cc:350-372 | where nothing is expected the command is over; a failed write ends the connection |
| `Connections.Connection.GetNextRow` | src/command.cc:138-145 | gives up the row and reads the next one if it is there; the status is left alone |
| `Connections.Connection.CommandNextResult` | src/command.cc:147-168 | true exactly if the server has announced more, and then a response is expected |
| `Connections.Connection.Poll` | src/connect.cc:228-328 | a row is reported exactly if it is at the read pointer; a queued query is sent on connecting; the assertion is reached exactly if an idle connection awaits a row, has refused one, or has failed to send at once |
| `Connections.Connection.ConnectQuery` | src/connect.cc:419-438 | sends what was queued before the connection was made, and reports an error if that fails at once |
| `Application.RunAll` | src/net.cc:374-431 | if at most half of the initial buffer arrives between two moments at which all has been used up, the object goes through any run with room for all bytes, and ends as the run does |

## Left out

- The big-endian branch of the block macro, and hosts on which `char` is signed.
- libuv, DNS, sockets and the order of loop events: the arrival of bytes, the sending of a command and the completion of a write
  are abstract steps.
- SSL and compression, on both sides: calls of foreign libraries.
- `COM_STMT_SEND_LONG_DATA`: the library expects an answer that no server sends, so that the runs exclude it.
- A connection refused with an error packet in place of the handshake: the handler reads on behind the packet.
- `attachsql_stmt_fetch` and the expected packet type it pushes: no function of the library calls it.
- `Connections.Connection.PacketReadColumn`: does not model the column metadata strings, a definition counts as one packet.
- `Connections.Connection.PacketReadPrepareParameter`: does not model the metadata strings either.
- `Connections.Connection.PacketReadResponse`: does not model SQLSTATE, message text and the switch to compression.
- `Connections.Connection.HandshakeResponse`: does not model a write that fails at once, after which an answer is expected all
  the same.
- `Connections.Connection.PacketReadHandshake`: does not model the refusal, see above, and the size of the write buffer.
- `Connections.Connection.PacketQueuePush`: requires room; growth of the stack, which forgets the size of an entry, is never
  reached in a run.
- `Application.RunAll`: covers runs in which at most half of the initial buffer arrives between two moments of emptiness; where
  more does, the space reported can be wrong.
- `Connections.Connection.Receive`: requires room for the bytes; where read offset and used bytes exceed the buffer size the
  space reported by the library is wrong (`Buffers.AvailableExact`), and what happens then is not modelled.
- `Connections.Connection.OnAlloc`: requires that read offset and used bytes fit the buffer, for the same reason.
- `Connections.Connection.GetNextRow`: requires a row in the buffer; without one the code leaves the current packet early.
- `Connections.Connection.Poll`: does not model the callbacks of a connection pool and buffered rows.
- `Buffers.ReadBuffer.Increase`: requires that the moving branch is not taken, because that branch reads beyond the buffer
  (`Buffers.ShiftExact`); failing allocation is modelled as a size limit only.
- `Buffers.ReadBuffer.Alloc`: requires that read offset and used bytes fit the buffer.
- The row in the buffer is modelled as its bytes, not as a pointer that growth of the buffer leaves behind.
- Row buffering and `row_get_offset`, which keep such pointers.
- `Rows.RowGet`: requires that the array of an earlier row is long enough, as the code does not check it.
- `Rows.StatementRowGet`: requires the same.
- `Execute.StmtExecute`: requires room for the packet; growth of the execute buffer is not modelled.
- `Query.MakeQuery`: requires a parameter for every question mark, as the code does not check it, and does not model 64-bit
  wrap-around of the size.
- The text of floats and doubles: only its length counts.
- Comments, quoted identifiers, ANSI_QUOTES and character sets in the reading of statements.
- Getters, error objects, version functions, the connection pool, options, destruction.
