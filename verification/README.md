# Verification of the measurement and calibration crates

This project models the parts of the repository whose correctness spans several
functions, states what they promise and proves it with Dafny. `dafny verify dfyconfig.toml`
checks everything.

- **BLF** (`crates/autors-blf`): object headers and events as bytes (`BlfObjects`,
  `BlfCodec`, `BlfCursor`), the stream of padded objects cut into containers (`BlfStream`,
  `BlfReading`), the incremental reader (`BlfReader`), the streaming writer (`BlfWriter`), the
  in-memory writer (`BlfFile`), the file header (`BlfHeader`) and the end-to-end round trip
  (`BlfRoundTrip`). The stream layer is generic in the object codec; `BlfRoundTrip.ObjectFormat`
  is the codec of the object model. `Calendar` has the date conversion, `Adler` the checksum.
- **A2L** (`crates/autors-a2l`): the lexer (`A2lToken`), the block grammar with both builders
  (`A2lBlock`), escaping and the writer (`A2lWriter`), text that lexes to known tokens whatever
  follows (`A2lPipeline`), and whole documents (`A2lDocument`).
- **CCP** (`crates/autors-ccp`): the slave of CCP 2.1 (`CcpSlave`), a lossy channel in which every
  outcome is open (`CcpLink`), single steps of transfers and list programming (`CcpSteps`), the
  master (`CcpMaster`), and runs of it against a scripted slave (`CcpRuns`). Ghost fields of the
  master record what the claims are about: the values given to the callbacks, the commands without
  a reply, the starting commands that came too early, the lists that did not answer. `overruns`
  counts the commands that were sent with 256 or more unanswered ones behind them; what is said of
  effects on the slave holds where it does not grow. Every operation bounds it (`Grew`): unanswered
  commands are among the failed ones and those among the ones sent, so it cannot grow before 256
  commands have failed, and `unanswered` is 0 exactly when no reply is outstanding. `unsized` counts
  the failed questions for the size of a list.
- **ASC** (`crates/autors-asc`): records as text (`AscRecord`), which of them survive
  (`AscRoundTrip`), and the loops over words, records and times (`AscFile`). `Text` holds words and
  numbers in text, shared with A2L.

`Bytes` and `Wrappers` hold bytes, little-endian numbers, options and results.

Code that changes things step by step is modelled by classes and methods, each proved equal to a
function of its input or old state; the theorems are about those functions. The environment
(sockets, clocks, lost frames, short reads, the user cancelling) is an arbitrary choice in the
bodies of `ByteSource.Read`, `Device.Send`, `Device.Receive` and the progress callbacks.

## What the proofs found

- `Writer::references` trims the whole line by Unicode white space, the lexer splits at four
  characters only: a last reference that ends in, say, a no-break space loses it
  (`A2lDocument.ReferencesSurvive` has the exact condition, `A2lDocument.ReferenceIsCut` such a case).
- In `BlfWriter`, if the first restore point cannot be encoded after the offset was recorded, the
  offset stays. It is right in the end if and only if the object written next is a restore point
  (`Finish`, `BlfWriter.OffsetIsRight`); `BlfRoundTrip.MissedRestorePoint` is a file in which it is
  wrong.
- `BlfFile::write` compares the buffer with its limit before the padding of the next object is
  added. So a payload of several objects may exceed 4 MiB by up to 2 bytes
  (`BlfRoundTrip.OversizedPayload`), and it reaches the limit if and only if the filler of its last
  object does (`WriteFile`, `BlfFile.FillerReachesLimit`).
- An END_OF_SESSION disconnect may lose the slave's lists while `daq_config_dirty` stays false.
  Connecting again sets the flag, but not if default requests are prevented: then
  `start_measurements` starts lists that are not there (`CcpRuns.EndedSession`). It never does if
  default requests are allowed or no session is ended (`Drive`); for one call, `StartMeasurements`
  has the exact condition.
- A GET_DAQ_SIZE that is refused or lost in `start_measurements` is ignored, and elements of an
  earlier configuration then stay in the slave's list beside the new ones (`CcpRuns.StaleElements`,
  both cases). If all answer, the lists equal the configured ones; `CcpSteps.ProgrammedIsExact` has
  the exact condition for one list.
- An error reply is believed without looking at its counter. So the result of a command is about an
  earlier one if and only if commands are unanswered (`Execute`); `CcpRuns.StrayError` is such a run.
  A positive reply is never confused while fewer than 256 commands are unanswered, and may be with 256
  (`CcpRuns.Collision`). With 1 to 255, no command succeeds, and taking one reply for each command
  never catches up (`CcpRuns.StaysBehind`).
- A CAN FD message without columns of its own is written with eight default columns and reads back
  with them; one written with bit rate switching but without the FD bit reads back with both
  (`AscRoundTrip.AnyTypeReads`).

## Model

| member | source | states |
|---|---|---|
| BlfRoundTrip.WriteThenRead | crates/autors-blf/src/stream.rs:324-481 | Every list of well-formed objects, written with any container size of at least 1 and either compression setting and then read, comes back unchanged and in order; then the reader reports its end, and no error ever. The limits have to admit payloads below the container size and those of the single objects written, no others. |
| BlfRoundTrip.ObjectsRoundTrip | crates/autors-blf/src/stream.rs:324-481 | The same for the object model itself: every list of canonical objects within the object limit comes back. |
| BlfRoundTrip.WriteFileThenRead | crates/autors-blf/src/file.rs:353-425 | The same for a file written from memory in one go and read back; its container size is 4 MiB. |
| BlfRoundTrip.ObjectsFileRoundTrip | crates/autors-blf/src/file.rs:353-425 | The same for canonical objects of the object model. |
| BlfRoundTrip.FileIsRead | crates/autors-blf/src/stream.rs:324-373 | A file of either writer: its header opens, and the run over its body is exactly its objects and then the end. |
| BlfRoundTrip.WriteAll | crates/autors-blf/src/stream.rs:390-481 | Creating, sizing, filling and finishing a writer gives the final header followed by readable containers that spell the objects, nothing refused. |
| BlfRoundTrip.Drain | crates/autors-blf/src/stream.rs:321-373 | Iterating a reader to its end collects exactly the objects of its run. |
| BlfRoundTrip.CanonicalIsWellFormed | crates/autors-blf/src/objects.rs:3307-3541 | Every canonical BLF object satisfies what the stream theorems ask of an object. |
| BlfReading.CutIndependent | crates/autors-blf/src/stream.rs:142-318 | However a stream of padded objects and zero filler is cut into containers (mid-header, mid-body, mid-padding, empty ones), the reader yields the same objects and then its end. |
| BlfReading.SectionIsRead | crates/autors-blf/src/stream.rs:142-373 | The invariant behind cut independence: what is unread plus the payloads to come spells the objects still due, for any state of the reader. |
| BlfReading.BodyIsRead | crates/autors-blf/src/stream.rs:211-373 | With objects between the containers: a top-level object is yielded after all inner objects of the containers before it. |
| BlfReading.ContainerIsRead | crates/autors-blf/src/stream.rs:189-318 | A container made by the writer is read back to its payload, compressed or not, whatever follows it. |
| BlfReading.ItemsConsume | crates/autors-blf/src/stream.rs:142-373 | Every yielded item consumes at least 16 bytes of source or of unread data, so reading ends. |
| BlfReading.RunShape | crates/autors-blf/src/stream.rs:321-373 | A run is items only, then one end or one error. |
| BlfStream.StreamAppend | crates/autors-blf/src/stream.rs:442-464 | The stream of two lists of objects is the two streams one after the other. |
| BlfStream.WholeObject | crates/autors-blf/src/stream.rs:142-187 | A whole padded object at the front of the unread data is taken, and exactly it and its padding are consumed. |
| BlfStream.PartOfObject | crates/autors-blf/src/stream.rs:142-187 | A proper prefix of a padded object is never taken for an object or an error: the reader waits. |
| BlfStream.ContainerHeaderRoundTrip | crates/autors-blf/src/objects.rs:2766-2802 | A container header reads back. |
| BlfReader.BlfReader.Open | crates/autors-blf/src/stream.rs:66-117 | Opening succeeds exactly if the header is one the limits allow, and leaves the source behind the header. |
| BlfReader.BlfReader.CompactObjectData | crates/autors-blf/src/stream.rs:128-140 | Compaction keeps the unread data. |
| BlfReader.BlfReader.TakeObject | crates/autors-blf/src/stream.rs:142-187 | The cursor-moving step agrees with the pure step on the unread data, in all its outcomes. |
| BlfReader.BlfReader.ReadTopLevel | crates/autors-blf/src/stream.rs:189-318 | One top-level read agrees with the pure one on source and buffer; a container extends the unread data by its payload, a padded object does not touch it. |
| BlfReader.BlfReader.Next | crates/autors-blf/src/stream.rs:321-373 | The imperative iterator refines the pure step; after its first end or error it yields nothing for ever. |
| BlfReader.ReadExactAt | crates/autors-blf/src/stream.rs:32-51 | Reads that come short are repeated until the part of the buffer is full or the source ends; nothing else of the buffer changes. |
| BlfReader.ReadBytes | crates/autors-blf/src/stream.rs:32-51 | Reading n bytes gives the next n bytes of the source, or fails if there are fewer. |
| BlfWriter.BlfWriter.Create | crates/autors-blf/src/stream.rs:390-417 | A new writer stands behind a placeholder header that claims no objects, or is refused for a header too large. |
| BlfWriter.BlfWriter.SetContainerSize | crates/autors-blf/src/stream.rs:419-427 | Zero is refused, every other size is taken. |
| BlfWriter.BlfWriter.Flush | crates/autors-blf/src/stream.rs:429-440 | Flushing appends one container with the whole buffer, or nothing for an empty buffer, and keeps every invariant of the file so far. |
| BlfWriter.BlfWriter.WriteObject | crates/autors-blf/src/stream.rs:442-464 | A written object joins the stream; a refused one leaves the objects as they were; payloads stay below the container size or hold one object. The first restore point offered while the buffer can be flushed fixes the offset, for good, behind the containers of all objects accepted so far, whether that restore point is written or not. |
| BlfWriter.BlfWriter.Finish | crates/autors-blf/src/stream.rs:466-481 | The final header records the bytes emitted, the uncompressed size, the saturated object count and the offset, and patching it does not touch the body. Without an offset no object is a restore point; with one, the container there starts with the object accepted next, and the offset finds the first restore point if and only if that object is one. |
| BlfWriter.OffsetIsRight | crates/autors-blf/src/stream.rs:442-481 | Whatever containers and objects one counts before the offset, it finds the first restore point exactly when the object accepted after the offset was taken is a restore point. |
| BlfRoundTrip.MissedRestorePoint | crates/autors-blf/src/stream.rs:442-481 | A run in which it is not: a restore point that declares a wrong size is refused, a CAN message follows, and the finished file's offset finds no restore point. |
| BlfWriter.PointsAtFlush | crates/autors-blf/src/stream.rs:443-474 | The recorded offset keeps addressing the container that starts with the first restore point when more is flushed. |
| BlfFile.WriteFile | crates/autors-blf/src/file.rs:353-425 | Writing from memory emits the same stream of objects; the offset, if any, addresses a container whose payload starts with the first restore point and holds restore points only; it fails only if an object or a container cannot be encoded; objects that fit one buffer share one container. Every payload is a run of consecutive objects, and if there are several, the limit is kept by those before the last with their filler and the last without its own. |
| BlfFile.FillerReachesLimit | crates/autors-blf/src/file.rs:353-425 | A payload of several objects reaches the limit if and only if the filler of its last object does, and exceeds it by two bytes at most. |
| BlfRoundTrip.OversizedPayload | crates/autors-blf/src/file.rs:353-425 | A file whose only payload is two bytes longer than the buffer limit, as the filler of an object is not compared with it. |
| BlfFile.FlushContainer | crates/autors-blf/src/file.rs:74-96 | One container with the buffer, and what it adds to the uncompressed size. |
| BlfHeader.FileHeaderCodec | crates/autors-blf/src/objects.rs:2987-3085 | An encoded header is parsed back, whatever follows it, exactly if its signature is right, its size field is its own encoded size and its reserved bytes are not taken for an offset. |
| BlfHeader.OpenWritten | crates/autors-blf/src/stream.rs:71-117 | A written header opens within the limits. |
| BlfCodec.WriteUndoesParse | crates/autors-blf/src/objects.rs:3307-3541 | Writing the parse of a buffer of exactly its declared size reproduces the buffer, exactly when the object keeps all of its bytes: opaque objects of versions 0, 1 and 2 with any extension, and events whose layout is exhausted or keeps its tail. |
| BlfCodec.ParseUndoesWrite | crates/autors-blf/src/objects.rs:3307-3541 | A canonical object, written, parses back to itself. |
| BlfCodec.ParseUndoesWriteExactly | crates/autors-blf/src/objects.rs:3307-3541 | Writing and then parsing gives an object back if and only if it is canonical: its sizes agree with its contents, its numbers fit their fields, and its kind is the one that parsing picks. |
| BlfCodec.ExactSliceNeverAborts | crates/autors-blf/src/objects.rs:3307-3465 | Parsing a slice of the declared size never slices out of range. |
| BlfCodec.EventRoundTrip | crates/autors-blf/src/general.rs:150-181 | A length-prefixed event with trailing bytes survives being encoded and decoded. |
| BlfCodec.DecodedObject | crates/autors-blf/src/objects.rs:3307-3465 | What a decoded object is made of: its header is the header of the bytes, its data their body. |
| BlfCursor.WriteTo | crates/autors-blf/src/objects.rs:3467-3541 | Writing appends exactly the declared number of bytes, or leaves the output as it was and fails. |
| BlfCursor.WriteHeader | crates/autors-blf/src/objects.rs:812-833 | The header writer appends the encoded header. |
| BlfCursor.ParseHeader | crates/autors-blf/src/objects.rs:741-810 | The cursor-based header parser agrees with the pure one on every input, errors included. |
| BlfCursor.ParseBase | crates/autors-blf/src/objects.rs:627-637 | The cursor-based parser of the common part agrees with the pure one. |
| BlfCursor.Cursor.Record | crates/autors-blf/src/objects.rs:48-130 | Reading fields one by one reads the packed record, or fails at its end. |
| BlfObjects.HeaderCodec | crates/autors-blf/src/objects.rs:741-833 | Bytes decode to a header exactly if they are its encoding followed by anything, and the header is one of the versions. |
| BlfObjects.HeaderRoundTrip | crates/autors-blf/src/objects.rs:741-833 | An encoded object header decodes to itself, whatever follows. |
| BlfObjects.HeaderLossless | crates/autors-blf/src/objects.rs:741-833 | Re-encoding a decoded header reproduces the bytes it was decoded from. |
| BlfObjects.SplitLengths | crates/autors-blf/src/general.rs:24-49 | Splitting at declared lengths gives pieces that concatenate to the input's prefix, or fails exactly if they do not fit. |
| BlfObjects.PiecesOfConcat | crates/autors-blf/src/general.rs:24-62 | Fields laid one after the other split back at their own lengths. |
| BlfObjects.ConcatOfPieces | crates/autors-blf/src/general.rs:24-62 | Pieces concatenate back to what was split. |
| BlfObjects.SplitMerge | crates/autors-blf/src/general.rs:309-369 | Numbers and lengths of an event interleave into its slots and come apart again. |
| Bytes.UnpackPack | crates/autors-blf/src/objects.rs:54-130 | A packed record of little-endian fields unpacks to its values, whatever follows. |
| Bytes.PackUnpack | crates/autors-blf/src/objects.rs:54-130 | Packing what was unpacked reproduces the bytes. |
| Calendar.DaysOfCivilOfDays | crates/autors-blf/src/objects.rs:2817-2842 | Converting a day number to a date and back gives the day number, for every day number. |
| Calendar.CivilOfDaysOfCivil | crates/autors-blf/src/objects.rs:2817-2842 | Converting a valid Gregorian date to a day number and back gives the date. |
| Calendar.CivilFollowsCalendar | crates/autors-blf/src/objects.rs:2817-2850 | Day 0 is 1 January 1970, and the next day number gives the next day of the calendar, for every day number. |
| Calendar.NextDayIsOneLater | crates/autors-blf/src/objects.rs:2830-2842 | The next day of the calendar has the next day number. |
| Calendar.DaysGrowWithYear | crates/autors-blf/src/objects.rs:2830-2842 | A date of an earlier year has a smaller day number. |
| Calendar.SystemTimeRoundTrip | crates/autors-blf/src/objects.rs:2855-2900 | An instant survives the conversion to a header time to the millisecond, exactly if its year fits 16 bits. |
| Calendar.TimeIsValid | crates/autors-blf/src/objects.rs:2874-2900 | A header time has an instant exactly if its date and clock are valid and not before 1970. |
| Calendar.TimeRoundTrip | crates/autors-blf/src/objects.rs:2855-2900 | A valid header time survives the conversion to an instant and back, but for its day of the week, which is recomputed. |
| Adler.Blocked | crates/autors-blf/src/file.rs:25-37 | The loop over 5552-byte blocks computes the Adler-32 of section 2.2 of RFC 1950 for every byte string, in 32-bit accumulators. |
| Adler.BlockFits | crates/autors-blf/src/file.rs:25-37 | Within a block neither accumulator exceeds 32 bits. |
| Adler.BlockIsTight | crates/autors-blf/src/file.rs:25-37 | One byte more per block could overflow: 5553 bytes of 255 do. |
| Adler.DeferredSums | crates/autors-blf/src/file.rs:25-37 | Reducing after a block gives what reducing after every byte gives. |
| A2lDocument.PrintLexBuild | crates/autors-a2l/src/writer.rs:91-170 | Any tree of clean keywords and parameters, arbitrary strings and references, emitted at any blank indent, lexes and builds back to the same tree, with the unescaped strings equal to the originals. |
| A2lDocument.PrintAndRead | crates/autors-a2l/src/writer.rs:67-170 | The same through the writer object, the lexer and both builders. |
| A2lDocument.LexesEntries | crates/autors-a2l/src/token.rs:26-106 | The printed text lexes to the tokens of a known derivation, each on its exact line, whatever text follows. |
| A2lDocument.EntriesMean | crates/autors-a2l/src/block.rs:41-174 | That derivation is one of the grammar and denotes what was emitted. |
| A2lDocument.ReferencesLexTrimmed | crates/autors-a2l/src/writer.rs:124-150 | References lex to themselves for every number of columns, except for what trimming the line takes from the end. |
| A2lDocument.ReferencesSurvive | crates/autors-a2l/src/writer.rs:124-150 | They survive unchanged exactly if there are none or the last one does not end in Unicode white space. |
| A2lDocument.ReferenceIsCut | crates/autors-a2l/src/writer.rs:124-150 | A reference of one letter and a no-break space, which is a word to the lexer, is written and read as the letter alone. |
| A2lDocument.TrimmedLine | crates/autors-a2l/src/writer.rs:145-149 | What trimming leaves of the line of references. |
| A2lDocument.EmitBody | crates/autors-a2l/src/writer.rs:91-170 | Emitting entries appends their text and restores the depth. |
| A2lPipeline.WordIsClean | crates/autors-a2l/src/token.rs:92-103 | A text lexes to itself exactly if it is not empty, holds no blank or quote and does not start a comment. |
| A2lPipeline.LexesString | crates/autors-a2l/src/token.rs:63-91 | A quoted escaped string is one token on one line, whatever it holds. |
| A2lPipeline.LexesLineComment | crates/autors-a2l/src/token.rs:40-44 | A line comment yields no token. |
| A2lPipeline.LexesBlockComment | crates/autors-a2l/src/token.rs:45-62 | A block comment yields no token and moves the line on by its newlines. |
| A2lPipeline.TokensFit | crates/autors-a2l/src/token.rs:26-106 | No token is longer than the text. |
| A2lToken.Tokenize | crates/autors-a2l/src/token.rs:26-106 | The byte loop computes the token list or the error of the text, with its line. |
| A2lWriter.UnescapeEscape | crates/autors-a2l/src/writer.rs:27-65 | Unescaping an escaped string gives the string back. |
| A2lWriter.EscapedIsOneString | crates/autors-a2l/src/writer.rs:27-43 | An escaped string closes at its own quote and spans no line. |
| A2lWriter.EscapeStr | crates/autors-a2l/src/writer.rs:27-43 | The loop with its shortcut for plain text escapes character by character. |
| A2lWriter.UnescapeStr | crates/autors-a2l/src/writer.rs:45-65 | The loop with its shortcut unescapes, a lone trailing backslash included. |
| A2lWriter.Writer.TagValue | crates/autors-a2l/src/writer.rs:95-114 | Exactly one line is appended, or nothing for a missing unquoted value. |
| A2lWriter.Writer.ValueLine | crates/autors-a2l/src/writer.rs:116-122 | Exactly one indented line is appended. |
| A2lWriter.Writer.AddReferences | crates/autors-a2l/src/writer.rs:124-150 | The loop over columns appends the trimmed line of references. |
| A2lWriter.Writer.BeginBlock | crates/autors-a2l/src/writer.rs:152-157 | The opening line, and one level deeper. |
| A2lWriter.Writer.EndBlock | crates/autors-a2l/src/writer.rs:159-163 | One level up, not below none, and the closing line. |
| A2lBlock.BuilderIsGrammar | crates/autors-a2l/src/block.rs:41-174 | The builder accepts a token list exactly if it derives from the grammar of nested blocks, and returns what the derivation denotes. |
| A2lBlock.DerivationIsUnique | crates/autors-a2l/src/block.rs:65-174 | A token list has at most one derivation, down to the delimiters and their keywords. |
| A2lBlock.BuildDerived | crates/autors-a2l/src/block.rs:65-174 | Tokens that start with a derivation are built as its items and then the rest. |
| A2lBlock.DerivationOf | crates/autors-a2l/src/block.rs:65-174 | Whatever is built has a derivation. |
| A2lBlock.TreeKeepsTokens | crates/autors-a2l/src/block.rs:41-174 | The tree holds its tokens: flattened, it gives them back but for the lines, quotes and case of the delimiters and their keywords, and building the flattened tokens gives the same tree. |
| A2lBlock.BuildBlockTree | crates/autors-a2l/src/block.rs:41-59 | The builder over a slice computes the tree or the error; its check for left-over tokens cannot fire. |
| A2lBlock.BuildBlockTreeOwned | crates/autors-a2l/src/block.rs:61-115 | The consuming builder computes the same tree, lines included, or the same error on the same line. |
| A2lBlock.BuildInner | crates/autors-a2l/src/block.rs:117-174 | The recursive builder agrees with the grammar's builder and reports its position. |
| A2lBlock.BuildInnerOwned | crates/autors-a2l/src/block.rs:65-115 | The recursive consuming builder agrees with the grammar's builder and leaves the rest of its tokens. |
| CcpMaster.Master.Drive | crates/autors-ccp/src/ccp.rs:1838-2851 | Over every run of requests, whatever is lost, late or refused: failed commands are among the sent ones, failed questions for a size among the failed ones, and with fewer than 256 failed commands nothing overruns. Without overruns, and if default requests are allowed or the run ends no session, no list is started while a configured element is missing, and a clean flag (on a connected master, if sessions may end) means that the slave has every configured element, and that every list which gave a positive answer to the last question for its size is exactly as configured. If also sources and lists belong together and no question for a size failed, all lists equal the configured ones, and none was started that did not. |
| CcpMaster.Master.Serve | crates/autors-ccp/src/ccp.rs:1926-2851 | Every request keeps the invariants; the commands that fail are among those it sends, and programmings that leave a list in doubt are no more than the failed questions for a size. Without overruns it sends no start early if default requests are allowed or no session has ended. |
| CcpMaster.Master.Execute | crates/autors-ccp/src/ccp.rs:1731-1803 | Every result but a timeout or a failed send is the verdict on the oldest reply, and that reply is the one to the very command just sent if and only if no command was unanswered. A decoded response therefore is this command's own, carries the slave's answer and says that the command took effect, or else 256 or more commands were unanswered; with 1 to 255 there is none. The connection is lost exactly on a timeout or a failed send, and `overruns` counts exactly the commands sent with 256 behind them. |
| CcpMaster.Master.Exchange | crates/autors-ccp/src/ccp.rs:1731-1778 | One command and the oldest reply; every failure to get one loses the connection, and nothing else does. |
| CcpMaster.Master.SendCommand | crates/autors-ccp/src/ccp.rs:1739-1753 | The command goes out under the next counter, and at most one reply joins the queue. |
| CcpMaster.Master.AwaitReply | crates/autors-ccp/src/ccp.rs:1700-1717 | The oldest reply, whatever other frames arrive before it; with none, one more command counts as unanswered, unless no reply is outstanding at all. |
| CcpLink.CounterIdentifies | crates/autors-ccp/src/ccp.rs:1739-1786 | A late reply is told from the awaited one by the eight-bit counter while fewer than 256 commands lie between. |
| CcpLink.AnswerIsOurs | crates/autors-ccp/src/ccp.rs:1731-1803 | A positive first reply with the awaited counter is the reply to the command just sent, and its answer, and no other reply was waiting. |
| CcpLink.FirstReply | crates/autors-ccp/src/ccp.rs:1739-1786 | The first reply is the one to the command just sent if and only if no command was unanswered; with fewer than 256 unanswered, only then can it be positive under the awaited counter. |
| CcpRuns.Collision | crates/autors-ccp/src/ccp.rs:1739-1786 | A run of the master in which 256 commands get no reply in time, and the late reply to the first is then returned for a command that the slave has never heard: the bound is sharp. |
| CcpRuns.StrayError | crates/autors-ccp/src/ccp.rs:1772-1783 | A run in which the late refusal of one command becomes the result of the next, which the slave has obeyed. |
| CcpRuns.StaysBehind | crates/autors-ccp/src/ccp.rs:1731-1803 | A master that is behind stays behind: with 1 to 255 commands unanswered, no sequence of commands has a single success, although the slave obeys and answers every one at once. |
| CcpLink.Device.Send | crates/autors-ccp/src/ccp.rs:1744-1762 | The environment's choices: the frame is lost, refused or obeyed, and its reply lost or queued in order; a policy may fix them. |
| CcpMaster.Master.SetConnectionState | crates/autors-ccp/src/ccp.rs:1848-1914 | Connection events alternate and the last is the connection state; without a response nothing is sent, which ends the recursion; a new connection leaves the lists' flag dirty. |
| CcpMaster.Master.DefaultRequests | crates/autors-ccp/src/ccp.rs:1855-1903 | The requests after connecting never write memory, and empty lists only if they also set the flag. |
| CcpMaster.Master.Connect | crates/autors-ccp/src/ccp.rs:1926-1931 | Connecting keeps the invariants; connected means that the slave said OK; the lists of the sources keep their numbers and only get shorter. |
| CcpMaster.Master.DisconnectMode | crates/autors-ccp/src/ccp.rs:1952-1961 | A connected slave is told, and the connection is lost whatever it answers. |
| CcpMaster.Master.Disconnect | crates/autors-ccp/src/ccp.rs:1945-1950 | Measuring stops, then the session ends. |
| CcpMaster.Master.WriteSync | crates/autors-ccp/src/ccp.rs:2449-2528 | True means that no command failed and, with fewer than 256 unanswered before, that memory is the old memory with the data stored at the address and nothing else changed; false, that a prefix of the data was stored; lists are untouched either way. |
| CcpMaster.Master.WriteLoop | crates/autors-ccp/src/ccp.rs:2487-2520 | Every chunk takes one command: with success the chunks sent are stored, with a failure all of them or all but the last, in order and nothing else. |
| CcpMaster.Master.ReadSync | crates/autors-ccp/src/ccp.rs:2385-2447 | Data of the requested length is the memory byte for byte if fewer than 256 commands were unanswered before; with data no command failed; nothing is written, and no data means no connection, a cancelled transfer or a failed command. |
| CcpMaster.Master.UploadLoop | crates/autors-ccp/src/ccp.rs:2413-2441 | The chunks put together are the memory, unless the slave sent too little. |
| CcpMaster.Master.WriteAndRead | crates/autors-ccp/src/ccp.rs:2385-2528 | Data written reads back when the slave supplies every byte, if fewer than 256 commands were unanswered before. |
| CcpSlave.StoreIsExact | crates/autors-ccp/src/ccp.rs:2449-2528 | Storing changes the addressed range to the data and nothing else. |
| CcpSlave.ReadStored | crates/autors-ccp/src/ccp.rs:2385-2528 | Stored data reads back. |
| CcpMaster.Master.StartMeasurements | crates/autors-ccp/src/ccp.rs:2729-2809 | Dirty lists are programmed first: then every configured element is in the slave, and the lists equal the configured ones if no question for a size failed and every list has a source. A starting command is sent early if and only if one is sent and an element is missing, which never happens if the session was not ended since programming or the lists were dirty. Success means that every list with elements runs. With a slave that obeys, starting succeeds. |
| CcpMaster.Master.Reprogram | crates/autors-ccp/src/ccp.rs:2743-2771 | Programming every list cleans the flag exactly if it succeeds; lists that answered are exact, and if no question for a size failed and every list has a source, all of them did. |
| CcpMaster.Master.Launch | crates/autors-ccp/src/ccp.rs:2772-2808 | Clean lists are started in order; the tables are not touched; the starts sent early are counted exactly. |
| CcpRuns.StaleElements | crates/autors-ccp/src/ccp.rs:2679-2809 | Two runs, the question refused or lost: a longer list is configured, started, stopped, and a shorter one configured and started. Starting succeeds and cleans the flag, but the slave's list still holds the rest of the longer one; a lost question has also lost the connection by then. |
| CcpRuns.EndedSession | crates/autors-ccp/src/ccp.rs:1926-2809 | Connect, configure, start, disconnect, connect, start against a slave that obeys everything, without default requests: the flag is clean, and the list is started although the slave has lost its elements. |
| CcpMaster.Master.ProgramLists | crates/autors-ccp/src/ccp.rs:2743-2765 | Every list is asked for and written, and the lists do not disturb each other; those that answered were emptied first, and a list with a source answered unless a question for a size failed. |
| CcpMaster.Master.WriteDaqList | crates/autors-ccp/src/ccp.rs:2706-2727 | Success means that every element of the list is in the slave; failure, that some are; nothing else changes. |
| CcpMaster.Master.UpdateDaqSizes | crates/autors-ccp/src/ccp.rs:2679-2704 | Asking for the size of a list touches no other list and empties it or leaves it; a positive answer means that it was emptied, and a list with a source gives one unless the question failed. The lengths on record only shrink. |
| CcpMaster.Master.StopMeasurements | crates/autors-ccp/src/ccp.rs:2811-2851 | Stopping a running measurement successfully means that no configured list runs any more; tables are untouched. |
| CcpMaster.Master.ConfigureMeasurements | crates/autors-ccp/src/ccp.rs:2669-2677 | New lists leave the flag dirty, and so does a configuration that fails. |
| CcpSteps.ProgrammedIsExact | crates/autors-ccp/src/ccp.rs:2679-2727 | A programmed list is exact if and only if it was emptied first or held nothing else before. |
| CcpSteps.ProgrammedInStep | crates/autors-ccp/src/ccp.rs:2756-2764 | After all lists are programmed, the slave has every element, and lists known to have been emptied hold nothing else. |
| CcpSteps.ProgramOne | crates/autors-ccp/src/ccp.rs:2757-2763 | Programming one more list keeps those before it. |
| CcpSlave.EndOfSessionForgets | crates/autors-ccp/src/ccp.rs:1952-1961 | After the session has ended, the slave has all configured elements if and only if no list has any. |
| CcpMaster.Master.Poll | crates/autors-ccp/src/ccp.rs:1719-1727 | Polling takes replies out of the queue and does not touch the slave. |
| AscRoundTrip.RoundTrip | crates/autors-asc/src/lib.rs:422-768 | In either base, a record is read back from its written text if and only if it is canonical: classic messages with as much data as their DLC or remote, CAN FD messages that are empty exactly when remote, of type FD or FD with BRS, with a clean name that is no bit and columns of their own, error frames with a direction exactly on the FD form, and events that do not look like CAN. |
| AscRoundTrip.ParsedIsShaped | crates/autors-asc/src/lib.rs:422-636 | What every parsed record satisfies. |
| AscRoundTrip.WrittenMessageReads | crates/autors-asc/src/lib.rs:479-768 | A message that writing accepts and parsing can return reads back, with the default columns if it has none. |
| AscRoundTrip.AnyTypeReads | crates/autors-asc/src/lib.rs:479-768 | A message of any other frame type is written like one of type FD, with bit rate switching if it has that bit, and reads back as that. |
| AscRoundTrip.IdRoundTrip | crates/autors-asc/src/lib.rs:800-816 | A written identifier reads back with its extension mark. |
| AscRoundTrip.BytesRoundTrip | crates/autors-asc/src/lib.rs:818-827 | Written payload bytes read back. |
| AscFile.FileRoundTrip | crates/autors-asc/src/lib.rs:271-389 | A file of such records is written if and only if times are absolute or ordered, and then reads back; relative times add up to the times written. |
| AscFile.CollectTokens | crates/autors-asc/src/lib.rs:428-450 | Words beyond the 96th are handled like the others. |
| AscFile.ParseRecord | crates/autors-asc/src/lib.rs:422-477 | The parser with its inline array interprets the words of the line. |
| AscFile.WriteRecord | crates/autors-asc/src/lib.rs:638-768 | The text of a record is appended, or nothing if it is refused. |
| AscFile.WriteLines | crates/autors-asc/src/lib.rs:377-389 | The loop that writes times as differences. |
| AscFile.ReadLines | crates/autors-asc/src/lib.rs:303-335 | The loop that adds the differences up. |
| AscFile.OrderedMeans | crates/autors-asc/src/lib.rs:381-386 | Ordered step by step means ordered throughout. |
| Text.TokensOfRow | crates/autors-asc/src/lib.rs:422-450 | A row of words with white space between splits into its words. |
| Text.ParseDigits | crates/autors-asc/src/lib.rs:829-832 | A number written in either base reads back. |

## Left out

- DEFLATE: `Zlib` has two functions, and `Inverts` asks that inflating what was deflated gives it back; nothing else is assumed of them.
- BLF events of irregular layout (types 4, 11, 57, 65, 71, 72, 74, 101 to 104, 114, 120 to 123, 129): a registered type outside `LayoutOf`; the stream theorems hold for any codec, the byte-level ones do not cover these types. Ethernet events are the same shape.
- Fixed-length byte arrays inside BLF events count as one little-endian number.
- Errors of BLF parsing carry no offsets and no messages; I/O errors other than the end of the source are not part of this model, nor are `usize` limits.
- 64-bit overflow of BLF sizes: the final header wraps them (`Wrap64`), as release builds do.
- `BlfFile::add_can_frame`, LIN frames, filters and statistics: conversions of single frames.
- Calendar.CivilOfDaysOfCivil: years are unbounded, so the subtraction of 32-bit `days_from_civil` at the smallest year is not covered.
- A2L texts are sequences of characters; the delimiters are ASCII, so working on UTF-8 bytes makes no difference. Line numbers do not wrap at 32 bits.
- A2L nodes (`IF_DATA`, `ParamCursor`, the typed model): they call the modelled writer and read the modelled tree.
- A2L lines that a node formats itself with line breaks or quotes inside a value are outside `A2lDocument`.
- CCP command and reply layouts: commands are values, replies are bytes of which code, error, counter and memory data are interpreted.
- CCP addresses do not wrap and address translation is off.
- CCP timers: a deadline passes when the environment says so, after any finite number of frames.
- CCP cached responses are reduced to the active page; seeds and keys are arbitrary, page switching, checksums and EPK checks are not modelled.
- CcpMaster.Master.ReadSync: short answers through SHORT_UP or UPLOAD are not ruled out, as the code does not check their length; only the length of the result tells.
- CcpMaster.Master.ConfigureMeasurements: how measurements are packed into tables is left open (`tables` is any filling that fits the bytes of the protocol).
- Direct use of the public list commands (GET_DAQ_SIZE, SET_DAQ_PTR, WRITE_DAQ) by a caller changes the slave's lists behind the flag and is not part of the runs of `Drive`.
- ASC header lines and the decimal text of timestamps: times are whole microseconds, a line is its time and its body; rounding of floating-point seconds is not modelled.
- ASC conversion from and to the shared CAN frame, and its DLC table.
