# A model of the log agent's hard parts

Stanza tails files, parses and reshapes the entries it reads, and ships them through
buffered outputs. This project models the components in which that is difficult and
proves what they promise, each against a specification that is simpler than the code.
Every theorem is about all inputs, all runs or all interleavings; there are no bounds
besides those named here.

| file | component |
|---|---|
| `Multiline`, `Delimiters`, `FileReader`, `FileInput`, `FileOperator` | split functions and what their tokens are, the reader with its growing fingerprint, the lists of the polling operator, and the operator itself |
| `Tailing`, `TailingOnce`, `TailingFaults` | whole runs of tailing one file: what they conserve, when everything is sent exactly once, and what it takes to lose or repeat text |
| `Checkpoint` | the reader that saves its offset every few tokens, crashing at any point |
| `Bags`, `MemoryBuffer`, `BufferProtocol`, `OutputProtocol` | the memory buffer as an object, as a concurrent protocol, and inside an output with its feeder and flushers |
| `Records`, `RecordField`, `Flatten` | editing a record as a value, in place through maps, and flattening |
| `FieldSyntax`, `FieldPrinting` | the notation of fields: scanner, grammar, printers |
| `RequestBuilder` | packing entries into Google Cloud requests |
| `XmlTrees`, `XmlParser` | building XML elements with pointers |
| `Recombine`, `OtlpGroups`, `ExprString` | combining entries, grouping them by resource, strings with embedded expressions |
| `Wrappers`, `Sequences` | option and result types, searching and joining sequences |

Code that changes state is modelled by classes and methods with loops; each is tied by its
contract to a function or a state machine, and the properties are proved of that. Goroutines
are state machines of atomic steps in any interleaving. A crash or a cancelled context may
come between any two steps.

## What is assumed of libraries

A compiled pattern is any function from bytes to a match inside them. `bufio.Scanner` hands
its split function what its buffer holds and reads more when that gives no token. A channel
is a bounded sequence, a semaphore a counter, the database a map from keys to values, and
a write to it succeeds. Encoding an entry for the database and decoding it gives the entry
back. Go's map iteration takes keys in any order. `sort.Strings` sorts. The size of a
request is a base plus a positive weight for each entry. The XML decoder, unless it fails,
yields a well-nested stream (section 2.1 of W3C XML 1.0). Bytes decoded from JSON have the
capacity of their base64 text. Characters are code points.

## Terms

A *poll* of the file is *calm* if the file is at least as long as a fingerprint or the split
function cuts no token that it would hold back before the end of the file; a run is calm if
its polls are. With newlines and with patterns for line starts every run is calm; with
patterns for line ends exactly those are in which no token left to cut in a short file ends
one byte before its end. A file is *short* if it is shorter than a fingerprint. A token is
cut *early* if the split function needs not be told that the file has ended.

## Findings

These are properties of the code that its documentation does not mention. Each is proved.

- The line-end split function compares the end of a match with `len(data)-1` where the end
  of the data is `len(data)`. A token is held back exactly when one byte follows its match,
  until the end of the file is reported; the fingerprint of a short file is then cut to
  where the tokens before it end. If there are none, nothing recognises the file, and the
  second poll sends everything again: exactly if the first match of the file ends one byte
  before its end (`LineEndRepeatsIff`). If there are some, the second poll sends nothing,
  but the offset lies beyond the fingerprint, and after a restart the slice up to it can
  exceed its capacity, which stops the program (`RestartFailsIff`). Without such tokens
  line ends are sent exactly once (`LineEndsExactlyOnce`).
- The line-start split function looks for the next record from one byte after the end of a
  match, so that a record that is nothing but the literal is not told from the next one
  (`LineStartCutsAtRecords`); and flushing at the end makes one token of all records that
  have not been cut before (`FlushedLineStartIs`).
- A reader of which the previous poll cut no token keeps an empty fingerprint, which matches
  nothing. When its first token is completed later, both the new reader and the left-over
  one send it. In runs in which no short file has a token held back, text is sent twice
  exactly if there is such a late poll (`RepeatsIff`, `TailingIsExact`).
- If the operator is restarted while all it knows of a file are such readers, and it is to
  start at the end of files, it goes on from the end of the file: lines that arrived after
  reading had begun at the beginning are never sent (`RestartLosesTheFirstTokens`,
  `RestartLosesALine`). Reading goes on from where it began exactly if this does not happen
  (`MovedIff`).
- Removing duplicate files can drop a file although nothing comparable with it is kept:
  exactly if the last one comparable with it is dropped for one that is not
  (`RepresentedIff`, `ShortFingerprintsLoseAFile`).
- The checkpoint of the checkpointed reader is used if the saved fingerprint starts with the
  current one, which is the wrong way round for a growing file: a checkpoint saved before
  the fingerprint was full is discarded as soon as the file has grown (`ResumesIff`).
- An entry added after an output's buffer was closed is lost (`LateAddIsLost`). Loading does
  not clear the bucket and ids start again, so that the next build loads entries once more
  that were flushed (`SecondLife`, `FlushedComeBack`).
- `buildRequests` recurses forever exactly if its first call does not return at once, and an
  entry other than the last one exceeds the limit by itself or the base does
  (`RecursionEndsIff`). A first call returns at once if everything fits or there is a single
  entry.
- Parsing an empty string as a field indexes an empty list (`EmptyStringPanics`). A record
  field's own decoder does not invert its encoder if a key holds a dot (`JSONDotRoundTrip`).
- Flattening an empty root map leaves nil, not an empty map (`FlattenedRoot`).
- Grouping by resource: every resource of two labels or more shares its group key with
  another, ambiguous one (`LongerResourcesCollide`).

## Model

| member | source | states |
|---|---|---|
| Multiline.LineStartSplit | operator/helper/multiline.go:62-101 | a token is exactly the bytes advanced over, and something is advanced over |
| Multiline.LineEndSplit | operator/helper/multiline.go:104-127 | a token is exactly the bytes advanced over; with non-empty matches something is advanced over |
| Multiline.NewlineSplit | operator/helper/multiline.go:130-159 | a token is the bytes advanced over less the newline and at most one carriage return |
| Delimiters.LineStartCutsAtRecords | operator/helper/multiline.go:62-101 | for every literal: a token ends where the literal occurs first, from one byte after a match at the beginning on; more is asked for if and only if there is no such place |
| Delimiters.LineEndCutsAfterLiteral | operator/helper/multiline.go:104-127 | for every literal: a token ends after the first occurrence; more is asked for if and only if there is none or one byte follows it that is not known to be the last |
| Delimiters.NewlineCutsLines | operator/helper/multiline.go:130-159 | a token is what comes before the first newline, without a carriage return just before it; more is asked for if and only if there is no newline |
| Delimiters.CutsAreRecords | operator/helper/multiline.go:62-101 | the tokens of a pass are the records of the data |
| Delimiters.RecordsAreUnique | operator/helper/multiline.go:62-101 | the records of data, told by where the literal occurs, are determined |
| Delimiters.RecordsBeginWithLiteral | operator/helper/multiline.go:62-101 | every record but the first begins with the literal, and no record contains it further on |
| Delimiters.CutsAreTerminated | operator/helper/multiline.go:104-127 | the tokens of a pass end with the first occurrences of the literal, and none is left |
| Delimiters.CutsAreLines | operator/helper/multiline.go:130-159 | the tokens of a pass are the lines of the data |
| Delimiters.LinesAreUnique | operator/helper/multiline.go:130-159 | the lines of data are determined |
| Delimiters.FlushedLineEndIs | operator/helper/multiline.go:104-127 | flushing adds one token, of what is left |
| Delimiters.FlushedNewlineIs | operator/helper/multiline.go:130-159 | flushing adds one token, of what is left |
| Delimiters.FlushedLineStartIs | operator/helper/multiline.go:62-101 | flushing makes one token of everything from the first record on, unless that is nothing but the literal |
| Multiline.StreamingEqualsBatch | operator/helper/multiline.go:62-159 | a split function cuts every chunking of every data, ended by an at-EOF call, into the tokens of one pass if and only if no token it cuts early is ever revised |
| Multiline.StreamingLineStart | operator/helper/multiline.go:62-101 | streaming equals batch for line starts and every prefix-stable pattern |
| Multiline.StreamingLineEnd | operator/helper/multiline.go:104-127 | streaming equals batch for line ends and every prefix-stable pattern with non-empty matches |
| Multiline.StreamingNewline | operator/helper/multiline.go:130-159 | streaming equals batch for newlines in any encoding |
| Multiline.LineEndHoldsBack | operator/helper/multiline.go:104-127 | reporting the end of the file changes the answer if and only if the first match ends one byte before the end of the data |
| Multiline.CutsOfGrownData | operator/helper/multiline.go:62-159 | appending to the data keeps every token and goes on from what was left |
| Multiline.CutsAfter | operator/builtin/input/file/positional_scanner.go:15-31 | after the bytes of the first tokens come exactly the remaining tokens |
| FileReader.Reader.Scan | operator/builtin/input/file/positional_scanner.go:15-31 | whatever sizes of reads fill the buffer, a scan cuts the token that tokenising all the remaining bytes begins with, and the position moves by its advance |
| FileReader.Reader.ReadFile | operator/builtin/input/file/reader.go:119-151 | a pass cancelled after any number of scans has sent the first tokens of the rest of the file and ends at their end, whatever the fingerprint; this becomes what `FingerprintAfter` gives if it was full or covered the offset, and always keeps what it held before the offset |
| FileReader.ReadTracks | operator/builtin/input/file/reader.go:250-258 | rebuilding the fingerprint from the offset keeps it full, or a prefix that takes in the file and is cut back by the empty read |
| FileInput.RemoveDuplicates | operator/builtin/input/file/file.go:228-252 | the splice loop ends and leaves files and fingerprints aligned: those that are non-empty and comparable to no later one, in order |
| FileInput.SurvivorsIncomparable | operator/builtin/input/file/file.go:228-252 | no fingerprint left is a prefix of another |
| FileInput.LastSurvives | operator/builtin/input/file/file.go:228-252 | the last non-empty fingerprint is always kept |
| FileInput.RepresentedIff | operator/builtin/input/file/file.go:228-252 | a non-empty file is kept, or one is that may be the same, if and only if the last one comparable with it is not dropped for another |
| FileInput.FullFingerprintsKeepOne | operator/builtin/input/file/file.go:228-252 | with full fingerprints a file is dropped only in favour of an equal one that is kept |
| FileInput.ShortFingerprintsLoseAFile | operator/builtin/input/file/file.go:228-252 | the smallest case in which it is not |
| FileInput.KnownStaysOrdered | operator/builtin/input/file/file.go:107-132 | over every run of polls and reloads the known readers stay ordered by non-increasing generation |
| FileInput.SavedKeepsTheYoung | operator/builtin/input/file/file.go:270-286 | saving keeps a suffix, drops only readers older than three generations, and leaves none older if a younger one exists |
| FileInput.ReadersAge | operator/builtin/input/file/file.go:107-132 | over every run the generation of a known reader is the number of generations started since the poll that saved it, or since the last reload |
| FileInput.OldReadersAreDropped | operator/builtin/input/file/file.go:270-286 | once four generations have been started, a poll that saves a reader leaves none that was saved before them |
| FileInput.BatchesCoverTheListing | operator/builtin/input/file/file.go:107-132 | between two listings the batches concatenate to the listing, each of half of max_concurrent_files and the last of at most that |
| Tailing.NewReaderIsGood | operator/builtin/input/file/file.go:288-329 | the reader a poll makes identifies the file and starts where the last one stopped; from scratch only if nothing was cut |
| Tailing.PassKeepsGood | operator/builtin/input/file/reader.go:119-151 | a pass keeps the fingerprint a prefix of the file by which it is recognised again |
| Tailing.AfterKeeps | operator/builtin/input/file/file.go:107-183 | over every calm run: every stored fingerprint is a prefix of the file, the tokens cut since the last reader from scratch are the first of the file's from there, and what was sent is their text plus the repetitions |
| Tailing.ReadAgain | operator/builtin/input/file/file.go:158-176 | the left-over reader is read again exactly if the previous poll left it an empty fingerprint |
| Tailing.MovedIff | operator/builtin/input/file/file.go:288-315 | reading goes on from where the first reader of the file began if and only if no poll after a restart, with start at the end, finds only readers with empty fingerprints |
| Tailing.SkipLosesTheText | operator/builtin/input/file/file.go:288-315 | such a poll sends nothing of a file of which nothing was sent before, whatever tokens it has |
| Tailing.TailingIsExact | operator/builtin/input/file/file.go:107-183 | after every calm run of appends, polls, restarts and stops inside polls that ends in a complete poll, the texts sent are those of tokenising the file from `start` plus the repetitions, as multisets; exactly those, in order, if and only if no poll was late; and `start` is where reading began if and only if no poll skipped |
| Tailing.RepeatsIff | operator/builtin/input/file/file.go:158-176 | in calm runs left-over readers, which are all that repeats text there, repeat some if and only if some poll is late |
| TailingOnce.BaseIsInput | operator/builtin/input/file/file.go:288-315 | where reading begins follows from growth, polls and restarts alone |
| TailingOnce.PromptIsFine | operator/builtin/input/file/file.go:107-183 | if the first token is complete at the first poll that finds bytes, or that poll starts at the end, no poll is late and none skips |
| TailingOnce.ExactlyOnce | operator/builtin/input/file/file.go:107-183 | every such run that is calm sends the tokens of the file from where reading began, exactly once and in order |
| TailingOnce.LinesExactlyOnce | operator/builtin/input/file/file.go:107-183 | every such run sends the lines of the file from where reading began, without the empty ones, once and in order, whether files are read from their beginning or their end |
| TailingOnce.RecordsExactlyOnce | operator/builtin/input/file/file.go:107-183 | the same for records that begin with any prefix-stable pattern |
| TailingOnce.LiteralRecordsExactlyOnce | operator/builtin/input/file/file.go:107-183 | with a literal: what is sent are the records of the file from where reading began |
| TailingOnce.LineEndCalmIff | operator/helper/multiline.go:104-127 | a poll with a line-end pattern is calm if and only if the fingerprint will be full or no token left to cut ends one byte before the end of the file |
| TailingOnce.LineEndsExactlyOnce | operator/builtin/input/file/file.go:107-183 | the same for records that end with a pattern, if no poll of a short file finds a new token that ends one byte before its end |
| TailingOnce.LiteralLineEndsExactlyOnce | operator/builtin/input/file/file.go:107-183 | with a literal: what is sent are the records that end with it |
| TailingFaults.ResumableIff | operator/builtin/input/file/reader.go:250-258 | a complete pass over a short file leaves a resumable reader if and only if the split function held no token back |
| TailingFaults.SecondPollRepeatsIff | operator/builtin/input/file/file.go:107-183 | for every short file first polled from its beginning, a second complete poll sends text again if and only if no token is cut early and some text is cut; then it sends all of it |
| TailingFaults.LineEndRepeatsIff | operator/helper/multiline.go:104-127 | with a line-end pattern: if and only if the first match ends one byte before the end of the file |
| TailingFaults.HeldBackTokenIsRepeated | operator/helper/multiline.go:104-127 | the smallest such file has its token sent twice |
| TailingFaults.RestartLosesTheFirstTokens | operator/builtin/input/file/file.go:288-315 | started at the end of files, an operator restarted between the polls of a new file that had no complete token sends nothing of it, whatever tokens it has by then |
| TailingFaults.RestartLosesALine | operator/builtin/input/file/fingerprint.go:52-62 | the smallest such file: a line of one character |
| TailingFaults.CalmSlicesAreInRange | operator/builtin/input/file/reader.go:250-258 | in every calm run slicing a fingerprint up to the offset is in range |
| TailingFaults.RestartFailsIff | operator/builtin/input/file/reader.go:250-258 | a short file polled from its beginning, a restart, and a poll of the file, grown or not: the slice exceeds the capacity if and only if some tokens were cut early and others end beyond the capacity they left |
| Tailing.PollsAreDetermined | operator/builtin/input/file/file.go:107-183 | in every reachable state whose tokens fit the buffer the operator's poll is the specified one |
| FileOperator.InputOperator.NextBatch | operator/builtin/input/file/file.go:107-132 | the paths of a poll come from the queue, or from a listing that starts a generation |
| FileOperator.InputOperator.SaveCurrent | operator/builtin/input/file/file.go:270-286 | the loop over known readers leaves what the specification keeps |
| FileOperator.InputOperator.FindFingerprintMatch | operator/builtin/input/file/file.go:317-329 | the newest known reader whose fingerprint the file's starts with |
| FileOperator.InputOperator.PollFile | operator/builtin/input/file/file.go:107-183 | a poll of one file sends the texts of the specified poll, and leaves its readers if their fingerprints are determined |
| FileOperator.InputOperator.PollEmptyFile | operator/builtin/input/file/file.go:228-237 | an empty file is left alone |
| FileOperator.InputOperator.Restart | operator/builtin/input/file/file.go:331-389 | a restart brings the known readers back without their generations |
| FileOperator.Drive | operator/builtin/input/file/file.go:57-183 | the operator driven by any growth, polls and restarts that are calm has the state and sends the texts of the run |
| Checkpoint.ResumesIff | operator/builtin/input/filecheck/reader.go:103-120 | the checkpoint of a file that keeps its beginning is used if and only if the saved fingerprint is full or the file is no longer than it |
| Checkpoint.OutgrownStartsAnew | operator/builtin/input/filecheck/reader.go:95-132 | otherwise reading starts from the beginning or from the end |
| Checkpoint.StepKeeps | operator/builtin/input/filecheck/reader.go:149-210 | every step of reading, saving, growing, crashing and restarting keeps: the saved offset is where a token begins, at most checkpoint_at tokens behind what was sent |
| Checkpoint.CrashesLoseNothing | operator/builtin/input/filecheck/reader.go:149-219 | after every run with crashes anywhere: all tokens before the next one were sent, each crash costs at most checkpoint_at repetitions, and once nothing is left to scan every token was sent |
| Checkpoint.RestartsAtASentToken | operator/builtin/input/filecheck/reader.go:95-120 | a crash at any point followed by a restart resumes where a token begins, after tokens that were all sent, at most checkpoint_at of them again |
| Checkpoint.TimerSavesEverything | operator/builtin/input/filecheck/reader.go:166-175 | after the timer went off, a crash costs nothing: reading resumes at the offset it was at |
| Checkpoint.SavedEverySoMany | operator/builtin/input/filecheck/reader.go:192-200 | without the timer, the tokens since the last save are as many as were counted, over every run |
| Checkpoint.Reader.ReadFile | operator/builtin/input/filecheck/reader.go:149-210 | everything a pass does is a run of that protocol, whenever the timer goes off or the context is cancelled; it has sent the first tokens after the offset, and unless cancelled all of them, and saves where they end |
| MemoryBuffer.LittleEndianRoundTrip | operator/buffer/memory.go:250-261 | an id is recovered from its little-endian bytes |
| MemoryBuffer.KeysDiffer | operator/buffer/memory.go:250-261 | different ids have different keys |
| MemoryBuffer.LowByteFirst | operator/buffer/memory.go:250-261 | the low byte of an id comes first in its key, so that keys are not in the order of ids |
| MemoryBuffer.RemainingValues | operator/buffer/memory.go:216-248 | in-flight entries under their ids and queued ones under new ids do not collide |
| MemoryBuffer.CloseSavesUnflushed | operator/buffer/memory.go:216-248 | closing saves every unflushed entry, and exactly those if and only if every key the bucket held is written again |
| MemoryBuffer.MemoryBuffer.Add | operator/buffer/memory.go:75-84 | an add appends to the queue, which has room, if and only if there is a permit; otherwise nothing changes |
| MemoryBuffer.MemoryBuffer.Read | operator/buffer/memory.go:87-106 | a read takes entries from the front and puts each in flight under a new id |
| MemoryBuffer.MemoryBuffer.MarkRange | operator/buffer/memory.go:192-204 | marking a range removes exactly its ids and gives back as many permits; a range beyond the ids fails |
| MemoryBuffer.MemoryBuffer.Close | operator/buffer/memory.go:216-248 | the two loops leave the specified bucket whatever the order of the in-flight map |
| MemoryBuffer.MemoryBuffer.Load | operator/buffer/memory.go:264-295 | loading succeeds if and only if the entries fit, and then holds all of them, one permit each |
| MemoryBuffer.CloseThenBuild | operator/buffer/memory.go:216-295 | closing and building on an empty bucket restores exactly the unflushed multiset with one permit per entry, and fails exactly if there are more than max_entries |
| MemoryBuffer.SecondLife | operator/buffer/memory.go:216-295 | built on a bucket, after some entries are flushed and the buffer closed, the bucket holds the others and whatever it held under keys that are not written again |
| MemoryBuffer.FlushedComeBack | operator/buffer/memory.go:264-295 | if the bucket came from a buffer with nothing in flight, as many entries come back as were flushed: the first of its queue |
| BufferProtocol.InvStep | operator/buffer/memory.go:75-147 | every step of adders, readers and clearers keeps permits, conservation, ownership of ids and pending marks |
| BufferProtocol.InterleavingsAreSafe | operator/buffer/memory.go:75-204 | in every state of every interleaving: permits are those of entries in transit, queued, in flight or being released, at most max_entries; a send never blocks; a release never exceeds what is held; ids are distinct; every accepted entry is in exactly one place or flushed; entries are taken in the order in which they were sent |
| OutputProtocol.OutStep | operator/builtin/output/elastic/elastic.go:124-225 | every step of adders, the feed loop, flushers and Stop keeps the output's invariant: stages in order, chunks marked once and as a whole, entries accounted for |
| OutputProtocol.NeverStuck | operator/flusher/flusher.go:75-127 | whatever marking, releasing and closing rely on holds when they are reached |
| OutputProtocol.StopAccountsForEverything | operator/builtin/output/elastic/elastic.go:124-134 | after Stop the accepted entries are those flushed, those saved and those adders sent too late; nothing is lost if and only if there are none of these; no chunk is marked twice |
| OutputProtocol.EveryChunkIsStarted | operator/flusher/flusher.go:75-90 | a chunk that was read is always started: the flusher is not cancelled before the feed loop is over |
| OutputProtocol.StopLosesNothing | operator/builtin/output/elastic/elastic.go:124-225 | with no add under way once Stop has begun, every accepted entry was flushed or is saved, also of chunks that were given up |
| OutputProtocol.FlushedChunksLeave | operator/builtin/output/elastic/elastic.go:197-224 | over every run: no entry of a chunk that was flushed is in flight or saved under its id; the entries flushed are exactly those of the chunks flushed; and once nothing is being given back, only the others hold permits |
| OutputProtocol.ChunksAreBounded | operator/flusher/flusher.go:75-90 | over every run: no chunk exceeds the chunk size, and no more chunks are being flushed than may be |
| OutputProtocol.NoChunkIsForgotten | operator/builtin/output/elastic/elastic.go:189-225 | over every run a chunk with entries is with the feed loop, being flushed, flushed or given up; after Stop it is one of the last two |
| OutputProtocol.LateAddIsLost | operator/buffer/memory.go:75-84 | an entry accepted after the close is neither flushed nor saved |
| Records.GetSet | entry/record_field.go:66-92 | what is set is found, a map merged over the fields that were there |
| Records.GetMerge | entry/record_field.go:96-110 | every merged key is readable with all that is in it, the others as before |
| Records.SetElsewhere | entry/record_field.go:66-92 | setting changes nothing at incomparable paths |
| Records.GetDelete | entry/record_field.go:114-140 | what is deleted is gone with all that is in it |
| Records.DeleteElsewhere | entry/record_field.go:114-140 | deleting changes nothing at incomparable paths |
| Records.PutDeleted | entry/record_field.go:114-140 | putting back what was deleted restores the record |
| Records.FlattenInAnyOrder | operator/builtin/transformer/flatten/flatten.go:76-101 | setting the children in any order gives the parent without the key, overlaid by the children, a map child merged one level |
| Records.FlattenedRoot | operator/builtin/transformer/flatten/flatten.go:76-101 | flattening the root changes it if and only if it is an empty map, which becomes nil |
| RecordField.Entry.Get | entry/record_field.go:45-61 | walking the maps finds what is at the path of the record |
| RecordField.Entry.GetNestedMap | entry/record_field.go:144-157 | the nested map, made if there is none, is the one at the path, and the record is otherwise as before |
| RecordField.Entry.Set | entry/record_field.go:66-92 | setting in place through map pointers is the recursive update, for every tree-shaped record and value that share no map |
| RecordField.Entry.Merge | entry/record_field.go:96-110 | merging in place, in any order of the values, is the recursive merge |
| RecordField.Entry.Delete | entry/record_field.go:114-140 | deleting in place is the recursive deletion, returns what was there and detaches it |
| Flatten.Transform | operator/builtin/transformer/flatten/flatten.go:76-101 | for any order of the children the record becomes the flattened one; a missing field or one that is not a map is an error and leaves the record's value as it was |
| FieldSyntax.ScanIff | entry/field.go:102-169 | in each of the six states the scanner accepts exactly what the grammar allows from there |
| FieldSyntax.SplitsIff | entry/field.go:102-169 | a string splits into some segments if and only if they are well-formed and are written like it |
| FieldSyntax.FaultsAreNamed | entry/field.go:102-169 | each way of going wrong after well-formed segments gives its own one of the six errors |
| FieldSyntax.SplitField | entry/field.go:102-169 | the loop over state, token start and fields computes the scanner's keys or its error |
| FieldPrinting.FieldFromString | entry/field.go:51-73 | the field or the error that the keys name |
| FieldPrinting.ParseOfWritten | entry/field.go:51-73 | the field or the error that well-formed segments stand for |
| FieldPrinting.SplitErrorsIff | entry/field.go:51-73 | a splitting error is returned if and only if the string is not written as well-formed segments |
| FieldPrinting.EmptyStringPanics | entry/field.go:51-73 | an empty list of keys is indexed if and only if the string is empty |
| FieldPrinting.SplitsInto | entry/field.go:102-169 | a string is split into the texts of segments written like it if and only if those are well-formed |
| FieldPrinting.ToJSONDot | entry/record_field.go:208-238 | the printing loops write the segments of a record path |
| FieldPrinting.OneKeyString | entry/label_field.go:47-52 | labels and resources are printed as their segments |
| FieldPrinting.PrintThenParse | entry/field.go:51-73 | printing then parsing is the identity if and only if: the root; a dotted path without single quotes; an undotted path without left brackets whose first key is neither empty nor a prefix; labels and resources likewise |
| FieldPrinting.SplitAtDotsIff | entry/field.go:102-169 | the scanner splits at every dot if and only if the string has no left bracket, is not empty and does not begin with a dot |
| FieldPrinting.JSONDotRoundTrip | entry/record_field.go:197-238 | a record field's own decoder inverts its encoder if and only if it is the root, or no key has a dot and the first key does not stand for the root |
| RequestBuilder.RecursionEndsIff | operator/builtin/output/googlecloud/request.go:42-76 | the recursion ends if and only if the first call returns at once, or every entry but the last fits a request of its own |
| RequestBuilder.BuildRequests | operator/builtin/output/googlecloud/request.go:42-76 | whenever it ends, the recursive method with its filling loop returns the specified requests |
| RequestBuilder.RequestsFit | operator/builtin/output/googlecloud/request.go:42-76 | every request fits |
| RequestBuilder.RequestsAreTheEntries | operator/builtin/output/googlecloud/request.go:42-76 | together the requests are the entries in order, without the last one if it is too large by itself |
| RequestBuilder.GreedyIsOptimal | operator/builtin/output/googlecloud/request.go:42-76 | no in-order split into fitting requests uses fewer |
| XmlTrees.WellNestedIff | operator/builtin/parser/xml/xml.go:78-101 | a stream is well-nested if and only if it is the tokens of the items that recursive descent finds, and it is those of no others |
| XmlTrees.TrimIsTheCore | operator/builtin/parser/xml/element.go:71-73 | trimming takes away white space only, and leaves none at the ends |
| XmlTrees.LastAttributeStands | operator/builtin/parser/xml/element.go:56-68 | of attributes of one name the last one stands |
| XmlTrees.OnlyAttributes | operator/builtin/parser/xml/element.go:56-68 | every entry of the map is one of the attributes |
| XmlTrees.ContentIsLastText | operator/builtin/parser/xml/xml.go:94-97 | the content of an element is its last direct text, trimmed |
| XmlTrees.RunTokens | operator/builtin/parser/xml/xml.go:78-101 | wherever the loop is, reading items adds the elements of recursive parsing and the last direct text, trimmed |
| XmlTrees.LoopIsRecursiveParsing | operator/builtin/parser/xml/xml.go:78-101 | on every well-nested stream the loop builds the forest of recursive parsing and leaves no element open |
| XmlTrees.DocumentOrder | operator/builtin/parser/xml/xml.go:78-101 | elements are in document order |
| XmlParser.Build | operator/builtin/parser/xml/xml.go:74-101 | for every token stream the objects linked by the loop hold the forest, and `parent` is the parent of `current` |
| XmlParser.CloseKeeps | operator/builtin/parser/xml/xml.go:89-93 | closing an element keeps the objects a forest that holds what is specified |
| XmlParser.ToMapIsInjective | operator/builtin/parser/xml/element.go:17-45 | the map of an element tells all there is to know of it |
| XmlParser.ConvertToMaps | operator/builtin/parser/xml/element.go:38-45 | the linked objects become the maps of their elements in order |
| XmlParser.Parse | operator/builtin/parser/xml/xml.go:64-109 | one map, several maps, or one of three errors, as the forest of recursive parsing has one, several or no elements or the decoder fails |
| Recombine.Recombiner.Process | operator/builtin/transformer/recombine/recombine.go:129-176 | an entry moves the operator as the specification does; a failing expression leaves the batch as it is |
| Recombine.Recombiner.FlushCombined | operator/builtin/transformer/recombine/recombine.go:208-248 | the run that is open becomes its whole batches one by one and one combined entry |
| Recombine.Recombiner.Stop | operator/builtin/transformer/recombine/recombine.go:118-126 | what is open is written uncombined |
| Recombine.GivenUpNext | operator/builtin/transformer/recombine/recombine.go:187-204 | a batch is given up when it is full and another entry comes |
| Recombine.ShortRunsAreCombined | operator/builtin/transformer/recombine/recombine.go:187-248 | a run becomes one combined entry if and only if it is within max(1, max_batch_size) |
| Recombine.TextIsConserved | operator/builtin/transformer/recombine/recombine.go:118-248 | over every run, what was written and what is open, joined by newlines, is what came in |
| Recombine.RestsOfRun | operator/builtin/transformer/recombine/recombine.go:208-248 | of a closed run, what was given up stands for itself and the combined entry has the other fields of the oldest or the newest entry of its batch |
| Recombine.FirstLinesStand | operator/builtin/transformer/recombine/recombine.go:129-248 | if matches are first lines and the oldest stands, the other fields written are those of the lines that matched, in order |
| Recombine.LastLinesStand | operator/builtin/transformer/recombine/recombine.go:129-248 | if matches are last lines and the newest stands, likewise |
| Recombine.UnreadableAreLeftOut | operator/builtin/transformer/recombine/recombine.go:222-237 | the combined text joins the texts that can be read, with a newline at the end if the last one cannot |
| Recombine.UnmatchedPassThrough | operator/builtin/transformer/recombine/recombine.go:118-126 | lines that never match are written as they are, however many, once the operator stops |
| Recombine.Drive | operator/builtin/transformer/recombine/recombine.go:118-248 | the operator driven by any events conserves the text, keeps its batch within max(1, max_batch_size), and for runs within that writes the other fields of the lines that matched |
| OtlpGroups.BuildKey | operator/builtin/output/otlp/convert.go:19-28 | collecting the labels in any order, sorting and encoding them gives one key |
| OtlpGroups.UniqueKeyIsInjective | operator/builtin/output/otlp/convert.go:19-28 | among resources without separators in the wrong place, keys are equal if and only if the resources are |
| OtlpGroups.LongerResourcesCollide | operator/builtin/output/otlp/convert.go:19-28 | every resource of two labels or more shares its key with another one |
| OtlpGroups.EachEntryInOneGroup | operator/builtin/output/otlp/convert.go:17-35 | every entry is in the group of its key and in no other |
| OtlpGroups.Partition | operator/builtin/output/otlp/convert.go:17-35 | each group is all entries of its key in input order |
| OtlpGroups.GroupsKeepOrder | operator/builtin/output/otlp/convert.go:17-35 | a group holds the entries of its key at increasing places of the input, every one of them |
| OtlpGroups.BuildRequest | operator/builtin/output/otlp/convert.go:17-57 | one group for each key, in any order of the map, with the resource of its first entry |
| OtlpGroups.GroupsByResource | operator/builtin/output/otlp/convert.go:17-57 | with unambiguous resources: one group for each resource, with exactly its entries in input order |
| ExprString.UnsplitSplit | operator/helper/expr_string.go:24-72 | there is one literal more than expressions, and interleaving them with the tokens rebuilds the string |
| ExprString.StartTokensAreCutOut | operator/helper/expr_string.go:24-72 | no literal but the last contains a start token, and no expression does |
| ExprString.SplitIsCanonical | operator/helper/expr_string.go:24-72 | what splitting yields is canonical: each expression is closed at the last possible place |
| ExprString.SplitUnsplit | operator/helper/expr_string.go:24-72 | every canonical template is recovered from its string |
| ExprString.Build | operator/helper/expr_string.go:24-72 | the loop ends with the specified literals and expressions |
| ExprString.Render | operator/helper/expr_string.go:97-115 | the loop renders the template, or returns the error at which it stops |
| ExprString.RenderFailsIff | operator/helper/expr_string.go:97-115 | rendering fails if and only if some expression does, with the error of the first |
| ExprString.RenderAsIs | operator/helper/expr_string.go:97-115 | rendering every expression as itself gives the string back |

## Left out

- MemoryBuffer.MemoryBuffer.Add: waiting for a permit is a step of `BufferProtocol`; here a call that finds none fails, as if its context had ended.
- MemoryBuffer.MemoryBuffer.Read: ids are unbounded; the wrap-around of the 64-bit counter is excluded by a precondition.
- Recombine.TextIsConserved: for runs without entries whose combine field does not read as text, which `UnreadableAreLeftOut` covers, and without failing expressions, whose entries are sent ahead of the batch or dropped.
- FileReader.Reader.ReadFile: the file does not grow during a pass and the fingerprint size is at most the 16384 bytes of the scanner's first buffer; otherwise the fingerprint depends on sizes of reads. What it picks up from beyond its length, when the offset lies there, is left open.
- Tailing.TailingIsExact: one file, whose tokens fit max_log_size, without header patterns and without delete_after_read, in calm runs; of runs that are not calm the first two polls and the first poll after a restart are characterised.
- TailingOnce.LineEndsExactlyOnce: tokens that an interrupted poll has already cut count as new, too.
- Checkpoint.CrashesLoseNothing: fingerprints are full from the start, which is the condition of `ResumesIff`; saving succeeds.
- Checkpoint.Reader.ReadFile: the scanner is the one proved in `FileReader`; the file is not shorter than the offset.
- Several files that match each other by short fingerprints, files that shrink or rotate, header labels, decoding of text.
- Known readers are values: that the readers of the last poll are the same objects as the newest known ones is modelled by reading the newest known one again.
- The retry loop of a flusher is a step that may fail any number of times; backoff times and all other clocks are nondeterministic steps.
- The stop of the OTLP output, which does not close its buffer; other outputs with the same protocol.
- Nil maps stored in a record, on which an in-place write would stop the program; records that are not trees, or share a map with the value set.
- Label and resource fields as operations on entries; only their notation is modelled.
- Expression compilation and evaluation, regular expressions, encodings, JSON, YAML and protobuf.
- Network, system and cloud inputs and outputs, the router, pipeline ordering, severity and protocol tables, configuration, commands.
