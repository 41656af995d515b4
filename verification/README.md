# Verified model of the scriptc native runtime

The Rust runtime that scriptc links into compiled programs (`packages/runtime-rust/src`) implements
ECMAScript and Node behaviour over compact representations, streaming state and worker threads. This
project models its hardest parts in Dafny and proves them against plain specifications.

| file | what it models | specification it is proved against |
|---|---|---|
| `DiffScript.dfy`, `MyersDiff.dfy`, `ShapeDiff.dfy` | the two line diffs of the assertion messages | what a script explains; the minimum over all scripts |
| `SparseArray.dfy`, `Numbers.dfy` | arrays with holes | a sequence of holes, values and undefined slots |
| `Utf8.dfy`, `Base64.dfy`, `StringDecoder.dfy` | streaming text decoding, base64, UTF-16LE | one decoding of the whole input |
| `ByteStore.dfy`, `Bytes.dfy`, `Binary64.dfy` | byte stores, views, variable-width integers, number to byte | a flat sequence of bytes; exact integers |
| `ChildWriter.dfy`, `ChildWriterOutcomes.dfy` | a child's stdin: object, thread, two channels and a fast path | invariants over every interleaving; what every end leads to |
| `IpcFraming.dfy`, `ChildIpc.dfy`, `ChildIpcOutcomes.dfy` | the fork channel and the deferral of the child's exit | a parser of the whole stream; invariants over every interleaving; the outcome of every send |
| `OrderedMap.dfy` | the insertion-ordered map with live iteration | an association list |
| `Calendar.dfy`, `TimeValue.dfy`, `IsoDate.dfy`, `IsoForms.dfy`, `LocalTime.dfy` | civil dates, ISO text, local time construction | the calendar; the forms of ISO text and their meaning; the instants that read as a civil time |
| `BigIntBounds.dfy`, `Arithmetic.dfy` | BigInt operations under the size limit | unbounded integers |
| `Paths.dfy` | POSIX path functions | walks between locations |

Conventions. A runtime panic, a thrown error and a refusal are values of the result. Operations of
objects are methods proved against functions of the old state; concurrent objects are transition
systems whose runs are arbitrary sequences of steps, with operating system outcomes (how many bytes a
write takes, end of stream, errors, what a wait reports) as parameters of the steps. User callbacks
are recorded as observations. A thread that may not start, or that has ended but still holds its
channels, is part of the models. Finite numbers are reals; where binary64 matters (the day quotient, the
conversion to a byte) its values are characterised explicitly.

Results that correct an expectation:

- A bookkeeping-free array has only values. The converse fails for empty copies only
  (`SparseArray.FromSlots`): in an array made from values it holds after every run
  (`SparseArray.RunFresh`).
- Slicing a holey array panics in one exactly characterised case (`SparseArray.JsArray.Slice`), which
  one store and one slice reach (`SparseArray.SliceAfterUndefined`).
- Bytes of a stdin write that returned false can reach the child in exactly two cases: restoring the
  descriptor's flags failed after the bytes went out (`ChildWriter.RejectedBytesCanArrive`), or a
  direct write was partial and the writer thread had never started
  (`ChildWriter.RejectedPartCanArrive`). `ChildWriter.PipeIsPrefix` shows that there is no other;
  with a started thread only the first remains (`ChildWriter.AcceptedInOrder`).
- A fork worker ends without a closing event exactly if its thread did not start or it met a message
  of 2^32 bytes or more, which send accepts (`ChildIpc.RunSilent`, `ChildIpc.OversizedSendSilences`).
  Then the channel stays open for good and the exit of a reaped child is never delivered
  (`ChildIpc.SilentNeverCloses`); in all other cases it is, once the worker has ended
  (`ChildIpc.ExitIsDelivered`).

## Model

| member | source | states |
|---|---|---|
| `DiffScript.ScriptRestores` | packages/runtime-rust/src/assert_messages.rs:13-99 | from the script alone both inputs can be read back: the common and "+" rows are `actual`, the common and "-" rows are `expected`, exactly, or up to one trailing comma per line in comma mode |
| `DiffScript.EditsAndCommons` | packages/runtime-rust/src/assert_messages.rs:13-99 | edits plus twice the common rows is the total number of lines, for every script between two lists |
| `DiffScript.OptimaAgree` | packages/runtime-rust/src/assert_shapes.rs:147-190 | fewest edits and most common lines are the same optimum, so the two diff engines keep equally many lines whenever both run with exact equality |
| `DiffScript.ExplainsAppend` | packages/runtime-rust/src/assert_shapes.rs:162-187 | scripts for two halves of the inputs put together are a script for the whole, with the common rows added up |
| `DiffScript.CommonKeepsComma` | packages/runtime-rust/src/assert_messages.rs:71-79 | in comma mode the line printed for a pair has a trailing comma exactly if one of the two has, and is the shorter one exactly when the actual line already ends in a comma |
| `MyersDiff.SnakeIsFurthest` | packages/runtime-rust/src/assert_messages.rs:28-45 | no point that d edits reach on a diagonal lies beyond the end of the run that level d records there |
| `MyersDiff.LevelIsFurthest` | packages/runtime-rust/src/assert_messages.rs:26-51 | a completed level holds on every diagonal exactly the furthest point that d edits reach, and nothing off its diagonals is reached |
| `MyersDiff.CornerCameFirst` | packages/runtime-rust/src/assert_messages.rs:37-49 | a path that left the grid past both ends had reached the corner earlier, by one edit for every step outside |
| `MyersDiff.PastCornerIsCorner` | packages/runtime-rust/src/assert_messages.rs:46-49 | the first frontier point found past both ends is exactly the corner |
| `MyersDiff.ScriptIsPath` | packages/runtime-rust/src/assert_messages.rs:13-51 | every script between the two lists, by whatever means, is a path to the corner with as many edits as it has edited rows |
| `MyersDiff.FollowSnake` | packages/runtime-rust/src/assert_messages.rs:37-44 | the inner loop stops exactly at the end of the run of matching lines |
| `MyersDiff.ExploreLevel` | packages/runtime-rust/src/assert_messages.rs:28-50 | one level explored in place: overwriting entries of one parity never disturbs the entries of the other that it reads; it either finds the corner or leaves the exact next frontier |
| `MyersDiff.Search` | packages/runtime-rust/src/assert_messages.rs:22-53 | the search always ends, at the least number of edits that reaches the corner, with every index in bounds |
| `MyersDiff.UndoSnake` | packages/runtime-rust/src/assert_messages.rs:71-81 | the backtrack emits the common rows of one run, comma mode included |
| `MyersDiff.UndoLevel` | packages/runtime-rust/src/assert_messages.rs:57-97 | one backtrack round returns to the recorded point of the previous level and adds exactly one edit |
| `MyersDiff.RightFirst` | packages/runtime-rust/src/assert_messages.rs:29-36 | where a level comes down onto a diagonal and ends at once, the next level does not go right from there: right first and then down leads further |
| `MyersDiff.RoundTidy` | packages/runtime-rust/src/assert_messages.rs:57-97 | one backtrack round never puts a "-" row directly before a "+" row |
| `MyersDiff.Backtrack` | packages/runtime-rust/src/assert_messages.rs:54-98 | the emitted rows, last first, explain the two lists with as many edits as levels, and no "-" row is printed directly before a "+" row |
| `MyersDiff.Diff` | packages/runtime-rust/src/assert_messages.rs:13-99 | refused exactly when the lists are empty or hold more than 4096 lines together; otherwise a script that explains them with the fewest edits of all scripts, with insertions before removals in every change |
| `ShapeDiff.LcsDrop` | packages/runtime-rust/src/assert_shapes.rs:148-158 | dropping one line on either side lowers a table entry by at most one |
| `ShapeDiff.LcsBounds` | packages/runtime-rust/src/assert_shapes.rs:148-158 | no script between the two remainders keeps more common lines than the table entry says |
| `ShapeDiff.FillTable` | packages/runtime-rust/src/assert_shapes.rs:148-158 | the nested loops fill every entry of the table, each read after it is written |
| `ShapeDiff.Walk` | packages/runtime-rust/src/assert_shapes.rs:159-179 | the walk explains the consumed prefixes and loses none of the lines the table promised |
| `ShapeDiff.SettledStep` | packages/runtime-rust/src/assert_shapes.rs:162-187 | a removal is printed only where keeping the line is strictly worse, so no insertion follows it directly |
| `ShapeDiff.PrintRest` | packages/runtime-rust/src/assert_shapes.rs:180-189 | what is left on one side is printed after the walk |
| `ShapeDiff.TextReadsBack` | packages/runtime-rust/src/assert_shapes.rs:147-190 | the rows can be told from the printed text, as long as no line holds a newline |
| `ShapeDiff.Diff` | packages/runtime-rust/src/assert_shapes.rs:147-190 | the printed rows explain both inputs exactly, keep a longest common subsequence and never put a "-" row directly before a "+" row; the text is the header, the rows and a newline |
| `SparseArray.OpenedSame` | packages/runtime-rust/src/arrays.rs:116-125 | creating the bookkeeping changes no slot |
| `SparseArray.WithIndex` | packages/runtime-rust/src/arrays.rs:782-793 | at most one slot is named, by the number cut to an integer, from the end when negative |
| `SparseArray.NormalizedSame` | packages/runtime-rust/src/arrays.rs:129-138 | dropping the bookkeeping changes no slot |
| `SparseArray.DenseMeansValues` | packages/runtime-rust/src/arrays.rs:100-114 | without bookkeeping every slot is a value |
| `SparseArray.NormalizedExact` | packages/runtime-rust/src/arrays.rs:129-138 | after normalization there is bookkeeping exactly if some slot is no value |
| `SparseArray.StalePayloadUnseen` | packages/runtime-rust/src/arrays.rs:105-114 | a payload stored under a hole or an undefined slot is never observed |
| `SparseArray.GapFilledSame` | packages/runtime-rust/src/arrays.rs:465-497 | a gap slot materialized with a copied payload keeps its meaning |
| `SparseArray.CutResizes` | packages/runtime-rust/src/arrays.rs:334-359 | truncating elements, states and tail together is resizing the plain sequence |
| `SparseArray.SliceCopies` | packages/runtime-rust/src/arrays.rs:631-664 | the copied elements, states and shifted tail stand for the sub-sequence |
| `Numbers.IntegerPlace` | packages/runtime-rust/src/arrays.rs:606-619 | the place an integer names: itself, from the end when negative, and the near end when outside |
| `Numbers.SliceOfIntegers` | packages/runtime-rust/src/arrays.rs:606-642 | slices between integer places: slice(a, b), the last a entries for slice(-a), and mixed signs |
| `Numbers.SliceOutside` | packages/runtime-rust/src/arrays.rs:606-642 | integers outside the range stop at the near end; NaN and -Infinity count as 0, Infinity as the end |
| `Numbers.IntegerPart` | packages/runtime-rust/src/arrays.rs:607-607 | cutting a number leaves the integer nearer to zero |
| `Numbers.FractionsAreCut` | packages/runtime-rust/src/arrays.rs:606-629 | a number between two integers names the place, and deletes as many, as the one nearer to zero |
| `Numbers.PartsOfWhole` | packages/runtime-rust/src/arrays.rs:606-664 | for every number, the slice up to it and the slice from it are the whole, and a splice that deletes nothing or everything is made of them |
| `Numbers.SpliceOfIntegers` | packages/runtime-rust/src/arrays.rs:606-629 | a splice at integer places keeps the entries before it and those behind the deleted ones; the count stops at 0 and at the end |
| `SparseArray.JsArray.constructor` | packages/runtime-rust/src/arrays.rs:220-228 | a new array stands for its values |
| `SparseArray.JsArray.Of` | packages/runtime-rust/src/arrays.rs:717-741 | the array a copying method returns is well formed, with bookkeeping only where it says something |
| `SparseArray.JsArray.Set` | packages/runtime-rust/src/arrays.rs:465-497 | exactly when it panics or is refused; otherwise the plain store, with holes in between; a refusal changes nothing; a change leaves bookkeeping exactly where some slot is no value |
| `SparseArray.JsArray.FillTo` | packages/runtime-rust/src/arrays.rs:480-496 | the gap loop keeps explicit undefined slots, makes the others holes and stores the value at its place |
| `SparseArray.JsArray.SetLength` | packages/runtime-rust/src/arrays.rs:334-359 | RangeError exactly for a length that is no integer in [0, 2^32); otherwise the sequence cut or padded with holes |
| `SparseArray.JsArray.SetUndefined` | packages/runtime-rust/src/arrays.rs:361-377 | panics exactly for a non-index; otherwise stores an explicit undefined |
| `SparseArray.JsArray.Delete` | packages/runtime-rust/src/arrays.rs:379-396 | any number is accepted; exactly the addressed slot becomes a hole and the length stays |
| `SparseArray.JsArray.Get` | packages/runtime-rust/src/arrays.rs:280-296 | panics out of range, TypeError on a hole or undefined, otherwise the value of the slot |
| `SparseArray.JsArray.Push` | packages/runtime-rust/src/arrays.rs:499-510 | appends one value; refused exactly on a holey array that is too long or too far past its stored slots |
| `SparseArray.JsArray.Pop` | packages/runtime-rust/src/arrays.rs:906-918 | removes and returns the last slot exactly when it is a value; otherwise nothing changes |
| `SparseArray.JsArray.NextPresent` | packages/runtime-rust/src/arrays.rs:313-331 | the least present index at or after any start, or the length |
| `SparseArray.JsArray.Slice` | packages/runtime-rust/src/arrays.rs:631-664 | the part of the slots between the two numbers (`Numbers.Sliced`, whose laws are stated on integers, fractions, NaN and infinities), each slot of its kind; panics exactly when the tail set has been populated since it was made and the slice ends before the stored slots do |
| `SparseArray.JsArray.CopySlots` | packages/runtime-rust/src/arrays.rs:706-715 | every slot with holes read as undefined; refused exactly when the gap exceeds the limit |
| `SparseArray.JsArray.ToReversed` | packages/runtime-rust/src/arrays.rs:743-751 | the reverse of the slots, holes read as undefined |
| `SparseArray.JsArray.With` | packages/runtime-rust/src/arrays.rs:782-800 | RangeError exactly for a number that names no slot; otherwise the one slot it names is replaced in the copy |
| `SparseArray.JsArray.ToSpliced` | packages/runtime-rust/src/arrays.rs:753-780 | the copy with the named entries replaced by the items (`Numbers.Spliced`), holes of both read as undefined |
| `SparseArray.JsArray.IndexOfFrom` | packages/runtime-rust/src/arrays.rs:810-835 | the least index at or behind the place the start number names (stated without computing that place) that holds an equal value, -1 if there is none; holes never match |
| `SparseArray.JsArray.Join` | packages/runtime-rust/src/arrays.rs:853-868 | the rendered values between separators; holes and undefined contribute nothing |
| `SparseArray.JoinedParts` | packages/runtime-rust/src/arrays.rs:853-868 | joining splits between any two slots into two joins around one separator |
| `SparseArray.FromSlots` | packages/runtime-rust/src/arrays.rs:717-741 | a fresh array of exactly these slots; it keeps bookkeeping exactly when it is empty or not all values |
| `SparseArray.Perform` | packages/runtime-rust/src/arrays.rs:334-510 | exactly when an operation completes, and its effect on the plain sequence |
| `SparseArray.PerformAll` | packages/runtime-rust/src/arrays.rs:60-138 | over every run of store, delete, undefined, length, push and pop, the stored form stays valid and equals the plain sequence changed by exactly the operations that completed |
| `SparseArray.RunFresh` | packages/runtime-rust/src/arrays.rs:60-138 | an array made from values has bookkeeping, after any run, exactly if some slot is no value |
| `SparseArray.SliceAfterUndefined` | packages/runtime-rust/src/arrays.rs:649-653 | the panic is in reach: on a new array with one explicit undefined stored at any index, a slice from the start panics exactly if that index lay past the values and the slice ends before them |
| `Utf8.FirstUnitIsMaximalSubpart` | packages/runtime-rust/src/bytes_encoding.rs:228 | a decoding step takes a well-formed sequence when one starts here, otherwise the longest prefix that starts one, never less than a byte (section 3.9 of the Unicode Standard) |
| `Utf8.RoundTrip` | packages/runtime-rust/src/bytes_encoding.rs:587-600 | every scalar-value text comes back from its UTF-8 bytes |
| `Utf8.Tail` | packages/runtime-rust/src/bytes_encoding.rs:383-401 | at most three bytes are held back and the first of them is no continuation byte; exactly which is stated by `Utf8.TailWaits` |
| `Utf8.TailWaits` | packages/runtime-rust/src/bytes_encoding.rs:383-401 | n bytes are held back exactly if the last n bytes are a leading byte and continuation bytes, fewer than it announces |
| `Utf8.WholeEnds` | packages/runtime-rust/src/bytes_encoding.rs:383-401 | a stream that ends in a well-formed character holds nothing back |
| `Utf8.IllFormedDecodes` | packages/runtime-rust/src/bytes_encoding.rs:228 | one maximal subpart of an ill-formed sequence becomes one replacement character, U+FFFD, in front of the text of the rest |
| `Utf8.WellFormedDecodes` | packages/runtime-rust/src/bytes_encoding.rs:228 | a well-formed sequence becomes its scalar value, in front of the text of the rest |
| `Utf8.DecodeSplits` | packages/runtime-rust/src/bytes_encoding.rs:453-480 | lossy decoding of p followed by t is the two decodings joined, at every cut where p holds nothing back or t starts afresh |
| `Base64.OctetsOfSextets` | packages/runtime-rust/src/bytes_encoding.rs:541-585 | the shifts of the decoder undo the shifts of the encoder on one to three bytes |
| `Base64.EncodeQuantum` | packages/runtime-rust/src/bytes_encoding.rs:563-585 | one padded quantum, branch by branch |
| `Base64.EncodeStandard` | packages/runtime-rust/src/bytes_encoding.rs:563-585 | the encoder loop gives the standard padded encoding |
| `Base64.Alphabet` | packages/runtime-rust/src/bytes_encoding.rs:563-585 | the published table of 64 characters, with + and /, or - and _ in the URL-safe alphabet (tables 1 and 2 of RFC 4648) |
| `Base64.SextetsAreBigEndian` | packages/runtime-rust/src/bytes_encoding.rs:563-585 | the four values of three bytes are the same 24 bits in the same order |
| `Base64.ShortSextets` | packages/runtime-rust/src/bytes_encoding.rs:563-585 | one or two bytes at the end are followed by zero bits |
| `Base64.QuantumShape` | packages/runtime-rust/src/bytes_encoding.rs:563-585 | a quantum of n bytes has n + 1 characters, and is filled up to four with = in the standard form only |
| `Base64.DecodeSkips` | packages/runtime-rust/src/bytes_encoding.rs:541-561 | characters of neither alphabet are skipped, and nothing from the first = on is read |
| `Base64.RoundTrip` | packages/runtime-rust/src/bytes_encoding.rs:541-585 | decoding undoes encoding for every byte string, in both alphabets (sections 4 and 5 of RFC 4648) |
| `Base64.EncodeSplits` | packages/runtime-rust/src/bytes_encoding.rs:403-416 | encoding splits after any whole number of three-byte groups |
| `Base64.ByteLengthOfEncode` | packages/runtime-rust/src/bytes_encoding.rs:637-656 | the length computed from a canonical encoding is the number of bytes encoded |
| `StringDecoder.UnpackPack` | packages/runtime-rust/src/bytes_encoding.rs:361-375 | the packed carry loses nothing of up to three bytes |
| `StringDecoder.UnitsRoundTrip` | packages/runtime-rust/src/bytes_encoding.rs:587-593 | any UTF-16 code units come back from their little-endian bytes |
| `StringDecoder.UnitBytesRoundTrip` | packages/runtime-rust/src/bytes_encoding.rs:229-238 | any bytes come back from their code units, up to an odd last byte |
| `StringDecoder.CarryFits` | packages/runtime-rust/src/bytes_encoding.rs:418-480 | no encoding ever holds back more than three bytes |
| `StringDecoder.CutIsClean` | packages/runtime-rust/src/bytes_encoding.rs:418-480 | wherever a step cuts the stream, decoding the two sides apart gives the text of the whole |
| `StringDecoder.Utf8Carries` | packages/runtime-rust/src/bytes_encoding.rs:418-480 | a UTF-8 write emits everything but the n bytes that wait for the rest of a character, when n bytes do |
| `StringDecoder.Utf8CarriesNothing` | packages/runtime-rust/src/bytes_encoding.rs:418-480 | if the held bytes and the chunk end in a well-formed character, everything is emitted and nothing held |
| `StringDecoder.Utf8TextAtOnce` | packages/runtime-rust/src/bytes_encoding.rs:418-480 | the UTF-8 bytes of any text are emitted as that text by one write, with nothing held back |
| `StringDecoder.Utf16Carries` | packages/runtime-rust/src/bytes_encoding.rs:418-451 | a UTF-16LE write emits every whole unit but a high surrogate at the very end, and holds back at most that and an odd byte; a write of nothing changes nothing |
| `StringDecoder.Base64Carries` | packages/runtime-rust/src/bytes_encoding.rs:403-416 | a base64 write holds back exactly the bytes over a multiple of three |
| `StringDecoder.BytewiseCarries` | packages/runtime-rust/src/bytes_encoding.rs:453-480 | the other encodings emit everything at once and hold nothing |
| `StringDecoder.CodeUnitIsLittleEndian` | packages/runtime-rust/src/bytes_encoding.rs:229-238 | the first byte of a code unit is its low half |
| `StringDecoder.AsciiText` | packages/runtime-rust/src/bytes_encoding.rs:238-249 | ASCII drops the top bit of every byte, latin1 keeps it |
| `StringDecoder.HexRoundTrip` | packages/runtime-rust/src/bytes_encoding.rs:212-219 | hexadecimal text is two lower-case digits for each byte, high half first, and reads back |
| `StringDecoder.DecodersAreSound` | packages/runtime-rust/src/bytes_encoding.rs:453-500 | write and end of every encoding emit the text of what they complete and carry the rest; what they complete is stated by the laws of carrying below |
| `StringDecoder.StreamFrom` | packages/runtime-rust/src/bytes_encoding.rs:482-500 | any sound decoder emits the text of everything given, whatever the chunks and the bytes held before |
| `StringDecoder.StreamIsWhole` | packages/runtime-rust/src/bytes_encoding.rs:482-500 | for every encoding, every byte sequence, valid or not, and every chunking, the writes and the end together are the one-shot decoding |
| `ChildWriter.FastPathIsNext` | packages/runtime-rust/src/child_writer.rs:233-298 | when the counter is zero the thread has nothing left to hand over, so a direct write cannot overtake a queued one |
| `ChildWriter.FastPathKeeps` | packages/runtime-rust/src/child_writer.rs:251-298 | the direct write, whole, partial, refused or failed after writing, keeps the order of bytes |
| `ChildWriter.WriteKeeps` | packages/runtime-rust/src/child_writer.rs:251-298 | a write keeps the invariant in every branch |
| `ChildWriter.EndKeeps` | packages/runtime-rust/src/child_writer.rs:320-336 | end keeps the invariant; that it finishes is `ChildWriterOutcomes.EndFinishes` |
| `ChildWriter.DispatchKeeps` | packages/runtime-rust/src/child_writer.rs:395-471 | delivering any event, or finding the channel dead, keeps the invariant |
| `ChildWriter.TakeKeeps` | packages/runtime-rust/src/child_writer.rs:127-149 | the thread taking its next command keeps the invariant |
| `ChildWriter.BreakKeeps` | packages/runtime-rust/src/child_writer.rs:132-135 | a failed write of the thread keeps the invariant |
| `ChildWriter.RunKeeps` | packages/runtime-rust/src/child_writer.rs:127-149 | the invariant holds after every interleaving of calls, dispatches and steps of the thread |
| `ChildWriter.DeafKeeps` | packages/runtime-rust/src/child_writer.rs:127-149 | the thread letting go of its end of the command channel, at any moment after it is done, keeps the invariant |
| `ChildWriter.RunStrays` | packages/runtime-rust/src/child_writer.rs:251-298 | from any start without them, the pipe holds bytes of failed writes exactly if some step of the run was a direct write that failed with bytes already out |
| `ChildWriter.PipeIsPrefix` | packages/runtime-rust/src/child_writer.rs:229-298 | from every start and over every run the pipe holds the offered bytes in call order without gaps or repeats; it is a prefix of the successful writes exactly unless some direct write failed with bytes out: its flags could not be restored, or it was partial and no thread was there to take the rest |
| `ChildWriter.RejectedBytesCanArrive` | packages/runtime-rust/src/child_writer.rs:233-249 | the first happens: flags not restored, the bytes of a write that returned false in the pipe |
| `ChildWriter.RejectedPartCanArrive` | packages/runtime-rust/src/child_writer.rs:127-298 | the second happens: a thread that did not start, a partial direct write, its bytes in the pipe though it returned false |
| `ChildWriter.AcceptedInOrder` | packages/runtime-rust/src/child_writer.rs:127-298 | with a started thread the pipe is a prefix of the accepted writes, in order, exactly unless some direct write could not restore the flags after writing |
| `ChildWriter.FinishMeansDelivered` | packages/runtime-rust/src/child_writer.rs:437-463 | safety: finish fires at most once, and then every accepted byte has been handed over and the stream is closed; that it fires is `ChildWriterOutcomes.EndFinishes` |
| `ChildWriter.CounterIsExact` | packages/runtime-rust/src/child_writer.rs:284-289 | the counter is the total length of unacknowledged writes; a writable stream that owes a drain counts something |
| `ChildWriter.DrainAnswersWrite` | packages/runtime-rust/src/child_writer.rs:425-436 | before every drain, and since the one before it, some write returned false |
| `ChildWriter.DrainComes` | packages/runtime-rust/src/child_writer.rs:425-436 | no drain is lost: once the thread has written everything, delivering the waiting acknowledgements emits it exactly once |
| `ChildWriterOutcomes.DrainMeansDelivered` | packages/runtime-rust/src/child_writer.rs:425-436 | a drain is emitted only when no write is unacknowledged, and then every accepted byte has been handed over |
| `ChildWriterOutcomes.WriteReturns` | packages/runtime-rust/src/child_writer.rs:251-298 | exactly when a write fails, with one error event and nothing accepted; otherwise its data is accepted and it returns true exactly if fewer than 65536 bytes are then unacknowledged, and owes a drain if not |
| `ChildWriterOutcomes.EventsConclude` | packages/runtime-rust/src/child_writer.rs:395-471 | delivering the events of a stream whose thread said how it ended closes it, with finish as the one new output after an end, and with an error after a failure |
| `ChildWriterOutcomes.EveryEndIsReported` | packages/runtime-rust/src/child_writer.rs:127-149 | over every run of a started thread, when the thread is gone and the stream not destroyed, the waiting events end in exactly the report, finish or error, of how it ended |
| `ChildWriterOutcomes.NoThreadIsReported` | packages/runtime-rust/src/child_writer.rs:395-408 | a thread that never started is reported by the first poll, or by end |
| `ChildWriterOutcomes.WorksToEnd` | packages/runtime-rust/src/child_writer.rs:127-149 | a thread that works through a queue of writes and an end reaches the end and says so |
| `ChildWriterOutcomes.EndFinishes` | packages/runtime-rust/src/child_writer.rs:320-463 | no finish is lost: from every reachable state with a working thread, after end, when the thread has written what is queued and the events are dispatched, the one new output is finish, and the pipe holds every accepted byte |
| `IpcFraming.Extract` | packages/runtime-rust/src/child_ipc.rs:183-202 | the reader loop moves out exactly the whole frames at the front of the buffer |
| `IpcFraming.HeaderIsBigEndian` | packages/runtime-rust/src/child_ipc.rs:106-113 | the header is the length in four bytes, the highest first |
| `IpcFraming.ParseResumes` | packages/runtime-rust/src/child_ipc.rs:183-202 | parsing can stop and resume at any byte |
| `IpcFraming.ReadsDoNotMatter` | packages/runtime-rust/src/child_ipc.rs:183-202 | for every split of the stream into reads the messages and the rest are those of the whole |
| `IpcFraming.PrefixParses` | packages/runtime-rust/src/child_ipc.rs:106-113 | every byte prefix of framed payloads, cut mid-frame or not, parses to a prefix of them, and the whole to all of them |
| `IpcFraming.FramesAppend` | packages/runtime-rust/src/child_ipc.rs:154-163 | one more frame appends one more payload |
| `ChildIpc.SendKeeps` | packages/runtime-rust/src/child_ipc.rs:243-275 | a send, accepted or refused, keeps the invariant |
| `ChildIpc.DisconnectKeeps` | packages/runtime-rust/src/child_ipc.rs:277-306 | a local disconnect keeps the invariant |
| `ChildIpc.DispatchKeeps` | packages/runtime-rust/src/child_ipc.rs:339-382 | delivering any event keeps the invariant |
| `ChildIpc.TakeKeeps` | packages/runtime-rust/src/child_ipc.rs:154-174 | the worker writing a frame, part of one, none or stopping keeps the invariant |
| `ChildIpc.ReadKeeps` | packages/runtime-rust/src/child_ipc.rs:176-202 | the worker reading any chunk keeps the invariant |
| `ChildIpc.PollKeeps` | packages/runtime-rust/src/child_process_async.rs:684-715 | polling the child in any state keeps the invariant |
| `ChildIpc.RunKeeps` | packages/runtime-rust/src/child_ipc.rs:115-382 | the invariant holds after every interleaving, whether or not the worker and the child started |
| `ChildIpc.ConnectedImpliesOpen` | packages/runtime-rust/src/child_ipc.rs:277-306 | in every reachable state connected implies open |
| `ChildIpc.CallbacksRunOnce` | packages/runtime-rust/src/child_ipc.rs:243-275 | every callback runs at most once; once the channel has closed, the callback of each accepted send has run, with success exactly if the frame of that send was written whole and with an error exactly if not; the callback of each refused send has run once the tick queue is empty |
| `ChildIpc.ListenersCalledOnce` | packages/runtime-rust/src/child_ipc.rs:277-306 | every disconnect listener is called at most once, and has been called once it is off the list and the tick queue is empty |
| `ChildIpc.ExitComesLast` | packages/runtime-rust/src/child_process_async.rs:684-715 | on the normal path the exit is delivered only after the channel closed and every message that arrived whole was dispatched |
| `ChildIpc.MessagesArriveInOrder` | packages/runtime-rust/src/child_ipc.rs:115-210 | one side dispatches an in-order prefix of the payloads the other sent, without gaps or repeats, even if the sender broke off mid-frame; all of them once everything was read and dispatched |
| `ChildIpc.RunSilent` | packages/runtime-rust/src/child_ipc.rs:106-113 | a worker ends without a closing event exactly if it did not start or its next command, at some step, was a payload of 2^32 bytes or more |
| `ChildIpc.OversizedWasSent` | packages/runtime-rust/src/child_ipc.rs:243-275 | no worker meets such a payload unless the program sent one |
| `ChildIpc.ClosingEventWaits` | packages/runtime-rust/src/child_ipc.rs:141-226 | a worker that is gone has left its closing event in the queue exactly if it had started and met no oversized payload |
| `ChildIpc.DispatchesClose` | packages/runtime-rust/src/child_ipc.rs:339-382 | once the worker is gone, delivering the waiting events closes the channel exactly unless the worker ended silently |
| `ChildIpc.ExitIsDelivered` | packages/runtime-rust/src/child_process_async.rs:684-715 | the exit of a reaped child whose worker is gone is delivered after the waiting events exactly if the worker had started and met no oversized payload |
| `ChildIpc.OversizedSendSilences` | packages/runtime-rust/src/child_ipc.rs:106-113 | such a payload is accepted by send and ends the worker without an event |
| `ChildIpc.SilentNeverCloses` | packages/runtime-rust/src/child_process_async.rs:684-715 | after it, and from the start without a worker, the channel stays open in every continuation and a reaped exit is never delivered |
| `ChildIpcOutcomes.SendsAccounted` | packages/runtime-rust/src/child_ipc.rs:243-275 | over every run the accepted payloads are the first ones sent, all of them while connected, in order; every callback passed to send is kept under the number of its send or as one of the refused ones |
| `ChildIpcOutcomes.SendOutcome` | packages/runtime-rust/src/child_ipc.rs:243-352 | for the k-th send of any run: once the channel has closed its callback has run, with success exactly if its payload was written; if it was refused its callback has run once the ticks have |
| `ChildIpcOutcomes.SendTells` | packages/runtime-rust/src/child_ipc.rs:243-275 | a send that returns true has submitted its payload; after one that returns false no later send submits anything |
| `ChildIpcOutcomes.TakesEverything` | packages/runtime-rust/src/child_ipc.rs:154-174 | a worker whose queue ends with a disconnect writes every accepted payload whole before it ends |
| `ChildIpcOutcomes.DisconnectDelivers` | packages/runtime-rust/src/child_ipc.rs:277-382 | a local disconnect loses nothing: from every reachable connected state, when the worker has taken its queue and the events and ticks have run, every accepted payload is written in order, the channel is closed, every send callback has run with success, every refused one has run and every listener has been called |
| `ChildIpcOutcomes.DisconnectIsHeardFirst` | packages/runtime-rust/src/child_ipc.rs:284-305 | whatever happens in between, the listeners of a local disconnect are called before the callback of any send refused after it |
| `ChildIpcOutcomes.StartIsTold` | packages/runtime-rust/src/child_process_async.rs:684-715 | a child that did not start is reported so by the first poll, once, and nothing else is; of one that started that is never reported, and an unknown exit only after a failed wait |
| `OrderedMap.SlotIsPosition` | packages/runtime-rust/src/collections.rs:151-205 | the entry found in the vector with its tombstones is the one at the key's position in the plain list |
| `OrderedMap.SetRefines` | packages/runtime-rust/src/collections.rs:151-174 | storing in the vector is storing in the list; the live count grows exactly for a new key |
| `OrderedMap.DeleteRefines` | packages/runtime-rust/src/collections.rs:207-232 | burying in the vector is deleting from the list |
| `OrderedMap.NewKeyGoesLast` | packages/runtime-rust/src/collections.rs:151-174 | setting a new key appends it; deleting or getting a key that is not there changes and finds nothing |
| `OrderedMap.KnownKeyStays` | packages/runtime-rust/src/collections.rs:151-232 | setting a known key keeps its place and first spelling; deleting it closes the gap; getting it finds its value |
| `OrderedMap.GetRefines` | packages/runtime-rust/src/collections.rs:176-190 | a lookup in the vector is a lookup in the list |
| `OrderedMap.SetKeepsDistinct` | packages/runtime-rust/src/collections.rs:151-174 | keys stay pairwise unequal and the stored key reads back |
| `OrderedMap.DeleteKeepsDistinct` | packages/runtime-rust/src/collections.rs:207-232 | keys stay pairwise unequal and the deleted key is gone |
| `OrderedMap.OtherKeysKept` | packages/runtime-rust/src/collections.rs:151-232 | storing or deleting one key leaves what every other key maps to |
| `OrderedMap.StepUndisturbed` | packages/runtime-rust/src/collections.rs:207-255 | while an iteration is open no entry moves, none returns and new ones come last |
| `OrderedMap.EachSurvivorVisitedOnce` | packages/runtime-rust/src/collections.rs:257-308 | whatever the program does during an iteration, positions are visited upwards, at most once each, and at the end every entry alive has been visited under its key |
| `OrderedMap.JsMap.constructor` | packages/runtime-rust/src/collections.rs:45-57 | a new map is empty |
| `OrderedMap.JsMap.Set` | packages/runtime-rust/src/collections.rs:151-174 | the list operation, with the exact vector |
| `OrderedMap.JsMap.Get` | packages/runtime-rust/src/collections.rs:176-190 | the value of the key in the list |
| `OrderedMap.JsMap.Delete` | packages/runtime-rust/src/collections.rs:207-232 | the list operation; true exactly when the key was there; compacts only outside iterations |
| `OrderedMap.JsMap.Size` | packages/runtime-rust/src/collections.rs:234-237 | the live counter is the length of the list |
| `OrderedMap.JsMap.Clear` | packages/runtime-rust/src/collections.rs:239-255 | empties the list; inside an iteration every entry becomes a tombstone in place |
| `OrderedMap.JsMap.IterEnter` | packages/runtime-rust/src/collections.rs:292-295 | one more open iteration, nothing else |
| `OrderedMap.JsMap.IterExit` | packages/runtime-rust/src/collections.rs:297-308 | panics exactly when none is open; leaving the last one compacts without changing the list |
| `Calendar.DaysFormula` | packages/runtime-rust/src/clock_and_date.rs:146-154 | the conversion by eras is one closed formula over all years |
| `Calendar.DaysCountDays` | packages/runtime-rust/src/clock_and_date.rs:146-154 | day 0 is 1 January 1970 and every date is one day after the date before it |
| `Calendar.YearOfEraFound` | packages/runtime-rust/src/clock_and_date.rs:103-107 | the shortcut division finds the year of the era and where it starts |
| `Calendar.CivilIsDate` | packages/runtime-rust/src/clock_and_date.rs:100-119 | every day number is the number of a date that exists in the calendar |
| `Calendar.DaysOrdered` | packages/runtime-rust/src/clock_and_date.rs:146-154 | later dates have larger numbers |
| `Calendar.CivilRoundTrip` | packages/runtime-rust/src/clock_and_date.rs:100-154 | every valid date comes back from its day number |
| `IsoDate.FlooredQuotientExact` | packages/runtime-rust/src/clock_and_date.rs:127-127 | for every time value, the floor of the rounded binary64 quotient by the length of a day is the exact floor |
| `IsoDate.YearFits` | packages/runtime-rust/src/clock_and_date.rs:134-140 | every time value has a year of at most six digits |
| `IsoDate.TakeDigits` | packages/runtime-rust/src/clock_and_date.rs:221-234 | the digit loop reads exactly `count` digits or leaves the cursor |
| `IsoDate.DigitsOfPad` | packages/runtime-rust/src/clock_and_date.rs:221-234 | a zero-padded number reads back |
| `IsoDate.ParseText` | packages/runtime-rust/src/clock_and_date.rs:311-415 | the cursor-by-cursor parser computes the specification `Parse` on every text; what `Parse` accepts and means is stated by `IsoForms.FormsParse` and `IsoForms.OnlyFormsParse` |
| `IsoDate.PartsParse` | packages/runtime-rust/src/clock_and_date.rs:311-415 | the text of any date and time of day parses to the time value it stands for |
| `IsoDate.RoundTrip` | packages/runtime-rust/src/clock_and_date.rs:122-144 | for every integer time value within 8.64e15 ms, whatever nearest value the division rounds to, parsing the ISO text gives the time value back (sections 21.4.1.31 and 21.4.1.32 of ECMA-262, 2024) |
| `IsoForms.FormsParse` | packages/runtime-rust/src/clock_and_date.rs:311-415 | every text of a year, year and month, or date, alone or with a time of day down to minutes, seconds or milliseconds and a zone, parses to its meaning: UTC is the clock less what the zone is ahead; out of range fields, a clock without zone and the year -000000 are refused; 24:00 is the next midnight |
| `IsoForms.OnlyFormsParse` | packages/runtime-rust/src/clock_and_date.rs:311-415 | no other text parses: every text that does is one of these forms |
| `IsoForms.PadDigit` | packages/runtime-rust/src/clock_and_date.rs:221-234 | the i-th character of a padded number is its decimal digit of that weight |
| `IsoForms.PrintsForm` | packages/runtime-rust/src/clock_and_date.rs:122-144 | the text of every time value is such a form in UTC with milliseconds, four year digits from 0 to 9999 and a sign and six otherwise, and means that time value |
| `LocalTime.CivilComponents` | packages/runtime-rust/src/clock_and_date.rs:157-194 | the components of a date that exists, its year given in full or by two digits, and a time stand for its day number and the time into that day |
| `LocalTime.TwoDigitYears` | packages/runtime-rust/src/clock_and_date.rs:185-188 | years 0 to 99 are 1900 to 1999 |
| `LocalTime.ComponentsRefused` | packages/runtime-rust/src/clock_and_date.rs:166-184 | refused exactly if a component is not finite, the year is a million and one or more away or the month ten million and one; fractions are cut off |
| `LocalTime.MonthsCarry` | packages/runtime-rust/src/clock_and_date.rs:182-190 | months outside the year carry into other years, backwards and forwards |
| `LocalTime.TimesCarry` | packages/runtime-rust/src/clock_and_date.rs:189-194 | hours and milliseconds outside the day carry into other days |
| `LocalTime.NewComponents` | packages/runtime-rust/src/date_components.rs:7-33 | components to local milliseconds and then the loop over the three probes compute `Resolve` |
| `LocalTime.ResolveChooses` | packages/runtime-rust/src/date_components.rs:15-32 | in every zone, the earliest instant with the civil time among those the three probes find, and without one the instant behind the smallest gap, and nothing if there is none either |
| `LocalTime.ResolveNear` | packages/runtime-rust/src/date_components.rs:18-32 | near one change of offset the result is a closed form of the two offsets |
| `LocalTime.ReadsExactly` | packages/runtime-rust/src/date_components.rs:18-32 | the instants that read as a civil time are exactly the candidates on their own side of the change |
| `LocalTime.ResolveIsRight` | packages/runtime-rust/src/date_components.rs:7-33 | the earliest instant with the civil time, or for a skipped time the instant that the offset before the change gives (section 21.4.1.26 of ECMA-262, 2024), for every zone with offsets under two days and at most one change in the window |
| `BigIntBounds.BitsAgainst` | packages/runtime-rust/src/bigint.rs:14-26 | a value has at most k bits exactly when its magnitude is below 2^k |
| `BigIntBounds.ProductBits` | packages/runtime-rust/src/bigint.rs:244-249 | a product of non-zero factors has at least the sum of their bits, less one |
| `BigIntBounds.MulExact` | packages/runtime-rust/src/bigint.rs:244-249 | a product is refused exactly when it needs more than 2^30 bits, and is otherwise exact |
| `BigIntBounds.PowExact` | packages/runtime-rust/src/bigint.rs:278-307 | a power is refused exactly when it needs more than 2^30 bits, constant results are returned for any exponent, a negative exponent is a RangeError |
| `BigIntBounds.ShiftExact` | packages/runtime-rust/src/bigint.rs:309-328 | shifts by signed amounts of any size multiply or floor exactly; refused exactly when the true result does not fit |
| `BigIntBounds.AsUintNExact` | packages/runtime-rust/src/bigint.rs:359-387 | the unsigned residue is returned exactly when it fits |
| `BigIntBounds.AsIntNExact` | packages/runtime-rust/src/bigint.rs:389-408 | never refused: a residue in [-2^(w-1), 2^(w-1)) congruent to the value |
| `BigIntBounds.SignedResidueUnique` | packages/runtime-rust/src/bigint.rs:389-408 | no other number of that range is congruent to the value |
| `BigIntBounds.WidthExact` | packages/runtime-rust/src/bigint.rs:359-372 | a width is an integer from 0 to 2^53 - 1; fractions are cut, NaN is 0, everything else is a RangeError |
| `BigIntBounds.ResiduesByWidth` | packages/runtime-rust/src/bigint.rs:359-408 | for every width number standing for k, the residue below 2^k and the one within 2^(k-1) of zero, or a RangeError |
| `Binary64.ShiftedIsTrunc` | packages/runtime-rust/src/bigint.rs:348 | whatever mantissa and exponent a finite number is given by, shifting one by the other gives its integer part |
| `BigIntBounds.CmpNumberExact` | packages/runtime-rust/src/bigint.rs:338-357 | for every binary64 number the conversion yields the integer part and the comparison is the exact one of reals; the infinities compare as the ends, NaN not at all |
| `ByteStore.TotalOfDigits` | packages/runtime-rust/src/bytes_encoding.rs:764-789 | the low w bytes of a number stand for it modulo 256^w |
| `ByteStore.DigitsOfTotal` | packages/runtime-rust/src/bytes_encoding.rs:764-789 | bytes come back from the number they stand for |
| `ByteStore.FlatAt` | packages/runtime-rust/src/bytes.rs:28-38 | element and byte index address one byte of the flat sequence |
| `ByteStore.FlatUpdate` | packages/runtime-rust/src/bytes.rs:40-70 | rebuilding an element with one byte changed changes that byte of the flat sequence and no other |
| `ByteStore.Backing.ByteLen` | packages/runtime-rust/src/bytes.rs:18-26 | the byte length of the store |
| `ByteStore.Backing.Get` | packages/runtime-rust/src/bytes.rs:28-38 | the byte of the flat sequence, for every element width and byte order |
| `ByteStore.Backing.Set` | packages/runtime-rust/src/bytes.rs:40-70 | the flat sequence with one byte replaced; elements stay within their width |
| `ByteStore.SubarrayContents` | packages/runtime-rust/src/bytes_encoding.rs:31-63 | a sub-view over the same store shows the part of the view between the two numbers (`Numbers.Sliced`) |
| `ByteStore.ReadUnsigned` | packages/runtime-rust/src/bytes_encoding.rs:764-776 | the number the bytes stand for in the given order |
| `ByteStore.WriteUnsigned` | packages/runtime-rust/src/bytes_encoding.rs:778-789 | exactly the addressed bytes of the store are replaced, in the given order |
| `ByteStore.VarRoundTrip` | packages/runtime-rust/src/bytes_encoding.rs:886-915 | a write succeeds exactly for an acceptable width, value and offset; reading it back gives the integer part of the value, signed or not, in either order; no other byte changes |
| `ByteStore.VarReadWrite` | packages/runtime-rust/src/bytes_encoding.rs:886-915 | writing back what was read changes nothing |
| `ByteStore.VarReads` | packages/runtime-rust/src/bytes_encoding.rs:886-896 | at integer offset k and width w a read succeeds exactly if 1 <= w <= 6 and the bytes exist, and is the sum of byte k + i times 256^i (or of byte k + w - 1 - i, highest first), less 256^w if signed and in the upper half |
| `ByteStore.VarWrites` | packages/runtime-rust/src/bytes_encoding.rs:898-915 | an integer is written exactly if width and offset are such integers and it is in the range of the width |
| `ByteStore.VarRefuses` | packages/runtime-rust/src/bytes_encoding.rs:886-915 | offsets and widths that are no integers are refused |
| `ByteStore.NativeByte` | packages/runtime-rust/src/bytes.rs:28-70 | the first byte of an element is its lowest on a little-endian machine and its highest on others |
| `ByteStore.WriteVar` | packages/runtime-rust/src/bytes_encoding.rs:898-915 | the loops over a shared view compute `Written`, and a refusal changes nothing |
| `ByteStore.ReadVar` | packages/runtime-rust/src/bytes_encoding.rs:886-896 | the loops over a shared view compute `ReadBack` |
| `ByteStore.SetFrom` | packages/runtime-rust/src/bytes_encoding.rs:184-208 | the target takes the bytes the source had before the call under every overlap; refused exactly when they do not fit, and then nothing changes |
| `ByteStore.SetElements` | packages/runtime-rust/src/bytes_encoding.rs:184-208 | the same for typed arrays of any element type, which copy whole elements |
| `ByteStore.Values` | packages/runtime-rust/src/bytes.rs:320-329 | the snapshot of a view |
| `ByteStore.FromNumberExact` | packages/runtime-rust/src/bytes.rs:75-83 | one saturating cast and one correction equal ToUint8 (section 7.1.11 of ECMA-262) for every binary64 value, NaN and infinities included |
| `Paths.SplitJoin` | packages/runtime-rust/src/child_process_and_paths.rs:669-681 | joining and splitting slash-free parts are inverse |
| `Paths.WalkIsNormal` | packages/runtime-rust/src/child_process_and_paths.rs:668-680 | the part stack never holds an empty or "." part, and ".." only in front and only in a relative path |
| `Paths.Normalize` | packages/runtime-rust/src/child_process_and_paths.rs:663-694 | the loop over the parts computes `Normalized` |
| `Paths.NormalizeIdempotent` | packages/runtime-rust/src/child_process_and_paths.rs:663-694 | a normalized path is its own normal form |
| `Paths.NormalizeShape` | packages/runtime-rust/src/child_process_and_paths.rs:682-693 | the output keeps the leading and trailing slash and has no empty, "." or misplaced ".." part |
| `Paths.NormalizeKeepsMeaning` | packages/runtime-rust/src/child_process_and_paths.rs:663-694 | from every location, a path and its normal form lead to the same place, climbs past the root included |
| `Paths.JoinFollows` | packages/runtime-rust/src/child_process_and_paths.rs:700-710 | a joined path leads where its non-empty parts lead one after the other, only the first of them being able to be absolute |
| `Paths.Resolve` | packages/runtime-rust/src/child_process_and_paths.rs:712-743 | assembling the text backwards and stopping at an absolute part spells the place reached by following the parts forwards |
| `Paths.SpelledReadsBack` | packages/runtime-rust/src/child_process_and_paths.rs:733-743 | a resolved path leads to the one location it spells, from anywhere |
| `Paths.Relative` | packages/runtime-rust/src/child_process_and_paths.rs:797-816 | resolving `from` and then the result gives the same location as resolving `to`, for every absolute working directory |
| `Paths.RouteReaches` | packages/runtime-rust/src/child_process_and_paths.rs:797-816 | climbing to the last common ancestor and going down leads from any location to any other |
| `Paths.RouteIsShortest` | packages/runtime-rust/src/child_process_and_paths.rs:797-816 | no relative path between the two locations takes fewer steps |

## Left out

- ChildWriter.WriteStep: the writer object is a value and its calls are transitions, as its thread is; field-by-field mutation and aliasing of the object are not captured, the order of all observable effects is.
- ChildIpc.SendStep: likewise a transition on a value; message listeners and their `once` flag are not modelled, a dispatched message is recorded instead.
- ChildWriter.DispatchStep: listener lists of drain, finish and error are not modelled, only the emissions; the error event is recorded at once although it is delivered on a later tick.
- ChildIpc.PollStep: the wait-error branch delivers an exit without waiting for the channel, as the code does; `ChildIpc.ExitComesLast` and `ChildIpc.ExitIsDelivered` speak of the exits that wait.
- ChildIpc.TakeStep: writing one frame and posting its event is one step, and so are one read and the messages it yields; a peer that sees part of a frame is a reader of a prefix.
- LocalTime.NewComponents: the sums of whole components are exact integers, where the code adds binary64 numbers, and the division by 1000 is exact; the time zone lookup is a parameter.
- IsoDate.Parse: the certificate-date branch (texts that start with a month name) is not modelled; no ISO text starts that way.
- SparseArray.JsArray.NextPresent: the tail set is searched upwards one index at a time where the code asks the ordered set.
- ByteStore.Backing: elements are their bit patterns, with f32 and f64 read and written bit for bit; shifts and bitwise or are written as multiplication and addition of bytes.
- BigIntBounds.Shift: amounts too large for `usize` are not modelled.
- StringDecoder.Step: text is code units or scalar values; the internal string representation is not part of this model.
- Paths.Split: paths are sequences of characters; lossy conversion of lone surrogates and the Windows branches are not modelled.
- OrderedMap.JsMap.Set: map views, module namespaces, prototypes, symbol properties and the numeric-first key order are not modelled.
- Child stdout and stderr streams, spawning, signals and exit codes: outside the components modelled here; the rest are system calls.
- Abort signals, array views, typed array copies, buffer fill, compare, search and swap: outside the components modelled here.
- Crypto: digests and HMAC are not in the repository's own code, and the loops around them say little without them.
- Tracing and garbage collection, including the edges a collector clears: the collector is not part of this model.
- Error message texts, number formatting and the printing of a Myers script with its skipped regions.
- The compiler, command line, native code generation and documentation of the repository.
