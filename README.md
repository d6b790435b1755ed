# gflogger log entries and the disruptor file appender, in Dafny

This project models three classes of gflogger, a garbage-free Java logging library, and proves properties of them:

- the placeholder state machine of its log entries, in two variants:
  - `org.gflogger.AbstractLocalLogEntry`, the current base class;
  - `gflogger.AbstractBufferLocalLogEntry`, the older one;
- the byte-staging side of the disruptor `FileAppender`.

A log entry receives a pattern such as `"a=%s b=%s"`:

- `setPattern` scans the pattern from its start. The scanner copies literal characters to the entry's staging buffer and folds `%%` into `%`. It stops at a `%x` token, or commits the entry when the pattern is used up.
- Each `with(v)`:
  1. checks that the cursor `pPos` rests on `%s` and consumes it;
  2. appends `v`;
  3. scans on.
- `commit` hands the entry to the logger service once and resets it for reuse.

The `FileAppender` stages encoded bytes in a `ByteBuffer` twice the size of its character buffer:

- `store` writes the staged bytes to the file channel and always clears the buffer.
- `processCharBuffer` does three things in order:
  1. it stores first when the worst-case encoding of the staged characters may not fit. The worst case is `maxBytesPerChar` times the staged UTF-16 code units, multiplied in 32-bit `int`;
  2. it encodes in a loop that stores on every overflow;
  3. it clears the character buffer.

Modules:

- `EntryCore` (`entry_core.dfy`) holds what both entry classes share:
  - `EntryState`, the value of an entry's fields;
  - the reference scanner `Scan` and the pattern builder `Template`, with the round trip between them;
  - `commit` (`CommitState`) and `setPattern` (`SetPatternState`).
- `LocalEntry` (`local_entry.dfy`) holds the current class:
  - its spec functions (`WithState`, `WithLastState`, `AppendState`, ...);
  - the lemmas about them;
  - the class `LocalLogEntry`, whose fields the methods update in place. Each method is proved equal to its spec function on `State()`.
- `BufferEntry` (`buffer_entry.dfy`) holds the older class, with the same structure and the class `BufferLogEntry`.
- `DisruptorAppender` (`file_appender.dfy`) holds:
  - an abstract charset encoder. A Dafny `char` is a Unicode scalar, and `Units` counts the UTF-16 code units of the Java character buffer, two for a supplementary character;
  - the channel as a log of writes;
  - the reference functions `StoreState`, `EncodeRun` and `ProcessState`, with lemmas that no byte is lost or reordered;
  - the class `FileAppender`, whose byte buffer is an `array<bv8>`.

These are parameters rather than code:

- Foreign code is given by values of type `Rendering`: what the call wrote, and the exception it ended in, if any. This covers object formatters, `Loggable.appendTo` and `toString`.
- The logger service's `entryFlushed` is the `flushed` log of the entry's text at each commit.
- `LogLog.error` is the entries' `diagnostics` log. In the appender, `store` reports a failed write, which is a `Write` whose `ok` is false, and `closeFailures` counts the reports of `closeFile`.
- The channel's write and close failures are non-deterministic choices. A write to a closed channel always fails.

The source is followed where it departs from the usual reading of its specification:

- A `%` in the last position of a pattern is copied literally, and nothing reports it (`EntryCore.LoneTrailingPercent`).
- `checkAndCommit` commits only when `pPos + 1 == pattern.length()`, exactly as written.
- The older `checkPlaceholder` refuses a `%s` in the last two positions (`pPos + 2 >= length`), so a `%s` must be followed by at least one more character.

## Model

| member | source | states |
|---|---|---|
| EntryCore.ScanFromIsScan | src/org/gflogger/AbstractLocalLogEntry.java:130-137 | walking the pattern from the cursor, as the `for` loop does, emits and consumes exactly what the reference scanner gives on the unread rest of the pattern |
| EntryCore.ScanStops | src/org/gflogger/AbstractLocalLogEntry.java:130-137 | the scan ends either at the end of the pattern or on a `%` followed by a character other than `%`, never elsewhere |
| EntryCore.ScanFoldsPercentPair | src/org/gflogger/AbstractLocalLogEntry.java:132-136 | `%%` emits a single `%`, consumes two characters and the scan goes on after them |
| EntryCore.ScanCopiesLiteral | src/org/gflogger/AbstractLocalLogEntry.java:131-136 | any character other than `%` is copied and consumed, and the scan goes on after it |
| EntryCore.LoneTrailingPercent | src/org/gflogger/AbstractLocalLogEntry.java:132-136 | a `%` in the last position of the pattern is copied literally and ends the scan at the end of the pattern |
| EntryCore.ScanEscape | src/org/gflogger/AbstractLocalLogEntry.java:128-137 | round trip: scanning the pattern text of a literal (every `%` doubled) gives the literal back, consumes exactly its pattern text and goes on with what follows |
| EntryCore.ScanTemplate | src/org/gflogger/AbstractLocalLogEntry.java:128-137 | scanning a template emits its first literal and stops on its first placeholder |
| EntryCore.ScanTemplateState | src/org/gflogger/AbstractLocalLogEntry.java:128-141 | `appendNextPatternChank` at a cursor resting on a template writes the first literal, moves the cursor past it, and commits exactly when no placeholder follows |
| EntryCore.ScanLeavesCursorOnToken | src/org/gflogger/AbstractLocalLogEntry.java:128-141 | after a scan that did not commit, the pattern is unchanged and the cursor rests on a `%x` token |
| EntryCore.CommitIdempotent | src/org/gflogger/AbstractLocalLogEntry.java:563-571 | committing twice is committing once; a commit leaves the entry committed with its text, and hands it to the logger service once if it was open and not at all if it was committed |
| LocalEntry.FirstNonNull | src/org/gflogger/AbstractLocalLogEntry.java:204-208 | the element that resolves the formatter: every element before it is null, and it is non-null unless all are null |
| LocalEntry.FirstFailure | src/org/gflogger/AbstractLocalLogEntry.java:197-217 | the element whose formatter throws first: every element before it rendered completely, and it threw |
| LocalEntry.JoinCons | src/org/gflogger/AbstractLocalLogEntry.java:200-203 | the separator stands only between two elements, never before the first or after the last |
| LocalEntry.JoinedIsJoin | src/org/gflogger/AbstractLocalLogEntry.java:200-213 | the text the array loop builds up element by element is the joined output of the elements seen so far |
| LocalEntry.FormatterSlot | src/org/gflogger/AbstractLocalLogEntry.java:199-209 | the formatter is resolved once, on the first non-null element, and that one formatter renders every later element |
| LocalEntry.AllNullElements | src/org/gflogger/AbstractLocalLogEntry.java:204-212 | an all-null array renders as `[null<sep>null...]` without consulting any formatter |
| LocalEntry.ElementsDone | src/org/gflogger/AbstractLocalLogEntry.java:198-214 | when no element fails, the rendering is `[`, the elements joined by the separator, `]` |
| LocalEntry.ElementsFail | src/org/gflogger/AbstractLocalLogEntry.java:197-217 | on the first failing element, the rendering stops right after what that element's formatter wrote and carries its exception, with no `]` |
| LocalEntry.NullPatternRefused | src/org/gflogger/AbstractLocalLogEntry.java:119-122 | `setPattern(null)` throws IllegalArgumentException and leaves the entry exactly as it was |
| LocalEntry.AppendRendered | src/org/gflogger/AbstractLocalLogEntry.java:309-321 | an append whose whole text is written extends the buffer by that text and changes nothing else |
| LocalEntry.AppendFailureRecorded | src/org/gflogger/AbstractLocalLogEntry.java:166-174 | a failing object, loggable, array or iterable append returns normally. Its partial text stays, and the exception becomes the entry's error. Then either the marker is written, or, without a marker, the failure is reported to `LogLog`. Nothing else changes |
| LocalEntry.CheckAndCommitOutcomes | src/org/gflogger/AbstractLocalLogEntry.java:158-164 | `checkAndCommit` passes a committed entry untouched. It commits an open one exactly when `pPos + 1` is the pattern length, and otherwise throws leaving everything as it was |
| LocalEntry.WithRefusedWithoutPlaceholder | src/org/gflogger/AbstractLocalLogEntry.java:143-156 | `with` when the cursor does not rest on `%s` (committed entry, end of pattern, other token) throws and changes nothing |
| LocalEntry.WithLastRejectsUnfinished | src/org/gflogger/AbstractLocalLogEntry.java:491-561 | after a `with` that passes, `withLast` passes only when the scanner already committed the entry; otherwise it throws IllegalStateException and the entry stays open |
| LocalEntry.WithAtPlaceholder | src/org/gflogger/AbstractLocalLogEntry.java:395-401 | `with` on a cursor resting on `%s`, with a fully written value: consume the token, append the value's text, scan on |
| LocalEntry.FillOnePlaceholder | src/org/gflogger/AbstractLocalLogEntry.java:395-489 | one `with` on a template at its placeholders writes the value and the next literal; it commits exactly when that was the last placeholder |
| LocalEntry.FillPlaceholders | src/org/gflogger/AbstractLocalLogEntry.java:395-489 | a chain of `with` calls, one per remaining placeholder, writes values and literals interleaved in order, reaches the end of the pattern and commits |
| LocalEntry.FormatRoundTrip | src/org/gflogger/AbstractLocalLogEntry.java:119-141 | on an open entry, `setPattern` of the template for given literals followed by one `with` per placeholder prints literals and values interleaved in order. It commits exactly once, clearing pattern and error |
| LocalEntry.FirstOfTwoPlaceholders | src/org/gflogger/AbstractLocalLogEntry.java:428-433 | `"a=%s b=%s"` then `with(1)`: the entry reads `a=1 b=` and waits, open, at the second `%s` |
| LocalEntry.SecondOfTwoPlaceholders | src/org/gflogger/AbstractLocalLogEntry.java:428-433 | at the second `%s` of `"a=%s b=%s"`, `with(2)` writes `2` and commits the entry |
| LocalEntry.TwoPlaceholders | src/org/gflogger/AbstractLocalLogEntry.java:428-433 | `"a=%s b=%s"` with `with(1).with(2)`: buffer `a=1 b=2`, committed by the second call and not the first, handed to the logger service once |
| LocalEntry.NoPlaceholders | src/org/gflogger/AbstractLocalLogEntry.java:138-140 | `setPattern("100%% done")` alone writes `100% done`, commits and hands the entry over once |
| LocalEntry.LocalLogEntry.constructor | src/org/gflogger/AbstractLocalLogEntry.java:54-66 | a new entry is committed and idle; a null or empty marker is stored as none |
| LocalEntry.LocalLogEntry.WithDefaultMessage | src/org/gflogger/AbstractLocalLogEntry.java:47-52 | without a marker argument, the marker is `>>TRNCTD>>` |
| LocalEntry.LocalLogEntry.SetCommited | src/org/gflogger/AbstractLocalLogEntry.java:99-101 | only the committed flag changes |
| LocalEntry.LocalLogEntry.Commit | src/org/gflogger/AbstractLocalLogEntry.java:563-571 | the new state is `CommitState` of the old one (see `CommitIdempotent`) |
| LocalEntry.LocalLogEntry.SetPattern | src/org/gflogger/AbstractLocalLogEntry.java:119-126 | null refused before any change; otherwise pattern set, cursor reset to 0 and the first literal run scanned |
| LocalEntry.LocalLogEntry.AppendNextPatternChunk | src/org/gflogger/AbstractLocalLogEntry.java:128-141 | the new state is the reference scan of the unread pattern, committed when the cursor reaches the end |
| LocalEntry.LocalLogEntry.CopyLiteralRun | src/org/gflogger/AbstractLocalLogEntry.java:130-137 | the loop writes exactly the reference scanner's text and advances the cursor by exactly what it consumes |
| LocalEntry.LocalLogEntry.CheckPlaceholder | src/org/gflogger/AbstractLocalLogEntry.java:143-156 | IllegalState when committed or fewer than two characters remain, IllegalArgument unless `%s`, otherwise the cursor moves by exactly 2 |
| LocalEntry.LocalLogEntry.CheckAndCommit | src/org/gflogger/AbstractLocalLogEntry.java:158-164 | the new state and outcome are those of `checkAndCommit` (see `CheckAndCommitOutcomes`); a null pattern on an open entry is a NullPointerException |
| LocalEntry.LocalLogEntry.RecordError | src/org/gflogger/AbstractLocalLogEntry.java:166-174 | the error is stored; the marker is written when there is one, otherwise a `LogLog` report is made |
| LocalEntry.LocalLogEntry.AppendScalar | src/org/gflogger/AbstractLocalLogEntry.java:396-401 | the subclass' scalar append: its text is written, and an out-of-range slice throws IndexOutOfBounds before writing |
| LocalEntry.LocalLogEntry.AppendObject | src/org/gflogger/AbstractLocalLogEntry.java:309-321 | `null` for a null object, otherwise the resolved formatter's output, a failure recorded through `error` |
| LocalEntry.LocalLogEntry.AppendLoggable | src/org/gflogger/AbstractLocalLogEntry.java:179-190 | `null` for a null loggable, otherwise what `appendTo` wrote, a failure recorded through `error` |
| LocalEntry.LocalLogEntry.RenderElement | src/org/gflogger/AbstractLocalLogEntry.java:204-212 | one element: `null`, or the output of the formatter resolved on the first non-null element; the formatter slot is kept accordingly |
| LocalEntry.LocalLogEntry.RenderArray | src/org/gflogger/AbstractLocalLogEntry.java:197-217 | the array loop's text equals the reference rendering `RenderElements` (shape `[e0<sep>e1...]`, stopping at the first failure) |
| LocalEntry.LocalLogEntry.RenderIterable | src/org/gflogger/AbstractLocalLogEntry.java:227-247 | the iterable loop, which writes the separator after an element when another follows, gives the same reference rendering as the array loop |
| LocalEntry.LocalLogEntry.AppendArray | src/org/gflogger/AbstractLocalLogEntry.java:193-220 | `null` for a null array, otherwise the reference rendering, a failure recorded through `error` |
| LocalEntry.LocalLogEntry.AppendIterable | src/org/gflogger/AbstractLocalLogEntry.java:223-250 | `null` for a null iterable, otherwise the reference rendering, a failure recorded through `error` |
| LocalEntry.LocalLogEntry.Append | src/org/gflogger/AbstractLocalLogEntry.java:178-321 | the overload set of `append`: scalars may throw, object, loggable, array and iterable appends absorb failures |
| LocalEntry.LocalLogEntry.AppendLast | src/org/gflogger/AbstractLocalLogEntry.java:323-393 | `append(v)` then `commit()`, the commit skipped when the append throws |
| LocalEntry.LocalLogEntry.With | src/org/gflogger/AbstractLocalLogEntry.java:395-489 | `checkPlaceholder`, append, scan on; stops at the first step that throws |
| LocalEntry.LocalLogEntry.WithLast | src/org/gflogger/AbstractLocalLogEntry.java:491-561 | `with(v)` then `checkAndCommit()` (see `WithLastRejectsUnfinished`) |
| BufferEntry.StricterPlaceholderBound | src/gflogger/AbstractBufferLocalLogEntry.java:113-123 | the older `checkPlaceholder` passes exactly when the current one does and the `%s` is not in the last two positions. It moves the cursor alike and changes nothing when it throws. On a committed entry it throws NullPointerException where the current one throws IllegalStateException |
| BufferEntry.TrailingPlaceholderRejected | src/gflogger/AbstractBufferLocalLogEntry.java:114-116 | after `setPattern(first + "%s")` on an open entry, `with` throws IllegalStateException whatever the value, and nothing changes |
| BufferEntry.AppendObjectOutcomes | src/gflogger/AbstractBufferLocalLogEntry.java:131-145 | a null object writes `null`. A BufferOverflowException is stored as the error, reported, and the call returns normally. Any other exception propagates. The text written before a failure stays |
| BufferEntry.AppendIfGuard | src/gflogger/AbstractBufferLocalLogEntry.java:147-217 | `appendIf(false, v)` changes nothing; `appendIf(true, v)` is `append(v)` |
| BufferEntry.AppendRendered | src/gflogger/AbstractBufferLocalLogEntry.java:125-145 | an append whose whole text is written extends the buffer by that text and changes nothing else |
| BufferEntry.EndWithCommits | src/gflogger/AbstractBufferLocalLogEntry.java:315-385 | after a `with` that passes, `endWith` leaves the entry committed with pattern and error cleared. The entry is handed to the logger service exactly once, by the scanner or by `commit` |
| BufferEntry.WithAtPlaceholder | src/gflogger/AbstractBufferLocalLogEntry.java:219-225 | `with` on a cursor resting on `%s` with more pattern after it, with a fully written value: consume, append, scan on |
| BufferEntry.FillOnePlaceholder | src/gflogger/AbstractBufferLocalLogEntry.java:219-313 | one `with` on a template whose last literal is not empty writes the value and the next literal, committing exactly at the last placeholder |
| BufferEntry.FillPlaceholders | src/gflogger/AbstractBufferLocalLogEntry.java:219-313 | a chain of `with` calls, one per remaining placeholder, writes values and literals interleaved in order and commits |
| BufferEntry.FormatRoundTrip | src/gflogger/AbstractBufferLocalLogEntry.java:88-111 | for a template whose last literal is not empty, `setPattern` then one `with` per placeholder prints literals and values interleaved, in order, and commits exactly once |
| BufferEntry.BufferLogEntry.constructor | src/gflogger/AbstractBufferLocalLogEntry.java:33-46 | a new entry is committed and idle with an empty buffer |
| BufferEntry.BufferLogEntry.SetCommited | src/gflogger/AbstractBufferLocalLogEntry.java:79-81 | only the committed flag changes |
| BufferEntry.BufferLogEntry.Commit | src/gflogger/AbstractBufferLocalLogEntry.java:387-395 | the new state is `CommitState` of the old one (see `CommitIdempotent`) |
| BufferEntry.BufferLogEntry.SetPattern | src/gflogger/AbstractBufferLocalLogEntry.java:88-96 | null refused before any change; otherwise pattern set, cursor reset to 0 and the first literal run scanned |
| BufferEntry.BufferLogEntry.AppendNextPatternChunk | src/gflogger/AbstractBufferLocalLogEntry.java:98-111 | the new state is the reference scan of the unread pattern, committed when the cursor reaches the end |
| BufferEntry.BufferLogEntry.CopyLiteralRun | src/gflogger/AbstractBufferLocalLogEntry.java:100-107 | the loop writes exactly the reference scanner's text and advances the cursor by exactly what it consumes |
| BufferEntry.BufferLogEntry.CheckPlaceholder | src/gflogger/AbstractBufferLocalLogEntry.java:113-123 | NullPointer when committed, IllegalState when `pPos + 2 >= length`, IllegalArgument unless `%s`, otherwise the cursor moves by exactly 2 |
| BufferEntry.BufferLogEntry.AppendScalar | src/gflogger/AbstractBufferLocalLogEntry.java:220-223 | the subclass' scalar append: its text is written, and an out-of-range slice throws IndexOutOfBounds |
| BufferEntry.BufferLogEntry.AppendObject | src/gflogger/AbstractBufferLocalLogEntry.java:131-145 | the outcomes of `AppendObjectOutcomes` |
| BufferEntry.BufferLogEntry.AppendLoggable | src/gflogger/AbstractBufferLocalLogEntry.java:125-129 | what `appendTo` wrote; a failure propagates; a null loggable is a NullPointerException |
| BufferEntry.BufferLogEntry.Append | src/gflogger/AbstractBufferLocalLogEntry.java:125-145 | the overload set of `append` |
| BufferEntry.BufferLogEntry.AppendIf | src/gflogger/AbstractBufferLocalLogEntry.java:147-217 | `append(v)` when the condition holds, nothing otherwise (see `AppendIfGuard`) |
| BufferEntry.BufferLogEntry.With | src/gflogger/AbstractBufferLocalLogEntry.java:219-313 | `checkPlaceholder`, append, scan on; stops at the first step that throws |
| BufferEntry.BufferLogEntry.EndWith | src/gflogger/AbstractBufferLocalLogEntry.java:315-385 | `with(v)` then `commit()` (see `EndWithCommits`) |
| DisruptorAppender.FitFits | src/gflogger/disruptor/appender/FileAppender.java:96-105 | the encoder is greedy: what one `encode` call writes fits the free room, and on an overflow the next character would not have fitted |
| DisruptorAppender.AllFit | src/gflogger/disruptor/appender/FileAppender.java:96-105 | one `encode` call takes every character exactly when their bytes fit the free room |
| DisruptorAppender.EncodedLength | src/gflogger/disruptor/appender/FileAppender.java:86-87 | an encoder whose `maxBytesPerChar` bounds the bytes per UTF-16 code unit writes at most `maxBytesPerChar * charBuffer.position()` bytes, the position counting code units (`Units`) |
| DisruptorAppender.Units | src/gflogger/disruptor/appender/FileAppender.java:87 | `charBuffer.position()`: the staged characters counted in UTF-16 code units, two for a supplementary character |
| DisruptorAppender.Utf8Bounded | src/gflogger/disruptor/appender/FileAppender.java:86-87 | UTF-8, with `maxBytesPerChar` 3, is a truthful encoder in code units, although a supplementary character takes four bytes |
| DisruptorAppender.SupplementaryCountsTwice | src/gflogger/disruptor/appender/FileAppender.java:86-91 | one supplementary character counts as two code units: with UTF-8 and 4 bytes free it forces the pre-flush, where a plain letter does not |
| DisruptorAppender.Int32 | src/gflogger/disruptor/appender/FileAppender.java:87 | Java's `int` value of an integer: in `[-2^31, 2^31)`, equal to it in range and congruent to it modulo 2^32 |
| DisruptorAppender.WrappedWorstCase | src/gflogger/disruptor/appender/FileAppender.java:86-91 | with UTF-8 and 0x3000_0000 staged code units, the 32-bit product wraps negative and no pre-flush is made, however little room is left |
| DisruptorAppender.AllOkDelivered | src/gflogger/disruptor/appender/FileAppender.java:129-131 | when no write failed, the file holds every chunk handed to the channel, in order |
| DisruptorAppender.StoreKeepsBytes | src/gflogger/disruptor/appender/FileAppender.java:114-138 | `store` neither loses nor reorders a byte: chunks handed over then staged bytes are unchanged as one sequence |
| DisruptorAppender.StoreChunks | src/gflogger/disruptor/appender/FileAppender.java:114-138 | `store` appends one non-empty chunk that fits the buffer when bytes are staged, none otherwise, and keeps the earlier chunks |
| DisruptorAppender.EncodeRunUnfold | src/gflogger/disruptor/appender/FileAppender.java:96-105 | one turn of the `do/while`: done when `encode` took every character, otherwise store and go on with the rest; an overflow that took nothing happens only with bytes staged |
| DisruptorAppender.EncodeRunAllFit | src/gflogger/disruptor/appender/FileAppender.java:96-105 | characters whose bytes fit the free room are encoded in one call, with no overflow and no store |
| DisruptorAppender.EncodeRunKeepsBytes | src/gflogger/disruptor/appender/FileAppender.java:94-105 | the encode loop neither loses nor reorders a byte: chunks handed over then staged bytes are the old ones followed by the encoding of every character |
| DisruptorAppender.EncodeRunChunks | src/gflogger/disruptor/appender/FileAppender.java:94-105 | the encode loop only appends chunks, each non-empty and fitting the buffer, and leaves at most a buffer's worth staged |
| DisruptorAppender.ProcessKeepsBytes | src/gflogger/disruptor/appender/FileAppender.java:85-107 | `processCharBuffer` neither loses nor reorders a byte of the staged characters' encoding |
| DisruptorAppender.ProcessChunks | src/gflogger/disruptor/appender/FileAppender.java:85-107 | `processCharBuffer` only appends chunks, each non-empty and fitting the buffer |
| DisruptorAppender.ProcessStoresFirst | src/gflogger/disruptor/appender/FileAppender.java:86-92 | when the free room is below the worst case (`PreFlush`: `maxBytesPerChar` times the staged code units, as a 32-bit `int`), the staged bytes go to the channel as one chunk before anything is encoded |
| DisruptorAppender.ProcessWithoutOverflow | src/gflogger/disruptor/appender/FileAppender.java:85-105 | with a truthful `maxBytesPerChar` and a byte buffer below 2^31, a message whose worst case in code units fits an empty buffer is encoded without any overflow, in one piece after the pre-flush |
| DisruptorAppender.FileAppender.constructor | src/gflogger/disruptor/appender/FileAppender.java:55-60 | the byte buffer's capacity is twice the character buffer's size; it is empty, and `immediateFlush` is off |
| DisruptorAppender.FileAppender.Store | src/gflogger/disruptor/appender/FileAppender.java:114-138 | returns false and writes nothing when no byte is staged; otherwise writes exactly the staged bytes, in order, once, returns true and leaves the buffer empty even when the write fails. The write records whether the channel was open, and one on a closed channel fails |
| DisruptorAppender.FileAppender.FlushCharBuffer | src/gflogger/disruptor/appender/FileAppender.java:109-112 | exactly what `store` does |
| DisruptorAppender.FileAppender.PutBytes | src/gflogger/disruptor/appender/FileAppender.java:96-98 | the encoder's bytes land after the staged ones, which stay as they were |
| DisruptorAppender.FileAppender.EncodeStep | src/gflogger/disruptor/appender/FileAppender.java:96-98 | one `encode` call takes the greedy number of characters that fit and stages their bytes |
| DisruptorAppender.FileAppender.EncodeLoop | src/gflogger/disruptor/appender/FileAppender.java:94-105 | the `do/while` loop's staging equals the reference `EncodeRun`, and writes are only appended |
| DisruptorAppender.FileAppender.ProcessCharBuffer | src/gflogger/disruptor/appender/FileAppender.java:85-107 | staging equals the reference `ProcessState`: the pre-flush when the free room is below the wrapped 32-bit product `PreFlush`, then the encode loop. The character buffer ends empty, and writes are only appended |
| DisruptorAppender.FileAppender.CloseFile | src/gflogger/disruptor/appender/FileAppender.java:150-159 | on a closed channel, `force` throws and exactly one failure is reported, the channel staying closed. On an open one, the channel ends closed or exactly one failure is reported |
| DisruptorAppender.FileAppender.OnShutdown | src/gflogger/disruptor/appender/FileAppender.java:175-179 | the staged bytes are stored as the last write, made while the channel is still in its earlier state (`Write.open`), so before the file is closed; then the file is closed, and closing an already closed channel reports a failure |

## Left out

- Getters and setters for level, category, thread name and appender mask: plain field accesses with nothing to state.
- `append(Throwable)`, `with(Throwable)` and the Throwable overloads of `appendLast`, `withLast` and `endWith`: they render stack traces through reflection (`loadClass`, `getCodeLocation`, `getImplementationVersion`).
- The `double`/precision overloads of `append`, `appendIf`, `with`, `withLast`, `appendLast` and `endWith`: floating point.
- The subclasses' staging buffers (`append(char)`, `append(CharSequence)`, `moveAndAppendSilent`, `commit0`): they are not part of this model. The buffer is an unbounded string, and a buffer overflow arises only inside foreign appends (`show`, formatters, loggables).
- Exception messages: only the exception class is modelled.
- `getStringProperty("gflogger.errorMessage", ...)`: `WithDefaultMessage` takes the unset property's default, and the other constructor takes the marker as an argument.
- A null separator for arrays and iterables: the separator is always a string.
- `onStart`: opening the file, creating the encoder and computing `maxBytesPerChar`. The encoder is given at construction, rather than by a later `onStart`.
- The real `CharsetEncoder`, `FileChannel` and `FileOutputStream`: the encoder is a per-character byte map, and a write fails non-deterministically. Partial writes, `force` durability and the channel after a failed `close` are not modelled.
- The ring buffer, the dispatch threads and `synchronized`: concurrency.
- The base class `AbstractAsyncAppender` is not part of this model. Its character buffer and `immediateFlush` are fields of `FileAppender` here.
- DisruptorAppender.FileAppender.constructor: requires `bufferSize < 2^30`. In the source, `bufferSize << 1` wraps around for larger sizes, and the allocation then fails.
- DisruptorAppender.FileAppender.ProcessCharBuffer: requires every staged character to fit an empty byte buffer. In the source, an overflow on an empty buffer repeats forever.
- Character offsets: the `start`/`end` slices of `append(CharSequence, start, end)` count Dafny characters, which are Unicode scalars, while Java counts UTF-16 code units. The two agree on text without supplementary characters.
- DisruptorAppender.FileAppender.EncodeLoop: the encoder's error results (malformed or unmappable input) are not modelled. They end the source's loop like an underflow, and the characters left are dropped by `charBuffer.clear()`. The model's encoder maps every character.
- LocalEntry.LocalLogEntry.RenderIterable: an iterable is a finite sequence of its elements. An infinite iterator, and an `hasNext()` or `next()` that throws, are not modelled. Only element rendering fails (`ArgRendering` through the formatter).
- LocalEntry.LocalLogEntry.CheckAndCommit: a null pattern on an open entry (reachable after `setCommited(false)`) is modelled as the NullPointerException that `pattern.length()` throws.
