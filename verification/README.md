# Scrollback, executor, editor: a Dafny model

The project models the stateful parts of egg: the full-screen renderer and the
lazy transcript behind it, the inline renderer, the memoising task executor, the
line editor with its asynchronous completion, the reload supervisor and the
absorber of split mouse reports. Each is paired with a simple meaning and shown
to have it on every input and in every run:

- what is on the screen is one slice of one fixed list of rows;
- memoised, crashed, resumed and interleaved execution answers as evaluating the
  tasks would;
- the editor is a string with an offset, and a completion result is applied only
  while it is current;
- wrapped text shows what the unwrapped text shows, as far as the wrapper's idea of
  a reset is the terminal's;
- signals and keystrokes are conserved.

Code that changes state is a class or a method with loops here too, proved equal
to a function of the old state; the lemmas about those functions carry the
results over whole runs.

## How it is laid out

| files | subject |
|---|---|
| `Prelude`, `Terminal` | vocabulary; a terminal grid with cursor and controls (ECMA-48: CUU 8.3.22, CUD 8.3.19, EL 8.3.41) |
| `FlowTasks`, `FlowProofs`, `FlowMemo`, `FlowTerminal`, `FlowGather`, `FlowAnswers`, `FlowExecutor` | tasks, rows and events; what every execution keeps; memoisation and crashes; terminal errors; lists with their items interleaved; what callers receive and what stays stored; the executor as classes |
| `StreamRows`, `Rendition`, `StreamBatch`, `StreamTight`, `ChunkedText` | incremental wrapping of styled text; what a terminal makes of SGR (ECMA-48 8.3.117, colours as in ISO 8613-6); batch wrapping; where rows are broken; the stored stream |
| `Transcript`, `Viewport`, `Scrolling`, `FullScreen`, `Stability` | the lazy source, the bookkeeping of scrolling, where scrolling ends, the renderer, scrolled-up readers |
| `Inline`, `Sanitize`, `BlockScan` | the relative-cursor renderer; control filtering and the row scanner; scanning a stored stream block by block |
| `EditorText`, `Editor`, `EditorProofs`, `Completion`, `Popup`, `TextEditor` | the editor, the completion protocol, and what the user gets from it |
| `Supervisor`, `Mouse` | the reload supervisor; split mouse reports |

Rendered text is a sequence of tokens (a cluster with its cell width, an SGR
sequence with its parameters, a line break). The store is a map from key
to row and a crash is stopping between two writes. A run of interleaved parties
is a sequence of steps, any order of which is allowed.

## Where the code falls short of the plain statement

Each of these has a concrete witness or the exact condition under which the
statement holds, mostly both.

- A failure whose message is empty is not raised to the caller, who receives
  None (`core.py:717` tests the string's truth): `EmptyMessageIsLost`, `HopOfTask`.
- `_diff_render` loses the cursor when the row count changes and the first
  difference is below the row after the old ones, as with one more row that is
  empty: `EmptyLastRowIsMissed`, `DiffRender`.
- The incremental wrapper and `_stream_rows_from_ansi` disagree on a line with a
  kept row that opens with a reset, and on a ragged line, which goes on after its
  last full row with tokens that take no room, and more among them than styles set
  and reset again: `LineRefinesBatch`, exactly;
  `StyledTextDiffers`, `IncrementalRefinesBatch`. Two such lines may make up for
  each other: `RowsMayRealign`.
- After a width change the stored blocks are scanned one by one. The scan of a
  block that ends inside an SGR sequence does not end, although that of the text
  does: `CutSequenceHangs`, for every block size; `RewrapEndsIff`, exactly.
- The comment at `renderers.py:861-863` says that a short answer gives the
  source's height exactly. A scroll larger than a page, made while stream growth
  is unpainted and the height unknown, records a greater one:
  `CarelessScrollRecordsAWrongHeight`, `PaintIsExactIff`.
- An SGR sequence with other parameters than digits, `;` and `?`, such as
  `ESC[4:3m`, passes the filter and stops the row scanner from advancing:
  `ColonParametersHangTheScanner`, `ScannerOnCleanText`.
- `ChunkedText.__eq__` compares blocks, so equal texts stored with two block
  sizes may compare unequal: `BlocksDecideEquality`.
- `stream_end` moves the view of a reader scrolled up into the stream's own
  rows, and of no other: `EndingKeepsTheViewIff`.
- `print_above` is meant to keep a scrolled-up reader's view (`renderers.py:620-621`).
  It does so if and only if all of the painted stream is below the reader:
  `PrintingKeepsTheViewIff`; a reader inside the stream is shown the printed row
  instead, `PrintingInsideTheStreamMovesTheView`. `replace_recent_scrollback` keeps
  the view exactly as `KeepsPlace` says, `ReplacingKeepsTheViewIff`: not of a reader
  in the replaced rows, of one inside the stream only if it replaces as many rows as
  it adds and none of them is in view (or the stream shrank to just that reader), and
  of one above the replaced rows except in `ReplacingMaySnap`.
- `scroll(delta)` moves the view by another number of rows when it reaches offset 0
  with stream rows not painted yet: `ScrollToZeroJumps`, `ScrollMovesIff`.
- The wrapper takes every SGR sequence with a zero parameter for a reset
  (`renderers.py:745-754`), colours with a zero component included. At the start of
  a row it drops them, and later on it loses them at the row's end. So the cyberpunk
  theme's assistant style (`egg/egg/theme.py:24,43`) is lost: `ThemeColourIsLost`.
  `SequenceIsPreservedIff` says exactly which sequences are safe. For whole texts
  there is only one direction, `WrappingPreservesLooks`: a sequence that is lost
  does no harm where no cluster comes after it.

## Model

| member | source | states |
|---|---|---|
| FlowMemo.FlowMemo | eggflow/eggflow/core.py:631-720 | From any consistent store a memoised run of any flow answers exactly as direct evaluation, and the store is consistent after every single write; needs deterministic bodies, equal keys only for equal results, default recovery and restoration |
| FlowMemo.TaskMemo | eggflow/eggflow/core.py:781-875 | The same for one task, whatever its row says |
| FlowMemo.CrashAndResume | eggflow/eggflow/core.py:863-875 | Whatever flows were run before, each stopped after any of its writes, running a flow on the rows left gives the uninterrupted outcome |
| FlowMemo.SettledForever | eggflow/eggflow/core.py:796-832 | A task whose row is COMPLETED or FAILED for good has no event in any later run of any flow, through any crashes, and its row never changes; no hypothesis on the tasks |
| FlowMemo.CompletedNotReentered | eggflow/eggflow/core.py:796-812 | In particular a COMPLETED body is never entered again |
| FlowMemo.RecoveryGate | eggflow/eggflow/core.py:814-866 | Over whole runs: a body is entered over a FAILED or RUNNING row only directly after a recovery that agreed, settled rows get no event at all, and no RUNNING row ever holds a terminal result |
| FlowMemo.NoEntryWithoutRecovery | eggflow/eggflow/core.py:834-861 | A recovery that refuses or raises keeps the body from being entered, and exactly one row changes: to FAILED with the answer given |
| FlowMemo.TerminalRowIsTheAnswer | eggflow/eggflow/core.py:829-832 | A terminal FAILED row is the answer itself, without a write, a recovery or an entry |
| FlowProofs.FlowDisciplined | eggflow/eggflow/core.py:781-909 | What any flow does to any store: settled rows untouched, every entry allowed by the write and the recovery before it, sane rows after each write |
| FlowTerminal.HopOfTask | eggflow/eggflow/core.py:715-720 | A yielded task raises in its caller if and only if it failed with a non-empty message or, wrapped, terminally; message and terminality survive |
| FlowAnswers.ItemIsHanded | eggflow/eggflow/core.py:715-779 | From any consistent store a caller receives the value its work returned, or the Result under `wrapped`; an error is raised with its message and terminality, except that `wrapped` turns one that is not terminal into a Result and a task's empty message into None |
| FlowAnswers.DirectlyHanded | eggflow/eggflow/core.py:631-779 | The same of direct evaluation, for tasks, `nocache` tasks and coroutines |
| FlowAnswers.ListIsHanded | eggflow/eggflow/core.py:684-713 | A list whose items return hands over their values, in order |
| FlowAnswers.GeneratorReceives | eggflow/eggflow/core.py:877-906 | A generator goes on from exactly what the yielded item hands over |
| FlowAnswers.UncaughtErrorPasses | eggflow/eggflow/core.py:868-909 | An error a task does not handle becomes its own, with message and terminality |
| FlowAnswers.FinishedIsStored | eggflow/eggflow/core.py:581-599 | A task whose body is entered leaves COMPLETED with its value or FAILED with its error |
| FlowAnswers.SecondRunIsFree | eggflow/eggflow/core.py:796-832 | Once a task has succeeded, or failed for good, running it again gives the same answer without an event |
| FlowAnswers.CompletedIsRestored | eggflow/eggflow/core.py:799-812 | A COMPLETED row answers with its value as the task restores it, or with the error of restoring it |
| FlowAnswers.CompletedIsUnreadable | eggflow/eggflow/core.py:799-803 | A COMPLETED row that does not unpickle is answered with an error and left alone |
| FlowAnswers.RefusalAnswers | eggflow/eggflow/core.py:846-861 | A task that will not recover answers with its old failure, one whose recovery raises with the reason and its terminality |
| FlowAnswers.RetryKeepsTheOldResult | eggflow/eggflow/core.py:581-599 | While a task is retried its row is RUNNING and keeps the old result |
| FlowAnswers.ContextLimitMessages | eggflow/eggflow/core.py:43-58 | Messages that make an error terminal, in any case and with anything around them |
| FlowAnswers.ContextSizeMessages | eggflow/eggflow/core.py:52-57 | The kinds of message that need two phrases, in either order |
| FlowTerminal.EmptyMessageIsLost | eggflow/eggflow/core.py:717 | A terminal failure with an empty message reaches the caller as the value None |
| FlowTerminal.WrappedNeverHandsBackTerminal | eggflow/eggflow/core.py:631-662 | Whatever stands under `wrapped`, the Result that comes back is not terminal |
| FlowTerminal.TerminalMarksEveryEnclosingTask | eggflow/eggflow/core.py:868-909 | After a terminal failure every cacheable task it passed through uncaught, at any depth, is FAILED with a terminal result of the same message |
| FlowTerminal.ListAnswers | eggflow/eggflow/core.py:684-713 | A list yields one slot per item in order if and only if no item failed non-terminally, and otherwise raises the first such error |
| FlowTerminal.TerminalSlot | eggflow/eggflow/core.py:692-699 | From any store, a terminal failure leaves None in its slot, except exactly for a task whose failed result carries a value and a bare `nocache` body that raised an error carrying one |
| FlowTerminal.FailedValueIsStored | eggflow/eggflow/core.py:796-861 | A failed result carries a value only if a row stored with that error holds one |
| FlowExecution.TaskStore.Create | eggflow/eggflow/core.py:566-579 | A key without a row gets a PENDING one without a result; for a key with a row it fails and changes nothing |
| FlowExecution.TaskStore.Update | eggflow/eggflow/core.py:581-599 | Status changes, a result only if one is given, and only in an existing row |
| FlowExecution.FlowExecutor.RunInternal | eggflow/eggflow/core.py:631-720 | Answer, rows and order of events are those of the specification RunFlow about which the lemmas above speak |
| FlowGather.EveryScheduleAnswersDirectly | eggflow/eggflow/core.py:684-713 | With the items of a list, and of lists inside them, interleaved in any way, sharing keys or not, the store is consistent after every step and the answer is the direct one |
| FlowGather.StepIsRight | eggflow/eggflow/core.py:781-909 | Each step of any coroutine, over whatever consistent store the others made, keeps both |
| FlowGather.NeverStuck | eggflow/eggflow/core.py:877-906 | A coroutine that has not ended has a step that gets it on |
| FlowExecution.FlowExecutor.Process | eggflow/eggflow/core.py:684-713 | The loop over gathered results computes the list's answer |
| FlowExecution.FlowExecutor.RunOne | eggflow/eggflow/core.py:722-779 | One item, wrapped or not, cached or not, does to the store what RunItem says |
| FlowExecution.FlowExecutor.ExecuteTask | eggflow/eggflow/core.py:781-875 | Reading the row, recovering, running and recording come to RunTask |
| FlowExecution.FlowExecutor.Prepare | eggflow/eggflow/core.py:796-866 | Either the final answer with its writes, or exactly the events that must precede the body |
| FlowExecution.FlowExecutor.Recover | eggflow/eggflow/core.py:834-861 | Lets the attempt go on if and only if the task agrees; otherwise the refusal is answered and stored |
| FlowExecution.FlowExecutor.Attempt | eggflow/eggflow/core.py:868-909 | The body's events, then one write of its outcome |
| FlowExecution.FlowExecutor.Drive | eggflow/eggflow/core.py:877-906 | Stepping a generator to its end has the answer and events of its whole tree |
| StreamRows.WrappingPreservesMeaning | eggdisplay/eggdisplay/renderers.py:734-823 | With sequences read as the wrapper classifies them (`_sgr_is_reset`, any zero parameter): drawn one by one from a clean style, the rows show every cluster of the stream in order with the sequences in force in the stream; each row ends clean and fits, or holds one over-wide cluster |
| Rendition.WrappingPreservesLooks | eggdisplay/eggdisplay/renderers.py:734-823 | With sequences read as a terminal does: the rows, each shown alone, show every cluster in the rendition it has in the stream and end clean, for every text in which what the wrapper takes for a reset leaves the rendition clean |
| Rendition.SequenceIsPreservedIff | eggdisplay/eggdisplay/renderers.py:745-754 | A sequence is safe in all texts of it and honest ones, at every width, if and only if it is honest: taken for a reset only if the terminal is clean after it |
| Rendition.HonestIff | eggdisplay/eggdisplay/renderers.py:745-754 | Honest is: clean after it whatever rendition was in force |
| Rendition.OffUndoesOn | eggdisplay/eggdisplay/renderers.py:745-754 | The terminal's reading that resets are compared with: each code that puts an aspect back undoes those that set it, whatever else is set, and 0 puts back all |
| StreamRows.ResetsByParameters | eggdisplay/eggdisplay/renderers.py:745-754 | The wrapper takes for a reset exactly a sequence without parameters or with one that is 0 and only positive ones before it |
| Rendition.ThemeColourIsLost | egg/egg/theme.py:24-43 | Bold and the colour #00f5ff are taken for a reset, dropped, and the text after them shown plain |
| BlockScan.ThemeColourIsRead | eggdisplay/eggdisplay/renderers.py:745-754 | Read from the characters of the sequence, those are its parameters |
| BlockScan.FieldsJoined | eggdisplay/eggdisplay/renderers.py:752 | The parameters are the numbers of the fields between semicolons, in order |
| StreamRows.FrozenAbove | eggdisplay/eggdisplay/renderers.py:756-761 | Rows above the last one on show are the same after any more text |
| StreamTight.RowsAreTight | eggdisplay/eggdisplay/renderers.py:768-780 | Inside a line rows are broken only where they must be: the row was full, or the first cluster of the next would not have fitted |
| StreamTight.BreaksSeparate | eggdisplay/eggdisplay/renderers.py:786-795 | A line break ends a row: everything before it is in completed rows, at least one for each line, and nothing before it on a later row |
| StreamRows.ViewMayShrink | eggdisplay/eggdisplay/renderers.py:804-810 | A reset can take away the row on show |
| StreamRows.FeedChunks | eggdisplay/eggdisplay/renderers.py:723-732 | Wrapping any chunks one after the other is wrapping their concatenation |
| StreamBatch.StreamRowsFromAnsi | eggdisplay/eggdisplay/renderers.py:1006-1087 | The nested loops give, per logical line, that line's rows in the style the lines before it leave |
| StreamBatch.LineRefinesBatch | eggdisplay/eggdisplay/renderers.py:1054-1087 | For every logical line, in any style, ended by a line break or not: both forms give the same rows if and only if no kept row opens with a reset and the line is not ragged; a ragged line has exactly one row more in the incremental form |
| StreamBatch.IncrementalRefinesBatch | eggdisplay/eggdisplay/renderers.py:66-112 | For any text, styled or not, in which no kept row opens with a reset, the incremental view equals the batch result if and only if no line is ragged |
| StreamBatch.WithoutResets | eggdisplay/eggdisplay/renderers.py:734-823 | The same for any text without resets, with no further hypothesis |
| StreamBatch.RowsMayRealign | eggdisplay/eggdisplay/renderers.py:784-810 | Why the condition on resets is needed for whole texts: two lines that disagree, one text that agrees |
| StreamBatch.AnyChunkingRefinesBatch | eggdisplay/eggdisplay/renderers.py:723-823 | For unstyled text of clusters with width, any chunking gives the batch result |
| StreamBatch.StyledTextDiffers | eggdisplay/eggdisplay/renderers.py:1054-1087 | A text on which the forms differ: a style set and reset at once is a row in one and none in the other |
| ChunkedTexts.ChunkedText.Append | eggdisplay/eggdisplay/streams.py:25-38 | The text grows by the value, and blocks stay canonical |
| ChunkedTexts.ChunkedText.Clear | eggdisplay/eggdisplay/streams.py:40-42 | The text becomes empty |
| ChunkedTexts.ChunkedText.Extend | eggdisplay/eggdisplay/streams.py:47-49 | The text grows by the chunks in order |
| ChunkedTexts.ChunkedText.Tail | eggdisplay/eggdisplay/streams.py:51-67 | The newest characters of the text, as many as asked for or there are |
| ChunkedTexts.ChunkedText.Equals | eggdisplay/eggdisplay/streams.py:91-96 | True if and only if the texts are equal and the block sizes are, or the text fits in one block of either |
| ChunkedTexts.BlocksDecideEquality | eggdisplay/eggdisplay/streams.py:91-96 | The same of canonical blocks: a text has one canonical form per block size |
| Transcript.TranscriptScrollbackSource.RowCount | egg/egg/panels.py:171-176 | Known only when complete, and then the height of the full rendering |
| Transcript.TranscriptScrollbackSource.RowsFromBottom | egg/egg/panels.py:178-189 | In any order of requests, each answer is the bottom-addressed slice of the one full rendering |
| Transcript.TranscriptScrollbackSource.EnsureRows | egg/egg/panels.py:265-327 | The cache holds the full rendering of the newest blocks, never cut inside a hidden run, and is complete if it has fewer rows than needed |
| Transcript.TranscriptScrollbackSource.ScanUp | egg/egg/panels.py:301-327 | The same of one walk, starting from any cache an earlier request left |
| Transcript.MaximalRunSummarisedOnce | egg/egg/panels.py:284-313 | A maximal run of hidden blocks contributes one summary of the whole run, in its place |
| Transcript.QuietRunIsSummarised | egg/egg/panels.py:330-348 | By roles: at the least detail tool messages and empty assistant turns between blocks that speak are one summary, and those blocks are rendered themselves |
| Transcript.MoreDetailShowsAll | egg/egg/panels.py:301-313 | With more detail every block is rendered, in order, and nothing is summarised |
| Transcript.SliceRowByRow | egg/egg/panels.py:178-189 | Each row of an answer is the one that many rows above the bottom |
| Transcript.FullRowsSplit | egg/egg/panels.py:301-313 | Rendering splits at a shown block, so older rows can be put in front later |
| Transcript.ShortAnswerIsTheTop | egg/egg/panels.py:178-189 | An answer shorter than asked starts at the top and determines the height |
| FullScreen.FullScreenDiffRenderer.AppendStreamRows | eggdisplay/eggdisplay/renderers.py:734-823 | The index loop wraps what was fed before and this text, or this text alone at a new width |
| FullScreen.FullScreenDiffRenderer.StreamRowsAt | eggdisplay/eggdisplay/renderers.py:723-732 | At any width, the rows of the whole stored stream, though rewrapped from blocks; blocks end between tokens here, and the next rows say what that leaves out |
| BlockScan.RewrapEndsIff | eggdisplay/eggdisplay/renderers.py:728-731 | Over stored characters: on filtered text that the scanner can walk, scanning every block by itself ends if and only if no block boundary falls strictly inside an SGR sequence |
| BlockScan.CutSequenceHangs | eggdisplay/eggdisplay/renderers.py:796-823 | For every block size a filtered text that the scanner walks to its end, but not on one of the blocks |
| BlockScan.BlocksScanIff | eggdisplay/eggdisplay/renderers.py:782-823 | The same of any blocks of any text the scanner can walk |
| BlockScan.CutScans | eggdisplay/eggdisplay/renderers.py:796-823 | Cut in two, the first part can be walked if and only if the cut is not inside a sequence, and the second then keeps its cuts |
| BlockScan.InsideIsInsideSgr | eggdisplay/eggdisplay/renderers.py:435-437 | In filtered text what the scanner takes in one turn at an ESC is the SGR sequence there |
| BlockScan.CutReadsIff | eggdisplay/eggdisplay/renderers.py:728-731 | At a cut outside the sequences the two parts read as the tokens of the whole if and only if the cut is between clusters |
| BlockScan.SgrIsRead | eggdisplay/eggdisplay/renderers.py:796-814 | An SGR sequence with plain parameters is read as those, whatever follows |
| BlockScan.RunIsRead | eggdisplay/eggdisplay/renderers.py:815-823 | A run of text up to a line break or an ESC is read as its clusters, and a line break as one |
| BlockScan.RewrapIsWhole | eggdisplay/eggdisplay/renderers.py:728-731 | If no boundary cuts an SGR sequence or a cluster, wrapping block by block gives the state of wrapping the whole text |
| FullScreen.FullScreenDiffRenderer.SourceRowsFromBottom | eggdisplay/eggdisplay/renderers.py:847-868 | A slice of the source; a short one lowers the recorded height to where it ended |
| FullScreen.FullScreenDiffRenderer.VisibleNonLiveRows | eggdisplay/eggdisplay/renderers.py:958-987 | The slice of source, scrollback and stream joined, blank above the top, without joining them |
| FullScreen.FullScreenDiffRenderer.LocalSlice | eggdisplay/eggdisplay/renderers.py:936-956 | A range of scrollback and stream rows joined |
| FullScreen.FullScreenDiffRenderer.QueryCount | eggdisplay/eggdisplay/renderers.py:825-845 | A known height is kept; an unknown one is asked for |
| FullScreen.FullScreenDiffRenderer.ClampIfKnown | eggdisplay/eggdisplay/renderers.py:989-1004 | The offset is lowered to the known top, if known and beyond |
| FullScreen.FullScreenDiffRenderer.Compose | eggdisplay/eggdisplay/renderers.py:1089-1134 | The rows composed are the specified screen for the offset left behind, and the bookkeeping is Settle |
| FullScreen.FullScreenDiffRenderer.FullPaint | eggdisplay/eggdisplay/renderers.py:1161-1168 | Interpreted by a terminal of any content, the commands leave exactly the rows |
| FullScreen.FullScreenDiffRenderer.RowDiff | eggdisplay/eggdisplay/renderers.py:1169-1175 | The same when only differing rows are rewritten over the previous ones |
| FullScreen.FullScreenDiffRenderer.PaintVisible | eggdisplay/eggdisplay/renderers.py:1144-1181 | The terminal shows the rows, also after a resize, and they are the next baseline |
| FullScreen.FullScreenDiffRenderer.Paint | eggdisplay/eggdisplay/renderers.py:1136-1142 | The screen is blanks, the slice of history ending the offset above the bottom, and the live rows; history is unchanged |
| FullScreen.FullScreenDiffRenderer.Update | eggdisplay/eggdisplay/renderers.py:522-542 | The screen is as specified for the new live rows, on the cached fast path as on the full one |
| FullScreen.FullScreenDiffRenderer.SliceIsClean | eggdisplay/eggdisplay/renderers.py:883-897 | The key matches only over a painted baseline at the same offset |
| FullScreen.FullScreenDiffRenderer.SetScrollbackSource | eggdisplay/eggdisplay/renderers.py:544-558 | The screen is as specified over the new source, heights forgotten, local rows kept |
| FullScreen.FullScreenDiffRenderer.ResetScrollbackSource | eggdisplay/eggdisplay/renderers.py:560-577 | History, offset, heights and baseline are reset with nothing written to the terminal |
| FullScreen.FullScreenDiffRenderer.PrintAbove | eggdisplay/eggdisplay/renderers.py:579-589 | The newest rows up to the cap, and the screen as specified |
| FullScreen.FullScreenDiffRenderer.ReplaceRecentScrollback | eggdisplay/eggdisplay/renderers.py:591-634 | The end of the scrollback is exchanged, trimmed at the cap, the offset moved with it, and the screen as specified |
| FullScreen.FullScreenDiffRenderer.ClearScrollback | eggdisplay/eggdisplay/renderers.py:636-643 | No local rows, and the screen as specified |
| FullScreen.FullScreenDiffRenderer.Invalidate | eggdisplay/eggdisplay/renderers.py:645-648 | The next paint is a full one |
| FullScreen.FullScreenDiffRenderer.Scroll | eggdisplay/eggdisplay/renderers.py:652-663 | The offset moves within what is known of the height; if it moved the screen is as specified |
| FullScreen.FullScreenDiffRenderer.MaxScrollOffset | eggdisplay/eggdisplay/renderers.py:915-934 | The true top when the height is known, else a page further than now |
| FullScreen.FullScreenDiffRenderer.ScrollToBottom | eggdisplay/eggdisplay/renderers.py:665-670 | The bottom slice on the screen |
| FullScreen.FullScreenDiffRenderer.StreamRestart | eggdisplay/eggdisplay/renderers.py:710-719 | The stream is gone and the screen as specified (stream_begin at 674-678 is the same) |
| FullScreen.FullScreenDiffRenderer.StreamAppend | eggdisplay/eggdisplay/renderers.py:680-708 | At the bottom the screen is as specified; scrolled up, neither terminal nor offset changes |
| Viewport.PaintIsExactIff | eggdisplay/eggdisplay/renderers.py:1111-1129 | A paint with the height unknown records the exact height, and stays within the true top, if and only if the offset moved with the stream was within the history or a page |
| Viewport.ScreenRowByRow | eggdisplay/eggdisplay/renderers.py:1104-1134 | Row by row, what the screen has to show: live rows at the bottom, above them the history ending the offset above its bottom, blank above its top |
| Viewport.PaintIsExactWhenKnown | eggdisplay/eggdisplay/renderers.py:989-1004 | With the height known or askable a paint ends within the true top |
| Viewport.RunsStayExact | eggdisplay/eggdisplay/renderers.py:902-934 | In every run the recorded height is exact and no paint ends beyond a known top, if with a source of unknown height the scrollback is cleared only at the bottom and scrolls over unpainted stream growth are at most a page |
| Viewport.ScrollMovesIff | eggdisplay/eggdisplay/renderers.py:652-663 | Exactly when a scroll moves the view by the rows asked for: allowed, above offset 0 or landing there, and within the true top |
| Scrolling.ScrollEnds | eggdisplay/eggdisplay/renderers.py:652-663 | With the height known and nothing unpainted, a scroll ends at the offset asked for, or at the bottom or the true top if that is beyond them |
| Scrolling.PagesReach | eggdisplay/eggdisplay/renderers.py:915-934 | Whether the height is known or not, scrolls of at most a page reach every row up to the true top from anywhere, and the bottom again |
| Scrolling.StaysAtTheBottom | eggdisplay/eggdisplay/renderers.py:1094-1103 | Nothing but a scroll takes a reader away from the bottom |
| Scrolling.BroughtToTheBottom | eggdisplay/eggdisplay/renderers.py:544-577 | Going to the bottom, and installing or resetting a source, end there |
| Viewport.ScrollToZeroJumps | eggdisplay/eggdisplay/renderers.py:1099-1103 | With 100 stream rows not painted, scrolling 2 rows down from offset 3 moves 2 rows and scrolling 3 moves 103 |
| Viewport.NeverBelowInAnyRun | eggdisplay/eggdisplay/renderers.py:847-868 | In no run, careful or not, is the recorded height below the true one |
| Viewport.CarelessScrollRecordsAWrongHeight | eggdisplay/eggdisplay/renderers.py:915-934 | A run of three operations from a fresh view records 980 as the height of a source of 50 rows |
| Stability.AppendingKeepsTheView | eggdisplay/eggdisplay/renderers.py:1094-1103 | After any appended chunks the next paint shows a scrolled-up reader the identical slice |
| Stability.EndingKeepsTheViewIff | eggdisplay/eggdisplay/renderers.py:710-719 | Ending the stream keeps a scrolled-up reader's slice if and only if all painted stream rows are below it (rows distinct and not blank) |
| Stability.EndingKeepsTheView | eggdisplay/eggdisplay/renderers.py:1094-1103 | It does so for a reader above them whatever the rows are |
| Stability.EndingInsideTheStreamMovesTheView | eggdisplay/eggdisplay/renderers.py:1094-1103 | Every reader inside the stream's painted rows is taken to the bottom, and sees another slice if rows are distinct and not blank |
| Stability.PrintingKeepsTheViewIff | eggdisplay/eggdisplay/renderers.py:611-633 | Printing above, whatever was appended to the stream meanwhile, leaves a scrolled-up reader's slice identical at the next paint if and only if all painted stream rows are below it (rows distinct and not blank) |
| Stability.PrintingInsideTheStreamMovesTheView | eggdisplay/eggdisplay/renderers.py:620-633 | Two stream rows, the first on show: after printing one row it is the printed one |
| Stability.ReplacingKeepsTheViewIff | eggdisplay/eggdisplay/renderers.py:611-633 | The same for replacing rows, for readers anywhere: kept if and only if KeepsPlace, a condition on offset and row counts alone |
| Stability.ReplacingKeepsTheView | eggdisplay/eggdisplay/renderers.py:611-633 | Readers above the replaced rows, whatever the rows are, keep the slice unless they are snapped to the bottom |
| Stability.ReplacingMaySnap | eggdisplay/eggdisplay/renderers.py:617-633 | Which of those are: just above the rows removed, with none in their place and stream rows not painted before |
| Stability.ScrollingShowsTheRowsAsked | eggdisplay/eggdisplay/renderers.py:652-663 | A scroll that moves by the rows asked for shows that slice of the rows last painted |
| Inline.FullRender | eggdisplay/eggdisplay/renderers.py:339-352 | Exactly the new rows, blanks below, earlier output untouched, cursor just below |
| Inline.FindDifferences | eggdisplay/eggdisplay/renderers.py:354-367 | The first and last index at which the padded lists differ, or none |
| Inline.DiffRender | eggdisplay/eggdisplay/renderers.py:354-391 | The same region as a full render if and only if the row counts agree or some row differs no lower than just below the old ones; earlier output untouched in any case |
| Inline.EmptyLastRowIsMissed | eggdisplay/eggdisplay/renderers.py:359-367 | One more row, if it is empty, fails that condition, whatever the rows before it |
| Inline.PrintAbove | eggdisplay/eggdisplay/renderers.py:301-322 | The message where the region was, the region unchanged below it, earlier output untouched |
| Inline.InlineDiffRenderer.Update | eggdisplay/eggdisplay/renderers.py:292-299 | The region invariant is kept if and only if the render was full or the diff condition holds |
| Inline.InlineDiffRenderer.Print | eggdisplay/eggdisplay/renderers.py:301-322 | The region invariant is kept, one message lower |
| Sanitize.SanitizingIsIdempotent | eggdisplay/eggdisplay/renderers.py:199-249 | The result holds safe characters and complete SGR sequences only, equals the input if and only if the input did, and filtering again changes nothing |
| Sanitize.PlainTextStays | eggdisplay/eggdisplay/renderers.py:229-249 | Text before an escape is kept character by character, unsafe ones replaced |
| Sanitize.CharacterByCode | eggdisplay/eggdisplay/renderers.py:229-249 | By code: which characters stay, which become a line feed, and which the replacement character |
| Sanitize.ControlSequence | eggdisplay/eggdisplay/renderers.py:150-157 | A control sequence, by its parts, is kept if it is SGR and disappears if not, and the text after it stays |
| Sanitize.OscString | eggdisplay/eggdisplay/renderers.py:152 | An OSC string disappears, and the text after it stays |
| Sanitize.EndedByTerminator | eggdisplay/eggdisplay/renderers.py:152-153 | OSC, DCS, PM and APC strings ended by ESC backslash disappear, and the text after them stays |
| Sanitize.CharsetChoice | eggdisplay/eggdisplay/renderers.py:154 | So does the choice of a character set |
| Sanitize.LoneEscape | eggdisplay/eggdisplay/renderers.py:155 | Any other ESC disappears with one character, and the text after it stays |
| Sanitize.ScannerTerminatesIff | eggdisplay/eggdisplay/renderers.py:782-823 | The scanner's loop ends if and only if each of its turns advances |
| Sanitize.ScannerOnCleanText | eggdisplay/eggdisplay/renderers.py:435-437 | On filtered text the loop ends if and only if all SGR parameters are digits, `;` or `?` |
| Sanitize.ColonParametersHangTheScanner | eggdisplay/eggdisplay/renderers.py:792-823 | `ESC[4:3m` is kept by the filter and the scanner does not end |
| Sanitize.Scan | eggdisplay/eggdisplay/renderers.py:782-823 | The tokens spell the text; text runs hold neither escapes nor line breaks |
| EditorProofs.InsertIsSplice | eggdisplay/eggdisplay/eggdisplay.py:188-252 | Inserting any text splices its newline-normalised form at the offset and moves the offset past it |
| EditorText.NormalizeConcat | eggdisplay/eggdisplay/eggdisplay.py:219-220 | Newline normalisation goes part by part, unless the cut is inside a CR LF |
| EditorText.NormalizeBreak | eggdisplay/eggdisplay/eggdisplay.py:219-220 | Each of CR LF, CR and LF, anywhere in a text, is one line feed, and everything around it is kept |
| EditorProofs.CursorGoes | eggdisplay/eggdisplay/eggdisplay.py:146-157 | Moving, and setting another text, put the cursor at the position nearest to the one wanted |
| EditorProofs.ChoiceGoesRound | eggdisplay/eggdisplay/eggdisplay.py:335-345 | Up and down go round the shown items |
| EditorProofs.NewlineIsSplice | eggdisplay/eggdisplay/eggdisplay.py:289-303 | A new line splices one line break |
| EditorProofs.DeleteIsDelete | eggdisplay/eggdisplay/eggdisplay.py:254-264 | Deletes the character at the offset, and changes nothing at the end of a line or of the text |
| EditorProofs.BackspaceIsBackspace | eggdisplay/eggdisplay/eggdisplay.py:266-287 | Deletes the character before the offset, a line break included, and nothing at the start |
| EditorProofs.SetThenGet | eggdisplay/eggdisplay/eggdisplay.py:560-572 | What was set is read back; moving the cursor keeps text and bounds |
| EditorProofs.LinesAreTheText | eggdisplay/eggdisplay/eggdisplay.py:560-562 | Editors with one text have the same lines |
| EditorProofs.AcceptIsReplace | eggdisplay/eggdisplay/eggdisplay.py:522-558 | Accepting replaces the end of the last token before the cursor, keeps the blanks after it, and closes the popup |
| Editor.SpacesByCode | eggdisplay/eggdisplay/eggdisplay.py:541 | Which ASCII characters end a token |
| TextEditing.TextEditor.InsertText | eggdisplay/eggdisplay/eggdisplay.py:188-205 | Text, cursor, popup and worker slot become those of Editor.InsertText |
| TextEditing.TextEditor.InsertTextBlock | eggdisplay/eggdisplay/eggdisplay.py:207-252 | The same function, reached through the other entry |
| TextEditing.TextEditor.DeleteChar | eggdisplay/eggdisplay/eggdisplay.py:254-264 | The state of Editor.DeleteChar |
| TextEditing.TextEditor.Backspace | eggdisplay/eggdisplay/eggdisplay.py:266-287 | The state of Editor.Backspace |
| TextEditing.TextEditor.InsertNewline | eggdisplay/eggdisplay/eggdisplay.py:289-303 | The state of Editor.InsertNewline |
| TextEditing.TextEditor.ClampCursor | eggdisplay/eggdisplay/eggdisplay.py:146-157 | The cursor nearest to the wanted one that lies in the text |
| TextEditing.TextEditor.MoveCursor | eggdisplay/eggdisplay/eggdisplay.py:305-316 | Clamped movement; completions are asked for anew only if it moved |
| TextEditing.TextEditor.GetText | eggdisplay/eggdisplay/eggdisplay.py:560-562 | The flat text |
| TextEditing.TextEditor.SetText | eggdisplay/eggdisplay/eggdisplay.py:564-572 | The lines of the text, the popup dismissed if the text is another |
| TextEditing.TextEditor.CancelCompletion | eggdisplay/eggdisplay/eggdisplay.py:420-427 | A new generation, nothing pending or shown |
| TextEditing.TextEditor.RequestCompletion | eggdisplay/eggdisplay/eggdisplay.py:429-459 | A new generation whose request, with the present identity, is in the worker's slot; pending only if a worker took it |
| TextEditing.TextEditor.AcceptCompletion | eggdisplay/eggdisplay/eggdisplay.py:522-558 | The state of Editor.Accept |
| TextEditing.TextEditor.RemoveReplaced | eggdisplay/eggdisplay/eggdisplay.py:535-548 | The backward loop over blanks finds the token's end, and only replaced characters go |
| TextEditing.TextEditor.ApplyCompletionItems | eggdisplay/eggdisplay/eggdisplay.py:461-480 | The first 200 items shown, or the only item of a Tab request accepted |
| TextEditing.TextEditor.ApplyCompletionResult | eggdisplay/eggdisplay/eggdisplay.py:482-501 | Applied only if its generation is pending and line, row and column are current |
| TextEditing.TextEditor.DiscardCompletionResult | eggdisplay/eggdisplay/eggdisplay.py:503-508 | Dismisses exactly the pending request of that generation |
| TextEditing.TextEditor.HandleTab | eggdisplay/eggdisplay/eggdisplay.py:510-516 | Accepts, waits or asks |
| TextEditing.AsyncCompletionWorker.Submit | egg/egg/completion.py:102-107 | The newest request alone waits, unless the worker is stopping |
| TextEditing.AsyncCompletionWorker.Stop | egg/egg/completion.py:109-113 | Nothing waits any more |
| TextEditing.AsyncCompletionWorker.Take | egg/egg/completion.py:118-135 | Hands out what waited, once, and nothing when stopping |
| TextEditing.App.RequestAsyncCompletion | egg/egg/app.py:421-440 | Accepted if and only if there is a worker; the request carries the current thread and snapshot |
| TextEditing.App.ApplyAsyncCompletion | egg/egg/app.py:442-465 | A result of another thread or snapshot is discarded, others go to the editor |
| Completion.StaleResultsChangeNothing | egg/egg/app.py:442-465 | In every reachable state of every interleaving, an arriving result changes text, cursor or popup only if generation, line, row, column, thread and snapshot are the present ones |
| Completion.CurrentResultIsShown | eggdisplay/eggdisplay/eggdisplay.py:482-501 | A current result opens the popup with its items and changes nothing else, or accepts the only item of a Tab request |
| Popup.AskIsCurrent | eggdisplay/eggdisplay/eggdisplay.py:429-459 | The request in the slot is the one whose answer the editor will accept |
| Popup.EditAsksAnew | eggdisplay/eggdisplay/eggdisplay.py:188-316 | Typing, deleting and moving under an open or awaited popup close it and ask for the line as it is now; making lines dismisses it |
| Popup.SetTextDismisses | eggdisplay/eggdisplay/eggdisplay.py:564-572 | Setting another text dismisses the popup, setting the same leaves it |
| Popup.TabWaits | eggdisplay/eggdisplay/eggdisplay.py:510-516 | Tab while an answer is awaited changes nothing |
| Popup.AnswerIsShown | egg/egg/completion.py:118-157 | Every schedule of worker and UI loop that works off what is on its way ends with the awaited items on show, or the only one of a Tab request accepted |
| Popup.TabShowsItems | eggdisplay/eggdisplay/eggdisplay.py:510-516 | So it does after Tab in a closed popup, whatever was still on its way |
| Completion.DeliverMoves | eggdisplay/eggdisplay/eggdisplay.py:482-508 | A result of the pending generation always ends the waiting; any other leaves the whole state alone |
| Completion.NextKeeps | egg/egg/completion.py:102-157 | Every step of user, app, worker and UI loop keeps the protocol's invariant |
| Completion.PendingIsOnItsWay | egg/egg/completion.py:118-157 | In every reachable state a waiting editor has its present request in the slot, in computation or in the queue, unless the worker is stopping |
| Completion.EveryRequestIsAnswered | egg/egg/completion.py:123-157 | Without further keys every schedule ends within the backlog's steps, never gets stuck before, and leaves nothing pending |
| Supervisor.SignalRelay.HandleSignal | egg/egg/launcher_supervisor.py:302-307 | Latches the first terminating signal only, forwards each one |
| Supervisor.SignalRelay.AttachChild | egg/egg/launcher_supervisor.py:312-317 | A signal latched before is sent to the new generation |
| Supervisor.SignalRelay.DetachChild | egg/egg/launcher_supervisor.py:319-320 | Nothing is forwarded any more; the latch stays |
| Supervisor.SignalRelay.EscalateIfDue | egg/egg/launcher_supervisor.py:322-330 | Kills the attached generation once after the deadline |
| Supervisor.RunsKeep | egg/egg/launcher_supervisor.py:386-500 | The invariant of supervision holds after any interleaving of its steps, failures and signals |
| Supervisor.GenerationsAreBounded | egg/egg/launcher_supervisor.py:413-459 | At most max(0, max_reloads) + 1 generations, each spawned with the previous leader reaped, at most one after a signal is latched |
| Supervisor.EndsWithTheLastGeneration | egg/egg/launcher_supervisor.py:440-457 | A normal end without a signal returns the last generation's exit status; all earlier ones were the reload code, and if the last is too, no thread was saved or the limit was used up |
| Supervisor.ReloadStartsTheNext | egg/egg/launcher_supervisor.py:445-459 | In any reachable state, a reload code with a saved thread below the limit starts the next generation |
| Supervisor.EveryGenerationIsPossible | egg/egg/launcher_supervisor.py:413-459 | The bound is reached: each number of generations up to it is that of some run |
| Supervisor.NothingIsLeftBehind | egg/egg/launcher_supervisor.py:460-481 | A normal end has reaped every generation spawned |
| Supervisor.SignalIsForwarded | egg/egg/launcher_supervisor.py:302-307 | Every signal the relay runs while a generation is attached is sent to it |
| Supervisor.EscalatesOnce | egg/egg/launcher_supervisor.py:322-330 | After the grace period the generation is continued and killed, and not again |
| Supervisor.DeadlineIsSetOnce | egg/egg/launcher_supervisor.py:302-305 | The deadline and the latch are set together, by the first terminating signal only |
| Supervisor.LatchedSignalReachesTheChild | egg/egg/launcher_supervisor.py:302-317 | The attached generation has been sent the latched signal, whenever it was latched |
| Supervisor.LatchIsFinal | egg/egg/launcher_supervisor.py:302-305 | The latched signal is never replaced |
| Supervisor.LatchStopsSpawning | egg/egg/launcher_supervisor.py:413-417 | Once a signal is latched nothing is spawned any more, except by a spawn already decided on |
| Supervisor.NoSignalIsLost | egg/egg/launcher_supervisor.py:284-300 | At the end every terminating signal was run by the relay or the restored handlers, as many times as it arrived; a normal return is 128 plus the latched one if the relay ran any, else the loop's status |
| Mouse.InputMixin.AbsorbOrphanMouse | egg/egg/input.py:740-791 | Answer, buffer and window become those of Absorb, about which the next rows speak |
| Mouse.InputIsConserved | egg/egg/input.py:740-791 | Over any calls the pieces handed on and the held rest are the input in order, each as it came unless it is a complete report, which gets the canonical prefix |
| Mouse.InputMixin.FlushIfStale | egg/egg/input.py:793-819 | Buffer, window and typed text become those of Flush |
| Mouse.InputIsConservedOrDropped | egg/egg/input.py:740-819 | With stale flushes anywhere between: what is handed on or typed, what is dropped, and what is held are the input in order, and only fragments with a prefix or a separator are dropped |
| Mouse.StaleIsDroppedIff | egg/egg/input.py:803-816 | A held fragment past its window is dropped if and only if it has one, and typed unchanged otherwise |
| Mouse.FreshFragmentStays | egg/egg/input.py:784-791 | A fragment just held is not flushed within 0.30 seconds |
| Mouse.SplitReportIsEmittedOnce | egg/egg/input.py:763-790 | A report cut anywhere after its prefix is held until its last piece, then handed on once, whole and canonical |
| Mouse.CutReportIsPartial | egg/egg/input.py:35-40 | Every proper prefix of a report's body matches the partial form and not the full one |
| Mouse.WholeReportPasses | egg/egg/input.py:36 | Three numbers and M or m behind either prefix are handed on at once in the canonical form |
| Mouse.OrdinaryKeyPasses | egg/egg/input.py:102-112 | A key without a prefix outside the window, or with a character that fragments do not have, is handed on at once as it is |

## Left out

Weaker or conditional statements:

- FlowMemo.FlowMemo: supposes the default `recover` and `restore` and no key scope; what custom ones do is in RecoveryGate and FlowExecutor. Direct evaluation passes errors between tasks by the code's own rule, the lost empty message included, so no hypothesis on messages is needed.
- FlowMemo.CrashAndResume: a crash during a first attempt leaves PENDING, which is re-entered without recovery, as in the code (core.py:817, 863-866); nothing else is claimed of that case.
- FlowExecution.FlowExecutor.RunInternal: the class runs the items of a list one after the other; FlowGather interleaves them, on values.
- FlowGather.EveryScheduleAnswersDirectly: of answers and consistency; the recovery gate and terminal marks are for sequential runs. An insert that fails because another process made the row is not a step, since none can come between reading and inserting.
- Viewport.RunsStayExact: for a fixed width and height, and for the operations called careful there; without care only NeverBelowInAnyRun holds.
- FullScreen.FullScreenDiffRenderer.StreamRowsAt: the stored blocks end between tokens, where the source's end after 65,536 characters; what a boundary inside an SGR sequence does is in BlockScan, and one inside a cluster changes how it is measured.
- FullScreen.FullScreenDiffRenderer.StreamAppend: a chunk begins and ends between clusters; one cut in two by chunks is measured as two by the source.
- FullScreen.FullScreenDiffRenderer.Paint: the same hypothesis on blocks, through StreamRowsAt.
- FullScreen.FullScreenDiffRenderer.Update: the same hypothesis on blocks, through StreamRowsAt.
- BlockScan.RewrapIsWhole: how a run of text falls into clusters is a parameter. One direction only, since over several cuts that change clusters the tokens may come out the same; CutReadsIff decides each cut.
- StreamRows.WrappingPreservesMeaning: the wrapper's own classification is the meaning there; Rendition has the terminal's.
- Rendition.WrappingPreservesLooks: of the codes of ECMA-48 those for weight, slant, underline, blink, inverse, conceal, strike-out and colours; others change nothing here, and a colour that is cut short ends its sequence.
- Viewport.ScrollMovesIff: for an exact recorded height, as RunsStayExact keeps it.
- StreamBatch.IncrementalRefinesBatch: nothing is claimed of whole texts in which a kept row opens with a reset, since their rows may realign; LineRefinesBatch decides each of their lines.
- Stability.ReplacingKeepsTheView: below the scrollback cap; trimming while scrolled up is in AfterReplace but has no stability claim.
- Inline.DiffRender: on a canvas tall enough that no line feed scrolls it, as for Inline.FullRender and Inline.PrintAbove.
- Mouse.SplitReportIsEmittedOnce: with no stale flush between two pieces.
- Supervisor.NoSignalIsLost: the caller's mask is clear when supervision starts, and equal pending signals are counted, not merged.

Not modelled:

- Executor: `keyed_scope` and double keying, `FuncTask`, coroutine bodies that call `execute()`, the metadata of results, and the exception text that two messages end with; SQLite, pickling and asyncio. A generator is the finite-depth tree of its yields; messages are lower-cased in ASCII only.
- Rendering: Rich markup, grapheme tables (a cluster has a given width), non-SGR escapes inside a stream, reflow of a resized terminal, the per-stream state record (its fields are a value held by the renderer), a source that answers with more rows than asked, lone surrogate characters.
- Transcript: how blocks are loaded and rendered (any function of block, width and look, with hidden blocks rendering no rows of their own), and changes of the look between calls of one renderer.
- Editor: event listeners, the synchronous callback, key decoding, and item normalisation other than the limit of 200.
- Completion: what candidates are generated, catalogue builds, and a UI loop that is closed while a result is posted.
- Supervisor: cleanup through /proc, foreground-terminal transfer, job-control stops, the contents of the state file, and a spawn that raises after its fork (launcher_supervisor.py:258-262) and leaves a generation that nothing reaps; signals other than SIGHUP, SIGINT and SIGTERM are forwarded only.
- Mouse: Unicode decimal digits, which the source's expressions also accept; the debounce of a bare ESC.
- Panels, themes, commands, approval and model catalogues, which are interface plumbing around the parts modelled.
