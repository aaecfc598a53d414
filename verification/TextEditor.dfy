/** The editor, the worker's slot and the app between them, changed in place. */
module TextEditing {
  import opened Prelude
  import opened EditorText
  import opened Editor

  /** One request at most waits behind the one being computed; a newer one replaces it. */
  class AsyncCompletionWorker {
    var pending: Option<Request>
    var stopping: bool

    constructor ()
      ensures pending.None? && !stopping
    {
      pending, stopping := None, false;
    }

    method Submit(request: Request)
      modifies this
      ensures stopping == old(stopping)
      ensures pending == if stopping then old(pending) else Some(request)
    {
      if stopping {
        return;
      }
      pending := Some(request);
    }

    method Stop()
      modifies this
      ensures stopping && pending.None?
    {
      stopping, pending := true, None;
    }

    /** One turn of the worker's loop: the request to compute, unless it must end. */
    method Take() returns (request: Option<Request>)
      modifies this`pending
      ensures request == if stopping then None else old(pending)
      ensures pending == if stopping then old(pending) else None
    {
      if stopping {
        return None;
      }
      request := pending;
      pending := None;
    }
  }

  class App {
    const worker: AsyncCompletionWorker?
    var currentThread: string
    var snapshotSeq: int

    constructor (worker: AsyncCompletionWorker?, thread: string, snapshot: int)
      ensures this.worker == worker && currentThread == thread && snapshotSeq == snapshot
    {
      this.worker, currentThread, snapshotSeq := worker, thread, snapshot;
    }

    function Host(): Host
      reads this, worker
    {
      Editor.Host(worker != null, worker != null && worker.stopping,
                  if worker != null then worker.pending else None, currentThread, snapshotSeq)
    }

    /** Submits the editor's identity without waiting. */
    method RequestAsyncCompletion(line: string, row: nat, col: nat, generation: nat) returns (accepted: bool)
      modifies worker
      ensures accepted == (worker != null)
      ensures worker != null ==> worker.stopping == old(worker.stopping)
      ensures Host() == if worker != null && !worker.stopping
                        then old(Host()).(slot := Some(Request(generation, line, row, col, currentThread, snapshotSeq)))
                        else old(Host())
    {
      if worker == null {
        return false;
      }
      worker.Submit(Request(generation, line, row, col, currentThread, snapshotSeq));
      return true;
    }

    /** Runs on the UI loop for each result the worker posts. */
    method ApplyAsyncCompletion(editor: TextEditor, request: Request, raw: seq<Item>)
      requires editor.app == this && editor.Valid()
      modifies editor, worker
      ensures editor.Ui() == Deliver(old(editor.Ui()), request, raw)
    {
      if currentThread != request.thread || snapshotSeq != request.snapshot {
        editor.DiscardCompletionResult(request.gen);
      } else {
        editor.ApplyCompletionResult(request, raw);
      }
    }
  }

  class TextEditor {
    var lines: seq<string>
    var row: nat
    var col: nat
    var items: seq<Item>
    var index: nat
    var active: bool
    var pending: bool
    var generation: nat
    var mode: Mode
    const app: App

    function State(): Ed
      reads this
    {
      Ed(lines, row, col, items, index, active, pending, generation, mode)
    }

    function Ui(): Ui
      reads this, app, app.worker
    {
      Editor.Ui(State(), app.Host())
    }

    ghost predicate Valid()
      reads this
    {
      Well(State())
    }

    constructor (app: App)
      ensures Valid() && this.app == app
      ensures State() == Ed([""], 0, 0, [], 0, false, false, 0, NoMode)
    {
      lines, row, col, items, index := [""], 0, 0, [], 0;
      active, pending, generation, mode := false, false, 0, NoMode;
      this.app := app;
    }

    // ---- completion state -------------------------------------------------------------

    method CancelCompletion()
      modifies this
      ensures State() == Cancel(old(State()))
    {
      generation := generation + 1;
      pending, mode, active, items, index := false, NoMode, false, [], 0;
    }

    method RequestCompletion(requestMode: Mode)
      requires row < |lines|
      modifies this, app.worker
      ensures Ui() == Ask(old(Ui()), requestMode)
    {
      generation := generation + 1;
      pending, mode := true, requestMode;
      active, items, index := false, [], 0;
      var accepted := app.RequestAsyncCompletion(lines[row], row, col, generation);
      if !accepted {
        pending, mode := false, NoMode;
      }
    }

    method RefreshIfShown()
      requires row < |lines|
      modifies this, app.worker
      ensures Ui() == Refreshed(old(Ui()))
    {
      if active || pending {
        RequestCompletion(Refresh);
      }
    }

    method CancelIfShown()
      modifies this
      ensures State() == Dismissed(old(State()))
    {
      if active || pending {
        CancelCompletion();
      }
    }

    // ---- edits -------------------------------------------------------------------------

    predicate CursorInText()
      reads this
    {
      row < |lines| && col <= |lines[row]|
    }

    method InsertText(text: string)
      requires CursorInText()
      modifies this, app.worker
      ensures Ui() == Editor.InsertText(old(Ui()), text)
      decreases if '\n' in text || '\r' in text then 2 else 0
    {
      if text == "" {
        return;
      }
      if '\n' in text || '\r' in text {
        InsertTextBlock(text);
        return;
      }
      NormalizeKeeps(text);
      SplitCount(text);
      hide Split, Normalize;
      lines := lines[row := lines[row][..col] + text + lines[row][col..]];
      col := col + |text|;
      RefreshIfShown();
    }

    method InsertTextBlock(text: string)
      requires CursorInText()
      modifies this, app.worker
      ensures Ui() == Editor.InsertText(old(Ui()), text)
      decreases 1
    {
      if text == "" {
        return;
      }
      var normalized := Normalize(text);
      SplitCount(normalized);
      if '\n' !in normalized {
        NormalizeKeeps(normalized);
        NormalizeOneLine(text);
        NormalizeKeeps(text);
        InsertText(normalized);
        return;
      }
      hide Split, Normalize;
      CancelIfShown();
      var line := lines[row];
      var parts := Split(normalized);
      lines := lines[..row] + Spread(line[..col], parts, line[col..]) + lines[row + 1..];
      row := row + |parts| - 1;
      col := |parts[|parts| - 1]|;
    }

    method DeleteChar()
      requires CursorInText()
      modifies this, app.worker
      ensures Ui() == Editor.DeleteChar(old(Ui()))
    {
      if col < |lines[row]| {
        lines := lines[row := lines[row][..col] + lines[row][col + 1..]];
        RefreshIfShown();
      }
    }

    method Backspace()
      requires CursorInText()
      modifies this, app.worker
      ensures Ui() == Editor.Backspace(old(Ui()))
    {
      if col > 0 {
        lines := lines[row := lines[row][..col - 1] + lines[row][col..]];
        col := col - 1;
        RefreshIfShown();
      } else if row > 0 {
        var above, line := lines[row - 1], lines[row];
        lines := lines[..row - 1] + [above + line] + lines[row + 1..];
        row := row - 1;
        col := |above|;
        RefreshIfShown();
      }
    }

    method InsertNewline()
      requires CursorInText()
      modifies this, app.worker
      ensures Ui() == Editor.InsertNewline(old(Ui()))
    {
      CancelIfShown();
      var line := lines[row];
      lines := lines[..row] + [line[..col], line[col..]] + lines[row + 1..];
      row, col := row + 1, 0;
    }

    method ClampCursor(toRow: int, toCol: int)
      requires lines != []
      modifies this`row, this`col
      ensures State() == Clamped(old(State()), toRow, toCol)
    {
      row := Max(0, Min(toRow, |lines| - 1));
      col := Max(0, Min(toCol, |lines[row]|));
    }

    method MoveCursor(deltaRow: int, deltaCol: int)
      requires lines != []
      modifies this, app.worker
      ensures Ui() == Editor.MoveCursor(old(Ui()), deltaRow, deltaCol)
    {
      var oldRow, oldCol := row, col;
      ClampCursor(row + deltaRow, col + deltaCol);
      if row != oldRow || col != oldCol {
        RefreshIfShown();
      }
    }

    method GetText() returns (text: string)
      requires Valid()
      ensures text == Text(State())
    {
      text := Join(lines);
    }

    method SetText(text: string)
      requires Valid()
      modifies this
      ensures Ui() == Editor.SetText(old(Ui()), text)
    {
      var oldText := Join(lines);
      lines := Split(text);
      ClampCursor(row, col);
      if oldText != text {
        CancelIfShown();
      }
    }

    // ---- results -------------------------------------------------------------------------

    method AcceptCompletion()
      requires CursorInText() && (active ==> index < |items|)
      modifies this, app.worker
      ensures Ui() == Accept(old(Ui()))
    {
      if !active || items == [] {
        return;
      }
      hide Replaced, Editor.InsertText;
      var item := items[index];
      RemoveReplaced(item.replace);
      if item.insert != "" {
        active, pending := false, false;
        InsertText(item.insert);
      }
      CancelCompletion();
    }

    /** Deletes the characters of the last token that an item replaces. */
    method RemoveReplaced(replace: int)
      requires CursorInText()
      modifies this`lines, this`col
      ensures State() == Replaced(old(State()), replace) && CursorInText()
    {
      if replace <= 0 {
        return;
      }
      var line := lines[row];
      var i := col;
      while i > 0 && IsSpace(line[i - 1])
        invariant 0 <= i <= col && TokenEnd(line, i) == TokenEnd(line, col)
      {
        i := i - 1;
      }
      hide IsSpace;
      var n := Min(replace, i);
      if n > 0 {
        lines := lines[row := line[..i - n] + line[i..]];
        col := i - n;
      }
    }

    method ApplyCompletionItems(raw: seq<Item>, requestMode: Mode)
      requires CursorInText()
      modifies this, app.worker
      ensures Ui() == ApplyItems(old(Ui()), raw, requestMode)
    {
      var shown := raw[..Min(MOST_ITEMS, |raw|)];
      pending, mode := false, NoMode;
      if shown == [] {
        active, items, index := false, [], 0;
        return;
      }
      items := shown;
      if requestMode == Tab && |shown| == 1 {
        index, active := 0, true;
        AcceptCompletion();
        return;
      }
      if index >= |items| {
        index := 0;
      }
      active := true;
    }

    method ApplyCompletionResult(request: Request, raw: seq<Item>)
      requires Valid()
      modifies this, app.worker
      ensures Ui() == ApplyResult(old(Ui()), request, raw)
    {
      if request.gen != generation || !pending {
        return;
      }
      if request.row != row || request.col != col || lines[row] != request.line {
        CancelCompletion();
        return;
      }
      ApplyCompletionItems(raw, if mode == NoMode then Refresh else mode);
    }

    method DiscardCompletionResult(gen: nat)
      modifies this
      ensures Ui() == Discard(old(Ui()), gen)
    {
      if gen == generation && pending {
        CancelCompletion();
      }
    }

    method HandleTab()
      requires Valid()
      modifies this, app.worker
      ensures Ui() == PressTab(old(Ui()))
    {
      if active {
        AcceptCompletion();
      } else if !pending {
        RequestCompletion(Tab);
      }
    }
  }
}
