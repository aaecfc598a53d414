/**
 * The full-screen renderer: it owns the viewport over a lazy source, the local
 * scrollback and the stream in flight, and after every paint the screen is the
 * one slice of that history which the specification in Viewport names.
 */
module FullScreen {
  import opened Prelude
  import opened StreamRows
  import opened ChunkedTexts
  import opened Transcript
  import opened Terminal
  import opened Viewport
  import opened Scrolling

  datatype PaintKey = PaintKey(width: nat, height: nat, offset: nat, scrollback: nat, stream: nat)

  lemma NothingToWrap(w: nat)
    ensures Feed(FRESH, [], w) == FRESH && View(FRESH) == []
  {
  }

  /** With as many live rows as before, only they change on the screen. */
  lemma OnlyLiveRowsChange(history: seq<Row>, offset: nat, was: seq<Row>, lines: seq<Row>, termH: nat)
    requires Min(|was|, termH) == Min(|lines|, termH)
    ensures ScreenOf(history, offset, lines, termH)
         == ScreenOf(history, offset, was, termH)[..HistoryHeight(lines, termH)] + lines[..Min(|lines|, termH)]
  {
  }

  class FullScreenDiffRenderer {
    var scrollback: seq<Row>
    const buffer: ChunkedText<Tok>
    var live: seq<Row>
    var prev: seq<Row>            // the rows last painted; empty forces a full paint
    var viewportH: nat
    var viewportW: nat
    var offset: nat
    var last: nat
    var stream: State
    var streamW: nat              // the width `stream` is wrapped for
    var source: TranscriptScrollbackSource?
    var counts: map<nat, nat>     // source heights by width, as far as known
    var cleanKey: Option<PaintKey>
    ghost var term: Term<Tok>

    // ---- abstract view --------------------------------------------------------------

    ghost function SourceRows(w: nat): seq<Row>
      reads this`source, source
    {
      if source == null then [] else source.Rows(w)
    }

    ghost function StreamView(w: nat): seq<Row>
      reads this, buffer
    {
      View(Feed(FRESH, buffer.Text(), w))
    }

    ghost function History(w: nat): seq<Row>
      reads this, buffer, source
    {
      SourceRows(w) + (scrollback + StreamView(w))
    }

    ghost function BookAt(w: nat): Book
      reads this
    {
      Book(offset, last, if w in counts then Some(counts[w]) else None)
    }

    ghost function SourceAt(w: nat): Source
      reads this`source, source
    {
      if source == null then NoSource else Source(|SourceRows(w)|)
    }

    ghost function PaneAt(w: nat): Pane
      reads this, buffer, source
    {
      Pane(BookAt(w), SourceAt(w), |scrollback|, |StreamView(w)|)
    }

    ghost predicate Eager(w: nat)
      reads this`source, source
    {
      source != null && source.Complete(w)
    }

    /** The width of every paint but `Update`'s. */
    function Width(termW: nat): nat
      reads this`viewportW
    {
      if viewportW > 0 then viewportW else termW
    }

    /** The screen is the specified slice of history above the live rows. */
    ghost predicate Shows()
      reads this, buffer, source
    {
      term.grid == ScreenOf(History(viewportW), offset, live, viewportH)
    }

    ghost predicate Wrapped()
      reads this, buffer
    {
      && stream == Feed(FRESH, buffer.Text(), streamW)
      && (buffer.Text() != [] ==> streamW == viewportW && viewportW > 0)
    }

    ghost predicate Valid()
      reads this, buffer, source
    {
      && buffer.Valid()
      && (source != null ==> source.Valid())
      && |scrollback| <= CAP
      && Wrapped()
      && (offset > 0 ==> viewportW > 0)
      && term.Valid()
      && (prev != [] ==> term.grid == prev && |prev| == viewportH && viewportW > 0)
      && (cleanKey.Some? && prev != [] && offset == 0 ==> Shows())
    }

    constructor (termH: nat)
      requires termH > 0
      ensures Valid() && fresh(buffer)
      ensures buffer.Text() == [] && scrollback == [] && live == [] && source == null && offset == 0
    {
      var b := new ChunkedText<Tok>(65536);
      buffer := b;
      scrollback, live, prev, viewportH, viewportW := [], [], [], 0, 0;
      offset, last, stream, streamW := 0, 0, FRESH, 0;
      source, counts, cleanKey := null, map[], None;
      term := Term(seq(termH, _ => []), 0, 0);
    }

    // ---- stream rows ------------------------------------------------------------------

    method AppendStreamRows(toks: seq<Tok>, width: nat)
      requires width > 0
      modifies this`stream, this`streamW
      ensures streamW == width
      ensures stream == Feed(if old(streamW) == width then old(stream) else FRESH, toks, width)
    {
      if streamW != width {
        stream, streamW := FRESH, width;
      }
      ghost var before := stream;
      for i := 0 to |toks|
        invariant streamW == width && stream == Feed(before, toks[..i], width)
      {
        assert toks[..i + 1][..i] == toks[..i];
        stream := Step(stream, toks[i], width);
      }
      assert toks[..|toks|] == toks;
    }

    /** The wrapped stream for `width`, wrapped anew from the blocks if it was another. */
    method StreamRowsAt(width: nat) returns (rows: seq<Row>)
      requires width > 0 && buffer.Valid() && stream == Feed(FRESH, buffer.Text(), streamW)
      modifies this`stream, this`streamW
      ensures rows == StreamView(width)
      ensures stream == Feed(FRESH, buffer.Text(), streamW)
      ensures buffer.Text() != [] ==> streamW == width
    {
      hide Feed, View;
      NothingToWrap(width);
      if buffer.length == 0 {
        return [];
      }
      if streamW != width {
        Rewrap(width);
      }
      rows := View(stream);
    }

    method Rewrap(width: nat)
      requires width > 0 && streamW != width
      modifies this`stream, this`streamW
      ensures streamW == width && stream == Feed(FRESH, buffer.Text(), width)
    {
      hide Feed;
      stream, streamW := FRESH, width;
      NothingToWrap(width);
      var blocks := buffer.blocks;
      assert blocks[..0] == [];
      for i := 0 to |blocks|
        invariant streamW == width && stream == Feed(FRESH, Flatten(blocks[..i]), width)
      {
        FlattenSnoc(blocks[..i], blocks[i]);
        assert blocks[..i + 1] == blocks[..i] + [blocks[i]];
        FeedConcat(FRESH, Flatten(blocks[..i]), blocks[i], width);
        AppendStreamRows(blocks[i], width);
      }
      assert blocks[..|blocks|] == blocks;
    }

    // ---- source -------------------------------------------------------------------------

    /** Fetches a slice of the source and records a height it gives away. */
    method SourceRowsFromBottom(width: nat, bottom: nat, height: nat) returns (rows: seq<Row>)
      requires source != null ==> source.Valid()
      modifies this`counts, source
      ensures source != null ==> source.Valid() && source.look == old(source.look)
      ensures rows == BottomSlice(SourceRows(width), bottom, height)
      ensures BookAt(width) == Fetch(old(BookAt(width)), SourceAt(width), bottom, height)
    {
      if source == null || height == 0 {
        return [];
      }
      rows := source.RowsFromBottom(width, bottom, height);
      if |rows| < height {
        var inferred := bottom + |rows|;
        if width !in counts || inferred < counts[width] {
          counts := counts[width := inferred];
        }
      }
    }

    /** Source, scrollback and stream rows for the history area, without joining them. */
    method VisibleNonLiveRows(width: nat, streamRows: seq<Row>, height: nat) returns (rows: seq<Row>)
      requires source != null ==> source.Valid()
      modifies this`counts, source
      ensures source != null ==> source.Valid() && source.look == old(source.look)
      ensures rows == HistoryRows(SourceRows(width) + (scrollback + streamRows), offset, height)
      ensures BookAt(width)
           == FetchVisible(old(BookAt(width)), SourceAt(width), |scrollback| + |streamRows|, height)
    {
      hide BottomSlice, FullRows, Fetch;
      ghost var src := SourceRows(width);
      ghost var local := scrollback + streamRows;
      var localLen := |scrollback| + |streamRows|;
      if height == 0 {
        rows := [];
      } else if offset < localLen {
        rows := RowsEndingInLocal(width, streamRows, height);
      } else {
        SliceEndsInSource(src, local, offset, height);
        rows := SourceRowsFromBottom(width, offset - localLen, height);
      }
      rows := Blanks(height - |rows|) + rows;
    }

    method RowsEndingInLocal(width: nat, streamRows: seq<Row>, height: nat) returns (rows: seq<Row>)
      requires source != null ==> source.Valid()
      requires height > 0 && offset < |scrollback| + |streamRows|
      modifies this`counts, source
      ensures source != null ==> source.Valid() && source.look == old(source.look)
      ensures rows == BottomSlice(SourceRows(width) + (scrollback + streamRows), offset, height)
      ensures BookAt(width)
           == FetchVisible(old(BookAt(width)), SourceAt(width), |scrollback| + |streamRows|, height)
    {
      hide BottomSlice, FullRows, Fetch;
      ghost var src := SourceRows(width);
      ghost var local := scrollback + streamRows;
      var localEnd := |scrollback| + |streamRows| - offset;
      var count := Min(height, localEnd);
      rows := SourceRowsFromBottom(width, 0, height - count);
      var part := LocalSlice(streamRows, localEnd - count, localEnd);
      if height <= localEnd {
        SliceInsideLocal(src, local, offset, height);
        assert |rows| == 0;
        assert rows + part == part;
      } else {
        SliceAcrossLocal(src, local, offset, height);
      }
      rows := rows + part;
    }

    /** A range of `scrollback + streamRows`. */
    method LocalSlice(streamRows: seq<Row>, start: nat, end: nat) returns (rows: seq<Row>)
      requires start <= end <= |scrollback| + |streamRows|
      ensures rows == (scrollback + streamRows)[start..end]
    {
      var n := |scrollback|;
      rows := [];
      if start < n {
        rows := scrollback[start..Min(end, n)];
      }
      if end > n {
        rows := rows + streamRows[Max(0, start - n)..end - n];
      }
      if end <= n {
        SliceLeft(scrollback, streamRows, start, end);
      } else if start >= n {
        SliceRight(scrollback, streamRows, start, end);
      } else {
        SliceAcross(scrollback, streamRows, start, end);
      }
    }

    method QueryCount(width: nat)
      requires source != null ==> source.Valid()
      modifies this`counts
      ensures BookAt(width) == Query(old(BookAt(width)), SourceAt(width), Eager(width))
    {
      if source != null && width !in counts {
        var count := source.RowCount(width);
        if count.Some? {
          counts := counts[width := count.value];
        }
      }
    }

    method ClampIfKnown(width: nat, local: nat, height: nat) returns (clamped: bool)
      modifies this`offset
      ensures BookAt(width) == Clamp(old(BookAt(width)), SourceAt(width), local, height)
      ensures clamped <==> offset != old(offset)
    {
      if source != null && width !in counts {
        return false;
      }
      var total := (if source == null then 0 else counts[width]) + local;
      var known := Max(0, total - height);
      clamped := offset > known;
      if clamped {
        offset := known;
      }
    }

    // ---- painting ----------------------------------------------------------------------

    /** Keeps a scrolled-up reader in place and within a known top. */
    method Reposition(width: nat, streamLen: nat, height: nat)
      requires source != null ==> source.Valid()
      modifies this`offset, this`last, this`counts
      ensures var src, local := SourceAt(width), |scrollback| + streamLen;
              var b := Shift(old(BookAt(width)), streamLen);
              BookAt(width) == (if src.NoSource? || b.offset > 0
                                then Clamp(Query(b, src, Eager(width)), src, local, height) else b)
    {
      if offset > 0 {
        offset := Max(0, offset + streamLen - last);
      }
      last := streamLen;
      if source == null || offset > 0 {
        QueryCount(width);
        var _ := ClampIfKnown(width, |scrollback| + streamLen, height);
      }
    }

    /** Composes the rows to show and updates the bookkeeping as Settle says. */
    method Compose(width: nat, termH: nat) returns (visible: seq<Row>)
      requires width > 0 && buffer.Valid() && (source != null ==> source.Valid())
      requires stream == Feed(FRESH, buffer.Text(), streamW)
      modifies this`stream, this`streamW, this`offset, this`last, this`counts, source
      ensures source != null ==> source.Valid() && source.look == old(source.look)
      ensures stream == Feed(FRESH, buffer.Text(), streamW)
      ensures buffer.Text() != [] ==> streamW == width
      ensures BookAt(width) == Settle(old(BookAt(width)), SourceAt(width), old(Eager(width)),
                                      |scrollback|, |StreamView(width)|, HistoryHeight(live, termH))
      ensures visible == ScreenOf(History(width), offset, live, termH)
    {
      hide View, Feed, BottomSlice, Shift, Clamp, Query, FetchVisible, FullRows;
      var rows := StreamRowsAt(width);
      var liveH := Min(|live|, termH);
      var height := termH - liveH;
      Reposition(width, |rows|, height);
      visible := VisibleNonLiveRows(width, rows, height);
      var clamped := ClampIfKnown(width, |scrollback| + |rows|, height);
      if clamped {
        visible := VisibleNonLiveRows(width, rows, height);
      }
      visible := visible + live[..liveH];
    }

    /** Writes the rows that differ, or all of them, and makes them the baseline. */
    method PaintVisible(width: nat, visible: seq<Row>, termH: nat)
      requires |visible| == termH > 0 && term.Valid()
      requires prev != [] ==> term.grid == prev && |prev| == viewportH
      modifies this`term, this`prev, this`viewportH, this`viewportW
      ensures term.Valid() && term.grid == prev == visible
      ensures viewportH == termH && viewportW == width
    {
      if |term.grid| != termH {
        // the terminal was resized: its rows are not ours any more
        ghost var blank: Term<Tok> := Term(Blanks(termH), 0, 0);
        assert blank.Valid() && |blank.grid| == termH;
        ghost var resized: Term<Tok> :| resized.Valid() && |resized.grid| == termH;
        term := resized;
      }
      var parts: seq<Cmd<Tok>>;
      if prev == [] || |prev| != termH || width != viewportW {
        parts := FullPaint(visible, term);
      } else {
        parts := RowDiff(prev, visible, term);
      }
      term := Run(term, parts);
      prev, viewportH, viewportW := visible, termH, width;
    }

    lemma PutRow(t: Term<Tok>, r: Row)
      requires t.Valid() && t.col == 0
      ensures Exec(Exec(t, EraseLine), Put(r)) == Term(t.grid[t.row := r], t.row, |r|)
    {
      assert Overlay([], 0, r) == r;
    }

    lemma PlaceRow(t: Term<Tok>, r: Row)
      requires t.Valid() && t.col == 0
      ensures var u := Exec(Exec(t, EraseLine), Put(r));
              && u.grid == t.grid[t.row := r] && u.row == t.row
              && (t.row + 1 < |t.grid| ==> Exec(Exec(u, Lf), Cr) == Term(u.grid, t.row + 1, 0))
    {
      PutRow(t, r);
    }

    /** The first `i` rows are placed, and the cursor is at the next. */
    predicate Placed(u: Term<Tok>, visible: seq<Row>, i: nat) {
      && |u.grid| == |visible| && i <= |visible|
      && u.grid[..i] == visible[..i] && (i < |visible| ==> u.row == i && u.col == 0)
    }

    lemma PlaceNext(u: Term<Tok>, visible: seq<Row>, i: nat)
      requires u.Valid() && Placed(u, visible, i) && i < |visible|
      ensures var v := Exec(Exec(u, EraseLine), Put(visible[i]));
              Placed(if i < |visible| - 1 then Exec(Exec(v, Lf), Cr) else v, visible, i + 1)
    {
      PlaceRow(u, visible[i]);
      hide Exec;
      assert u.grid[i := visible[i]][..i + 1] == u.grid[..i] + [visible[i]];
      assert visible[..i + 1] == visible[..i] + [visible[i]];
    }

    /** Places every row, from the top. */
    method FullPaint(visible: seq<Row>, ghost t: Term<Tok>) returns (parts: seq<Cmd<Tok>>)
      requires t.Valid() && |t.grid| == |visible|
      ensures Run(t, parts).grid == visible
    {
      var n := |visible|;
      parts := [Goto(0)];
      RunOne(t, [], Goto(0));
      assert parts == [] + [Goto(0)];
      hide Run, Exec;
      for i := 0 to n
        invariant Placed(Run(t, parts), visible, i)
      {
        PlaceNext(Run(t, parts), visible, i);
        Run2(t, parts, EraseLine, Put(visible[i]));
        parts := parts + [EraseLine, Put(visible[i])];
        if i < n - 1 {
          Run2(t, parts, Lf, Cr);
          parts := parts + [Lf, Cr];
        }
      }
    }

    lemma RewriteRow(t: Term<Tok>, i: nat, r: Row)
      requires t.Valid() && i < |t.grid|
      ensures Exec(Exec(Exec(t, Goto(i)), EraseLine), Put(r)).grid == t.grid[i := r]
    {
      PutRow(Exec(t, Goto(i)), r);
    }

    /** Rewrites only the rows that differ from those on the screen. */
    method RowDiff(was: seq<Row>, visible: seq<Row>, ghost t: Term<Tok>) returns (parts: seq<Cmd<Tok>>)
      requires |was| == |visible| && t.Valid() && t.grid == was
      ensures Run(t, parts).grid == visible
    {
      var n := |visible|;
      parts := [];
      assert Run(t, parts) == t;
      hide Run, Exec;
      for i := 0 to n
        invariant PartlyPainted(was, visible, i, Run(t, parts).grid)
      {
        PaintNext(was, visible, i, Run(t, parts).grid);
        if was[i] != visible[i] {
          RewriteRow(Run(t, parts), i, visible[i]);
          Run3(t, parts, Goto(i), EraseLine, Put(visible[i]));
          parts := parts + [Goto(i), EraseLine, Put(visible[i])];
        }
      }
    }

    predicate PartlyPainted(was: seq<Row>, visible: seq<Row>, i: nat, grid: seq<Row>) {
      && |grid| == |was| == |visible| && i <= |grid|
      && grid[..i] == visible[..i] && grid[i..] == was[i..]
    }

    lemma PaintNext(was: seq<Row>, visible: seq<Row>, i: nat, grid: seq<Row>)
      requires PartlyPainted(was, visible, i, grid) && i < |grid|
      ensures grid[i] == was[i]
      ensures PartlyPainted(was, visible, i + 1, grid[i := visible[i]])
    {
      assert grid[i..][0] == was[i..][0];
      assert grid[i + 1..] == grid[i..][1..] == was[i..][1..] == was[i + 1..];
      assert grid[i := visible[i]][..i + 1] == grid[..i] + [visible[i]];
    }

    method Paint(width: nat, termH: nat)
      requires width > 0 && termH > 0 && buffer.Valid() && (source != null ==> source.Valid())
      requires stream == Feed(FRESH, buffer.Text(), streamW) && term.Valid() && |scrollback| <= CAP
      requires prev != [] ==> term.grid == prev && |prev| == viewportH
      modifies this`stream, this`streamW, this`offset, this`last, this`counts, this`term, this`prev,
               this`viewportH, this`viewportW, this`cleanKey, source
      ensures Valid() && Shows() && viewportW == width && viewportH == termH
      ensures SourceAt(width) == old(SourceAt(width)) && History(width) == old(History(width))
      ensures PaneAt(width) == Viewport.Paint(old(PaneAt(width)), old(Eager(width)), HistoryHeight(live, termH))
    {
      hide View, Feed, BottomSlice, Settle, FullRows;
      var visible := Compose(width, termH);
      cleanKey := Some(PaintKey(width, termH, offset, |scrollback|, last));
      PaintVisible(width, visible, termH);
    }

    // ---- operations ------------------------------------------------------------------------

    /** Re-renders the live region, reusing the painted history when it is still right. */
    method Update(lines: seq<Row>, width: nat, termH: nat)
      requires Valid() && width > 0 && termH > 0
      modifies this, source
      ensures Valid() && Shows() && viewportW == width && viewportH == termH && live == lines
      ensures History(width) == old(History(width))
      ensures PaneAt(width) == old(PaneAt(width))
              || PaneAt(width) == Do(old(PaneAt(width)), Repaint, old(Eager(width)), HistoryHeight(lines, termH))
    {
      hide View, Feed, Settle, FullRows, ScreenOf, Canonical;
      var liveH := Min(|lines|, termH);
      var clean := SliceIsClean(width, termH);
      if clean && viewportH == termH && viewportW == width && liveH == Min(|live|, termH) && offset == 0 {
        var nonLive := termH - liveH;
        var visible := prev[..nonLive] + lines[..liveH];
        OnlyLiveRowsChange(History(width), 0, live, lines, termH);
        live := lines;
        PaintVisible(width, visible, termH);
        return;
      }
      live := lines;
      Paint(width, termH);
    }

    /** Whether the recorded key is that of the present view. */
    method SliceIsClean(width: nat, termH: nat) returns (clean: bool)
      requires Valid() && width > 0
      modifies this`stream, this`streamW
      ensures stream == Feed(FRESH, buffer.Text(), streamW)
      ensures clean ==> prev != [] && cleanKey.Some? && cleanKey.value.offset == offset
      ensures clean && viewportW == width ==> Wrapped()
    {
      hide View, Feed;
      if source == null || prev == [] {
        return false;
      }
      var rows := StreamRowsAt(width);
      clean := cleanKey == Some(PaintKey(width, termH, offset, |scrollback|, |rows|));
    }

    method SetScrollbackSource(src: TranscriptScrollbackSource?, termW: nat, termH: nat)
      requires Valid() && termW > 0 && termH > 0 && (src != null ==> src.Valid())
      modifies this, source, src
      ensures Valid() && source == src
      ensures scrollback == old(scrollback) && live == old(live) && buffer.Text() == old(buffer.Text())
      ensures old(prev) != [] || live != [] || scrollback != [] || buffer.Text() != [] ==>
                && Shows() && viewportH == termH && viewportW == old(Width(termW))
      ensures old(prev) != [] || live != [] || scrollback != [] || buffer.Text() != [] ==>
                var w := old(Width(termW));
                PaneAt(w) == Do(old(PaneAt(w)), Act.SetSource(SourceAt(w)), src != null && old(src.Complete(w)),
                                HistoryHeight(live, termH))
    {
      hide View, Feed, Settle, FullRows, Shows, Canonical, HistoryHeight;
      Install(src);
      if prev != [] || live != [] || scrollback != [] || buffer.length > 0 {
        Paint(Width(termW), termH);
      }
    }

    /** Another source, of which nothing is known yet. */
    method Install(src: TranscriptScrollbackSource?)
      requires Valid() && (src != null ==> src.Valid())
      modifies this`source, this`counts, this`cleanKey, this`offset
      ensures Valid() && source == src
      ensures forall w :: PaneAt(w) == old(PaneAt(w)).(src := SourceAt(w),
                                                       book := Book(if src != null then 0 else old(offset), last, None))
    {
      hide View, Feed, FullRows, Canonical;
      source := src;
      counts := map[];
      cleanKey := None;
      if src != null {
        offset := 0;
      }
    }

    /** Resets local history and installs a source as one change, without painting. */
    method ResetScrollbackSource(src: TranscriptScrollbackSource?)
      requires Valid() && (src != null ==> src.Valid())
      modifies this
      ensures Valid() && source == src && scrollback == [] && offset == 0 && prev == [] && counts == map[]
      ensures live == old(live) && buffer.Text() == old(buffer.Text()) && term == old(term) && last == old(last)
    {
      offset := 0;
      scrollback := [];
      source := src;
      counts := map[];
      cleanKey := None;
      prev := [];
    }

    method PrintAbove(lines: seq<Row>, termW: nat, termH: nat)
      requires Valid() && termW > 0 && termH > 0
      modifies this, source
      ensures Valid() && live == old(live) && buffer.Text() == old(buffer.Text())
      ensures var w := old(Width(termW));
              PaneAt(w) == Do(old(PaneAt(w)), Replace(|lines|, 0), old(Eager(w)), HistoryHeight(live, termH))
      ensures lines != [] ==> Shows() && viewportH == termH && viewportW == old(Width(termW))
      ensures scrollback == (old(scrollback) + lines)[Max(0, |old(scrollback)| + |lines| - 10000)..]
    {
      hide View, Feed, Settle, FullRows, ScreenOf, Canonical;
      var _ := ReplaceRecentScrollback(0, lines, termW, termH);
    }

    /** Replaces the newest local rows, keeping a scrolled-up reader in place. */
    method ReplaceRecentScrollback(rowCount: int, lines: seq<Row>, termW: nat, termH: nat) returns (n: nat)
      requires Valid() && termW > 0 && termH > 0
      modifies this, source
      ensures Valid() && n == |lines|
      ensures live == old(live) && buffer.Text() == old(buffer.Text())
      ensures var w := old(Width(termW));
              PaneAt(w) == Do(old(PaneAt(w)), Replace(|lines|, Max(0, rowCount)), old(Eager(w)),
                              HistoryHeight(live, termH))
      ensures var gone := Min(Max(0, rowCount), |old(scrollback)|);
              && (lines != [] || gone > 0 ==> Shows() && viewportH == termH && viewportW == old(Width(termW)))
              && var kept := old(scrollback)[..|old(scrollback)| - gone] + lines;
                 scrollback == kept[Max(0, |kept| - 10000)..]
    {
      hide View, Feed, Settle, FullRows, ScreenOf, Canonical, Flatten, AfterReplace, Viewport.Paint, HistoryHeight;
      var oldCount := Min(Max(0, rowCount), |scrollback|);
      if lines == [] && oldCount == 0 {
        assert scrollback[..|scrollback|] + lines == scrollback;
        return 0;
      }
      ReplaceIsBounded(PaneAt(Width(termW)), |lines|, Max(0, rowCount));
      Splice(lines, oldCount);
      Paint(Width(termW), termH);
      n := |lines|;
    }

    /** Replaces rows at the end of the local scrollback and trims it at the cap. */
    method Splice(lines: seq<Row>, oldCount: nat)
      requires oldCount <= |scrollback|
      modifies this`scrollback, this`offset
      ensures forall w :: PaneAt(w) == AfterReplace(old(PaneAt(w)), |lines|, oldCount)
      ensures var kept := old(scrollback)[..|old(scrollback)| - oldCount] + lines;
              scrollback == kept[Max(0, |kept| - CAP)..]
    {
      hide View, Feed, FullRows;
      scrollback := scrollback[..|scrollback| - oldCount];
      if offset > 0 {
        offset := Max(0, offset + |lines| - oldCount);
      }
      scrollback := scrollback + lines;
      if |scrollback| > CAP {
        var excess := |scrollback| - CAP;
        scrollback := scrollback[excess..];
        if offset > 0 {
          offset := Max(0, offset - excess);
        }
      }
    }

    method ClearScrollback(termW: nat, termH: nat)
      requires Valid() && termW > 0 && termH > 0
      modifies this, source
      ensures Valid() && Shows() && viewportH == termH && viewportW == old(Width(termW))
      ensures scrollback == [] && live == old(live) && buffer.Text() == old(buffer.Text())
      ensures var w := old(Width(termW));
              PaneAt(w) == Do(old(PaneAt(w)), Act.Clear, old(Eager(w)), HistoryHeight(live, termH))
    {
      hide View, Feed, Settle, FullRows, ScreenOf, Canonical;
      scrollback := [];
      Paint(Width(termW), termH);
    }

    method Invalidate()
      requires Valid()
      modifies this`prev, this`cleanKey
      ensures Valid() && prev == []
    {
      prev, cleanKey := [], None;
    }

    method Scroll(delta: int, termW: nat, termH: nat)
      requires Valid() && termW > 0 && termH > 0
      modifies this, source
      ensures Valid() && live == old(live) && scrollback == old(scrollback) && buffer.Text() == old(buffer.Text())
      ensures var w := old(Width(termW));
              PaneAt(w) == Do(old(PaneAt(w)), Act.Scroll(delta), old(Eager(w)), HistoryHeight(live, termH))
      ensures offset == old(offset) || (Shows() && viewportH == termH && viewportW == old(Width(termW)))
    {
      hide View, Feed, Settle, Query, MaxOffset, FullRows, ScreenOf, Canonical, Flatten, HistoryHeight;
      var w := Width(termW);
      var most := MaxScrollOffset(w, termH);
      var newOffset := Min(most, Max(0, offset + delta));
      if newOffset == offset {
        return;
      }
      offset := newOffset;
      Paint(w, termH);
    }

    /** The largest offset that the present knowledge of the source allows. */
    method MaxScrollOffset(width: nat, termH: nat) returns (most: nat)
      requires Valid() && width > 0
      modifies this`stream, this`streamW, this`counts
      ensures BookAt(width) == Query(old(BookAt(width)), SourceAt(width), Eager(width))
      ensures most == MaxOffset(BookAt(width), SourceAt(width), |scrollback| + |StreamView(width)|,
                                HistoryHeight(live, termH))
      ensures var rows, height := |scrollback| + |StreamView(width)|, HistoryHeight(live, termH);
              most == if source == null then Max(0, rows - height)
                      else if width in counts then Max(0, counts[width] + rows - height)
                      else Max(rows - height, offset + Max(1, height))
      ensures stream == Feed(FRESH, buffer.Text(), streamW)
      ensures width == viewportW ==> Wrapped()
    {
      hide View, Feed, FullRows;
      var rows := StreamRowsAt(width);
      var height := termH - Min(|live|, termH);
      var local := |scrollback| + |rows|;
      QueryCount(width);
      if source == null || width in counts {
        var total := (if source == null then 0 else counts[width]) + local;
        most := Max(0, total - height);
      } else {
        most := Max(Max(0, local - height), offset + Max(1, height));
      }
    }

    method ScrollToBottom(termW: nat, termH: nat)
      requires Valid() && termW > 0 && termH > 0
      modifies this, source
      ensures Valid() && live == old(live) && scrollback == old(scrollback) && buffer.Text() == old(buffer.Text())
      ensures var w := old(Width(termW));
              PaneAt(w) == Do(old(PaneAt(w)), ToBottom, old(Eager(w)), HistoryHeight(live, termH))
      ensures offset == 0
      ensures old(offset) == 0 || (Shows() && viewportH == termH && viewportW == old(Width(termW)))
    {
      hide View, Feed, Settle, FullRows, ScreenOf, Canonical;
      if offset == 0 {
        return;
      }
      offset := 0;
      PaintAtTheBottom(PaneAt(Width(termW)), Eager(Width(termW)), HistoryHeight(live, termH));
      Paint(Width(termW), termH);
    }

    /** `stream_begin` and `stream_end`: the stream in flight is dropped. */
    method StreamRestart(termW: nat, termH: nat)
      requires Valid() && termW > 0 && termH > 0
      modifies this, buffer, source
      ensures Valid() && Shows() && viewportH == termH && viewportW == old(Width(termW))
      ensures live == old(live) && scrollback == old(scrollback) && buffer.Text() == []
      ensures var w := old(Width(termW));
              PaneAt(w) == Do(old(PaneAt(w)), Restart, old(Eager(w)), HistoryHeight(live, termH))
    {
      hide View, Feed, Settle, FullRows, ScreenOf, Canonical;
      var w := Width(termW);
      NothingToWrap(w);
      buffer.Clear();
      stream, streamW := FRESH, w;
      Paint(w, termH);
    }

    /** Adds to the stream; a scrolled-up reader's screen is left alone. */
    method StreamAppend(toks: seq<Tok>, termW: nat, termH: nat)
      requires Valid() && termW > 0 && termH > 0
      modifies this, buffer, source
      ensures Valid() && live == old(live) && scrollback == old(scrollback)
      ensures buffer.Text() == old(buffer.Text()) + toks
      ensures old(offset) > 0 ==> offset == old(offset) && last == old(last) && term == old(term)
      ensures old(offset) == 0 && toks != [] ==> Shows() && viewportH == termH && viewportW == old(Width(termW))
      ensures toks != [] ==>
                var w := old(Width(termW));
                PaneAt(w) == Do(old(PaneAt(w)), Act.Append(|StreamView(w)|), old(Eager(w)), HistoryHeight(live, termH))
    {
      hide View, Feed, Settle, FullRows, ScreenOf, Canonical;
      if toks == [] {
        assert buffer.Text() + toks == buffer.Text();
        return;
      }
      var w := Width(termW);
      FeedConcat(FRESH, buffer.Text(), toks, w);
      NothingToWrap(w);
      buffer.Append(toks);
      AppendStreamRows(toks, w);
      if offset == 0 {
        Paint(w, termH);
      }
    }
  }
}
