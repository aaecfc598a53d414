/** A reader who has scrolled up keeps seeing the same rows while a stream grows or ends. */
module Stability {
  import opened Prelude
  import opened StreamRows
  import opened Viewport

  /** An offset within the top and moved with the stream is not clamped by a paint. */
  lemma NotClamped(b: Book, src: Source, eager: bool, scrollback: nat, stream: nat, height: nat)
    requires NotBelow(b, src) && height > 0
    requires b.offset > 0 && WithinTop(b, src.Rows() + scrollback + b.last, height)
    ensures Settle(b, src, eager, scrollback, stream, height).offset == Max(0, b.offset + stream - b.last)
  {
  }

  /** The same rows above the reader's last one make the same view. */
  lemma SameRowsSameView(base: seq<Row>, was: seq<Row>, now: seq<Row>,
                         b: Book, src: Source, eager: bool, scrollback: nat, height: nat)
    requires height > 0 && NotBelow(b, src) && |base| == src.Rows() + scrollback
    requires 0 < b.offset && b.last == |was| && b.offset <= |base| + |was|
    requires WithinTop(b, |base| + |was|, height)
    requires var end := |base| + |was| - b.offset;
             end <= |base| + |now| && (base + now)[..end] == (base + was)[..end]
    ensures var after := Settle(b, src, eager, scrollback, |now|, height).offset;
            HistoryRows(base + now, after, height) == HistoryRows(base + was, b.offset, height)
  {
    NotClamped(b, src, eager, scrollback, |now|, height);
    var after := Max(0, b.offset + |now| - |was|);
    hide Settle, HistoryRows;
    SameSlice(base + now, base + was, after, b.offset, height);
  }

  /**
   * Any appended text, in whatever chunks, leaves the slice of a scrolled-up
   * reader unchanged at the next paint, even where it made the stream's view
   * shorter.
   */
  lemma AppendingKeepsTheView(base: seq<Row>, text: seq<Tok>, chunks: seq<seq<Tok>>, w: nat,
                              b: Book, src: Source, eager: bool, scrollback: nat, height: nat)
    requires height > 0 && NotBelow(b, src) && |base| == src.Rows() + scrollback
    requires var was := View(Feed(FRESH, text, w));
             0 < b.offset && b.last == |was| && WithinTop(b, |base| + |was|, height)
    ensures var was := View(Feed(FRESH, text, w));
            var now := View(Feed(FRESH, text + Flatten(chunks), w));
            var after := Settle(b, src, eager, scrollback, |now|, height).offset;
            HistoryRows(base + now, after, height) == HistoryRows(base + was, b.offset, height)
  {
    hide View, Feed, Settle, HistoryRows;
    var s := Feed(FRESH, text, w);
    var was := View(s);
    FeedConcat(FRESH, text, Flatten(chunks), w);
    var now := View(Feed(FRESH, text + Flatten(chunks), w));
    var end := |base| + |was| - b.offset;
    if end > |base| {
      FrozenAbove(s, Flatten(chunks), w, end - |base|);
      assert (base + now)[..end] == base + now[..end - |base|];
      assert (base + was)[..end] == base + was[..end - |base|];
    } else {
      assert (base + now)[..end] == base[..end] == (base + was)[..end];
    }
    SameRowsSameView(base, was, now, b, src, eager, scrollback, height);
  }

  /** Dropping the stream keeps the view of a reader above all its painted rows. */
  lemma EndingKeepsTheView(base: seq<Row>, was: seq<Row>,
                           b: Book, src: Source, eager: bool, scrollback: nat, height: nat)
    requires height > 0 && NotBelow(b, src) && |base| == src.Rows() + scrollback
    requires 0 < b.offset && b.last == |was| <= b.offset && WithinTop(b, |base| + |was|, height)
    ensures var after := Settle(b, src, eager, scrollback, 0, height).offset;
            HistoryRows(base + [], after, height) == HistoryRows(base + was, b.offset, height)
  {
    hide Settle, HistoryRows;
    var end := |base| + |was| - b.offset;
    assert (base + [])[..end] == base[..end] == (base + was)[..end];
    SameRowsSameView(base, was, [], b, src, eager, scrollback, height);
  }

  /** Rows that can be told apart from each other and from blanks. */
  ghost predicate Distinct(rows: seq<Row>) {
    && (forall i, j | 0 <= i < j < |rows| :: rows[i] != rows[j])
    && (forall i | 0 <= i < |rows| :: rows[i] != [])
  }

  /** The row of a view `i` rows above its last one. */
  lemma RowAt(rows: seq<Row>, offset: nat, height: nat, i: nat)
    requires i < height
    ensures HistoryRows(rows, offset, height)[height - 1 - i]
         == if offset + i < |rows| then rows[|rows| - offset - i - 1] else []
  {
  }

  lemma Apart(rows: seq<Row>, i: nat, j: nat)
    requires Distinct(rows) && i < |rows| && j < |rows|
    ensures rows[j] != [] && (i != j ==> rows[i] != rows[j])
  {
  }

  /** A reader inside the stream's own rows is taken to the bottom of what is left. */
  lemma EndingInsideTheStreamMovesTheView(base: seq<Row>, was: seq<Row>,
                                    b: Book, src: Source, eager: bool, scrollback: nat, height: nat)
    requires height > 0 && NotBelow(b, src) && |base| == src.Rows() + scrollback
    requires 0 < b.offset < b.last == |was| && WithinTop(b, |base| + |was|, height)
    ensures Settle(b, src, eager, scrollback, 0, height).offset == 0
    ensures Distinct(base + was) ==> HistoryRows(base, 0, height) != HistoryRows(base + was, b.offset, height)
  {
    hide Settle, HistoryRows, Distinct, NotBelow;
    NotClamped(b, src, eager, scrollback, 0, height);
    hide WithinTop;
    if Distinct(base + was) {
      var k := |base| + |was| - b.offset - 1;
      RowAt(base, 0, height, 0);
      RowAt(base + was, b.offset, height, 0);
      Apart(base + was, k, k);
      if base != [] {
        assert (base + was)[|base| - 1] == base[|base| - 1];
        Apart(base + was, |base| - 1, k);
      }
    }
  }

  /**
   * Dropping the stream keeps the view of a scrolled-up reader if and only if all
   * of the painted stream is below it.
   */
  lemma EndingKeepsTheViewIff(base: seq<Row>, was: seq<Row>,
                              b: Book, src: Source, eager: bool, scrollback: nat, height: nat)
    requires height > 0 && NotBelow(b, src) && |base| == src.Rows() + scrollback
    requires 0 < b.offset && b.last == |was| && WithinTop(b, |base| + |was|, height)
    requires Distinct(base + was)
    ensures var after := Settle(b, src, eager, scrollback, 0, height).offset;
            HistoryRows(base, after, height) == HistoryRows(base + was, b.offset, height) <==> |was| <= b.offset
  {
    hide Settle, HistoryRows, Distinct;
    if |was| <= b.offset {
      EndingKeepsTheView(base, was, b, src, eager, scrollback, height);
      assert base + [] == base;
    } else {
      EndingInsideTheStreamMovesTheView(base, was, b, src, eager, scrollback, height);
    }
  }

  // ---- printing above -------------------------------------------------------------------

  /**
   * Printing, or replacing rows that are all below a scrolled-up reader, keeps
   * the reader's view at the paint that follows, below the cap.  `was` are the
   * stream rows at the last paint, `now` the present ones.  A reader just above
   * the replaced rows, with none in their place, is at the bottom afterwards and
   * then sees any stream rows not painted yet.
   */
  lemma ReplacingKeepsTheView(source: seq<Row>, local: seq<Row>, was: seq<Row>, now: seq<Row>,
                              lines: seq<Row>, removed: nat, p: Pane, eager: bool, height: nat)
    requires height > 0 && NotBelow(p.book, p.src)
    requires p.src.Rows() == |source| && p.scrollback == |local| && p.stream == |now| && p.book.last == |was|
    requires var gone := Min(removed, |local|);
             && |local| - gone + |lines| <= CAP
             && 0 < p.book.offset && |was| + gone <= p.book.offset
             && (p.book.offset > gone || lines != [] || |now| == |was|)
    requires WithinTop(p.book, |source| + |local| + |was|, height)
    ensures var kept := local[..|local| - Min(removed, |local|)] + lines;
            var q := Paint(AfterReplace(p, |lines|, removed), eager, height);
            && q.scrollback == |kept|
            && HistoryRows(source + (kept + now), q.book.offset, height)
               == HistoryRows(source + (local + was), p.book.offset, height)
  {
    var n := |local| - Min(removed, |local|);
    ReplacedOffset(p, |lines|, removed, eager, height);
    hide Settle, HistoryRows, AfterReplace, Paint;
    assert local == local[..n] + local[n..];
    Assoc(local[..n], local[n..], was);
    Assoc(local[..n], lines, now);
    hide WithinTop;
    SameAbove(source, local[..n], lines + now, local[n..] + was,
              p.book.offset + |lines| - (|local| - n) + |now| - |was|, p.book.offset, height);
  }

  /**
   * Why that reader is excepted: removing exactly the rows below the view lands
   * the reader at the bottom, where stream rows not painted before come into view.
   */
  lemma ReplacingMaySnap(source: seq<Row>, local: seq<Row>, now: seq<Row>,
                              removed: nat, p: Pane, eager: bool, height: nat)
    requires height > 0 && p.src.Rows() == |source| && p.scrollback == |local| && p.stream == |now|
    requires |local| - Min(removed, |local|) <= CAP
    requires 0 < p.book.offset == Min(removed, |local|) && p.book.last == 0 < |now|
    ensures var kept := local[..|local| - Min(removed, |local|)];
            var q := Paint(AfterReplace(p, 0, removed), eager, height);
            && q.book.offset == 0
            && (Distinct(source + (local + now)) ==>
                  HistoryRows(source + (kept + now), 0, height) != HistoryRows(source + local, p.book.offset, height))
  {
    var n := |local| - Min(removed, |local|);
    BottomStays(AfterReplace(p, 0, removed).book, p.src, eager, n, |now|, height);
    assert Paint(AfterReplace(p, 0, removed), eager, height).book.offset == 0;
    hide Settle, HistoryRows, AfterReplace, Paint, Distinct;
    assert local == local[..n] + local[n..];
    if Distinct(source + (local + now)) {
      LaterRowShows(source, local[..n], local[n..], now, height);
    }
  }

  lemma LaterRowShows(a: seq<Row>, b: seq<Row>, x: seq<Row>, y: seq<Row>, height: nat)
    requires height > 0 && y != [] && Distinct(a + (b + x + y))
    ensures HistoryRows(a + (b + y), 0, height) != HistoryRows(a + (b + x), |x|, height)
  {
    hide HistoryRows;
    RowAt(a + (b + y), 0, height, 0);
    RowAt(a + (b + x), |x|, height, 0);
    LastOfThree(a, b, x, y);
  }

  lemma LastOfThree(a: seq<Row>, b: seq<Row>, x: seq<Row>, y: seq<Row>)
    requires y != [] && Distinct(a + (b + x + y))
    ensures var last := (a + (b + y))[|a| + |b| + |y| - 1];
            last != [] && (|a| + |b| > 0 ==> last != (a + (b + x))[|a| + |b| - 1])
  {
    var all := a + (b + x + y);
    var k, n := |all| - 1, |a| + |b| - 1;
    assert all[k] == y[|y| - 1] == (a + (b + y))[|a| + |b| + |y| - 1];
    if n >= 0 {
      assert all[n] == (a + b)[n] == (a + (b + x))[n];
    }
  }

  /** Slices that end in a common beginning. */
  lemma SameAbove(a: seq<Row>, b: seq<Row>, x: seq<Row>, y: seq<Row>, i: nat, j: nat, height: nat)
    requires |x| <= i && |y| <= j && |x| - i == |y| - j && j <= |a| + |b| + |y|
    ensures HistoryRows(a + (b + x), i, height) == HistoryRows(a + (b + y), j, height)
  {
    hide HistoryRows;
    var end := |a| + |b| + |x| - i;
    assert (a + (b + x))[..end] == (a + b)[..end] == (a + (b + y))[..end];
    SameSlice(a + (b + x), a + (b + y), i, j, height);
  }

  /** Where a reader stands after rows are replaced and painted. */
  lemma ReplacedOffset(p: Pane, added: nat, removed: nat, eager: bool, height: nat)
    requires height > 0 && NotBelow(p.book, p.src) && 0 < p.book.offset
    requires p.scrollback - Min(removed, p.scrollback) + added <= CAP
    requires WithinTop(p.book, p.src.Rows() + p.scrollback + p.book.last, height)
    ensures var gone := Min(removed, p.scrollback);
            var moved := p.book.offset + added - gone;
            var q := Paint(AfterReplace(p, added, removed), eager, height);
            && q.scrollback == p.scrollback - gone + added
            && q.book.offset == if moved <= 0 then 0 else Max(0, moved + p.stream - p.book.last)
  {
    var gone := Min(removed, p.scrollback);
    var a := AfterReplace(p, added, removed);
    assert a.book == p.book.(offset := Max(0, p.book.offset + added - gone));
    hide Settle;
    if a.book.offset > 0 {
      NotClamped(a.book, p.src, eager, a.scrollback, p.stream, height);
    } else {
      BottomStays(a.book, p.src, eager, a.scrollback, p.stream, height);
    }
  }

  lemma BottomStays(b: Book, src: Source, eager: bool, scrollback: nat, stream: nat, height: nat)
    requires b.offset == 0
    ensures Settle(b, src, eager, scrollback, stream, height).offset == 0
  {
  }

  /**
   * Which readers keep their view when `added` rows replace `gone` at the end of
   * the local scrollback, `was` and `now` being the heights of the stream at the
   * last paint and at this one.  Those above the replaced rows do, but for the one
   * that is snapped to the bottom; those in the replaced rows do not; those inside
   * the stream do if nothing moved them and they see none of the replaced rows.
   */
  predicate KeepsPlace(offset: nat, was: nat, now: nat, gone: nat, added: nat, height: nat) {
    if was + gone <= offset then offset > gone || added > 0 || now == 0
    else if was <= offset then false
    else (added == gone || (added < gone && was == now + offset)) && (gone == 0 || height <= was - offset)
  }

  /** The stream as painted before goes on as it was, up to the reader's last row. */
  ghost predicate Continues(was: seq<Row>, now: seq<Row>, offset: nat) {
    offset < |was| ==> |was| - offset <= |now| && now[..|was| - offset] == was[..|was| - offset]
  }

  /** A row taken out is nowhere in what is left, and not blank. */
  lemma GoneIsGone(a: seq<Row>, b: seq<Row>, x: seq<Row>, y: seq<Row>, j: nat)
    requires Distinct(a + (b + x + y)) && j < |x|
    ensures x[j] != [] && x[j] !in a + (b + y)
  {
    var all := a + (b + x + y);
    var k := |a| + |b| + j;
    assert all[k] == x[j];
    forall i | 0 <= i < |a + (b + y)| ensures (a + (b + y))[i] != x[j] {
      if i < |a| + |b| {
        assert (a + (b + y))[i] == (a + b)[i] == all[i];
      } else {
        assert (a + (b + y))[i] == y[i - |a| - |b|] == all[i + |x|];
      }
    }
  }

  /** A row that is in one view and nowhere in the rows of another makes them differ. */
  lemma MissingRow(a: seq<Row>, b: seq<Row>, i: nat, j: nat, k: nat, height: nat)
    requires k < height && j + k < |b|
    requires b[|b| - j - k - 1] != [] && b[|b| - j - k - 1] !in a
    ensures HistoryRows(a, i, height) != HistoryRows(b, j, height)
  {
    RowAt(a, i, height, k);
    RowAt(b, j, height, k);
    hide HistoryRows;
  }

  /** A reader whose last row is taken out sees something else. */
  lemma ReaderOfGoneRows(a: seq<Row>, b: seq<Row>, x: seq<Row>, y: seq<Row>, was: seq<Row>, i: nat, j: nat, height: nat)
    requires height > 0 && Distinct(a + (b + x + y)) && |was| <= j < |was| + |x|
    ensures HistoryRows(a + (b + y), i, height) != HistoryRows(a + (b + x + was), j, height)
  {
    var old' := a + (b + x + was);
    var k := |x| + |was| - j - 1;
    GoneIsGone(a, b, x, y, k);
    assert old'[|old'| - j - 1] == x[k];
    hide HistoryRows, Distinct;
    MissingRow(a + (b + y), old', i, j, 0, height);
  }

  /** A reader inside the stream, and with taken out rows in view, sees something else. */
  lemma ReaderBelowGoneRows(a: seq<Row>, b: seq<Row>, x: seq<Row>, y: seq<Row>, was: seq<Row>,
                            i: nat, j: nat, height: nat)
    requires Distinct(a + (b + x + y)) && x != [] && j < |was| && |was| - j < height
    ensures HistoryRows(a + (b + y), i, height) != HistoryRows(a + (b + x + was), j, height)
  {
    var old' := a + (b + x + was);
    GoneIsGone(a, b, x, y, |x| - 1);
    assert old'[|old'| - j - (|was| - j) - 1] == x[|x| - 1];
    hide HistoryRows, Distinct;
    MissingRow(a + (b + y), old', i, j, |was| - j, height);
  }

  lemma DistinctPart(a: seq<Row>, b: seq<Row>, x: seq<Row>, y: seq<Row>)
    requires Distinct(a + (b + x + y))
    ensures Distinct(a + (b + y))
  {
    var all, part := a + (b + x + y), a + (b + y);
    var n := |a| + |b|;
    forall i | 0 <= i < |part| ensures part[i] == all[if i < n then i else i + |x|] {
      if i < n {
        assert part[i] == (a + b)[i] == all[i];
      } else {
        assert part[i] == y[i - n] == all[i + |x|];
      }
    }
  }

  lemma RowOfStream(u: seq<Row>, stream: seq<Row>, k: nat)
    requires k < |stream|
    ensures (u + stream)[|u| + k] == stream[k]
  {
  }

  /** Among distinct rows a view that ends elsewhere is another view. */
  lemma ReaderMoved(u: seq<Row>, now: seq<Row>, v: seq<Row>, was: seq<Row>, i: nat, j: nat, height: nat)
    requires height > 0 && Distinct(u + now) && j < |was| && Continues(was, now, j)
    requires |was| - j != |now| - i
    ensures HistoryRows(u + now, i, height) != HistoryRows(v + was, j, height)
  {
    var e := |was| - j;
    assert was[e - 1] == was[..e][e - 1] == now[..e][e - 1] == now[e - 1];
    hide HistoryRows, Distinct, Continues, LastOf;
    LastOfStream(v, was, j);
    LastElsewhere(u, now, i, e - 1);
    OtherLast(u + now, i, v + was, j, height);
  }

  /** The last row of a view. */
  function LastOf(rows: seq<Row>, offset: nat): Row {
    if offset < |rows| then rows[|rows| - offset - 1] else []
  }

  lemma OtherLast(a: seq<Row>, i: nat, b: seq<Row>, j: nat, height: nat)
    requires height > 0 && LastOf(a, i) != LastOf(b, j)
    ensures HistoryRows(a, i, height) != HistoryRows(b, j, height)
  {
    RowAt(a, i, height, 0);
    RowAt(b, j, height, 0);
    hide HistoryRows;
  }

  lemma LastOfStream(u: seq<Row>, stream: seq<Row>, j: nat)
    requires j < |stream|
    ensures LastOf(u + stream, j) == stream[|stream| - j - 1]
  {
    RowOfStream(u, stream, |stream| - j - 1);
  }

  /** Among distinct rows a view that does not end at row `k` of the stream ends with another row. */
  lemma LastElsewhere(u: seq<Row>, stream: seq<Row>, i: nat, k: nat)
    requires Distinct(u + stream) && k < |stream| && |stream| - i != k + 1
    ensures LastOf(u + stream, i) != stream[k]
  {
    hide Distinct;
    RowOfStream(u, stream, k);
    var n := |u + stream|;
    Apart(u + stream, if i < n then n - i - 1 else |u| + k, |u| + k);
  }

  lemma ViewInside(u: seq<Row>, stream: seq<Row>, i: nat, height: nat)
    requires i + height <= |stream|
    ensures HistoryRows(u + stream, i, height) == stream[|stream| - i - height..|stream| - i]
  {
    var end := |u| + |stream| - i;
    SliceRight(u, stream, end - height, end);
  }

  /** Views that lie inside the stream's unchanged rows are the same. */
  lemma ReaderInside(u: seq<Row>, now: seq<Row>, v: seq<Row>, was: seq<Row>, i: nat, j: nat, height: nat)
    requires j < |was| && i < |now| && Continues(was, now, j)
    requires |was| - j == |now| - i && height <= |was| - j
    ensures HistoryRows(u + now, i, height) == HistoryRows(v + was, j, height)
  {
    var e := |was| - j;
    assert now[..e] == was[..e];
    hide HistoryRows, Continues;
    ViewInside(u, now, i, height);
    ViewInside(v, was, j, height);
    SliceOfPrefix(now, e - height, e);
    SliceOfPrefix(was, e - height, e);
  }

  lemma SliceOfPrefix(rows: seq<Row>, i: nat, e: nat)
    requires i <= e <= |rows|
    ensures rows[i..e] == rows[..e][i..]
  {
  }

  /** What a reader inside the stream sees after rows `x` are replaced by `lines`. */
  lemma InsideIff(a: seq<Row>, b: seq<Row>, x: seq<Row>, lines: seq<Row>, was: seq<Row>, now: seq<Row>,
                  i: nat, j: nat, height: nat)
    requires height > 0 && j < |was| && Continues(was, now, j)
    requires Distinct(a + (b + x + (lines + now)))
    ensures |was| - j == |now| - i && (x == [] ==> lines == []) ==>
              (HistoryRows(a + (b + (lines + now)), i, height) == HistoryRows(a + (b + x + was), j, height)
               <==> x == [] || height <= |was| - j)
    ensures |was| - j != |now| - i ==>
              HistoryRows(a + (b + (lines + now)), i, height) != HistoryRows(a + (b + x + was), j, height)
  {
    hide HistoryRows, Distinct;
    var u, v := a + (b + lines), a + (b + x);
    assert a + (b + (lines + now)) == u + now && a + (b + x + was) == v + was;
    if |was| - j != |now| - i {
      DistinctPart(a, b, x, lines + now);
      ReaderMoved(u, now, v, was, i, j, height);
    } else if height <= |was| - j {
      ReaderInside(u, now, v, was, i, j, height);
    } else if x != [] {
      ReaderBelowGoneRows(a, b, x, lines + now, was, i, j, height);
    } else if lines == [] {
      assert u == v;
      var e := |was| - j;
      assert (u + now)[..|u| + e] == u + now[..e] == u + was[..e] == (v + was)[..|u| + e];
      SameSlice(u + now, v + was, i, j, height);
    }
  }

  /**
   * Replacing the newest local rows, below the cap: for distinct rows a scrolled-up
   * reader keeps the view at the paint that follows if and only if KeepsPlace.
   */
  lemma ReplacingKeepsTheViewIff(source: seq<Row>, local: seq<Row>, was: seq<Row>, now: seq<Row>,
                                 lines: seq<Row>, removed: nat, p: Pane, eager: bool, height: nat)
    requires height > 0 && NotBelow(p.book, p.src) && 0 < p.book.offset
    requires p.src.Rows() == |source| && p.scrollback == |local| && p.stream == |now| && p.book.last == |was|
    requires |local| - Min(removed, |local|) + |lines| <= CAP
    requires WithinTop(p.book, |source| + |local| + |was|, height)
    requires Continues(was, now, p.book.offset) && Distinct(source + (local + lines + now))
    ensures var gone := Min(removed, |local|);
            var kept := local[..|local| - gone] + lines;
            var q := Paint(AfterReplace(p, |lines|, removed), eager, height);
            HistoryRows(source + (kept + now), q.book.offset, height)
              == HistoryRows(source + (local + was), p.book.offset, height)
            <==> KeepsPlace(p.book.offset, |was|, |now|, gone, |lines|, height)
  {
    var gone := Min(removed, |local|);
    var n := |local| - gone;
    var j := p.book.offset;
    if |was| + gone <= j {
      if KeepsPlace(j, |was|, |now|, gone, |lines|, height) {
        ReplacingKeepsTheView(source, local, was, now, lines, removed, p, eager, height);
      } else {
        assert was == [] && lines == [] && local + lines + now == local + now && local + was == local;
        assert local[..n] + lines == local[..n];
        ReplacingMaySnap(source, local, now, removed, p, eager, height);
      }
    } else {
      ReplacedOffset(p, |lines|, removed, eager, height);
      var i := Paint(AfterReplace(p, |lines|, removed), eager, height).book.offset;
      hide HistoryRows, Distinct, Settle, AfterReplace, Paint;
      assert local == local[..n] + local[n..];
      Assoc(local[..n], lines, now);
      Assoc(local, lines, now);
      if |was| <= j {
        ReaderOfGoneRows(source, local[..n], local[n..], lines + now, was, i, j, height);
      } else {
        InsideIff(source, local[..n], local[n..], lines, was, now, i, j, height);
      }
    }
  }

  /**
   * Printing above, whatever was appended to the stream since the last paint: the
   * reader keeps the view if and only if all of the painted stream is below it.
   */
  lemma PrintingKeepsTheViewIff(source: seq<Row>, local: seq<Row>, text: seq<Tok>, more: seq<Tok>, w: nat,
                                lines: seq<Row>, p: Pane, eager: bool, height: nat)
    requires height > 0 && NotBelow(p.book, p.src) && 0 < p.book.offset && lines != []
    requires var was, now := View(Feed(FRESH, text, w)), View(Feed(FRESH, text + more, w));
             && p.src.Rows() == |source| && p.scrollback == |local| && p.stream == |now| && p.book.last == |was|
             && WithinTop(p.book, |source| + |local| + |was|, height)
             && Distinct(source + (local + lines + now))
    requires |local| + |lines| <= CAP
    ensures var was, now := View(Feed(FRESH, text, w)), View(Feed(FRESH, text + more, w));
            var q := Paint(AfterReplace(p, |lines|, 0), eager, height);
            HistoryRows(source + (local + lines + now), q.book.offset, height)
              == HistoryRows(source + (local + was), p.book.offset, height)
            <==> |was| <= p.book.offset
  {
    hide View, Feed, Settle, HistoryRows, Distinct, AfterReplace, Paint;
    var s := Feed(FRESH, text, w);
    var was, now := View(s), View(Feed(FRESH, text + more, w));
    FeedConcat(FRESH, text, more, w);
    if p.book.offset < |was| {
      FrozenAbove(s, more, w, |was| - p.book.offset);
    }
    assert local[..|local| - 0] == local;
    ReplacingKeepsTheViewIff(source, local, was, now, lines, 0, p, eager, height);
  }

  /** Two stream rows, the reader at the first: after printing one row it is the printed one that shows. */
  lemma PrintingInsideTheStreamMovesTheView()
    ensures var local: seq<Row> := [[Glyph(1, 1)]];
            var stream: seq<Row> := [[Glyph(2, 1)], [Glyph(3, 1)]];
            var lines: seq<Row> := [[Glyph(9, 1)]];
            var p := Pane(Book(1, 2, None), NoSource, 1, 2);
            var q := Paint(AfterReplace(p, 1, 0), false, 1);
            && HistoryRows(local + stream, p.book.offset, 1) == [[Glyph(2, 1)]]
            && HistoryRows(local + lines + stream, q.book.offset, 1) == [[Glyph(9, 1)]]
  {
    var local: seq<Row> := [[Glyph(1, 1)]];
    var stream: seq<Row> := [[Glyph(2, 1)], [Glyph(3, 1)]];
    var lines: seq<Row> := [[Glyph(9, 1)]];
    var p := Pane(Book(1, 2, None), NoSource, 1, 2);
    ReplacedOffset(p, 1, 0, false, 1);
    hide Settle, AfterReplace, Paint, HistoryRows;
    RowAt(local + stream, 1, 1, 0);
    RowAt(local + lines + stream, 2, 1, 0);
  }

  // ---- scrolling ------------------------------------------------------------------------------

  /** A scroll that moves the view by the rows asked for shows those rows. */
  lemma ScrollingShowsTheRowsAsked(base: seq<Row>, was: seq<Row>, now: seq<Row>,
                                   p: Pane, delta: int, eager: bool, height: nat)
    requires height > 0 && |base| == p.src.Rows() + p.scrollback
    requires p.stream == |now| && p.book.last == |was| && 0 <= p.book.offset + delta <= |base| + |was|
    requires var q := AfterScroll(p, delta, eager, height); q.book.last == |now| && Moved(p, q) == delta
    requires var end := |base| + |was| - (p.book.offset + delta);
             end <= |base| + |now| && (base + now)[..end] == (base + was)[..end]
    ensures HistoryRows(base + now, AfterScroll(p, delta, eager, height).book.offset, height)
         == HistoryRows(base + was, p.book.offset + delta, height)
  {
    hide Settle, HistoryRows, AfterScroll;
    SameSlice(base + now, base + was, AfterScroll(p, delta, eager, height).book.offset, p.book.offset + delta, height);
  }
}
