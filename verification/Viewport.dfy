/**
 * The viewport over history, and the bookkeeping that decides which slice of
 * history is on show: scroll offset, stream compensation, and the height of the
 * lazy source as far as it is known.
 */
module Viewport {
  import opened Prelude
  import opened StreamRows
  import opened Transcript

  // ---- what must be on the screen ---------------------------------------------------

  function Blanks(n: nat): seq<Row> {
    seq(n, _ => [])
  }

  /** `height` rows of history ending `offset` rows above its bottom, blank above the top. */
  function HistoryRows(history: seq<Row>, offset: nat, height: nat): (rows: seq<Row>)
    ensures |rows| == height
  {
    var s := BottomSlice(history, offset, height);
    Blanks(height - |s|) + s
  }

  function HistoryHeight(live: seq<Row>, screenHeight: nat): nat {
    screenHeight - Min(|live|, screenHeight)
  }

  /** The specification of a painted screen. */
  function ScreenOf(history: seq<Row>, offset: nat, live: seq<Row>, screenHeight: nat): (rows: seq<Row>)
    ensures |rows| == screenHeight
  {
    HistoryRows(history, offset, HistoryHeight(live, screenHeight)) + live[..Min(|live|, screenHeight)]
  }

  /** Row by row: live rows at the bottom of the screen, and history above them, blank above its top. */
  lemma ScreenRowByRow(history: seq<Row>, offset: nat, live: seq<Row>, screenHeight: nat, i: nat)
    requires i < screenHeight
    ensures var n := Min(|live|, screenHeight);
            var h := screenHeight - n;
            var k := |history| - offset - (h - i);
            ScreenOf(history, offset, live, screenHeight)[i]
            == if i >= h then live[i - h] else if 0 <= k && offset <= |history| then history[k] else []
  {
  }

  lemma SliceLeft<T>(a: seq<T>, b: seq<T>, i: nat, j: nat)
    requires i <= j <= |a|
    ensures (a + b)[i..j] == a[i..j]
  {
  }

  lemma SliceRight<T>(a: seq<T>, b: seq<T>, i: nat, j: nat)
    requires |a| <= i <= j <= |a + b|
    ensures (a + b)[i..j] == b[i - |a|..j - |a|]
  {
  }

  lemma SliceAcross<T>(a: seq<T>, b: seq<T>, i: nat, j: nat)
    requires i <= |a| <= j <= |a + b|
    ensures (a + b)[i..j] == a[i..|a|] + b[..j - |a|]
  {
  }

  /** A slice that ends inside `local` and begins there. */
  lemma SliceInsideLocal(source: seq<Row>, local: seq<Row>, offset: nat, height: nat)
    requires offset < |local| && height <= |local| - offset
    ensures BottomSlice(source + local, offset, height) == local[|local| - offset - height..|local| - offset]
  {
    var end := |source + local| - offset;
    SliceRight(source, local, end - height, end);
  }

  /** A slice that ends inside `local` and begins above it. */
  lemma SliceAcrossLocal(source: seq<Row>, local: seq<Row>, offset: nat, height: nat)
    requires offset < |local| && height > |local| - offset
    ensures BottomSlice(source + local, offset, height)
         == BottomSlice(source, 0, height - (|local| - offset)) + local[..|local| - offset]
  {
    var end := |source + local| - offset;
    SliceAcross(source, local, Max(0, end - height), end);
  }

  lemma SliceEndsInSource(source: seq<Row>, local: seq<Row>, offset: nat, height: nat)
    requires offset >= |local|
    ensures BottomSlice(source + local, offset, height) == BottomSlice(source, offset - |local|, height)
  {
    var end := |source| + |local| - offset;
    if end > 0 {
      var start := Max(0, end - height);
      assert (source + local)[start..end] == source[start..end];
    }
  }

  /** Rows that agree up to where a slice ends show the same slice. */
  lemma SameSlice(a: seq<Row>, b: seq<Row>, i: nat, j: nat, height: nat)
    requires i <= |a| && j <= |b| && |a| - i == |b| - j
    requires a[..|a| - i] == b[..|b| - j]
    ensures HistoryRows(a, i, height) == HistoryRows(b, j, height)
  {
    var end := |a| - i;
    var start := Max(0, end - height);
    assert a[start..end] == a[..end][start..end] == b[..end][start..end] == b[start..end];
  }

  // ---- bookkeeping ----------------------------------------------------------------------

  /**
   * `last` is the number of stream rows at the last paint; `count` the recorded
   * height of the source at the width in use, if any.
   */
  datatype Book = Book(offset: nat, last: nat, count: Option<nat>)

  /** The source at the width in use: absent, or with this many rows. */
  datatype Source = NoSource | Source(rows: nat) {
    function Rows(): nat {
      if NoSource? then 0 else rows
    }
  }

  /** The largest offset, when the total height is known. */
  function KnownMax(b: Book, src: Source, local: nat, height: nat): Option<nat> {
    if src.NoSource? then Some(Max(0, local - height))
    else if b.count.Some? then Some(Max(0, b.count.value + local - height))
    else None
  }

  /** Asking `row_count`: an eager source answers with its true height. */
  function Query(b: Book, src: Source, eager: bool): Book {
    if src.Source? && b.count.None? && eager then b.(count := Some(src.rows)) else b
  }

  function Clamp(b: Book, src: Source, local: nat, height: nat): Book {
    var known := KnownMax(b, src, local, height);
    if known.Some? && b.offset > known.value then b.(offset := known.value) else b
  }

  /** A request to the source; a short answer records an inferred height. */
  function Fetch(b: Book, src: Source, bottom: nat, height: nat): Book {
    if src.NoSource? || height == 0 then b
    else
      var got := Min(height, Max(0, src.rows - bottom));
      var inferred := bottom + got;
      if got < height && (b.count.None? || inferred < b.count.value) then b.(count := Some(inferred)) else b
  }

  function FetchVisible(b: Book, src: Source, local: nat, height: nat): Book {
    if height == 0 then b
    else if b.offset < local then Fetch(b, src, 0, height - Min(height, local - b.offset))
    else Fetch(b, src, b.offset - local, height)
  }

  /** A scrolled-up reader keeps their place while the stream changes height. */
  function Shift(b: Book, stream: nat): Book {
    b.(offset := if b.offset > 0 then Max(0, b.offset + stream - b.last) else 0, last := stream)
  }

  /** The bookkeeping of one paint. */
  function Settle(b: Book, src: Source, eager: bool, scrollback: nat, stream: nat, height: nat): Book {
    var local := scrollback + stream;
    var b1 := Shift(b, stream);
    var b2 := if src.NoSource? || b1.offset > 0 then Clamp(Query(b1, src, eager), src, local, height) else b1;
    var b3 := FetchVisible(b2, src, local, height);
    var b4 := Clamp(b3, src, local, height);
    if b4.offset != b3.offset then FetchVisible(b4, src, local, height) else b4
  }

  function MaxOffset(b: Book, src: Source, local: nat, height: nat): nat {
    var known := KnownMax(b, src, local, height);
    if known.Some? then known.value
    else Max(Max(0, local - height), b.offset + Max(1, height))
  }

  // ---- the recorded height ---------------------------------------------------------------

  /** Never below the truth. */
  predicate NotBelow(b: Book, src: Source) {
    src.Source? && b.count.Some? ==> b.count.value >= src.rows
  }

  lemma SettleNotBelow(b: Book, src: Source, eager: bool, scrollback: nat, stream: nat, height: nat)
    requires NotBelow(b, src)
    ensures NotBelow(Settle(b, src, eager, scrollback, stream, height), src)
  {
  }

  predicate ExactCount(b: Book, src: Source) {
    src.Source? && b.count.Some? ==> b.count.value == src.rows
  }

  /** Not beyond the true top of `total` history rows. */
  predicate WithinTop(b: Book, total: nat, height: nat) {
    b.offset <= Max(0, total - height)
  }

  /**
   * After a paint that could not ask for the height: it is recorded exactly and
   * the view is within the true top if and only if the offset, moved with the
   * stream, is within the history or within one page.
   */
  lemma PaintIsExactIff(b: Book, src: Source, scrollback: nat, stream: nat, height: nat)
    requires src.Source? && b.count.None? && height > 0
    ensures var total := src.rows + scrollback + stream;
            var after := Settle(b, src, false, scrollback, stream, height);
            var moved := Shift(b, stream).offset;
            && (moved <= total + height <==> ExactCount(after, src))
            && (moved <= total || moved <= height <==> ExactCount(after, src) && WithinTop(after, total, height))
  {
  }

  /** A height still unknown after a paint means that the view was full. */
  lemma UnknownMeansFull(b: Book, src: Source, scrollback: nat, stream: nat, height: nat)
    requires src.Source? && b.count.None? && height > 0
    ensures var after := Settle(b, src, false, scrollback, stream, height);
            after.count.None? ==> after.offset + height <= src.rows + scrollback + stream
  {
  }

  lemma EagernessMattersAbove(b: Book, src: Source, eager: bool, scrollback: nat, stream: nat, height: nat)
    requires src.Source? && (!eager || Shift(b, stream).offset == 0)
    ensures Settle(b, src, eager, scrollback, stream, height) == Settle(b, src, false, scrollback, stream, height)
  {
  }

  lemma LastIsPainted(b: Book, src: Source, eager: bool, scrollback: nat, stream: nat, height: nat)
    ensures Settle(b, src, eager, scrollback, stream, height).last == stream
  {
  }

  lemma NoSourceIsExact(b: Book, scrollback: nat, stream: nat, height: nat)
    requires height > 0
    ensures WithinTop(Settle(b, NoSource, false, scrollback, stream, height), scrollback + stream, height)
    ensures Settle(b, NoSource, true, scrollback, stream, height)
         == Settle(b, NoSource, false, scrollback, stream, height)
  {
  }

  lemma KnownIsExact(b: Book, src: Source, eager: bool, scrollback: nat, stream: nat, height: nat)
    requires height > 0 && src.Source? && b.count == Some(src.rows)
    ensures var after := Settle(b, src, eager, scrollback, stream, height);
            after.count == Some(src.rows) && WithinTop(after, src.rows + scrollback + stream, height)
  {
  }

  /** An answer to `row_count` comes to the same as having known the height before. */
  lemma AskedIsKnown(b: Book, src: Source, scrollback: nat, stream: nat, height: nat)
    requires src.Source? && b.count.None? && Shift(b, stream).offset > 0
    ensures Settle(b, src, true, scrollback, stream, height)
         == Settle(b.(count := Some(src.rows)), src, true, scrollback, stream, height)
  {
  }

  /** With an eager source, a known height or no source every paint is exact. */
  lemma PaintIsExactWhenKnown(b: Book, src: Source, eager: bool, scrollback: nat, stream: nat, height: nat)
    requires height > 0 && ExactCount(b, src)
    requires src.NoSource? || b.count.Some? || (eager && Shift(b, stream).offset > 0)
    ensures var after := Settle(b, src, eager, scrollback, stream, height);
            && (src.Source? ==> after.count == Some(src.rows))
            && WithinTop(after, src.Rows() + scrollback + stream, height)
  {
    hide Settle;
    if src.NoSource? {
      NoSourceIsExact(b, scrollback, stream, height);
    } else if b.count.Some? {
      KnownIsExact(b, src, eager, scrollback, stream, height);
    } else {
      AskedIsKnown(b, src, scrollback, stream, height);
      KnownIsExact(b.(count := Some(src.rows)), src, eager, scrollback, stream, height);
    }
  }

  // ---- whole runs ---------------------------------------------------------------------------

  /** `_SCROLLBACK_CAP`. */
  const CAP: nat := 10000

  /** The part of the renderer that scrolling depends on; `stream` is its present height. */
  datatype Pane = Pane(book: Book, src: Source, scrollback: nat, stream: nat)

  datatype Act =
    | Append(stream: nat)                 // stream_append; the view then has this many rows
    | Restart                             // stream_begin, stream_end
    | Replace(added: nat, removed: nat)   // print_above, replace_recent_scrollback
    | Clear                               // clear_scrollback
    | Scroll(delta: int)
    | ToBottom
    | Repaint                             // update
    | SetSource(src: Source)
    | Reset(src: Source)                  // reset_scrollback_source and the update after it

  function Paint(p: Pane, eager: bool, height: nat): Pane {
    p.(book := Settle(p.book, p.src, eager, p.scrollback, p.stream, height))
  }

  function AfterScroll(p: Pane, delta: int, eager: bool, height: nat): Pane {
    var b := Query(p.book, p.src, eager);
    var offset := Min(MaxOffset(b, p.src, p.scrollback + p.stream, height), Max(0, b.offset + delta));
    if offset == b.offset then p.(book := b) else Paint(p.(book := b.(offset := offset)), eager, height)
  }

  /** Local rows replaced below a scrolled-up reader, then trimmed at the cap. */
  function AfterReplace(p: Pane, added: nat, removed: nat): Pane {
    var gone := Min(removed, p.scrollback);
    var rows := p.scrollback - gone + added;
    var excess := Max(0, rows - CAP);
    var offset := if p.book.offset > 0 then Max(0, p.book.offset + added - gone) else 0;
    p.(scrollback := rows - excess, book := p.book.(offset := Max(0, offset - excess)))
  }

  lemma ReplaceIsBounded(p: Pane, added: nat, removed: nat)
    ensures AfterReplace(p, added, Min(removed, p.scrollback)) == AfterReplace(p, added, removed)
  {
  }

  function Do(p: Pane, act: Act, eager: bool, height: nat): Pane {
    match act
    case Append(n) =>
      var q := p.(stream := n);
      if p.book.offset == 0 then Paint(q, eager, height) else q
    case Restart => Paint(p.(stream := 0), eager, height)
    case Replace(added, removed) =>
      if added == 0 && Min(removed, p.scrollback) == 0 then p
      else Paint(AfterReplace(p, added, removed), eager, height)
    case Clear => Paint(p.(scrollback := 0), eager, height)
    case Scroll(delta) => AfterScroll(p, delta, eager, height)
    case ToBottom => if p.book.offset == 0 then p else Paint(p.(book := p.book.(offset := 0)), eager, height)
    case Repaint => Paint(p, eager, height)
    case SetSource(src) =>
      Paint(p.(src := src, book := Book(if src.Source? then 0 else p.book.offset, p.book.last, None)), eager, height)
    case Reset(src) => Paint(Pane(Book(0, p.book.last, None), src, 0, p.stream), eager, height)
  }

  /**
   * What a caller can see to before acting, while there is a source of unknown
   * height: clear only at the bottom, and scroll by at most a page while stream
   * growth is unpainted.
   */
  predicate Careful(p: Pane, act: Act, height: nat) {
    match act
    case Clear => p.book.offset == 0 || p.src.NoSource? || p.book.count.Some?
    case Scroll(delta) => delta <= height || p.stream == p.book.last || p.src.NoSource? || p.book.count.Some?
    case _ => true
  }

  predicate Settled(p: Pane, height: nat) {
    var total := p.src.Rows() + p.scrollback + p.book.last;
    && ExactCount(p.book, p.src)
    && (p.book.offset == 0 ==> p.stream == p.book.last)
    && (if p.src.NoSource? || p.book.count.Some? then WithinTop(p.book, total, height)
        else p.book.offset == 0 || p.book.offset + height <= total)
  }

  datatype Turn = Turn(act: Act, eager: bool)

  function DoAll(p: Pane, turns: seq<Turn>, height: nat): Pane {
    if turns == [] then p
    else Do(DoAll(p, turns[..|turns| - 1], height), turns[|turns| - 1].act, turns[|turns| - 1].eager, height)
  }

  ghost predicate AllCareful(p: Pane, turns: seq<Turn>, height: nat) {
    forall i | 0 <= i < |turns| :: Careful(DoAll(p, turns[..i], height), turns[i].act, height)
  }

  lemma PaintSettles(p: Pane, eager: bool, height: nat)
    requires height > 0 && ExactCount(p.book, p.src)
    requires p.src.Source? && p.book.count.None? ==>
               var moved := Shift(p.book, p.stream).offset;
               moved <= p.src.rows + p.scrollback + p.stream || moved <= height
    ensures Settled(Paint(p, eager, height), height)
    ensures WithinTop(Paint(p, eager, height).book, p.src.Rows() + p.scrollback + p.stream, height)
  {
    hide Settle;
    var b := p.book;
    if p.src.NoSource? || b.count.Some? || (eager && Shift(b, p.stream).offset > 0) {
      PaintIsExactWhenKnown(b, p.src, eager, p.scrollback, p.stream, height);
    } else {
      PaintIsExactIff(b, p.src, p.scrollback, p.stream, height);
      UnknownMeansFull(b, p.src, p.scrollback, p.stream, height);
      EagernessMattersAbove(b, p.src, eager, p.scrollback, p.stream, height);
    }
    LastIsPainted(b, p.src, eager, p.scrollback, p.stream, height);
  }

  lemma ScrollSettles(p: Pane, delta: int, eager: bool, height: nat)
    requires height > 0 && Settled(p, height) && Careful(p, Scroll(delta), height)
    ensures Settled(AfterScroll(p, delta, eager, height), height)
  {
    hide Settle;
    var b := Query(p.book, p.src, eager);
    var offset := Min(MaxOffset(b, p.src, p.scrollback + p.stream, height), Max(0, b.offset + delta));
    if offset != b.offset {
      PaintSettles(p.(book := b.(offset := offset)), eager, height);
    }
  }

  lemma DoSettles(p: Pane, act: Act, eager: bool, height: nat)
    requires height > 0 && Settled(p, height) && Careful(p, act, height)
    ensures Settled(Do(p, act, eager, height), height)
  {
    hide Settle;
    match act
    case Append(n) => if p.book.offset == 0 { PaintSettles(p.(stream := n), eager, height); }
    case Restart => PaintSettles(p.(stream := 0), eager, height);
    case Replace(added, removed) => PaintSettles(AfterReplace(p, added, removed), eager, height);
    case Clear => PaintSettles(p.(scrollback := 0), eager, height);
    case Scroll(delta) => ScrollSettles(p, delta, eager, height);
    case ToBottom => PaintSettles(p.(book := p.book.(offset := 0)), eager, height);
    case Repaint => PaintSettles(p, eager, height);
    case SetSource(src) =>
      var b := Book(if src.Source? then 0 else p.book.offset, p.book.last, None);
      PaintSettles(p.(src := src, book := b), eager, height);
    case Reset(src) => PaintSettles(Pane(Book(0, p.book.last, None), src, 0, p.stream), eager, height);
  }

  lemma DoNotBelow(p: Pane, act: Act, eager: bool, height: nat)
    requires NotBelow(p.book, p.src)
    ensures NotBelow(Do(p, act, eager, height).book, Do(p, act, eager, height).src)
  {
    hide Settle;
    forall q: Pane | NotBelow(q.book, q.src) ensures NotBelow(Paint(q, eager, height).book, q.src) {
      SettleNotBelow(q.book, q.src, eager, q.scrollback, q.stream, height);
    }
  }

  /**
   * In every run the recorded source height is exact and, once it is known, no
   * paint ends beyond the true top.
   */
  lemma {:induction false} RunsStayExact(p: Pane, turns: seq<Turn>, height: nat)
    requires height > 0 && Settled(p, height) && AllCareful(p, turns, height)
    ensures Settled(DoAll(p, turns, height), height)
    decreases turns
  {
    if turns != [] {
      var n := |turns| - 1;
      forall i | 0 <= i < n ensures Careful(DoAll(p, turns[..n][..i], height), turns[..n][i].act, height) {
        assert turns[..n][..i] == turns[..i];
      }
      RunsStayExact(p, turns[..n], height);
      DoSettles(DoAll(p, turns[..n], height), turns[n].act, turns[n].eager, height);
    }
  }

  /** A recorded height below the truth occurs in no run at all. */
  lemma {:induction false} NeverBelowInAnyRun(p: Pane, turns: seq<Turn>, height: nat)
    requires NotBelow(p.book, p.src)
    ensures NotBelow(DoAll(p, turns, height).book, DoAll(p, turns, height).src)
    decreases turns
  {
    if turns != [] {
      var n := |turns| - 1;
      NeverBelowInAnyRun(p, turns[..n], height);
      DoNotBelow(DoAll(p, turns[..n], height), turns[n].act, turns[n].eager, height);
    }
  }

  // ---- how far one scroll moves ---------------------------------------------------------

  /** By how many rows of history the painted view has moved up. */
  function Moved(p: Pane, q: Pane): int {
    (q.book.offset - q.book.last) - (p.book.offset - p.book.last)
  }

  lemma OffsetWhenKnown(b: Book, src: Source, eager: bool, scrollback: nat, stream: nat, height: nat)
    requires height > 0 && (src.Source? ==> b.count == Some(src.rows))
    ensures var top := Max(0, src.Rows() + scrollback + stream - height);
            Settle(b, src, eager, scrollback, stream, height).offset == Min(top, Shift(b, stream).offset)
  {
  }

  lemma OffsetWhenUnknown(b: Book, src: Source, scrollback: nat, stream: nat, height: nat)
    requires height > 0 && src.Source? && b.count.None?
    ensures var top := Max(0, src.rows + scrollback + stream - height);
            var o, after := Shift(b, stream).offset, Settle(b, src, false, scrollback, stream, height).offset;
            if o <= top then after == o else after < o
  {
  }

  /** Where one paint leaves an offset: there, or lower if it is beyond the true top. */
  lemma PaintOffset(p: Pane, eager: bool, height: nat)
    requires height > 0 && ExactCount(p.book, p.src)
    ensures var q := Paint(p, eager, height);
            var o := Shift(p.book, p.stream).offset;
            var top := Max(0, p.src.Rows() + p.scrollback + p.stream - height);
            && q.book.last == p.stream
            && if o <= top then q.book.offset == o else q.book.offset < o
  {
    hide Settle;
    var b, src := p.book, p.src;
    LastIsPainted(b, src, eager, p.scrollback, p.stream, height);
    if src.NoSource? || b.count.Some? {
      OffsetWhenKnown(b, src, eager, p.scrollback, p.stream, height);
    } else if eager && Shift(b, p.stream).offset > 0 {
      AskedIsKnown(b, src, p.scrollback, p.stream, height);
      OffsetWhenKnown(b.(count := Some(src.rows)), src, eager, p.scrollback, p.stream, height);
    } else {
      EagernessMattersAbove(b, src, eager, p.scrollback, p.stream, height);
      OffsetWhenUnknown(b, src, p.scrollback, p.stream, height);
    }
  }

  /**
   * A scroll moves the view by just the rows asked for, or it does not: it does if
   * and only if the offset asked for is allowed and stays above zero, and the view
   * is within the true top; where it ends at the bottom, only if that is where the
   * rows asked for begin.
   */
  lemma ScrollMovesIff(p: Pane, delta: int, eager: bool, height: nat)
    requires height > 0 && ExactCount(p.book, p.src)
    ensures var local := p.scrollback + p.stream;
            var known := p.src.NoSource? || p.book.count.Some? || eager;
            var most := if known then Max(0, p.src.Rows() + local - height)
                        else Max(local - height, p.book.offset + height);
            var asked := p.book.offset + delta;
            var offset := Min(most, Max(0, asked));
            var target := asked + p.stream - p.book.last;
            Moved(p, AfterScroll(p, delta, eager, height)) == delta <==>
              if offset == p.book.offset then delta == 0
              else if offset == 0 || offset + p.stream < p.book.last then target == 0
              else asked == offset && target <= Max(0, p.src.Rows() + p.scrollback + p.stream - height)
  {
    hide Settle;
    var b := Query(p.book, p.src, eager);
    MaxOffsetIs(p, eager, height);
    hide MaxOffset;
    var most := MaxOffset(b, p.src, p.scrollback + p.stream, height);
    var offset := Min(most, Max(0, p.book.offset + delta));
    PaintOffset(p.(book := b.(offset := offset)), eager, height);
  }

  lemma MaxOffsetIs(p: Pane, eager: bool, height: nat)
    requires height > 0 && ExactCount(p.book, p.src)
    ensures var local := p.scrollback + p.stream;
            MaxOffset(Query(p.book, p.src, eager), p.src, local, height)
            == if p.src.NoSource? || p.book.count.Some? || eager then Max(0, p.src.Rows() + local - height)
               else Max(local - height, p.book.offset + height)
  {
  }

  /** Unpainted growth makes two scrolls that differ by one row end 101 rows apart. */
  lemma ScrollToZeroJumps()
    ensures var p := Pane(Book(3, 0, Some(50)), Source(50), 0, 100);
            && AfterScroll(p, -2, false, 10).book.offset == 101 && Moved(p, AfterScroll(p, -2, false, 10)) == -2
            && AfterScroll(p, -3, false, 10).book.offset == 0 && Moved(p, AfterScroll(p, -3, false, 10)) == -103
  {
  }

  /**
   * Why scrolling must be careful: a reader who has scrolled up one row, a long
   * unpainted stream, then one large scroll past the top of a source of 50 rows,
   * and 980 is recorded as its height.
   */
  lemma CarelessScrollRecordsAWrongHeight()
    ensures var start := Pane(Book(0, 0, None), Source(50), 0, 0);
            var turns := [Turn(Scroll(1), false), Turn(Append(1000), false), Turn(Scroll(1000), false)];
            Settled(start, 10) && DoAll(start, turns, 10).book.count == Some(980)
  {
    var start := Pane(Book(0, 0, None), Source(50), 0, 0);
    var one := [Turn(Scroll(1), false)];
    var two := one + [Turn(Append(1000), false)];
    var three := two + [Turn(Scroll(1000), false)];
    assert three == [Turn(Scroll(1), false), Turn(Append(1000), false), Turn(Scroll(1000), false)];
    assert one[..0] == [] && two[..1] == one && three[..2] == two;
    assert DoAll(start, one, 10) == Pane(Book(1, 0, None), Source(50), 0, 0);
    assert DoAll(start, two, 10) == Pane(Book(1, 0, None), Source(50), 0, 1000);
  }
}
