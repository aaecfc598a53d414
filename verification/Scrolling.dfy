/** Where scrolling ends, and that it gets a reader everywhere and back. */
module Scrolling {
  import opened Prelude
  import opened Viewport

  /** The true top: the largest offset at which the view is full. */
  function Top(p: Pane, height: nat): nat {
    Max(0, p.src.Rows() + p.scrollback + p.stream - height)
  }

  /** With nothing unpainted and the height known, a scroll goes where it is asked to, within the history. */
  lemma ScrollEnds(p: Pane, delta: int, eager: bool, height: nat)
    requires height > 0 && p.stream == p.book.last && ExactCount(p.book, p.src)
    requires p.src.NoSource? || p.book.count.Some? || eager
    requires p.book.offset <= Top(p, height)
    ensures Do(p, Act.Scroll(delta), eager, height).book.offset == Max(0, Min(p.book.offset + delta, Top(p, height)))
  {
    hide Settle;
    MaxOffsetIs(p, eager, height);
    hide MaxOffset;
    var b := Query(p.book, p.src, eager);
    var offset := Min(MaxOffset(b, p.src, p.scrollback + p.stream, height), Max(0, b.offset + delta));
    PaintOffset(p.(book := b.(offset := offset)), eager, height);
  }

  /** With the height unknown it does so for scrolls of up to a page. */
  lemma PageEnds(p: Pane, delta: int, eager: bool, height: nat)
    requires height > 0 && p.stream == p.book.last && ExactCount(p.book, p.src)
    requires p.book.offset <= Top(p, height)
    requires delta <= height && 0 <= delta + height && 0 <= p.book.offset + delta <= Top(p, height)
    ensures var q := Do(p, Act.Scroll(delta), eager, height);
            && q.book.offset == p.book.offset + delta && q.book.last == q.stream && ExactCount(q.book, q.src)
            && q.src == p.src && q.scrollback == p.scrollback && q.stream == p.stream
  {
    hide Settle;
    MaxOffsetIs(p, eager, height);
    hide MaxOffset;
    var b := Query(p.book, p.src, eager);
    var offset := Min(MaxOffset(b, p.src, p.scrollback + p.stream, height), Max(0, b.offset + delta));
    PaintOffset(p.(book := b.(offset := offset)), eager, height);
    PaintSettles(p.(book := b.(offset := offset)), eager, height);
  }

  /**
   * From anywhere in the history scrolls of at most a page reach every row up to
   * the true top, whether the height is known or not, and reach the bottom again.
   */
  lemma {:induction false} PagesReach(p: Pane, target: nat, height: nat) returns (turns: seq<Turn>)
    requires height > 0 && p.stream == p.book.last && ExactCount(p.book, p.src)
    requires p.book.offset <= Top(p, height) && target <= Top(p, height)
    ensures forall t | t in turns :: t.act.Scroll? && 0 <= t.act.delta + height && t.act.delta <= height && !t.eager
    ensures var q := DoAll(p, turns, height);
            && q.book.offset == target && q.book.last == q.stream && ExactCount(q.book, q.src)
            && q.src == p.src && q.scrollback == p.scrollback && q.stream == p.stream
    decreases if p.book.offset < target then target - p.book.offset else p.book.offset - target
  {
    hide Do;
    if target == p.book.offset {
      turns := [];
    } else {
      var prev: nat := if p.book.offset < target then Max(p.book.offset, target - height)
                       else Min(p.book.offset, target + height);
      var before := PagesReach(p, prev, height);
      var turn := Turn(Act.Scroll(target - prev), false);
      PageEnds(DoAll(p, before, height), target - prev, false, height);
      turns := before + [turn];
      assert turns[..|before|] == before;
    }
  }

  /** What leaves a reader at the bottom there: everything but a scroll up. */
  lemma StaysAtTheBottom(p: Pane, act: Act, eager: bool, height: nat)
    requires p.book.offset == 0 && !act.Scroll?
    ensures Do(p, act, eager, height).book.offset == 0
  {
    hide Settle;
    forall q: Pane | q.book.offset == 0 ensures Paint(q, eager, height).book.offset == 0 {
      PaintAtTheBottom(q, eager, height);
    }
  }

  lemma PaintAtTheBottom(p: Pane, eager: bool, height: nat)
    requires p.book.offset == 0
    ensures Paint(p, eager, height).book.offset == 0
  {
  }

  /** What brings one there at once: going to the bottom, and installing or resetting a source. */
  lemma BroughtToTheBottom(p: Pane, src: Source, eager: bool, height: nat)
    ensures Do(p, ToBottom, eager, height).book.offset == 0
    ensures Do(p, Act.Reset(src), eager, height).book.offset == 0
    ensures src.Source? ==> Do(p, Act.SetSource(src), eager, height).book.offset == 0
  {
    hide Settle;
    forall q: Pane | q.book.offset == 0 ensures Paint(q, eager, height).book.offset == 0 {
      PaintAtTheBottom(q, eager, height);
    }
  }
}
