/**
 * The lazy transcript: blocks are rendered from the newest towards the oldest,
 * only as far as a request needs, and hidden blocks are summarised per run.
 */
module Transcript {
  import opened Prelude
  import opened StreamRows

  datatype Role = User | Assistant | System | ToolRole | OtherRole

  datatype Block =
    | Message(id: int, role: Role, blankContent: bool)
    | Marker(id: int)
    | EmptyNotice

  datatype Verbosity = MaxDetail | MediumDetail | MinDetail

  /** Everything besides the width that the rendering of a block depends on. */
  datatype Look = Look(verbosity: Verbosity, borders: bool, syntax: bool, theme: string)

  predicate IsMinBlockVisible(b: Block) {
    match b
    case Message(_, User, _) => true
    case Message(_, System, _) => true
    case Message(_, Assistant, blank) => !blank
    case Message(_, _, _) => false
    case _ => true
  }

  predicate Shown(b: Block, look: Look) {
    look.verbosity != MinDetail || IsMinBlockVisible(b)
  }

  /** How many blocks at the front of `bs` are hidden. */
  function HiddenRun(bs: seq<Block>, look: Look): (n: nat)
    ensures n <= |bs|
    ensures forall i | 0 <= i < n :: !Shown(bs[i], look)
    ensures n < |bs| ==> Shown(bs[n], look)
  {
    if bs == [] || Shown(bs[0], look) then 0 else 1 + HiddenRun(bs[1..], look)
  }

  /** How blocks and summaries of hidden blocks become rows at a width. */
  datatype Renderer = Renderer(block: (Block, nat, Look) -> seq<Row>, summary: (seq<Block>, nat, Look) -> seq<Row>)

  /**
   * The full rendering, top to bottom: each shown block's rows, and one summary
   * for each maximal run of hidden blocks.
   */
  function FullRows(bs: seq<Block>, r: Renderer, w: nat, look: Look): seq<Row>
    decreases |bs|
  {
    if bs == [] then []
    else
      var n := HiddenRun(bs, look);
      if n == 0 then r.block(bs[0], w, look) + FullRows(bs[1..], r, w, look)
      else r.summary(bs[..n], w, look) + FullRows(bs[n..], r, w, look)
  }

  /** The rows ending `offset` rows above the bottom, at most `height` of them. */
  function BottomSlice(rows: seq<Row>, offset: nat, height: nat): (s: seq<Row>)
    ensures |s| == Min(height, Max(0, |rows| - offset))
  {
    var end := |rows| - offset;
    if end <= 0 then [] else rows[Max(0, end - height)..end]
  }

  lemma {:induction false} HiddenRunOfConcat(a: seq<Block>, b: seq<Block>, look: Look)
    requires a != [] && (b == [] || Shown(b[0], look))
    ensures HiddenRun(a + b, look) == HiddenRun(a, look)
  {
    assert (a + b)[0] == a[0];
    if !Shown(a[0], look) {
      assert (a + b)[1..] == a[1..] + b;
      if |a| == 1 {
        assert a[1..] + b == b && HiddenRun(a[1..], look) == 0;
      } else {
        HiddenRunOfConcat(a[1..], b, look);
      }
    }
  }

  /** Rendering splits at a shown block. */
  lemma {:induction false} FullRowsSplit(a: seq<Block>, b: seq<Block>, r: Renderer, w: nat, look: Look)
    requires b == [] || Shown(b[0], look)
    ensures FullRows(a + b, r, w, look) == FullRows(a, r, w, look) + FullRows(b, r, w, look)
    decreases |a|
  {
    if a == [] {
      assert a + b == b;
    } else {
      HiddenRunOfConcat(a, b, look);
      var n := HiddenRun(a, look);
      var m := if n == 0 then 1 else n;
      DropConcat(a, b, m);
      FullRowsSplit(a[m..], b, r, w, look);
    }
  }

  lemma {:induction false} HiddenRunThen(run: seq<Block>, b: seq<Block>, look: Look)
    requires forall x | x in run :: !Shown(x, look)
    requires b == [] || Shown(b[0], look)
    ensures HiddenRun(run + b, look) == |run|
  {
    if run == [] {
      assert run + b == b;
    } else {
      assert (run + b)[1..] == run[1..] + b;
      HiddenRunThen(run[1..], b, look);
    }
  }

  lemma SummariseRun(run: seq<Block>, b: seq<Block>, r: Renderer, w: nat, look: Look)
    requires forall x | x in run :: !Shown(x, look)
    requires b == [] || Shown(b[0], look)
    ensures FullRows(run + b, r, w, look)
         == (if run == [] then [] else r.summary(run, w, look)) + FullRows(b, r, w, look)
  {
    HiddenRunThen(run, b, look);
    if run == [] {
      assert run + b == b;
    } else {
      assert (run + b)[..|run|] == run && (run + b)[|run|..] == b;
    }
  }

  lemma {:induction false} HiddenRunEndsIn(a: seq<Block>, b: seq<Block>, look: Look)
    requires a != [] && Shown(a[|a| - 1], look)
    ensures HiddenRun(a + b, look) == HiddenRun(a, look) < |a|
  {
    assert (a + b)[0] == a[0];
    if !Shown(a[0], look) {
      assert (a + b)[1..] == a[1..] + b;
      HiddenRunEndsIn(a[1..], b, look);
    }
  }

  /** Rendering splits after a shown block. */
  lemma {:induction false} FullRowsSplitAfter(a: seq<Block>, b: seq<Block>, r: Renderer, w: nat, look: Look)
    requires a == [] || Shown(a[|a| - 1], look)
    ensures FullRows(a + b, r, w, look) == FullRows(a, r, w, look) + FullRows(b, r, w, look)
    decreases |a|
  {
    if a == [] {
      assert a + b == b;
    } else {
      HiddenRunEndsIn(a, b, look);
      var n := HiddenRun(a, look);
      var m := if n == 0 then 1 else n;
      DropConcat(a, b, m);
      FullRowsSplitAfter(a[m..], b, r, w, look);
    }
  }

  lemma ShownFirst(bs: seq<Block>, r: Renderer, w: nat, look: Look)
    requires bs != [] && Shown(bs[0], look)
    ensures FullRows(bs, r, w, look) == r.block(bs[0], w, look) + FullRows(bs[1..], r, w, look)
  {
  }

  /** Each maximal run of hidden blocks contributes exactly one summary, in its place. */
  lemma MaximalRunSummarisedOnce(a: seq<Block>, run: seq<Block>, b: seq<Block>, r: Renderer, w: nat, look: Look)
    requires a == [] || Shown(a[|a| - 1], look)
    requires run != [] && forall x | x in run :: !Shown(x, look)
    requires b == [] || Shown(b[0], look)
    ensures FullRows(a + (run + b), r, w, look)
         == FullRows(a, r, w, look) + (r.summary(run, w, look) + FullRows(b, r, w, look))
  {
    FullRowsSplitAfter(a, run + b, r, w, look);
    SummariseRun(run, b, r, w, look);
  }

  /** What the least detail hides, by role: tool messages and the like, and empty assistant turns. */
  predicate Quiet(b: Block) {
    b.Message? && (b.role.ToolRole? || b.role.OtherRole? || (b.role.Assistant? && b.blankContent))
  }

  /** And what it shows: the user, the system, assistant turns with content, markers, the notice. */
  predicate Speaks(b: Block) {
    !b.Message? || b.role.User? || b.role.System? || (b.role.Assistant? && !b.blankContent)
  }

  /**
   * At the least detail a run of quiet messages between blocks that speak is one
   * summary, and those blocks are rendered themselves.
   */
  lemma QuietRunIsSummarised(a: seq<Block>, x: Block, run: seq<Block>, y: Block, b: seq<Block>,
                             r: Renderer, w: nat, look: Look)
    requires look.verbosity == MinDetail && Speaks(x) && Speaks(y)
    requires run != [] && forall q | q in run :: Quiet(q)
    ensures FullRows(a + [x] + (run + ([y] + b)), r, w, look)
         == FullRows(a, r, w, look) + r.block(x, w, look)
            + (r.summary(run, w, look) + (r.block(y, w, look) + FullRows(b, r, w, look)))
  {
    MaximalRunSummarisedOnce(a + [x], run, [y] + b, r, w, look);
    FullRowsSplit(a, [x], r, w, look);
    ShownFirst([x], r, w, look);
    ShownFirst([y] + b, r, w, look);
    assert [x][1..] == [] && ([y] + b)[1..] == b;
    assert r.block(x, w, look) + [] == r.block(x, w, look);
  }

  /** With more detail every block is rendered, in order, and nothing is summarised. */
  lemma {:induction false} MoreDetailShowsAll(bs: seq<Block>, r: Renderer, w: nat, look: Look)
    requires look.verbosity != MinDetail
    ensures FullRows(bs, r, w, look)
         == Flatten(seq(|bs|, i requires 0 <= i < |bs| => r.block(bs[i], w, look)))
    decreases |bs|
  {
    var rows := seq(|bs|, i requires 0 <= i < |bs| => r.block(bs[i], w, look));
    if bs != [] {
      MoreDetailShowsAll(bs[1..], r, w, look);
      var rest := seq(|bs[1..]|, i requires 0 <= i < |bs[1..]| => r.block(bs[1..][i], w, look));
      assert rows[1..] == rest;
      ShownFirst(bs, r, w, look);
    }
  }

  /** Row by row: the answer's last row is the one `offset` rows above the bottom. */
  lemma SliceRowByRow(rows: seq<Row>, offset: nat, height: nat, i: nat)
    requires i < height && offset + i < |rows|
    ensures i < |BottomSlice(rows, offset, height)|
    ensures var s := BottomSlice(rows, offset, height);
            s[|s| - 1 - i] == rows[|rows| - 1 - offset - i]
  {
  }

  /** A short answer reaches the top, and then says how many rows there are. */
  lemma ShortAnswerIsTheTop(rows: seq<Row>, offset: nat, height: nat)
    requires |BottomSlice(rows, offset, height)| < height
    ensures BottomSlice(rows, offset, height) == rows[..Max(0, |rows| - offset)]
    ensures offset + |BottomSlice(rows, offset, height)| == Max(offset, |rows|)
  {
  }

  /** The rows of the newest blocks, `blocks[next + 1..]`, or of all when complete. */
  datatype Cache = Cache(next: int, rows: seq<Row>, complete: bool)

  datatype CacheKey = CacheKey(width: nat, look: Look)

  class TranscriptScrollbackSource {
    const blocks: seq<Block>
    const renderer: Renderer
    var look: Look
    var caches: map<CacheKey, Cache>

    /** Hidden blocks render no rows of their own. */
    ghost predicate HiddenSilent() {
      forall b, w: nat, l | b in blocks && !Shown(b, l) :: renderer.block(b, w, l) == []
    }

    ghost function Rows(width: nat): seq<Row>
      reads this`look
    {
      FullRows(blocks, renderer, Max(1, width), look)
    }

    ghost predicate GoodCache(w: nat, l: Look, c: Cache) {
      && -1 <= c.next < |blocks|
      && (c.complete <==> c.next == -1)
      && (c.next + 1 < |blocks| ==> c.next == -1 || Shown(blocks[c.next + 1], l))
      && c.rows == FullRows(blocks[c.next + 1..], renderer, w, l)
    }

    ghost predicate Valid()
      reads this
    {
      && HiddenSilent()
      && forall k | k in caches :: GoodCache(k.width, k.look, caches[k])
    }

    constructor (blocks: seq<Block>, renderer: Renderer, look: Look)
      requires forall b, w: nat, l | b in blocks && !Shown(b, l) :: renderer.block(b, w, l) == []
      ensures Valid() && this.blocks == blocks && this.renderer == renderer && this.look == look
    {
      this.blocks, this.renderer, this.look := blocks, renderer, look;
      caches := map[];
    }

    ghost predicate Complete(width: nat)
      reads this
    {
      var key := CacheKey(Max(1, width), look);
      key in caches && caches[key].complete
    }

    /** Known only once this width has been rendered to the top. */
    method RowCount(width: nat) returns (count: Option<nat>)
      requires Valid()
      ensures count == if Complete(width) then Some(|Rows(width)|) else None
    {
      var key := CacheKey(Max(1, width), look);
      if key !in caches || !caches[key].complete {
        return None;
      }
      assert blocks[0..] == blocks;
      return Some(|caches[key].rows|);
    }

    /** Whatever was asked before, the answer is a slice of the one full rendering. */
    method RowsFromBottom(width: nat, bottomOffset: nat, height: nat) returns (rows: seq<Row>)
      requires Valid()
      modifies this`caches
      ensures Valid()
      ensures rows == BottomSlice(Rows(width), bottomOffset, height)
    {
      hide FullRows, GoodCache, Scan;
      if height == 0 {
        return [];
      }
      var c := EnsureRows(width, bottomOffset + height);
      var end := |c.rows| - bottomOffset;
      CacheIsSuffix(Max(1, width), look, c);
      CompleteMeansTop(Max(1, width), look, c);
      if end <= 0 {
        return [];
      }
      rows := c.rows[Max(0, end - height)..end];
    }

    /** Mid-scan: blocks from `top` on are rendered, those just above it are hidden. */
    ghost predicate Scan(c: Cache, top: nat, hidden: seq<Block>, w: nat, l: Look) {
      && -1 <= c.next && c.next + 1 <= top <= |blocks|
      && hidden == blocks[c.next + 1..top]
      && (forall b | b in hidden :: !Shown(b, l))
      && (top == |blocks| || (c.next == -1 && hidden == []) || Shown(blocks[top], l))
      && c.rows == FullRows(blocks[top..], renderer, w, l)
    }

    function Flush(hidden: seq<Block>, w: nat, l: Look): seq<Row> {
      if hidden == [] then [] else renderer.summary(hidden, w, l)
    }

    lemma ScanShown(c: Cache, top: nat, hidden: seq<Block>, w: nat, l: Look)
      requires Scan(c, top, hidden, w, l) && c.next >= 0 && Shown(blocks[c.next], l)
      ensures Scan(Cache(c.next - 1, renderer.block(blocks[c.next], w, l) + (Flush(hidden, w, l) + c.rows), c.complete),
                   c.next, [], w, l)
    {
      hide FullRows;
      SummariseRun(hidden, blocks[top..], renderer, w, l);
      ShownFirst(blocks[c.next..], renderer, w, l);
      assert blocks[c.next + 1..] == hidden + blocks[top..];
      assert blocks[c.next..][1..] == blocks[c.next + 1..];
    }

    lemma ScanHidden(c: Cache, top: nat, hidden: seq<Block>, w: nat, l: Look)
      requires HiddenSilent()
      requires Scan(c, top, hidden, w, l) && c.next >= 0 && !Shown(blocks[c.next], l)
      ensures renderer.block(blocks[c.next], w, l) + c.rows == c.rows
      ensures Scan(c.(next := c.next - 1), top, [blocks[c.next]] + hidden, w, l)
    {
      hide FullRows;
      assert blocks[c.next..top] == [blocks[c.next]] + hidden;
    }

    /** Flushing what is left makes the rows those of all blocks visited. */
    lemma ScanFlush(c: Cache, top: nat, hidden: seq<Block>, w: nat, l: Look)
      requires Scan(c, top, hidden, w, l) && (hidden != [] ==> c.next == -1)
      ensures GoodCache(w, l, Cache(c.next, Flush(hidden, w, l) + c.rows, c.next == -1))
    {
      hide FullRows;
      assert blocks[c.next + 1..] == hidden + blocks[top..];
      if hidden != [] {
        SummariseRun(hidden, blocks[top..], renderer, w, l);
      }
    }

    /** The rows of a good cache are the bottom of the full rendering. */
    lemma CacheIsSuffix(w: nat, l: Look, c: Cache)
      requires GoodCache(w, l, c)
      ensures var all := FullRows(blocks, renderer, w, l);
              && |c.rows| <= |all| && c.rows == all[|all| - |c.rows|..]
              && (c.next == -1 ==> c.rows == all)
    {
      hide FullRows;
      var older := blocks[..c.next + 1];
      assert blocks == older + blocks[c.next + 1..];
      if c.next >= 0 {
        FullRowsSplit(older, blocks[c.next + 1..], renderer, w, l);
      } else {
        assert blocks[0..] == blocks;
      }
    }

    lemma CompleteMeansTop(w: nat, l: Look, c: Cache)
      requires GoodCache(w, l, c)
      ensures c.complete <==> c.next == -1
    {
    }

    lemma ScanStarts(w: nat, l: Look, c: Cache)
      requires GoodCache(w, l, c) || c == Cache(|blocks| - 1, [], false)
      ensures c.next >= -1 && Scan(c, c.next + 1, [], w, l) && (c.complete ==> c.next == -1)
    {
      assert blocks[|blocks|..] == [];
      assert blocks[c.next + 1..c.next + 1] == [];
    }

    /** Renders older blocks until enough rows are there or the top is reached. */
    method EnsureRows(width: nat, needed: nat) returns (c: Cache)
      requires Valid()
      modifies this`caches
      ensures Valid()
      ensures GoodCache(Max(1, width), look, c) && (|c.rows| < needed ==> c.complete)
    {
      hide FullRows, Scan, GoodCache;
      var w: nat := Max(1, width);
      var key := CacheKey(w, look);
      var c0 := if key in caches then caches[key] else Cache(|blocks| - 1, [], false);
      ScanStarts(w, look, c0);
      c := ScanUp(c0, needed, w, look);
      caches := caches[key := c];
    }

    method ScanUp(c0: Cache, needed: nat, w: nat, l: Look) returns (c: Cache)
      requires HiddenSilent() && c0.next >= -1 && Scan(c0, c0.next + 1, [], w, l) && (c0.complete ==> c0.next == -1)
      ensures GoodCache(w, l, c) && (|c.rows| < needed ==> c.complete)
    {
      hide FullRows;
      c := c0;
      var hidden: seq<Block> := [];   // the run seen since the last shown block
      ghost var top: nat := c.next + 1;
      while !c.complete && |c.rows| < needed
        invariant Scan(c, top, hidden, w, l)
        invariant hidden != [] ==> |c.rows| < needed
        invariant c.complete ==> c.next == -1
        decreases c.next + 1, !c.complete
      {
        if c.next < 0 {
          c := c.(complete := true);
          break;
        }
        var block := blocks[c.next];
        var blockRows := renderer.block(block, w, l);
        if Shown(block, l) {
          ScanShown(c, top, hidden, w, l);
          c := c.(rows := Flush(hidden, w, l) + c.rows);
          hidden, top := [], c.next;
        } else {
          ScanHidden(c, top, hidden, w, l);
          hidden := [block] + hidden;
        }
        c := c.(next := c.next - 1, rows := blockRows + c.rows);
      }
      ScanFlush(c, top, hidden, w, l);
      c := c.(rows := Flush(hidden, w, l) + c.rows);
      if c.next < 0 {
        c := c.(complete := true);
      }
    }
  }
}
