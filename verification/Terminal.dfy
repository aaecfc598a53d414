/**
 * A terminal as the renderers address it (ECMA-48): a grid of rows, a cursor,
 * and the controls CUU, CUD, CUP, EL, carriage return and line feed.
 */
module Terminal {
  import opened Prelude

  datatype Cmd<T> =
    | Up(n: nat)            // CSI n A
    | Down(n: nat)          // CSI n B
    | Goto(row: nat)        // CSI row+1 ; 1 H
    | EraseLine             // CSI 2 K
    | Cr
    | Lf                    // also returns to column 0, as a cooked tty does
    | Put(cells: seq<T>)

  datatype Term<T> = Term(grid: seq<seq<T>>, row: nat, col: nat) {
    ghost predicate Valid() {
      row < |grid|
    }
  }

  /** Cells written at a column replace what was there; the rest of the row stays. */
  function Overlay<T>(was: seq<T>, col: nat, cells: seq<T>): seq<T> {
    was[..Min(col, |was|)] + cells + was[Min(col + |cells|, |was|)..]
  }

  function Exec<T>(t: Term<T>, c: Cmd<T>): (u: Term<T>)
    requires t.Valid()
    ensures u.Valid() && |u.grid| == |t.grid|
  {
    match c
    case Up(n) => t.(row := if n <= t.row then t.row - n else 0)
    case Down(n) => t.(row := Min(t.row + n, |t.grid| - 1))
    case Goto(r) => t.(row := Min(r, |t.grid| - 1), col := 0)
    case EraseLine => t.(grid := t.grid[t.row := []])
    case Cr => t.(col := 0)
    case Lf =>
      if t.row + 1 < |t.grid| then t.(row := t.row + 1, col := 0)
      else t.(grid := t.grid[1..] + [[]], col := 0)
    case Put(cells) =>
      t.(grid := t.grid[t.row := Overlay(t.grid[t.row], t.col, cells)], col := t.col + |cells|)
  }

  function Run<T>(t: Term<T>, cmds: seq<Cmd<T>>): (u: Term<T>)
    requires t.Valid()
    ensures u.Valid() && |u.grid| == |t.grid|
  {
    if cmds == [] then t else Exec(Run(t, cmds[..|cmds| - 1]), cmds[|cmds| - 1])
  }

  lemma {:induction false} RunConcat<T>(t: Term<T>, a: seq<Cmd<T>>, b: seq<Cmd<T>>)
    requires t.Valid()
    ensures Run(t, a + b) == Run(Run(t, a), b)
    decreases b
  {
    if b == [] {
      assert a + b == a;
    } else {
      assert (a + b)[..|a + b| - 1] == a + b[..|b| - 1];
      RunConcat(t, a, b[..|b| - 1]);
    }
  }

  lemma RunOne<T>(t: Term<T>, a: seq<Cmd<T>>, c: Cmd<T>)
    requires t.Valid()
    ensures Run(t, a + [c]) == Exec(Run(t, a), c)
  {
    assert (a + [c])[..|a|] == a;
  }

  lemma Run2<T>(t: Term<T>, a: seq<Cmd<T>>, c: Cmd<T>, d: Cmd<T>)
    requires t.Valid()
    ensures Run(t, a + [c, d]) == Exec(Exec(Run(t, a), c), d)
  {
    assert a + [c, d] == (a + [c]) + [d];
    RunOne(t, a, c);
    RunOne(t, a + [c], d);
  }

  lemma Run3<T>(t: Term<T>, a: seq<Cmd<T>>, c: Cmd<T>, d: Cmd<T>, e: Cmd<T>)
    requires t.Valid()
    ensures Run(t, a + [c, d, e]) == Exec(Exec(Exec(Run(t, a), c), d), e)
  {
    assert a + [c, d, e] == (a + [c, d]) + [e];
    Run2(t, a, c, d);
    RunOne(t, a + [c, d], e);
  }
}
