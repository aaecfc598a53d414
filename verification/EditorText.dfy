/** Lines against the flat text they stand for. */
module EditorText {
  predicate OneLine(s: string) {
    forall i | 0 <= i < |s| :: s[i] != '\n'
  }

  predicate Lines(ls: seq<string>) {
    ls != [] && forall i | 0 <= i < |ls| :: OneLine(ls[i])
  }

  /** `"\n".join(lines)`. */
  function Join(ls: seq<string>): string
    requires ls != []
  {
    if |ls| == 1 then ls[0] else ls[0] + "\n" + Join(ls[1..])
  }

  /** `text.split("\n")`. */
  function Split(text: string): (ls: seq<string>)
    ensures Lines(ls)
  {
    if text == "" then [""]
    else
      var rest := Split(text[1..]);
      if text[0] == '\n' then [""] + rest else [[text[0]] + rest[0]] + rest[1..]
  }

  /** `\r\n` and `\r` become `\n`. */
  function Normalize(text: string): (n: string)
    ensures '\r' !in n
  {
    if text == "" then ""
    else if text[0] == '\r' then
      "\n" + Normalize(if |text| > 1 && text[1] == '\n' then text[2..] else text[1..])
    else [text[0]] + Normalize(text[1..])
  }

  lemma {:induction false} NormalizeKeeps(text: string)
    requires '\r' !in text
    ensures Normalize(text) == text
  {
    if text != "" {
      NormalizeKeeps(text[1..]);
    }
  }

  lemma {:induction false} NormalizeOneLine(text: string)
    ensures '\n' !in Normalize(text) <==> '\n' !in text && '\r' !in text
    decreases |text|
  {
    if text != "" {
      var rest := if text[0] == '\r' && |text| > 1 && text[1] == '\n' then text[2..] else text[1..];
      NormalizeOneLine(rest);
      assert text == [text[0]] + text[1..];
    }
  }

  /** Normalising goes part by part, unless the cut is inside `\r\n`. */
  lemma {:induction false} NormalizeConcat(a: string, b: string)
    requires a == "" || b == "" || a[|a| - 1] != '\r' || b[0] != '\n'
    ensures Normalize(a + b) == Normalize(a) + Normalize(b)
    decreases |a|
  {
    if a == "" {
      assert a + b == b;
    } else {
      var m := if a[0] == '\r' && |a| > 1 && a[1] == '\n' then 2 else 1;
      assert (a + b)[m..] == a[m..] + b;
      NormalizeConcat(a[m..], b);
      var head := if a[0] == '\r' then "\n" else [a[0]];
      assert Normalize(a) == head + Normalize(a[m..]);
      assert Normalize(a + b) == head + Normalize(a[m..] + b);
      assert head + (Normalize(a[m..]) + Normalize(b)) == head + Normalize(a[m..]) + Normalize(b);
    }
  }

  /** A line break in each of the three ways to write it, anywhere in a text, is one line feed. */
  lemma NormalizeBreak(a: string, b: string)
    ensures Normalize(a + "\r\n" + b) == Normalize(a) + "\n" + Normalize(b)
    ensures (b == "" || b[0] != '\n') ==> Normalize(a + "\r" + b) == Normalize(a) + "\n" + Normalize(b)
    ensures (a == "" || a[|a| - 1] != '\r') ==> Normalize(a + "\n" + b) == Normalize(a) + "\n" + Normalize(b)
  {
    assert ("\r\n")[2..] == "" && ("\r")[1..] == "" && ("\n")[1..] == "";
    assert Normalize("\r\n") == Normalize("\r") == Normalize("\n") == "\n";
    hide Normalize;
    NormalizeConcat(a + "\r\n", b);
    NormalizeConcat(a, "\r\n");
    NormalizeConcat(a, "\r");
    if b == "" || b[0] != '\n' {
      NormalizeConcat(a + "\r", b);
    }
    if a == "" || a[|a| - 1] != '\r' {
      NormalizeConcat(a + "\n", b);
      NormalizeConcat(a, "\n");
    }
  }

  lemma {:induction false} SplitCount(text: string)
    ensures '\n' !in text ==> Split(text) == [text]
    ensures '\n' in text ==> |Split(text)| > 1
  {
    if text != "" {
      SplitCount(text[1..]);
      assert text == [text[0]] + text[1..];
    }
  }

  lemma {:induction false} JoinSplit(text: string)
    ensures Join(Split(text)) == text
  {
    if text != "" {
      JoinSplit(text[1..]);
      var rest := Split(text[1..]);
      if text[0] == '\n' {
        assert ([""] + rest)[1..] == rest;
      } else if |rest| > 1 {
        assert ([[text[0]] + rest[0]] + rest[1..])[1..] == rest[1..];
      }
    }
  }

  lemma {:induction false} SplitJoin(ls: seq<string>)
    requires Lines(ls)
    ensures Split(Join(ls)) == ls
    decreases |ls|, if ls == [] then 0 else |ls[0]|
  {
    var t := Join(ls);
    if ls[0] != "" {
      var less := [ls[0][1..]] + ls[1..];
      assert Join(less) == t[1..];
      SplitJoin(less);
      assert ls[0] == [t[0]] + less[0] && ls[0][0] != '\n';
      assert [[t[0]] + less[0]] + less[1..] == ls;
    } else if |ls| > 1 {
      assert t[1..] == Join(ls[1..]);
      SplitJoin(ls[1..]);
      assert [""] + ls[1..] == ls;
    }
  }

  /** All lines of `ls`, each with the line break that follows it. */
  function Before(ls: seq<string>): string {
    if ls == [] then "" else ls[0] + "\n" + Before(ls[1..])
  }

  /** All lines of `ls`, each with the line break that precedes it. */
  function After(ls: seq<string>): string {
    if ls == [] then "" else "\n" + ls[0] + After(ls[1..])
  }

  lemma {:induction false} JoinFrom(x: string, b: seq<string>)
    ensures Join([x] + b) == x + After(b)
    decreases |b|
  {
    if b != [] {
      assert ([x] + b)[1..] == [b[0]] + b[1..];
      JoinFrom(b[0], b[1..]);
      assert x + ("\n" + b[0] + After(b[1..])) == x + "\n" + (b[0] + After(b[1..]));
    } else {
      assert [x] + b == [x];
    }
  }

  /** A text around one of its lines. */
  lemma {:induction false} JoinAround(a: seq<string>, x: string, b: seq<string>)
    ensures Join(a + [x] + b) == Before(a) + x + After(b)
    decreases |a|
  {
    if a == [] {
      assert a + [x] + b == [x] + b;
      JoinFrom(x, b);
    } else {
      assert (a + [x] + b)[1..] == a[1..] + [x] + b;
      JoinAround(a[1..], x, b);
      assert a[0] + "\n" + (Before(a[1..]) + x + After(b)) == a[0] + "\n" + Before(a[1..]) + x + After(b);
    }
  }

  lemma {:induction false} BeforeConcat(a: seq<string>, b: seq<string>)
    ensures Before(a + b) == Before(a) + Before(b)
  {
    if a == [] {
      assert a + b == b;
    } else {
      assert (a + b)[1..] == a[1..] + b;
      BeforeConcat(a[1..], b);
    }
  }

  /** The lines that replace `x + y` when `parts` is put between `x` and `y`. */
  function Spread(x: string, parts: seq<string>, y: string): (ls: seq<string>)
    requires parts != []
    ensures |ls| == |parts|
  {
    if |parts| == 1 then [x + parts[0] + y]
    else [x + parts[0]] + parts[1..|parts| - 1] + [parts[|parts| - 1] + y]
  }

  lemma Together(a: string, x: string, p: string, m: string, q: string, y: string, z: string)
    ensures a + (x + p + "\n" + m) + (q + y) + z == a + x + (p + "\n" + m + q) + y + z
  {
  }

  lemma Regroup(a: string, x: string, p: string, y: string, z: string)
    ensures a + (x + p + y) + z == a + x + p + y + z
  {
  }

  lemma SpreadShort(a: seq<string>, x: string, p: string, y: string, b: seq<string>)
    ensures Join(a + Spread(x, [p], y) + b) == Before(a) + x + Join([p]) + y + After(b)
    ensures (a + Spread(x, [p], y) + b)[..|a|] == a && Join([p]) == p
  {
    assert Spread(x, [p], y) == [x + p + y];
    assert Join([p]) == p;
    hide Join, Before, After, Spread;
    JoinAround(a, x + p + y, b);
    Regroup(Before(a), x, p, y, After(b));
  }

  /** Several parts: the first ends the line above, the last begins the one below. */
  lemma SpreadLong(a: seq<string>, x: string, parts: seq<string>, y: string, b: seq<string>)
    requires |parts| > 1
    ensures Join(a + Spread(x, parts, y) + b) == Before(a) + x + Join(parts) + y + After(b)
    ensures var n := |parts| - 1;
            |Before((a + Spread(x, parts, y) + b)[..|a| + n])| + |parts[n]| == |Before(a)| + |x| + |Join(parts)|
  {
    var n := |parts| - 1;
    var mid := parts[1..n];
    var head := a + ([x + parts[0]] + mid);
    var all := a + Spread(x, parts, y) + b;
    assert all == head + [parts[n] + y] + b && all[..|a| + n] == head;
    JoinAround(head, parts[n] + y, b);
    BeforeConcat(a, [x + parts[0]] + mid);
    assert ([x + parts[0]] + mid)[1..] == mid;
    assert parts == ([parts[0]] + mid) + [parts[n]] + [];
    JoinAround([parts[0]] + mid, parts[n], []);
    assert ([parts[0]] + mid)[1..] == mid;
    Together(Before(a), x, parts[0], Before(mid), parts[n], y, After(b));
  }

  /** Inside the text, spreading puts exactly `Join(parts)` at the place. */
  lemma SpreadIsSplice(a: seq<string>, x: string, parts: seq<string>, y: string, b: seq<string>)
    requires parts != []
    ensures Join(a + Spread(x, parts, y) + b) == Before(a) + x + Join(parts) + y + After(b)
    ensures var n := |parts| - 1;
            |Before((a + Spread(x, parts, y) + b)[..|a| + n])| + (if n == 0 then |x| + |parts[0]| else |parts[n]|)
            == |Before(a)| + |x| + |Join(parts)|
  {
    hide Join, Before, After, Spread;
    if |parts| > 1 {
      SpreadLong(a, x, parts, y, b);
    } else {
      SpreadShort(a, x, parts[0], y, b);
      assert parts == [parts[0]];
    }
  }
}
