/** Mouse reports that arrive in pieces are absorbed and put together again. */
module Mouse {
  import opened Prelude

  const ESC := '\U{001b}'

  predicate IsDigit(c: char) {
    '0' <= c <= '9'
  }

  /** How many digits `s` begins with. */
  function Digits(s: string): (n: nat)
    ensures n <= |s|
    ensures forall i | 0 <= i < n :: IsDigit(s[i])
    ensures n < |s| ==> !IsDigit(s[n])
  {
    if s == "" || !IsDigit(s[0]) then 0 else 1 + Digits(s[1..])
  }

  /** The length of `-?\d*` at the front of `s`, and of its sign. */
  function Sign(s: string): (n: nat)
    ensures n <= |s| && n <= 1
  {
    if s != "" && s[0] == '-' then 1 else 0
  }

  function Field(s: string): (n: nat)
    ensures n <= |s|
  {
    Sign(s) + Digits(s[Sign(s)..])
  }

  /** `$` matches at the end and before a final newline. */
  predicate AtEnd(s: string) {
    s == "" || s == "\n"
  }

  /** `-?\d+;-?\d+;-?\d+[Mm]$`, with `more` fields after the first. */
  predicate FullBody(s: string, more: nat) {
    var rest := s[Field(s)..];
    && Field(s) > Sign(s)
    && if more > 0 then rest != "" && rest[0] == ';' && FullBody(rest[1..], more - 1)
       else rest != "" && (rest[0] == 'M' || rest[0] == 'm') && AtEnd(rest[1..])
  }

  /** `-?\d*(?:;-?\d*){0,2}$`, with at most `more` fields after the first. */
  predicate PartialBody(s: string, more: nat) {
    var rest := s[Field(s)..];
    AtEnd(rest) || (more > 0 && rest[0] == ';' && PartialBody(rest[1..], more - 1))
  }

  datatype Shape = Full | Partial | NotMouse

  /** The length of the longest recognised prefix, `[<` or `<`. */
  function Prefix(s: string): (n: nat)
    ensures n <= |s|
  {
    if |s| >= 2 && s[0] == '[' && s[1] == '<' then 2 else if |s| >= 1 && s[0] == '<' then 1 else 0
  }

  function Body(s: string): string {
    s[Prefix(s)..]
  }

  function Classify(s: string, allowBare: bool): Shape {
    if s == "" || (Prefix(s) == 0 && !allowBare) then NotMouse
    else if FullBody(Body(s), 2) then Full
    else if Body(s) == "" then (if Prefix(s) > 0 then Partial else NotMouse)
    else if PartialBody(Body(s), 2) then Partial
    else NotMouse
  }

  function Canonical(s: string): string {
    [ESC] + "[<" + Body(s)
  }

  const WINDOW := 0.30

  /** The held fragment and the end of the suspicion window. */
  datatype Held = Held(buf: string, until: real)

  /** What one call hands on, None while it only holds. */
  datatype Absorbed = Absorbed(held: Held, out: Option<string>)

  function Absorb(h: Held, key: string, now: real): Absorbed {
    var candidate := h.buf + key;
    var shape := Classify(candidate, now < h.until || h.buf != "");
    if shape == Partial then Absorbed(Held(candidate, now + WINDOW), None)
    else Absorbed(if h.buf != "" then Held("", 0.0) else h,
                  Some(if shape == Full then Canonical(candidate) else candidate))
  }

  class InputMixin {
    var orphanMouseBuf: string
    var orphanMouseUntil: real

    constructor ()
      ensures orphanMouseBuf == "" && orphanMouseUntil == 0.0
    {
      orphanMouseBuf, orphanMouseUntil := "", 0.0;
    }

    method AbsorbOrphanMouse(key: string, now: real) returns (out: Option<string>)
      modifies this
      ensures Absorbed(Held(orphanMouseBuf, orphanMouseUntil), out)
           == Absorb(Held(old(orphanMouseBuf), old(orphanMouseUntil)), key, now)
    {
      var buf := orphanMouseBuf;
      var allowBare := now < orphanMouseUntil || buf != "";
      hide Classify, Canonical;
      if buf != "" {
        var candidate := buf + key;
        match Classify(candidate, allowBare)
        case Full =>
          orphanMouseBuf, orphanMouseUntil := "", 0.0;
          return Some(Canonical(candidate));
        case Partial =>
          orphanMouseBuf, orphanMouseUntil := candidate, now + WINDOW;
          return None;
        case NotMouse =>
          orphanMouseBuf, orphanMouseUntil := "", 0.0;
          return Some(buf + key);
      }
      assert buf + key == key;
      match Classify(key, allowBare)
      case Full => return Some(Canonical(key));
      case Partial =>
        orphanMouseBuf, orphanMouseUntil := key, now + WINDOW;
        return None;
      case NotMouse => return Some(key);
    }

    /** A buffer whose window has passed is typed, or dropped if it is surely part of a report. */
    method FlushIfStale(now: real) returns (typed: Option<string>)
      modifies this
      ensures var f := Flush(Held(old(orphanMouseBuf), old(orphanMouseUntil)), now);
              && Held(orphanMouseBuf, orphanMouseUntil) == f.held
              && typed == match f.fate case Some(Given(p)) => Some(p.gave) case _ => None
    {
      var buf := orphanMouseBuf;
      if buf == "" || now < orphanMouseUntil {
        return None;
      }
      orphanMouseBuf, orphanMouseUntil := "", 0.0;
      if Prefix(buf) > 0 || ';' in Body(buf) {
        return None;
      }
      return Some(buf);
    }
  }

  // ---- nothing is lost ------------------------------------------------------------------

  datatype Call = Call(key: string, now: real)

  /** Input that was handed on together, and the form in which it was. */
  datatype Piece = Piece(got: string, gave: string)

  datatype Run = Run(held: Held, pieces: seq<Piece>)

  function RunCalls(h: Held, calls: seq<Call>): Run {
    if calls == [] then Run(h, [])
    else
      var before := RunCalls(h, calls[..|calls| - 1]);
      var call := calls[|calls| - 1];
      var a := Absorb(before.held, call.key, call.now);
      Run(a.held, before.pieces + if a.out.Some? then [Piece(before.held.buf + call.key, a.out.value)] else [])
  }

  function Keys(calls: seq<Call>): string {
    if calls == [] then "" else Keys(calls[..|calls| - 1]) + calls[|calls| - 1].key
  }

  function Got(pieces: seq<Piece>): string {
    if pieces == [] then "" else Got(pieces[..|pieces| - 1]) + pieces[|pieces| - 1].got
  }

  /** Handed on as it came, or a complete report under its canonical prefix. */
  predicate Faithful(p: Piece) {
    p.gave == p.got || (FullBody(Body(p.got), 2) && p.gave == Canonical(p.got))
  }

  lemma GotSnoc(pieces: seq<Piece>, p: Piece)
    ensures Got(pieces + [p]) == Got(pieces) + p.got
  {
    assert (pieces + [p])[..|pieces|] == pieces;
  }

  lemma RunSnoc(h: Held, calls: seq<Call>)
    requires calls != []
    ensures var before := RunCalls(h, calls[..|calls| - 1]);
            var call := calls[|calls| - 1];
            var a := Absorb(before.held, call.key, call.now);
            && RunCalls(h, calls).held == a.held
            && RunCalls(h, calls).pieces
               == before.pieces + (if a.out.Some? then [Piece(before.held.buf + call.key, a.out.value)] else [])
            && Keys(calls) == Keys(calls[..|calls| - 1]) + call.key
  {
  }

  /**
   * Over any calls, what was held before and the keys received are, in order,
   * the pieces handed on and what is held now; each piece is handed on as it
   * came, except that a complete report gets the canonical prefix.
   */
  lemma {:induction false} InputIsConserved(h: Held, calls: seq<Call>)
    ensures var r := RunCalls(h, calls);
            && h.buf + Keys(calls) == Got(r.pieces) + r.held.buf
            && forall p | p in r.pieces :: Faithful(p)
    decreases calls
  {
    if calls == [] {
      assert h.buf + "" == "" + h.buf;
    } else {
      RunSnoc(h, calls);
      hide RunCalls, Keys, Absorb, Faithful;
      var n := |calls| - 1;
      var before := RunCalls(h, calls[..n]);
      var call := calls[n];
      InputIsConserved(h, calls[..n]);
      AbsorbConserves(before.held, call.key, call.now);
      Assoc(h.buf, Keys(calls[..n]), call.key);
      Assoc(Got(before.pieces), before.held.buf, call.key);
      var a := Absorb(before.held, call.key, call.now);
      if a.out.Some? {
        GotSnoc(before.pieces, Piece(before.held.buf + call.key, a.out.value));
        assert Got(RunCalls(h, calls).pieces) + "" == Got(RunCalls(h, calls).pieces);
      } else {
        assert before.pieces + [] == before.pieces;
      }
    }
  }

  lemma AbsorbConserves(h: Held, key: string, now: real)
    ensures var a := Absorb(h, key, now);
            if a.out.Some? then a.held.buf == "" && Faithful(Piece(h.buf + key, a.out.value))
            else a.held.buf == h.buf + key
  {
  }

  // ---- stale fragments --------------------------------------------------------------------

  /** What becomes of input: it is handed on or typed, or dropped. */
  datatype Fate = Given(piece: Piece) | Dropped(got: string)

  datatype Flushed = Flushed(held: Held, fate: Option<Fate>)

  /** With a report's prefix or a separator: nothing a user types by chance. */
  predicate Truncated(buf: string) {
    Prefix(buf) > 0 || ';' in Body(buf)
  }

  function Flush(h: Held, now: real): Flushed {
    if h.buf == "" || now < h.until then Flushed(h, None)
    else Flushed(Held("", 0.0), Some(if Truncated(h.buf) then Dropped(h.buf) else Given(Piece(h.buf, h.buf))))
  }

  datatype Turn = Press(call: Call) | Idle(now: real)

  datatype Fates = Fates(held: Held, fates: seq<Fate>)

  function Took(fate: Fate): string {
    match fate
    case Given(p) => p.got
    case Dropped(got) => got
  }

  function TookAll(fates: seq<Fate>): string {
    if fates == [] then "" else TookAll(fates[..|fates| - 1]) + Took(fates[|fates| - 1])
  }

  function KeyOf(t: Turn): string {
    if t.Press? then t.call.key else ""
  }

  function KeysOf(turns: seq<Turn>): string {
    if turns == [] then "" else KeysOf(turns[..|turns| - 1]) + KeyOf(turns[|turns| - 1])
  }

  /** One turn, and the fate of what it takes out of the buffer. */
  function TurnOnce(h: Held, t: Turn): Flushed {
    match t
    case Idle(now) => Flush(h, now)
    case Press(call) =>
      var a := Absorb(h, call.key, call.now);
      Flushed(a.held, if a.out.Some? then Some(Given(Piece(h.buf + call.key, a.out.value))) else None)
  }

  function RunTurns(h: Held, turns: seq<Turn>): Fates {
    if turns == [] then Fates(h, [])
    else
      var before := RunTurns(h, turns[..|turns| - 1]);
      var f := TurnOnce(before.held, turns[|turns| - 1]);
      Fates(f.held, before.fates + if f.fate.Some? then [f.fate.value] else [])
  }

  /** What is dropped was a truncated report; everything else is handed on faithfully. */
  predicate Fair(fate: Fate) {
    match fate
    case Given(p) => Faithful(p)
    case Dropped(got) => Truncated(got)
  }

  lemma TurnConserves(h: Held, t: Turn)
    ensures var f := TurnOnce(h, t);
            if f.fate.Some? then f.held.buf == "" && Took(f.fate.value) == h.buf + KeyOf(t) && Fair(f.fate.value)
            else f.held.buf == h.buf + KeyOf(t)
  {
    if t.Press? {
      AbsorbConserves(h, t.call.key, t.call.now);
      hide Absorb, Faithful;
    } else {
      assert h.buf + "" == h.buf;
    }
  }

  lemma TurnSnoc(h: Held, turns: seq<Turn>)
    requires turns != []
    ensures var before := RunTurns(h, turns[..|turns| - 1]);
            var f := TurnOnce(before.held, turns[|turns| - 1]);
            && RunTurns(h, turns) == Fates(f.held, before.fates + if f.fate.Some? then [f.fate.value] else [])
            && KeysOf(turns) == KeysOf(turns[..|turns| - 1]) + KeyOf(turns[|turns| - 1])
  {
  }

  lemma TookSnoc(fates: seq<Fate>, fate: Fate)
    ensures TookAll(fates + [fate]) == TookAll(fates) + Took(fate)
  {
    assert (fates + [fate])[..|fates|] == fates;
  }

  /**
   * With stale flushes anywhere between the calls: the input is, in order, what was
   * handed on or typed, what was dropped, and what is held; only truncated reports
   * are dropped.
   */
  lemma {:induction false} InputIsConservedOrDropped(h: Held, turns: seq<Turn>)
    ensures var r := RunTurns(h, turns);
            && h.buf + KeysOf(turns) == TookAll(r.fates) + r.held.buf
            && forall fate | fate in r.fates :: Fair(fate)
    decreases turns
  {
    if turns == [] {
      assert h.buf + "" == "" + h.buf;
    } else {
      var n := |turns| - 1;
      TurnSnoc(h, turns);
      hide RunTurns, KeysOf, TurnOnce, Fair, Took, TookAll;
      InputIsConservedOrDropped(h, turns[..n]);
      var before := RunTurns(h, turns[..n]);
      var key := KeyOf(turns[n]);
      var f := TurnOnce(before.held, turns[n]);
      TurnConserves(before.held, turns[n]);
      Assoc(h.buf, KeysOf(turns[..n]), key);
      Assoc(TookAll(before.fates), before.held.buf, key);
      if f.fate.Some? {
        TookSnoc(before.fates, f.fate.value);
        assert TookAll(RunTurns(h, turns).fates) + "" == TookAll(RunTurns(h, turns).fates);
      } else {
        assert before.fates + [] == before.fates;
      }
    }
  }

  /**
   * A held fragment is dropped by the next flush after its window if and only if it
   * is truncated; otherwise it is typed as it is.
   */
  lemma StaleIsDroppedIff(held: Held, now: real)
    requires held.buf != "" && held.until <= now
    ensures var sure := "[<" <= held.buf || "<" <= held.buf || ';' in held.buf;
            RunTurns(held, [Idle(now)])
            == Fates(Held("", 0.0), if sure then [Dropped(held.buf)] else [Given(Piece(held.buf, held.buf))])
  {
    var turns := [Idle(now)];
    assert turns[..0] == [];
    assert RunTurns(held, turns[..0]) == Fates(held, []);
    assert Prefix(held.buf) > 0 <==> "[<" <= held.buf || "<" <= held.buf;
    assert Prefix(held.buf) == 0 ==> Body(held.buf) == held.buf;
  }

  /** A fragment just held is safe from a flush for the time of the window. */
  lemma FreshFragmentStays(h: Held, key: string, now: real, later: real)
    requires Absorb(h, key, now).out.None? && later < now + 0.30
    ensures var held := Absorb(h, key, now).held; Flush(held, later) == Flushed(held, None)
  {
    hide Classify, Canonical;
  }

  // ---- split reports ----------------------------------------------------------------------

  lemma {:induction false} DigitsOfPrefix(s: string, n: nat)
    requires n <= |s|
    ensures Digits(s[..n]) == Min(n, Digits(s))
    decreases n
  {
    if n > 0 && IsDigit(s[0]) {
      assert s[..n][1..] == s[1..][..n - 1];
      DigitsOfPrefix(s[1..], n - 1);
    }
  }

  lemma FieldOfPrefix(s: string, n: nat)
    requires n <= |s|
    ensures Field(s[..n]) == Min(n, Field(s))
    ensures n > 0 ==> Sign(s[..n]) == Sign(s)
  {
    if n > 0 {
      var k := Sign(s);
      assert s[..n][k..] == s[k..][..n - k];
      DigitsOfPrefix(s[k..], n - k);
    }
  }

  lemma FullParts(s: string, more: nat)
    requires FullBody(s, more)
    ensures Field(s) > Sign(s) && Field(s) < |s|
    ensures more > 0 ==>
              && s[Field(s)] == ';' && s[Field(s)..][1..] == s[Field(s) + 1..]
              && FullBody(s[Field(s) + 1..], more - 1)
    ensures more == 0 ==> (s[Field(s)] == 'M' || s[Field(s)] == 'm') && AtEnd(s[Field(s) + 1..])
  {
    assert s[Field(s)..][1..] == s[Field(s) + 1..];
  }

  lemma CutInField(s: string, n: nat, more: nat)
    requires n <= Field(s)
    ensures PartialBody(s[..n], more) && !FullBody(s[..n], more)
  {
    FieldOfPrefix(s, n);
    assert s[..n][n..] == "";
  }

  lemma CutAfterField(s: string, n: nat, more: nat)
    requires Field(s) < n <= |s| && more > 0 && s[Field(s)] == ';'
    requires PartialBody(s[Field(s) + 1..n], more - 1) && !FullBody(s[Field(s) + 1..n], more - 1)
    ensures PartialBody(s[..n], more) && !FullBody(s[..n], more)
  {
    var f := Field(s);
    FieldOfPrefix(s, n);
    assert s[..n][f..][0] == ';' && s[..n][f..][1..] == s[f + 1..n];
  }

  lemma TailEnds(s: string, k: nat)
    requires k < |s| && AtEnd(s[k..])
    ensures s[|s| - 1] == '\n'
  {
    assert s[k..][0] == s[k];
  }

  lemma SliceOfTail(s: string, k: nat, n: nat)
    requires k <= n < |s|
    ensures s[k..] != "" && s[k..][|s[k..]| - 1] == s[|s| - 1] && s[k..][..n - k] == s[k..n]
  {
  }

  lemma CutLastField(s: string, n: nat)
    requires FullBody(s, 0) && s[|s| - 1] != '\n' && n < |s|
    ensures n <= Field(s)
  {
    FullParts(s, 0);
    hide FullBody, Field;
    if Field(s) + 1 < |s| {
      TailEnds(s, Field(s) + 1);
    }
  }

  /** A report cut short could still grow, and is not complete. */
  lemma {:induction false} CutReportIsPartial(s: string, n: nat, more: nat)
    requires FullBody(s, more) && s[|s| - 1] != '\n' && n < |s|
    ensures PartialBody(s[..n], more) && !FullBody(s[..n], more)
    decreases more
  {
    hide FullBody, PartialBody, Field, Sign, AtEnd;
    FullParts(s, more);
    var f := Field(s);
    if n <= f {
      CutInField(s, n, more);
    } else if more > 0 {
      SliceOfTail(s, f + 1, n);
      CutReportIsPartial(s[f + 1..], n - f - 1, more - 1);
      CutAfterField(s, n, more);
    } else {
      CutLastField(s, n);
    }
  }

  /** A complete report behind a prefix of which the first piece has all. */
  ghost predicate Report(s: string) {
    FullBody(Body(s), 2) && s[|s| - 1] != '\n'
  }

  lemma CutPrefix(s: string, n: nat)
    requires Prefix(s) <= n <= |s| && (Prefix(s) > 0 || Report(s))
    ensures n > 0 ==> Prefix(s[..n]) == Prefix(s) && Body(s[..n]) == Body(s)[..n - Prefix(s)]
  {
    if Prefix(s) == 0 {
      assert s == Body(s) && s[0] != '<';
    }
  }

  lemma ClassifiedPartial(t: string, allowBare: bool)
    requires t != "" && (Prefix(t) > 0 || allowBare)
    requires PartialBody(Body(t), 2) && !FullBody(Body(t), 2)
    ensures Classify(t, allowBare) == Partial
  {
    hide FullBody, PartialBody;
  }

  lemma BodyEnds(s: string)
    requires Report(s)
    ensures |Body(s)| == |s| - Prefix(s) && |Body(s)| > 0 && Body(s)[|Body(s)| - 1] != '\n'
  {
    hide FullBody, Field, Sign, Prefix, AtEnd;
    FullParts(Body(s), 2);
  }

  lemma CutIsHeld(s: string, n: nat, allowBare: bool)
    requires Report(s) && 0 < n < |s| && Prefix(s) <= n && (Prefix(s) > 0 || allowBare)
    ensures Classify(s[..n], allowBare) == Partial
  {
    hide Prefix, FullBody, PartialBody, Classify, Body, Field, Sign, AtEnd;
    BodyEnds(s);
    CutPrefix(s, n);
    CutReportIsPartial(Body(s), n - Prefix(s), 2);
    ClassifiedPartial(s[..n], allowBare);
  }

  /**
   * A report cut into pieces, the first holding its whole prefix (or, for a bare
   * tail, arriving within the window), is held until the last piece and then
   * handed on exactly once, whole and canonical.
   */
  lemma SplitReportIsEmittedOnce(h: Held, s: string, calls: seq<Call>)
    requires Report(s) && h.buf == "" && |calls| > 0 && Keys(calls) == s
    requires calls[|calls| - 1].key != "" && calls[0].key != ""
    requires Prefix(s) <= |calls[0].key|
    requires Prefix(s) > 0 || calls[0].now < h.until
    ensures RunCalls(h, calls).pieces == [Piece(s, Canonical(s))] && RunCalls(h, calls).held.buf == ""
  {
    var n := |calls| - 1;
    var last := calls[n];
    HeldSoFar(h, s, calls, n);
    RunSnoc(h, calls);
    hide RunCalls, Keys, FullBody, PartialBody, Prefix, Absorb, Report, Canonical;
    var before := RunCalls(h, calls[..n]);
    assert before.held.buf + last.key == s;
    if n > 0 {
      KeysBelow(calls, n);
      assert |before.held.buf| > 0;
    }
    LastPieceCompletes(before.held, s, last);
    assert [] + [Piece(s, Canonical(s))] == [Piece(s, Canonical(s))];
  }

  lemma LastPieceCompletes(held: Held, s: string, last: Call)
    requires Report(s) && held.buf + last.key == s
    requires Prefix(s) > 0 || last.now < held.until || held.buf != ""
    ensures var a := Absorb(held, last.key, last.now);
            a.out == Some(Canonical(s)) && a.held.buf == ""
  {
  }

  lemma {:induction false} KeysGrow(calls: seq<Call>, k: nat)
    requires 0 < k <= |calls|
    ensures |calls[0].key| <= |Keys(calls[..k])| <= |Keys(calls)|
    ensures Keys(calls[..k]) <= Keys(calls)
    decreases |calls|
  {
    if k == |calls| {
      assert calls[..k] == calls;
      if k > 1 {
        KeysGrow(calls[..k - 1], k - 1);
        assert calls[..k - 1][..k - 1] == calls[..k - 1];
      } else {
        assert Keys(calls) == Keys(calls[..0]) + calls[0].key;
      }
    } else {
      KeysGrow(calls[..|calls| - 1], k);
      assert calls[..|calls| - 1][..k] == calls[..k];
    }
  }

  lemma {:induction false} HeldSoFar(h: Held, s: string, calls: seq<Call>, k: nat)
    requires Report(s) && h.buf == "" && k < |calls| && Keys(calls) == s
    requires calls[|calls| - 1].key != "" && calls[0].key != ""
    requires Prefix(s) <= |calls[0].key|
    requires Prefix(s) > 0 || calls[0].now < h.until
    ensures var r := RunCalls(h, calls[..k]);
            r.pieces == [] && r.held.buf == Keys(calls[..k]) && (k == 0 ==> r.held == h)
    decreases k
  {
    hide FullBody, PartialBody, Prefix, Field, Sign;
    if k > 0 {
      HeldSoFar(h, s, calls, k - 1);
      assert calls[..k][..k - 1] == calls[..k - 1];
      RunSnoc(h, calls[..k]);
      KeysBelow(calls, k);
      var held := Keys(calls[..k]);
      var before := RunCalls(h, calls[..k - 1]);
      if k > 1 {
        KeysBelow(calls, k - 1);
      }
      hide RunCalls, Keys;
      CutIsHeld(s, |held|, calls[k - 1].now < before.held.until || before.held.buf != "");
      assert held == s[..|held|];
      NothingOut(before.held, held, calls[k - 1]);
      assert before.pieces + [] == [];
    }
  }

  /** The keys of some first calls are part of, and fewer than, those of all. */
  lemma KeysBelow(calls: seq<Call>, k: nat)
    requires 0 < k < |calls| && calls[|calls| - 1].key != ""
    ensures |calls[0].key| <= |Keys(calls[..k])| < |Keys(calls)|
    ensures Keys(calls[..k]) == Keys(calls)[..|Keys(calls[..k])|]
  {
    var n := |calls| - 1;
    KeysGrow(calls[..n], k);
    assert calls[..n][..k] == calls[..k];
    assert Keys(calls) == Keys(calls[..n]) + calls[n].key;
  }

  lemma NothingOut(held: Held, candidate: string, call: Call)
    requires candidate == held.buf + call.key
    requires Classify(candidate, call.now < held.until || held.buf != "") == Partial
    ensures var a := Absorb(held, call.key, call.now); a.out.None? && a.held.buf == candidate
  {
  }

  // ---- single keys --------------------------------------------------------------------------

  /** A number that may have a sign and may still lack digits. */
  predicate IsField(f: string) {
    forall i | Sign(f) <= i < |f| :: IsDigit(f[i])
  }

  predicate IsNumber(f: string) {
    IsField(f) && |f| > Sign(f)
  }

  lemma {:induction false} DigitsThen(d: string, rest: string)
    requires (forall i | 0 <= i < |d| :: IsDigit(d[i])) && (rest == "" || !IsDigit(rest[0]))
    ensures Digits(d + rest) == |d|
    decreases |d|
  {
    if d == "" {
      assert d + rest == rest;
    } else {
      assert (d + rest)[1..] == d[1..] + rest;
      DigitsThen(d[1..], rest);
    }
  }

  lemma FieldThen(f: string, rest: string)
    requires IsField(f) && (rest == "" || !IsDigit(rest[0])) && (f == "" && rest != "" ==> rest[0] != '-')
    ensures Field(f + rest) == |f| && Sign(f + rest) == Sign(f) && (f + rest)[|f|..] == rest
  {
    var k := Sign(f);
    assert (f + rest)[k..] == f[k..] + rest;
    DigitsThen(f[k..], rest);
  }

  /** `x;y;z` and `M` or `m` are a complete report. */
  lemma ReportBody(x: string, y: string, z: string, m: char)
    requires IsNumber(x) && IsNumber(y) && IsNumber(z) && (m == 'M' || m == 'm')
    ensures FullBody(x + (";" + (y + (";" + (z + [m])))), 2)
  {
    hide IsField;
    LastNumber(z, m);
    OneMoreNumber(y, z + [m], 0);
    OneMoreNumber(x, y + (";" + (z + [m])), 1);
  }

  lemma LastNumber(z: string, m: char)
    requires IsNumber(z) && (m == 'M' || m == 'm')
    ensures FullBody(z + [m], 0)
  {
    FieldThen(z, [m]);
    hide Field, Sign, IsField;
    assert [m][1..] == "";
  }

  lemma OneMoreNumber(x: string, rest: string, more: nat)
    requires IsNumber(x) && FullBody(rest, more)
    ensures FullBody(x + (";" + rest), more + 1)
  {
    FieldThen(x, ";" + rest);
    hide Field, Sign, IsField;
    assert (";" + rest)[1..] == rest;
  }

  /** A complete report in one piece, with either prefix, is handed on in the canonical form. */
  lemma WholeReportPasses(h: Held, prefix: string, x: string, y: string, z: string, m: char, now: real)
    requires h.buf == "" && (prefix == "[<" || prefix == "<")
    requires IsNumber(x) && IsNumber(y) && IsNumber(z) && (m == 'M' || m == 'm')
    ensures var body := x + (";" + (y + (";" + (z + [m]))));
            Absorb(h, prefix + body, now) == Absorbed(h, Some([ESC] + "[<" + body))
  {
    var body := x + (";" + (y + (";" + (z + [m]))));
    ReportBody(x, y, z, m);
    hide FullBody, PartialBody, IsNumber;
    PrefixThen(prefix, body);
    hide Prefix, Body;
    assert h.buf + (prefix + body) == prefix + body;
    assert Classify(prefix + body, now < h.until) == Full;
    hide Classify;
    assert Canonical(prefix + body) == [ESC] + "[<" + body;
  }

  lemma PrefixThen(prefix: string, body: string)
    requires prefix == "[<" || prefix == "<"
    ensures Prefix(prefix + body) == |prefix| && Body(prefix + body) == body && prefix + body != ""
  {
    assert (prefix + body)[0] == prefix[0];
  }

  /** What fragments consist of; a line feed only at the very end. */
  predicate FragmentChar(s: string, i: nat)
    requires i < |s|
  {
    IsDigit(s[i]) || s[i] == '-' || s[i] == ';' || (s[i] == '\n' && i == |s| - 1)
  }

  lemma FieldChars(s: string, i: nat)
    requires i < Field(s)
    ensures IsDigit(s[i]) || s[i] == '-'
  {
    var k := Sign(s);
    if i >= k {
      assert IsDigit(s[k..][i - k]);
    }
  }

  lemma {:induction false} PartialChars(s: string, more: nat, i: nat)
    requires PartialBody(s, more) && i < |s|
    ensures FragmentChar(s, i)
    decreases more
  {
    var f := Field(s);
    if i < f {
      FieldChars(s, i);
    } else {
      hide Field;
      var rest := s[f..];
      assert rest[i - f] == s[i];
      if i > f && !AtEnd(rest) {
        PartialChars(rest[1..], more - 1, i - f - 1);
        assert rest[1..][i - f - 1] == s[i];
      }
    }
  }

  lemma NoFragment(key: string, allowBare: bool)
    requires (Prefix(key) == 0 && !allowBare)
          || (!FullBody(Body(key), 2) && exists i | 0 <= i < |Body(key)| :: !FragmentChar(Body(key), i))
    ensures Classify(key, allowBare) == NotMouse
  {
    hide FullBody, FragmentChar, Prefix, Body;
    if PartialBody(Body(key), 2) {
      forall i | 0 <= i < |Body(key)| ensures FragmentChar(Body(key), i) {
        PartialChars(Body(key), 2, i);
      }
    }
    hide PartialBody;
  }

  /**
   * An ordinary key is handed on at once, as it is: one without a prefix outside the
   * window, and one with any other character than fragments have, unless it is a
   * whole report.
   */
  lemma OrdinaryKeyPasses(h: Held, key: string, now: real)
    requires h.buf == ""
    requires (Prefix(key) == 0 && h.until <= now)
          || (!FullBody(Body(key), 2) && exists i | 0 <= i < |Body(key)| :: !FragmentChar(Body(key), i))
    ensures Absorb(h, key, now) == Absorbed(h, Some(key))
  {
    hide Classify, Canonical;
    assert h.buf + key == key;
    NoFragment(key, now < h.until);
  }
}
