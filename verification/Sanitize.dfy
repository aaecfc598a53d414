/**
 * Filtering terminal controls out of rendered text, and the row scanner's walk
 * over what is left.  Control sequences have the format of ECMA-48 section 5.4.
 */
module Sanitize {
  const ESC := '\U{001b}'
  const BEL := '\U{0007}'
  const REPLACEMENT := '\U{fffd}'

  predicate Between(c: char, lo: char, hi: char) {
    lo <= c <= hi
  }

  predicate Alnum(c: char) {
    Between(c, '0', '9') || Letter(c)
  }

  predicate Letter(c: char) {
    Between(c, 'A', 'Z') || Between(c, 'a', 'z')
  }

  // ---- escape sequences at the front of a text ----------------------------------------

  /** How many characters in front satisfy `ok`. */
  function While(s: string, ok: char -> bool): (n: nat)
    ensures n <= |s|
    ensures n < |s| ==> !ok(s[n])
    ensures forall i | 0 <= i < n :: ok(s[i])
  {
    if s == "" || !ok(s[0]) then 0 else 1 + While(s[1..], ok)
  }

  const PARAMETER: char -> bool := c => Between(c, '0', '?')
  const INTERMEDIATE: char -> bool := c => Between(c, ' ', '/')
  const OSC_TEXT: char -> bool := c => c != BEL && c != ESC
  const STRING_TEXT: char -> bool := c => c != ESC
  const PLAIN: char -> bool := c => Between(c, '0', '9') || c == ';' || c == '?'

  /** Where the final byte of a control sequence would be. */
  function CsiFinal(s: string): (n: nat)
    requires |s| >= 2
    ensures 2 <= n <= |s|
  {
    var p := 2 + While(s[2..], PARAMETER);
    p + While(s[p..], INTERMEDIATE)
  }

  /** `ESC [ parameters intermediates final`; 0 when there is none. */
  function CsiLen(s: string): (n: nat)
    ensures n <= |s|
  {
    if |s| < 2 || s[0] != ESC || s[1] != '[' then 0
    else
      var f := CsiFinal(s);
      if f < |s| && Between(s[f], '@', '~') then f + 1 else 0
  }

  function Terminator(s: string, i: nat): (n: nat)
    requires i <= |s|
    ensures n == 0 || i < n <= |s|
  {
    if i + 1 < |s| && s[i] == ESC && s[i + 1] == '\\' then i + 2 else 0
  }

  /** `ESC ] text`, ended by BEL or ST. */
  function OscLen(s: string): (n: nat)
    ensures n <= |s|
  {
    if |s| < 2 || s[0] != ESC || s[1] != ']' then 0
    else
      var i := 2 + While(s[2..], OSC_TEXT);
      if i < |s| && s[i] == BEL then i + 1 else Terminator(s, i)
  }

  /** DCS, PM and APC strings. */
  function StringLen(s: string): (n: nat)
    ensures n <= |s|
  {
    if |s| < 2 || s[0] != ESC || !(s[1] == 'P' || s[1] == '_' || s[1] == '^') then 0
    else Terminator(s, 2 + While(s[2..], STRING_TEXT))
  }

  function CharsetLen(s: string): (n: nat)
    ensures n <= |s|
  {
    if |s| >= 3 && s[0] == ESC && (s[1] == '(' || s[1] == ')') && Alnum(s[2]) then 3 else 0
  }

  /** The filter's expression: its alternatives in order, the last any ESC and a character. */
  function EscapeLen(s: string): (n: nat)
    ensures n <= |s|
  {
    if CsiLen(s) > 0 then CsiLen(s)
    else if OscLen(s) > 0 then OscLen(s)
    else if StringLen(s) > 0 then StringLen(s)
    else if CharsetLen(s) > 0 then CharsetLen(s)
    else if |s| >= 2 && s[0] == ESC && s[1] != '\n' then 2
    else 0
  }

  /** SGR: a control sequence with final byte `m`. */
  predicate IsSgr(s: string) {
    CsiLen(s) > 0 && s[CsiLen(s) - 1] == 'm'
  }

  // ---- the filter ------------------------------------------------------------------------

  function SafeChar(c: char): (d: char)
    ensures Safe(d)
  {
    if c == '\r' then '\n' else if Safe(c) then c else REPLACEMENT
  }

  /** Characters that cannot change the terminal's state. */
  predicate Safe(c: char) {
    c == '\n' || c == '\t' || (c >= ' ' && c != '\U{007f}' && !Between(c, '\U{0080}', '\U{009f}'))
  }

  function Sanitized(s: string): string
    decreases |s|
  {
    if s == "" then ""
    else if EscapeLen(s) > 0 then
      (if IsSgr(s) then s[..EscapeLen(s)] else "") + Sanitized(s[EscapeLen(s)..])
    else [SafeChar(s[0])] + Sanitized(s[1..])
  }

  /** Safe characters and complete SGR sequences, and nothing else. */
  predicate Clean(t: string)
    decreases |t|
  {
    t == "" || if t[0] == ESC then IsSgr(t) && Clean(t[CsiLen(t)..]) else Safe(t[0]) && Clean(t[1..])
  }

  lemma {:induction false} WhileIs(s: string, ok: char -> bool, n: nat)
    requires n <= |s| && (forall i | 0 <= i < n :: ok(s[i])) && (n < |s| ==> !ok(s[n]))
    ensures While(s, ok) == n
  {
    if n > 0 {
      WhileIs(s[1..], ok, n - 1);
    }
  }

  lemma CsiParts(s: string) returns (p: nat, f: nat)
    requires CsiLen(s) > 0
    ensures |s| >= 2 && s[0] == ESC && s[1] == '[' && 2 <= p <= f < |s| && CsiLen(s) == f + 1
    ensures While(s[2..], PARAMETER) == p - 2 && While(s[p..], INTERMEDIATE) == f - p && Between(s[f], '@', '~')
  {
    p := 2 + While(s[2..], PARAMETER);
    f := p + While(s[p..], INTERMEDIATE);
  }

  /** What a run of characters is, it is in any text that agrees up to the one that ends it. */
  lemma SameWhile(s: string, t: string, ok: char -> bool, k: nat)
    requires While(s, ok) < k <= |s| && k <= |t| && s[..k] == t[..k]
    ensures While(t, ok) == While(s, ok)
  {
    var n := While(s, ok);
    assert forall i | 0 <= i < k :: t[i] == t[..k][i] == s[..k][i] == s[i];
    WhileIs(t, ok, n);
  }

  /** A control sequence is found whatever follows it. */
  lemma CsiAlone(s: string, rest: string)
    requires CsiLen(s) > 0
    ensures var n := CsiLen(s); CsiLen(s[..n] + rest) == n
  {
    var p, f := CsiParts(s);
    hide CsiLen;
    var t := s[..f + 1] + rest;
    assert t[2..][..f - 1] == s[2..][..f - 1] && t[p..][..f + 1 - p] == s[p..][..f + 1 - p];
    SameWhile(s[2..], t[2..], PARAMETER, f - 1);
    SameWhile(s[p..], t[p..], INTERMEDIATE, f + 1 - p);
    CsiFrom(t, p, f);
  }

  lemma CsiFrom(t: string, p: nat, f: nat)
    requires |t| >= 2 && t[0] == ESC && t[1] == '[' && 2 <= p <= f < |t|
    requires While(t[2..], PARAMETER) == p - 2 && While(t[p..], INTERMEDIATE) == f - p
    requires Between(t[f], '@', '~')
    ensures CsiLen(t) == f + 1
  {
  }

  lemma SgrThenClean(s: string, rest: string)
    requires IsSgr(s) && Clean(rest)
    ensures Clean(s[..CsiLen(s)] + rest)
  {
    var n := CsiLen(s);
    var t := s[..n] + rest;
    CsiAlone(s, rest);
    hide CsiLen;
    assert t[n..] == rest && t[n - 1] == s[n - 1] && t[0] == s[0];
    assert s[0] == ESC by { CsiBegins(s); }
  }

  lemma CsiBegins(s: string)
    requires CsiLen(s) > 0
    ensures s[0] == ESC
  {
  }

  lemma {:induction false} SanitizedIsClean(s: string)
    ensures Clean(Sanitized(s))
    decreases |s|
  {
    if s != "" {
      var n := EscapeLen(s);
      if n > 0 {
        SanitizedIsClean(s[n..]);
        if IsSgr(s) {
          SgrThenClean(s, Sanitized(s[n..]));
        } else {
          assert Sanitized(s) == "" + Sanitized(s[n..]) == Sanitized(s[n..]);
        }
      } else {
        SanitizedIsClean(s[1..]);
        assert Sanitized(s)[1..] == Sanitized(s[1..]);
      }
    }
  }

  lemma {:induction false} CleanIsKept(t: string)
    requires Clean(t)
    ensures Sanitized(t) == t
    decreases |t|
  {
    if t != "" {
      if t[0] == ESC {
        CleanIsKept(t[CsiLen(t)..]);
      } else {
        CleanIsKept(t[1..]);
      }
    }
  }

  /**
   * The filter leaves safe characters and complete SGR sequences only, changes
   * exactly the texts that are something else, and is idempotent.
   */
  lemma SanitizingIsIdempotent(s: string)
    ensures Clean(Sanitized(s))
    ensures Sanitized(s) == s <==> Clean(s)
    ensures Sanitized(Sanitized(s)) == Sanitized(s)
  {
    SanitizedIsClean(s);
    CleanIsKept(Sanitized(s));
    if Clean(s) {
      CleanIsKept(s);
    }
  }

  // ---- what the filter keeps around one control ------------------------------------------------

  /** The filter on text without ESC: character by character. */
  function Visible(s: string): string {
    seq(|s|, i requires 0 <= i < |s| =>
      if s[i] == '\r' then '\n' else if Safe(s[i]) then s[i] else REPLACEMENT)
  }

  lemma PlainStep(c: char, s: string)
    requires c != ESC
    ensures Sanitized([c] + s) == Visible([c]) + Sanitized(s)
  {
    var t := [c] + s;
    NoEscape(t);
    assert t[1..] == s;
    hide EscapeLen, IsSgr;
    assert Visible([c]) == [SafeChar(c)];
  }

  lemma {:induction false} PlainTextStays(a: string, rest: string)
    requires ESC !in a
    ensures Sanitized(a + rest) == Visible(a) + Sanitized(rest)
    decreases |a|
  {
    hide Sanitized;
    if a == "" {
      assert a + rest == rest;
    } else {
      assert a + rest == [a[0]] + (a[1..] + rest);
      PlainStep(a[0], a[1..] + rest);
      PlainTextStays(a[1..], rest);
      assert Visible(a) == Visible([a[0]]) + Visible(a[1..]);
      hide Visible;
      assert Visible([a[0]]) + (Visible(a[1..]) + Sanitized(rest)) == Visible(a) + Sanitized(rest);
    }
  }

  lemma NoEscape(s: string)
    requires s != "" && s[0] != ESC
    ensures EscapeLen(s) == 0
  {
  }

  /** By code: tabs, line feeds, printable ASCII and everything from U+00A0 on stay as they are. */
  lemma CharacterByCode(c: char)
    requires c != ESC
    ensures var n := c as int;
            Sanitized([c]) == if n == 9 || n == 10 || 32 <= n <= 126 || n >= 160 then [c]
                              else if n == 13 then "\n" else [REPLACEMENT]
  {
    PlainStep(c, "");
    assert [c] + "" == [c];
  }

  /** All characters of `s` satisfy `ok`. */
  predicate All(s: string, ok: char -> bool) {
    forall i | 0 <= i < |s| :: ok(s[i])
  }

  lemma WhileStops(s: string, ok: char -> bool, rest: string)
    requires All(s, ok) && (rest == "" || !ok(rest[0]))
    ensures While(s + rest, ok) == |s|
  {
    WhileIs(s + rest, ok, |s|);
  }

  lemma ParsesAs(parameters: string, intermediates: string, tail: string)
    requires All(parameters, PARAMETER) && All(intermediates, INTERMEDIATE)
    requires tail != "" && Between(tail[0], '@', '~')
    ensures CsiLen([ESC, '['] + parameters + intermediates + tail) == 3 + |parameters| + |intermediates|
  {
    var s := [ESC, '['] + parameters + intermediates + tail;
    var p := 2 + |parameters|;
    hide CsiLen;
    assert s[2..] == parameters + (intermediates + tail) && s[p..] == intermediates + tail;
    assert intermediates != "" ==> !PARAMETER(intermediates[0]);
    WhileStops(parameters, PARAMETER, intermediates + tail);
    WhileStops(intermediates, INTERMEDIATE, tail);
    CsiFrom(s, p, p + |intermediates|);
  }

  lemma FilterControl(s: string)
    requires CsiLen(s) > 0
    ensures Sanitized(s) == (if s[CsiLen(s) - 1] == 'm' then s[..CsiLen(s)] else "") + Sanitized(s[CsiLen(s)..])
  {
    hide CsiLen;
  }

  /** A control sequence by its parts: SGR is kept, any other disappears, and the rest stays. */
  lemma ControlSequence(parameters: string, intermediates: string, final: char, rest: string)
    requires All(parameters, PARAMETER) && All(intermediates, INTERMEDIATE) && Between(final, '@', '~')
    ensures var code := [ESC, '['] + parameters + intermediates + [final];
            Sanitized(code + rest) == (if final == 'm' then code else "") + Sanitized(rest)
  {
    hide CsiLen, Sanitized;
    var code := [ESC, '['] + parameters + intermediates + [final];
    ParsesAs(parameters, intermediates, [final] + rest);
    assert code + rest == [ESC, '['] + parameters + intermediates + ([final] + rest);
    FilterControl(code + rest);
    assert (code + rest)[..|code|] == code && (code + rest)[|code|..] == rest && code[|code| - 1] == final;
  }

  /** `ESC ] text`, ended by BEL, disappears, and the rest stays. */
  lemma OscString(text: string, rest: string)
    requires All(text, OSC_TEXT)
    ensures Sanitized([ESC, ']'] + text + [BEL] + rest) == Sanitized(rest)
  {
    var s := [ESC, ']'] + text + [BEL] + rest;
    var n := 3 + |text|;
    assert s[2..] == text + ([BEL] + rest) && s[n - 1] == BEL && s[n..] == rest;
    WhileStops(text, OSC_TEXT, [BEL] + rest);
    assert CsiLen(s) == 0;
    hide CsiLen;
    assert EscapeLen(s) == n;
    assert !IsSgr(s);
    hide EscapeLen;
    assert "" + Sanitized(rest) == Sanitized(rest);
  }

  /** An OSC string may also end with `ESC \`; a DCS, PM or APC string ends so. */
  lemma EndedByTerminator(kind: char, text: string, rest: string)
    requires kind == ']' || kind == 'P' || kind == '_' || kind == '^'
    requires All(text, if kind == ']' then OSC_TEXT else STRING_TEXT)
    ensures Sanitized([ESC, kind] + text + [ESC, '\\'] + rest) == Sanitized(rest)
  {
    var s := [ESC, kind] + text + [ESC, '\\'] + rest;
    var n := 4 + |text|;
    assert s[2..] == text + ([ESC, '\\'] + rest) && s[n - 2] == ESC && s[n - 1] == '\\' && s[n..] == rest;
    WhileStops(text, if kind == ']' then OSC_TEXT else STRING_TEXT, [ESC, '\\'] + rest);
    assert CsiLen(s) == 0;
    hide CsiLen;
    assert EscapeLen(s) == n;
    assert !IsSgr(s);
    hide EscapeLen;
    assert "" + Sanitized(rest) == Sanitized(rest);
  }

  /** Choosing a character set disappears too. */
  lemma CharsetChoice(kind: char, set': char, rest: string)
    requires (kind == '(' || kind == ')') && Alnum(set')
    ensures Sanitized([ESC, kind, set'] + rest) == Sanitized(rest)
  {
    var s := [ESC, kind, set'] + rest;
    assert s[3..] == rest && CsiLen(s) == 0 && OscLen(s) == 0 && StringLen(s) == 0;
    assert EscapeLen(s) == 3 && !IsSgr(s);
    hide EscapeLen, CsiLen;
    assert "" + Sanitized(rest) == Sanitized(rest);
  }

  /** An ESC that begins nothing else disappears with the character after it. */
  lemma LoneEscape(c: char, rest: string)
    requires c != '[' && c != ']' && c != 'P' && c != '_' && c != '^' && c != '(' && c != ')' && c != '\n'
    ensures Sanitized([ESC, c] + rest) == Sanitized(rest)
  {
    var s := [ESC, c] + rest;
    assert s[2..] == rest && EscapeLen(s) == 2 && !IsSgr(s);
    hide EscapeLen, CsiLen;
    assert "" + Sanitized(rest) == Sanitized(rest);
  }

  // ---- the row scanner -----------------------------------------------------------------------

  /** The scanner's expression for sequences that take no room. */
  function AnsiLen(s: string): (n: nat)
    ensures n <= |s|
  {
    if |s| >= 2 && s[0] == ESC && s[1] == '[' && 2 + While(s[2..], PLAIN) < |s| && Letter(s[2 + While(s[2..], PLAIN)])
    then 3 + While(s[2..], PLAIN)
    else if CharsetLen(s) > 0 then CharsetLen(s)
    else OscLen(s)
  }

  const TEXT: char -> bool := c => c != ESC && c != '\n'

  /** How far one turn of the scanner's loop advances; nothing at an ESC it cannot match. */
  function TurnLen(s: string): (n: nat)
    requires s != ""
    ensures n <= |s|
  {
    if s[0] == '\n' then 1 else if s[0] == ESC then AnsiLen(s) else While(s, TEXT)
  }

  /** What is left after `turns` turns. */
  function Left(s: string, turns: nat): string
    decreases turns
  {
    if s == "" || turns == 0 then s else Left(s[TurnLen(s)..], turns - 1)
  }

  ghost predicate Terminates(s: string) {
    exists turns: nat :: Left(s, turns) == ""
  }

  predicate Scannable(s: string)
    decreases |s|
  {
    s == "" || (TurnLen(s) > 0 && Scannable(s[TurnLen(s)..]))
  }

  lemma {:induction false} ScannableEnds(s: string) returns (turns: nat)
    requires Scannable(s)
    ensures Left(s, turns) == ""
    decreases |s|
  {
    if s == "" {
      turns := 0;
    } else {
      var rest := ScannableEnds(s[TurnLen(s)..]);
      turns := rest + 1;
    }
  }

  lemma {:induction false} StuckStays(s: string, turns: nat)
    requires !Scannable(s)
    ensures Left(s, turns) != ""
    decreases turns
  {
    if turns > 0 {
      assert TurnLen(s) == 0 ==> s[0..] == s;
      StuckStays(s[TurnLen(s)..], turns - 1);
    }
  }

  /** The scanner's loop ends on exactly the texts each of whose turns advances. */
  lemma ScannerTerminatesIff(s: string)
    ensures Terminates(s) <==> Scannable(s)
  {
    if Scannable(s) {
      var turns := ScannableEnds(s);
    } else {
      forall turns: nat ensures Left(s, turns) != "" {
        StuckStays(s, turns);
      }
    }
  }

  /** Every SGR sequence of a clean text has only digits, `;` and `?` as parameters. */
  predicate PlainParameters(t: string)
    requires Clean(t)
    decreases |t|
  {
    t == "" ||
    if t[0] == ESC
    then CsiLen(t) == 3 + While(t[2..], PLAIN) && PlainParameters(t[CsiLen(t)..])
    else PlainParameters(t[1..])
  }

  lemma OrdinaryStep(t: string)
    requires t != "" && t[0] != ESC
    ensures Scannable(t) <==> Scannable(t[1..])
  {
    if t[0] != '\n' && t[1..] != "" && TEXT(t[1]) {
      assert While(t, TEXT) == 1 + While(t[1..], TEXT);
      assert t[1..][While(t[1..], TEXT)..] == t[While(t, TEXT)..];
    }
  }

  lemma SgrStep(t: string)
    requires Clean(t) && t != "" && t[0] == ESC
    ensures AnsiLen(t) > 0 <==> CsiLen(t) == 3 + While(t[2..], PLAIN)
    ensures AnsiLen(t) > 0 ==> AnsiLen(t) == CsiLen(t)
  {
    var f := CsiLen(t) - 1;
    var q := 2 + While(t[2..], PLAIN);
    WhileWithin(t[2..], PLAIN, PARAMETER);
    assert t[1] == '[' && t[f] == 'm';
    assert q <= f by {
      assert t[2..][f - 2] == 'm' && !PLAIN(t[2..][f - 2]);
    }
    if q < f {
      var p := 2 + While(t[2..], PARAMETER);
      if q < p {
        assert PARAMETER(t[2..][q - 2]);
      } else if q < f {
        assert INTERMEDIATE(t[p..][q - p]);
      }
      assert t[q] == t[2..][q - 2];
      assert !Letter(t[q]);
    }
  }

  lemma WhileWithin(s: string, narrow: char -> bool, wide: char -> bool)
    requires forall c :: narrow(c) ==> wide(c)
    ensures While(s, narrow) <= While(s, wide)
  {
    var n := While(s, wide);
    if n < |s| {
      assert !wide(s[n]) && !narrow(s[n]);
    }
  }

  /**
   * On filtered text the scanner's loop ends if and only if every SGR sequence
   * has plain parameters; the filter itself lets others through.
   */
  lemma {:induction false} ScannerOnCleanText(t: string)
    requires Clean(t)
    ensures Terminates(t) <==> PlainParameters(t)
    decreases |t|
  {
    ScannerTerminatesIff(t);
    if t != "" {
      if t[0] == ESC {
        SgrStep(t);
        ScannerTerminatesIff(t[CsiLen(t)..]);
        ScannerOnCleanText(t[CsiLen(t)..]);
      } else {
        OrdinaryStep(t);
        ScannerTerminatesIff(t[1..]);
        ScannerOnCleanText(t[1..]);
      }
    }
  }

  /** `ESC[4:3m` passes the filter and stops the scanner for good. */
  lemma ColonParametersHangTheScanner()
    ensures Sanitized([ESC, '[', '4', ':', '3', 'm']) == [ESC, '[', '4', ':', '3', 'm']
    ensures !Terminates([ESC, '[', '4', ':', '3', 'm'])
  {
    var s := [ESC, '[', '4', ':', '3', 'm'];
    assert s[2..] == ['4', ':', '3', 'm'] && s[5..] == ['m'];
    WhileIs(s[2..], PARAMETER, 3);
    WhileIs(s[5..], INTERMEDIATE, 0);
    CsiFrom(s, 5, 5);
    WhileIs(s[2..], PLAIN, 1);
    hide CsiLen, EscapeLen;
    assert s[6..] == "" && IsSgr(s) && Clean(s);
    SanitizingIsIdempotent(s);
    ScannerOnCleanText(s);
    hide Sanitized, Terminates;
    assert !PlainParameters(s);
  }

  // ---- tokens ----------------------------------------------------------------------------------

  datatype Token = NewLine | Escape(code: string) | Run(text: string)

  function Spelling(t: Token): string {
    match t
    case NewLine => "\n"
    case Escape(s) => s
    case Run(s) => s
  }

  function Spellings(ts: seq<Token>): string {
    if ts == [] then "" else Spellings(ts[..|ts| - 1]) + Spelling(ts[|ts| - 1])
  }

  function TokenAt(rest: string): Token
    requires rest != ""
  {
    if rest[0] == '\n' then NewLine
    else if rest[0] == ESC then Escape(rest[..TurnLen(rest)])
    else Run(rest[..TurnLen(rest)])
  }

  /** A run holds neither line breaks nor escapes. */
  predicate WellSorted(t: Token) {
    t.Run? ==> forall i | 0 <= i < |t.text| :: TEXT(t.text[i])
  }

  lemma TokenIsFront(rest: string)
    requires rest != ""
    ensures Spelling(TokenAt(rest)) == rest[..TurnLen(rest)] && WellSorted(TokenAt(rest))
  {
    hide AnsiLen;
    assert rest[0] == '\n' ==> rest[..1] == "\n";
  }

  /** The walk of the scanner: it loses nothing and ends where it may. */
  method Scan(text: string) returns (tokens: seq<Token>)
    requires Scannable(text)
    ensures Spellings(tokens) == text
    ensures forall t | t in tokens :: WellSorted(t)
  {
    hide TurnLen, TokenAt, WellSorted, Spelling;
    tokens := [];
    var i := 0;
    while i < |text|
      invariant 0 <= i <= |text| && Scannable(text[i..])
      invariant Spellings(tokens) == text[..i]
      invariant forall t | t in tokens :: WellSorted(t)
      decreases |text| - i
    {
      var rest := text[i..];
      var n := TurnLen(rest);
      TokenIsFront(rest);
      var token := TokenAt(rest);
      assert (tokens + [token])[..|tokens|] == tokens;
      assert rest[n..] == text[i + n..] && text[..i] + rest[..n] == text[..i + n];
      tokens := tokens + [token];
      i := i + n;
    }
    assert text[..|text|] == text;
  }
}
