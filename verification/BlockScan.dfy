/**
 * Wrapping a stored stream anew: the scanner is run on each stored block by
 * itself, so what it makes of the text depends on where the blocks end.
 */
module BlockScan {
  import opened Prelude
  import opened ChunkedTexts
  import opened Sanitize
  import StreamRows
  import Rendition

  // ---- where a text may be cut -----------------------------------------------------------

  /** Position `i` is strictly inside an escape sequence that the scanner takes in one turn. */
  predicate Inside(t: string, i: nat)
    decreases |t|
  {
    t != "" && TurnLen(t) > 0 &&
    if i < TurnLen(t) then 0 < i && t[0] == ESC else Inside(t[TurnLen(t)..], i - TurnLen(t))
  }

  /** Position `i` is strictly inside an SGR sequence. */
  ghost predicate InsideSgr(t: string, i: nat) {
    exists k | 0 <= k < i && k <= |t| :: IsSgr(t[k..]) && i < k + CsiLen(t[k..])
  }

  lemma WhileOfPrefix(s: string, ok: char -> bool, m: nat)
    requires m <= |s|
    ensures While(s[..m], ok) == Min(m, While(s, ok))
  {
    WhileIs(s[..m], ok, Min(m, While(s, ok)));
  }

  lemma WhileOfSuffix(s: string, ok: char -> bool, m: nat)
    requires m <= While(s, ok)
    ensures While(s[m..], ok) == While(s, ok) - m
  {
    WhileIs(s[m..], ok, While(s, ok) - m);
  }

  lemma ControlOfPrefix(s: string, m: nat)
    requires AnsiLen(s) > 0 && 2 <= m <= |s| && s[1] == '['
    ensures AnsiLen(s[..m]) == if m < AnsiLen(s) then 0 else AnsiLen(s)
  {
    hide OscLen, CharsetLen;
    var t := s[..m];
    WhileOfPrefix(s[2..], Sanitize.PLAIN, m - 2);
    assert t[0] == s[0] && t[1] == s[1] && t[2..] == s[2..][..m - 2];
    OnlyOneKind(s);
    OnlyOneKind(t);
    var p := 2 + While(s[2..], Sanitize.PLAIN);
    assert p < m ==> t[p] == s[p];
  }

  lemma OtherOfPrefix(s: string, m: nat)
    requires AnsiLen(s) > 0 && 2 <= m <= |s| && s[1] != '['
    ensures AnsiLen(s[..m]) == if m < AnsiLen(s) then 0 else AnsiLen(s)
  {
    var t := s[..m];
    WhileOfPrefix(s[2..], OSC_TEXT, m - 2);
    assert t[0] == s[0] && t[1] == s[1] && t[2..] == s[2..][..m - 2];
    assert m > 2 ==> t[2] == s[2];
  }

  lemma OnlyOneKind(s: string)
    requires |s| >= 2 && s[1] == '['
    ensures CharsetLen(s) == 0 && OscLen(s) == 0
  {
  }

  /** A sequence is recognised as soon as all of it is there, and not before. */
  lemma AnsiOfPrefix(s: string, m: nat)
    requires AnsiLen(s) > 0 && m <= |s|
    ensures AnsiLen(s[..m]) == if m < AnsiLen(s) then 0 else AnsiLen(s)
  {
    if m >= 2 {
      hide AnsiLen;
      if s[1] == '[' {
        ControlOfPrefix(s, m);
      } else {
        OtherOfPrefix(s, m);
      }
    }
  }

  lemma TextTurn(t: string, i: nat)
    requires t != "" && t[0] != ESC && 0 < i < TurnLen(t)
    ensures TurnLen(t[..i]) == i && TurnLen(t[i..]) == TurnLen(t) - i && t[0] != '\n' && t[i] != ESC && t[i] != '\n'
    ensures t[..i][i..] == "" && t[i..][TurnLen(t) - i..] == t[TurnLen(t)..]
  {
    WhileOfPrefix(t, TEXT, i);
    WhileOfSuffix(t, TEXT, i);
    assert TEXT(t[i]);
  }

  lemma WholeTurn(t: string, i: nat)
    requires t != "" && 0 < TurnLen(t) <= i <= |t|
    ensures var n := TurnLen(t);
            TurnLen(t[..i]) == n && t[..i][n..] == t[n..][..i - n] && t[i..] == t[n..][i - n..]
  {
    if t[0] == ESC {
      AnsiOfPrefix(t, i);
    } else if t[0] != '\n' {
      WhileOfPrefix(t, TEXT, i);
    }
  }

  /**
   * Cutting a text that the scanner can walk: it can walk the first part if and
   * only if the cut is not inside a sequence, and then the rest as it stands.
   */
  lemma {:induction false} CutScans(t: string, i: nat)
    requires Scannable(t) && i <= |t|
    ensures Scannable(t[..i]) <==> !Inside(t, i)
    ensures !Inside(t, i) ==> Scannable(t[i..]) && forall j | i <= j <= |t| :: Inside(t, j) <==> Inside(t[i..], j - i)
    decreases |t|
  {
    hide AnsiLen;
    if i == 0 {
      assert t[..i] == "" && t[i..] == t;
    } else {
      var n := TurnLen(t);
      if n <= i {
        WholeTurn(t, i);
        CutScans(t[n..], i - n);
        hide TurnLen;
        forall j | i <= j <= |t| && !Inside(t, i) ensures Inside(t, j) <==> Inside(t[i..], j - i) {
          assert Inside(t, j) <==> Inside(t[n..], j - n);
          assert j - n - (i - n) == j - i;
        }
      } else if t[0] == ESC {
        AnsiOfPrefix(t, i);
        assert TurnLen(t[..i]) == 0;
      } else {
        TextTurn(t, i);
        hide TurnLen;
        forall j | i <= j <= |t| ensures Inside(t, j) <==> Inside(t[i..], j - i) {
          if j >= n {
            assert j - i - (n - i) == j - n;
          }
        }
      }
    }
  }

  // ---- blocks ------------------------------------------------------------------------------

  /** The scanner ends on every block if and only if no block ends inside a sequence. */
  lemma {:induction false} BlocksScanIff(blocks: seq<string>)
    requires Scannable(Flatten(blocks))
    ensures (forall b | b in blocks :: Scannable(b))
       <==> forall k | 0 <= k <= |blocks| :: !Inside(Flatten(blocks), |Flatten(blocks[..k])|)
  {
    hide Scannable, Inside;
    var t := Flatten(blocks);
    if blocks == [] {
      assert !Inside("", 0) by { NowhereInEmpty(0); }
    } else {
      var b, rest := blocks[0], blocks[1..];
      assert t[..|b|] == b && t[|b|..] == Flatten(rest);
      CutScans(t, |b|);
      assert blocks[..1] == [b];
      FlattenOne(b);
      if !Inside(t, |b|) {
        BlocksScanIff(rest);
        NotAtStart(t);
        assert forall x :: x in blocks <==> x == b || x in rest;
        forall k | 1 <= k <= |blocks|
          ensures Inside(t, |Flatten(blocks[..k])|) <==> Inside(Flatten(rest), |Flatten(rest[..k - 1])|)
        {
          BoundaryAfter(blocks, k);
        }
        if forall k | 0 <= k <= |blocks| :: !Inside(t, |Flatten(blocks[..k])|) {
          forall k | 0 <= k <= |rest| ensures !Inside(Flatten(rest), |Flatten(rest[..k])|) {
            assert !Inside(t, |Flatten(blocks[..k + 1])|);
          }
        }
      }
    }
  }

  lemma NowhereInEmpty(i: nat)
    ensures !Inside("", i)
  {
  }

  lemma NotAtStart(t: string)
    ensures !Inside(t, 0)
  {
  }

  lemma BoundaryAfter(blocks: seq<string>, k: nat)
    requires 1 <= k <= |blocks|
    ensures |Flatten(blocks[..k])| == |blocks[0]| + |Flatten(blocks[1..][..k - 1])| <= |Flatten(blocks)|
  {
    assert blocks[..k] == [blocks[0]] + blocks[1..][..k - 1];
    assert blocks == blocks[..k] + blocks[k..];
    FlattenAppend(blocks[..k], blocks[k..]);
  }

  // ---- what that means for filtered text ------------------------------------------------------

  lemma CleanScans(t: string)
    requires Clean(t) && PlainParameters(t)
    ensures Scannable(t)
  {
    ScannerOnCleanText(t);
    ScannerTerminatesIff(t);
  }

  /** The scanner takes an SGR sequence of filtered text in one turn. */
  lemma SgrTurn(t: string, i: nat)
    requires Clean(t) && PlainParameters(t) && t != "" && t[0] == ESC
    ensures var n := CsiLen(t);
            && IsSgr(t) && 0 < n <= |t| && Clean(t[n..]) && PlainParameters(t[n..])
            && (Inside(t, i) <==> if i < n then 0 < i else Inside(t[n..], i - n))
            && forall k | 0 < k < n :: t[k] != ESC
  {
    SgrStep(t);
    hide AnsiLen, IsSgr;
    var n := CsiLen(t);
    forall k | 0 < k < n ensures t[k] != ESC {
      if 2 <= k < n - 1 {
        assert t[k] == t[2..][k - 2] && Sanitize.PLAIN(t[2..][k - 2]);
      }
    }
  }

  /** In filtered text the scanner's sequences are the SGR sequences, wherever one begins. */
  lemma {:induction false} InsideIsInsideSgr(t: string, i: nat)
    requires Clean(t) && PlainParameters(t) && i <= |t|
    ensures Inside(t, i) <==> InsideSgr(t, i)
    decreases |t|
  {
    hide CsiLen, AnsiLen, IsSgr;
    if t != "" && t[0] == ESC {
      SgrTurn(t, i);
      hide Clean, PlainParameters, Inside, InsideSgr;
      LaterSgr(t, CsiLen(t), i);
      if i >= CsiLen(t) {
        InsideIsInsideSgr(t[CsiLen(t)..], i - CsiLen(t));
      }
    } else if t != "" {
      assert Clean(t[1..]) && PlainParameters(t[1..]);
      hide Clean, PlainParameters, Inside, InsideSgr;
      OneTurnIsOneStep(t, i);
      LaterSgr(t, 1, i);
      if i >= 1 {
        InsideIsInsideSgr(t[1..], i - 1);
      }
    }
  }

  /** An SGR sequence that does not begin in the first `n` characters begins after them. */
  lemma LaterSgr(t: string, n: nat, i: nat)
    requires 0 < n <= |t| && i <= |t|
    requires forall k | 0 < k < n :: t[k] != ESC
    ensures InsideSgr(t, i) <==>
              || (0 < i && IsSgr(t) && i < CsiLen(t))
              || (n <= i && InsideSgr(t[n..], i - n))
  {
    hide CsiLen;
    assert t[0..] == t;
    if k: nat :| k < i && k <= |t| && IsSgr(t[k..]) && i < k + CsiLen(t[k..]) {
      CsiBegins(t[k..]);
      if k >= n {
        assert t[n..][k - n..] == t[k..];
      }
    }
    if n <= i && InsideSgr(t[n..], i - n) {
      var k: nat :| k < i - n && k <= |t[n..]| && IsSgr(t[n..][k..]) && i - n < k + CsiLen(t[n..][k..]);
      assert t[n..][k..] == t[n + k..];
    }
  }

  lemma OneTurnIsOneStep(t: string, i: nat)
    requires t != "" && t[0] != ESC
    ensures Inside(t, i) <==> 1 <= i && Inside(t[1..], i - 1)
    ensures !IsSgr(t)
  {
    hide AnsiLen;
    assert !IsSgr(t) by {
      if CsiLen(t) > 0 {
        CsiBegins(t);
      }
    }
    hide CsiLen;
    var n := TurnLen(t);
    if t[0] != '\n' && 1 < n {
      WhileOfSuffix(t, TEXT, 1);
      assert TEXT(t[1]);
      assert t[1..][n - 1..] == t[n..] && TurnLen(t[1..]) == n - 1;
      hide TurnLen;
      assert n <= i ==> i - 1 - (n - 1) == i - n;
    }
  }

  lemma {:induction false} BlockEnds(blocks: seq<string>, size: nat, k: nat)
    requires Canonical(blocks, size) && k <= |blocks|
    ensures |Flatten(blocks[..k])| == if k < |blocks| then k * size else |Flatten(blocks)|
    decreases k
  {
    if k == |blocks| {
      assert blocks[..k] == blocks;
    } else if k > 0 {
      assert blocks[..k] == blocks[..k - 1] + [blocks[k - 1]];
      FlattenSnoc(blocks[..k - 1], blocks[k - 1]);
      BlockEnds(blocks, size, k - 1);
    }
  }

  /** The boundary before block `k` falls strictly inside an SGR sequence. */
  ghost predicate Cuts(t: string, size: nat, k: nat) {
    InsideSgr(t, k * size)
  }

  lemma BoundaryIs(blocks: seq<string>, size: nat, k: nat)
    requires Canonical(blocks, size) && k <= |blocks|
    requires Clean(Flatten(blocks)) && PlainParameters(Flatten(blocks))
    ensures Inside(Flatten(blocks), |Flatten(blocks[..k])|) <==> k < |blocks| && Cuts(Flatten(blocks), size, k)
  {
    hide Inside, InsideSgr, Clean, PlainParameters, Canonical, Flatten;
    BlockEnds(blocks, size, k);
    if k == |blocks| {
      NowhereAtEnd(Flatten(blocks));
    } else {
      if k > 0 {
        BoundaryAfter(blocks, k);
      }
      InsideIsInsideSgr(Flatten(blocks), |Flatten(blocks[..k])|);
    }
  }

  /**
   * Wrapping a stored stream anew ends if and only if no block boundary falls
   * strictly inside an SGR sequence of the text.  The text is one that the filter
   * lets through and the scanner can walk as a whole.
   */
  lemma RewrapEndsIff(buffer: ChunkedText<char>)
    requires buffer.Valid() && Clean(buffer.Text()) && PlainParameters(buffer.Text())
    ensures Terminates(buffer.Text())
    ensures (forall b | b in buffer.blocks :: Terminates(b))
       <==> forall k: nat | k < |buffer.blocks| :: !Cuts(buffer.Text(), buffer.blockSize, k)
  {
    hide Scannable, Terminates, Inside, Cuts, Clean, PlainParameters, Canonical, Flatten;
    var t, blocks, size := buffer.Text(), buffer.blocks, buffer.blockSize;
    CleanScans(t);
    ScannerTerminatesIff(t);
    forall b | b in blocks ensures Terminates(b) <==> Scannable(b) {
      ScannerTerminatesIff(b);
    }
    BlocksScanIff(blocks);
    forall k: nat | k <= |blocks| ensures Inside(t, |Flatten(blocks[..k])|) <==> k < |blocks| && Cuts(t, size, k) {
      BoundaryIs(blocks, size, k);
    }
    if forall k: nat | k <= |blocks| :: !Inside(t, |Flatten(blocks[..k])|) {
      forall k: nat | k < |blocks| ensures !Cuts(t, size, k) {
        assert !Inside(t, |Flatten(blocks[..k])|);
      }
    }
  }

  lemma {:induction false} NowhereAtEnd(t: string)
    ensures !Inside(t, |t|)
    decreases |t|
  {
    if t != "" && TurnLen(t) > 0 {
      NowhereAtEnd(t[TurnLen(t)..]);
    }
  }

  const RED := [ESC, '[', '3', '1', 'm']

  /** So much text that a block ends between ESC and the rest of the sequence. */
  function Padded(n: nat): string {
    if n == 0 then RED else ['a'] + Padded(n - 1)
  }

  lemma RedIsSgr()
    ensures IsSgr(RED) && CsiLen(RED) == 5 && While(RED[2..], Sanitize.PLAIN) == 2
  {
    WhileIs(RED[2..], PARAMETER, 2);
    WhileIs(RED[4..], INTERMEDIATE, 0);
    WhileIs(RED[2..], Sanitize.PLAIN, 2);
    CsiFrom(RED, 4, 4);
    hide CsiLen;
  }

  lemma {:induction false} PaddedIsClean(n: nat)
    ensures Clean(Padded(n)) && PlainParameters(Padded(n)) && |Padded(n)| == n + 5 && Padded(n)[n..] == RED
    decreases n
  {
    RedIsSgr();
    hide CsiLen, IsSgr;
    if n == 0 {
      assert RED[5..] == "" && RED[0..] == RED;
    } else {
      PaddedIsClean(n - 1);
      assert Padded(n)[1..] == Padded(n - 1);
      assert Padded(n)[n..] == Padded(n - 1)[n - 1..];
    }
  }

  /**
   * For every block size there is a filtered text, which the scanner walks to its
   * end, and on one of whose blocks it does not.
   */
  lemma CutSequenceHangs(buffer: ChunkedText<char>)
    requires buffer.Valid() && buffer.Text() == Padded(buffer.blockSize - 1)
    ensures Sanitized(buffer.Text()) == buffer.Text() && Terminates(buffer.Text())
    ensures exists b :: b in buffer.blocks && !Terminates(b)
  {
    hide Sanitized, Clean, PlainParameters, Terminates, IsSgr, CsiLen, Padded;
    var t, size := buffer.Text(), buffer.blockSize;
    PaddedIsClean(size - 1);
    RedIsSgr();
    SanitizingIsIdempotent(t);
    RewrapEndsIff(buffer);
    assert InsideSgr(t, size);
    assert Cuts(t, size, 1);
    BlockEnds(buffer.blocks, size, |buffer.blocks|);
  }

  // ---- what the blocks are read as ------------------------------------------------------------

  /** A field of digits as a number, 0 if it is empty, and -1 if it has anything else. */
  function Number(field: string): int {
    if field == "" then 0
    else
      var n := |field| - 1;
      var most := Number(field[..n]);
      if most < 0 || !Between(field[n], '0', '9') then -1 else 10 * most + (field[n] - '0') as int
  }

  const FIELD: char -> bool := c => c != ';'

  function Fields(s: string): StreamRows.Params
    decreases |s|
  {
    var n := While(s, FIELD);
    [Number(s[..n])] + if n < |s| then Fields(s[n + 1..]) else []
  }

  /** The parameters of a sequence that is an SGR sequence. */
  function ParamsOf(code: string): StreamRows.Params {
    if |code| <= 3 then [] else Fields(code[2..|code| - 1])
  }

  /** Fields are separated by semicolons. */
  lemma FieldsSplit(field: string, rest: string)
    requires ';' !in field
    ensures Fields(field) == [Number(field)]
    ensures Fields(field + ";" + rest) == [Number(field)] + Fields(rest)
  {
    WhileIs(field, FIELD, |field|);
    assert field[..|field|] == field;
    var all := field + ";" + rest;
    WhileIs(all, FIELD, |field|);
    assert all[..|field|] == field && all[|field| + 1..] == rest;
  }

  lemma NumberSnoc(field: string, d: nat)
    requires d < 10 && Number(field) >= 0
    ensures Number(field + ['0' + d as char]) == 10 * Number(field) + d
  {
    var c := '0' + d as char;
    assert (field + [c])[..|field|] == field;
  }

  lemma ParamsAre(body: string)
    requires body != ""
    ensures ParamsOf([ESC, '['] + body + ['m']) == Fields(body)
  {
    var code := [ESC, '['] + body + ['m'];
    assert code[2..|code| - 1] == body;
    hide Fields;
  }

  function Joined(fields: seq<string>): string
    requires fields != []
  {
    if |fields| == 1 then fields[0] else fields[0] + ";" + Joined(fields[1..])
  }

  /** The parameters of fields put together are the fields' numbers, in order. */
  lemma {:induction false} FieldsJoined(fields: seq<string>)
    requires fields != [] && forall f | f in fields :: ';' !in f
    ensures |Fields(Joined(fields))| == |fields|
    ensures forall i | 0 <= i < |fields| :: Fields(Joined(fields))[i] == Number(fields[i])
    decreases fields
  {
    hide Fields, Number;
    if |fields| == 1 {
      FieldsSplit(fields[0], "");
    } else {
      FieldsJoined(fields[1..]);
      FieldsSplit(fields[0], Joined(fields[1..]));
    }
  }

  lemma JoinedIsNotEmpty(fields: seq<string>)
    requires fields != [] && fields[0] != ""
    ensures Joined(fields) != ""
  {
  }

  /** The theme's assistant style as it stands in the text. */
  lemma ThemeColourIsRead()
    ensures ParamsOf([ESC, '['] + Joined(["1", "38", "2", "0", "245", "255"]) + ['m']) == Rendition.CYBERPUNK
  {
    var fields := ["1", "38", "2", "0", "245", "255"];
    JoinedIsNotEmpty(fields);
    hide Fields, Number, ParamsOf, Joined;
    NumbersRead();
    FieldsJoined(fields);
    ParamsAre(Joined(fields));
  }

  lemma NumbersRead()
    ensures Number("1") == 1 && Number("38") == 38 && Number("2") == 2 && Number("0") == 0
    ensures Number("245") == 245 && Number("255") == 255
  {
    assert Number("") == 0;
    hide Number;
    NumberSnoc("", 0);
    NumberSnoc("", 1);
    NumberSnoc("", 2);
    NumberSnoc("", 3);
    NumberSnoc("3", 8);
    NumberSnoc("2", 4);
    NumberSnoc("24", 5);
    NumberSnoc("2", 5);
    NumberSnoc("25", 5);
    assert "" + "0" == "0" && "" + "1" == "1" && "" + "2" == "2" && "" + "3" == "3" && "3" + "8" == "38";
    assert "2" + "4" == "24" && "24" + "5" == "245" && "2" + "5" == "25" && "25" + "5" == "255";
  }

  /** How a run of text falls into clusters, and what stands for a sequence that is no SGR. */
  datatype Reader = Reader(clusters: string -> seq<StreamRows.Tok>, other: string -> StreamRows.Tok)

  /** What one turn of the scanner reads. */
  function Turn(r: Reader, t: string, n: nat): seq<StreamRows.Tok>
    requires t != "" && n <= |t|
  {
    if t[0] == '\n' then [StreamRows.Break]
    else if t[0] != ESC then r.clusters(t[..n])
    else if IsSgr(t[..n]) then [StreamRows.Sgr(ParamsOf(t[..n]))]
    else [r.other(t[..n])]
  }

  function Read(r: Reader, t: string): seq<StreamRows.Tok>
    decreases |t|
  {
    if t == "" || TurnLen(t) == 0 then []
    else
      Turn(r, t, TurnLen(t)) + Read(r, t[TurnLen(t)..])
  }

  // ---- what is read, part by part

  /** An SGR sequence with plain parameters is read as its parameters. */
  lemma SgrIsRead(r: Reader, body: string, rest: string)
    requires All(body, Sanitize.PLAIN)
    ensures var code := [ESC, '['] + body + ['m'];
            Read(r, code + rest) == [StreamRows.Sgr(ParamsOf(code))] + Read(r, rest)
  {
    var code := [ESC, '['] + body + ['m'];
    var t := code + rest;
    var tail := ['m'] + rest;
    assert t[2..] == body + tail && t[..|code|] == code && t[|code|..] == rest && t[|code| - 1] == 'm';
    WhileStops(body, Sanitize.PLAIN, tail);
    assert TurnLen(t) == |code|;
    CodeIsSgr(body);
    hide TurnLen, Read, ParamsOf;
    ReadTurn(r, t);
  }

  lemma CodeIsSgr(body: string)
    requires All(body, Sanitize.PLAIN)
    ensures IsSgr([ESC, '['] + body + ['m'])
  {
    ParsesAs(body, "", ['m']);
    assert [ESC, '['] + body + "" + ['m'] == [ESC, '['] + body + ['m'];
    hide CsiLen;
  }

  /** A run of text up to a break or an escape is read as its clusters, and a break as a break. */
  lemma RunIsRead(r: Reader, run: string, rest: string)
    requires run != "" && All(run, TEXT) && (rest == "" || !TEXT(rest[0]))
    ensures Read(r, run + rest) == r.clusters(run) + Read(r, rest)
    ensures Read(r, "\n" + rest) == [StreamRows.Break] + Read(r, rest)
  {
    var t := run + rest;
    WhileStops(run, TEXT, rest);
    assert t[0] == run[0] && TEXT(run[0]);
    assert TurnLen(t) == |run| && t[..|run|] == run && t[|run|..] == rest;
    assert TurnLen("\n" + rest) == 1 && ("\n" + rest)[1..] == rest;
    hide TurnLen, Read;
    ReadTurn(r, t);
    ReadTurn(r, "\n" + rest);
  }

  function ReadAll(r: Reader, blocks: seq<string>): seq<seq<StreamRows.Tok>> {
    if blocks == [] then [] else [Read(r, blocks[0])] + ReadAll(r, blocks[1..])
  }

  /** Cutting at `i` changes the clusters of the run it falls into. */
  predicate CutsCluster(r: Reader, t: string, i: nat)
    requires i <= |t|
    decreases |t|
  {
    t != "" && TurnLen(t) > 0 &&
    var n := TurnLen(t);
    if i < n then 0 < i && t[0] != ESC && r.clusters(t[..n]) != r.clusters(t[..i]) + r.clusters(t[i..n])
    else CutsCluster(r, t[n..], i - n)
  }

  /** Each block ends between two clusters of what it begins. */
  predicate KeepsClusters(r: Reader, blocks: seq<string>) {
    blocks != [] ==> !CutsCluster(r, Flatten(blocks), |blocks[0]|) && KeepsClusters(r, blocks[1..])
  }

  lemma ReadTurn(r: Reader, t: string)
    requires t != "" && TurnLen(t) > 0
    ensures Read(r, t) == Turn(r, t, TurnLen(t)) + Read(r, t[TurnLen(t)..])
  {
  }

  lemma ConcatIff<T>(a: seq<T>, b: seq<T>, c: seq<T>)
    ensures a + c == b + c <==> a == b
    ensures c + a == c + b <==> a == b
  {
    if a + c == b + c {
      assert |a| == |b|;
      assert a == (a + c)[..|a|] && b == (b + c)[..|b|];
    }
    if c + a == c + b {
      assert a == (c + a)[|c|..] && b == (c + b)[|c|..];
    }
  }

  lemma CutRun(r: Reader, t: string, i: nat)
    requires t != "" && t[0] != ESC && 0 < i < TurnLen(t)
    ensures Read(r, t) == Read(r, t[..i]) + Read(r, t[i..])
       <==> r.clusters(t[..TurnLen(t)]) == r.clusters(t[..i]) + r.clusters(t[i..TurnLen(t)])
  {
    hide TurnLen, Read, Turn;
    var n := TurnLen(t);
    TextTurn(t, i);
    ReadRun(r, t);
    ReadRun(r, t[..i]);
    ReadRun(r, t[i..]);
    NothingRead(r);
    assert t[i..][..n - i] == t[i..n] && t[..i][..i] == t[..i] && t[..i][0] == t[0] && t[i..][0] == t[i];
    Assoc(r.clusters(t[..i]), r.clusters(t[i..n]), Read(r, t[n..]));
    assert r.clusters(t[..i]) + [] == r.clusters(t[..i]);
    ConcatIff(r.clusters(t[..n]), r.clusters(t[..i]) + r.clusters(t[i..n]), Read(r, t[n..]));
  }

  lemma ReadRun(r: Reader, t: string)
    requires t != "" && TurnLen(t) > 0 && t[0] != ESC && t[0] != '\n'
    ensures Read(r, t) == r.clusters(t[..TurnLen(t)]) + Read(r, t[TurnLen(t)..])
  {
    ReadTurn(r, t);
  }

  /**
   * A cut outside the escape sequences: the two parts read as the whole does if and
   * only if the cut is between clusters.
   */
  lemma {:induction false} CutReadsIff(r: Reader, t: string, i: nat)
    requires Scannable(t) && i <= |t| && !Inside(t, i)
    ensures Read(r, t) == Read(r, t[..i]) + Read(r, t[i..]) <==> !CutsCluster(r, t, i)
    decreases |t|
  {
    if i == 0 {
      assert t[..i] == "" && t[i..] == t;
      NothingRead(r);
    } else {
      var n := TurnLen(t);
      hide TurnLen, Read, Turn;
      if n <= i {
        WholeTurn(t, i);
        CutReadsIff(r, t[n..], i - n);
        CutLater(r, t, i);
      } else {
        CutRun(r, t, i);
      }
    }
  }

  /** A cut after the first turn. */
  lemma CutLater(r: Reader, t: string, i: nat)
    requires t != "" && 0 < TurnLen(t) <= i <= |t|
    ensures var n := TurnLen(t);
            Read(r, t) == Read(r, t[..i]) + Read(r, t[i..])
            <==> Read(r, t[n..]) == Read(r, t[n..][..i - n]) + Read(r, t[n..][i - n..])
  {
    hide TurnLen, Read, Turn;
    var n := TurnLen(t);
    WholeTurn(t, i);
    ReadTurn(r, t);
    ReadTurn(r, t[..i]);
    assert t[..i][..n] == t[..n];
    SameTurn(r, t, t[..i], n);
    Assoc(Turn(r, t, n), Read(r, t[n..][..i - n]), Read(r, t[i..]));
    ConcatIff(Read(r, t[n..]), Read(r, t[n..][..i - n]) + Read(r, t[i..]), Turn(r, t, n));
  }

  lemma SameTurn(r: Reader, t: string, u: string, n: nat)
    requires 0 < n <= |t| && n <= |u| && t[..n] == u[..n]
    ensures Turn(r, t, n) == Turn(r, u, n)
  {
    assert t[0] == t[..n][0] && u[0] == u[..n][0];
  }

  /** Blocks that cut neither sequences nor clusters read as the whole text. */
  lemma {:induction false} BlocksReadWhole(r: Reader, blocks: seq<string>)
    requires Scannable(Flatten(blocks)) && (forall b | b in blocks :: Scannable(b)) && KeepsClusters(r, blocks)
    ensures Flatten(ReadAll(r, blocks)) == Read(r, Flatten(blocks))
  {
    hide Scannable, Inside, Read, CutsCluster;
    if blocks == [] {
      assert Read(r, "") == [] by { NothingRead(r); }
    } else {
      var t, b, rest := Flatten(blocks), blocks[0], blocks[1..];
      assert t[..|b|] == b && t[|b|..] == Flatten(rest);
      CutScans(t, |b|);
      CutReadsIff(r, t, |b|);
      BlocksReadWhole(r, rest);
      assert ReadAll(r, blocks)[1..] == ReadAll(r, rest);
    }
  }

  lemma NothingRead(r: Reader)
    ensures Read(r, "") == []
  {
  }

  /**
   * Wrapping a stored stream anew, block by block, gives the state of wrapping the
   * whole text at once, if no boundary cuts an SGR sequence or a cluster.
   */
  lemma RewrapIsWhole(buffer: ChunkedText<char>, r: Reader, w: nat)
    requires buffer.Valid() && Clean(buffer.Text()) && PlainParameters(buffer.Text())
    requires forall k: nat | k < |buffer.blocks| :: !Cuts(buffer.Text(), buffer.blockSize, k)
    requires KeepsClusters(r, buffer.blocks)
    ensures StreamRows.FeedAll(StreamRows.FRESH, ReadAll(r, buffer.blocks), w)
         == StreamRows.Feed(StreamRows.FRESH, Read(r, buffer.Text()), w)
  {
    hide Scannable, Terminates, Cuts, Clean, PlainParameters, Read, ReadAll, KeepsClusters, Canonical;
    RewrapEndsIff(buffer);
    CleanScans(buffer.Text());
    forall b | b in buffer.blocks ensures Scannable(b) {
      ScannerTerminatesIff(b);
    }
    BlocksReadWhole(r, buffer.blocks);
    StreamRows.FeedChunks(StreamRows.FRESH, ReadAll(r, buffer.blocks), w);
  }
}
