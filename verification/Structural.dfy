/** The Tier-2 check: every line of the compressed text is a line of the raw text, a recognised
    marker, or blank. It is defined against the interpreter's output, and the interpreter passes it. */
module Structural {
  import opened Text
  import opened Rules
  import opened Interpreter
  import opened RuleLaws

  datatype StructuralResult = StructuralResult(
    passed: bool, linesInRaw: nat, linesInCompressed: nat, inventedLines: seq<string>)

  predicate IsPlaceholder(line: string) { Recognised(TrimStart(line)) }

  /** A line is recognised when, past its leading white space, it begins in one of four ways. */
  lemma PlaceholderIff(line: string)
    ensures IsPlaceholder(line) <==>
      exists i, p :: p in ["[... ", "[nid:", "[REDACTED:", "--- [nid:"] && BeginsAt(line, i, p)
  {
    var ps := ["[... ", "[nid:", "[REDACTED:", "--- [nid:"];
    assert ps[0] in ps && ps[1] in ps && ps[2] in ps && ps[3] in ps;
    var w := FindChar(line, c => !IsWhitespace(c));
    assert TrimStart(line) == line[w..];
    if i, p :| p in ps && BeginsAt(line, i, p) {
      assert line[i] == line[i..][0] && line[i] == p[0] && !IsWhitespace(line[i]);
      assert i == w && (p == ps[0] || p == ps[1] || p == ps[2] || p == ps[3]);
    }
    if IsPlaceholder(line) {
      var k :| 0 <= k < 4 && ps[k] <= line[w..];
      assert ps[k] in ps && BeginsAt(line, w, ps[k]);
    }
  }

  /** The text stands in the line at `i`, and only white space before it. */
  ghost predicate BeginsAt(line: string, i: int, p: string) {
    0 <= i <= |line| && p <= line[i..] && forall j :: 0 <= j < i ==> IsWhitespace(line[j])
  }

  /** A line the check never questions. */
  predicate Exempt(line: string) { IsPlaceholder(line) || IsBlank(line) }

  function RawLines(raw: string): set<string> { set l | l in Lines(raw) :: TrimEnd(l) }

  function CompressedLines(compressed: string): seq<string> { MapSeq(Lines(compressed), TrimEnd) }

  /** No compressed line is invented. */
  ghost predicate IsStructuralSubset(raw: string, compressed: string) {
    forall l :: l in Lines(compressed) ==> Exempt(TrimEnd(l)) || exists r :: r in Lines(raw) && TrimEnd(r) == TrimEnd(l)
  }

  function InventedAt(raw: set<string>, lines: seq<string>): nat -> bool {
    (i: nat) => i < |lines| && !Exempt(lines[i]) && lines[i] !in raw
  }

  method StructuralSubsetCheck(raw: string, compressed: string) returns (r: StructuralResult)
    ensures r.passed <==> IsStructuralSubset(raw, compressed)
    ensures var lines := CompressedLines(compressed);
      r.inventedLines == Select(lines, InventedAt(RawLines(raw), lines))
    ensures r.linesInRaw == |RawLines(raw)| && r.linesInCompressed == |Lines(compressed)|
  {
    assert |CompressedLines(compressed)| == |Lines(compressed)|;
    hide IsPlaceholder, IsBlank, Lines, RawLines, CompressedLines, IsStructuralSubset, InventedAt, SelectTo;
    var rawLines := RawLines(raw);
    var lines := CompressedLines(compressed);
    var invented := [];
    assert invented == SelectTo(lines, InventedAt(rawLines, lines), 0) by { InventedNone(rawLines, lines); }
    for i := 0 to |lines|
      invariant invented == SelectTo(lines, InventedAt(rawLines, lines), i)
    {
      var l := lines[i];
      InventedStep(rawLines, lines, i);
      if IsPlaceholder(l) { continue; }
      if IsBlank(l) { continue; }
      if l !in rawLines {
        invented := invented + [l];
      }
    }
    NoneInventedIff(rawLines, lines, |lines|);
    CheckMeaning(raw, compressed);
    r := StructuralResult(invented == [], |rawLines|, |lines|, invented);
  }

  lemma InventedNone(rawLines: set<string>, lines: seq<string>)
    ensures SelectTo(lines, InventedAt(rawLines, lines), 0) == []
  {
  }

  lemma InventedStep(rawLines: set<string>, lines: seq<string>, i: nat)
    requires i < |lines|
    ensures SelectTo(lines, InventedAt(rawLines, lines), i + 1) ==
      if Exempt(lines[i]) || lines[i] in rawLines then SelectTo(lines, InventedAt(rawLines, lines), i)
      else SelectTo(lines, InventedAt(rawLines, lines), i) + [lines[i]]
  {
    hide Exempt;
  }

  lemma {:induction false} NoneInventedIff(rawLines: set<string>, lines: seq<string>, n: nat)
    requires n <= |lines|
    ensures SelectTo(lines, InventedAt(rawLines, lines), n) == [] <==>
      forall j :: 0 <= j < n ==> Exempt(lines[j]) || lines[j] in rawLines
  {
    hide Exempt, InventedAt, SelectTo;
    if n == 0 {
      InventedNone(rawLines, lines);
    } else {
      InventedStep(rawLines, lines, n - 1);
      NoneInventedIff(rawLines, lines, n - 1);
    }
  }

  lemma CheckMeaning(raw: string, compressed: string)
    ensures IsStructuralSubset(raw, compressed) <==>
      forall j :: 0 <= j < |CompressedLines(compressed)| ==>
        Exempt(CompressedLines(compressed)[j]) || CompressedLines(compressed)[j] in RawLines(raw)
  {
    hide Exempt, Lines;
    var lines, out := Lines(compressed), CompressedLines(compressed);
    assert forall j :: 0 <= j < |out| ==> out[j] == TrimEnd(lines[j]) && lines[j] in lines;
  }

  // ---- Markers survive printing ----

  lemma TrimStartIs(s: string, w: nat)
    requires w <= |s| && (w < |s| ==> !IsWhitespace(s[w])) && forall j :: 0 <= j < w ==> IsWhitespace(s[j])
    ensures TrimStart(s) == s[w..]
  {
    FindCharIs(s, c => !IsWhitespace(c), w);
  }

  lemma TrimBothWays(s: string)
    ensures TrimStart(TrimEnd(s)) == TrimEnd(TrimStart(s))
  {
    var w := FindChar(s, c => !IsWhitespace(c));
    TrimStartIs(s, w);
    TrimRest(s, TrimEnd(s), w);
  }

  lemma TrimRest(s: string, t: string, w: nat)
    requires t <= s && (t != "" ==> !IsWhitespace(t[|t| - 1])) && forall j :: |t| <= j < |s| ==> IsWhitespace(s[j])
    requires w <= |s| && (w < |s| ==> !IsWhitespace(s[w])) && forall j :: 0 <= j < w ==> IsWhitespace(s[j])
    ensures TrimStart(t) == TrimEnd(s[w..])
  {
    hide TrimEnd, TrimStart, FindChar, IsWhitespace;
    if w < |s| {
      var n := |t| - w;
      TrimStartIs(t, w);
      assert s[w..][..n] == t[w..];
      TrimEndIs(s[w..], n);
    } else {
      TrimStartIs(t, 0);
      TrimEndIs("", 0);
      assert t == "" && s[w..] == "";
    }
  }

  predicate Recognised(t: string) {
    "[... " <= t || "[nid:" <= t || "[REDACTED:" <= t || "--- [nid:" <= t
  }

  /** Trimming the end of a line decides only one thing: whether the elision prefix, which itself
      ends in a space, is followed by something visible. */
  predicate RecognisedWhole(u: string) {
    ("[... " <= u && !IsBlank(u[5..])) || "[nid:" <= u || "[REDACTED:" <= u || "--- [nid:" <= u
  }

  lemma ElisionTrim(u: string)
    ensures "[... " <= TrimEnd(u) <==> "[... " <= u && !IsBlank(u[5..])
  {
    var v := TrimEnd(u);
    if "[... " <= u {
      assert u[4] == ' ';
      if "[... " <= v {
        assert v[4] == ' ' && |v| > 5;
        assert u[5..][|v| - 6] == v[|v| - 1];
      } else {
        assert |v| <= 4;
        assert forall c :: c in u[5..] ==> IsWhitespace(c);
      }
    }
  }

  lemma RecognisedTrim(u: string)
    ensures Recognised(TrimEnd(u)) <==> RecognisedWhole(u)
  {
    hide TrimEnd, IsBlank;
    ElisionTrim(u);
    PrefixOfTrimmed("[nid:", u, TrimEnd(u));
    PrefixOfTrimmed("[REDACTED:", u, TrimEnd(u));
    PrefixOfTrimmed("--- [nid:", u, TrimEnd(u));
  }

  lemma PlaceholderTrim(s: string)
    ensures IsPlaceholder(TrimEnd(s)) <==> RecognisedWhole(TrimStart(s))
  {
    hide Recognised, RecognisedWhole;
    TrimBothWays(s);
    RecognisedTrim(TrimStart(s));
  }

  /** A prefix that ends in a visible character is unaffected by trimming the end. */
  lemma PrefixOfTrimmed(p: string, u: string, v: string)
    requires p != "" && !IsWhitespace(p[|p| - 1])
    requires v <= u && forall j :: |v| <= j < |u| ==> IsWhitespace(u[j])
    ensures p <= v <==> p <= u
  {
    if p <= u { assert u[|p| - 1] == p[|p| - 1]; }
  }

  /** Characters that substitution neither removes nor introduces. */
  predicate Inert(s: string) { forall i :: 0 <= i < |s| ==> s[i] != '{' && !IsDigit(s[i]) }

  lemma {:induction false} SubstitutePrefix(p: string, t: string, n: nat)
    requires Inert(p)
    ensures p <= Substitute(t, n) <==> p <= t
    ensures p <= t ==> Substitute(t, n)[|p|..] == Substitute(t[|p|..], n)
    decreases |p|
  {
    var out := Substitute(t, n);
    if p == "" {
      assert t[0..] == t && out[0..] == out;
    } else if t != "" {
      if "{count}" <= t {
        assert Decimal(n)[0] in Decimal(n) && out[0] == Decimal(n)[0];
        assert t[0] == '{';
      } else {
        assert out[1..] == Substitute(t[1..], n) && out[0] == t[0];
        SubstitutePrefix(p[1..], t[1..], n);
        PrefixCons(p, t);
        PrefixCons(p, out);
      }
    }
  }

  lemma PrefixCons(p: string, s: string)
    requires p != "" && s != ""
    ensures p <= s <==> p[0] == s[0] && p[1..] <= s[1..]
    ensures p <= s ==> s[1..][|p| - 1..] == s[|p|..]
  {
    if p[0] == s[0] && p[1..] <= s[1..] {
      assert p == [p[0]] + p[1..] && s == [s[0]] + s[1..];
    }
  }

  lemma {:induction false} SubstituteBlank(t: string, n: nat)
    ensures IsBlank(Substitute(t, n)) <==> IsBlank(t)
    ensures NEWLINE in Substitute(t, n) <==> NEWLINE in t
    decreases |t|
  {
    if t != "" {
      if "{count}" <= t {
        var d := Decimal(n);
        assert d[0] in d && d[0] in Substitute(t, n) && !IsWhitespace(d[0]);
        assert t[0] in t && t[0] == '{';
        SubstituteBlank(t[7..], n);
        assert t == "{count}" + t[7..];
      } else {
        SubstituteBlank(t[1..], n);
        assert t == [t[0]] + t[1..];
      }
    }
  }

  lemma {:induction false} SubstituteTrimStart(t: string, n: nat)
    ensures TrimStart(Substitute(t, n)) == Substitute(TrimStart(t), n)
    decreases |t|
  {
    var p := (c: char) => !IsWhitespace(c);
    var out := Substitute(t, n);
    if t == "" {
      assert FindChar("", p) == 0;
    } else if IsWhitespace(t[0]) {
      assert out == [t[0]] + Substitute(t[1..], n);
      SubstituteTrimStart(t[1..], n);
      TrimStartSkip(t);
      TrimStartSkip(out);
      assert out[1..] == Substitute(t[1..], n);
    } else {
      assert Decimal(n)[0] in Decimal(n);
      assert !IsWhitespace(out[0]);
      TrimStartKeep(t);
      TrimStartKeep(out);
    }
  }

  lemma TrimStartSkip(s: string)
    requires s != "" && IsWhitespace(s[0])
    ensures TrimStart(s) == TrimStart(s[1..])
  {
    var k := FindChar(s[1..], c => !IsWhitespace(c));
    FindCharIs(s, c => !IsWhitespace(c), k + 1);
    assert s[k + 1..] == s[1..][k..];
  }

  lemma TrimStartKeep(s: string)
    requires s != "" && !IsWhitespace(s[0])
    ensures TrimStart(s) == s
  {
    FindCharIs(s, c => !IsWhitespace(c), 0);
    assert s[0..] == s;
  }

  lemma SubstituteRecognised(u: string, n: nat)
    ensures RecognisedWhole(Substitute(u, n)) <==> RecognisedWhole(u)
  {
    assert Inert("[... ") && Inert("[nid:") && Inert("[REDACTED:") && Inert("--- [nid:");
    SubstitutePrefix("[... ", u, n);
    SubstitutePrefix("[nid:", u, n);
    SubstitutePrefix("[REDACTED:", u, n);
    SubstitutePrefix("--- [nid:", u, n);
    if "[... " <= u { SubstituteBlank(u[5..], n); }
    hide Substitute, IsBlank;
  }

  /** Writing a count into a template changes neither whether it is recognised nor whether it is blank. */
  lemma SubstituteExempt(t: string, n: nat)
    ensures Exempt(TrimEnd(Substitute(t, n))) <==> Exempt(TrimEnd(t))
  {
    hide RecognisedWhole, Substitute, IsBlank, IsPlaceholder, TrimEnd, TrimStart;
    SubstituteTrimStart(t, n);
    SubstituteRecognised(TrimStart(t), n);
    PlaceholderTrim(t);
    PlaceholderTrim(Substitute(t, n));
    SubstituteBlank(t, n);
    BlankTrim(t);
    BlankTrim(Substitute(t, n));
  }

  lemma BlankTrim(s: string)
    ensures IsBlank(TrimEnd(s)) <==> IsBlank(s)
  {
    hide TrimEnd, IsWhitespace;
    var t := TrimEnd(s);
    var r := s[|t|..];
    assert s == t + r;
    assert forall i :: 0 <= i < |r| ==> r[i] == s[|t| + i];
  }

  // ---- The interpreter passes the check ----

  /** A template the check accepts once its count is written: each of its lines is recognised or blank
      after trimming the end. */
  predicate SafeTemplate(t: string) { forall l :: l in Pieces(t) ==> Exempt(TrimEnd(l)) }

  lemma OneLineTemplate(t: string)
    requires NEWLINE !in t
    ensures SafeTemplate(t) <==> Exempt(TrimEnd(t))
  {
    hide Pieces;
    PiecesOne(t);
  }

  lemma CountIsInLine(t: string, k: nat)
    requires k < |t| && t[k] == NEWLINE
    ensures "{count}" <= t <==> "{count}" <= t[..k]
  {
    PrefixOfLine(t, "{count}", k);
  }

  /** A count is never written across a line break. */
  lemma {:induction false} SubstituteJoin(a: string, b: string, n: nat)
    ensures Substitute(a + ([NEWLINE] + b), n) == Substitute(a, n) + ([NEWLINE] + Substitute(b, n))
    decreases |a|
  {
    var t, rest := a + ([NEWLINE] + b), [NEWLINE] + Substitute(b, n);
    assert t[|a|] == NEWLINE && t[..|a|] == a;
    CountIsInLine(t, |a|);
    if a == "" {
      assert t == [NEWLINE] + b && t[1..] == b;
    } else if "{count}" <= a {
      assert t[7..] == a[7..] + ([NEWLINE] + b);
      SubstituteJoin(a[7..], b, n);
      hide Substitute;
      ConcatAssoc(Decimal(n), Substitute(a[7..], n), rest);
    } else {
      assert t[1..] == a[1..] + ([NEWLINE] + b) && t[0] == a[0];
      SubstituteJoin(a[1..], b, n);
      ConcatAssoc([a[0]], Substitute(a[1..], n), rest);
    }
  }

  /** Writing the count line by line. */
  lemma {:induction false} SubstituteLines(t: string, n: nat)
    ensures Pieces(Substitute(t, n)) == MapSeq(Pieces(t), l => Substitute(l, n))
    decreases |t|
  {
    var f := (l: string) => Substitute(l, n);
    var k := IndexOf(t, NEWLINE);
    hide Substitute, Pieces, IndexOf;
    if k == |t| {
      assert t[..k] == t;
      SubstituteBlank(t, n);
      PiecesOne(t);
      PiecesOne(Substitute(t, n));
      assert MapSeq([t], f) == [f(t)];
    } else {
      var a, b := t[..k], t[k + 1..];
      assert t == a + ([NEWLINE] + b);
      SubstituteJoin(a, b, n);
      SubstituteBlank(a, n);
      PiecesCons(a, b);
      PiecesCons(Substitute(a, n), Substitute(b, n));
      SubstituteLines(b, n);
      assert MapSeq([a] + Pieces(b), f) == [f(a)] + MapSeq(Pieces(b), f);
    }
  }

  lemma PiecesCons(a: string, b: string)
    requires NEWLINE !in a
    ensures Pieces(a + ([NEWLINE] + b)) == [a] + Pieces(b)
  {
    CutTwice(a, b, [NEWLINE]);
    LinesPrepend(a, b + [NEWLINE]);
  }

  predicate SafeRule(kind: RuleKind) {
    match kind
    case CollapseRepeated(_, t, _) => SafeTemplate(t)
    case CollapseBetween(_, _, t) => SafeTemplate(t)
    case _ => !JsonRule(kind)
  }

  predicate MarkersSafe(lines: seq<Line>) {
    forall i :: 0 <= i < |lines| ==> lines[i].Placeholder? ==> SafeTemplate(lines[i].text)
  }

  lemma SafeSubstitute(t: string, n: nat)
    requires SafeTemplate(t)
    ensures SafeTemplate(Substitute(t, n))
  {
    hide Substitute, Pieces, Exempt;
    SubstituteLines(t, n);
    forall l | l in Pieces(Substitute(t, n)) ensures Exempt(TrimEnd(l)) {
      var i :| 0 <= i < |Pieces(t)| && l == Substitute(Pieces(t)[i], n);
      assert Pieces(t)[i] in Pieces(t);
      SubstituteExempt(Pieces(t)[i], n);
    }
  }

  lemma ElisionSafe(tail: string)
    requires NEWLINE !in tail && !IsBlank(tail)
    ensures SafeTemplate("[... " + tail)
  {
    var t := "[... " + tail;
    assert t[..5] == "[... " && t[5..] == tail && !IsWhitespace(t[0]);
    assert RecognisedWhole(t) && NEWLINE !in t;
    hide RecognisedWhole, SafeTemplate, IsPlaceholder, IsBlank, IsWhitespace, TrimEnd, TrimStart;
    TrimStartKeep(t);
    PlaceholderTrim(t);
    OneLineTemplate(t);
  }

  lemma SafeTruncation(bytes: nat)
    ensures SafeTemplate(TruncationMarker(bytes).text)
  {
    var tail := "truncated to " + Decimal(bytes) + " bytes ...]";
    var t := "[... " + tail;
    assert TruncationMarker(bytes).text == t;
    assert NEWLINE !in tail by { assert forall c :: c in Decimal(bytes) ==> IsDigit(c); }
    assert tail[0] == 't' && tail[0] in tail;
    ElisionSafe(tail);
  }

  lemma {:induction false} RenderSafe(pieces: seq<Piece>, template: string)
    requires SafeTemplate(template) && MarkersSafe(Unpiece(pieces))
    ensures MarkersSafe(RenderPieces(pieces, template))
  {
    hide SafeTemplate, MarkersSafe;
    if pieces == [] {
      MarkersOfNone();
    } else {
      var source := match pieces[0] case Kept(l) => [l] case Elided(ls) => ls;
      var head := RenderPiece(pieces[0], template);
      MarkersConcat(source, Unpiece(pieces[1..]));
      RenderSafe(pieces[1..], template);
      MarkersConcat([head], RenderPieces(pieces[1..], template));
      if pieces[0].Elided? { SafeSubstitute(template, |pieces[0].lines|); }
      MarkersOfOne(head);
    }
  }

  lemma MarkersOfNone()
    ensures MarkersSafe([])
  {
  }

  lemma MarkersOfOne(l: Line)
    ensures MarkersSafe([l]) <==> (l.Placeholder? ==> SafeTemplate(l.text))
  {
    hide SafeTemplate;
    assert [l][0] == l;
  }

  lemma MarkersConcat(a: seq<Line>, b: seq<Line>)
    ensures MarkersSafe(a + b) <==> MarkersSafe(a) && MarkersSafe(b)
  {
    hide SafeTemplate;
    var all := a + b;
    assert forall i :: 0 <= i < |a| ==> all[i] == a[i];
    assert forall i :: 0 <= i < |b| ==> all[|a| + i] == b[i];
  }

  lemma {:induction false} SelectSafe(lines: seq<Line>, keep: nat -> bool, n: nat)
    requires n <= |lines| && MarkersSafe(lines)
    ensures MarkersSafe(SelectTo(lines, keep, n))
  {
    hide SafeTemplate, MarkersSafe;
    if n == 0 {
      MarkersOfNone();
    } else {
      SelectSafe(lines, keep, n - 1);
      if keep(n - 1) {
        MarkersConcat(SelectTo(lines, keep, n - 1), [lines[n - 1]]);
        MarkersConcat(lines[..n - 1], lines[n - 1..]);
        MarkersConcat([lines[n - 1]], lines[n..]);
        assert lines == lines[..n - 1] + lines[n - 1..] && lines[n - 1..] == [lines[n - 1]] + lines[n..];
      }
    }
  }

  lemma RuleSafe(serde: Serde, kind: RuleKind, lines: seq<Line>)
    requires SafeRule(kind) && MarkersSafe(lines)
    ensures MarkersSafe(Meaning(serde, kind, lines))
  {
    hide SafeTemplate;
    match kind
    case CollapseRepeated(p, t, min) =>
      RunPiecesTile(lines, p, min);
      RenderSafe(RunPieces(lines, p, min), t);
    case CollapseBetween(b, e, t) =>
      FencePiecesTile(lines, b, e);
      RenderSafe(FencePieces(lines, b, e), t);
    case KeepLines(p) => SelectSafe(lines, KeepAt(lines, p), |lines|);
    case DropLines(p) => SelectSafe(lines, DropAt(lines, p), |lines|);
    case Dedup => SelectSafe(lines, DedupAt(lines), |lines|);
    case NdjsonFilter(f, vs) => SelectSafe(lines, NdjsonAt(serde, lines, f, vs), |lines|);
    case StateMachine(states) => SelectSafe(lines, SectionAt(states, lines), |lines|);
    case TruncateTo(bytes) => SafeTruncation(bytes);
    case _ =>
  }

  lemma {:induction false} RunSafe(serde: Serde, rules: seq<RuleKind>, lines: seq<Line>, k: nat)
    requires k <= |rules| && MarkersSafe(lines)
    requires forall i :: 0 <= i < |rules| ==> SafeRule(rules[i])
    ensures MarkersSafe(After(serde, rules, lines, k))
  {
    hide Meaning, SafeRule, MarkersSafe;
    if k > 0 {
      RunSafe(serde, rules, lines, k - 1);
      RuleSafe(serde, rules[k - 1], After(serde, rules, lines, k - 1));
    }
  }

  function Printed(lines: seq<Line>): string { Unlines(Texts(lines)) }

  lemma {:induction false} VerbatimsOfInput(texts: seq<string>)
    ensures Verbatims(MapSeq(texts, t => Verbatim(t))) == texts
  {
    var lines := MapSeq(texts, t => Verbatim(t));
    if texts != [] {
      var init := MapSeq(texts[..|texts| - 1], t => Verbatim(t));
      VerbatimsOfInput(texts[..|texts| - 1]);
      assert lines[..|lines| - 1] == init;
    }
  }

  /** Lines that are input lines or safe markers print to a text that passes the check. */
  lemma PrintedPasses(input: string, lines: seq<Line>)
    requires MarkersSafe(lines)
    requires forall t :: t in Verbatims(lines) ==> t in InputLines(input)
    ensures IsStructuralSubset(input, Printed(lines))
  {
    hide Exempt, Pieces, Lines, InputLines, MarkersSafe, Printed, Verbatims, TrimEnd;
    var out := Printed(lines);
    LinesVsInputLines(out);
    forall l | l in Lines(out)
      ensures Exempt(TrimEnd(l)) || exists r :: r in Lines(input) && TrimEnd(r) == TrimEnd(l)
    {
      var j :| 0 <= j < |Lines(out)| && Lines(out)[j] == l;
      var l' := InputLines(out)[j];
      TrimEndStripCr(l');
      PrintedLineIsFine(input, lines, l');
    }
  }

  lemma PrintedLineIsFine(input: string, lines: seq<Line>, l: string)
    requires MarkersSafe(lines) && l in InputLines(Printed(lines))
    requires forall t :: t in Verbatims(lines) ==> t in InputLines(input)
    ensures Exempt(TrimEnd(l)) || exists r :: r in Lines(input) && TrimEnd(r) == TrimEnd(l)
  {
    hide Exempt, Pieces, Lines, InputLines, Verbatims, TrimEnd;
    PiecesOfUnlines(Texts(lines), l);
    var i :| 0 <= i < |lines| && l in Pieces(Texts(lines)[i]);
    if lines[i].Verbatim? {
      VerbatimIn(lines, i);
      RawLineIsThere(input, lines[i].text);
      PiecesOne(lines[i].text);
    }
  }

  lemma RawLineIsThere(input: string, t: string)
    requires t in InputLines(input)
    ensures NEWLINE !in t && exists r :: r in Lines(input) && TrimEnd(r) == TrimEnd(t)
  {
    InputLinesHaveNoNewline(input);
    LinesVsInputLines(input);
    var j :| 0 <= j < |InputLines(input)| && InputLines(input)[j] == t;
    TrimEndStripCr(t);
    assert Lines(input)[j] in Lines(input);
  }

  /** For every rule list without JSON rules whose templates are safe, and every input that is escape-free
      or meets no `strip_ansi`: the verbatim output lines are an order-preserving subsequence of the input
      lines, and the printed output passes the Tier-2 check. */
  lemma InterpreterPassesCheck(serde: Serde, rules: seq<RuleKind>, input: string)
    requires forall i :: 0 <= i < |rules| ==> SafeRule(rules[i])
    requires ESC in input ==> forall i :: 0 <= i < |rules| ==> !rules[i].StripAnsi?
    ensures Subseq(Verbatims(After(serde, rules, InitialLines(input), |rules|)), InputLines(input))
    ensures IsStructuralSubset(input, Printed(After(serde, rules, InitialLines(input), |rules|)))
  {
    hide Meaning;
    var lines := InitialLines(input);
    VerbatimsOfInput(InputLines(input));
    if ESC !in input { CharsOfLines(input, ESC); }
    RunKeepsSubseq(serde, rules, lines, |rules|);
    RunSafe(serde, rules, lines, |rules|);
    SubseqMembers(Verbatims(After(serde, rules, lines, |rules|)), InputLines(input));
    PrintedPasses(input, After(serde, rules, lines, |rules|));
  }

  // ---- Exactly which templates are safe ----

  /** A printed line that is neither exempt nor a raw line spoils the output. */
  lemma PrintedFails(input: string, lines: seq<Line>, i: nat, l: string)
    requires i < |lines| && l in Pieces(lines[i].text) && !Exempt(TrimEnd(l))
    requires forall r :: r in Lines(input) ==> TrimEnd(r) != TrimEnd(l)
    ensures !IsStructuralSubset(input, Printed(lines))
  {
    hide Exempt, Pieces, Lines, InputLines;
    var out := Printed(lines);
    assert Texts(lines)[i] == lines[i].text;
    PiecesOfUnlines(Texts(lines), l);
    var j :| 0 <= j < |InputLines(out)| && InputLines(out)[j] == l;
    LinesVsInputLines(out);
    TrimEndStripCr(l);
    assert Lines(out)[j] in Lines(out);
  }

  /** A letter that is not the given text. */
  function OtherLetter(s: string): (x: string)
    ensures x != s && |x| == 1 && NEWLINE !in x && TrimEnd(x) == x && ESC !in x && '\r' !in x
  {
    if s == "x" then "y" else "x"
  }

  lemma OneLine(x: string)
    requires NEWLINE !in x && x != ""
    ensures InputLines(x) == Lines(x) == [x]
  {
    assert forall j :: 0 <= j < |x| ==> x[j] in x;
    IndexOfIs(x, NEWLINE, |x|);
  }

  lemma TwoLines(x: string, y: string)
    requires NEWLINE !in x && NEWLINE !in y && y != "" && '\r' !in x && '\r' !in y
    ensures var input := x + ([NEWLINE] + y); InputLines(input) == Lines(input) == [x, y]
  {
    LinesPrepend(x, y);
    OneLine(y);
    LinesCrFree(x + ([NEWLINE] + y));
    hide InputLines, Lines;
    assert [x] + [y] == [x, y];
  }

  /** One line collapsed by a template. */
  lemma CollapsedLine(t: string, x: string)
    requires NEWLINE !in x && x != ""
    ensures CollapseRuns(InitialLines(x), _ => true, t, 1) == [Placeholder(Substitute(t, 1))]
  {
    OneLine(x);
    var lines := InitialLines(x);
    assert lines == [Verbatim(x)];
    RunLengthIs(lines, _ => true, 1);
    CollapseRunsStep(lines, _ => true, t, 1, 1);
  }

  /** An opening fence, its closing fence, and the zero-count marker between them. */
  lemma AdjacentFences(t: string, x: string, y: string, begin: Pattern, end: Pattern)
    requires NEWLINE !in x && NEWLINE !in y && y != "" && '\r' !in x && '\r' !in y && begin(x) && end(y)
    ensures CollapseFences(InitialLines(x + ([NEWLINE] + y)), begin, end, t) ==
      [Verbatim(x), Placeholder(Substitute(t, 0)), Verbatim(y)]
  {
    TwoLines(x, y);
    var lines := InitialLines(x + ([NEWLINE] + y));
    assert lines == [Verbatim(x), Verbatim(y)] && lines[1..] == [Verbatim(y)];
    FenceOpen(lines, begin, end, t);
    FirstHitIs([Verbatim(y)], end, 0);
    assert CollapseFences([Verbatim(y)][1..], begin, end, t) == [];
  }

  /** A line of an unsafe template stays unsafe once the count is written. */
  lemma UnsafeLine(t: string, n: nat) returns (l: string)
    requires !SafeTemplate(t)
    ensures l in Pieces(Substitute(t, n)) && !Exempt(TrimEnd(l))
  {
    hide Substitute, Pieces, Exempt;
    var m :| m in Pieces(t) && !Exempt(TrimEnd(m));
    var i :| 0 <= i < |Pieces(t)| && Pieces(t)[i] == m;
    SubstituteLines(t, n);
    SubstituteExempt(m, n);
    l := Substitute(m, n);
    assert Pieces(Substitute(t, n))[i] == l;
  }

  /** An unsafe template spoils the output of `collapse_repeated` on some input. */
  lemma UnsafeTemplateFails(t: string) returns (x: string)
    requires !SafeTemplate(t)
    ensures ESC !in x && !IsStructuralSubset(x, Printed(CollapseRuns(InitialLines(x), _ => true, t, 1)))
  {
    hide Exempt, Substitute, Pieces, SafeTemplate;
    var l := UnsafeLine(t, 1);
    x := OtherLetter(TrimEnd(l));
    CollapsedLine(t, x);
    OneLine(x);
    PrintedFails(x, CollapseRuns(InitialLines(x), _ => true, t, 1), 0, l);
  }

  /** And of `collapse_between`. */
  lemma UnsafeFenceFails(t: string) returns (input: string)
    requires !SafeTemplate(t)
    ensures ESC !in input
    ensures !IsStructuralSubset(input, Printed(CollapseFences(InitialLines(input), _ => true, _ => true, t)))
  {
    hide Exempt, Substitute, Pieces, SafeTemplate;
    var l := UnsafeLine(t, 0);
    var x := OtherLetter(TrimEnd(l));
    input := x + ([NEWLINE] + x);
    AdjacentFences(t, x, x, _ => true, _ => true);
    TwoLines(x, x);
    PrintedFails(input, CollapseFences(InitialLines(input), _ => true, _ => true, t), 1, l);
  }

  lemma SafeRunsPass(t: string, input: string, p: Pattern, min: nat)
    requires SafeTemplate(t)
    ensures IsStructuralSubset(input, Printed(CollapseRuns(InitialLines(input), p, t, min)))
  {
    var rules := [CollapseRepeated(p, t, min)];
    var serde := Serde(_ => None, _ => None);
    assert SafeRule(rules[0]);
    assert After(serde, rules, InitialLines(input), 1) == CollapseRuns(InitialLines(input), p, t, min);
    hide After, CollapseRuns, InitialLines, Printed, IsStructuralSubset, SafeTemplate;
    InterpreterPassesCheck(serde, rules, input);
  }

  lemma SafeFencesPass(t: string, input: string, b: Pattern, e: Pattern)
    requires SafeTemplate(t)
    ensures IsStructuralSubset(input, Printed(CollapseFences(InitialLines(input), b, e, t)))
  {
    var rules := [CollapseBetween(b, e, t)];
    var serde := Serde(_ => None, _ => None);
    assert SafeRule(rules[0]);
    assert After(serde, rules, InitialLines(input), 1) == CollapseFences(InitialLines(input), b, e, t);
    hide After, CollapseFences, InitialLines, Printed, IsStructuralSubset, SafeTemplate;
    InterpreterPassesCheck(serde, rules, input);
  }

  ghost predicate RunsAlwaysPass(t: string) {
    forall input: string, p: Pattern, min: nat {:trigger CollapseRuns(InitialLines(input), p, t, min)} ::
      IsStructuralSubset(input, Printed(CollapseRuns(InitialLines(input), p, t, min)))
  }

  ghost predicate FencesAlwaysPass(t: string) {
    forall input: string, b: Pattern, e: Pattern {:trigger CollapseFences(InitialLines(input), b, e, t)} ::
      IsStructuralSubset(input, Printed(CollapseFences(InitialLines(input), b, e, t)))
  }

  /** A template keeps every output of `collapse_repeated`, and every output of `collapse_between`, within
      the check exactly when each of its lines is recognised, or blank, after trimming its end. Starting
      with a recognised prefix is not enough. */
  lemma TemplateSafeIff(t: string)
    ensures SafeTemplate(t) <==> RunsAlwaysPass(t)
    ensures SafeTemplate(t) <==> FencesAlwaysPass(t)
  {
    hide SafeTemplate, CollapseRuns, CollapseFences, InitialLines, Printed, IsStructuralSubset;
    if SafeTemplate(t) {
      forall input: string, p: Pattern, min: nat
        ensures IsStructuralSubset(input, Printed(CollapseRuns(InitialLines(input), p, t, min)))
      {
        SafeRunsPass(t, input, p, min);
      }
      forall input: string, b: Pattern, e: Pattern
        ensures IsStructuralSubset(input, Printed(CollapseFences(InitialLines(input), b, e, t)))
      {
        SafeFencesPass(t, input, b, e);
      }
    } else {
      var x := UnsafeTemplateFails(t);
      var y := UnsafeFenceFails(t);
      assert !IsStructuralSubset(x, Printed(CollapseRuns(InitialLines(x), _ => true, t, 1)));
      assert !IsStructuralSubset(y, Printed(CollapseFences(InitialLines(y), _ => true, _ => true, t)));
    }
  }

  lemma DottedIsUnsafe(d: string)
    requires NEWLINE !in d && |d| >= 5 && d[0] == '[' && d[1] == '.' && (d[4] == ' ' ==> IsBlank(d[5..]))
    ensures !SafeTemplate(d)
  {
    assert "[... "[4] == ' ' && "[nid:"[1] == 'n' && "[REDACTED:"[1] == 'R' && "--- [nid:"[0] == '-';
    assert !RecognisedWhole(d);
    assert d[0] in d;
    hide RecognisedWhole, IsPlaceholder;
    TrimStartKeep(d);
    PlaceholderTrim(d);
    BlankTrim(d);
    OneLineTemplate(d);
  }

  /** The bare elision prefix is unsafe: trimming removes the space that makes it recognisable. */
  lemma BarePrefixIsUnsafe()
    ensures !SafeTemplate("[... ")
  {
    hide SafeTemplate;
    var d := "[... ";
    assert d[0] == '[' && d[1] == '.' && d[5..] == "";
    DottedIsUnsafe(d);
  }

  const DOCUMENTED := "[...omitted {count} lines...]"

  /** So is the template the language reference gives for `collapse_between`. */
  lemma DocumentedTemplateIsUnsafe()
    ensures !SafeTemplate(DOCUMENTED)
  {
    hide SafeTemplate;
    var d := DOCUMENTED;
    assert d[0] == '[' && d[1] == '.' && d[4] == 'o';
    DottedIsUnsafe(d);
  }

  /** A one-line unsafe template that begins with a bracket spoils every pair of adjacent fences that do
      not. */
  lemma BracketFails(t: string, x: string, y: string, begin: Pattern, end: Pattern)
    requires !SafeTemplate(t) && NEWLINE !in t && t != "" && t[0] == '['
    requires NEWLINE !in x && NEWLINE !in y && '\r' !in x && '\r' !in y && begin(x) && end(y)
    requires x != "" && y != "" && x[0] != '[' && y[0] != '['
    ensures var input := x + ([NEWLINE] + y);
      !IsStructuralSubset(input, Printed(CollapseFences(InitialLines(input), begin, end, t)))
  {
    hide Exempt, Pieces, SafeTemplate, Substitute;
    var input := x + ([NEWLINE] + y);
    var l := UnsafeLine(t, 0);
    MarkerBracket(t, l);
    AdjacentFences(t, x, y, begin, end);
    TwoLines(x, y);
    PrintedFails(input, CollapseFences(InitialLines(input), begin, end, t), 1, l);
  }

  lemma MarkerBracket(t: string, l: string)
    requires NEWLINE !in t && t != "" && t[0] == '[' && l in Pieces(Substitute(t, 0))
    ensures TrimEnd(l) != "" && TrimEnd(l)[0] == '['
  {
    SubstituteBlank(t, 0);
    assert Substitute(t, 0) == [t[0]] + Substitute(t[1..], 0);
    hide Substitute, Pieces;
    PiecesOne(Substitute(t, 0));
    assert l[0] == '[' && !IsWhitespace('[');
  }

  /** The documented rule on two adjacent fences: the check reports its marker as an invented line. */
  lemma DocumentedRuleFails()
    ensures var begin, end: Pattern := t => "BEGIN OUTPUT" <= t, t => "END OUTPUT" <= t;
      var input := "BEGIN OUTPUT" + ([NEWLINE] + "END OUTPUT");
      !IsStructuralSubset(input, Printed(CollapseFences(InitialLines(input), begin, end, DOCUMENTED)))
  {
    hide SafeTemplate, IsStructuralSubset, Printed, CollapseFences, InitialLines;
    DocumentedTemplateIsUnsafe();
    assert DOCUMENTED[0] == '[';
    BracketFails(DOCUMENTED, "BEGIN OUTPUT", "END OUTPUT", t => "BEGIN OUTPUT" <= t, t => "END OUTPUT" <= t);
  }
}
