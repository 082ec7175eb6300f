/** Tier-1 invariant checks on a raw text and its compressed form. */
module Invariants {
  import opened Text
  import opened Json
  import opened Rules

  /** A pattern as written: it compiles to a predicate, or it does not compile. */
  type Source = Option<Pattern>

  datatype InvariantCheck =
    | LastLineMatches(pattern: Source)
    | FirstLineMatches(pattern: Source)
    | AllMatchingPreserved(pattern: Source)
    | CountMatchesAtLeast(pattern: Source, count: nat)
    | JsonPathExists(path: string)
    | ExitLinePreserved

  datatype Invariant = Invariant(name: string, check: InvariantCheck)

  datatype InvariantResult = InvariantResult(name: string, passed: bool)

  /** One result per invariant, or the name of the invariant whose pattern does not compile. */
  datatype Outcome = Results(all: seq<InvariantResult>) | BadPattern(name: string)

  /** The fixed regular expressions of the checker and the synthesizer. */
  datatype Lexicon = Lexicon(exitLine: Pattern, errorLine: Pattern)

  function CountMatches(lines: seq<string>, p: Pattern): nat {
    if lines == [] then 0
    else CountMatches(lines[..|lines| - 1], p) + (if p(lines[|lines| - 1]) then 1 else 0)
  }

  /** The non-empty pieces between dots. */
  function DotPieces(s: string): seq<string>
    decreases |s|
  {
    var e := IndexOf(s, '.');
    Prepend(s[..e], if e == |s| then [] else DotPieces(s[e + 1..]))
  }

  function KeyWalk(v: Json, keys: seq<string>): Option<Json> {
    if keys == [] then Some(v)
    else
      match GetKey(v, keys[0])
      case None => None
      case Some(c) => KeyWalk(c, keys[1..])
  }

  lemma DotPiecesStep(name: string, after: string)
    requires PlainKey(name) && (after == "" || after[0] == '.')
    ensures DotPieces(name + after) == [name] + (if after == "" then [] else DotPieces(after[1..]))
  {
    var s := name + after;
    assert forall j :: 0 <= j < |name| ==> s[j] == name[j] && name[j] in name;
    IndexOfIs(s, '.', |name|);
    assert s[..|name|] == name;
    if after != "" { assert s[|name| + 1..] == after[1..]; }
  }

  lemma {:induction false} DotPiecesRender(v: Json, segs: seq<Seg>)
    requires PlainPath(segs) && forall i :: 0 <= i < |segs| ==> segs[i].Key?
    ensures Render(segs) == "" || Render(segs)[0] == '.'
    ensures KeyWalk(v, if segs == [] then [] else DotPieces(Render(segs)[1..])) == Resolve(v, segs)
    decreases |segs|
  {
    if segs != [] {
      var rest := segs[1..];
      assert PlainSeg(segs[0]);
      PathCons(segs);
      var after := Render(rest);
      assert Render(segs)[1..] == segs[0].name + after;
      var c := GetKey(v, segs[0].name);
      DotPiecesRender(if c.Some? then c.value else v, rest);
      DotPiecesStep(segs[0].name, after);
      hide DotPieces, Render;
      var keys := DotPieces(segs[0].name + after);
      assert keys[0] == segs[0].name && keys[1..] == if rest == [] then [] else DotPieces(after[1..]);
    }
  }

  /** On a rendered path of plain keys the check finds what `json_walk` finds: the value the path denotes. */
  lemma ExistsAgrees(v: Json, segs: seq<Seg>)
    requires PlainPath(segs) && forall i :: 0 <= i < |segs| ==> segs[i].Key?
    ensures KeyWalk(v, DotPieces(StripDollar("$" + Render(segs)))) == Resolve(v, segs)
    ensures Walk(v, StripDollar("$" + Render(segs))) == Resolve(v, segs)
  {
    var text := Render(segs);
    assert ("$" + text)[1..] == text;
    WalkRender(v, segs);
    DotPiecesRender(v, segs);
    hide Render, Walk, Resolve;
    LeadingDot(text);
  }

  /** A leading dot, and no text at all, add no piece. */
  lemma LeadingDot(text: string)
    ensures DotPieces("") == []
    ensures text != "" && text[0] == '.' ==> DotPieces(text) == DotPieces(text[1..])
  {
    hide IndexOf;
    IndexOfIs("", '.', 0);
    if text != "" && text[0] == '.' {
      IndexOfIs(text, '.', 0);
      assert text[..0] == "" && text[0 + 1..] == text[1..];
    }
  }

  predicate Compiles(check: InvariantCheck) {
    !check.JsonPathExists? && !check.ExitLinePreserved? ==> check.pattern.Some?
  }

  /** What it means for an invariant to hold of a raw text and its compressed form. */
  ghost predicate Holds(serde: Serde, lex: Lexicon, check: InvariantCheck, raw: string, compressed: string) {
    Compiles(check) &&
    var out := Lines(compressed);
    match check
    case LastLineMatches(Some(p)) => p(if out == [] then "" else out[|out| - 1])
    case FirstLineMatches(Some(p)) => p(if out == [] then "" else out[0])
    case AllMatchingPreserved(Some(p)) => forall l :: l in Lines(raw) && p(l) ==> l in out
    case CountMatchesAtLeast(Some(p), n) => CountMatches(out, p) >= n
    case JsonPathExists(path) =>
      serde.parse(compressed).Some? && KeyWalk(serde.parse(compressed).value, DotPieces(StripDollar(path))).Some?
    case ExitLinePreserved =>
      (exists l :: l in Lines(raw) && lex.exitLine(l)) ==> exists l :: l in out && lex.exitLine(l)
  }

  method FilterMatches(lines: seq<string>, p: Pattern) returns (out: seq<string>)
    ensures forall l :: l in out <==> l in lines && p(l)
    ensures |out| == CountMatches(lines, p)
  {
    out := [];
    for i := 0 to |lines|
      invariant forall l :: l in out <==> l in lines[..i] && p(l)
      invariant |out| == CountMatches(lines[..i], p)
    {
      assert lines[..i + 1] == lines[..i] + [lines[i]];
      if p(lines[i]) {
        out := out + [lines[i]];
      }
    }
    assert lines[..|lines|] == lines;
  }

  method AllPreserved(rawLines: seq<string>, out: seq<string>, p: Pattern) returns (passed: bool)
    ensures passed <==> forall l :: l in rawLines && p(l) ==> l in out
  {
    var rawMatches := FilterMatches(rawLines, p);
    var cmpMatches := FilterMatches(out, p);
    var missing := FilterMatches(rawMatches, l => l !in cmpMatches);
    passed := missing == [];
    if passed {
      forall l | l in rawLines && p(l) ensures l in out {
        assert l in rawMatches && l !in missing;
      }
    } else {
      assert missing[0] in missing;
    }
  }

  method AnyMatches(lines: seq<string>, p: Pattern) returns (r: bool)
    ensures r <==> exists l :: l in lines && p(l)
  {
    for i := 0 to |lines|
      invariant forall j :: 0 <= j < i ==> !p(lines[j])
    {
      if p(lines[i]) {
        assert lines[i] in lines;
        return true;
      }
    }
    return false;
  }

  /** The cursor loop of the JSON existence check. */
  method JsonExists(serde: Serde, doc: string, path: string) returns (r: bool)
    ensures r <==> serde.parse(doc).Some? &&
                   KeyWalk(serde.parse(doc).value, DotPieces(StripDollar(path))).Some?
  {
    var v := serde.parse(doc);
    if v.None? { return false; }
    var cur := v.value;
    var segs := DotPieces(StripDollar(path));
    for i := 0 to |segs|
      invariant KeyWalk(cur, segs[i..]) == KeyWalk(v.value, segs)
    {
      assert segs[i..][1..] == segs[i + 1..];
      var next := GetKey(cur, segs[i]);
      if next.None? { return false; }
      cur := next.value;
    }
    return true;
  }

  method RunOne(serde: Serde, lex: Lexicon, inv: Invariant, raw: string, compressed: string)
    returns (r: Option<InvariantResult>)
    ensures r.Some? <==> Compiles(inv.check)
    ensures r.Some? ==> r.value.name == inv.name
    ensures r.Some? ==> (r.value.passed <==> Holds(serde, lex, inv.check, raw, compressed))
  {
    hide Lines, CountMatches, KeyWalk, DotPieces;
    if !Compiles(inv.check) { return None; }
    var rawLines, out := Lines(raw), Lines(compressed);
    var passed;
    match inv.check {
      case LastLineMatches(Some(p)) =>
        passed := p(if out == [] then "" else out[|out| - 1]);
      case FirstLineMatches(Some(p)) =>
        passed := p(if out == [] then "" else out[0]);
      case AllMatchingPreserved(Some(p)) =>
        passed := AllPreserved(rawLines, out, p);
      case CountMatchesAtLeast(Some(p), n) =>
        var got := FilterMatches(out, p);
        passed := |got| >= n;
      case JsonPathExists(path) =>
        passed := JsonExists(serde, compressed, path);
      case ExitLinePreserved =>
        passed := true;
        var rawHas := AnyMatches(rawLines, lex.exitLine);
        if rawHas {
          passed := AnyMatches(out, lex.exitLine);
        }
    }
    r := Some(InvariantResult(inv.name, passed));
  }

  /** Invariant `i` is the first whose pattern does not compile. */
  predicate FirstBad(invariants: seq<Invariant>, i: nat) {
    && i < |invariants| && !Compiles(invariants[i].check)
    && forall j :: 0 <= j < i ==> Compiles(invariants[j].check)
  }

  /** The loop stops at the first pattern that does not compile. */
  method CheckInvariants(serde: Serde, lex: Lexicon, invariants: seq<Invariant>, raw: string, compressed: string)
    returns (r: Outcome)
    ensures r.Results? <==> forall i :: 0 <= i < |invariants| ==> Compiles(invariants[i].check)
    ensures r.BadPattern? ==> exists i: nat :: FirstBad(invariants, i) && r.name == invariants[i].name
    ensures r.Results? ==> |r.all| == |invariants|
    ensures r.Results? ==> forall i :: 0 <= i < |invariants| ==>
      r.all[i].name == invariants[i].name &&
      (r.all[i].passed <==> Holds(serde, lex, invariants[i].check, raw, compressed))
  {
    hide Holds, Compiles;
    var out: seq<InvariantResult> := [];
    for i := 0 to |invariants|
      invariant |out| == i
      invariant forall j :: 0 <= j < i ==> Compiles(invariants[j].check)
      invariant forall j :: 0 <= j < i ==>
        out[j].name == invariants[j].name &&
        (out[j].passed <==> Holds(serde, lex, invariants[j].check, raw, compressed))
    {
      var one := RunOne(serde, lex, invariants[i], raw, compressed);
      if one.None? {
        assert FirstBad(invariants, i);
        return BadPattern(invariants[i].name);
      }
      out := out + [one.value];
    }
    return Results(out);
  }
}
