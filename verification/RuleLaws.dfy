/** Laws of the rules: what collapsing elides, what repeats change nothing, how sections compose,
    and that no rule invents a line. */
module RuleLaws {
  import opened Text
  import opened Json
  import opened Rules
  import opened Interpreter

  // ---- Collapsing: exactly the maximal runs, exactly the lines between fences ----

  ghost predicate IsMaximalRun(lines: seq<Line>, p: Pattern, a: nat, b: nat)
    requires a < b <= |lines|
  {
    && (forall j :: a <= j < b ==> Hit(lines[j], p))
    && (a > 0 ==> !Hit(lines[a - 1], p))
    && (b < |lines| ==> !Hit(lines[b], p))
  }

  /** Some elided stretch of the division covers exactly positions `a` to `b`. */
  ghost predicate ElidesRange(pieces: seq<Piece>, a: nat, b: nat)
    requires a <= b
    decreases |pieces|
  {
    pieces != [] &&
    match pieces[0]
    case Kept(_) => a >= 1 && ElidesRange(pieces[1..], a - 1, b - 1)
    case Elided(ls) =>
      || (a == 0 && b == |ls|)
      || (a >= |ls| && ElidesRange(pieces[1..], a - |ls|, b - |ls|))
  }

  /** Position `i` falls in an elided stretch of the division. */
  ghost predicate ElidedAt(pieces: seq<Piece>, i: nat)
    decreases |pieces|
  {
    pieces != [] &&
    match pieces[0]
    case Kept(_) => i >= 1 && ElidedAt(pieces[1..], i - 1)
    case Elided(ls) => i < |ls| || ElidedAt(pieces[1..], i - |ls|)
  }

  lemma {:induction false} KeepEachPrefix(ls: seq<Line>, rest: seq<Piece>, a: nat, b: nat)
    requires a <= b
    ensures ElidesRange(KeepEach(ls) + rest, a, b) <==> a >= |ls| && ElidesRange(rest, a - |ls|, b - |ls|)
    ensures Unpiece(KeepEach(ls) + rest) == ls + Unpiece(rest)
    decreases |ls|
  {
    if ls == [] {
      assert KeepEach(ls) + rest == rest;
    } else {
      assert (KeepEach(ls) + rest)[1..] == KeepEach(ls[1..]) + rest;
      KeepEachPrefix(ls[1..], rest, if a > 0 then a - 1 else 0, if a > 0 then b - 1 else b);
      assert [ls[0]] + (ls[1..] + Unpiece(rest)) == ls + Unpiece(rest);
    }
  }

  /** A maximal run past the first `k` lines is a maximal run of the rest, when the cut is clean. */
  lemma RunShift(lines: seq<Line>, p: Pattern, k: nat, a: nat, b: nat)
    requires k <= a < b <= |lines|
    requires k < |lines| && k > 0 && (!Hit(lines[k], p) || !Hit(lines[k - 1], p))
    ensures IsMaximalRun(lines, p, a, b) <==> IsMaximalRun(lines[k..], p, a - k, b - k)
  {
    var tail := lines[k..];
    assert forall j :: k <= j < |lines| ==> lines[j] == tail[j - k];
    assert forall j :: 0 <= j < |tail| ==> tail[j] == lines[j + k];
    if a == k {
      assert Hit(lines[a], p) <==> Hit(tail[0], p);
    }
  }

  lemma RangeCons(piece: Piece, rest: seq<Piece>, a: nat, b: nat)
    requires a <= b
    ensures ElidesRange([piece] + rest, a, b) <==>
      match piece
      case Kept(_) => a >= 1 && ElidesRange(rest, a - 1, b - 1)
      case Elided(ls) => (a == 0 && b == |ls|) || (a >= |ls| && ElidesRange(rest, a - |ls|, b - |ls|))
  {
    assert ([piece] + rest)[1..] == rest;
  }

  lemma AtCons(piece: Piece, rest: seq<Piece>, i: nat)
    ensures ElidedAt([piece] + rest, i) <==>
      match piece
      case Kept(_) => i >= 1 && ElidedAt(rest, i - 1)
      case Elided(ls) => i < |ls| || ElidedAt(rest, i - |ls|)
  {
    assert ([piece] + rest)[1..] == rest;
  }

  lemma HeadRange(ls: seq<Line>, min: nat, rest: seq<Piece>, a: nat, b: nat)
    requires a < b && ls != []
    ensures ElidesRange(RunHead(ls, min) + rest, a, b) <==>
      || (min <= |ls| && a == 0 && b == |ls|)
      || (|ls| <= a && ElidesRange(rest, a - |ls|, b - |ls|))
  {
    if |ls| >= min {
      RangeCons(Elided(ls), rest, a, b);
    } else {
      KeepEachPrefix(ls, rest, a, b);
    }
  }

  lemma RunPiecesUnfold(lines: seq<Line>, p: Pattern, min: nat)
    requires lines != []
    ensures var k := RunLength(lines, p);
      RunPieces(lines, p, min) ==
        if k == 0 then [Kept(lines[0])] + RunPieces(lines[1..], p, min)
        else RunHead(lines[..k], min) + RunPieces(lines[k..], p, min)
  {
  }

  /** What the division of a text elides, in terms of its first run and the rest. */
  lemma RunPiecesRange(lines: seq<Line>, p: Pattern, min: nat, a: nat, b: nat)
    requires a < b <= |lines|
    ensures var k := RunLength(lines, p); var cut := if k == 0 then 1 else k;
      ElidesRange(RunPieces(lines, p, min), a, b) <==>
        || (0 < k && min <= k && a == 0 && b == k)
        || (cut <= a && ElidesRange(RunPieces(lines[cut..], p, min), a - cut, b - cut))
  {
    hide ElidesRange, RunHead, RunPieces, RunLength;
    RunPiecesUnfold(lines, p, min);
    var k := RunLength(lines, p);
    if k == 0 {
      RangeKept(lines[0], RunPieces(lines[1..], p, min), a, b);
    } else {
      var run, rest := lines[..k], RunPieces(lines[k..], p, min);
      assert |run| == k;
      HeadRange(run, min, rest, a, b);
    }
  }

  lemma RangeKept(l: Line, rest: seq<Piece>, a: nat, b: nat)
    requires a <= b
    ensures ElidesRange([Kept(l)] + rest, a, b) <==> a >= 1 && ElidesRange(rest, a - 1, b - 1)
  {
    RangeCons(Kept(l), rest, a, b);
  }

  /** A maximal run that starts inside the first run is the first run. */
  lemma FirstRunIsMaximal(lines: seq<Line>, p: Pattern, a: nat, b: nat)
    requires a < b <= |lines| && a < (if RunLength(lines, p) == 0 then 1 else RunLength(lines, p))
    ensures IsMaximalRun(lines, p, a, b) <==> a == 0 && b == RunLength(lines, p)
  {
    var k := RunLength(lines, p);
    if a > 0 {
      assert Hit(lines[a - 1], p);
    } else if b < k {
      assert Hit(lines[b], p);
    } else if k < b {
      assert !Hit(lines[k], p);
    }
  }

  /** `collapse_repeated` elides exactly the maximal runs of at least `min` matching verbatim lines. */
  lemma {:induction false} ElidesExactlyLongRuns(lines: seq<Line>, p: Pattern, min: nat, a: nat, b: nat)
    requires a < b <= |lines|
    ensures ElidesRange(RunPieces(lines, p, min), a, b) <==> IsMaximalRun(lines, p, a, b) && b - a >= min
    decreases |lines|
  {
    hide ElidesRange, RunPieces;
    var k := RunLength(lines, p);
    var cut := if k == 0 then 1 else k;
    RunPiecesRange(lines, p, min, a, b);
    if cut <= a {
      RunShift(lines, p, cut, a, b);
      ElidesExactlyLongRuns(lines[cut..], p, min, a - cut, b - cut);
    } else {
      FirstRunIsMaximal(lines, p, a, b);
    }
  }

  /** The fence automaton: whether an opening fence is unclosed before line `i`. */
  ghost predicate Inside(lines: seq<Line>, begin: Pattern, end: Pattern, i: nat)
    requires i <= |lines|
  {
    i > 0 &&
    if Inside(lines, begin, end, i - 1) then !Hit(lines[i - 1], end) else Hit(lines[i - 1], begin)
  }

  lemma {:induction false} InsideShift(lines: seq<Line>, begin: Pattern, end: Pattern, k: nat, i: nat)
    requires k <= i <= |lines| && !Inside(lines, begin, end, k)
    ensures Inside(lines, begin, end, i) <==> Inside(lines[k..], begin, end, i - k)
  {
    if k < i {
      InsideShift(lines, begin, end, k, i - 1);
      assert lines[k..][i - 1 - k] == lines[i - 1];
    }
  }

  lemma {:induction false} InsideBody(lines: seq<Line>, begin: Pattern, end: Pattern, e: nat, i: nat)
    requires 1 <= i <= e <= |lines| && Hit(lines[0], begin)
    requires forall j :: 1 <= j < e ==> !Hit(lines[j], end)
    ensures Inside(lines, begin, end, i)
  {
    if i > 1 { InsideBody(lines, begin, end, e, i - 1); }
  }

  lemma FencedAt(open: Line, body: seq<Line>, close: Line, rest: seq<Piece>, i: nat)
    ensures ElidedAt([Kept(open)] + ([Elided(body)] + ([Kept(close)] + rest)), i) <==>
      || 1 <= i <= |body|
      || (|body| + 2 <= i && ElidedAt(rest, i - |body| - 2))
  {
    hide ElidedAt;
    AtCons(Kept(open), [Elided(body)] + ([Kept(close)] + rest), i);
    if i >= 1 { AtCons(Elided(body), [Kept(close)] + rest, i - 1); }
    if i >= 1 + |body| { AtCons(Kept(close), rest, i - 1 - |body|); }
  }

  lemma UnclosedAt(open: Line, body: seq<Line>, i: nat)
    ensures ElidedAt([Kept(open)] + (if body == [] then [] else [Elided(body)]), i) <==> 1 <= i <= |body|
  {
    AtCons(Kept(open), if body == [] then [] else [Elided(body)], i);
    if i >= 1 {
      AtCons(Elided(body), [], i - 1);
      assert [Elided(body)] + [] == [Elided(body)];
    }
  }

  /** What the division of a fenced text elides: the body up to the closing fence, then the rest. */
  lemma FencePiecesAt(lines: seq<Line>, begin: Pattern, end: Pattern, i: nat)
    requires i < |lines| && Hit(lines[0], begin)
    ensures var e := 1 + FirstHit(lines[1..], end);
      ElidedAt(FencePieces(lines, begin, end), i) <==>
        || 1 <= i < e
        || (e < i && ElidedAt(FencePieces(lines[e + 1..], begin, end), i - e - 1))
  {
    hide ElidedAt;
    var body := lines[1..];
    var e := FirstHit(body, end);
    if e < |body| {
      assert body[e + 1..] == lines[e + 2..];
      FencedAt(lines[0], body[..e], body[e], FencePieces(lines[e + 2..], begin, end), i);
    } else {
      UnclosedAt(lines[0], body, i);
    }
  }

  /** `collapse_between` elides exactly the lines strictly inside fences. */
  lemma {:induction false} ElidesExactlyInside(lines: seq<Line>, begin: Pattern, end: Pattern, i: nat)
    requires i < |lines|
    ensures ElidedAt(FencePieces(lines, begin, end), i) <==>
      Inside(lines, begin, end, i) && !Hit(lines[i], end)
    decreases |lines|
  {
    if !Hit(lines[0], begin) {
      AtCons(Kept(lines[0]), FencePieces(lines[1..], begin, end), i);
      if i > 0 {
        InsideShift(lines, begin, end, 1, i);
        ElidesExactlyInside(lines[1..], begin, end, i - 1);
      }
    } else {
      hide FencePieces, ElidedAt;
      var e := 1 + FirstHit(lines[1..], end);
      FencePiecesAt(lines, begin, end, i);
      assert forall j :: 1 <= j < e ==> lines[j] == lines[1..][j - 1];
      if 1 <= i <= e {
        InsideBody(lines, begin, end, e, i);
      } else if e < i {
        InsideBody(lines, begin, end, e, e);
        assert lines[e] == lines[1..][e - 1];
        InsideShift(lines, begin, end, e + 1, i);
        ElidesExactlyInside(lines[e + 1..], begin, end, i - e - 1);
      }
    }
  }

  // ---- Conservation ----

  function KeptCount(pieces: seq<Piece>): nat {
    if pieces == [] then 0 else (if pieces[0].Kept? then 1 else 0) + KeptCount(pieces[1..])
  }

  /** The sum of the counts written into the inserted markers. */
  function CountedTotal(pieces: seq<Piece>): nat {
    if pieces == [] then 0
    else (if pieces[0].Elided? then |pieces[0].lines| else 0) + CountedTotal(pieces[1..])
  }

  lemma {:induction false} PiecesAddUp(pieces: seq<Piece>)
    ensures KeptCount(pieces) + CountedTotal(pieces) == |Unpiece(pieces)|
  {
    if pieces != [] { PiecesAddUp(pieces[1..]); }
  }

  lemma UnpieceCons(piece: Piece, rest: seq<Piece>)
    ensures Unpiece([piece] + rest) == (match piece case Kept(l) => [l] case Elided(ls) => ls) + Unpiece(rest)
  {
    assert ([piece] + rest)[1..] == rest;
  }

  lemma UnpieceKept(l: Line, rest: seq<Piece>)
    ensures Unpiece([Kept(l)] + rest) == [l] + Unpiece(rest)
  {
    UnpieceCons(Kept(l), rest);
  }

  lemma UnpieceRun(run: seq<Line>, min: nat, rest: seq<Piece>)
    ensures Unpiece(RunHead(run, min) + rest) == run + Unpiece(rest)
  {
    if |run| >= min { UnpieceCons(Elided(run), rest); } else { KeepEachPrefix(run, rest, 0, 0); }
  }

  lemma TileKept(lines: seq<Line>, p: Pattern, min: nat)
    requires lines != [] && RunLength(lines, p) == 0 && Unpiece(RunPieces(lines[1..], p, min)) == lines[1..]
    ensures Unpiece(RunPieces(lines, p, min)) == lines
  {
    hide RunPieces, RunHead, RunLength, Unpiece;
    RunPiecesUnfold(lines, p, min);
    UnpieceKept(lines[0], RunPieces(lines[1..], p, min));
  }

  lemma TileRun(lines: seq<Line>, p: Pattern, min: nat, k: nat)
    requires 0 < k <= |lines| && RunLength(lines, p) == k && Unpiece(RunPieces(lines[k..], p, min)) == lines[k..]
    ensures Unpiece(RunPieces(lines, p, min)) == lines
  {
    hide RunPieces, RunHead, RunLength, Unpiece;
    RunPiecesUnfold(lines, p, min);
    UnpieceRun(lines[..k], min, RunPieces(lines[k..], p, min));
  }

  lemma {:induction false} RunPiecesTile(lines: seq<Line>, p: Pattern, min: nat)
    ensures Unpiece(RunPieces(lines, p, min)) == lines
    decreases |lines|
  {
    if lines != [] {
      hide RunPieces, RunHead, RunLength, Unpiece;
      var k := RunLength(lines, p);
      if k == 0 {
        RunPiecesTile(lines[1..], p, min);
        TileKept(lines, p, min);
      } else {
        RunPiecesTile(lines[k..], p, min);
        TileRun(lines, p, min, k);
      }
    }
  }

  lemma {:induction false} FencePiecesTile(lines: seq<Line>, begin: Pattern, end: Pattern)
    ensures Unpiece(FencePieces(lines, begin, end)) == lines
    decreases |lines|
  {
    if lines != [] {
      hide Unpiece, Hit, FirstHit;
      if !Hit(lines[0], begin) {
        FencePiecesTile(lines[1..], begin, end);
        UnpieceKept(lines[0], FencePieces(lines[1..], begin, end));
        assert lines == [lines[0]] + lines[1..];
      } else {
        var body := lines[1..];
        var e := FirstHit(body, end);
        assert lines == [lines[0]] + body;
        if e < |body| {
          FencePiecesTile(body[e + 1..], begin, end);
          FencedTile(lines[0], body, e, FencePieces(body[e + 1..], begin, end));
        } else {
          UnclosedTile(lines[0], body);
        }
      }
    }
  }

  lemma UnclosedTile(open: Line, body: seq<Line>)
    ensures Unpiece([Kept(open)] + (if body == [] then [] else [Elided(body)])) == [open] + body
  {
    UnpieceKept(open, if body == [] then [] else [Elided(body)]);
    if body != [] {
      UnpieceCons(Elided(body), []);
      assert [Elided(body)] + [] == [Elided(body)];
    }
  }

  lemma FencedTile(open: Line, body: seq<Line>, e: nat, rest: seq<Piece>)
    requires e < |body| && Unpiece(rest) == body[e + 1..]
    ensures Unpiece([Kept(open)] + ([Elided(body[..e])] + ([Kept(body[e])] + rest))) == [open] + body
  {
    UnpieceCons(Kept(body[e]), rest);
    UnpieceCons(Elided(body[..e]), [Kept(body[e])] + rest);
    UnpieceCons(Kept(open), [Elided(body[..e])] + ([Kept(body[e])] + rest));
    assert body[..e] + ([body[e]] + body[e + 1..]) == body;
  }

  /** In both collapse rules the lines kept, plus the counts in the inserted markers, make up the input. */
  lemma CollapseConserves(lines: seq<Line>, p: Pattern, min: nat, begin: Pattern, end: Pattern)
    ensures KeptCount(RunPieces(lines, p, min)) + CountedTotal(RunPieces(lines, p, min)) == |lines|
    ensures KeptCount(FencePieces(lines, begin, end)) + CountedTotal(FencePieces(lines, begin, end)) == |lines|
  {
    RunPiecesTile(lines, p, min);
    PiecesAddUp(RunPieces(lines, p, min));
    FencePiecesTile(lines, begin, end);
    PiecesAddUp(FencePieces(lines, begin, end));
  }

  // ---- What a marker prints ----

  ghost predicate Occurs(s: string) { exists i :: 0 <= i <= |s| && "{count}" <= s[i..] }

  lemma OccursCons(s: string)
    requires s != ""
    ensures Occurs(s) <==> "{count}" <= s || Occurs(s[1..])
  {
    if i :| 0 <= i <= |s| && "{count}" <= s[i..] {
      if i == 0 {
        assert s[0..] == s;
      } else {
        assert s[1..][i - 1..] == s[i..];
      }
    }
    if i :| 0 <= i <= |s| - 1 && "{count}" <= s[1..][i..] {
      assert s[i + 1..] == s[1..][i..];
    }
    if "{count}" <= s { assert s[0..] == s; }
  }

  lemma {:induction false} SubstituteNothing(t: string, n: nat)
    requires !Occurs(t)
    ensures Substitute(t, n) == t
  {
    if t != "" {
      OccursCons(t);
      SubstituteNothing(t[1..], n);
    }
  }

  /** A count that starts in `a` ends in `a`. */
  lemma NoStraddle(a: string, rest: string)
    requires a != ""
    ensures "{count}" <= a + ("{count}" + rest) <==> "{count}" <= a
  {
    var t, w := a + ("{count}" + rest), "{count}";
    assert t[|a|] == '{' && forall k :: 0 < k < 7 ==> w[k] != '{';
    if w <= t { assert forall i :: 0 <= i < 7 && i < |a| ==> a[i] == w[i] && t[i] == w[i]; }
  }

  /** The first "{count}" becomes the decimal numeral of the count, and what is left of it stays. */
  lemma {:induction false} SubstituteFirst(a: string, b: string, n: nat)
    requires !Occurs(a)
    ensures Substitute(a + ("{count}" + b), n) == a + (Decimal(n) + Substitute(b, n))
    decreases |a|
  {
    var t := a + ("{count}" + b);
    if a == "" {
      assert t == "{count}" + b && t[7..] == b;
    } else {
      NoStraddle(a, b);
      OccursCons(a);
      assert t[1..] == a[1..] + ("{count}" + b) && t[0] == a[0];
      SubstituteFirst(a[1..], b, n);
      hide Occurs;
      ConcatAssoc([a[0]], a[1..], Decimal(n) + Substitute(b, n));
    }
  }

  /** Reading the count back from a marker printed from a template with the count between `a` and `b`. */
  function CountIn(text: string, a: string, b: string): nat {
    if |a| + |b| <= |text| && AllDigits(text[|a|..|text| - |b|]) then NumeralValue(text[|a|..|text| - |b|]) else 0
  }

  /** The template `a{count}b`, with one count. */
  ghost predicate CountsOnce(template: string, a: string, b: string) {
    template == a + ("{count}" + b) && !Occurs(a) && !Occurs(b)
  }

  /** A marker prints the decimal numeral of the number of lines it stands for, which reads back. */
  lemma MarkerPrints(ls: seq<Line>, template: string, a: string, b: string)
    requires template == a + ("{count}" + b) && !Occurs(a) && !Occurs(b)
    ensures RenderPiece(Elided(ls), template) == Placeholder(a + (Decimal(|ls|) + b))
    ensures CountIn(RenderPiece(Elided(ls), template).text, a, b) == |ls|
  {
    var n := |ls|;
    assert RenderPiece(Elided(ls), template) == Placeholder(Substitute(template, n));
    CountReads(n, a, b);
    hide *;
    SubstituteFirst(a, b, n);
    SubstituteNothing(b, n);
  }

  lemma CountReads(n: nat, a: string, b: string)
    ensures CountIn(a + (Decimal(n) + b), a, b) == n
  {
    DecimalValue(n);
    hide Decimal, NumeralValue, AllDigits;
    var d := Decimal(n);
    var text := a + (d + b);
    assert text[|a|..|text| - |b|] == d;
  }

  /** The input lines an output speaks for: what its inserted markers print, and one for every other line. */
  function Reported(out: seq<Line>, inserted: seq<bool>, a: string, b: string): nat
    requires |inserted| == |out|
  {
    if out == [] then 0
    else (if inserted[0] then CountIn(out[0].text, a, b) else 1) + Reported(out[1..], inserted[1..], a, b)
  }

  /** Which lines of the output were inserted. */
  function Inserted(pieces: seq<Piece>): (r: seq<bool>)
    ensures |r| == |pieces|
  {
    MapSeq(pieces, (piece: Piece) => piece.Elided?)
  }

  lemma {:induction false} PiecesReported(pieces: seq<Piece>, template: string, a: string, b: string)
    requires CountsOnce(template, a, b)
    ensures |RenderPieces(pieces, template)| == |pieces|
    ensures Reported(RenderPieces(pieces, template), Inserted(pieces), a, b) == |Unpiece(pieces)|
  {
    if pieces != [] {
      hide Occurs;
      PiecesReported(pieces[1..], template, a, b);
      if pieces[0].Elided? { MarkerPrints(pieces[0].lines, template, a, b); }
      hide CountIn;
      assert Inserted(pieces)[1..] == Inserted(pieces[1..]);
      assert RenderPieces(pieces, template)[1..] == RenderPieces(pieces[1..], template);
    }
  }

  /** Conservation as the reader of the output sees it: for every template with one count, the numbers the
      inserted markers print, read back, and the other lines add up to the input, for both rules. */
  lemma OutputConserves(lines: seq<Line>, p: Pattern, min: nat, begin: Pattern, end: Pattern,
                        template: string, a: string, b: string)
    requires CountsOnce(template, a, b)
    ensures var out, inserted := CollapseRuns(lines, p, template, min), Inserted(RunPieces(lines, p, min));
      |inserted| == |out| && Reported(out, inserted, a, b) == |lines|
    ensures var out, inserted := CollapseFences(lines, begin, end, template), Inserted(FencePieces(lines, begin, end));
      |inserted| == |out| && Reported(out, inserted, a, b) == |lines|
  {
    hide CountsOnce, RunPieces, FencePieces, Reported, Unpiece;
    RunPiecesTile(lines, p, min);
    PiecesReported(RunPieces(lines, p, min), template, a, b);
    FencePiecesTile(lines, begin, end);
    PiecesReported(FencePieces(lines, begin, end), template, a, b);
  }

  predicate AllVerbatim(lines: seq<Line>) { forall l :: l in lines ==> l.Verbatim? }

  /** On an input without markers, the inserted lines are the markers of the output. */
  lemma {:induction false} InsertedAreMarkers(pieces: seq<Piece>, template: string)
    requires AllVerbatim(Unpiece(pieces))
    ensures |RenderPieces(pieces, template)| == |pieces|
    ensures forall i :: 0 <= i < |pieces| ==> Inserted(pieces)[i] == RenderPieces(pieces, template)[i].Placeholder?
  {
    if pieces != [] {
      var rest := pieces[1..];
      assert forall l :: l in Unpiece(rest) ==> l in Unpiece(pieces);
      InsertedAreMarkers(rest, template);
      var out := RenderPieces(pieces, template);
      assert out[1..] == RenderPieces(rest, template);
      assert pieces[0].Kept? ==> pieces[0].line in Unpiece(pieces);
      forall i | 0 <= i < |pieces| ensures Inserted(pieces)[i] == out[i].Placeholder? {
        if i > 0 { assert out[i] == out[1..][i - 1] && Inserted(rest)[i - 1] == Inserted(pieces)[i]; }
      }
    }
  }

  /** The markers of a text. */
  function MarkedAt(out: seq<Line>): (r: seq<bool>)
    ensures |r| == |out|
  {
    MapSeq(out, (l: Line) => l.Placeholder?)
  }

  /** The same on the output alone, for an input without markers. */
  lemma OutputConservesVerbatim(lines: seq<Line>, p: Pattern, min: nat, begin: Pattern, end: Pattern,
                                template: string, a: string, b: string)
    requires CountsOnce(template, a, b) && AllVerbatim(lines)
    ensures var out := CollapseRuns(lines, p, template, min); Reported(out, MarkedAt(out), a, b) == |lines|
    ensures var out := CollapseFences(lines, begin, end, template); Reported(out, MarkedAt(out), a, b) == |lines|
  {
    hide CountsOnce, RunPieces, FencePieces, Reported, Unpiece, RenderPieces;
    OutputConserves(lines, p, min, begin, end, template, a, b);
    RunPiecesTile(lines, p, min);
    InsertedAreMarkers(RunPieces(lines, p, min), template);
    assert MarkedAt(CollapseRuns(lines, p, template, min)) == Inserted(RunPieces(lines, p, min));
    FencePiecesTile(lines, begin, end);
    InsertedAreMarkers(FencePieces(lines, begin, end), template);
    assert MarkedAt(CollapseFences(lines, begin, end, template)) == Inserted(FencePieces(lines, begin, end));
  }

  /** The number of markers inserted. */
  function Markers(pieces: seq<Piece>): nat {
    if pieces == [] then 0 else (if pieces[0].Elided? then 1 else 0) + Markers(pieces[1..])
  }

  lemma {:induction false} RenderedLength(pieces: seq<Piece>, template: string)
    ensures |RenderPieces(pieces, template)| == KeptCount(pieces) + Markers(pieces)
  {
    if pieces != [] { RenderedLength(pieces[1..], template); }
  }

  /** Each fence that prints a marker adds a line and each line inside a fence takes one away, so the
      output is longer than the input if and only if such fences outnumber such lines. */
  lemma FencesGrowIff(lines: seq<Line>, begin: Pattern, end: Pattern, template: string)
    ensures var ps, out := FencePieces(lines, begin, end), CollapseFences(lines, begin, end, template);
      && |out| + CountedTotal(ps) == |lines| + Markers(ps)
      && (|out| > |lines| <==> Markers(ps) > CountedTotal(ps))
  {
    CollapseConserves(lines, begin, 0, begin, end);
    RenderedLength(FencePieces(lines, begin, end), template);
  }

  /** Two adjacent fences gain a zero-count marker, so `collapse_between` can lengthen the output. */
  lemma FencesCanGrow(template: string)
    ensures exists lines: seq<Line>, begin: Pattern, end: Pattern ::
      |CollapseFences(lines, begin, end, template)| > |lines|
  {
    var b, e := Verbatim("b"), Verbatim("e");
    var begin, end: Pattern := (t: string) => t == "b", (t: string) => t == "e";
    var lines := [b, e];
    FenceOpen(lines, begin, end, template);
    assert lines[1..] == [e];
    FirstHitIs([e], end, 0);
    assert |FenceBody([e], begin, end, template)| >= 2;
    assert |CollapseFences(lines, begin, end, template)| > |lines|;
  }

  // ---- Idempotence ----

  /** The last line kept so far has the text of the last line seen. */
  lemma {:induction false} DedupLast(lines: seq<Line>, n: nat)
    requires 0 < n <= |lines|
    ensures var out := DedupTo(lines, n);
      out != [] && out[|out| - 1].text == lines[n - 1].text
  {
    DedupStep(lines, n - 1);
    hide DedupTo;
    if n > 1 { DedupLast(lines, n - 1); }
  }

  ghost predicate NoRepeats(lines: seq<Line>) { forall j :: 0 < j < |lines| ==> lines[j - 1].text != lines[j].text }

  lemma NoRepeatsPush(lines: seq<Line>, l: Line)
    requires NoRepeats(lines) && (lines != [] ==> lines[|lines| - 1].text != l.text)
    ensures NoRepeats(lines + [l])
  {
  }

  lemma {:induction false} DedupNoRepeats(lines: seq<Line>, n: nat)
    requires n <= |lines|
    ensures NoRepeats(DedupTo(lines, n))
  {
    if n > 0 {
      DedupStep(lines, n - 1);
      DedupNoRepeats(lines, n - 1);
      if n > 1 { DedupLast(lines, n - 1); }
      hide DedupTo, NoRepeats;
      var prev := DedupTo(lines, n - 1);
      if n == 1 || lines[n - 2].text != lines[n - 1].text { NoRepeatsPush(prev, lines[n - 1]); }
    }
  }

  ghost predicate HasText(lines: seq<Line>, t: string) { exists i :: 0 <= i < |lines| && lines[i].text == t }

  lemma HasTextPush(lines: seq<Line>, l: Line, t: string)
    ensures HasText(lines + [l], t) <==> HasText(lines, t) || l.text == t
  {
    var all := lines + [l];
    assert forall i :: 0 <= i < |lines| ==> all[i] == lines[i];
    assert all[|lines|] == l;
  }

  lemma HasTextAt(lines: seq<Line>, i: nat)
    requires i < |lines|
    ensures HasText(lines, lines[i].text)
  {
  }

  lemma {:induction false} DedupSameTexts(lines: seq<Line>, n: nat, t: string)
    requires n <= |lines|
    ensures HasText(lines[..n], t) <==> HasText(DedupTo(lines, n), t)
  {
    if n == 0 {
      assert DedupTo(lines, 0) == lines[..0];
    } else {
      DedupStep(lines, n - 1);
      hide HasText, DedupTo;
      var prev := DedupTo(lines, n - 1);
      DedupSameTexts(lines, n - 1, t);
      assert lines[..n] == lines[..n - 1] + [lines[n - 1]];
      HasTextPush(lines[..n - 1], lines[n - 1], t);
      HasTextPush(prev, lines[n - 1], t);
      if n > 1 { HasTextAt(lines[..n - 1], n - 2); }
    }
  }

  lemma {:induction false} SelectAll<T>(s: seq<T>, keep: nat -> bool, n: nat)
    requires n <= |s| && forall i: nat :: i < n ==> keep(i)
    ensures SelectTo(s, keep, n) == s[..n]
  {
    if n > 0 { SelectAll(s, keep, n - 1); }
  }

  /** `dedup` leaves no equal neighbours, keeps the set of texts, and is idempotent. */
  lemma DedupLaws(serde: Serde, lines: seq<Line>)
    ensures var out := Meaning(serde, Dedup, lines);
      && NoRepeats(out)
      && (forall t :: HasText(lines, t) <==> HasText(out, t))
      && Meaning(serde, Dedup, out) == out
  {
    var out := Meaning(serde, Dedup, lines);
    assert out == DedupTo(lines, |lines|);
    assert lines[..|lines|] == lines && out[..|out|] == out;
    assert Meaning(serde, Dedup, out) == DedupTo(out, |out|);
    hide Meaning, HasText;
    DedupNoRepeats(lines, |lines|);
    forall t ensures HasText(lines, t) <==> HasText(out, t) {
      DedupSameTexts(lines, |lines|, t);
    }
    SelectAll(out, DedupAt(out), |out|);
  }

  /** Collapsing runs twice is collapsing them once, whatever the threshold. */
  lemma {:induction false} CollapseRunsIdempotent(lines: seq<Line>, p: Pattern, template: string, min: nat)
    ensures var out := CollapseRuns(lines, p, template, min);
      && CollapseRuns(out, p, template, min) == out
      && (lines == [] <==> out == [])
      && (lines != [] && !Hit(lines[0], p) ==> out[0] == lines[0])
    decreases |lines|
  {
    if lines != [] {
      hide Substitute;
      var k := RunLength(lines, p);
      var rest := lines[if k == 0 then 1 else k..];
      var out, out' := CollapseRuns(lines, p, template, min), CollapseRuns(rest, p, template, min);
      CollapseRunsStep(lines, p, template, min, k);
      CollapseRunsIdempotent(rest, p, template, min);
      if k == 0 || k >= min {
        assert out == [out[0]] + out' && out[1..] == out';
        RunLengthIs(out, p, 0);
        CollapseRunsStep(out, p, template, min, 0);
      } else {
        assert out == lines[..k] + out' && out[..k] == lines[..k] && out[k..] == out';
        RunLengthIs(out, p, k);
        CollapseRunsStep(out, p, template, min, k);
      }
    }
  }

  /** The kept prefix is the longest one that fits, and the output exceeds the limit by at most the marker. */
  lemma {:induction false} FitLengthLongest(lines: seq<Line>, bytes: nat, n: nat)
    requires n <= |lines|
    ensures PrintedBytes(lines[..FitLength(lines, bytes, n)]) <= bytes
    ensures forall j :: FitLength(lines, bytes, n) < j <= n ==> PrintedBytes(lines[..j]) > bytes
  {
    if n > 0 && PrintedBytes(lines[..n]) > bytes { FitLengthLongest(lines, bytes, n - 1); }
  }

  lemma PrintedBytesPush(lines: seq<Line>, l: Line)
    ensures PrintedBytes(lines + [l]) == PrintedBytes(lines) + ByteLen(l.text) + 1
  {
    assert (lines + [l])[..|lines|] == lines;
  }

  lemma TruncateLaws(lines: seq<Line>, bytes: nat)
    ensures var out := Truncate(lines, bytes); var k := FitLength(lines, bytes, |lines|);
      && PrintedBytes(lines[..k]) <= bytes && lines[..k] <= out
      && (k < |lines| ==>
            && PrintedBytes(lines[..k + 1]) > bytes
            && out == lines[..k] + [Placeholder("[... truncated to " + (Decimal(bytes) + " bytes ...]"))])
      && PrintedBytes(out) <= bytes + ByteLen(TruncationMarker(bytes).text) + 1
      && Truncate(out, bytes) == out
  {
    var out, k, marker := Truncate(lines, bytes), FitLength(lines, bytes, |lines|), TruncationMarker(bytes);
    FitLengthLongest(lines, bytes, |lines|);
    assert lines[..|lines|] == lines;
    ConcatAssoc("[... truncated to ", Decimal(bytes), " bytes ...]");
    if k < |lines| {
      PrintedBytesPush(lines[..k], marker);
      assert out[..k] == lines[..k] && out[..k + 1] == out;
      if PrintedBytes(out) > bytes { FitLengthIs(out, bytes, k); }
    }
  }

  // ---- Sections ----

  /** The latest entry of a text that starts with an entry is found in that text. */
  lemma {:induction false} EntryShift(states: seq<StateDef>, a: seq<Line>, b: seq<Line>, n: nat)
    requires 0 < n <= |b| && Enters(states, b[0])
    ensures LatestEntry(states, b, n).Some?
    ensures LatestEntry(states, a + b, |a| + n) == Some(|a| + LatestEntry(states, b, n).value)
  {
    assert (a + b)[|a| + n - 1] == b[n - 1];
    if !Enters(states, b[n - 1]) { EntryShift(states, a, b, n - 1); }
  }

  lemma {:induction false} EntryPrefix(states: seq<StateDef>, a: seq<Line>, b: seq<Line>, n: nat)
    requires n <= |a|
    ensures LatestEntry(states, a + b, n) == LatestEntry(states, a, n)
  {
    if n > 0 { EntryPrefix(states, a, b, n - 1); }
  }

  lemma {:induction false} SelectPrefix<T>(s: seq<T>, t: seq<T>, f: nat -> bool, g: nat -> bool, n: nat)
    requires n <= |s| && n <= |t| && s[..n] == t[..n]
    requires forall i: nat :: i < n ==> f(i) == g(i)
    ensures SelectTo(s, f, n) == SelectTo(t, g, n)
  {
    if n > 0 {
      assert s[..n][..n - 1] == s[..n - 1] && t[..n][..n - 1] == t[..n - 1];
      assert s[n - 1] == s[..n][n - 1] && t[n - 1] == t[..n][n - 1];
      SelectPrefix(s, t, f, g, n - 1);
    }
  }

  /** Selecting from a concatenation, position predicates permitting. */
  lemma {:induction false} SelectConcat<T>(
    a: seq<T>, b: seq<T>, f: nat -> bool, fa: nat -> bool, fb: nat -> bool, n: nat)
    requires n <= |b|
    requires forall i: nat :: i < |a| ==> f(i) == fa(i)
    requires forall i: nat :: |a| <= i < |a| + n ==> f(i) == fb(i - |a|)
    ensures SelectTo(a + b, f, |a| + n) == SelectTo(a, fa, |a|) + SelectTo(b, fb, n)
  {
    if n == 0 {
      assert (a + b)[..|a|] == a[..|a|];
      SelectPrefix(a + b, a, f, fa, |a|);
    } else {
      SelectConcat(a, b, f, fa, fb, n - 1);
      assert (a + b)[|a| + n - 1] == b[n - 1];
    }
  }

  lemma SectionPrefix(states: seq<StateDef>, a: seq<Line>, b: seq<Line>, i: nat)
    requires i < |a|
    ensures SectionAt(states, a + b)(i) == SectionAt(states, a)(i)
  {
    hide StateKeeps;
    EntryPrefix(states, a, b, i + 1);
  }

  lemma SectionAtEntry(states: seq<StateDef>, lines: seq<Line>, i: nat, e: nat)
    requires i < |lines| && LatestEntry(states, lines, i + 1) == Some(e)
    ensures SectionAt(states, lines)(i) <==>
      lines[i].Placeholder? || StateKeeps(states[Entered(states, lines[e].text)], lines[i].text)
  {
    hide StateKeeps, Entered;
  }

  lemma SectionShift(states: seq<StateDef>, a: seq<Line>, b: seq<Line>, i: nat)
    requires |a| <= i < |a| + |b| && Enters(states, b[0])
    ensures SectionAt(states, a + b)(i) == SectionAt(states, b)(i - |a|)
  {
    hide StateKeeps, SectionAt;
    var k := i - |a|;
    EntryShift(states, a, b, k + 1);
    var e := LatestEntry(states, b, k + 1).value;
    SectionAtEntry(states, a + b, i, |a| + e);
    SectionAtEntry(states, b, k, e);
  }

  /** Sections are independent: filtering a text that begins with an entry line does not depend on
      what came before it. */
  lemma SectionsCompose(states: seq<StateDef>, a: seq<Line>, b: seq<Line>)
    requires b != [] ==> Enters(states, b[0])
    ensures Sections(states, a + b) == Sections(states, a) + Sections(states, b)
  {
    hide SectionAt;
    var f, fa, fb := SectionAt(states, a + b), SectionAt(states, a), SectionAt(states, b);
    forall i: nat | i < |a| ensures f(i) == fa(i) {
      SectionPrefix(states, a, b, i);
    }
    forall i: nat | |a| <= i < |a| + |b| ensures f(i) == fb(i - |a|) {
      SectionShift(states, a, b, i);
    }
    SelectConcat(a, b, f, fa, fb, |b|);
  }

  /** A verbatim line in a section: the state is the first one whose entry pattern matches the latest entering
      line `e` at or before it. A drop pattern that matches decides; otherwise the line is kept if the state
      has no keep patterns, or one that matches. */
  lemma SectionDecides(states: seq<StateDef>, lines: seq<Line>, i: nat, e: nat, k: nat)
    requires e <= i < |lines| && k < |states| && lines[i].Verbatim? && lines[e].Verbatim?
    requires states[k].enter(lines[e].text) && forall m :: 0 <= m < k ==> !states[m].enter(lines[e].text)
    requires forall j :: e < j <= i ==> lines[j].Verbatim? ==>
      forall m :: 0 <= m < |states| ==> !states[m].enter(lines[j].text)
    ensures SectionAt(states, lines)(i) <==>
      && (forall m :: 0 <= m < |states[k].drop| ==> !states[k].drop[m](lines[i].text))
      && (states[k].keep == [] || exists m :: 0 <= m < |states[k].keep| && states[k].keep[m](lines[i].text))
  {
    assert Entered(states, lines[e].text) == k;
    assert Enters(states, lines[e]) && forall j :: e < j <= i ==> !Enters(states, lines[j]);
    assert LatestEntry(states, lines, i + 1) == Some(e);
    SectionAtEntry(states, lines, i, e);
  }

  /** Before any entry everything is kept, and markers always survive. */
  lemma SectionsKeep(states: seq<StateDef>, lines: seq<Line>)
    requires forall i :: 0 <= i < |lines| ==> lines[i].Placeholder? || !Enters(states, lines[i])
    ensures Sections(states, lines) == lines
  {
    SelectAll(lines, SectionAt(states, lines), |lines|);
    assert lines[..|lines|] == lines;
  }

  // ---- Records ----

  /** `ndjson_filter` keeps a line if it is a marker, or a document with that member holding a listed text. */
  lemma RecordKept(serde: Serde, lines: seq<Line>, field: string, values: seq<string>, i: nat)
    requires i < |lines|
    ensures NdjsonAt(serde, lines, field, values)(i) <==>
      || lines[i].Placeholder?
      || exists members: map<string, Json>, s: string ::
           && serde.parse(lines[i].text) == Some(Obj(members)) && field in members
           && members[field] == Str(s) && s in values
  {
    if lines[i].Verbatim? && KeepsRecord(serde, field, values, lines[i].text) {
      var v := serde.parse(lines[i].text).value;
      assert serde.parse(lines[i].text) == Some(Obj(v.members)) && v.members[field] == Str(v.members[field].text);
    }
  }

  lemma {:induction false} MembersKept(v: Json, paths: seq<string>, p: string)
    ensures p in KeptMembers(v, paths) <==> p in paths && Walk(v, StripDollar(p)).Some?
    ensures p in KeptMembers(v, paths) ==> Walk(v, StripDollar(p)) == Some(KeptMembers(v, paths)[p])
  {
    hide Walk;
    if paths != [] {
      MembersKept(v, paths[..|paths| - 1], p);
      assert paths == paths[..|paths| - 1] + [paths[|paths| - 1]];
    }
  }

  /** Joining is printing without the last newline. */
  lemma {:induction false} JoinIsPrinting(texts: seq<string>)
    requires texts != []
    ensures JoinLines(texts) + [NEWLINE] == Unlines(texts)
  {
    if |texts| == 1 {
      assert Unlines(texts[1..]) == "" && texts[0] + [NEWLINE] + "" == texts[0] + [NEWLINE];
    } else {
      JoinIsPrinting(texts[1..]);
      ConcatAssoc(texts[0] + [NEWLINE], JoinLines(texts[1..]), [NEWLINE]);
    }
  }

  /** `json_path_keep` on the lines of a document: the lines of the printed object that holds exactly the
      paths that lead somewhere, each under its own text. */
  lemma KeepsPaths(serde: Serde, lines: seq<Line>, paths: seq<string>, doc: string, v: Json,
                   kept: map<string, Json>, text: string)
    requires if lines == [] then doc == "" else doc + [NEWLINE] == Unlines(Texts(lines))
    requires serde.parse(doc) == Some(v)
    requires forall p :: p in kept <==> p in paths && Walk(v, StripDollar(p)).Some?
    requires forall p :: p in kept ==> Walk(v, StripDollar(p)) == Some(kept[p])
    requires serde.pretty(Obj(kept)) == Some(text)
    ensures var out := Meaning(serde, JsonPathKeep(paths), lines);
      |out| == |Lines(text)| && forall i :: 0 <= i < |out| ==> out[i] == Verbatim(Lines(text)[i])
  {
    assert JoinLines([]) == "";
    hide Walk, Lines, JoinLines, Unlines, KeptMembers;
    if lines != [] {
      JoinIsPrinting(Texts(lines));
      assert (JoinLines(Texts(lines)) + [NEWLINE])[..|doc|] == (doc + [NEWLINE])[..|doc|];
    }
    assert JoinLines(Texts(lines)) == doc;
    forall p ensures p in kept <==> p in KeptMembers(v, paths)
      ensures p in kept ==> kept[p] == KeptMembers(v, paths)[p]
    {
      MembersKept(v, paths, p);
    }
    assert kept == KeptMembers(v, paths);
  }

  // ---- No rule invents a line ----

  function Verbatims(lines: seq<Line>): seq<string> {
    if lines == [] then []
    else
      var init, last := Verbatims(lines[..|lines| - 1]), lines[|lines| - 1];
      if last.Verbatim? then init + [last.text] else init
  }

  lemma VerbatimsPush(lines: seq<Line>, l: Line)
    ensures Verbatims(lines + [l]) == if l.Verbatim? then Verbatims(lines) + [l.text] else Verbatims(lines)
  {
    assert (lines + [l])[..|lines|] == lines;
  }

  lemma {:induction false} VerbatimsConcat(a: seq<Line>, b: seq<Line>)
    ensures Verbatims(a + b) == Verbatims(a) + Verbatims(b)
    decreases |b|
  {
    if b == [] {
      assert a + b == a;
    } else {
      var init, last := b[..|b| - 1], b[|b| - 1];
      assert a + b == (a + init) + [last];
      VerbatimsPush(a + init, last);
      VerbatimsConcat(a, init);
    }
  }

  lemma {:induction false} SubseqVerbatims(a: seq<Line>, b: seq<Line>)
    requires Subseq(a, b)
    ensures Subseq(Verbatims(a), Verbatims(b))
    decreases |b|
  {
    if a != [] {
      var a', b', x := a[..|a| - 1], b[..|b| - 1], b[|b| - 1];
      assert b == b' + [x];
      if a[|a| - 1] == x && Subseq(a', b') {
        SubseqVerbatims(a', b');
        if x.Verbatim? { SubseqKeep(Verbatims(a'), Verbatims(b'), x.text); }
      } else {
        SubseqVerbatims(a, b');
        if x.Verbatim? { SubseqSkip(Verbatims(a), Verbatims(b'), x.text); }
      }
    }
  }

  lemma {:induction false} SelectSubseq<T>(s: seq<T>, keep: nat -> bool, n: nat)
    requires n <= |s|
    ensures Subseq(SelectTo(s, keep, n), s[..n])
  {
    if n > 0 {
      SelectSubseq(s, keep, n - 1);
      assert s[..n] == s[..n - 1] + [s[n - 1]];
      if keep(n - 1) {
        SubseqKeep(SelectTo(s, keep, n - 1), s[..n - 1], s[n - 1]);
      } else {
        SubseqSkip(SelectTo(s, keep, n - 1), s[..n - 1], s[n - 1]);
      }
    }
  }

  lemma {:induction false} RenderSubseq(pieces: seq<Piece>, template: string)
    ensures Subseq(Verbatims(RenderPieces(pieces, template)), Verbatims(Unpiece(pieces)))
  {
    if pieces != [] {
      RenderSubseq(pieces[1..], template);
      var head := RenderPiece(pieces[0], template);
      var source := match pieces[0] case Kept(l) => [l] case Elided(ls) => ls;
      VerbatimsConcat([head], RenderPieces(pieces[1..], template));
      VerbatimsConcat(source, Unpiece(pieces[1..]));
      VerbatimsPush([], head);
      assert [] + [head] == [head];
      SubseqRefl(Verbatims([head]));
      assert Subseq(Verbatims([head]), Verbatims(source));
      SubseqConcat(Verbatims([head]), Verbatims(source),
        Verbatims(RenderPieces(pieces[1..], template)), Verbatims(Unpiece(pieces[1..])));
    }
  }

  lemma {:induction false} StripEscapesFree(s: string)
    requires ESC !in s
    ensures StripEscapes(s) == s
  {
    if s != "" {
      assert s[0] in s;
      StripEscapesFree(s[1..]);
    }
  }

  // ---- Escape stripping ----

  /** ESC, '[', digits, ';' and '?', then a letter. */
  predicate IsEscape(t: string) {
    && |t| >= 3 && t[0] == '\U{1B}' && t[1] == '['
    && (forall i :: 2 <= i < |t| - 1 ==> t[i] in "0123456789;?")
    && ('a' <= t[|t| - 1] <= 'z' || 'A' <= t[|t| - 1] <= 'Z')
  }

  lemma ParamChars(c: char)
    ensures EscapeParam(c) <==> c in "0123456789;?"
    ensures IsLetter(c) ==> !EscapeParam(c)
  {
    var all := "0123456789;?";
    assert all[10] == ';' && all[11] == '?';
    if IsDigit(c) { assert all[c as int - '0' as int] == c; }
  }

  /** The length found is that of the escape sequence in front, and there is none when it is 0. */
  lemma EscapeLengthIff(s: string, n: nat)
    requires 0 < n <= |s|
    ensures EscapeLength(s) == n <==> IsEscape(s[..n])
  {
    forall c: char ensures (EscapeParam(c) <==> c in "0123456789;?") && (IsLetter(c) ==> !EscapeParam(c)) {
      ParamChars(c);
    }
    hide EscapeParam;
    if n >= 3 && s[0] == ESC && s[1] == '[' {
      assert forall i :: 2 <= i < n ==> s[..n][i] == s[2..][i - 2];
      if IsEscape(s[..n]) { FindCharIs(s[2..], c => !EscapeParam(c), n - 3); }
    }
  }

  predicate NoEscape(s: string) { forall i :: 0 <= i < |s| ==> EscapeLength(s[i..]) == 0 }

  lemma NoEscapeTail(s: string)
    requires s != ""
    ensures NoEscape(s) <==> EscapeLength(s) == 0 && NoEscape(s[1..])
  {
    hide EscapeLength;
    assert s[0..] == s;
    assert forall i :: 0 <= i < |s| - 1 ==> s[1..][i..] == s[i + 1..];
    assert forall i :: 0 < i < |s| ==> s[i..] == s[1..][i - 1..];
  }

  lemma SubseqDropFront(a: string, b: string, c: string)
    requires Subseq(b, c)
    ensures Subseq(b, a + c)
  {
    hide Subseq;
    assert Subseq([], a) by { SubseqEmpty(a); }
    SubseqConcat([], a, b, c);
    assert [] + b == b;
  }

  lemma {:induction false} StripIsSubseq(s: string)
    ensures Subseq(StripEscapes(s), s) && |StripEscapes(s)| <= |s|
    decreases |s|
  {
    hide Subseq, EscapeLength;
    if s == "" {
      SubseqEmpty(s);
    } else {
      var n := EscapeLength(s);
      if n > 0 {
        StripIsSubseq(s[n..]);
        SubseqDropFront(s[..n], StripEscapes(s[n..]), s[n..]);
        assert s[..n] + s[n..] == s;
      } else {
        StripIsSubseq(s[1..]);
        SubseqRefl([s[0]]);
        SubseqConcat([s[0]], [s[0]], StripEscapes(s[1..]), s[1..]);
        assert [s[0]] + s[1..] == s;
      }
    }
  }

  /** Stripping deletes only, and changes nothing exactly when no position starts an escape sequence. */
  lemma {:induction false} StripLaws(s: string)
    ensures Subseq(StripEscapes(s), s)
    ensures StripEscapes(s) == s <==> NoEscape(s)
    decreases |s|
  {
    hide Subseq;
    StripIsSubseq(s);
    if s != "" {
      NoEscapeTail(s);
      hide EscapeLength, NoEscape;
      if EscapeLength(s) > 0 {
        StripIsSubseq(s[EscapeLength(s)..]);
      } else {
        StripLaws(s[1..]);
        assert s == [s[0]] + s[1..] && ([s[0]] + StripEscapes(s[1..]))[1..] == StripEscapes(s[1..]);
      }
    }
  }

  /** An ESC that starts no sequence, but starts one once what follows it is stripped. */
  predicate JoinsAt(s: string, i: nat) {
    i < |s| && s[i] == ESC && EscapeLength(s[i..]) == 0 && EscapeLength([ESC] + StripEscapes(s[i + 1..])) > 0
  }

  predicate JoinsAfter(s: string, k: nat) { exists i: nat | k <= i < |s| :: JoinsAt(s, i) }

  lemma JoinsAtSuffix(s: string, k: nat, i: nat)
    requires k <= |s|
    ensures JoinsAt(s[k..], i) <==> JoinsAt(s, k + i)
  {
    hide EscapeLength, StripEscapes;
    if i < |s| - k {
      assert s[k..][i..] == s[k + i..] && s[k..][i + 1..] == s[k + i + 1..];
    }
  }

  lemma JoinsInSuffix(s: string, k: nat)
    requires k <= |s|
    ensures JoinsAfter(s[k..], 0) <==> JoinsAfter(s, k)
  {
    hide JoinsAt;
    forall i: nat | i < |s| - k ensures JoinsAt(s[k..], i) <==> JoinsAt(s, k + i) {
      JoinsAtSuffix(s, k, i);
    }
    if JoinsAfter(s, k) {
      var i: nat :| k <= i < |s| && JoinsAt(s, i);
      var d: nat := i - k;
      assert JoinsAt(s[k..], d) <==> JoinsAt(s, k + d);
    }
  }

  /** No ESC lies inside a sequence, and none joins anything there. */
  lemma SequenceHasOneEsc(s: string)
    requires s != ""
    ensures forall i :: 1 <= i < EscapeLength(s) ==> s[i] != ESC
  {
    var e := FindChar(if |s| < 2 then "" else s[2..], c => !EscapeParam(c));
    assert forall i :: 2 <= i < |s| ==> s[i] == s[2..][i - 2];
  }

  lemma JoinsFrom(s: string)
    requires s != ""
    ensures EscapeLength(s) > 0 ==> (JoinsAfter(s, 0) <==> JoinsAfter(s, EscapeLength(s)))
    ensures EscapeLength(s) == 0 ==> (JoinsAfter(s, 0) <==> JoinsAt(s, 0) || JoinsAfter(s, 1))
  {
    SequenceHasOneEsc(s);
    assert s[0..] == s;
    hide EscapeLength, StripEscapes;
  }

  /** An ESC in front of a stripped text. */
  lemma StrippedEscapes(s: string)
    requires s != "" && EscapeLength(s) == 0
    ensures NoEscape(StripEscapes(s)) <==> !JoinsAt(s, 0) && NoEscape(StripEscapes(s[1..]))
  {
    var t := [s[0]] + StripEscapes(s[1..]);
    assert StripEscapes(s) == t && t[1..] == StripEscapes(s[1..]) && s[0..] == s;
    NoEscapeTail(t);
    assert s[0] != ESC ==> EscapeLength(t) == 0;
    hide EscapeLength, StripEscapes, NoEscape;
  }

  lemma {:induction false} StrippedIsFreeIff(s: string)
    ensures NoEscape(StripEscapes(s)) <==> !JoinsAfter(s, 0)
    decreases |s|
  {
    if s != "" {
      var n := EscapeLength(s);
      JoinsFrom(s);
      if n > 0 {
        assert StripEscapes(s) == StripEscapes(s[n..]);
        hide StripEscapes, EscapeLength, NoEscape, JoinsAt, JoinsAfter;
        JoinsInSuffix(s, n);
        StrippedIsFreeIff(s[n..]);
      } else {
        hide StripEscapes, EscapeLength, NoEscape, JoinsAt, JoinsAfter;
        JoinsInSuffix(s, 1);
        StrippedEscapes(s);
        StrippedIsFreeIff(s[1..]);
      }
    }
  }

  /** Stripping twice is stripping once if and only if no ESC that starts no sequence comes to start one
      when the text behind it is stripped. */
  lemma StripTwiceIff(s: string)
    ensures StripEscapes(StripEscapes(s)) == StripEscapes(s) <==> forall i: nat :: i < |s| ==> !JoinsAt(s, i)
  {
    hide StripEscapes, NoEscape, JoinsAt;
    StripLaws(StripEscapes(s));
    StrippedIsFreeIff(s);
  }

  /** In particular when every ESC starts a sequence. */
  lemma StripTwiceWhole(s: string)
    requires forall i :: 0 <= i < |s| && s[i] == ESC ==> EscapeLength(s[i..]) > 0
    ensures StripEscapes(StripEscapes(s)) == StripEscapes(s)
  {
    StripTwiceIff(s);
  }

  /** Stripping is not idempotent: deleting one sequence can join the halves of another. */
  lemma StripTwiceDiffers()
    ensures exists s: string :: StripEscapes(StripEscapes(s)) != StripEscapes(s)
  {
    var inner := [ESC, '[', 'm'];
    var s := [ESC, '['] + inner + ['m'];
    SequenceLength(inner, "");
    SequenceLength(inner, ['m']);
    assert StripEscapes(inner + ['m']) == ['m'] by { assert (inner + ['m'])[3..] == ['m'] && ['m'][1..] == ""; }
    assert StripEscapes(['['] + (inner + ['m'])) == ['[', 'm'] by {
      assert (['['] + (inner + ['m']))[1..] == inner + ['m'];
    }
    assert s[1..] == ['['] + (inner + ['m']);
    assert EscapeLength(s) == 0 by {
      FindCharIs(s[2..], c => !EscapeParam(c), 0);
    }
    assert StripEscapes(s) == inner;
    assert StripEscapes(inner) == "" by { assert inner + "" == inner && inner[3..] == ""; }
  }

  lemma SequenceLength(e: string, after: string)
    requires e == [ESC, '[', 'm']
    ensures EscapeLength(e + after) == 3
  {
    FindCharIs((e + after)[2..], c => !EscapeParam(c), 0);
  }

  // ---- Slices ----

  /** `head_after` keeps a prefix: the lines not more than `n` after any match. */
  lemma HeadAfterKeeps(lines: seq<Line>, n: nat, p: Pattern, j: nat)
    requires j < |lines|
    ensures HeadAfterLines(lines, n, p) <= lines
    ensures j < |HeadAfterLines(lines, n, p)| <==> forall i :: 0 <= i < |lines| && Hit(lines[i], p) ==> j <= i + n
  {
    var m := FirstHit(lines, p);
    assert m < |lines| ==> Hit(lines[m], p);
  }

  /** `tail_before` keeps a suffix: every line that has a match at or before `n` lines further on, and
      all lines when nothing matches. */
  lemma TailBeforeKeeps(lines: seq<Line>, n: nat, p: Pattern, j: nat)
    requires j < |lines|
    ensures var out := TailBeforeLines(lines, n, p); var cut := |lines| - |out|;
      && cut >= 0 && out == lines[cut..]
      && (cut <= j <==>
            || (exists i :: 0 <= i < |lines| && i <= j + n && Hit(lines[i], p))
            || (forall i :: 0 <= i < |lines| ==> !Hit(lines[i], p)))
  {
    var m := FirstHit(lines, p);
    assert m < |lines| ==> Hit(lines[m], p);
  }

  predicate JsonRule(kind: RuleKind) { kind.JsonPathKeep? || kind.JsonPathDrop? }

  predicate EscapeFree(lines: seq<Line>) { forall t :: t in Verbatims(lines) ==> ESC !in t }

  lemma {:induction false} VerbatimIn(lines: seq<Line>, i: nat)
    requires i < |lines| && lines[i].Verbatim?
    ensures lines[i].text in Verbatims(lines)
  {
    if i < |lines| - 1 { VerbatimIn(lines[..|lines| - 1], i); }
  }

  /** One rule keeps a subsequence of the verbatim lines it is given. */
  lemma RuleKeepsSubseq(serde: Serde, kind: RuleKind, lines: seq<Line>)
    requires !JsonRule(kind) && (kind.StripAnsi? ==> EscapeFree(lines))
    ensures Subseq(Verbatims(Meaning(serde, kind, lines)), Verbatims(lines))
  {
    hide Subseq, Verbatims, SelectTo, RunPieces, FencePieces;
    var out := Meaning(serde, kind, lines);
    assert lines[..|lines|] == lines;
    match kind
    case CollapseRepeated(p, template, min) =>
      RenderSubseq(RunPieces(lines, p, min), template);
      RunPiecesTile(lines, p, min);
    case CollapseBetween(b, e, template) =>
      RenderSubseq(FencePieces(lines, b, e), template);
      FencePiecesTile(lines, b, e);
    case StripAnsi =>
      forall i | 0 <= i < |lines| ensures out[i] == lines[i] {
        if lines[i].Verbatim? { VerbatimIn(lines, i); StripEscapesFree(lines[i].text); }
      }
      assert out == lines;
      SubseqRefl(Verbatims(lines));
    case TruncateTo(bytes) =>
      var k := FitLength(lines, bytes, |lines|);
      SubseqSlice(lines, 0, k);
      SubseqVerbatims(lines[..k], lines);
      VerbatimsPush(lines[..k], TruncationMarker(bytes));
    case Head(n) => SubseqSlice(lines, 0, |out|); SubseqVerbatims(out, lines);
    case Tail(n) => SubseqSlice(lines, |lines| - |out|, |lines|); SubseqVerbatims(out, lines);
    case HeadAfter(n, p) => SubseqSlice(lines, 0, |out|); SubseqVerbatims(out, lines);
    case TailBefore(n, p) => SubseqSlice(lines, |lines| - |out|, |lines|); SubseqVerbatims(out, lines);
    case KeepLines(p) => SelectSubseq(lines, KeepAt(lines, p), |lines|); SubseqVerbatims(out, lines);
    case DropLines(p) => SelectSubseq(lines, DropAt(lines, p), |lines|); SubseqVerbatims(out, lines);
    case Dedup => SelectSubseq(lines, DedupAt(lines), |lines|); SubseqVerbatims(out, lines);
    case NdjsonFilter(f, vs) =>
      SelectSubseq(lines, NdjsonAt(serde, lines, f, vs), |lines|);
      SubseqVerbatims(out, lines);
    case StateMachine(states) => SelectSubseq(lines, SectionAt(states, lines), |lines|); SubseqVerbatims(out, lines);
  }

  /** Whole runs without JSON rules, on lines that are escape-free if any rule strips escapes: the verbatim
      output lines are an order-preserving subsequence of the verbatim input lines. */
  lemma {:induction false} RunKeepsSubseq(serde: Serde, rules: seq<RuleKind>, lines: seq<Line>, k: nat)
    requires k <= |rules|
    requires forall i :: 0 <= i < |rules| ==> !JsonRule(rules[i]) && (rules[i].StripAnsi? ==> EscapeFree(lines))
    ensures Subseq(Verbatims(After(serde, rules, lines, k)), Verbatims(lines))
  {
    hide Meaning;
    if k == 0 {
      SubseqRefl(Verbatims(lines));
    } else {
      var prev := After(serde, rules, lines, k - 1);
      RunKeepsSubseq(serde, rules, lines, k - 1);
      SubseqMembers(Verbatims(prev), Verbatims(lines));
      RuleKeepsSubseq(serde, rules[k - 1], prev);
      SubseqTrans(Verbatims(Meaning(serde, rules[k - 1], prev)), Verbatims(prev), Verbatims(lines));
    }
  }
}
