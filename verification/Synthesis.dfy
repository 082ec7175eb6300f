/** The structural-diff synthesizer: which profile it builds, what that profile does on its training
    samples, and when its self-test passes. */
module Synthesis {
  import opened Text
  import opened Budget
  import opened Rules
  import opened Interpreter
  import opened RuleLaws
  import opened Structural
  import opened Invariants
  import opened LineOrder

  const ANCHOR_CAP := 20
  const OUTPUT_CAP := 64 * 1024

  /** A line of every sample that is not blank. */
  ghost predicate IsCommon(samples: seq<string>, l: string) {
    samples != [] && !IsBlank(l) && forall i :: 0 <= i < |samples| ==> l in Lines(samples[i])
  }

  /** The sorted common lines: there is exactly one such sequence. */
  ghost predicate IsAnchors(samples: seq<string>, anchors: seq<string>) {
    Ordered(anchors) && forall l :: l in anchors <==> IsCommon(samples, l)
  }

  lemma AnchorsUnique(samples: seq<string>, a: seq<string>, b: seq<string>)
    requires IsAnchors(samples, a) && IsAnchors(samples, b)
    ensures a == b
  {
    OrderedIff(a);
    OrderedIff(b);
    IncreasingUnique(a, b);
  }

  // ---- Counting lines across samples ----

  /** In how many samples a line occurs. */
  function Occurrences(samples: seq<string>, l: string): nat {
    if samples == [] then 0
    else Occurrences(samples[..|samples| - 1], l) + (if l in Lines(samples[|samples| - 1]) then 1 else 0)
  }

  lemma {:induction false} OccursEverywhere(samples: seq<string>, l: string)
    ensures Occurrences(samples, l) <= |samples|
    ensures Occurrences(samples, l) == |samples| <==> forall i :: 0 <= i < |samples| ==> l in Lines(samples[i])
  {
    if samples != [] {
      var init := samples[..|samples| - 1];
      OccursEverywhere(init, l);
      assert forall i :: 0 <= i < |init| ==> init[i] == samples[i];
    }
  }

  function Count(counts: map<string, nat>, l: string): nat {
    if l in counts then counts[l] else 0
  }

  /** Add one to the count of each line of a set, in whatever order the set is visited. */
  method CountOnce(counts: map<string, nat>, seen: set<string>) returns (r: map<string, nat>)
    ensures forall l :: Count(r, l) == Count(counts, l) + if l in seen then 1 else 0
  {
    r := counts;
    var rest := seen;
    while rest != {}
      invariant rest <= seen
      invariant forall l :: Count(r, l) == Count(counts, l) + if l in seen && l !in rest then 1 else 0
      decreases rest
    {
      var l :| l in rest;
      r := r[l := Count(r, l) + 1];
      rest := rest - {l};
    }
  }

  method ConstantLinesAcross(samples: seq<string>) returns (out: seq<string>)
    ensures IsAnchors(samples, out)
  {
    if samples == [] { return []; }
    var counts: map<string, nat> := map[];
    for i := 0 to |samples|
      invariant forall l :: Count(counts, l) == Occurrences(samples[..i], l)
    {
      assert samples[..i + 1][..i] == samples[..i];
      var seen := set l | l in Lines(samples[i]);
      counts := CountOnce(counts, seen);
    }
    assert samples[..|samples|] == samples;
    var kept := [];
    var keys := counts.Keys;
    while keys != {}
      invariant keys <= counts.Keys
      invariant forall l :: l in kept <==> l in counts && l !in keys && counts[l] == |samples| && !IsBlank(l)
      decreases keys
    {
      var l :| l in keys;
      if counts[l] == |samples| && !IsBlank(l) {
        kept := kept + [l];
      }
      keys := keys - {l};
    }
    out := Sort(kept);
    SortSorts(kept);
    OrderedIff(out);
    forall l ensures l in out <==> IsCommon(samples, l) {
      OccursEverywhere(samples, l);
      assert Count(counts, l) == Occurrences(samples, l);
    }
  }

  // ---- The profile ----

  datatype Profile = Profile(rules: seq<RuleKind>, invariants: seq<Invariant>)

  function Top(anchors: seq<string>): seq<string> { anchors[..Min(|anchors|, ANCHOR_CAP)] }

  lemma {:induction false} ManyLines(s: seq<string>)
    requires forall i, j :: 0 <= i < j < |s| ==> s[i] != s[j]
    ensures |set l | l in s| == |s|
  {
    if s != [] {
      var init, last := s[..|s| - 1], s[|s| - 1];
      ManyLines(init);
      assert (set l | l in s) == (set l | l in init) + {last};
      assert last !in init;
    }
  }

  lemma AnchorsDistinct(samples: seq<string>, anchors: seq<string>, i: nat, j: nat)
    requires IsAnchors(samples, anchors) && i < |anchors| && j < |anchors|
    ensures Precedes(anchors[i], anchors[j]) <==> i < j
    ensures anchors[i] == anchors[j] <==> i == j
  {
    hide Precedes, Less;
    LessIff(anchors[i], anchors[j]);
    LessIff(anchors[j], anchors[i]);
    LessIrreflexive(anchors[i]);
    if Less(anchors[i], anchors[j]) && Less(anchors[j], anchors[i]) {
      LessTransitive(anchors[i], anchors[j], anchors[i]);
    }
  }

  /** Twenty common lines come before a line. */
  ghost predicate TwentyBefore(samples: seq<string>, l: string) {
    exists before: set<string> :: |before| == 20 && forall x :: x in before ==> IsCommon(samples, x) && Precedes(x, l)
  }

  /** A common line is left out of the profile exactly when twenty common lines come before it. */
  lemma LeftOutIff(samples: seq<string>, anchors: seq<string>, l: string)
    requires IsAnchors(samples, anchors) && IsCommon(samples, l)
    ensures l !in Top(anchors) <==> TwentyBefore(samples, l)
  {
    hide IsCommon, Precedes;
    var k :| 0 <= k < |anchors| && anchors[k] == l;
    forall i, j | 0 <= i < |anchors| && 0 <= j < |anchors|
      ensures Precedes(anchors[i], anchors[j]) <==> i < j
      ensures anchors[i] == anchors[j] <==> i == j
    {
      AnchorsDistinct(samples, anchors, i, j);
    }
    var top, below := anchors[..Min(|anchors|, 20)], anchors[..k];
    ManyLines(top);
    ManyLines(below);
    if k >= 20 {
      var before := set x | x in top;
      assert forall x :: x in before ==> IsCommon(samples, x) && Precedes(x, l);
    } else {
      assert Top(anchors)[k] == l;
      forall before: set<string> | forall x :: x in before ==> IsCommon(samples, x) && Precedes(x, l)
        ensures |before| < 20
      {
        forall x | x in before ensures x in below {
          var i :| 0 <= i < |anchors| && anchors[i] == x;
          assert below[i] == x;
        }
        SubsetSize(before, set x | x in below);
      }
    }
  }

  lemma {:induction false} SubsetSize(a: set<string>, b: set<string>)
    requires a <= b
    ensures |a| <= |b|
  {
    if x :| x in a {
      SubsetSize(a - {x}, b - {x});
    }
  }

  /** `^(a|b|...)$` over escaped literals: the line is one of them. */
  function OneOf(lines: seq<string>): Pattern { t => t in lines }

  function BlankLine(): Pattern { t => IsBlank(t) }

  function NonBlank(): Pattern { t => !IsBlank(t) }

  /** The anchors in use: none when there are none, or when their pattern does not compile. */
  predicate UsesAnchors(anchors: seq<string>, compiles: seq<string> -> bool) {
    anchors != [] && compiles(Top(anchors))
  }

  function SynthesizedRules(anchors: seq<string>, compiles: seq<string> -> bool): seq<RuleKind> {
    var tail := [DropLines(BlankLine()), Dedup, TruncateTo(OUTPUT_CAP)];
    [StripAnsi] + (if UsesAnchors(anchors, compiles) then [KeepLines(OneOf(Top(anchors)))] + tail else tail)
  }

  function SynthesizedInvariants(lex: Lexicon): seq<Invariant> {
    [Invariant("ErrorLinesPreserved", AllMatchingPreserved(Some(lex.errorLine))),
     Invariant("ExitLinePreserved", ExitLinePreserved)]
  }

  method Synthesize(lex: Lexicon, samples: seq<string>, compiles: seq<string> -> bool)
    returns (p: Profile)
    ensures forall anchors :: IsAnchors(samples, anchors) ==>
      p == Profile(SynthesizedRules(anchors, compiles), SynthesizedInvariants(lex))
  {
    var lines := ConstantLinesAcross(samples);
    var rules := [];
    rules := rules + [StripAnsi];
    if lines != [] {
      var alts := lines[..Min(|lines|, ANCHOR_CAP)];
      if compiles(alts) {
        rules := rules + [KeepLines(OneOf(alts))];
      }
    }
    rules := rules + [DropLines(BlankLine())];
    rules := rules + [Dedup];
    rules := rules + [TruncateTo(OUTPUT_CAP)];
    var invariants := [Invariant("ErrorLinesPreserved", AllMatchingPreserved(Some(lex.errorLine)))];
    invariants := invariants + [Invariant("ExitLinePreserved", ExitLinePreserved)];
    p := Profile(rules, invariants);
    forall anchors | IsAnchors(samples, anchors) ensures anchors == lines { AnchorsUnique(samples, anchors, lines); }
  }

  // ---- What the profile does on one sample, said on plain lines ----

  function Wanted(anchors: seq<string>, compiles: seq<string> -> bool): Pattern {
    t => !IsBlank(t) && (UsesAnchors(anchors, compiles) ==> t in Top(anchors))
  }

  function Filter(texts: seq<string>, p: Pattern): seq<string> {
    if texts == [] then []
    else
      var init, last := Filter(texts[..|texts| - 1], p), texts[|texts| - 1];
      if p(last) then init + [last] else init
  }

  function AsVerbatim(texts: seq<string>): seq<Line> { MapSeq(texts, t => Verbatim(t)) }

  /** The wanted lines of a sample in order, adjacent repeats merged. */
  function Digest(sample: string, anchors: seq<string>, compiles: seq<string> -> bool): seq<string> {
    MergeAdjacent(WantedLines(sample, anchors, compiles))
  }

  lemma AsVerbatimPush(texts: seq<string>, t: string)
    ensures AsVerbatim(texts + [t]) == AsVerbatim(texts) + [Verbatim(t)]
  {
  }

  lemma {:induction false} FilterLaw(texts: seq<string>, p: Pattern, keep: nat -> bool, n: nat)
    requires n <= |texts|
    requires forall i: nat :: i < |texts| ==> keep(i) == p(texts[i])
    ensures SelectTo(AsVerbatim(texts), keep, n) == AsVerbatim(Filter(texts[..n], p))
  {
    if n > 0 {
      FilterLaw(texts, p, keep, n - 1);
      assert texts[..n][..n - 1] == texts[..n - 1];
      AsVerbatimPush(Filter(texts[..n - 1], p), texts[n - 1]);
    }
  }

  lemma {:induction false} MergeLaw(texts: seq<string>, n: nat)
    requires n <= |texts|
    ensures DedupTo(AsVerbatim(texts), n) == AsVerbatim(MergeAdjacent(texts[..n]))
  {
    if n > 0 {
      MergeLaw(texts, n - 1);
      assert texts[..n][..n - 1] == texts[..n - 1];
      assert n > 1 ==> texts[..n][n - 2] == texts[n - 2];
      AsVerbatimPush(MergeAdjacent(texts[..n - 1]), texts[n - 1]);
    }
  }

  lemma {:induction false} FilterFilter(texts: seq<string>, p: Pattern, q: Pattern, both: Pattern)
    requires forall t :: both(t) <==> p(t) && q(t)
    ensures Filter(Filter(texts, p), q) == Filter(texts, both)
  {
    if texts != [] {
      var init, last := texts[..|texts| - 1], texts[|texts| - 1];
      FilterFilter(init, p, q, both);
      if p(last) { assert (Filter(init, p) + [last])[..|Filter(init, p)|] == Filter(init, p); }
    }
  }

  lemma {:induction false} FilterMembers(texts: seq<string>, p: Pattern)
    ensures forall t :: t in Filter(texts, p) <==> t in texts && p(t)
  {
    if texts != [] {
      FilterMembers(texts[..|texts| - 1], p);
      assert texts == texts[..|texts| - 1] + [texts[|texts| - 1]];
    }
  }

  lemma {:induction false} MergeMembers(texts: seq<string>)
    ensures forall t :: t in MergeAdjacent(texts) <==> t in texts
  {
    if texts != [] {
      var n := |texts|;
      MergeMembers(texts[..n - 1]);
      assert texts == texts[..n - 1] + [texts[n - 1]];
      if n > 1 { assert texts[..n - 1][n - 2] == texts[n - 2]; }
    }
  }

  lemma {:induction false} FilterSame(texts: seq<string>, p: Pattern, q: Pattern)
    requires forall t :: p(t) <==> q(t)
    ensures Filter(texts, p) == Filter(texts, q)
  {
    if texts != [] { FilterSame(texts[..|texts| - 1], p, q); }
  }

  predicate Plain(sample: string) { ESC !in sample && '\r' !in sample }

  /** Removing escapes leaves an escape-free sample alone. */
  lemma StripPlain(serde: Serde, sample: string)
    requires Plain(sample)
    ensures InitialLines(sample) == AsVerbatim(Lines(sample))
    ensures Meaning(serde, StripAnsi, AsVerbatim(Lines(sample))) == AsVerbatim(Lines(sample))
  {
    var lines := AsVerbatim(Lines(sample));
    LinesCrFree(sample);
    CharsOfLines(sample, ESC);
    forall i | 0 <= i < |lines| ensures StripLine(lines[i]) == lines[i] {
      assert Lines(sample)[i] in Lines(sample);
      StripEscapesFree(Lines(sample)[i]);
    }
  }

  lemma KeepMeaning(serde: Serde, texts: seq<string>, p: Pattern)
    ensures Meaning(serde, KeepLines(p), AsVerbatim(texts)) == AsVerbatim(Filter(texts, p))
  {
    FilterLaw(texts, p, KeepAt(AsVerbatim(texts), p), |texts|);
    assert texts[..|texts|] == texts;
  }

  lemma DropBlankMeaning(serde: Serde, texts: seq<string>)
    ensures Meaning(serde, DropLines(BlankLine()), AsVerbatim(texts)) == AsVerbatim(Filter(texts, NonBlank()))
  {
    hide IsBlank;
    FilterLaw(texts, NonBlank(), DropAt(AsVerbatim(texts), BlankLine()), |texts|);
    assert texts[..|texts|] == texts;
  }

  lemma DedupMeaning(serde: Serde, texts: seq<string>)
    ensures Meaning(serde, Dedup, AsVerbatim(texts)) == AsVerbatim(MergeAdjacent(texts))
  {
    hide Meaning;
    MergeLaw(texts, |texts|);
    assert texts[..|texts|] == texts;
    MeaningOfDedup(serde, AsVerbatim(texts));
  }

  lemma MeaningOfDedup(serde: Serde, lines: seq<Line>)
    ensures Meaning(serde, Dedup, lines) == DedupTo(lines, |lines|)
  {
  }

  // ---- The run of a synthesized profile, stage by stage ----

  function WantedLines(sample: string, anchors: seq<string>, compiles: seq<string> -> bool): seq<string> {
    Filter(Lines(sample), Wanted(anchors, compiles))
  }

  lemma {:induction false} BytesConcat(a: seq<Line>, l: Line)
    ensures Bytes(a + [l]) == Bytes(a) + ByteLen(l.text)
  {
    assert (a + [l])[..|a|] == a;
  }

  lemma {:induction false} FilterIsSmaller(texts: seq<string>, p: Pattern)
    ensures Bytes(AsVerbatim(Filter(texts, p))) <= Bytes(AsVerbatim(texts))
  {
    if texts != [] {
      var init, last := texts[..|texts| - 1], texts[|texts| - 1];
      FilterIsSmaller(init, p);
      hide Bytes, AsVerbatim;
      assert texts == init + [last];
      AsVerbatimPush(init, last);
      BytesConcat(AsVerbatim(init), Verbatim(last));
      AsVerbatimPush(Filter(init, p), last);
      BytesConcat(AsVerbatim(Filter(init, p)), Verbatim(last));
    }
  }

  lemma {:induction false} MergeIsSmaller(texts: seq<string>)
    ensures Bytes(AsVerbatim(MergeAdjacent(texts))) <= Bytes(AsVerbatim(texts))
  {
    if texts != [] {
      var init, last := texts[..|texts| - 1], texts[|texts| - 1];
      MergeIsSmaller(init);
      hide Bytes, AsVerbatim;
      assert texts == init + [last];
      AsVerbatimPush(init, last);
      BytesConcat(AsVerbatim(init), Verbatim(last));
      AsVerbatimPush(MergeAdjacent(init), last);
      BytesConcat(AsVerbatim(MergeAdjacent(init)), Verbatim(last));
    }
  }

  /** After `k` rules these texts are left and so many steps have been counted; no stage so far is larger
      than the input. */
  ghost predicate Stage(
    serde: Serde, rules: seq<RuleKind>, lines: seq<Line>, k: nat, texts: seq<string>, steps: nat)
    requires k <= |rules|
  {
    && After(serde, rules, lines, k) == AsVerbatim(texts)
    && StepsAfter(serde, rules, lines, k) == steps
    && SmallTo(serde, rules, lines, k)
  }

  ghost predicate SmallTo(serde: Serde, rules: seq<RuleKind>, lines: seq<Line>, k: nat)
    requires k <= |rules|
  {
    forall j :: 0 <= j <= k ==> Bytes(After(serde, rules, lines, j)) <= Bytes(lines)
  }

  /** What the last rule leaves, how many steps were counted, and no earlier stage larger than the input. */
  ghost predicate RunIs(
    serde: Serde, rules: seq<RuleKind>, lines: seq<Line>, digest: seq<string>, steps: nat)
  {
    && rules != [] && After(serde, rules, lines, |rules|) == Truncate(AsVerbatim(digest), OUTPUT_CAP)
    && StepsAfter(serde, rules, lines, |rules|) == steps
    && SmallTo(serde, rules, lines, |rules| - 1)
  }

  lemma LengthOfVerbatim(texts: seq<string>)
    ensures |AsVerbatim(texts)| == |texts|
  {
  }

  /** A rule that visits every line once and makes the text no larger. */
  lemma NextStage(
    serde: Serde, rules: seq<RuleKind>, lines: seq<Line>, k: nat, texts: seq<string>, steps: nat, next: seq<string>)
    requires k < |rules| && Stage(serde, rules, lines, k, texts, steps)
    requires Meaning(serde, rules[k], AsVerbatim(texts)) == AsVerbatim(next)
    requires Bytes(AsVerbatim(next)) <= Bytes(AsVerbatim(texts))
    requires rules[k].StripAnsi? || rules[k].KeepLines? || rules[k].DropLines? || rules[k].Dedup?
    ensures Stage(serde, rules, lines, k + 1, next, steps + |texts|)
  {
    LengthOfVerbatim(texts);
    hide Meaning, AsVerbatim, Bytes;
    assert Bytes(After(serde, rules, lines, k)) <= Bytes(lines);
  }

  lemma StripStage(serde: Serde, rules: seq<RuleKind>, sample: string)
    requires Plain(sample) && rules != [] && rules[0] == StripAnsi
    ensures Stage(serde, rules, InitialLines(sample), 1, Lines(sample), |Lines(sample)|)
  {
    hide Meaning, AsVerbatim, InitialLines, Bytes;
    StripPlain(serde, sample);
    assert Stage(serde, rules, InitialLines(sample), 0, Lines(sample), 0);
    hide Stage;
    NextStage(serde, rules, InitialLines(sample), 0, Lines(sample), 0, Lines(sample));
  }

  /** The last three rules of every synthesized profile. */
  ghost predicate EndsAsUsual(rules: seq<RuleKind>, k: nat) {
    && k + 3 == |rules|
    && rules[k] == DropLines(BlankLine()) && rules[k + 1] == Dedup && rules[k + 2] == TruncateTo(OUTPUT_CAP)
  }

  /** Dropping the blank lines, merging equal neighbours, and the cut. */
  lemma TailStages(
    serde: Serde, rules: seq<RuleKind>, lines: seq<Line>, k: nat, texts: seq<string>, steps: nat, kept: seq<string>)
    requires EndsAsUsual(rules, k)
    requires Stage(serde, rules, lines, k, texts, steps) && kept == Filter(texts, NonBlank())
    ensures RunIs(serde, rules, lines, MergeAdjacent(kept), steps + |texts| + |kept|)
  {
    hide Meaning, AsVerbatim, MergeAdjacent, Filter, Stage, NonBlank, BlankLine, Bytes, RunIs;
    DropBlankMeaning(serde, texts);
    FilterIsSmaller(texts, NonBlank());
    NextStage(serde, rules, lines, k, texts, steps, kept);
    DedupMeaning(serde, kept);
    MergeIsSmaller(kept);
    NextStage(serde, rules, lines, k + 1, kept, steps + |texts|, MergeAdjacent(kept));
    LastStage(serde, rules, lines, k + 2, MergeAdjacent(kept), steps + |texts| + |kept|);
  }

  lemma LastStage(serde: Serde, rules: seq<RuleKind>, lines: seq<Line>, k: nat, texts: seq<string>, steps: nat)
    requires k + 1 == |rules| && rules[k] == TruncateTo(OUTPUT_CAP) && Stage(serde, rules, lines, k, texts, steps)
    ensures RunIs(serde, rules, lines, texts, steps)
  {
    hide Truncate, AsVerbatim, Bytes, SmallTo;
  }

  lemma RulesAre(anchors: seq<string>, compiles: seq<string> -> bool)
    ensures var rules := SynthesizedRules(anchors, compiles);
      && |rules| == (if UsesAnchors(anchors, compiles) then 5 else 4) && rules[0] == StripAnsi
      && (UsesAnchors(anchors, compiles) ==> EndsAsUsual(rules, 2) && rules[1] == KeepLines(OneOf(Top(anchors))))
      && (!UsesAnchors(anchors, compiles) ==> EndsAsUsual(rules, 1))
  {
  }

  lemma FilterNonBlank(texts: seq<string>, anchors: seq<string>, compiles: seq<string> -> bool)
    ensures !UsesAnchors(anchors, compiles) ==> Filter(texts, NonBlank()) == Filter(texts, Wanted(anchors, compiles))
    ensures UsesAnchors(anchors, compiles) ==>
      Filter(Filter(texts, OneOf(Top(anchors))), NonBlank()) == Filter(texts, Wanted(anchors, compiles))
  {
    hide IsBlank;
    if UsesAnchors(anchors, compiles) {
      FilterFilter(texts, OneOf(Top(anchors)), NonBlank(), Wanted(anchors, compiles));
    } else {
      FilterSame(texts, NonBlank(), Wanted(anchors, compiles));
    }
  }

  lemma RunWithout(serde: Serde, sample: string, anchors: seq<string>, compiles: seq<string> -> bool)
    requires Plain(sample) && !UsesAnchors(anchors, compiles)
    ensures var kept := WantedLines(sample, anchors, compiles);
      RunIs(serde, SynthesizedRules(anchors, compiles), InitialLines(sample), MergeAdjacent(kept),
        2 * |Lines(sample)| + |kept|)
  {
    hide *;
    var rules, texts := SynthesizedRules(anchors, compiles), Lines(sample);
    RulesAre(anchors, compiles);
    FilterNonBlank(texts, anchors, compiles);
    StripStage(serde, rules, sample);
    TailStages(serde, rules, InitialLines(sample), 1, texts, |texts|, Filter(texts, NonBlank()));
    WantedAre(sample, anchors, compiles);
  }

  lemma WantedAre(sample: string, anchors: seq<string>, compiles: seq<string> -> bool)
    ensures WantedLines(sample, anchors, compiles) == Filter(Lines(sample), Wanted(anchors, compiles))
  {
  }

  lemma RunWith(serde: Serde, sample: string, anchors: seq<string>, compiles: seq<string> -> bool)
    requires Plain(sample) && UsesAnchors(anchors, compiles)
    ensures var kept := WantedLines(sample, anchors, compiles);
      RunIs(serde, SynthesizedRules(anchors, compiles), InitialLines(sample), MergeAdjacent(kept),
        2 * |Lines(sample)| + |Filter(Lines(sample), OneOf(Top(anchors)))| + |kept|)
  {
    hide *;
    RulesAre(anchors, compiles);
    var rules, texts := SynthesizedRules(anchors, compiles), Lines(sample);
    var some := Filter(texts, OneOf(Top(anchors)));
    FilterNonBlank(texts, anchors, compiles);
    StripStage(serde, rules, sample);
    KeepMeaning(serde, texts, OneOf(Top(anchors)));
    FilterIsSmaller(texts, OneOf(Top(anchors)));
    NextStage(serde, rules, InitialLines(sample), 1, texts, |texts|, some);
    TailStages(serde, rules, InitialLines(sample), 2, some, 2 * |texts|, Filter(some, NonBlank()));
    WantedAre(sample, anchors, compiles);
  }

  /** On an escape-free, CR-free sample the synthesized profile outputs the sample's wanted lines in
      order, adjacent repeats merged, up to the size cap. */
  lemma SynthesizedMeaning(
    serde: Serde, sample: string, anchors: seq<string>, compiles: seq<string> -> bool)
    requires Plain(sample)
    ensures var rules := SynthesizedRules(anchors, compiles);
      After(serde, rules, InitialLines(sample), |rules|) ==
      Truncate(AsVerbatim(Digest(sample, anchors, compiles)), OUTPUT_CAP)
  {
    hide SynthesizedRules, After, InitialLines, Truncate, AsVerbatim, MergeAdjacent, Filter, UsesAnchors, Plain;
    if UsesAnchors(anchors, compiles) {
      RunWith(serde, sample, anchors, compiles);
    } else {
      RunWithout(serde, sample, anchors, compiles);
    }
  }

  /** The kept text of a sample fits the size cap, so nothing is truncated. */
  predicate Fits(sample: string, anchors: seq<string>, compiles: seq<string> -> bool) {
    PrintedBytes(AsVerbatim(Digest(sample, anchors, compiles))) <= OUTPUT_CAP
  }

  lemma DigestLines(serde: Serde, sample: string, anchors: seq<string>, compiles: seq<string> -> bool)
    requires Plain(sample) && Fits(sample, anchors, compiles)
    ensures var rules := SynthesizedRules(anchors, compiles);
      var out := After(serde, rules, InitialLines(sample), |rules|);
      out == AsVerbatim(Digest(sample, anchors, compiles)) &&
      Lines(Printed(out)) == Digest(sample, anchors, compiles)
  {
    var rules, digest := SynthesizedRules(anchors, compiles), Digest(sample, anchors, compiles);
    var lines := AsVerbatim(digest);
    SynthesizedMeaning(serde, sample, anchors, compiles);
    assert lines[..|lines|] == lines;
    assert Truncate(lines, OUTPUT_CAP) == lines;
    DigestMembers(sample, anchors, compiles);
    LinesCrFree(sample);
    InputLinesHaveNoNewline(sample);
    CharsOfLines(sample, '\r');
    hide Digest, Meaning, After, SynthesizedRules, Truncate;
    assert Texts(lines) == digest;
    LinesOfUnlines(digest);
    forall i | 0 <= i < |digest| ensures StripCr(digest[i]) == digest[i] {
      var d := digest[i];
      assert d in digest;
      assert d != "" ==> d[|d| - 1] in d;
    }
    assert MapSeq(digest, StripCr) == digest;
  }

  lemma DigestMembers(sample: string, anchors: seq<string>, compiles: seq<string> -> bool)
    ensures forall l :: l in Digest(sample, anchors, compiles) <==> l in Lines(sample) && Wanted(anchors, compiles)(l)
  {
    FilterMembers(Lines(sample), Wanted(anchors, compiles));
    MergeMembers(Filter(Lines(sample), Wanted(anchors, compiles)));
  }

  // ---- The self-test ----

  /** A profile passes on one sample: the run stays within budget and every invariant holds. */
  ghost predicate PassesOn(serde: Serde, lex: Lexicon, p: Profile, sample: string, clock: Clock) {
    && RunFits(serde, p.rules, InitialLines(sample), DEFAULT, clock)
    && forall i :: 0 <= i < |p.invariants| ==>
         Holds(serde, lex, p.invariants[i].check, sample,
               Printed(After(serde, p.rules, InitialLines(sample), |p.rules|)))
  }

  lemma BadNeverHolds(serde: Serde, lex: Lexicon, check: InvariantCheck, raw: string, compressed: string)
    requires !Compiles(check)
    ensures !Holds(serde, lex, check, raw, compressed)
  {
  }

  /** One round of the self-test loop: a budget overrun, a pattern that does not compile and a failed
      invariant all end it. */
  method TestOne(serde: Serde, lex: Lexicon, p: Profile, sample: string, clock: Clock) returns (ok: bool)
    ensures ok <==> PassesOn(serde, lex, p, sample, clock)
  {
    hide RunFits, Holds, After;
    var co := ApplyRulesWithBudget(serde, sample, p.rules, DEFAULT, clock);
    if co.budgetAborted {
      return false;
    }
    var compressed := Printed(co.lines);
    var outcome := CheckInvariants(serde, lex, p.invariants, sample, compressed);
    if outcome.BadPattern? {
      ghost var i: nat :| FirstBad(p.invariants, i);
      assert !Holds(serde, lex, p.invariants[i].check, sample, compressed) by {
        BadNeverHolds(serde, lex, p.invariants[i].check, sample, compressed);
      }
      return false;
    }
    var results := outcome.all;
    for k := 0 to |results|
      invariant forall i :: 0 <= i < k ==> results[i].passed
    {
      if !results[k].passed {
        return false;
      }
    }
    return true;
  }

  /** The self-test loop that guards promotion; `clocks[i]` is the clock read while sample `i` runs. */
  method SelfTest(serde: Serde, lex: Lexicon, p: Profile, samples: seq<string>, clocks: seq<Clock>) returns (ok: bool)
    requires |clocks| == |samples|
    ensures ok <==> forall i :: 0 <= i < |samples| ==> PassesOn(serde, lex, p, samples[i], clocks[i])
  {
    hide PassesOn;
    for n := 0 to |samples|
      invariant forall i :: 0 <= i < n ==> PassesOn(serde, lex, p, samples[i], clocks[i])
    {
      var passed := TestOne(serde, lex, p, samples[n], clocks[n]);
      if !passed {
        return false;
      }
    }
    return true;
  }

  // ---- The budget of a synthesized profile ----

  /** Steps counted on one sample: two passes over its lines, and one or two over the wanted ones. */
  function TotalSteps(sample: string, anchors: seq<string>, compiles: seq<string> -> bool): nat {
    var kept := |WantedLines(sample, anchors, compiles)|;
    2 * |Lines(sample)| + (if UsesAnchors(anchors, compiles) then 2 * kept else kept)
  }

  lemma {:induction false} FilterAll(texts: seq<string>, p: Pattern)
    requires forall t :: t in texts ==> p(t)
    ensures Filter(texts, p) == texts
  {
    if texts != [] {
      assert texts == texts[..|texts| - 1] + [texts[|texts| - 1]];
      FilterAll(texts[..|texts| - 1], p);
    }
  }

  /** Filtering with the anchors alone keeps exactly the wanted lines, none of which is blank. */
  lemma AnchorsAreWanted(samples: seq<string>, texts: seq<string>, anchors: seq<string>, compiles: seq<string> -> bool)
    requires IsAnchors(samples, anchors) && UsesAnchors(anchors, compiles)
    ensures var kept := Filter(texts, OneOf(Top(anchors)));
      kept == Filter(texts, Wanted(anchors, compiles)) && Filter(kept, NonBlank()) == kept
  {
    hide IsBlank;
    var p := OneOf(Top(anchors));
    forall t ensures p(t) <==> Wanted(anchors, compiles)(t) {
      if t in Top(anchors) { assert t in anchors && IsCommon(samples, t); }
    }
    FilterSame(texts, p, Wanted(anchors, compiles));
    FilterMembers(texts, Wanted(anchors, compiles));
    FilterAll(Filter(texts, p), NonBlank());
  }

  lemma RunSteps(
    serde: Serde, samples: seq<string>, sample: string, anchors: seq<string>, compiles: seq<string> -> bool)
    requires Plain(sample) && IsAnchors(samples, anchors)
    ensures RunIs(serde, SynthesizedRules(anchors, compiles), InitialLines(sample), Digest(sample, anchors, compiles),
      TotalSteps(sample, anchors, compiles))
  {
    hide RunIs, SynthesizedRules, Lines, MergeAdjacent, Filter, Plain, IsAnchors, OneOf, Wanted;
    if UsesAnchors(anchors, compiles) {
      AnchorsAreWanted(samples, Lines(sample), anchors, compiles);
      RunWith(serde, sample, anchors, compiles);
    } else {
      RunWithout(serde, sample, anchors, compiles);
    }
  }

  /** A text that fits is left whole by the cut, and is no larger than its sample. */
  lemma CutNothing(lines: seq<Line>)
    requires PrintedBytes(lines) <= OUTPUT_CAP
    ensures Truncate(lines, OUTPUT_CAP) == lines
  {
    assert lines[..|lines|] == lines;
  }

  lemma DigestIsSmaller(sample: string, anchors: seq<string>, compiles: seq<string> -> bool)
    requires Plain(sample)
    ensures Bytes(AsVerbatim(Digest(sample, anchors, compiles))) <= Bytes(InitialLines(sample))
  {
    StripPlain(Serde(_ => None, _ => None), sample);
    hide Bytes, AsVerbatim, MergeAdjacent, Filter, InitialLines, Plain, Lines, Wanted, Meaning;
    FilterIsSmaller(Lines(sample), Wanted(anchors, compiles));
    MergeIsSmaller(WantedLines(sample, anchors, compiles));
  }

  /** What the default budget asks of one sample: enough steps, no late clock reading on a multiple of the
      clock period, and a text that fits in memory. */
  ghost predicate Affordable(sample: string, anchors: seq<string>, compiles: seq<string> -> bool, clock: Clock) {
    var n := TotalSteps(sample, anchors, compiles);
    && n <= DEFAULT.maxSteps
    && (forall s :: 0 < s <= n && s % CLOCK_PERIOD == 0 ==> clock(s) <= DEFAULT.maxWallclockMs)
    && Bytes(InitialLines(sample)) <= DEFAULT.maxPeakBytes
  }

  lemma StepsFitIff(b: Budget, clock: Clock, n: nat)
    ensures StepsFit(b, clock, 0, n) <==>
      && n <= b.maxSteps
      && forall s :: 0 < s <= n && s % CLOCK_PERIOD == 0 ==> clock(s) <= b.maxWallclockMs
  {
    if StepsFit(b, clock, 0, n) {
      assert n > 0 ==> CheckStep(b, clock, n).Pass?;
      forall s | 0 < s <= n && s % CLOCK_PERIOD == 0 ensures clock(s) <= b.maxWallclockMs {
        assert CheckStep(b, clock, s).Pass?;
      }
    }
  }

  /** A synthesized profile stays within budget on a sample it was made from exactly when the sample is
      affordable. */
  lemma RunFitsIff(
    serde: Serde, samples: seq<string>, sample: string, anchors: seq<string>, compiles: seq<string> -> bool,
    clock: Clock)
    requires Plain(sample) && Fits(sample, anchors, compiles) && IsAnchors(samples, anchors)
    ensures RunFits(serde, SynthesizedRules(anchors, compiles), InitialLines(sample), DEFAULT, clock) <==>
      Affordable(sample, anchors, compiles, clock)
  {
    var rules, lines := SynthesizedRules(anchors, compiles), InitialLines(sample);
    assert rules != [] && After(serde, rules, lines, 0) == lines;
    hide SynthesizedRules, After, StepsAfter, InitialLines, StepsFit, Bytes, Plain, IsAnchors, TotalSteps, Truncate;
    hide AsVerbatim, PrintedBytes, Digest;
    StepsFitIff(DEFAULT, clock, TotalSteps(sample, anchors, compiles));
    RunSteps(serde, samples, sample, anchors, compiles);
    CutNothing(AsVerbatim(Digest(sample, anchors, compiles)));
    DigestIsSmaller(sample, anchors, compiles);
    assert forall k :: 0 <= k <= |rules| ==> Bytes(After(serde, rules, lines, k)) <= Bytes(lines);
  }

  // ---- When the self-test passes ----

  /** On one sample: every error line is wanted, and if there is an exit line, a wanted one is. */
  ghost predicate Covers(lex: Lexicon, sample: string, wanted: Pattern) {
    && (forall l :: l in Lines(sample) && lex.errorLine(l) ==> wanted(l))
    && ((exists l :: l in Lines(sample) && lex.exitLine(l)) ==>
          exists l :: l in Lines(sample) && lex.exitLine(l) && wanted(l))
  }

  /** The self-test passes exactly when every sample is affordable and covered by the wanted lines: the first
      20 common lines when they are used, all lines that are not blank otherwise. */
  lemma SelfTestPassesIff(
    serde: Serde, lex: Lexicon, samples: seq<string>, anchors: seq<string>, compiles: seq<string> -> bool,
    clocks: seq<Clock>)
    requires |clocks| == |samples| && IsAnchors(samples, anchors)
    requires forall i :: 0 <= i < |samples| ==> Plain(samples[i]) && Fits(samples[i], anchors, compiles)
    ensures var p := Profile(SynthesizedRules(anchors, compiles), SynthesizedInvariants(lex));
      (forall i :: 0 <= i < |samples| ==> PassesOn(serde, lex, p, samples[i], clocks[i])) <==>
      forall i :: 0 <= i < |samples| ==>
        Affordable(samples[i], anchors, compiles, clocks[i]) && Covers(lex, samples[i], Wanted(anchors, compiles))
  {
    hide PassesOn, Affordable, Covers, Plain, Fits, IsAnchors, SynthesizedRules, SynthesizedInvariants, Wanted;
    var p := Profile(SynthesizedRules(anchors, compiles), SynthesizedInvariants(lex));
    forall i | 0 <= i < |samples|
      ensures PassesOn(serde, lex, p, samples[i], clocks[i]) <==>
        Affordable(samples[i], anchors, compiles, clocks[i]) && Covers(lex, samples[i], Wanted(anchors, compiles))
    {
      PassesOnIff(serde, lex, samples, samples[i], anchors, compiles, clocks[i]);
    }
  }

  lemma PassesOnIff(
    serde: Serde, lex: Lexicon, samples: seq<string>, sample: string, anchors: seq<string>,
    compiles: seq<string> -> bool, clock: Clock)
    requires Plain(sample) && Fits(sample, anchors, compiles) && IsAnchors(samples, anchors)
    ensures var p := Profile(SynthesizedRules(anchors, compiles), SynthesizedInvariants(lex));
      PassesOn(serde, lex, p, sample, clock) <==>
      Affordable(sample, anchors, compiles, clock) && Covers(lex, sample, Wanted(anchors, compiles))
  {
    var rules := SynthesizedRules(anchors, compiles);
    RunFitsIff(serde, samples, sample, anchors, compiles, clock);
    DigestLines(serde, sample, anchors, compiles);
    DigestMembers(sample, anchors, compiles);
    hide SynthesizedRules, Affordable, After, RunFits, Plain, Fits, IsAnchors, Wanted, Lines, Printed, Digest;
    InvariantsHoldIff(serde, lex, sample, Printed(After(serde, rules, InitialLines(sample), |rules|)),
      Wanted(anchors, compiles));
  }

  lemma InvariantsHoldIff(serde: Serde, lex: Lexicon, sample: string, out: string, wanted: Pattern)
    requires forall l :: l in Lines(out) <==> l in Lines(sample) && wanted(l)
    ensures var invariants := SynthesizedInvariants(lex);
      (forall k :: 0 <= k < |invariants| ==> Holds(serde, lex, invariants[k].check, sample, out)) <==>
      Covers(lex, sample, wanted)
  {
    hide Lines;
    var invariants := SynthesizedInvariants(lex);
    assert invariants[0].check == AllMatchingPreserved(Some(lex.errorLine));
    assert invariants[1].check == ExitLinePreserved;
  }

  ghost predicate ErrorsCovered(lex: Lexicon, samples: seq<string>, top: seq<string>) {
    forall i, l :: 0 <= i < |samples| && l in Lines(samples[i]) && lex.errorLine(l) ==> l in top
  }

  ghost predicate ExitCovered(lex: Lexicon, samples: seq<string>, top: seq<string>) {
    (exists i, l :: 0 <= i < |samples| && l in Lines(samples[i]) && lex.exitLine(l)) ==>
      exists l :: l in top && lex.exitLine(l)
  }

  /** With common lines in use, all samples are covered exactly when every error line of every sample is among
      the first 20 common lines, and an exit line is among them if any sample has one. */
  lemma CoveredByAnchorsIff(lex: Lexicon, samples: seq<string>, anchors: seq<string>, compiles: seq<string> -> bool)
    requires IsAnchors(samples, anchors) && UsesAnchors(anchors, compiles)
    ensures (forall i :: 0 <= i < |samples| ==> Covers(lex, samples[i], Wanted(anchors, compiles))) <==>
      ErrorsCovered(lex, samples, Top(anchors)) && ExitCovered(lex, samples, Top(anchors))
  {
    hide Lines, IsBlank;
    var top, wanted := Top(anchors), Wanted(anchors, compiles);
    forall l ensures wanted(l) <==> l in top
    {
      if l in top { assert l in anchors && IsCommon(samples, l); }
    }
    assert forall l, i :: l in top && 0 <= i < |samples| ==> l in Lines(samples[i]) by {
      forall l | l in top ensures IsCommon(samples, l) { assert l in anchors; }
    }
  }
}
