/** The rule interpreter: budgeted loops over the lines, proved against the meaning of each rule. */
module Interpreter {
  import opened Text
  import opened Json
  import opened Budget
  import opened Rules

  datatype CompressedOutput = CompressedOutput(
    lines: seq<Line>, bytesIn: nat, bytesOut: nat, budgetAborted: bool)

  /** What one budgeted loop guarantees: it finishes exactly when each of its `cost` steps passes the
      budget checks, and then it returns `meaning` and has counted `cost` steps. */
  ghost predicate Charged(
    res: Result<seq<Line>>, b: Budget, clock: Clock, from: nat, now: nat, cost: nat, meaning: seq<Line>)
  {
    && (res.Ok? <==> StepsFit(b, clock, from, from + cost))
    && (res.Ok? ==> res.value == meaning && now == from + cost)
  }

  // ---- Rule loops ----

  method KeepLoop(lines: seq<Line>, re: Pattern, r: BudgetRunner) returns (res: Result<seq<Line>>)
    modifies r`steps
    ensures Charged(res, r.budget, r.clock, old(r.steps), r.steps, |lines|, Select(lines, KeepAt(lines, re)))
  {
    var out := [];
    for i := 0 to |lines|
      invariant r.steps == old(r.steps) + i && StepsFit(r.budget, r.clock, old(r.steps), r.steps)
      invariant out == SelectTo(lines, KeepAt(lines, re), i)
    {
      var c := r.Tick();
      if c.Fail? { return Err(c.error); }
      if lines[i].Placeholder? || re(lines[i].text) {
        out := out + [lines[i]];
      }
    }
    return Ok(out);
  }

  method DropLoop(lines: seq<Line>, re: Pattern, r: BudgetRunner) returns (res: Result<seq<Line>>)
    modifies r`steps
    ensures Charged(res, r.budget, r.clock, old(r.steps), r.steps, |lines|, Select(lines, DropAt(lines, re)))
  {
    var out := [];
    for i := 0 to |lines|
      invariant r.steps == old(r.steps) + i && StepsFit(r.budget, r.clock, old(r.steps), r.steps)
      invariant out == SelectTo(lines, DropAt(lines, re), i)
    {
      var c := r.Tick();
      if c.Fail? { return Err(c.error); }
      if !(lines[i].Verbatim? && re(lines[i].text)) {
        out := out + [lines[i]];
      }
    }
    return Ok(out);
  }

  /** What a run from `start` to `i` is replaced by: one marker when long enough, else its lines. */
  function Flushed(start: Option<nat>, i: nat, src: seq<Line>, template: string, min: nat): seq<Line>
    requires i <= |src| && (start.Some? ==> start.value <= i)
  {
    if start.None? then []
    else if i - start.value >= min then [Placeholder(Substitute(template, i - start.value))]
    else src[start.value..i]
  }

  method Flush(start: Option<nat>, i: nat, out: seq<Line>, src: seq<Line>, template: string, min: nat)
    returns (r: seq<Line>)
    requires i <= |src| && (start.Some? ==> start.value <= i)
    ensures r == out + Flushed(start, i, src, template, min)
  {
    r := out;
    if start.Some? {
      var count := i - start.value;
      if count >= min {
        r := r + [Placeholder(Substitute(template, count))];
      } else {
        for j := start.value to i
          invariant r == out + src[start.value..j]
        {
          r := r + [src[j]];
        }
      }
    }
  }

  lemma {:induction false} RenderKeepEach(lines: seq<Line>, template: string)
    ensures RenderPieces(KeepEach(lines), template) == lines
  {
    if lines != [] {
      assert KeepEach(lines)[1..] == KeepEach(lines[1..]);
      RenderKeepEach(lines[1..], template);
    }
  }

  lemma {:induction false} RenderAppend(a: seq<Piece>, b: seq<Piece>, template: string)
    ensures RenderPieces(a + b, template) == RenderPieces(a, template) + RenderPieces(b, template)
  {
    if a == [] {
      assert a + b == b;
    } else {
      assert (a + b)[1..] == a[1..] + b;
      RenderAppend(a[1..], b, template);
    }
  }

  lemma RenderCons(piece: Piece, rest: seq<Piece>, template: string)
    ensures RenderPieces([piece] + rest, template) == [RenderPiece(piece, template)] + RenderPieces(rest, template)
  {
    assert ([piece] + rest)[1..] == rest;
  }

  lemma RunLengthIs(lines: seq<Line>, p: Pattern, k: nat)
    requires k <= |lines| && (k < |lines| ==> !Hit(lines[k], p))
    requires forall j :: 0 <= j < k ==> Hit(lines[j], p)
    ensures RunLength(lines, p) == k
  {
  }

  lemma FirstHitIs(lines: seq<Line>, p: Pattern, k: nat)
    requires k <= |lines| && (k < |lines| ==> Hit(lines[k], p))
    requires forall j :: 0 <= j < k ==> !Hit(lines[j], p)
    ensures FirstHit(lines, p) == k
  {
  }

  /** How a collapsed text begins, given the length of its first run. */
  lemma CollapseRunsStep(lines: seq<Line>, p: Pattern, template: string, min: nat, k: nat)
    requires k == RunLength(lines, p) && lines != []
    ensures CollapseRuns(lines, p, template, min) ==
      if k == 0 then [lines[0]] + CollapseRuns(lines[1..], p, template, min)
      else (if k >= min then [Placeholder(Substitute(template, k))] else lines[..k]) +
           CollapseRuns(lines[k..], p, template, min)
  {
    if k > 0 {
      if k >= min {
        RenderCons(Elided(lines[..k]), RunPieces(lines[k..], p, min), template);
      } else {
        RenderAppend(KeepEach(lines[..k]), RunPieces(lines[k..], p, min), template);
        RenderKeepEach(lines[..k], template);
      }
    }
  }

  method CollapseRepeatedLoop(lines: seq<Line>, re: Pattern, template: string, min: nat, r: BudgetRunner)
    returns (res: Result<seq<Line>>)
    modifies r`steps
    ensures Charged(res, r.budget, r.clock, old(r.steps), r.steps, |lines|, CollapseRuns(lines, re, template, min))
  {
    hide CollapseRuns, Substitute;
    ghost var all := CollapseRuns(lines, re, template, min);
    var out := [];
    var runStart: Option<nat> := None;
    ghost var left := all;
    assert lines[0..] == lines;
    for i := 0 to |lines|
      invariant r.steps == old(r.steps) + i && StepsFit(r.budget, r.clock, old(r.steps), r.steps)
      invariant runStart.Some? ==> runStart.value < i && forall j :: runStart.value <= j < i ==> Hit(lines[j], re)
      invariant left == CollapseRuns(lines[if runStart.Some? then runStart.value else i..], re, template, min)
      invariant out + left == all
    {
      var c := r.Tick();
      if c.Fail? { return Err(c.error); }
      var l := lines[i];
      if l.Verbatim? && re(l.text) {
        if runStart.None? {
          runStart := Some(i);
        }
      } else {
        FlushStep(lines, re, template, min, runStart, i);
        ghost var rest := CollapseRuns(lines[i + 1..], re, template, min);
        ConcatAssoc(out, Flushed(runStart, i, lines, template, min), [l] + rest);
        out := Flush(runStart, i, out, lines, template, min);
        PushAssoc(out, l, rest);
        runStart := None;
        out := out + [l];
        left := rest;
      }
    }
    FlushStep(lines, re, template, min, runStart, |lines|);
    assert left == Flushed(runStart, |lines|, lines, template, min);
    out := Flush(runStart, |lines|, out, lines, template, min);
    return Ok(out);
  }

  /** A run of `i - start` matching lines, ended by a non-matching line or the end of the text. */
  lemma FlushRun(lines: seq<Line>, p: Pattern, template: string, min: nat, start: nat, i: nat)
    requires start < i <= |lines| && (i < |lines| ==> !Hit(lines[i], p))
    requires forall j :: start <= j < i ==> Hit(lines[j], p)
    ensures CollapseRuns(lines[start..], p, template, min) ==
      Flushed(Some(start), i, lines, template, min) + CollapseRuns(lines[i..], p, template, min)
  {
    hide CollapseRuns, Substitute;
    var tail, k := lines[start..], i - start;
    RunLengthIs(tail, p, k);
    CollapseRunsStep(tail, p, template, min, k);
    assert tail[k..] == lines[i..] && tail[..k] == lines[start..i];
  }

  /** Flushing an open run that ends at `i`, then one non-matching line. */
  lemma FlushStep(lines: seq<Line>, p: Pattern, template: string, min: nat, start: Option<nat>, i: nat)
    requires i <= |lines| && (i < |lines| ==> !Hit(lines[i], p))
    requires start.Some? ==> start.value < i && forall j :: start.value <= j < i ==> Hit(lines[j], p)
    ensures CollapseRuns(lines[if start.Some? then start.value else i..], p, template, min) ==
      Flushed(start, i, lines, template, min) + CollapseRuns(lines[i..], p, template, min)
    ensures i < |lines| ==>
      CollapseRuns(lines[i..], p, template, min) == [lines[i]] + CollapseRuns(lines[i + 1..], p, template, min)
    ensures i == |lines| ==> CollapseRuns(lines[i..], p, template, min) == []
  {
    assert i == |lines| ==> CollapseRuns(lines[i..], p, template, min) == [];
    hide CollapseRuns, Substitute;
    if start.Some? {
      FlushRun(lines, p, template, min, start.value, i);
    }
    if i < |lines| {
      RunLengthIs(lines[i..], p, 0);
      CollapseRunsStep(lines[i..], p, template, min, 0);
      assert lines[i..][1..] == lines[i + 1..];
    }
  }

  method CollapseBetweenLoop(lines: seq<Line>, bre: Pattern, ere: Pattern, template: string, r: BudgetRunner)
    returns (res: Result<seq<Line>>)
    modifies r`steps
    ensures Charged(res, r.budget, r.clock, old(r.steps), r.steps, |lines|, CollapseFences(lines, bre, ere, template))
  {
    hide CollapseFences, FenceBody, Substitute, StepsFit, CheckStep;
    NoStepsFit(r.budget, r.clock, r.steps);
    ghost var all := CollapseFences(lines, bre, ere, template);
    var out := [];
    var inside := false;
    var insideCount := 0;
    ghost var left := all;
    assert lines[0..] == lines;
    for i := 0 to |lines|
      invariant r.steps == old(r.steps) + i && StepsFit(r.budget, r.clock, old(r.steps), r.steps)
      invariant inside ==> insideCount <= i && forall j :: i - insideCount <= j < i ==> !Hit(lines[j], ere)
      invariant left ==
        if inside then FenceBody(lines[i - insideCount..], bre, ere, template)
        else CollapseFences(lines[i..], bre, ere, template)
      invariant out + left == all
    {
      NextStep(r.budget, r.clock, old(r.steps), r.steps, old(r.steps) + |lines|);
      var c := r.Tick();
      if c.Fail? { return Err(c.error); }
      var l := lines[i];
      if !inside {
        FenceOpen(lines[i..], bre, ere, template);
        assert lines[i..][1..] == lines[i + 1..];
        if l.Verbatim? && bre(l.text) {
          inside := true;
          insideCount := 0;
          left := FenceBody(lines[i + 1..], bre, ere, template);
          PushAssoc(out, l, left);
          out := out + [l];
        } else {
          left := CollapseFences(lines[i + 1..], bre, ere, template);
          PushAssoc(out, l, left);
          out := out + [l];
        }
      } else if l.Verbatim? && ere(l.text) {
        FenceClose(lines, i, insideCount, bre, ere, template);
        left := CollapseFences(lines[i + 1..], bre, ere, template);
        var marker := Placeholder(Substitute(template, insideCount));
        PushAssoc(out, marker, [l] + left);
        PushAssoc(out + [marker], l, left);
        out := out + [marker];
        out := out + [l];
        inside := false;
      } else {
        insideCount := insideCount + 1;
      }
    }
    FenceEnd(lines[|lines| - (if inside then insideCount else 0)..], bre, ere, template);
    if inside && insideCount > 0 {
      out := out + [Placeholder(Substitute(template, insideCount))];
    }
    return Ok(out);
  }

  lemma FenceEnd(body: seq<Line>, begin: Pattern, end: Pattern, template: string)
    requires forall j :: 0 <= j < |body| ==> !Hit(body[j], end)
    ensures FenceBody(body, begin, end, template) ==
      if body == [] then [] else [Placeholder(Substitute(template, |body|))]
    ensures body == [] ==> CollapseFences(body, begin, end, template) == []
  {
    FirstHitIs(body, end, |body|);
  }

  lemma FenceClose(lines: seq<Line>, i: nat, count: nat, begin: Pattern, end: Pattern, template: string)
    requires count <= i < |lines| && Hit(lines[i], end)
    requires forall j :: i - count <= j < i ==> !Hit(lines[j], end)
    ensures FenceBody(lines[i - count..], begin, end, template) ==
      [Placeholder(Substitute(template, count))] + ([lines[i]] + CollapseFences(lines[i + 1..], begin, end, template))
  {
    hide CollapseFences, Hit, FirstHit, Substitute;
    FirstHitIs(lines[i - count..], end, count);
    CloseSlices(lines, i, count);
  }

  lemma CloseSlices(lines: seq<Line>, i: nat, count: nat)
    requires count <= i < |lines|
    ensures lines[i - count..][count] == lines[i] && lines[i - count..][count + 1..] == lines[i + 1..]
  {
  }

  /** What is printed for the lines that follow an opening fence. */
  ghost function FenceBody(body: seq<Line>, begin: Pattern, end: Pattern, template: string): seq<Line> {
    var e := FirstHit(body, end);
    if e < |body| then
      [Placeholder(Substitute(template, e))] + ([body[e]] + CollapseFences(body[e + 1..], begin, end, template))
    else if body == [] then []
    else [Placeholder(Substitute(template, |body|))]
  }

  lemma FenceOpen(lines: seq<Line>, begin: Pattern, end: Pattern, template: string)
    requires lines != []
    ensures CollapseFences(lines, begin, end, template) == [lines[0]] +
      if Hit(lines[0], begin) then FenceBody(lines[1..], begin, end, template)
      else CollapseFences(lines[1..], begin, end, template)
  {
    if Hit(lines[0], begin) {
      var body := lines[1..];
      var e := FirstHit(body, end);
      if e < |body| {
        var rest := FencePieces(body[e + 1..], begin, end);
        RenderCons(Kept(lines[0]), [Elided(body[..e])] + ([Kept(body[e])] + rest), template);
        RenderCons(Elided(body[..e]), [Kept(body[e])] + rest, template);
        RenderCons(Kept(body[e]), rest, template);
      } else {
        RenderCons(Kept(lines[0]), if body == [] then [] else [Elided(body)], template);
      }
    } else {
      RenderCons(Kept(lines[0]), FencePieces(lines[1..], begin, end), template);
    }
  }

  method HeadLoop(lines: seq<Line>, n: nat, r: BudgetRunner) returns (res: Result<seq<Line>>)
    modifies r`steps
    ensures Charged(res, r.budget, r.clock, old(r.steps), r.steps, Min(n, |lines|), lines[..Min(n, |lines|)])
  {
    var out := [];
    for i := 0 to Min(n, |lines|)
      invariant r.steps == old(r.steps) + i && StepsFit(r.budget, r.clock, old(r.steps), r.steps)
      invariant out == lines[..i]
    {
      var c := r.Tick();
      if c.Fail? { return Err(c.error); }
      out := out + [lines[i]];
    }
    return Ok(out);
  }

  /** Copy the lines from position `start` on. */
  method SkipLoop(lines: seq<Line>, start: nat, r: BudgetRunner) returns (res: Result<seq<Line>>)
    requires start <= |lines|
    modifies r`steps
    ensures Charged(res, r.budget, r.clock, old(r.steps), r.steps, |lines| - start, lines[start..])
  {
    var out := [];
    for i := start to |lines|
      invariant r.steps == old(r.steps) + (i - start) && StepsFit(r.budget, r.clock, old(r.steps), r.steps)
      invariant out == lines[start..i]
    {
      var c := r.Tick();
      if c.Fail? { return Err(c.error); }
      out := out + [lines[i]];
    }
    return Ok(out);
  }

  method HeadAfterLoop(lines: seq<Line>, n: nat, re: Pattern, r: BudgetRunner) returns (res: Result<seq<Line>>)
    modifies r`steps
    ensures Charged(
      res, r.budget, r.clock, old(r.steps), r.steps, Ticks(HeadAfter(n, re), lines), HeadAfterLines(lines, n, re))
  {
    var out := [];
    var found := false;
    var kept := 0;
    ghost var m := FirstHit(lines, re);
    var i := 0;
    while i < |lines|
      invariant i <= |lines| && i <= Ticks(HeadAfter(n, re), lines)
      invariant r.steps == old(r.steps) + i && StepsFit(r.budget, r.clock, old(r.steps), r.steps)
      invariant out == lines[..i]
      invariant found <==> m < i
      invariant kept <= n && kept == if found then i - m - 1 else 0
    {
      var c := r.Tick();
      if c.Fail? { return Err(c.error); }
      var l := lines[i];
      if !found {
        out := out + [l];
        if l.Verbatim? && re(l.text) {
          found := true;
        }
      } else if kept < n {
        out := out + [l];
        kept := kept + 1;
      } else {
        return Ok(out);
      }
      i := i + 1;
    }
    return Ok(out);
  }

  /** Visit lines up to and including the first match; the position found, or `|lines|`. */
  method SearchLoop(lines: seq<Line>, re: Pattern, r: BudgetRunner) returns (res: Result<nat>)
    modifies r`steps
    ensures var m := FirstHit(lines, re); var cost := Min(m + 1, |lines|);
      && (res.Ok? <==> StepsFit(r.budget, r.clock, old(r.steps), old(r.steps) + cost))
      && (res.Ok? ==> res.value == m && r.steps == old(r.steps) + cost)
  {
    for i := 0 to |lines|
      invariant i <= FirstHit(lines, re)
      invariant r.steps == old(r.steps) + i && StepsFit(r.budget, r.clock, old(r.steps), r.steps)
    {
      var c := r.Tick();
      if c.Fail? { return Err(c.error); }
      if lines[i].Verbatim? && re(lines[i].text) {
        return Ok(i);
      }
    }
    return Ok(|lines|);
  }

  method TailBeforeLoop(lines: seq<Line>, n: nat, re: Pattern, r: BudgetRunner) returns (res: Result<seq<Line>>)
    modifies r`steps
    ensures Charged(
      res, r.budget, r.clock, old(r.steps), r.steps, Ticks(TailBefore(n, re), lines), TailBeforeLines(lines, n, re))
  {
    var idx := SearchLoop(lines, re, r);
    if idx.Err? { return Err(idx.error); }
    if idx.value == |lines| { return Ok(lines); }
    res := SkipLoop(lines, Monus(idx.value, n), r);
  }

  method DedupLoop(lines: seq<Line>, r: BudgetRunner) returns (res: Result<seq<Line>>)
    modifies r`steps
    ensures Charged(res, r.budget, r.clock, old(r.steps), r.steps, |lines|, DedupTo(lines, |lines|))
  {
    assert DedupTo(lines, 0) == [];
    hide DedupTo, StepsFit, CheckStep;
    NoStepsFit(r.budget, r.clock, r.steps);
    var out := [];
    var last: Option<string> := None;
    for i := 0 to |lines|
      invariant r.steps == old(r.steps) + i && StepsFit(r.budget, r.clock, old(r.steps), r.steps)
      invariant last == if i == 0 then None else Some(lines[i - 1].text)
      invariant out == DedupTo(lines, i)
    {
      NextStep(r.budget, r.clock, old(r.steps), r.steps, old(r.steps) + |lines|);
      var c := r.Tick();
      if c.Fail? { return Err(c.error); }
      var s := lines[i].text;
      DedupStep(lines, i);
      if last.Some? && last.value == s { continue; }
      last := Some(s);
      out := out + [lines[i]];
    }
    return Ok(out);
  }

  method StripAnsiLoop(lines: seq<Line>, r: BudgetRunner) returns (res: Result<seq<Line>>)
    modifies r`steps
    ensures Charged(res, r.budget, r.clock, old(r.steps), r.steps, |lines|, MapSeq(lines, StripLine))
  {
    var out := [];
    for i := 0 to |lines|
      invariant r.steps == old(r.steps) + i && StepsFit(r.budget, r.clock, old(r.steps), r.steps)
      invariant |out| == i && forall j :: 0 <= j < i ==> out[j] == StripLine(lines[j])
    {
      var c := r.Tick();
      if c.Fail? { return Err(c.error); }
      match lines[i] {
        case Verbatim(text) => out := out + [Verbatim(StripEscapes(text))];
        case Placeholder(_) => out := out + [lines[i]];
      }
    }
    assert out == MapSeq(lines, StripLine);
    return Ok(out);
  }

  method FindEntered(states: seq<StateDef>, text: string) returns (k: nat)
    ensures k == Entered(states, text)
  {
    k := 0;
    while k < |states| && !states[k].enter(text)
      invariant k <= |states| && forall j :: 0 <= j < k ==> !states[j].enter(text)
    {
      k := k + 1;
    }
  }

  method FindMatch(ps: seq<Pattern>, text: string) returns (found: bool)
    ensures found == AnyMatch(ps, text)
  {
    for i := 0 to |ps|
      invariant forall j :: 0 <= j < i ==> !ps[j](text)
    {
      if ps[i](text) { return true; }
    }
    return false;
  }

  method StateVerdict(s: StateDef, text: string) returns (keep: bool)
    ensures keep == StateKeeps(s, text)
  {
    var dropped := FindMatch(s.drop, text);
    if dropped {
      keep := false;
    } else if s.keep != [] {
      keep := FindMatch(s.keep, text);
    } else {
      keep := true;
    }
  }

  ghost function NextActive(states: seq<StateDef>, was: Option<nat>, l: Line): (r: Option<nat>)
    ensures (was.Some? ==> was.value < |states|) ==> r.Some? ==> r.value < |states|
  {
    if l.Verbatim? && Entered(states, l.text) < |states| then Some(Entered(states, l.text)) else was
  }

  ghost predicate InForceKeeps(states: seq<StateDef>, active: Option<nat>, l: Line)
    requires active.Some? ==> active.value < |states|
  {
    l.Placeholder? || active.None? || StateKeeps(states[active.value], l.text)
  }

  /** The lines kept among the first `n`. */
  ghost function SectionsTo(states: seq<StateDef>, lines: seq<Line>, n: nat): seq<Line>
    requires n <= |lines|
  {
    SelectTo(lines, SectionAt(states, lines), n)
  }

  lemma SectionEnds(states: seq<StateDef>, lines: seq<Line>)
    ensures SectionsTo(states, lines, 0) == [] && ActiveState(states, lines, 0) == None
    ensures SectionsTo(states, lines, |lines|) == Sections(states, lines)
  {
  }

  /** One line: a verbatim line may enter a section, and the section in force gives the verdict. */
  lemma SectionStep(states: seq<StateDef>, lines: seq<Line>, i: nat)
    requires i < |lines|
    ensures ActiveState(states, lines, i + 1) == NextActive(states, ActiveState(states, lines, i), lines[i])
    ensures SectionsTo(states, lines, i + 1) ==
      if InForceKeeps(states, ActiveState(states, lines, i + 1), lines[i])
      then SectionsTo(states, lines, i) + [lines[i]] else SectionsTo(states, lines, i)
  {
    hide StateKeeps, Entered;
  }

  method StateMachineLoop(lines: seq<Line>, states: seq<StateDef>, r: BudgetRunner) returns (res: Result<seq<Line>>)
    modifies r`steps
    ensures Charged(res, r.budget, r.clock, old(r.steps), r.steps, |lines|, Sections(states, lines))
  {
    hide NextActive, InForceKeeps, ActiveState, SectionsTo, Sections, StepsFit, CheckStep;
    NoStepsFit(r.budget, r.clock, r.steps);
    SectionEnds(states, lines);
    var active: Option<nat> := None;
    var out := [];
    for i := 0 to |lines|
      invariant r.steps == old(r.steps) + i && StepsFit(r.budget, r.clock, old(r.steps), r.steps)
      invariant active == ActiveState(states, lines, i)
      invariant out == SectionsTo(states, lines, i)
    {
      NextStep(r.budget, r.clock, old(r.steps), r.steps, old(r.steps) + |lines|);
      var c := r.Tick();
      if c.Fail? { return Err(c.error); }
      SectionStep(states, lines, i);
      var keep;
      active, keep := Visit(states, active, lines[i]);
      if keep {
        out := out + [lines[i]];
      }
    }
    return Ok(out);
  }

  /** One line of the section loop: which section is in force now, and its verdict on the line. */
  method Visit(states: seq<StateDef>, active: Option<nat>, l: Line) returns (now: Option<nat>, keep: bool)
    requires active.Some? ==> active.value < |states|
    ensures now == NextActive(states, active, l) && keep == InForceKeeps(states, now, l)
  {
    hide StateKeeps, Entered;
    now, keep := active, true;
    if l.Placeholder? { return; }
    var k := FindEntered(states, l.text);
    if k < |states| {
      now := Some(k);
    }
    if now.Some? {
      keep := StateVerdict(states[now.value], l.text);
    }
  }

  /** The running state of the section loop, as a function of the lines before `n`. */
  ghost function ActiveState(states: seq<StateDef>, lines: seq<Line>, n: nat): (r: Option<nat>)
    requires n <= |lines|
    ensures r.Some? ==> r.value < |states|
  {
    match LatestEntry(states, lines, n)
    case None => None
    case Some(e) => Some(Entered(states, lines[e].text))
  }

  method TruncateLoop(lines: seq<Line>, bytes: nat) returns (out: seq<Line>)
    ensures out == Truncate(lines, bytes)
  {
    out := [];
    var used := 0;
    for i := 0 to |lines|
      invariant out == lines[..i] && used == PrintedBytes(lines[..i]) <= bytes
    {
      var w := ByteLen(lines[i].text) + 1;
      assert lines[..i + 1][..i] == lines[..i];
      if used + w > bytes {
        FitLengthIs(lines, bytes, i);
        return out + [TruncationMarker(bytes)];
      }
      used := used + w;
      out := out + [lines[i]];
    }
    assert lines[..|lines|] == lines;
  }

  /** Printed size grows with the prefix. */
  lemma {:induction false} PrintedBytesGrows(lines: seq<Line>, i: nat, j: nat)
    requires i <= j <= |lines|
    ensures PrintedBytes(lines[..i]) <= PrintedBytes(lines[..j])
    ensures i < j ==> PrintedBytes(lines[..i]) < PrintedBytes(lines[..j])
  {
    if i < j {
      assert lines[..j][..j - 1] == lines[..j - 1];
      PrintedBytesGrows(lines, i, j - 1);
    }
  }

  lemma {:induction false} FitLengthFrom(lines: seq<Line>, bytes: nat, i: nat, n: nat)
    requires i <= n <= |lines| && PrintedBytes(lines[..i]) <= bytes
    requires i < |lines| ==> PrintedBytes(lines[..i + 1]) > bytes
    ensures FitLength(lines, bytes, n) == i
  {
    if i < n {
      PrintedBytesGrows(lines, i + 1, n);
      FitLengthFrom(lines, bytes, i, n - 1);
    }
  }

  lemma FitLengthIs(lines: seq<Line>, bytes: nat, i: nat)
    requires i < |lines| && PrintedBytes(lines[..i]) <= bytes < PrintedBytes(lines[..i + 1])
    ensures FitLength(lines, bytes, |lines|) == i
  {
    FitLengthFrom(lines, bytes, i, |lines|);
  }

  method JsonPathKeepLoop(serde: Serde, lines: seq<Line>, paths: seq<string>) returns (out: seq<Line>)
    ensures out == JsonPathKeepLines(serde, lines, paths)
  {
    var doc := JoinLines(Texts(lines));
    var value := serde.parse(doc);
    if value.None? { return lines; }
    var kept: map<string, Json> := map[];
    for i := 0 to |paths|
      invariant kept == KeptMembers(value.value, paths[..i])
    {
      assert paths[..i + 1][..i] == paths[..i];
      var v := JsonWalk(value.value, paths[i]);
      if v.Some? {
        kept := kept[paths[i] := v.value];
      }
    }
    assert paths[..|paths|] == paths;
    var text := serde.pretty(Obj(kept));
    out := AsLines(if text.Some? then text.value else doc);
  }

  method JsonPathDropLoop(serde: Serde, lines: seq<Line>, paths: seq<string>) returns (out: seq<Line>)
    ensures out == JsonPathDropLines(serde, lines, paths)
  {
    var doc := JoinLines(Texts(lines));
    var parsed := serde.parse(doc);
    if parsed.None? { return lines; }
    var value := parsed.value;
    for i := 0 to |paths|
      invariant value == DropAll(parsed.value, paths[..i])
    {
      assert paths[..i + 1][..i] == paths[..i];
      value := JsonDrop(value, paths[i]);
    }
    assert paths[..|paths|] == paths;
    var text := serde.pretty(value);
    out := AsLines(if text.Some? then text.value else doc);
  }

  // ---- One rule ----

  method SumBytes(lines: seq<Line>) returns (n: nat)
    ensures n == Bytes(lines)
  {
    n := 0;
    for i := 0 to |lines|
      invariant n == Bytes(lines[..i])
    {
      assert lines[..i + 1][..i] == lines[..i];
      n := n + ByteLen(lines[i].text);
    }
    assert lines[..|lines|] == lines;
  }

  /** The rule's own loop. */
  method RunRule(serde: Serde, kind: RuleKind, lines: seq<Line>, r: BudgetRunner) returns (res: Result<seq<Line>>)
    modifies r`steps
    ensures Charged(
      res, r.budget, r.clock, old(r.steps), r.steps, Ticks(kind, lines), Meaning(serde, kind, lines))
  {
    hide Select, CollapseRuns, CollapseFences, HeadAfterLines, TailBeforeLines, Sections, Truncate, StepsFit;
    hide JsonPathKeepLines, JsonPathDropLines, FirstHit;
    match kind {
      case KeepLines(re) => res := KeepLoop(lines, re, r);
      case DropLines(re) => res := DropLoop(lines, re, r);
      case CollapseRepeated(re, template, min) => res := CollapseRepeatedLoop(lines, re, template, min, r);
      case CollapseBetween(b, e, template) => res := CollapseBetweenLoop(lines, b, e, template, r);
      case Head(n) => res := HeadLoop(lines, n, r);
      case Tail(n) => res := SkipLoop(lines, Monus(|lines|, n), r);
      case HeadAfter(n, re) => res := HeadAfterLoop(lines, n, re, r);
      case TailBefore(n, re) => res := TailBeforeLoop(lines, n, re, r);
      case Dedup => res := DedupLoop(lines, r);
      case StripAnsi => res := StripAnsiLoop(lines, r);
      case JsonPathKeep(paths) =>
        NoStepsFit(r.budget, r.clock, r.steps);
        var out := JsonPathKeepLoop(serde, lines, paths);
        res := Ok(out);
      case JsonPathDrop(paths) =>
        NoStepsFit(r.budget, r.clock, r.steps);
        var out := JsonPathDropLoop(serde, lines, paths);
        res := Ok(out);
      case NdjsonFilter(f, vs) =>
        NoStepsFit(r.budget, r.clock, r.steps);
        res := Ok(Select(lines, NdjsonAt(serde, lines, f, vs)));
      case StateMachine(states) => res := StateMachineLoop(lines, states, r);
      case TruncateTo(bytes) =>
        NoStepsFit(r.budget, r.clock, r.steps);
        var out := TruncateLoop(lines, bytes);
        res := Ok(out);
    }
  }

  lemma NoStepsFit(b: Budget, clock: Clock, s: nat)
    ensures StepsFit(b, clock, s, s)
  {
  }

  /** Apply one rule between two memory observations. As long as no earlier observation was over the
      limit, the rule succeeds exactly when its input and its output fit and each of its steps does. */
  method ApplyOne(serde: Serde, kind: RuleKind, lines: seq<Line>, r: BudgetRunner) returns (res: Result<seq<Line>>)
    requires r.peakBytes <= r.budget.maxPeakBytes
    modifies r`steps, r`peakBytes
    ensures res.Ok? <==>
      && Bytes(lines) <= r.budget.maxPeakBytes
      && StepsFit(r.budget, r.clock, old(r.steps), old(r.steps) + Ticks(kind, lines))
      && Bytes(Meaning(serde, kind, lines)) <= r.budget.maxPeakBytes
    ensures res.Ok? ==>
      && res.value == Meaning(serde, kind, lines)
      && r.steps == old(r.steps) + Ticks(kind, lines)
      && r.peakBytes <= r.budget.maxPeakBytes
  {
    hide Meaning, Ticks, Bytes, StepsFit;
    var total := SumBytes(lines);
    var c := r.ObserveBytes(total);
    if c.Fail? { return Err(c.error); }
    res := RunRule(serde, kind, lines, r);
    if res.Err? { return; }
    var outBytes := SumBytes(res.value);
    c := r.ObserveBytes(outBytes);
    if c.Fail? { return Err(c.error); }
  }

  // ---- The whole run ----

  function InitialLines(input: string): seq<Line> { MapSeq(InputLines(input), t => Verbatim(t)) }

  /** No budget check of the run fails: every step up to the total of all rules passes, and the lines
      before and after every rule fit in memory. */
  ghost predicate RunFits(serde: Serde, rules: seq<RuleKind>, lines: seq<Line>, b: Budget, clock: Clock) {
    && StepsFit(b, clock, 0, StepsAfter(serde, rules, lines, |rules|))
    && (rules != [] ==> forall k :: 0 <= k <= |rules| ==> Bytes(After(serde, rules, lines, k)) <= b.maxPeakBytes)
  }

  lemma {:induction false} StepsGrow(serde: Serde, rules: seq<RuleKind>, lines: seq<Line>, i: nat, j: nat)
    requires i <= j <= |rules|
    ensures StepsAfter(serde, rules, lines, i) <= StepsAfter(serde, rules, lines, j)
  {
    hide Meaning, Ticks;
    if i < j { StepsGrow(serde, rules, lines, i, j - 1); }
  }

  /** The checks passed by the first `k` rules. */
  ghost predicate PrefixFits(
    serde: Serde, rules: seq<RuleKind>, lines: seq<Line>, b: Budget, clock: Clock, k: nat)
    requires k <= |rules|
  {
    && StepsFit(b, clock, 0, StepsAfter(serde, rules, lines, k))
    && (k > 0 ==> forall i :: 0 <= i <= k ==> Bytes(After(serde, rules, lines, i)) <= b.maxPeakBytes)
  }

  /** The next rule keeps the checks passing exactly when its input fits, its steps pass and its output
      fits; if not, the whole run does not fit. */
  lemma PrefixStep(serde: Serde, rules: seq<RuleKind>, lines: seq<Line>, b: Budget, clock: Clock, k: nat)
    requires k < |rules| && PrefixFits(serde, rules, lines, b, clock, k)
    ensures After(serde, rules, lines, k + 1) == Meaning(serde, rules[k], After(serde, rules, lines, k))
    ensures StepsAfter(serde, rules, lines, k + 1) ==
      StepsAfter(serde, rules, lines, k) + Ticks(rules[k], After(serde, rules, lines, k))
    ensures PrefixFits(serde, rules, lines, b, clock, k + 1) <==>
      && Bytes(After(serde, rules, lines, k)) <= b.maxPeakBytes
      && StepsFit(b, clock, StepsAfter(serde, rules, lines, k), StepsAfter(serde, rules, lines, k + 1))
      && Bytes(After(serde, rules, lines, k + 1)) <= b.maxPeakBytes
    ensures !PrefixFits(serde, rules, lines, b, clock, k + 1) ==> !RunFits(serde, rules, lines, b, clock)
  {
    hide Meaning, Ticks, Bytes;
    StepsGrow(serde, rules, lines, k + 1, |rules|);
  }

  lemma PrefixEnds(serde: Serde, rules: seq<RuleKind>, lines: seq<Line>, b: Budget, clock: Clock)
    ensures PrefixFits(serde, rules, lines, b, clock, 0)
    ensures After(serde, rules, lines, 0) == lines && StepsAfter(serde, rules, lines, 0) == 0
    ensures PrefixFits(serde, rules, lines, b, clock, |rules|) <==> RunFits(serde, rules, lines, b, clock)
  {
    hide Meaning, Ticks, Bytes;
  }

  /** The interpreter. The run aborts exactly when some budget check of the whole run fails, and then
      it has no lines; otherwise it returns the fold of the rules' meanings. */
  method ApplyRulesWithBudget(serde: Serde, input: string, rules: seq<RuleKind>, budget: Budget, clock: Clock)
    returns (out: CompressedOutput)
    ensures !out.budgetAborted <==> RunFits(serde, rules, InitialLines(input), budget, clock)
    ensures out.lines == if out.budgetAborted then [] else After(serde, rules, InitialLines(input), |rules|)
    ensures out.bytesIn == ByteLen(input) && out.bytesOut == PrintedBytes(out.lines)
  {
    hide Meaning, Ticks, Bytes, After, StepsAfter, PrefixFits, RunFits, StepsFit, InitialLines;
    ghost var initial := InitialLines(input);
    PrefixEnds(serde, rules, initial, budget, clock);
    var lines := InitialLines(input);
    var runner := new BudgetRunner(budget, clock);
    var aborted := false;
    var k := 0;
    while k < |rules| && !aborted
      invariant 0 <= k <= |rules|
      invariant fresh(runner) && runner.budget == budget && runner.clock == clock
      invariant runner.peakBytes <= budget.maxPeakBytes || aborted
      invariant aborted ==> lines == [] && !RunFits(serde, rules, initial, budget, clock)
      invariant !aborted ==> lines == After(serde, rules, initial, k)
      invariant !aborted ==> PrefixFits(serde, rules, initial, budget, clock, k)
      invariant !aborted ==> runner.steps == StepsAfter(serde, rules, initial, k)
      decreases |rules| - k, !aborted
    {
      var taken := lines;
      lines := [];
      PrefixStep(serde, rules, initial, budget, clock, k);
      var next := ApplyOne(serde, rules[k], taken, runner);
      if next.Ok? {
        lines := next.value;
        k := k + 1;
      } else {
        aborted := true;
      }
    }
    var bytesOut := SumPrinted(lines);
    out := CompressedOutput(lines, ByteLen(input), bytesOut, aborted);
  }

  method SumPrinted(lines: seq<Line>) returns (n: nat)
    ensures n == PrintedBytes(lines)
  {
    n := 0;
    for i := 0 to |lines|
      invariant n == PrintedBytes(lines[..i])
    {
      assert lines[..i + 1][..i] == lines[..i];
      n := n + ByteLen(lines[i].text) + 1;
    }
    assert lines[..|lines|] == lines;
  }
}
