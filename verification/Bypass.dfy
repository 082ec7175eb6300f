/** Bypass detection: the sliding window of run scores, and the same score computed from the event log. */
module Bypass {
  import opened Text
  import opened Rules

  datatype Signal =
    | RawReFetch | NidShowRaw | ScriptToDiskThenRun | GrepAfterRead | NearDuplicateReInvocation | NidRawEnv

  /** Weights in tenths; a run's score is capped at ten tenths. */
  function Weight(s: Signal): nat {
    match s
    case RawReFetch => 9
    case NidShowRaw => 7
    case ScriptToDiskThenRun => 6
    case GrepAfterRead => 5
    case NearDuplicateReInvocation => 4
    case NidRawEnv => 2
  }

  const CAP := 10

  function SumWeights(signals: seq<Signal>): nat {
    if signals == [] then 0 else SumWeights(signals[..|signals| - 1]) + Weight(signals[|signals| - 1])
  }

  function RunScore(signals: seq<Signal>): (s: nat)
    ensures s <= CAP && (s > 0 <==> signals != [])
  {
    Min(SumWeights(signals), CAP)
  }

  function Sum(s: seq<nat>): nat { if s == [] then 0 else Sum(s[..|s| - 1]) + s[|s| - 1] }

  /** A score as a fraction of the window: `sum` tenths over `count` runs. */
  datatype Score = Score(sum: nat, count: nat) {
    function Value(): real { if count == 0 then 0.0 else sum as real / (10.0 * count as real) }
  }

  class Tracker {
    const window: nat
    const warmup: nat
    var observed: nat
    var runs: seq<nat>

    constructor (window: nat, warmup: nat)
      ensures this.window == window && this.warmup == warmup && observed == 0 && runs == []
    {
      this.window, this.warmup := window, warmup;
      observed, runs := 0, [];
    }

    method Observe(signals: seq<Signal>)
      modifies this
      ensures observed == old(observed) + 1
      ensures runs == if observed <= warmup then old(runs) else PushWindow(old(runs), window, RunScore(signals))
    {
      observed := observed + 1;
      if observed <= warmup {
        return;
      }
      var sum := 0;
      for i := 0 to |signals|
        invariant sum == SumWeights(signals[..i])
      {
        assert signals[..i + 1][..i] == signals[..i];
        sum := sum + Weight(signals[i]);
      }
      assert signals[..|signals|] == signals;
      var score := if sum < CAP then sum else CAP;
      if |runs| == window && runs != [] {
        runs := runs[1..];
      }
      runs := runs + [score];
    }

    method CurrentScore() returns (s: Score)
      ensures s == Score(Sum(runs), |runs|)
    {
      var sum := 0;
      for i := 0 to |runs|
        invariant sum == Sum(runs[..i])
      {
        assert runs[..i + 1][..i] == runs[..i];
        sum := sum + runs[i];
      }
      assert runs[..|runs|] == runs;
      s := Score(sum, |runs|);
    }

    method Exceeds(threshold: real) returns (r: bool)
      ensures r <==> Score(Sum(runs), |runs|).Value() > threshold
    {
      var s := CurrentScore();
      return s.Value() > threshold;
    }
  }

  /** `pop_front` when the deque is exactly as long as the window, then `push_back`. */
  function PushWindow(runs: seq<nat>, window: nat, x: nat): seq<nat> {
    (if |runs| == window && runs != [] then runs[1..] else runs) + [x]
  }

  // ---- Any sequence of observations ----

  function TrackerRuns(window: nat, warmup: nat, history: seq<seq<Signal>>): seq<nat> {
    if history == [] then []
    else
      var before := TrackerRuns(window, warmup, history[..|history| - 1]);
      if |history| <= warmup then before else PushWindow(before, window, RunScore(history[|history| - 1]))
  }

  function Scores(history: seq<seq<Signal>>): seq<nat> { MapSeq(history, RunScore) }

  function LastOf<T>(s: seq<T>, n: nat): seq<T> { s[Monus(|s|, n)..] }

  /** Driving a tracker through a history. */
  method ObserveAll(t: Tracker, history: seq<seq<Signal>>)
    requires t.observed == 0 && t.runs == []
    modifies t
    ensures t.observed == |history| && t.runs == TrackerRuns(t.window, t.warmup, history)
  {
    for i := 0 to |history|
      invariant t.observed == i && t.runs == TrackerRuns(t.window, t.warmup, history[..i])
    {
      assert history[..i + 1][..i] == history[..i];
      t.Observe(history[i]);
    }
    assert history[..|history|] == history;
  }

  /** The scores after the warm-up. */
  function Counted(warmup: nat, history: seq<seq<Signal>>): seq<nat> { Scores(history[Min(warmup, |history|)..]) }

  lemma CountedPush(warmup: nat, history: seq<seq<Signal>>, signals: seq<Signal>)
    ensures Counted(warmup, history + [signals]) ==
      if |history| < warmup then Counted(warmup, history) else Counted(warmup, history) + [RunScore(signals)]
  {
    if |history| < warmup {
      assert history[|history|..] == [] && (history + [signals])[|history| + 1..] == [];
    } else {
      assert (history + [signals])[warmup..] == history[warmup..] + [signals];
    }
  }

  /** With a positive window the tracker holds exactly the capped scores of the last `window` runs after
      the warm-up; with window 0 it holds them all, growing without bound. */
  lemma {:induction false} TrackerHoldsWindow(window: nat, warmup: nat, history: seq<seq<Signal>>)
    ensures TrackerRuns(window, warmup, history) ==
      if window == 0 then Counted(warmup, history) else LastOf(Counted(warmup, history), window)
  {
    if history != [] {
      hide RunScore, Counted, PushWindow, LastOf;
      var n := |history| - 1;
      TrackerHoldsWindow(window, warmup, history[..n]);
      CountedPush(warmup, history[..n], history[n]);
      assert history[..n] + [history[n]] == history;
      WindowPush(Counted(warmup, history[..n]), window, RunScore(history[n]));
    }
  }

  lemma WindowPush(s: seq<nat>, window: nat, x: nat)
    ensures window > 0 ==> PushWindow(LastOf(s, window), window, x) == LastOf(s + [x], window)
    ensures window == 0 ==> PushWindow(s, window, x) == s + [x]
  {
  }

  // ---- What the score says ----

  lemma {:induction false} SumConcat(a: seq<nat>, b: seq<nat>)
    ensures Sum(a + b) == Sum(a) + Sum(b)
    decreases |b|
  {
    if b == [] {
      assert a + b == a;
    } else {
      assert (a + b)[..|a + b| - 1] == a + b[..|b| - 1];
      SumConcat(a, b[..|b| - 1]);
    }
  }

  /** The score of a run: each signal counts its weight as often as it shows, up to ten tenths. */
  lemma {:induction false} WeightsByKind(signals: seq<Signal>)
    ensures var m := multiset(signals);
      SumWeights(signals) == 9 * m[RawReFetch] + 7 * m[NidShowRaw] + 6 * m[ScriptToDiskThenRun]
                             + 5 * m[GrepAfterRead] + 4 * m[NearDuplicateReInvocation] + 2 * m[NidRawEnv]
  {
    if signals != [] {
      var init, last := signals[..|signals| - 1], signals[|signals| - 1];
      WeightsByKind(init);
      assert signals == init + [last];
      assert multiset(signals) == multiset(init)[last := multiset(init)[last] + 1];
    }
  }

  function DirtyRuns(runs: seq<nat>): nat {
    if runs == [] then 0 else DirtyRuns(runs[..|runs| - 1]) + (if runs[|runs| - 1] > 0 then 1 else 0)
  }

  lemma {:induction false} SumBounds(runs: seq<nat>)
    requires forall i :: 0 <= i < |runs| ==> runs[i] <= CAP
    ensures Sum(runs) <= CAP * DirtyRuns(runs) && DirtyRuns(runs) <= |runs|
  {
    if runs != [] { SumBounds(runs[..|runs| - 1]); }
  }

  lemma {:induction false} SumAtLeast(history: seq<seq<Signal>>)
    ensures Sum(Scores(history)) >= 2 * WithSignals(history)
  {
    if history != [] {
      var init, last := history[..|history| - 1], history[|history| - 1];
      SumAtLeast(init);
      assert Scores(history)[..|init|] == Scores(init);
      WeightsByKind(last);
      if last != [] { assert last[0] in multiset(last); }
    }
  }

  /** The score lies between 0 and 1, and exceeding a threshold takes more than that fraction of the
      window's runs to be dirty. */
  lemma ScoreBounds(runs: seq<nat>, threshold: real)
    requires forall i :: 0 <= i < |runs| ==> runs[i] <= CAP
    ensures var v := Score(Sum(runs), |runs|).Value();
      && 0.0 <= v <= 1.0 && (runs == [] ==> v == 0.0)
      && (v > threshold && runs != [] ==> DirtyRuns(runs) as real > threshold * |runs| as real)
  {
    SumBounds(runs);
    hide Sum, DirtyRuns;
    if runs != [] {
      Ratio(Sum(runs), |runs|, DirtyRuns(runs), threshold);
    }
  }

  lemma Ratio(s: nat, n: nat, d: nat, t: real)
    requires n > 0 && s <= 10 * d && d <= n
    ensures var v := Score(s, n).Value(); 0.0 <= v <= 1.0 && (v > t ==> d as real > t * n as real)
  {
    var v := Score(s, n).Value();
    Quotient(s as real, 10.0 * n as real);
    ScoreArithmetic(v, n as real, s as real, d as real, t);
  }

  lemma Quotient(a: real, b: real)
    requires b > 0.0
    ensures (a / b) * b == a
  {
  }

  lemma ScoreArithmetic(v: real, n: real, s: real, d: real, t: real)
    requires n > 0.0 && v * (10.0 * n) == s && 0.0 <= s <= 10.0 * d && d <= n
    ensures 0.0 <= v <= 1.0
    ensures v > t ==> d > t * n
  {
    assert v * n <= d;
    assert v < 0.0 ==> v * n < 0.0;
    assert v > 1.0 ==> v * n > n;
    assert v > t ==> v * n > t * n;
  }

  lemma ScoreIsAverage(runs: seq<nat>)
    ensures Score(Sum(runs), |runs|).Value() * (10.0 * |runs| as real) == Sum(runs) as real
  {
    var sum := Sum(runs);
    assert runs == [] ==> sum == 0;
    hide Sum;
    if runs != [] { Quotient(sum as real, 10.0 * |runs| as real); }
  }

  /** How many runs showed a bypass signal. */
  function WithSignals(history: seq<seq<Signal>>): nat {
    if history == [] then 0
    else WithSignals(history[..|history| - 1]) + (if history[|history| - 1] != [] then 1 else 0)
  }

  lemma {:induction false} DirtyIsSignals(history: seq<seq<Signal>>)
    ensures DirtyRuns(Scores(history)) == WithSignals(history)
  {
    if history != [] {
      var n := |history| - 1;
      assert Scores(history)[..n] == Scores(history[..n]);
      DirtyIsSignals(history[..n]);
    }
  }

  /** The runs the score is about: the last `window` past the warm-up, or all of those when it is zero. */
  function InWindow(window: nat, warmup: nat, history: seq<seq<Signal>>): seq<seq<Signal>> {
    var counted := history[Min(warmup, |history|)..];
    if window == 0 then counted else LastOf(counted, window)
  }

  /** After any history the tracker's score lies between 0 and 1, and exceeding a threshold takes more than
      that fraction of the runs in its window to have shown a bypass signal. */
  lemma TrackerScoreBounds(window: nat, warmup: nat, history: seq<seq<Signal>>, threshold: real)
    ensures var runs, recent := TrackerRuns(window, warmup, history), InWindow(window, warmup, history);
      var v := Score(Sum(runs), |runs|).Value();
      && runs == Scores(recent) && 0.0 <= v <= 1.0 && (recent == [] ==> v == 0.0)
      && v * (10.0 * |recent| as real) == Sum(Scores(recent)) as real
      && Sum(Scores(recent)) >= 2 * WithSignals(recent)
      && (v > threshold && recent != [] ==> WithSignals(recent) as real > threshold * |recent| as real)
  {
    var runs, recent := TrackerRuns(window, warmup, history), InWindow(window, warmup, history);
    TrackerHoldsWindow(window, warmup, history);
    hide TrackerRuns, Sum, DirtyRuns, WithSignals;
    assert runs == Scores(recent);
    ScoreBounds(runs, threshold);
    DirtyIsSignals(recent);
    SumAtLeast(recent);
    ScoreIsAverage(runs);
  }

  // ---- The same score from the event log ----

  /** One row of the fidelity log of a profile; a bypass signal carries a weight, in tenths. */
  datatype Event = Event(session: nat, weight: Option<nat>, at: int)

  /** SUM(weight) over the bypass signals of one session. */
  function SessionWeight(log: seq<Event>, session: nat): nat {
    if log == [] then 0
    else
      var w, e := SessionWeight(log[..|log| - 1], session), log[|log| - 1];
      if e.session == session && e.weight.Some? then w + e.weight.value else w
  }

  /** MAX(at) over the events of one session, if it has any. */
  function Latest(log: seq<Event>, session: nat): Option<int> {
    if log == [] then None
    else
      var m, e := Latest(log[..|log| - 1], session), log[|log| - 1];
      if e.session == session && (m.None? || m.value < e.at) then Some(e.at) else m
  }

  /** GROUP BY session ORDER BY MAX(at) DESC LIMIT window: distinct logged sessions, latest first, as many
      as the window allows, none left out that is later than one listed. */
  ghost predicate IsRecent(log: seq<Event>, window: nat, recent: seq<nat>) {
    && (forall i, j :: 0 <= i < j < |recent| ==> recent[i] != recent[j])
    && (forall i :: 0 <= i < |recent| ==> Latest(log, recent[i]).Some?)
    && |recent| <= window
    && (forall i, j :: 0 <= i < j < |recent| ==> Latest(log, recent[i]).value >= Latest(log, recent[j]).value)
    && (forall s: nat :: Latest(log, s).Some? && s !in recent ==> |recent| == window)
    && (forall s: nat, i :: Latest(log, s).Some? && s !in recent && 0 <= i < |recent| ==>
          Latest(log, recent[i]).value >= Latest(log, s).value)
  }

  lemma {:induction false} LoggedSessions(log: seq<Event>, session: nat)
    ensures Latest(log, session).Some? <==> exists i :: 0 <= i < |log| && log[i].session == session
    ensures Latest(log, session).Some? ==>
      && (exists i :: 0 <= i < |log| && log[i].session == session && log[i].at == Latest(log, session).value)
      && (forall i :: 0 <= i < |log| && log[i].session == session ==> log[i].at <= Latest(log, session).value)
  {
    if log != [] {
      var init := log[..|log| - 1];
      LoggedSessions(init, session);
      assert forall i :: 0 <= i < |init| ==> init[i] == log[i];
    }
  }

  /** A session of the set with the latest event. */
  method Newest(log: seq<Event>, rest: set<nat>) returns (s: nat)
    requires rest != {} && forall x :: x in rest ==> Latest(log, x).Some?
    ensures s in rest && forall x :: x in rest ==> Latest(log, x).value <= Latest(log, s).value
  {
    hide Latest;
    s :| s in rest;
    var todo := rest - {s};
    while todo != {}
      invariant todo <= rest && s in rest
      invariant forall x :: x in rest && x !in todo ==> Latest(log, x).value <= Latest(log, s).value
      decreases todo
    {
      var x :| x in todo;
      if Latest(log, x).value > Latest(log, s).value {
        s := x;
      }
      todo := todo - {x};
    }
  }

  /** The query: the most recent sessions, up to the window. */
  method RecentSessions(log: seq<Event>, window: nat) returns (recent: seq<nat>)
    ensures IsRecent(log, window, recent)
  {
    var logged := set i | 0 <= i < |log| :: log[i].session;
    forall s: nat ensures Latest(log, s).Some? <==> s in logged { LoggedSessions(log, s); }
    hide Latest;
    recent := [];
    var rest := logged;
    while |recent| < window && rest != {}
      invariant |recent| <= window && rest <= logged
      invariant forall s: nat :: s in logged <==> s in rest || s in recent
      invariant forall s: nat :: s in recent ==> s !in rest
      invariant forall i, j :: 0 <= i < j < |recent| ==> recent[i] != recent[j]
      invariant forall i, j :: 0 <= i < j < |recent| ==> Latest(log, recent[i]).value >= Latest(log, recent[j]).value
      invariant forall s: nat, i :: s in rest && 0 <= i < |recent| ==>
        Latest(log, recent[i]).value >= Latest(log, s).value
      decreases rest
    {
      var s := Newest(log, rest);
      recent := recent + [s];
      rest := rest - {s};
    }
  }

  function LogScore(log: seq<Event>, recent: seq<nat>): Score {
    Score(Sum(MapSeq(recent, x => Min(SessionWeight(log, x), CAP))), |recent|)
  }

  /** The query, then the accumulation loop over the sessions it returns. */
  method RollingBypassScore(log: seq<Event>, window: nat) returns (s: Score)
    ensures exists recent :: IsRecent(log, window, recent) && s == LogScore(log, recent)
  {
    var recent := RecentSessions(log, window);
    hide IsRecent, SessionWeight, Sum;
    s := AverageOf(log, recent);
  }

  method AverageOf(log: seq<Event>, recent: seq<nat>) returns (s: Score)
    ensures s == LogScore(log, recent)
  {
    var f := (x: nat) => Min(SessionWeight(log, x), CAP);
    var sum := 0;
    for i := 0 to |recent|
      invariant sum == Sum(MapSeq(recent[..i], f))
    {
      assert MapSeq(recent[..i + 1], f)[..i] == MapSeq(recent[..i], f);
      sum := sum + f(recent[i]);
    }
    assert recent[..|recent|] == recent;
    s := Score(sum, |recent|);
  }

  // ---- One session per run, each later than the ones before ----

  /** The events of run `i`: one that every run logs, then one per bypass signal. */
  function RunEvents(i: nat, signals: seq<Signal>, at: int): seq<Event> {
    [Event(i, None, at)] + MapSeq(signals, s => Event(i, Some(Weight(s)), at))
  }

  function LogOf(history: seq<seq<Signal>>, times: seq<int>): seq<Event>
    requires |times| == |history|
  {
    if history == [] then []
    else
      var n := |history| - 1;
      LogOf(history[..n], times[..n]) + RunEvents(n, history[n], times[n])
  }

  lemma {:induction false} WeightConcat(a: seq<Event>, b: seq<Event>, session: nat)
    ensures SessionWeight(a + b, session) == SessionWeight(a, session) + SessionWeight(b, session)
    decreases |b|
  {
    if b == [] {
      assert a + b == a;
    } else {
      var n := |b| - 1;
      assert (a + b)[..|a| + n] == a + b[..n] && (a + b)[|a| + n] == b[n];
      WeightConcat(a, b[..n], session);
    }
  }

  lemma {:induction false} RunWeight(i: nat, signals: seq<Signal>, at: int, session: nat)
    ensures SessionWeight(RunEvents(i, signals, at), session) == if session == i then SumWeights(signals) else 0
  {
    var es := RunEvents(i, signals, at);
    if signals == [] {
      assert es == [Event(i, None, at)] && es[..0] == [];
    } else {
      var n := |signals| - 1;
      assert es[..n + 1] == RunEvents(i, signals[..n], at);
      RunWeight(i, signals[..n], at, session);
    }
  }

  /** The logged weight of a session is the weight of its run. */
  lemma {:induction false} LogWeight(history: seq<seq<Signal>>, times: seq<int>, session: nat)
    requires |times| == |history|
    ensures SessionWeight(LogOf(history, times), session) ==
      if session < |history| then SumWeights(history[session]) else 0
  {
    if history != [] {
      var n := |history| - 1;
      LogWeight(history[..n], times[..n], session);
      RunWeight(n, history[n], times[n], session);
      WeightConcat(LogOf(history[..n], times[..n]), RunEvents(n, history[n], times[n]), session);
    }
  }

  lemma {:induction false} LatestConcat(a: seq<Event>, b: seq<Event>, session: nat)
    requires forall i :: 0 <= i < |b| ==> b[i].session != session
    ensures Latest(a + b, session) == Latest(a, session)
    decreases |b|
  {
    if b == [] {
      assert a + b == a;
    } else {
      var n := |b| - 1;
      assert (a + b)[..|a| + n] == a + b[..n] && (a + b)[|a| + n] == b[n];
      LatestConcat(a, b[..n], session);
    }
  }

  lemma {:induction false} LatestInRun(a: seq<Event>, b: seq<Event>, session: nat, at: int)
    requires Latest(a, session) == None && b != []
    requires forall i :: 0 <= i < |b| ==> b[i].session == session && b[i].at == at
    ensures Latest(a + b, session) == Some(at)
    decreases |b|
  {
    var n := |b| - 1;
    assert (a + b)[..|a| + n] == a + b[..n] && (a + b)[|a| + n] == b[n];
    if n == 0 { assert a + b[..n] == a; } else { LatestInRun(a, b[..n], session, at); }
  }

  /** The sessions of the log are the runs, each stamped with its own time. */
  lemma {:induction false} LogStamps(history: seq<seq<Signal>>, times: seq<int>, session: nat)
    requires |times| == |history|
    ensures Latest(LogOf(history, times), session) == if session < |history| then Some(times[session]) else None
  {
    if history != [] {
      var n := |history| - 1;
      LogStamps(history[..n], times[..n], session);
      var a, b := LogOf(history[..n], times[..n]), RunEvents(n, history[n], times[n]);
      if session == n { LatestInRun(a, b, session, times[n]); } else { LatestConcat(a, b, session); }
    }
  }

  ghost predicate StrictlyLater(times: seq<int>) { forall i, j :: 0 <= i < j < |times| ==> times[i] < times[j] }

  /** Among sessions stamped in order, listing the latest first is counting down. */
  lemma LatestFirst(log: seq<Event>, times: seq<int>, window: nat, recent: seq<nat>)
    requires StrictlyLater(times) && IsRecent(log, window, recent)
    requires forall s: nat :: Latest(log, s) == if s < |times| then Some(times[s]) else None
    ensures Decreasing(recent) && forall i :: 0 <= i < |recent| ==> recent[i] < |times|
    ensures forall m: nat, i :: m < |times| && m !in recent && 0 <= i < |recent| ==> recent[i] > m
  {
    hide Latest;
    forall i, j | 0 <= i < j < |recent| ensures recent[i] > recent[j] {
      assert Latest(log, recent[i]).value >= Latest(log, recent[j]).value;
    }
    forall m: nat, i | m < |times| && m !in recent && 0 <= i < |recent| ensures recent[i] > m {
      assert Latest(log, recent[i]).value >= Latest(log, m).value;
    }
  }

  /** The most recent sessions are the last runs, counted backwards. */
  lemma RecentIsLast(history: seq<seq<Signal>>, times: seq<int>, window: nat, recent: seq<nat>)
    requires |times| == |history| && StrictlyLater(times) && IsRecent(LogOf(history, times), window, recent)
    ensures |recent| == Min(window, |history|)
    ensures forall i :: 0 <= i < |recent| ==> recent[i] == |history| - 1 - i
  {
    var log, n := LogOf(history, times), |history|;
    forall s: nat ensures Latest(log, s) == if s < n then Some(times[s]) else None {
      LogStamps(history, times, s);
    }
    hide LogOf, Latest, Decreasing;
    LatestFirst(log, times, window, recent);
    assert forall m: nat :: m < n && m !in recent ==> Latest(log, m).Some?;
    TopOfRange(recent, n, window);
  }

  ghost predicate Decreasing(s: seq<nat>) { forall i, j :: 0 <= i < j < |s| ==> s[i] > s[j] }

  /** A decreasing list of numbers below `n` that leaves out only smaller ones counts down from `n - 1`. */
  lemma TopOfRange(s: seq<nat>, n: nat, window: nat)
    requires Decreasing(s) && |s| <= window && forall i :: 0 <= i < |s| ==> s[i] < n
    requires forall m: nat :: m < n && m !in s ==> |s| == window
    requires forall m: nat, i :: m < n && m !in s && 0 <= i < |s| ==> s[i] > m
    ensures |s| == Min(window, n) && forall i :: 0 <= i < |s| ==> s[i] == n - 1 - i
  {
    CountsDown(s, n, |s|);
    if |s| < n {
      assert n - 1 - |s| !in s;
    }
  }

  lemma {:induction false} CountsDown(s: seq<nat>, n: nat, k: nat)
    requires k <= |s| && Decreasing(s) && forall i :: 0 <= i < |s| ==> s[i] < n
    requires forall m: nat, i :: m < n && m !in s && 0 <= i < |s| ==> s[i] > m
    ensures k <= n && forall i :: 0 <= i < k ==> s[i] == n - 1 - i
  {
    if k > 0 {
      CountsDown(s, n, k - 1);
      assert 0 <= s[k - 1] <= n - k by { assert k > 1 ==> s[k - 2] > s[k - 1]; }
      var m: nat := n - k;
      assert m in s;
      var j :| 0 <= j < |s| && s[j] == m;
    }
  }

  lemma {:induction false} SumCons(x: nat, s: seq<nat>)
    ensures Sum([x] + s) == x + Sum(s)
  {
    if s == [] {
      assert ([x] + s)[..0] == [];
    } else {
      assert ([x] + s)[..|s|] == [x] + s[..|s| - 1];
      SumCons(x, s[..|s| - 1]);
    }
  }

  lemma {:induction false} SumBackwards(back: seq<nat>, s: seq<nat>)
    requires |back| <= |s| && forall i :: 0 <= i < |back| ==> back[i] == s[|s| - 1 - i]
    ensures Sum(back) == Sum(s[|s| - |back|..])
  {
    if back != [] {
      var k := |back| - 1;
      SumBackwards(back[..k], s);
      assert s[|s| - |back|..] == [back[k]] + s[|s| - k..];
      SumCons(back[k], s[|s| - k..]);
    }
  }

  /** With no warm-up, a positive window, and one session per run stamped strictly later than the ones
      before, the score from the event log equals the tracker's. */
  lemma LogScoreEqualsTracker(history: seq<seq<Signal>>, times: seq<int>, window: nat, recent: seq<nat>)
    requires window > 0 && |times| == |history| && StrictlyLater(times)
    requires IsRecent(LogOf(history, times), window, recent)
    ensures var log, runs := LogOf(history, times), TrackerRuns(window, 0, history);
      LogScore(log, recent) == Score(Sum(runs), |runs|)
  {
    hide LogOf, TrackerRuns, SessionWeight, IsRecent, Sum, RunScore, Latest, Scores;
    var log, scores := LogOf(history, times), Scores(history);
    RecentIsLast(history, times, window, recent);
    LastScores(history, window);
    var back := MapSeq(recent, x => Min(SessionWeight(log, x), CAP));
    forall i | 0 <= i < |back| ensures back[i] == scores[|scores| - 1 - i] {
      SessionScore(history, times, recent[i]);
    }
    SumBackwards(back, scores);
  }

  /** With no warm-up the tracker holds the scores of the last runs. */
  lemma LastScores(history: seq<seq<Signal>>, window: nat)
    requires window > 0
    ensures |Scores(history)| == |history|
    ensures TrackerRuns(window, 0, history) == Scores(history)[|history| - Min(window, |history|)..]
  {
    hide TrackerRuns, RunScore;
    TrackerHoldsWindow(window, 0, history);
    assert history[0..] == history;
  }

  /** The capped weight of a logged session is the score of its run. */
  lemma SessionScore(history: seq<seq<Signal>>, times: seq<int>, session: nat)
    requires |times| == |history| && session < |history|
    ensures Min(SessionWeight(LogOf(history, times), session), CAP) == Scores(history)[session]
  {
    hide LogOf, SessionWeight;
    LogWeight(history, times, session);
  }
}
