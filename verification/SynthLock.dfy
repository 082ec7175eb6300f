/** Automatic synthesis on lock-in, run by any number of processes on one fingerprint: the advisory
    lock file, the re-check under the lock, the self-test, and the promotion. */
module SynthLock {
  import opened Text
  import opened Budget
  import opened Rules
  import opened Invariants
  import opened Synthesis
  import Repo = ProfileRepo

  /** What does not change during a run: the fingerprint, the settings, and the validator. */
  datatype Config = Config(
    fingerprint: string, serde: Serde, lex: Lexicon, validates: Profile -> bool, lockInN: nat, fastPath: bool)

  predicate ZeroVariance(samples: seq<string>) { forall i :: 0 < i < |samples| ==> samples[i - 1] == samples[i] }

  predicate ShouldLockIn(samples: seq<string>, n: nat, fastPath: bool) {
    |samples| >= n || (fastPath && |samples| >= 3 && ZeroVariance(samples))
  }

  /** Where a process stands, with what it has read so far. */
  datatype Pc =
    | Idle
    | Checked(samples: seq<string>)
    | SawStale(samples: seq<string>)
    | Locked(samples: seq<string>)
    | Clear(samples: seq<string>)
    | Tested(samples: seq<string>, profile: Profile)
    | Inserted(samples: seq<string>, profile: Profile, id: int)
    | Releasing
    | Done
    | Dead

  datatype Promotion = Promotion(pid: nat, samples: seq<string>, profile: Profile)

  datatype State = State(
    procs: map<nat, Pc>,
    lock: Option<nat>,              // the lock file, with the process that created it
    rows: seq<Repo.Row>,
    promoted: seq<Promotion>)       // every promotion made so far

  datatype Step =
    | Begin(pid: nat, samples: seq<string>)
    | GiveUp(pid: nat)
    | SeeStale(pid: nat)
    | CleanStale(pid: nat)
    | Acquire(pid: nat)
    | Recheck(pid: nat)
    | Test(pid: nat, profile: Profile, clocks: seq<Clock>)
    | Reject(pid: nat)
    | Insert(pid: nat, version: string, dsl: string, now: int)
    | Promote(pid: nat)
    | Release(pid: nat)
    | Crash(pid: nat)
    | Other(op: Repo.Op)            // another command on the profile table

  function At(s: State, p: nat): Pc { if p in s.procs then s.procs[p] else Idle }

  function Move(s: State, p: nat, pc: Pc): State { s.(procs := s.procs[p := pc]) }

  predicate HasActive(rows: seq<Repo.Row>, fp: string) {
    exists i :: 0 <= i < |rows| && Repo.ActiveOf(rows[i], fp)
  }

  /** The guard in front of promotion: the profile validates and passes on every sample that was loaded. */
  ghost predicate Vetted(c: Config, profile: Profile, samples: seq<string>) {
    c.validates(profile) &&
    exists clocks: seq<Clock> :: |clocks| == |samples| &&
      forall i :: 0 <= i < |samples| ==> PassesOn(c.serde, c.lex, profile, samples[i], clocks[i])
  }

  /** One atomic step of one process, or of another command. */
  ghost predicate Next(c: Config, s: State, step: Step, t: State) {
    match step
    case Begin(p, samples) =>
      At(s, p).Idle? && ShouldLockIn(samples, c.lockInN, c.fastPath) &&
      t == Move(s, p, if HasActive(s.rows, c.fingerprint) then Done else Checked(samples))
    case GiveUp(p) => At(s, p).Idle? && t == Move(s, p, Done)
    case SeeStale(p) => At(s, p).Checked? && s.lock.Some? && t == Move(s, p, SawStale(At(s, p).samples))
    case CleanStale(p) => At(s, p).SawStale? && t == Move(s, p, Checked(At(s, p).samples)).(lock := None)
    case Acquire(p) =>
      At(s, p).Checked? &&
      t == if s.lock.None? then Move(s, p, Locked(At(s, p).samples)).(lock := Some(p)) else Move(s, p, Done)
    case Recheck(p) =>
      At(s, p).Locked? &&
      t == Move(s, p, if HasActive(s.rows, c.fingerprint) then Releasing else Clear(At(s, p).samples))
    case Test(p, profile, clocks) =>
      At(s, p).Clear? && c.validates(profile) && |clocks| == |At(s, p).samples| &&
      (forall i :: 0 <= i < |clocks| ==> PassesOn(c.serde, c.lex, profile, At(s, p).samples[i], clocks[i])) &&
      t == Move(s, p, Tested(At(s, p).samples, profile))
    case Reject(p) => At(s, p).Clear? && t == Move(s, p, Releasing)
    case Insert(p, version, dsl, now) =>
      At(s, p).Tested? &&
      t == if Repo.Taken(s.rows, c.fingerprint, version) then Move(s, p, Releasing)
           else
             Move(s, p, Inserted(At(s, p).samples, At(s, p).profile, Repo.MaxId(s.rows) + 1))
               .(rows := Repo.InsertRow(s.rows, Repo.NewProfile(c.fingerprint, version, dsl), now))
    case Promote(p) =>
      At(s, p).Inserted? &&
      var id := At(s, p).id;
      var k := Repo.FindId(s.rows, id);
      t == if k == |s.rows| then Move(s, p, Releasing)
           else Move(s, p, Releasing)
                  .(rows := Repo.ActivateRows(s.rows, s.rows[k].fingerprint, id),
                    promoted := s.promoted + [Promotion(p, At(s, p).samples, At(s, p).profile)])
    case Release(p) => At(s, p).Releasing? && t == Move(s, p, Done).(lock := None)
    case Crash(p) => t == Move(s, p, Dead)
    case Other(op) => Repo.Next(s.rows, op, t.rows) && t == s.(rows := t.rows)
  }

  ghost predicate IsRun(c: Config, states: seq<State>, steps: seq<Step>) {
    && |states| == |steps| + 1
    && (forall p: nat :: At(states[0], p).Idle?) && states[0].promoted == [] && Repo.Valid(states[0].rows)
    && forall i :: 0 <= i < |steps| ==> Next(c, states[i], steps[i], states[i + 1])
  }

  // ---- Mutual exclusion ----

  predicate InSection(pc: Pc) {
    pc.Locked? || pc.Clear? || pc.Tested? || pc.Inserted? || pc.Releasing?
  }

  /** Whoever is in the section created the lock file. */
  ghost predicate Exclusive(s: State) { forall p: nat :: InSection(At(s, p)) ==> s.lock == Some(p) }

  /** The lock file's creator is not in the section: it is gone, and left the file behind. */
  predicate Abandoned(s: State) { s.lock.Some? ==> !InSection(At(s, s.lock.value)) }

  /** No stale clean-up removes the lock of a process that is still at work. */
  predicate SparesOwner(s: State, step: Step) { step.CleanStale? ==> Abandoned(s) }

  lemma StepKeepsExclusive(c: Config, s: State, step: Step, t: State)
    requires Exclusive(s) && Next(c, s, step, t) && SparesOwner(s, step)
    ensures Exclusive(t)
  {
    hide ShouldLockIn, HasActive, PassesOn, Repo.Next, Repo.ActivateRows, Repo.Taken, Repo.FindId;
    forall p: nat | InSection(At(t, p)) ensures t.lock == Some(p) {
      if !step.Other? && step.pid != p { assert At(t, p) == At(s, p); }
    }
  }

  ghost predicate SparesOwners(states: seq<State>, steps: seq<Step>, n: nat)
    requires n <= |steps| < |states|
  {
    forall i :: 0 <= i < n ==> SparesOwner(states[i], steps[i])
  }

  lemma {:induction false} ExclusiveThroughout(c: Config, states: seq<State>, steps: seq<Step>, n: nat)
    requires IsRun(c, states, steps) && n < |states| && SparesOwners(states, steps, n)
    ensures Exclusive(states[n])
  {
    hide Next;
    if n > 0 {
      ExclusiveThroughout(c, states, steps, n - 1);
      StepKeepsExclusive(c, states[n - 1], steps[n - 1], states[n]);
    }
  }

  /** Any number of processes, any interleaving, any crashes, any other commands, and clean-ups of locks
      that crashed processes left behind: at most one process is between acquiring and releasing. */
  lemma AtMostOneInSection(c: Config, states: seq<State>, steps: seq<Step>, n: nat, p: nat, q: nat)
    requires IsRun(c, states, steps) && n < |states| && SparesOwners(states, steps, n)
    ensures InSection(At(states[n], p)) && InSection(At(states[n], q)) ==> p == q
  {
    ExclusiveThroughout(c, states, steps, n);
  }

  ghost predicate TwoInSection(s: State) {
    exists p: nat, q: nat :: p != q && InSection(At(s, p)) && InSection(At(s, q))
  }

  /** A clean-up followed by taking the lock puts two processes into the section if and only if the lock it
      removed belonged to a process still in its section. */
  lemma CleanupBreaksIff(c: Config, s: State, p: nat, t: State, u: State)
    requires Exclusive(s) && Next(c, s, CleanStale(p), t) && Next(c, t, Acquire(p), u)
    ensures TwoInSection(u) <==> !Abandoned(s)
  {
    hide InSection;
    assert InSection(At(u, p)) && !InSection(At(s, p)) by { SectionPcs(At(u, p), At(s, p)); }
    assert forall q: nat :: q != p ==> At(u, q) == At(s, q);
    if s.lock.Some? && InSection(At(s, s.lock.value)) {
      assert s.lock.value != p && InSection(At(u, s.lock.value));
    }
  }

  lemma SectionPcs(a: Pc, b: Pc)
    requires a.Locked? && b.SawStale?
    ensures InSection(a) && !InSection(b)
  {
  }

  // ---- Promotions ----

  /** A step of another command that takes the active profile of this fingerprint away or deletes one of its
      rows. */
  predicate Takes(c: Config, s: State, step: Step) {
    step.Other? &&
    match step.op
    case Purge(id, referenced) =>
      !referenced && exists i :: 0 <= i < |s.rows| && s.rows[i].id == id && s.rows[i].fingerprint == c.fingerprint
    case Quarantine(id) =>
      exists i :: 0 <= i < |s.rows| && s.rows[i].id == id && Repo.ActiveOf(s.rows[i], c.fingerprint)
    case _ => false
  }

  function Takings(c: Config, states: seq<State>, steps: seq<Step>, n: nat): nat
    requires n <= |steps| < |states|
  {
    if n == 0 then 0
    else Takings(c, states, steps, n - 1) + (if Takes(c, states[n - 1], steps[n - 1]) then 1 else 0)
  }

  /** Past the re-check and before promotion. */
  predicate PastRecheck(pc: Pc) { pc.Clear? || pc.Tested? || pc.Inserted? }

  ghost predicate OwnRow(c: Config, rows: seq<Repo.Row>, id: int) {
    exists k :: 0 <= k < |rows| && rows[k].id == id && rows[k].fingerprint == c.fingerprint
  }

  /** After `r` takings: what holds of one process. A process past its re-check has room for its promotion,
      twice over if the row it inserted is gone. */
  ghost predicate PcOk(c: Config, s: State, r: nat, p: nat) {
    var pc := At(s, p);
    && (PastRecheck(pc) ==> |s.promoted| <= r)
    && (pc.Tested? ==> Vetted(c, pc.profile, pc.samples))
    && (pc.Inserted? ==> Vetted(c, pc.profile, pc.samples) && (OwnRow(c, s.rows, pc.id) || |s.promoted| < r))
  }

  ghost predicate AllVetted(c: Config, s: State) {
    forall i :: 0 <= i < |s.promoted| ==> Vetted(c, s.promoted[i].profile, s.promoted[i].samples)
  }

  ghost predicate Inv(c: Config, s: State, r: nat) {
    && Repo.Valid(s.rows)
    && Exclusive(s)
    && (forall p: nat :: PcOk(c, s, r, p))
    && |s.promoted| <= r + 1
    && (!HasActive(s.rows, c.fingerprint) ==> |s.promoted| <= r)
    && AllVetted(c, s)
  }

  lemma OtherKeepsActive(c: Config, s: State, op: Repo.Op, rows': seq<Repo.Row>)
    requires Repo.Valid(s.rows) && Repo.Next(s.rows, op, rows') && !Takes(c, s, Other(op))
    ensures HasActive(s.rows, c.fingerprint) ==> HasActive(rows', c.fingerprint)
    ensures forall id :: OwnRow(c, s.rows, id) ==> OwnRow(c, rows', id)
  {
    var rows, fp := s.rows, c.fingerprint;
    match op {
      case Promote(id) =>
        var k := Repo.FindId(rows, id);
        if k < |rows| { ActivateKeepsActive(c, rows, rows[k].fingerprint, id, k); }
      case Rollback(f) =>
        if exists id :: Repo.IsNewestSuperseded(rows, f, id) {
          var id :| Repo.IsNewestSuperseded(rows, f, id) && rows' == Repo.ActivateRows(rows, f, id);
          var k :| 0 <= k < |rows| && rows[k].id == id && Repo.SupersededOf(rows[k], f);
          ActivateKeepsActive(c, rows, f, id, k);
        }
      case Quarantine(id) =>
        assert |rows'| == |rows|;
        assert forall i :: 0 <= i < |rows| ==> rows'[i].id == rows[i].id && rows'[i].fingerprint == rows[i].fingerprint;
        assert forall i :: 0 <= i < |rows| && Repo.ActiveOf(rows[i], fp) ==> rows'[i] == rows[i];
      case Insert(p, now) =>
        assert forall i :: 0 <= i < |rows| ==> rows'[i] == rows[i];
      case Purge(id, referenced) =>
        if referenced && Repo.FindId(rows, id) < |rows| {
          assert rows' == rows;
        } else {
          PurgeKeepsActive(c, rows, id);
        }
    }
  }

  lemma PurgeKeepsActive(c: Config, rows: seq<Repo.Row>, id: int)
    requires Repo.Valid(rows)
    requires forall i :: 0 <= i < |rows| && rows[i].id == id ==> rows[i].fingerprint != c.fingerprint
    ensures HasActive(rows, c.fingerprint) ==> HasActive(Repo.DeleteRow(rows, id), c.fingerprint)
    ensures forall x :: OwnRow(c, rows, x) ==> OwnRow(c, Repo.DeleteRow(rows, id), x)
  {
    hide Repo.Valid, Repo.DeleteRow;
    Repo.DeleteTakes(rows, id);
    var out := Repo.DeleteRow(rows, id);
    forall i | 0 <= i < |rows| && rows[i].fingerprint == c.fingerprint ensures rows[i] in out {
      assert rows[i] in rows;
    }
    if HasActive(rows, c.fingerprint) {
      var i :| 0 <= i < |rows| && Repo.ActiveOf(rows[i], c.fingerprint);
      var j :| 0 <= j < |out| && out[j] == rows[i];
    }
    forall x | OwnRow(c, rows, x) ensures OwnRow(c, out, x) {
      var i :| 0 <= i < |rows| && rows[i].id == x && rows[i].fingerprint == c.fingerprint;
      var j :| 0 <= j < |out| && out[j] == rows[i];
    }
  }

  /** Activating a row of any fingerprint never leaves a fingerprint that had an active row without one. */
  lemma ActivateKeepsActive(c: Config, rows: seq<Repo.Row>, f: string, id: int, k: nat)
    requires Repo.Valid(rows) && k < |rows| && rows[k].id == id && rows[k].fingerprint == f
    ensures var out := Repo.ActivateRows(rows, f, id);
      && HasActive(out, f)
      && (HasActive(rows, c.fingerprint) ==> HasActive(out, c.fingerprint))
      && (forall x :: OwnRow(c, rows, x) ==> OwnRow(c, out, x))
  {
    var out := Repo.ActivateRows(rows, f, id);
    assert out[k] == rows[k].(status := Repo.Active);
    assert Repo.ActiveOf(out[k], f);
    if HasActive(rows, c.fingerprint) && c.fingerprint != f {
      var i :| 0 <= i < |rows| && Repo.ActiveOf(rows[i], c.fingerprint);
      assert out[i] == rows[i];
    }
    assert forall i :: 0 <= i < |rows| ==> out[i].id == rows[i].id && out[i].fingerprint == rows[i].fingerprint;
  }

  /** A step that moves one process and leaves table and promotions alone. */
  lemma MoveKeepsInv(c: Config, s: State, r: nat, t: State, p: nat)
    requires Inv(c, s, r) && Exclusive(t) && t.rows == s.rows && t.promoted == s.promoted
    requires t.procs == s.procs[p := At(t, p)]
    requires PcOk(c, t, r, p)
    ensures Inv(c, t, r)
  {
    hide Repo.Valid, HasActive, Vetted, OwnRow, Exclusive;
    forall q: nat ensures PcOk(c, t, r, q) {
      assert PcOk(c, s, r, q);
      if q != p { assert At(t, q) == At(s, q); }
    }
  }

  /** A longer table that keeps its rows keeps what holds of a process that did not move. */
  lemma SamePcOk(c: Config, s: State, r: nat, t: State, r': nat, q: nat)
    requires PcOk(c, s, r, q) && At(t, q) == At(s, q)
    requires forall id :: OwnRow(c, s.rows, id) ==> OwnRow(c, t.rows, id)
    requires t.promoted == s.promoted && r' >= r
    ensures PcOk(c, t, r', q)
  {
    hide OwnRow, Vetted;
  }

  lemma InsertKeepsInv(c: Config, s: State, r: nat, step: Step, t: State)
    requires Inv(c, s, r) && step.Insert? && Next(c, s, step, t) && Exclusive(t)
    ensures Inv(c, t, r)
  {
    hide Exclusive, Vetted;
    var p := step.pid;
    assert PcOk(c, s, r, p);
    if Repo.Taken(s.rows, c.fingerprint, step.version) {
      MoveKeepsInv(c, s, r, t, p);
    } else {
      InsertedRowIsOwn(c, s, step, t);
      hide HasActive, OwnRow, Repo.Valid, Repo.MaxId, Repo.InsertRow;
      forall q: nat ensures PcOk(c, t, r, q) {
        if q != p {
          assert PcOk(c, s, r, q);
          SamePcOk(c, s, r, t, r, q);
        }
      }
    }
  }

  lemma InsertedRowIsOwn(c: Config, s: State, step: Step, t: State)
    requires Repo.Valid(s.rows) && step.Insert? && Next(c, s, step, t)
    requires !Repo.Taken(s.rows, c.fingerprint, step.version)
    ensures Repo.Valid(t.rows) && OwnRow(c, t.rows, Repo.MaxId(s.rows) + 1)
    ensures HasActive(s.rows, c.fingerprint) ==> HasActive(t.rows, c.fingerprint)
    ensures forall id :: OwnRow(c, s.rows, id) ==> OwnRow(c, t.rows, id)
  {
    var n := |s.rows|;
    assert t.rows[n].id == Repo.MaxId(s.rows) + 1 && t.rows[n].fingerprint == c.fingerprint;
    assert forall i :: 0 <= i < n ==> t.rows[i] == s.rows[i];
    var insert := Repo.Insert(Repo.NewProfile(c.fingerprint, step.version, step.dsl), step.now);
    Repo.StepKeepsValid(s.rows, insert, t.rows);
  }

  lemma OwnRowIsFound(c: Config, rows: seq<Repo.Row>, id: int)
    requires Repo.Valid(rows) && OwnRow(c, rows, id)
    ensures var k := Repo.FindId(rows, id);
      k < |rows| && rows[k].id == id && rows[k].fingerprint == c.fingerprint
  {
    var j :| 0 <= j < |rows| && rows[j].id == id && rows[j].fingerprint == c.fingerprint;
    assert j == Repo.FindId(rows, id);
  }

  /** What a promotion does to the table: the fingerprint has an active row afterwards if the promoted row is
      its own. */
  lemma PromotedRows(c: Config, rows: seq<Repo.Row>, id: int)
    requires Repo.Valid(rows) && Repo.FindId(rows, id) < |rows|
    ensures var out := Repo.ActivateRows(rows, rows[Repo.FindId(rows, id)].fingerprint, id);
      && Repo.Valid(out)
      && (OwnRow(c, rows, id) ==> HasActive(out, c.fingerprint))
  {
    var k := Repo.FindId(rows, id);
    Repo.PromoteKeepsValid(rows, id);
    ActivateKeepsActive(c, rows, rows[k].fingerprint, id, k);
    if OwnRow(c, rows, id) { OwnRowIsFound(c, rows, id); }
  }

  lemma PromoteKeepsInv(c: Config, s: State, r: nat, step: Step, t: State)
    requires Inv(c, s, r) && step.Promote? && Next(c, s, step, t) && Exclusive(t)
    ensures Inv(c, t, r)
  {
    hide Vetted, HasActive, OwnRow, Repo.Valid, Repo.ActivateRows, Repo.FindId;
    var p := step.pid;
    assert PcOk(c, s, r, p);
    var id := At(s, p).id;
    if Repo.FindId(s.rows, id) == |s.rows| {
      hide Exclusive;
      MoveKeepsInv(c, s, r, t, p);
    } else {
      PromotedRows(c, s.rows, id);
      forall q: nat ensures PcOk(c, t, r, q) {
        if q != p {
          assert PcOk(c, s, r, q) && At(t, q) == At(s, q);
          assert !InSection(At(s, q));
        }
      }
    }
  }

  lemma OtherKeepsInv(c: Config, s: State, r: nat, op: Repo.Op, t: State)
    requires Inv(c, s, r) && Next(c, s, Other(op), t)
    ensures Inv(c, t, if Takes(c, s, Other(op)) then r + 1 else r)
  {
    hide Vetted, HasActive, OwnRow, Repo.Valid, Repo.Next, Takes;
    Repo.StepKeepsValid(s.rows, op, t.rows);
    if !Takes(c, s, Other(op)) { OtherKeepsActive(c, s, op, t.rows); }
    var r' := if Takes(c, s, Other(op)) then r + 1 else r;
    forall q: nat ensures PcOk(c, t, r', q) {
      assert PcOk(c, s, r, q) && At(t, q) == At(s, q);
    }
  }

  lemma StepKeepsInv(c: Config, s: State, r: nat, step: Step, t: State)
    requires Inv(c, s, r) && Next(c, s, step, t) && SparesOwner(s, step)
    ensures Inv(c, t, if Takes(c, s, step) then r + 1 else r)
  {
    StepKeepsExclusive(c, s, step, t);
    hide Vetted, HasActive, ShouldLockIn, Repo.Next, Repo.Valid, Exclusive, OwnRow;
    match step
    case Insert(_, _, _, _) => InsertKeepsInv(c, s, r, step, t);
    case Promote(_) => PromoteKeepsInv(c, s, r, step, t);
    case Other(op) => OtherKeepsInv(c, s, r, op, t);
    case _ =>
      var p := step.pid;
      assert PcOk(c, s, r, p);
      MovedPcOk(c, s, r, step, t);
      MoveKeepsInv(c, s, r, t, p);
  }

  lemma MovedPcOk(c: Config, s: State, r: nat, step: Step, t: State)
    requires Inv(c, s, r) && Next(c, s, step, t) && !step.Insert? && !step.Promote? && !step.Other?
    ensures PcOk(c, t, r, step.pid)
  {
    hide HasActive, ShouldLockIn, Repo.Valid, Exclusive, OwnRow, PassesOn;
    assert PcOk(c, s, r, step.pid);
  }

  lemma {:induction false} RunsKeepInv(c: Config, states: seq<State>, steps: seq<Step>, n: nat)
    requires IsRun(c, states, steps) && n < |states| && SparesOwners(states, steps, n)
    ensures Inv(c, states[n], Takings(c, states, steps, n))
  {
    hide Next, Takes;
    if n == 0 {
      assert forall p: nat :: At(states[0], p).Idle? ==> PcOk(c, states[0], 0, p);
    } else {
      RunsKeepInv(c, states, steps, n - 1);
      hide Inv, SparesOwner, IsRun;
      StepKeepsInv(c, states[n - 1], Takings(c, states, steps, n - 1), steps[n - 1], states[n]);
    }
  }

  /** Of any number of processes, with quarantines and purges allowed: promotions are at most one more than
      the steps of other commands that took an active profile away or deleted a row, and each promoted
      profile validated and passed budget and invariants on every sample its process had loaded. */
  lemma PromotionsBounded(c: Config, states: seq<State>, steps: seq<Step>, n: nat)
    requires IsRun(c, states, steps) && n < |states| && SparesOwners(states, steps, n)
    ensures |states[n].promoted| <= Takings(c, states, steps, n) + 1
    ensures AllVetted(c, states[n])
  {
    RunsKeepInv(c, states, steps, n);
  }

  lemma {:induction false} NothingTaken(c: Config, states: seq<State>, steps: seq<Step>, n: nat)
    requires n <= |steps| < |states| && forall i :: 0 <= i < n ==> !Takes(c, states[i], steps[i])
    ensures Takings(c, states, steps, n) == 0
  {
    if n > 0 { NothingTaken(c, states, steps, n - 1); }
  }

  /** When no other command takes this fingerprint's profile away: at most one process in the section, at
      most one promotion, and it was vetted. Clean-ups of abandoned locks are allowed. */
  lemma AtMostOnePromotion(c: Config, states: seq<State>, steps: seq<Step>, n: nat, p: nat, q: nat)
    requires IsRun(c, states, steps) && n < |states| && SparesOwners(states, steps, n)
    requires forall i :: 0 <= i < n ==> !Takes(c, states[i], steps[i])
    ensures InSection(At(states[n], p)) && InSection(At(states[n], q)) ==> p == q
    ensures |states[n].promoted| <= 1
    ensures AllVetted(c, states[n])
  {
    hide Next;
    AtMostOneInSection(c, states, steps, n, p, q);
    PromotionsBounded(c, states, steps, n);
    NothingTaken(c, states, steps, n);
  }

  /** In every run whatsoever, stale clean-ups, quarantines, rollbacks and purges included: at most one
      row of each fingerprint is active. */
  lemma {:induction false} AlwaysOneActive(c: Config, states: seq<State>, steps: seq<Step>, n: nat)
    requires IsRun(c, states, steps) && n < |states|
    ensures Repo.Valid(states[n].rows)
  {
    hide Next, Repo.Valid;
    if n > 0 {
      AlwaysOneActive(c, states, steps, n - 1);
      NextKeepsValid(c, states[n - 1], steps[n - 1], states[n]);
    }
  }

  lemma NextKeepsValid(c: Config, s: State, step: Step, t: State)
    requires Next(c, s, step, t) && Repo.Valid(s.rows)
    ensures Repo.Valid(t.rows)
  {
    hide Repo.Valid, ShouldLockIn, Vetted, Repo.Next;
    match step {
      case Insert(p, version, dsl, now) =>
        RepoInsertIsStep(c, s.rows, version, dsl, now);
        Repo.StepKeepsValid(s.rows, Repo.Insert(Repo.NewProfile(c.fingerprint, version, dsl), now),
          InsertedRows(c, s.rows, version, dsl, now));
      case Promote(p) =>
        var k := Repo.FindId(s.rows, At(s, p).id);
        if k < |s.rows| { Repo.PromoteKeepsValid(s.rows, At(s, p).id); }
      case Other(op) => Repo.StepKeepsValid(s.rows, op, t.rows);
      case _ =>
    }
  }

  // ---- Who made a row active ----

  /** A process of the run, or another command, promotes that row. */
  predicate Promotes(s: State, step: Step, id: int) {
    || (step.Promote? && At(s, step.pid).Inserted? && At(s, step.pid).id == id)
    || step == Other(Repo.Promote(id))
  }

  ghost predicate LiveSince(states: seq<State>, n: nat, id: int, i: nat)
    requires n < |states|
  {
    forall j :: i <= j <= n ==> Repo.LiveIn(states[j].rows, id)
  }

  lemma NextRevives(c: Config, s: State, step: Step, t: State, id: int)
    requires Next(c, s, step, t) && Repo.LiveIn(t.rows, id)
    ensures Repo.LiveIn(s.rows, id) || Promotes(s, step, id)
  {
    hide Repo.LiveIn, ShouldLockIn, Vetted, Repo.Next;
    match step {
      case Insert(p, version, dsl, now) =>
        RepoInsertIsStep(c, s.rows, version, dsl, now);
        Repo.StepRevives(s.rows, Repo.Insert(Repo.NewProfile(c.fingerprint, version, dsl), now), t.rows, id);
      case Promote(p) =>
        RepoPromoteIsStep(s.rows, At(s, p).id);
        Repo.StepRevives(s.rows, Repo.Promote(At(s, p).id), t.rows, id);
      case Other(op) => Repo.StepRevives(s.rows, op, t.rows, id);
      case _ =>
    }
  }

  /** In every run whatsoever: a row that is active or superseded was so from the start, or was promoted in
      the run, by one of its processes or by another command, and has been active or superseded ever since. */
  lemma {:induction false} LiveRowsWerePromoted(c: Config, states: seq<State>, steps: seq<Step>, n: nat, id: int)
    requires IsRun(c, states, steps) && n < |states|
    ensures Repo.LiveIn(states[n].rows, id) <==>
      || LiveSince(states, n, id, 0)
      || exists i :: 0 <= i < n && Promotes(states[i], steps[i], id) && LiveSince(states, n, id, i + 1)
  {
    hide Next, Repo.LiveIn, Promotes;
    if n > 0 && Repo.LiveIn(states[n].rows, id) {
      NextRevives(c, states[n - 1], steps[n - 1], states[n], id);
      LiveRowsWerePromoted(c, states, steps, n - 1, id);
      if !Repo.LiveIn(states[n - 1].rows, id) {
        assert Promotes(states[n - 1], steps[n - 1], id) && LiveSince(states, n, id, n - 1 + 1);
      }
    }
  }

  lemma RepoPromoteIsStep(rows: seq<Repo.Row>, id: int)
    ensures var k := Repo.FindId(rows, id);
      Repo.Next(rows, Repo.Promote(id), if k < |rows| then Repo.ActivateRows(rows, rows[k].fingerprint, id) else rows)
  {
  }

  // ---- When synthesis runs ----

  /** The lock-in policy: enough samples, or at least three that are all the same where the fast path is on. */
  ghost predicate Enough(c: Config, samples: seq<string>) {
    || |samples| >= c.lockInN
    || (c.fastPath && |samples| >= 3 && forall i, j :: 0 <= i < j < |samples| ==> samples[i] == samples[j])
  }

  lemma {:induction false} NeighboursAgree(samples: seq<string>, i: nat, j: nat)
    requires ZeroVariance(samples) && i <= j < |samples|
    ensures samples[i] == samples[j]
  {
    if i < j { NeighboursAgree(samples, i, j - 1); }
  }

  lemma LockInIffEnough(c: Config, samples: seq<string>)
    ensures ShouldLockIn(samples, c.lockInN, c.fastPath) <==> Enough(c, samples)
  {
    if ZeroVariance(samples) {
      forall i, j | 0 <= i < j < |samples| ensures samples[i] == samples[j] {
        NeighboursAgree(samples, i, j);
      }
    }
  }

  predicate HasSamples(pc: Pc) {
    pc.Checked? || pc.SawStale? || pc.Locked? || pc.Clear? || pc.Tested? || pc.Inserted?
  }

  /** Every process at work, and every promotion made, had samples enough. */
  ghost predicate AllEnough(c: Config, s: State) {
    && (forall p: nat :: HasSamples(At(s, p)) ==> Enough(c, At(s, p).samples))
    && (forall i :: 0 <= i < |s.promoted| ==> Enough(c, s.promoted[i].samples))
  }

  lemma StepKeepsEnough(c: Config, s: State, step: Step, t: State)
    requires AllEnough(c, s) && Next(c, s, step, t)
    ensures AllEnough(c, t)
  {
    hide HasActive, ShouldLockIn, Enough, PassesOn, Repo.Next, Repo.ActivateRows, Repo.Taken, Repo.FindId;
    if step.Begin? { LockInIffEnough(c, step.samples); }
    forall p: nat | HasSamples(At(t, p)) ensures Enough(c, At(t, p).samples) {
      assert HasSamples(At(s, p)) ==> Enough(c, At(s, p).samples);
      if !step.Other? && step.pid != p { assert At(t, p) == At(s, p); }
    }
    if step.Promote? { assert HasSamples(At(s, step.pid)); }
  }

  /** In every run whatsoever, no profile is promoted from fewer samples than the policy asks for. */
  lemma {:induction false} PromotedOnEnough(c: Config, states: seq<State>, steps: seq<Step>, n: nat)
    requires IsRun(c, states, steps) && n < |states|
    ensures AllEnough(c, states[n])
  {
    hide Next, Enough;
    if n > 0 {
      PromotedOnEnough(c, states, steps, n - 1);
      StepKeepsEnough(c, states[n - 1], steps[n - 1], states[n]);
    } else {
      assert forall p: nat :: !HasSamples(At(states[0], p));
    }
  }

  function InsertedRows(c: Config, rows: seq<Repo.Row>, version: string, dsl: string, now: int): seq<Repo.Row> {
    if Repo.Taken(rows, c.fingerprint, version) then rows
    else Repo.InsertRow(rows, Repo.NewProfile(c.fingerprint, version, dsl), now)
  }

  lemma RepoInsertIsStep(c: Config, rows: seq<Repo.Row>, version: string, dsl: string, now: int)
    ensures Repo.Next(rows, Repo.Insert(Repo.NewProfile(c.fingerprint, version, dsl), now),
                      InsertedRows(c, rows, version, dsl, now))
  {
  }

  /** Two processes, and nothing in the table. */
  function Two(a: Pc, b: Pc, lock: Option<nat>): State { State(map[0 := a, 1 := b], lock, [], []) }

  lemma TwoMoves(a: Pc, b: Pc, lock: Option<nat>, x: Pc)
    ensures At(Two(a, b, lock), 0) == a && At(Two(a, b, lock), 1) == b
    ensures Move(Two(a, b, lock), 0, x) == Two(x, b, lock)
    ensures Move(Two(a, b, lock), 1, x) == Two(a, x, lock)
  {
  }

  /** Both processes look at a lock that a crashed one left behind; then each in turn removes the lock
      it finds and takes it. */
  function StaleRace(samples: seq<string>): seq<State> {
    var checked, stale, locked := Checked(samples), SawStale(samples), Locked(samples);
    [Two(Idle, Idle, Some(2)), Two(checked, Idle, Some(2)), Two(checked, checked, Some(2)),
     Two(stale, checked, Some(2)), Two(stale, stale, Some(2)),
     Two(checked, stale, None), Two(locked, stale, Some(0)),
     Two(locked, checked, None), Two(locked, locked, Some(1))]
  }

  /** The stale clean-up is a check followed by a removal: it can delete a lock that another process has
      just taken, and two processes then hold the lock at once. */
  lemma StaleCleanupBreaksExclusion(c: Config, samples: seq<string>)
    requires ShouldLockIn(samples, c.lockInN, c.fastPath)
    ensures exists states: seq<State>, steps: seq<Step> ::
      IsRun(c, states, steps) && InSection(At(states[|steps|], 0)) && InSection(At(states[|steps|], 1))
  {
    var steps := [Begin(0, samples), Begin(1, samples), SeeStale(0), SeeStale(1),
                  CleanStale(0), Acquire(0), CleanStale(1), Acquire(1)];
    var states := StaleRace(samples);
    assert IsRun(c, states, steps) by { StaleRaceIsRun(c, samples, states, steps); }
    assert states[|steps|] == Two(Locked(samples), Locked(samples), Some(1));
  }

  lemma StaleRaceIsRun(c: Config, samples: seq<string>, states: seq<State>, steps: seq<Step>)
    requires ShouldLockIn(samples, c.lockInN, c.fastPath)
    requires states == StaleRace(samples)
    requires steps == [Begin(0, samples), Begin(1, samples), SeeStale(0), SeeStale(1),
                       CleanStale(0), Acquire(0), CleanStale(1), Acquire(1)]
    ensures IsRun(c, states, steps)
  {
    var checked, stale, locked := Checked(samples), SawStale(samples), Locked(samples);
    hide Next, At;
    Looks(c, samples, Idle);
    Looks(c, samples, checked);
    Looks(c, samples, stale);
    CleansFirst(c, samples);
    CleansSecond(c, samples);
    assert states[0] == Two(Idle, Idle, Some(2));
    TwoIdle();
    assert Next(c, states[0], steps[0], states[1]) && Next(c, states[1], steps[1], states[2]);
    assert Next(c, states[2], steps[2], states[3]) && Next(c, states[3], steps[3], states[4]);
    assert Next(c, states[4], steps[4], states[5]) && Next(c, states[5], steps[5], states[6]);
    assert Next(c, states[6], steps[6], states[7]) && Next(c, states[7], steps[7], states[8]);
  }

  /** The steps that only look, whatever the other process is doing. */
  lemma Looks(c: Config, samples: seq<string>, other: Pc)
    requires ShouldLockIn(samples, c.lockInN, c.fastPath)
    ensures Next(c, Two(Idle, other, Some(2)), Begin(0, samples), Two(Checked(samples), other, Some(2)))
    ensures Next(c, Two(other, Idle, Some(2)), Begin(1, samples), Two(other, Checked(samples), Some(2)))
    ensures Next(c, Two(Checked(samples), other, Some(2)), SeeStale(0), Two(SawStale(samples), other, Some(2)))
    ensures Next(c, Two(other, Checked(samples), Some(2)), SeeStale(1), Two(other, SawStale(samples), Some(2)))
  {
    hide ShouldLockIn, Move, At;
    TwoMoves(Idle, other, Some(2), Checked(samples));
    TwoMoves(other, Idle, Some(2), Checked(samples));
    TwoMoves(Checked(samples), other, Some(2), SawStale(samples));
    TwoMoves(other, Checked(samples), Some(2), SawStale(samples));
  }

  lemma CleansFirst(c: Config, samples: seq<string>)
    ensures var checked, stale, locked := Checked(samples), SawStale(samples), Locked(samples);
      && Next(c, Two(stale, stale, Some(2)), CleanStale(0), Two(checked, stale, None))
      && Next(c, Two(checked, stale, None), Acquire(0), Two(locked, stale, Some(0)))
  {
    hide Move, At;
    TwoMoves(SawStale(samples), SawStale(samples), Some(2), Checked(samples));
    TwoMoves(Checked(samples), SawStale(samples), None, Locked(samples));
  }

  lemma CleansSecond(c: Config, samples: seq<string>)
    ensures var checked, stale, locked := Checked(samples), SawStale(samples), Locked(samples);
      && Next(c, Two(locked, stale, Some(0)), CleanStale(1), Two(locked, checked, None))
      && Next(c, Two(locked, checked, None), Acquire(1), Two(locked, locked, Some(1)))
  {
    hide Move, At;
    TwoMoves(Locked(samples), SawStale(samples), Some(0), Checked(samples));
    TwoMoves(Locked(samples), Checked(samples), None, Locked(samples));
  }

  lemma TwoIdle()
    ensures forall p: nat :: At(Two(Idle, Idle, Some(2)), p).Idle?
  {
  }
}
