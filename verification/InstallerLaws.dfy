/** What installing and uninstalling the hooks amounts to over whole sequences of calls. */
module InstallerLaws {
  import opened Text
  import opened Json
  import opened HookMerge
  import opened Installer

  /** The plan ran to its end: every configuration is as its change leaves it, and the backup file reads
      back as the former contents. */
  lemma ApplyEffect(env: Env, home: Dir, dir: Dir, files: Files, plan: Plan)
    requires Faithful(env.codec) && WellFormed(home, dir, plan)
    requires ApplyPlan(env, files, plan).Going?
    ensures var s := ApplyPlan(env, files, plan).state;
      && LoadBackup(env.codec, s.files, plan.backupPath) == Some(s.originals)
      && (forall i :: 0 <= i < |plan.changes| ==> Recorded(env, files, plan.changes[i], s))
      && (forall name :: name in s.originals ==> Named(plan.changes, name))
      && (forall p: Path :: !IsScratch(p) && p != plan.backupPath && !Touches(plan.changes, p) ==>
            Lookup(s.files, p) == Lookup(files, p))
  {
    var changes := plan.changes;
    assert changes[..|changes|] == changes;
    ApplyIsApplied(env, home, dir, files, plan, |changes|);
    var t := ApplyChanges(env, State(files, map[]), changes).state;
    var s := ApplyPlan(env, files, plan).state;
    BackupWritten(env, files, plan);
    hide ApplyPlan, ApplyChanges, Lookup, IsScratch, Left, AgentName, LoadBackup;
    forall i | 0 <= i < |changes| ensures Recorded(env, files, changes[i], s) {
      assert Recorded(env, files, changes[i], t);
      FreshPath(home, dir, plan, i);
    }
  }

  /** The last step of an install. */
  lemma BackupWritten(env: Env, files: Files, plan: Plan)
    requires Faithful(env.codec) && ApplyPlan(env, files, plan).Going?
    ensures ApplyChanges(env, State(files, map[]), plan.changes).Going?
    ensures var t, s := ApplyChanges(env, State(files, map[]), plan.changes).state, ApplyPlan(env, files, plan).state;
      && s.originals == t.originals
      && LoadBackup(env.codec, s.files, plan.backupPath) == Some(s.originals)
      && forall p: Path :: !IsScratch(p) && p != plan.backupPath ==> Lookup(s.files, p) == Lookup(t.files, p)
  {
    hide ApplyChanges, IsScratch, ScratchOf, BackupOf, BackupJson;
    BackupRoundTrip(env.now, ApplyPlan(env, files, plan).state.originals);
    ScratchIsScratch(plan.backupPath);
  }

  /** Installing and then uninstalling leaves every file as it was, byte for byte and absent ones absent,
      except the backup itself and temporary names. */
  lemma UninstallRestores(env: Env, home: Dir, dir: Dir, files: Files, plan: Plan, after: Files, p: Path)
    requires Faithful(env.codec) && WellFormed(home, dir, plan)
    requires ApplyPlan(env, files, plan).Going? && !IsScratch(p) && p != plan.backupPath
    ensures var s := ApplyPlan(env, files, plan).state;
      Restored(home, s.originals, s.files, after) ==> Lookup(after, p) == Lookup(files, p)
  {
    hide ApplyPlan, Lookup, IsScratch, ConfigPath, LoadBackup, Left;
    var s := ApplyPlan(env, files, plan).state;
    if !Restored(home, s.originals, s.files, after) { return; }
    ApplyEffect(env, home, dir, files, plan);
    if Touches(plan.changes, p) {
      var i :| 0 <= i < |plan.changes| && plan.changes[i].path == p;
      assert Recorded(env, files, plan.changes[i], s);
      assert Restores(s.originals, plan.changes[i].agent);
    } else {
      forall a: AgentKind | Restores(s.originals, a) ensures p != ConfigPath(home, a) {
        assert Named(plan.changes, AgentName(a));
        var i :| 0 <= i < |plan.changes| && AgentName(plan.changes[i].agent) == AgentName(a);
        NamesApart(plan.changes[i].agent, a);
      }
    }
  }

  /** The same over the calls themselves: an install that succeeds can always be undone. */
  method InstallThenUninstall(disk: Disk, env: Env, home: Dir, ghost dir: Dir, plan: Plan)
    returns (installed: Outcome, undone: Outcome)
    requires Faithful(env.codec) && WellFormed(home, dir, plan)
    modifies disk
    ensures installed.Done? ==> undone.Done?
    ensures installed.Done? ==> forall p: Path :: !IsScratch(p) && p != plan.backupPath ==>
      Lookup(disk.files, p) == Lookup(old(disk.files), p)
  {
    hide ApplyPlan, Lookup, IsScratch, LoadBackup, Restored;
    ghost var before := disk.files;
    installed := disk.Apply(env, plan);
    if installed.Failed? { return installed, installed; }
    ApplyEffect(env, home, dir, before, plan);
    undone := disk.Uninstall(home, env.codec, plan.backupPath);
    forall p: Path | !IsScratch(p) && p != plan.backupPath ensures Lookup(disk.files, p) == Lookup(before, p) {
      UninstallRestores(env, home, dir, before, plan, disk.files, p);
    }
  }

  // ---- When an install fails ----

  predicate AcceptedIn(env: Env, files: Files, c: Change) {
    IsHook(c) ==> Acceptable(c.agent, Lookup(files, c.path), env.codec)
  }

  lemma {:induction false} GoesOnIff(env: Env, home: Dir, dir: Dir, files: Files, plan: Plan, n: nat)
    requires WellFormed(home, dir, plan) && n <= |plan.changes|
    ensures ApplyChanges(env, State(files, map[]), plan.changes[..n]).Going? <==>
      forall i :: 0 <= i < n ==> AcceptedIn(env, files, plan.changes[i])
  {
    hide ApplyChange, Acceptable, Lookup, WellFormed;
    if n > 0 {
      OneMore(plan.changes, n - 1);
      GoesOnIff(env, home, dir, files, plan, n - 1);
      var r := ApplyChanges(env, State(files, map[]), plan.changes[..n - 1]);
      if r.Going? {
        SameFileSeen(env, home, dir, files, plan, n - 1);
        ChangeGoesOnIff(env, r.state, plan.changes[n - 1]);
      }
    }
  }

  lemma ChangeGoesOnIff(env: Env, s: State, c: Change)
    ensures ApplyChange(env, s, c).Going? <==> AcceptedIn(env, s.files, c)
    ensures ApplyChange(env, s, c).Stopped? ==> ApplyChange(env, s, c).files == s.files
  {
    hide Acceptable, MergeHookInto, Written;
    MergeSucceedsIff(c.agent, Lookup(s.files, c.path), env.bin, env.codec);
  }

  lemma MergeSucceedsIff(agent: AgentKind, existing: Option<string>, bin: string, codec: Codec)
    ensures MergeHookInto(agent, existing, bin, codec).Body? <==> Acceptable(agent, existing, codec)
  {
  }

  /** A change finds its file as it was before the plan started. */
  lemma SameFileSeen(env: Env, home: Dir, dir: Dir, files: Files, plan: Plan, n: nat)
    requires WellFormed(home, dir, plan) && n < |plan.changes|
    requires ApplyChanges(env, State(files, map[]), plan.changes[..n]).Going?
    ensures Lookup(ApplyChanges(env, State(files, map[]), plan.changes[..n]).state.files, plan.changes[n].path) ==
      Lookup(files, plan.changes[n].path)
  {
    ApplyIsApplied(env, home, dir, files, plan, n);
    FreshPath(home, dir, plan, n);
  }

  /** An install succeeds exactly when every configuration it merges into is absent, blank, or a document
      of the expected shape. */
  lemma ApplySucceedsIff(env: Env, home: Dir, dir: Dir, files: Files, plan: Plan)
    requires WellFormed(home, dir, plan)
    ensures ApplyPlan(env, files, plan).Going? <==>
      forall i :: 0 <= i < |plan.changes| ==> AcceptedIn(env, files, plan.changes[i])
  {
    assert plan.changes[..|plan.changes|] == plan.changes;
    GoesOnIff(env, home, dir, files, plan, |plan.changes|);
  }

  /** Change `n` is the first that cannot be merged. */
  predicate FirstRefused(env: Env, files: Files, changes: seq<Change>, n: nat) {
    && n < |changes| && !AcceptedIn(env, files, changes[n])
    && forall i :: 0 <= i < n ==> AcceptedIn(env, files, changes[i])
  }

  /** An install that fails has rewritten every configuration before the refused one and written no
      backup, so nothing records what they held. */
  lemma FailedApplyKeepsNoBackup(env: Env, home: Dir, dir: Dir, files: Files, plan: Plan, n: nat)
    requires WellFormed(home, dir, plan) && FirstRefused(env, files, plan.changes, n)
    ensures ApplyPlan(env, files, plan).Stopped?
    ensures var f := ApplyPlan(env, files, plan).files;
      && Lookup(f, plan.backupPath) == Lookup(files, plan.backupPath)
      && (forall i :: 0 <= i < n ==>
            Lookup(f, plan.changes[i].path) == Left(env, plan.changes[i], Lookup(files, plan.changes[i].path)))
      && (forall i :: n <= i < |plan.changes| ==>
            Lookup(f, plan.changes[i].path) == Lookup(files, plan.changes[i].path))
  {
    var done := plan.changes[..n];
    RefusedStops(env, home, dir, files, plan, n);
    ApplyIsApplied(env, home, dir, files, plan, n);
    var s := ApplyChanges(env, State(files, map[]), done).state;
    BackupUntouched(home, dir, plan, n);
    hide ApplyPlan, ApplyChanges, AcceptedIn, Left, IsScratch, Lookup, Touches, WellFormed;
    forall i | 0 <= i < n
      ensures Lookup(s.files, plan.changes[i].path) == Left(env, done[i], Lookup(files, done[i].path))
    {
      assert Recorded(env, files, done[i], s);
    }
    forall i | n <= i < |plan.changes|
      ensures !Touches(done, plan.changes[i].path) && !IsScratch(plan.changes[i].path)
    {
      NotYetTouched(home, dir, plan, n, i);
    }
  }

  lemma NotYetTouched(home: Dir, dir: Dir, plan: Plan, n: nat, i: nat)
    requires WellFormed(home, dir, plan) && n <= i < |plan.changes|
    ensures !Touches(plan.changes[..n], plan.changes[i].path) && !IsScratch(plan.changes[i].path)
  {
    hide WellFormed, IsScratch;
    FreshPath(home, dir, plan, i);
    assert forall j :: 0 <= j < n ==> plan.changes[..n][j] == plan.changes[..i][j];
  }

  lemma RefusedStops(env: Env, home: Dir, dir: Dir, files: Files, plan: Plan, n: nat)
    requires WellFormed(home, dir, plan) && FirstRefused(env, files, plan.changes, n)
    ensures var r := ApplyChanges(env, State(files, map[]), plan.changes[..n]);
      r.Going? && ApplyPlan(env, files, plan).Stopped? && ApplyPlan(env, files, plan).files == r.state.files
  {
    hide AcceptedIn, ApplyChange;
    var start := State(files, map[]);
    GoesOnIff(env, home, dir, files, plan, n);
    GoesOnIff(env, home, dir, files, plan, n + 1);
    OneMore(plan.changes, n);
    ChangeGoesOnIff(env, ApplyChanges(env, start, plan.changes[..n]).state, plan.changes[n]);
    StoppedStays(env, start, plan.changes, n + 1);
  }

  lemma BackupUntouched(home: Dir, dir: Dir, plan: Plan, n: nat)
    requires WellFormed(home, dir, plan) && n <= |plan.changes|
    ensures !Touches(plan.changes[..n], plan.backupPath) && !IsScratch(plan.backupPath)
  {
    forall i | 0 <= i < n ensures plan.changes[..n][i].path != plan.backupPath {
      FreshPath(home, dir, plan, i);
    }
    var n := plan.backupPath[|plan.backupPath| - 1];
    assert n == BACKUP_NAME && n[|n| - 7..][0] == 'u';
  }

  // ---- Installing twice ----

  /** A second install changes no configuration. */
  lemma SecondApplyIsNoop(env: Env, home: Dir, dir: Dir, files: Files, plan: Plan)
    requires Faithful(env.codec) && WellFormed(home, dir, plan)
    requires ApplyPlan(env, files, plan).Going?
    ensures var s := ApplyPlan(env, files, plan).state;
      && ApplyPlan(env, s.files, plan).Going?
      && forall i :: 0 <= i < |plan.changes| ==>
           Recorded(env, s.files, plan.changes[i], ApplyPlan(env, s.files, plan).state)
           && Lookup(ApplyPlan(env, s.files, plan).state.files, plan.changes[i].path) ==
              Lookup(s.files, plan.changes[i].path)
  {
    var s := ApplyPlan(env, files, plan).state;
    ApplyEffect(env, home, dir, files, plan);
    ApplySucceedsIff(env, home, dir, files, plan);
    hide ApplyPlan, Lookup, IsScratch;
    forall i | 0 <= i < |plan.changes|
      ensures AcceptedIn(env, s.files, plan.changes[i])
      ensures var now := Lookup(s.files, plan.changes[i].path); Left(env, plan.changes[i], now) == now
    {
      assert Recorded(env, files, plan.changes[i], s);
      assert AcceptedIn(env, files, plan.changes[i]);
      LeftIsStable(env, plan.changes[i], files, s.files);
    }
    ApplySucceedsIff(env, home, dir, s.files, plan);
    ApplyEffect(env, home, dir, s.files, plan);
  }

  lemma LeftIsStable(env: Env, c: Change, files: Files, now: Files)
    requires Faithful(env.codec) && AcceptedIn(env, files, c)
    requires Lookup(now, c.path) == Left(env, c, Lookup(files, c.path))
    ensures AcceptedIn(env, now, c) && Left(env, c, Lookup(now, c.path)) == Lookup(now, c.path)
  {
    var original := Lookup(files, c.path);
    hide Lookup, Acceptable, MergeHookInto, Faithful;
    if IsHook(c) {
      MergeIdempotent(c.agent, original, env.bin, env.codec);
      MergeSucceedsIff(c.agent, Lookup(now, c.path), env.bin, env.codec);
    } else if c.action.WrapAiderConf? {
      AiderIdempotent(original, c.action.key, c.action.value);
    }
  }

  /** The file a change finds is one it leaves alone: the change writes nothing, or aider's key is set, or
      the hook is in a file printed the way the merge prints. */
  predicate LeavesAlone(env: Env, c: Change, existing: Option<string>) {
    if IsHook(c) then Settled(c.agent, existing, env.bin, env.codec)
    else if c.action.WrapAiderConf? then existing.Some? && HasKey(existing.value, c.action.key)
    else true
  }

  lemma UnchangedIff(env: Env, c: Change, files: Files)
    requires Faithful(env.codec) && AcceptedIn(env, files, c)
    ensures var existing := Lookup(files, c.path);
      Left(env, c, existing) == existing <==> LeavesAlone(env, c, existing)
  {
    var existing := Lookup(files, c.path);
    hide Lookup, Acceptable, MergeHookInto, Faithful, Settled, HasKey, AiderYaml;
    if IsHook(c) {
      MergeUnchangedIff(c.agent, existing, env.bin, env.codec);
    } else if c.action.WrapAiderConf? {
      AiderUnchangedIff(existing, c.action.key, c.action.value);
    }
  }

  /** After a second install the backup holds the hooked files: uninstalling then restores a configuration
      exactly when the first install found it in a state it leaves alone. */
  lemma SecondApplyForgetsIff(env: Env, home: Dir, dir: Dir, files: Files, plan: Plan, after: Files, i: nat)
    requires Faithful(env.codec) && WellFormed(home, dir, plan) && i < |plan.changes|
    requires ApplyPlan(env, files, plan).Going?
    ensures var s := ApplyPlan(env, files, plan).state;
      ApplyPlan(env, s.files, plan).Going? &&
      var t, c := ApplyPlan(env, s.files, plan).state, plan.changes[i];
      var original := Lookup(files, c.path);
      Restored(home, t.originals, t.files, after) ==>
        (Lookup(after, c.path) == original <==> LeavesAlone(env, c, original))
  {
    hide ApplyPlan, Lookup, IsScratch, Left, LeavesAlone, Restored, AcceptedIn;
    var c := plan.changes[i];
    var s := ApplyPlan(env, files, plan).state;
    ApplyEffect(env, home, dir, files, plan);
    assert Recorded(env, files, c, s);
    SecondApplyIsNoop(env, home, dir, files, plan);
    FreshPath(home, dir, plan, i);
    UninstallRestores(env, home, dir, s.files, plan, after, c.path);
    ApplySucceedsIff(env, home, dir, files, plan);
    assert AcceptedIn(env, files, plan.changes[i]);
    UnchangedIff(env, c, files);
  }

  /** A configuration that did not exist is never left unchanged: after two installs, uninstalling no
      longer removes it. */
  lemma TwoInstallsKeepCreatedFile(env: Env, home: Dir, dir: Dir, files: Files, plan: Plan, after: Files, i: nat)
    requires Faithful(env.codec) && WellFormed(home, dir, plan) && i < |plan.changes|
    requires ApplyPlan(env, files, plan).Going?
    requires Writes(plan.changes[i]) && plan.changes[i].path !in files
    ensures var s := ApplyPlan(env, files, plan).state;
      ApplyPlan(env, s.files, plan).Going? &&
      var t := ApplyPlan(env, s.files, plan).state;
      Restored(home, t.originals, t.files, after) ==> plan.changes[i].path in after
  {
    hide ApplyPlan, Restored, WellFormed;
    SecondApplyIsNoop(env, home, dir, files, plan);
    var c := plan.changes[i];
    ApplySucceedsIff(env, home, dir, files, plan);
    assert AcceptedIn(env, files, c);
    SecondApplyForgetsIff(env, home, dir, files, plan, after, i);
    if IsHook(c) { MergeSucceedsIff(c.agent, None, env.bin, env.codec); }
  }
}
