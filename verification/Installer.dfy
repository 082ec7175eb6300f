/** Installing the hooks into every agent's configuration file, and undoing it from the backup file. */
module Installer {
  import opened Text
  import opened Json
  import opened HookMerge

  // ---- Agents and paths ----

  type Dir = seq<string>
  type Path = p: seq<string> | p != [] witness [""]
  type Files = map<Path, string>

  const BACKUP_NAME := "onboard.backup.json"

  const ALL_AGENTS: seq<AgentKind> :=
    [ClaudeCode, Cursor, CodexCli, GeminiCli, CopilotCli, Windsurf, OpenCode, Aider]

  function AgentName(a: AgentKind): string {
    match a
    case ClaudeCode => "claude_code"
    case Cursor => "cursor"
    case CodexCli => "codex_cli"
    case GeminiCli => "gemini_cli"
    case CopilotCli => "copilot_cli"
    case Windsurf => "windsurf"
    case OpenCode => "opencode"
    case Aider => "aider"
  }

  function BelowHome(a: AgentKind): Path {
    match a
    case ClaudeCode => [".claude", "settings.json"]
    case Cursor => [".cursor", "hooks.json"]
    case CodexCli => [".codex", "hooks.json"]
    case GeminiCli => [".gemini", "hooks.json"]
    case CopilotCli => [".github-copilot", "hooks.json"]
    case Windsurf => [".codeium", "windsurf", "hooks.json"]
    case OpenCode => [".config", "opencode", "hooks.json"]
    case Aider => [".aider.conf.yml"]
  }

  function ConfigPath(home: Dir, a: AgentKind): Path { home + BelowHome(a) }

  /** `with_extension("nidtmp")` on the last component. */
  function ScratchName(name: string): string {
    match LastDot(name)
    case Some(k) => if k > 0 then name[..k] + ".nidtmp" else name + ".nidtmp"
    case None => name + ".nidtmp"
  }

  function ScratchOf(p: Path): Path { p[..|p| - 1] + [ScratchName(p[|p| - 1])] }

  /** Names the installer uses for temporary files. */
  predicate IsScratch(p: Path) { var n := p[|p| - 1]; |n| >= 7 && n[|n| - 7..] == ".nidtmp" }

  lemma ScratchIsScratch(p: Path)
    ensures IsScratch(ScratchOf(p))
  {
    var name := p[|p| - 1];
    var stem := match LastDot(name) case Some(k) => (if k > 0 then name[..k] else name) case None => name;
    assert ScratchName(name) == stem + ".nidtmp";
    assert (stem + ".nidtmp")[|stem|..] == ".nidtmp";
  }

  function FileName(a: AgentKind): string { BelowHome(a)[|BelowHome(a)| - 1] }

  lemma NameOfConfig(home: Dir, a: AgentKind)
    ensures var p := ConfigPath(home, a); p[|p| - 1] == FileName(a)
  {
  }

  /** Configuration files of different agents differ, and none of them is a temporary file or a backup. */
  lemma ConfigPathsApart(home: Dir, a: AgentKind, b: AgentKind, dir: Dir)
    ensures ConfigPath(home, a) == ConfigPath(home, b) ==> a == b
    ensures !IsScratch(ConfigPath(home, a))
    ensures ConfigPath(home, a) != dir + [BACKUP_NAME]
  {
    NameOfConfig(home, a);
    var p, q := ConfigPath(home, a), ConfigPath(home, b);
    if p == q {
      assert p[|home|..] == BelowHome(a) && q[|home|..] == BelowHome(b);
      assert BelowHome(a)[0] == BelowHome(b)[0];
    }
    var n := FileName(a);
    assert n[|n| - 1] == 'n' || n[|n| - 1] == 'l';
    assert |n| >= 7 ==> n[|n| - 7..][6] == n[|n| - 1];
    assert (dir + [BACKUP_NAME])[|dir + [BACKUP_NAME]| - 1] == BACKUP_NAME;
    assert |n| != |BACKUP_NAME|;
  }

  /** `AgentKind::all().iter().find(..)`. */
  function FindAgent(agents: seq<AgentKind>, name: string): Option<AgentKind> {
    if agents == [] then None
    else if AgentName(agents[0]) == name then Some(agents[0])
    else FindAgent(agents[1..], name)
  }

  lemma {:induction false} FindAgentSound(agents: seq<AgentKind>, name: string)
    ensures FindAgent(agents, name).Some? ==> AgentName(FindAgent(agents, name).value) == name
    ensures FindAgent(agents, name).None? ==> forall i :: 0 <= i < |agents| ==> AgentName(agents[i]) != name
  {
    if agents != [] { FindAgentSound(agents[1..], name); }
  }

  lemma NamesApart(a: AgentKind, b: AgentKind)
    requires AgentName(a) == AgentName(b)
    ensures a == b
  {
    var n := AgentName(a);
    assert n[0] == AgentName(b)[0] && n[1] == AgentName(b)[1] && |n| == |AgentName(b)|;
  }

  function PositionOf(a: AgentKind): (i: nat)
    ensures i < |ALL_AGENTS| && ALL_AGENTS[i] == a
  {
    match a
    case ClaudeCode => 0 case Cursor => 1 case CodexCli => 2 case GeminiCli => 3
    case CopilotCli => 4 case Windsurf => 5 case OpenCode => 6 case Aider => 7
  }

  /** Looking a backup key up finds exactly the agent it was written for. */
  lemma FindByName(a: AgentKind)
    ensures FindAgent(ALL_AGENTS, AgentName(a)) == Some(a)
  {
    FindAgentSound(ALL_AGENTS, AgentName(a));
    assert ALL_AGENTS[PositionOf(a)] == a;
    NamesApart(a, FindAgent(ALL_AGENTS, AgentName(a)).value);
  }

  // ---- The backup document ----

  type Originals = map<string, Option<string>>

  function OptJson(o: Option<string>): Json {
    match o case Some(s) => Str(s) case None => Null
  }

  function BackupJson(now: string, o: Originals): Json {
    Obj(map["schema" := Num("1"), "installed_at" := Num(now), "originals" := Obj(map n | n in o :: OptJson(o[n]))])
  }

  predicate IsOptJson(v: Json) { v.Str? || v.Null? }

  function JsonOpt(v: Json): Option<string> { if v.Str? then Some(v.text) else None }

  /** Reading the document back; numbers are not inspected. */
  function BackupOf(v: Json): Option<Originals> {
    match (GetKey(v, "schema"), GetKey(v, "installed_at"), GetKey(v, "originals"))
    case (Some(Num(_)), Some(Num(_)), Some(Obj(m))) =>
      if forall n | n in m :: IsOptJson(m[n]) then Some(map n | n in m :: JsonOpt(m[n])) else None
    case _ => None
  }

  /** The documents that read back, and what they read back as. */
  lemma BackupReads(v: Json)
    ensures BackupOf(v).Some? <==>
      && v.Obj? && "schema" in v.members && "installed_at" in v.members && "originals" in v.members
      && v.members["schema"].Num? && v.members["installed_at"].Num? && v.members["originals"].Obj?
      && forall n :: n in v.members["originals"].members ==>
           v.members["originals"].members[n].Str? || v.members["originals"].members[n].Null?
    ensures BackupOf(v).Some? ==>
      var o, m := BackupOf(v).value, v.members["originals"].members;
      && o.Keys == m.Keys
      && forall n :: n in o ==> o[n] == if m[n].Str? then Some(m[n].text) else None
  {
  }

  lemma BackupRoundTrip(now: string, o: Originals)
    ensures BackupOf(BackupJson(now, o)) == Some(o)
  {
    var m := map n | n in o :: OptJson(o[n]);
    assert (map n | n in m :: JsonOpt(m[n])) == o;
  }

  // ---- Plans ----

  datatype Action =
    | CreateHookConfig
    | MergeHookConfig
    | WrapAiderConf(key: string, value: string)
    | AlreadyInstalled
    | Skip

  datatype Change = Change(agent: AgentKind, path: Path, action: Action)

  datatype Plan = Plan(changes: seq<Change>, backupPath: Path)

  /** The parser and printer, nid's own path, and the clock reading. */
  datatype Env = Env(codec: Codec, bin: string, now: string)

  datatype Error = MissingFile | BadJson | Panic

  datatype Outcome = Done | Failed(error: Error)

  function Lookup(files: Files, p: Path): Option<string> { if p in files then Some(files[p]) else None }

  /** Write a temporary file, then rename it over the target. */
  function Written(files: Files, p: Path, body: string): Files { (files - {ScratchOf(p)})[p := body] }

  predicate IsHook(c: Change) { c.action.CreateHookConfig? || c.action.MergeHookConfig? }

  /** The content a change computes from the one it finds. */
  function Target(env: Env, c: Change, original: Option<string>): Merged {
    if IsHook(c) then MergeHookInto(c.agent, original, env.bin, env.codec)
    else if c.action.WrapAiderConf? then Body(AiderYaml(original, c.action.key, c.action.value))
    else Body(original.GetOr(""))
  }

  predicate Writes(c: Change) { IsHook(c) || c.action.WrapAiderConf? }

  /** Plans as `plan` builds them: each agent at most once, at its own path, and the backup under its name. */
  ghost predicate WellFormed(home: Dir, dir: Dir, plan: Plan) {
    && plan.backupPath == dir + [BACKUP_NAME]
    && (forall i :: 0 <= i < |plan.changes| ==> plan.changes[i].path == ConfigPath(home, plan.changes[i].agent))
    && (forall i, j :: 0 <= i < j < |plan.changes| ==> plan.changes[i].agent != plan.changes[j].agent)
  }

  datatype State = State(files: Files, originals: Originals)

  datatype Progress = Going(state: State) | Stopped(files: Files, error: Error)

  function ApplyChange(env: Env, s: State, c: Change): Progress {
    var original := Lookup(s.files, c.path);
    var originals := s.originals[AgentName(c.agent) := original];
    match Target(env, c, original)
    case ParseError => Stopped(s.files, BadJson)
    case Panicked => Stopped(s.files, Panic)
    case Body(body) =>
      Going(State(if Writes(c) then Written(s.files, c.path, body) else s.files, originals))
  }

  /** The loop over the plan, stopping at the first change that fails. */
  function ApplyChanges(env: Env, s: State, changes: seq<Change>): Progress {
    if changes == [] then Going(s)
    else
      match ApplyChanges(env, s, changes[..|changes| - 1])
      case Stopped(f, e) => Stopped(f, e)
      case Going(t) => ApplyChange(env, t, changes[|changes| - 1])
  }

  /** The loop, then the backup file. */
  function ApplyPlan(env: Env, files: Files, plan: Plan): Progress {
    match ApplyChanges(env, State(files, map[]), plan.changes)
    case Stopped(f, e) => Stopped(f, e)
    case Going(s) =>
      Going(s.(files := Written(s.files, plan.backupPath, env.codec.print_(BackupJson(env.now, s.originals)))))
  }

  /** The originals a backup file holds. */
  function LoadBackup(codec: Codec, files: Files, backupPath: Path): Option<Originals> {
    match Lookup(files, backupPath)
    case None => None
    case Some(body) =>
      match codec.parse(body)
      case None => None
      case Some(v) => BackupOf(v)
  }

  predicate Restores(o: Originals, a: AgentKind) { AgentName(a) in o }

  ghost predicate IsConfigOf(home: Dir, o: Originals, p: Path) {
    exists a: AgentKind :: Restores(o, a) && p == ConfigPath(home, a)
  }

  /** `after` is `before` with the file of every agent named in the backup put back or removed. */
  ghost predicate Restored(home: Dir, o: Originals, before: Files, after: Files) {
    && (forall a: AgentKind :: Restores(o, a) ==> Lookup(after, ConfigPath(home, a)) == o[AgentName(a)])
    && (forall p: Path :: !IsScratch(p) && !IsConfigOf(home, o, p) ==> Lookup(after, p) == Lookup(before, p))
  }

  // ---- The file system ----

  lemma StoppedStays(env: Env, s: State, changes: seq<Change>, n: nat)
    requires n <= |changes| && ApplyChanges(env, s, changes[..n]).Stopped?
    ensures ApplyChanges(env, s, changes) == ApplyChanges(env, s, changes[..n])
    decreases |changes| - n
  {
    if n == |changes| {
      assert changes[..n] == changes;
    } else {
      assert changes[..n + 1][..n] == changes[..n];
      StoppedStays(env, s, changes, n + 1);
    }
  }

  lemma NothingApplied(env: Env, s: State)
    ensures ApplyChanges(env, s, []) == Going(s)
  {
  }

  /** One round of the loop: the next change decides, and the first one that fails decides for good. */
  lemma LoopStep(env: Env, s: State, changes: seq<Change>, n: nat, t: State)
    requires n < |changes| && ApplyChanges(env, s, changes[..n]) == Going(t)
    ensures ApplyChanges(env, s, changes[..n + 1]) == ApplyChange(env, t, changes[n])
    ensures ApplyChange(env, t, changes[n]).Stopped? ==>
      ApplyChanges(env, s, changes) == ApplyChange(env, t, changes[n])
  {
    hide ApplyChange;
    assert changes[..n + 1][..n] == changes[..n];
    if ApplyChange(env, t, changes[n]).Stopped? { StoppedStays(env, s, changes, n + 1); }
  }

  /** One more backup entry dealt with. */
  lemma RestoreStep(home: Dir, o: Originals, name: string, original: Option<string>,
                    before: Files, cur: Files, next: Files)
    requires Restored(home, o, before, cur)
    requires match FindAgent(ALL_AGENTS, name)
      case None => next == cur
      case Some(a) =>
        var p := ConfigPath(home, a);
        next == match original case Some(body) => Written(cur, p, body) case None => cur - {p}
    ensures Restored(home, o[name := original], before, next)
  {
    var o' := o[name := original];
    FindAgentSound(ALL_AGENTS, name);
    forall a: AgentKind | Restores(o', a)
      ensures Lookup(next, ConfigPath(home, a)) == o'[AgentName(a)]
    {
      FindByName(a);
      ConfigPathsApart(home, a, a, []);
      if FindAgent(ALL_AGENTS, name).Some? {
        var b := FindAgent(ALL_AGENTS, name).value;
        ConfigPathsApart(home, a, b, []);
        ScratchIsScratch(ConfigPath(home, b));
      }
    }
    forall p: Path | !IsScratch(p) && !IsConfigOf(home, o', p)
      ensures Lookup(next, p) == Lookup(before, p)
    {
      assert forall a: AgentKind :: Restores(o, a) ==> Restores(o', a);
      if FindAgent(ALL_AGENTS, name).Some? {
        var b := FindAgent(ALL_AGENTS, name).value;
        assert Restores(o', b);
        ScratchIsScratch(ConfigPath(home, b));
      }
    }
  }

  class Disk {
    var files: Files

    constructor (files: Files)
      ensures this.files == files
    {
      this.files := files;
    }

    method AtomicWrite(p: Path, body: string)
      modifies this
      ensures files == Written(old(files), p, body)
    {
      var tmp := ScratchOf(p);
      files := files[tmp := body];
      if tmp != p {
        files := files[p := files[tmp]] - {tmp};
      }
    }

    /** Rewrite every configuration in the plan, then write the backup. */
    method Apply(env: Env, plan: Plan) returns (r: Outcome)
      modifies this
      ensures match ApplyPlan(env, old(files), plan)
        case Stopped(f, e) => r == Failed(e) && files == f
        case Going(s) => r == Done && files == s.files
    {
      hide ApplyChanges, AiderYaml, MergeHookInto, Written, AgentName, BackupJson, Lookup;
      ghost var start := State(files, map[]);
      var originals: Originals := map[];
      assert ApplyChanges(env, start, plan.changes[..0]) == Going(start) by { NothingApplied(env, start); }
      for n := 0 to |plan.changes|
        invariant ApplyChanges(env, start, plan.changes[..n]) == Going(State(files, originals))
      {
        var c := plan.changes[n];
        LoopStep(env, start, plan.changes, n, State(files, originals));
        var original := Lookup(files, c.path);
        originals := originals[AgentName(c.agent) := original];
        match c.action {
          case CreateHookConfig | MergeHookConfig =>
            match MergeHookInto(c.agent, original, env.bin, env.codec) {
              case ParseError => return Failed(BadJson);
              case Panicked => return Failed(Panic);
              case Body(body) => AtomicWrite(c.path, body);
            }
          case WrapAiderConf(key, value) =>
            var body := MergeAiderYaml(original, key, value);
            AtomicWrite(c.path, body);
          case AlreadyInstalled =>
          case Skip =>
        }
      }
      assert plan.changes[..|plan.changes|] == plan.changes;
      AtomicWrite(plan.backupPath, env.codec.print_(BackupJson(env.now, originals)));
      r := Done;
    }

    /** Put back what the backup holds, agent by agent, in whatever order it lists them. */
    method Uninstall(home: Dir, codec: Codec, backupPath: Path) returns (r: Outcome)
      modifies this
      ensures r.Done? <==> LoadBackup(codec, old(files), backupPath).Some?
      ensures r.Failed? ==> files == old(files)
      ensures r.Done? ==> Restored(home, LoadBackup(codec, old(files), backupPath).value, old(files), files)
    {
      if backupPath !in files { return Failed(MissingFile); }
      var doc := codec.parse(files[backupPath]);
      if doc.None? { return Failed(BadJson); }
      var loaded := BackupOf(doc.value);
      if loaded.None? { return Failed(BadJson); }
      var originals := loaded.value;
      ghost var before := files;
      ghost var put: Originals := map[];
      var rest := originals.Keys;
      while rest != {}
        invariant rest <= originals.Keys
        invariant put == map n | n in originals && n !in rest :: originals[n]
        invariant Restored(home, put, before, files)
        decreases rest
      {
        var name :| name in rest;
        ghost var cur := files;
        var kind := FindAgent(ALL_AGENTS, name);
        if kind.Some? {
          var path := ConfigPath(home, kind.value);
          match originals[name] {
            case Some(body) => AtomicWrite(path, body);
            case None => files := files - {path};
          }
        }
        RestoreStep(home, put, name, originals[name], before, cur, files);
        put := put[name := originals[name]];
        rest := rest - {name};
      }
      assert put == originals;
      r := Done;
    }
  }

  // ---- Applying a plan ----

  /** What a change leaves in its file. */
  function Left(env: Env, c: Change, original: Option<string>): Option<string> {
    var m := Target(env, c, original);
    if Writes(c) && m.Body? then Some(m.text) else original
  }

  ghost predicate Touches(changes: seq<Change>, p: Path) {
    exists i | 0 <= i < |changes| :: changes[i].path == p
  }

  ghost predicate Named(changes: seq<Change>, name: string) {
    exists i | 0 <= i < |changes| :: AgentName(changes[i].agent) == name
  }

  /** The state after these changes: every file touched holds what its change leaves, its former content
      is recorded under its agent, and no other file differs. */
  ghost predicate Applied(env: Env, files: Files, changes: seq<Change>, s: State) {
    && (forall i :: 0 <= i < |changes| ==> Recorded(env, files, changes[i], s))
    && (forall name :: name in s.originals ==> Named(changes, name))
    && (forall p: Path :: !IsScratch(p) && !Touches(changes, p) ==> Lookup(s.files, p) == Lookup(files, p))
  }

  ghost predicate Recorded(env: Env, files: Files, c: Change, s: State) {
    && Lookup(s.files, c.path) == Left(env, c, Lookup(files, c.path))
    && AgentName(c.agent) in s.originals
    && s.originals[AgentName(c.agent)] == Lookup(files, c.path)
  }

  lemma OneMore(changes: seq<Change>, n: nat)
    requires n < |changes|
    ensures changes[..n + 1] == changes[..n] + [changes[n]] && changes[..n + 1][..n] == changes[..n]
  {
  }

  /** What one change does to the files and the record. */
  lemma ChangeEffect(env: Env, s: State, c: Change)
    requires !IsScratch(c.path) && ApplyChange(env, s, c).Going?
    ensures var t, original := ApplyChange(env, s, c).state, Lookup(s.files, c.path);
      && t.originals == s.originals[AgentName(c.agent) := original]
      && Lookup(t.files, c.path) == Left(env, c, original)
      && forall p: Path :: !IsScratch(p) && p != c.path ==> Lookup(t.files, p) == Lookup(s.files, p)
  {
    hide Target, IsScratch, ScratchOf;
    ScratchIsScratch(c.path);
  }

  lemma FreshPath(home: Dir, dir: Dir, plan: Plan, n: nat)
    requires WellFormed(home, dir, plan) && n < |plan.changes|
    ensures !IsScratch(plan.changes[n].path) && plan.changes[n].path != plan.backupPath
    ensures !Touches(plan.changes[..n], plan.changes[n].path)
    ensures forall i :: 0 <= i < n ==> AgentName(plan.changes[i].agent) != AgentName(plan.changes[n].agent)
  {
    hide ConfigPath, IsScratch, AgentName;
    var c := plan.changes[n];
    ConfigPathsApart(home, c.agent, c.agent, dir);
    forall i | 0 <= i < n
      ensures plan.changes[i].path != c.path && AgentName(plan.changes[i].agent) != AgentName(c.agent)
    {
      ConfigPathsApart(home, plan.changes[i].agent, c.agent, dir);
      if AgentName(plan.changes[i].agent) == AgentName(c.agent) { NamesApart(plan.changes[i].agent, c.agent); }
    }
  }

  lemma AppliedStep(env: Env, files: Files, done: seq<Change>, c: Change, s: State, t: State)
    requires Applied(env, files, done, s) && !IsScratch(c.path) && !Touches(done, c.path)
    requires forall i :: 0 <= i < |done| ==> AgentName(done[i].agent) != AgentName(c.agent)
    requires t.originals == s.originals[AgentName(c.agent) := Lookup(s.files, c.path)]
    requires Lookup(t.files, c.path) == Left(env, c, Lookup(s.files, c.path))
    requires forall p: Path :: !IsScratch(p) && p != c.path ==> Lookup(t.files, p) == Lookup(s.files, p)
    requires forall i :: 0 <= i < |done| ==> !IsScratch(done[i].path)
    ensures Applied(env, files, done + [c], t)
  {
    hide Left, IsScratch, AgentName, Lookup;
    var more := done + [c];
    assert more[|done|] == c;
    forall i | 0 <= i < |more| ensures Recorded(env, files, more[i], t) {
      if i < |done| { assert Recorded(env, files, done[i], s); }
    }
    forall name | name in t.originals ensures Named(more, name) {
      if name in s.originals {
        var i :| 0 <= i < |done| && AgentName(done[i].agent) == name;
        assert more[i] == done[i];
      }
    }
    forall p: Path | !IsScratch(p) && !Touches(more, p) ensures Lookup(t.files, p) == Lookup(files, p) {
      assert forall i :: 0 <= i < |done| ==> done[i] == more[i];
    }
  }

  lemma {:induction false} ApplyIsApplied(env: Env, home: Dir, dir: Dir, files: Files, plan: Plan, n: nat)
    requires WellFormed(home, dir, plan) && n <= |plan.changes|
    ensures var r := ApplyChanges(env, State(files, map[]), plan.changes[..n]);
      r.Going? ==> Applied(env, files, plan.changes[..n], r.state)
  {
    if n > 0 {
      OneMore(plan.changes, n - 1);
      ApplyIsApplied(env, home, dir, files, plan, n - 1);
      var r := ApplyChanges(env, State(files, map[]), plan.changes[..n - 1]);
      FreshPath(home, dir, plan, n - 1);
      forall i | 0 <= i < n - 1 ensures !IsScratch(plan.changes[i].path) { FreshPath(home, dir, plan, i); }
      var c := plan.changes[n - 1];
      if r.Going? && ApplyChange(env, r.state, c).Going? {
        ChangeEffect(env, r.state, c);
        hide ApplyChange, Applied, IsScratch, Left;
        AppliedStep(env, files, plan.changes[..n - 1], c, r.state, ApplyChange(env, r.state, c).state);
      }
    }
  }
}
