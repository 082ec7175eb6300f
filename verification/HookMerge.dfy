/** Merging nid's hook into one agent's configuration: a JSON document, or aider's YAML file. */
module HookMerge {
  import opened Text
  import opened Json

  datatype AgentKind =
    | ClaudeCode | Cursor | CodexCli | GeminiCli | CopilotCli | Windsurf | OpenCode | Aider

  /** A JSON parser and printer; only their round trip matters. */
  datatype Codec = Codec(parse: string -> Option<Json>, print_: Json -> string)

  ghost predicate Faithful(codec: Codec) {
    && (forall v: Json :: codec.parse(codec.print_(v)) == Some(v))
    && (forall s: string :: IsBlank(s) ==> codec.parse(s) == None)
  }

  predicate OccursAt(s: string, sub: string, k: nat) { k <= |s| && sub <= s[k..] }

  predicate Contains(s: string, sub: string) { exists k | 0 <= k <= |s| :: OccursAt(s, sub, k) }

  // ---- JSON hooks ----

  /** The member of "hooks" that holds the agent's entries. */
  function HookKey(agent: AgentKind): string
    requires agent != Aider
  {
    match agent
    case ClaudeCode => "PreToolUse"
    case Cursor => "beforeShellExecution"
    case CodexCli => "PreToolUse"
    case GeminiCli => "BeforeTool"
    case CopilotCli => "PreToolUse"
    case Windsurf => "preCascade"
    case OpenCode => "before_tool_call"
  }

  function Command(agent: AgentKind, bin: string): string
    requires agent != Aider
  {
    bin + (" __hook " + if agent == ClaudeCode then "claude_code" else HookKey(agent))
  }

  function Entry(agent: AgentKind, bin: string): Json
    requires agent != Aider
  {
    if agent == ClaudeCode then
      Obj(map["matcher" := Str("Bash"),
              "hooks" := Arr([Obj(map["type" := Str("command"), "command" := Str(Command(agent, bin))])])])
    else
      Obj(map["match" := Obj(map["tool" := Str("bash")]), "run" := Str(Command(agent, bin))])
  }

  predicate Runs(v: Json, member: string, bin: string) {
    match GetKey(v, member)
    case Some(Str(s)) => Contains(s, bin)
    case _ => false
  }

  /** The entry already runs the binary. */
  predicate Mentions(agent: AgentKind, entry: Json, bin: string) {
    if agent == ClaudeCode then
      match GetKey(entry, "hooks")
      case Some(Arr(items)) => exists i | 0 <= i < |items| :: Runs(items[i], "command", bin)
      case _ => false
    else Runs(entry, "run", bin)
  }

  predicate Installed(agent: AgentKind, entries: seq<Json>, bin: string) {
    exists i | 0 <= i < |entries| :: Mentions(agent, entries[i], bin)
  }

  lemma ContainsIff(s: string, sub: string)
    ensures Contains(s, sub) <==> exists a, b :: s == a + (sub + b)
  {
    if Contains(s, sub) {
      var k :| 0 <= k <= |s| && OccursAt(s, sub, k);
      assert s[k..] == sub + s[k..][|sub|..];
      assert s == s[..k] + (sub + s[k..][|sub|..]);
    }
    if a, b :| s == a + (sub + b) {
      assert s[|a|..] == sub + b;
      assert OccursAt(s, sub, |a|);
    }
  }

  /** Where a command of an entry stands. */
  ghost predicate HasCommand(agent: AgentKind, entry: Json, command: string) {
    if agent == ClaudeCode then
      exists j :: Resolve(entry, [Key("hooks"), Index(j), Key("command")]) == Some(Str(command))
    else Resolve(entry, [Key("run")]) == Some(Str(command))
  }

  lemma RunsIff(v: Json, member: string, bin: string)
    ensures Runs(v, member, bin) <==> exists a, b :: GetKey(v, member) == Some(Str(a + (bin + b)))
  {
    match GetKey(v, member)
    case Some(Str(s)) =>
      ContainsIff(s, bin);
      assert forall a, b :: s == a + (bin + b) ==> GetKey(v, member) == Some(Str(a + (bin + b)));
    case _ =>
  }

  /** An entry counts as installed exactly when a command of it contains the binary's path. */
  lemma MentionsIff(agent: AgentKind, entry: Json, bin: string)
    ensures Mentions(agent, entry, bin) <==> exists a, b :: HasCommand(agent, entry, a + (bin + b))
  {
    hide Runs, Resolve;
    if agent != ClaudeCode {
      RunsIff(entry, "run", bin);
      ResolveOne(entry, Key("run"));
    } else {
      if Mentions(agent, entry, bin) {
        var items := GetKey(entry, "hooks").value.items;
        var i: nat :| i < |items| && Runs(items[i], "command", bin);
        RunsIff(items[i], "command", bin);
        var a, b :| GetKey(items[i], "command") == Some(Str(a + (bin + b)));
        ResolveHook(entry, i);
        assert HasCommand(agent, entry, a + (bin + b));
      }
      if a, b :| HasCommand(agent, entry, a + (bin + b)) {
        var j: nat :| Resolve(entry, [Key("hooks"), Index(j), Key("command")]) == Some(Str(a + (bin + b)));
        ResolveHook(entry, j);
        RunsIff(GetKey(entry, "hooks").value.items[j], "command", bin);
      }
    }
  }

  function CommandAt(entry: Json, j: nat): Option<Json> {
    match GetKey(entry, "hooks")
    case Some(Arr(items)) => if j < |items| then GetKey(items[j], "command") else None
    case _ => None
  }

  lemma ResolveHook(entry: Json, j: nat)
    ensures Resolve(entry, [Key("hooks"), Index(j), Key("command")]) == CommandAt(entry, j)
  {
    assert [Key("hooks"), Index(j), Key("command")][1..] == [Index(j), Key("command")];
    assert [Index(j), Key("command")][1..] == [Key("command")];
    var hooks := GetKey(entry, "hooks");
    if hooks.Some? {
      var item := GetIndex(hooks.value, j);
      if item.Some? { ResolveOne(item.value, Key("command")); }
    }
  }

  /** The shape the merge insists on: it panics on any other document. */
  predicate WellShaped(doc: Json) {
    doc.Obj? && ("hooks" in doc.members ==> doc.members["hooks"].Obj?)
  }

  /** nid's entry goes last, unless an entry already runs the binary. */
  function WithEntry(agent: AgentKind, entries: seq<Json>, bin: string): seq<Json>
    requires agent != Aider
  {
    if Installed(agent, entries, bin) then entries else entries + [Entry(agent, bin)]
  }

  /** `inject_claude_code`, `inject_simple` and `inject_pretool`. */
  function Inject(agent: AgentKind, doc: Json, bin: string): Json
    requires agent != Aider && WellShaped(doc)
  {
    var key := HookKey(agent);
    var hooks := if "hooks" in doc.members then doc.members["hooks"].members else map[];
    var list := if key in hooks then hooks[key] else Arr([]);
    var merged := if list.Arr? then Arr(WithEntry(agent, list.items, bin)) else list;
    Obj(doc.members["hooks" := Obj(hooks[key := merged])])
  }

  function HookPath(agent: AgentKind): seq<Seg>
    requires agent != Aider
  {
    [Key("hooks"), Key(HookKey(agent))]
  }

  /** The agent's list of entries; an absent one is empty, one that is not an array is none. */
  function Entries(agent: AgentKind, doc: Json): Option<seq<Json>>
    requires agent != Aider
  {
    match Resolve(doc, HookPath(agent))
    case None => Some([])
    case Some(Arr(items)) => Some(items)
    case Some(_) => None
  }

  lemma ContainsItself(bin: string, after: string)
    ensures Contains(bin + after, bin)
  {
    assert OccursAt(bin + after, bin, 0);
  }

  lemma EntryMentions(agent: AgentKind, bin: string)
    requires agent != Aider
    ensures Mentions(agent, Entry(agent, bin), bin)
  {
    ContainsItself(bin, " __hook " + if agent == ClaudeCode then "claude_code" else HookKey(agent));
    if agent == ClaudeCode {
      var hook := Obj(map["type" := Str("command"), "command" := Str(Command(agent, bin))]);
      assert Runs(hook, "command", bin);
      assert GetKey(Entry(agent, bin), "hooks") == Some(Arr([hook])) && [hook][0] == hook;
    }
  }

  lemma ResolveTwo(doc: Json, a: string, b: string)
    ensures Resolve(doc, [Key(a), Key(b)]) ==
      match GetKey(doc, a) case None => None case Some(v) => GetKey(v, b)
  {
    assert [Key(a), Key(b)][1..] == [Key(b)] && [Key(b)][1..] == [];
    match GetKey(doc, a)
    case None =>
    case Some(v) => assert Resolve(v, [Key(b)]) == GetKey(v, b);
  }

  lemma {:induction false} ResolveAppend(doc: Json, p: seq<Seg>, q: seq<Seg>)
    ensures Resolve(doc, p + q) == match Resolve(doc, p) case None => None case Some(v) => Resolve(v, q)
    decreases |p|
  {
    if p == [] {
      assert p + q == q;
    } else {
      assert (p + q)[1..] == p[1..] + q;
      var c := Child(doc, p[0]);
      if c.Some? { ResolveAppend(c.value, p[1..], q); }
    }
  }

  /** What the merge does to the entries: existing ones stay in front, at most nid's own is added, and
      afterwards the list runs the binary. */
  lemma InjectEntries(agent: AgentKind, doc: Json, bin: string)
    requires agent != Aider && WellShaped(doc)
    ensures var r := Inject(agent, doc, bin);
      && WellShaped(r)
      && (Entries(agent, doc) == None ==> Resolve(r, HookPath(agent)) == Resolve(doc, HookPath(agent)))
      && (Entries(agent, doc).Some? ==>
            Entries(agent, r) == Some(WithEntry(agent, Entries(agent, doc).value, bin)))
      && (Entries(agent, r).Some? ==> Installed(agent, Entries(agent, r).value, bin))
  {
    hide Installed, Entry, HookKey;
    var r := Inject(agent, doc, bin);
    ResolveTwo(doc, "hooks", HookKey(agent));
    ResolveTwo(r, "hooks", HookKey(agent));
    if Entries(agent, doc).Some? { AddedIsInstalled(agent, Entries(agent, doc).value, bin); }
  }

  lemma AddedIsInstalled(agent: AgentKind, entries: seq<Json>, bin: string)
    requires agent != Aider
    ensures Installed(agent, entries + [Entry(agent, bin)], bin)
  {
    hide Mentions;
    EntryMentions(agent, bin);
    assert (entries + [Entry(agent, bin)])[|entries|] == Entry(agent, bin);
  }

  /** The entry the merge adds, path by path: it stands last, it is for the shell tool, and it runs the binary
      with the hook's name. */
  lemma AddedEntry(agent: AgentKind, doc: Json, bin: string)
    requires agent != Aider && WellShaped(doc)
    requires Entries(agent, doc).Some? && !Installed(agent, Entries(agent, doc).value, bin)
    ensures var r, n := Inject(agent, doc, bin), |Entries(agent, doc).value|;
      Resolve(r, HookPath(agent) + [Index(n)]) == Some(Entry(agent, bin))
    ensures var e := Entry(agent, bin);
      if agent == ClaudeCode then
        && Resolve(e, [Key("matcher")]) == Some(Str("Bash"))
        && Resolve(e, [Key("hooks"), Index(0), Key("type")]) == Some(Str("command"))
        && Resolve(e, [Key("hooks"), Index(0), Key("command")]) == Some(Str(bin + " __hook claude_code"))
      else
        && Resolve(e, [Key("match"), Key("tool")]) == Some(Str("bash"))
        && Resolve(e, [Key("run")]) == Some(Str(bin + (" __hook " + HookKey(agent))))
  {
    InjectEntries(agent, doc, bin);
    EntryPaths(agent, bin);
    hide Inject, Entry, Installed, HookKey;
    var r, n := Inject(agent, doc, bin), |Entries(agent, doc).value|;
    ResolveAppend(r, HookPath(agent), [Index(n)]);
    var list := Resolve(r, HookPath(agent)).value;
    assert Resolve(list, [Index(n)]) == GetIndex(list, n) by { assert [Index(n)][1..] == []; }
  }

  /** Where each agent finds the command. */
  lemma CommandsPlaced(agent: AgentKind, doc: Json, bin: string)
    requires agent != Aider && WellShaped(doc)
    requires Entries(agent, doc).Some? && !Installed(agent, Entries(agent, doc).value, bin)
    ensures var r, n := Inject(agent, doc, bin), Index(|Entries(agent, doc).value|);
      match agent
      case ClaudeCode =>
        Resolve(r, [Key("hooks"), Key("PreToolUse"), n, Key("hooks"), Index(0), Key("command")])
          == Some(Str(bin + " __hook claude_code"))
      case Cursor =>
        Resolve(r, [Key("hooks"), Key("beforeShellExecution"), n, Key("run")])
          == Some(Str(bin + (" __hook " + "beforeShellExecution")))
      case GeminiCli =>
        Resolve(r, [Key("hooks"), Key("BeforeTool"), n, Key("run")]) == Some(Str(bin + (" __hook " + "BeforeTool")))
      case Windsurf =>
        Resolve(r, [Key("hooks"), Key("preCascade"), n, Key("run")]) == Some(Str(bin + (" __hook " + "preCascade")))
      case OpenCode =>
        Resolve(r, [Key("hooks"), Key("before_tool_call"), n, Key("run")])
          == Some(Str(bin + (" __hook " + "before_tool_call")))
      case _ =>
        Resolve(r, [Key("hooks"), Key("PreToolUse"), n, Key("run")]) == Some(Str(bin + (" __hook " + "PreToolUse")))
  {
    AddedEntry(agent, doc, bin);
    var r, p := Inject(agent, doc, bin), HookPath(agent) + [Index(|Entries(agent, doc).value|)];
    ResolveAppend(r, p, [Key("run")]);
    ResolveAppend(r, p, [Key("hooks"), Index(0), Key("command")]);
    var k := HookKey(agent);
    hide Inject, Entry, Installed, Resolve, Entries;
    assert p + [Key("run")] == [Key("hooks"), Key(k), p[2], Key("run")];
    assert p + [Key("hooks"), Index(0), Key("command")]
        == [Key("hooks"), Key(k), p[2], Key("hooks"), Index(0), Key("command")];
  }

  lemma EntryPaths(agent: AgentKind, bin: string)
    requires agent != Aider
    ensures var e := Entry(agent, bin);
      if agent == ClaudeCode then
        && Resolve(e, [Key("matcher")]) == Some(Str("Bash"))
        && Resolve(e, [Key("hooks"), Index(0), Key("type")]) == Some(Str("command"))
        && Resolve(e, [Key("hooks"), Index(0), Key("command")]) == Some(Str(bin + " __hook claude_code"))
      else
        && Resolve(e, [Key("match"), Key("tool")]) == Some(Str("bash"))
        && Resolve(e, [Key("run")]) == Some(Str(bin + (" __hook " + HookKey(agent))))
  {
    var e := Entry(agent, bin);
    hide Resolve;
    if agent == ClaudeCode {
      assert " __hook " + "claude_code" == " __hook claude_code";
      var hooks := e.members["hooks"];
      assert GetIndex(hooks, 0) == Some(hooks.items[0]);
      ResolveOne(e, Key("matcher"));
      ResolveThree(e, Key("hooks"), Index(0), Key("type"));
      ResolveThree(e, Key("hooks"), Index(0), Key("command"));
    } else {
      ResolveTwo(e, "match", "tool");
      ResolveOne(e, Key("run"));
    }
  }

  lemma ResolveOne(v: Json, s: Seg)
    ensures Resolve(v, [s]) == Child(v, s)
  {
    assert [s][1..] == [];
  }

  lemma ResolveThree(v: Json, a: Seg, b: Seg, c: Seg)
    requires Child(v, a).Some? && Child(Child(v, a).value, b).Some?
    ensures Resolve(v, [a, b, c]) == Child(Child(Child(v, a).value, b).value, c)
  {
    ResolveOne(Child(Child(v, a).value, b).value, c);
    assert [a, b, c][1..] == [b, c] && [b, c][1..] == [c];
  }

  /** Merging twice is merging once. */
  lemma InjectIdempotent(agent: AgentKind, doc: Json, bin: string)
    requires agent != Aider && WellShaped(doc)
    ensures WellShaped(Inject(agent, doc, bin))
    ensures Inject(agent, Inject(agent, doc, bin), bin) == Inject(agent, doc, bin)
  {
    hide Installed, Entry, HookKey;
    var key := HookKey(agent);
    var r := Inject(agent, doc, bin);
    var hooks := r.members["hooks"].members;
    if hooks[key].Arr? {
      var before := if "hooks" in doc.members && key in doc.members["hooks"].members
                    then doc.members["hooks"].members[key] else Arr([]);
      AddedIsInstalled(agent, before.items, bin);
    }
    assert hooks[key := hooks[key]] == hooks;
    assert r.members["hooks" := Obj(hooks)] == r.members;
  }

  /** Every path that diverges from the agent's list denotes what it did. */
  lemma InjectFrame(agent: AgentKind, doc: Json, bin: string, q: seq<Seg>)
    requires agent != Aider && WellShaped(doc)
    requires !Comparable(HookPath(agent), q)
    ensures Resolve(Inject(agent, doc, bin), q) == Resolve(doc, q)
  {
    hide Installed, Entry, HookKey;
    var key := HookKey(agent);
    var r := Inject(agent, doc, bin);
    assert q != [] && (q[0] == Key("hooks") ==> |q| > 1 && q[1] != Key(key));
    assert q[0] == Key("hooks") ==> q[1..][0] == q[1];
    assert q[0] != Key("hooks") ==> Child(r, q[0]) == Child(doc, q[0]);
  }

  /** Every path into an entry that was there denotes what it did. */
  lemma InjectKeepsEntries(agent: AgentKind, doc: Json, bin: string, q: seq<Seg>)
    requires agent != Aider && WellShaped(doc)
    requires q != [] && Resolve(doc, HookPath(agent) + q).Some?
    ensures Resolve(Inject(agent, doc, bin), HookPath(agent) + q) == Resolve(doc, HookPath(agent) + q)
  {
    ResolveAppend(doc, HookPath(agent), q);
    ResolveAppend(Inject(agent, doc, bin), HookPath(agent), q);
    InjectEntries(agent, doc, bin);
    hide Inject, Installed, Entry;
  }

  // ---- The merged file ----

  datatype Merged = Body(text: string) | ParseError | Panicked

  /** The document the merge starts from. */
  function Document(existing: Option<string>, codec: Codec): Option<Json> {
    if existing.Some? && !IsBlank(existing.value) then codec.parse(existing.value) else Some(Obj(map[]))
  }

  /** `merge_hook_into`. */
  function MergeHookInto(agent: AgentKind, existing: Option<string>, bin: string, codec: Codec): Merged {
    match Document(existing, codec)
    case None => ParseError
    case Some(doc) =>
      if agent == Aider then Body(codec.print_(doc))
      else if !WellShaped(doc) then Panicked
      else Body(codec.print_(Inject(agent, doc, bin)))
  }

  /** A configuration the merge accepts: absent, blank, or a document of the expected shape. */
  predicate Acceptable(agent: AgentKind, existing: Option<string>, codec: Codec) {
    match Document(existing, codec)
    case None => false
    case Some(doc) => agent == Aider || WellShaped(doc)
  }

  /** What a merged file says: the document it was, an absent or blank one counting as empty, with the hook
      merged in, except for aider. */
  lemma MergeMeaning(agent: AgentKind, existing: Option<string>, bin: string, codec: Codec, doc: Json)
    requires Faithful(codec)
    requires if existing.None? || (forall c :: c in existing.value ==> IsWhitespace(c))
             then doc == Obj(map[]) else codec.parse(existing.value) == Some(doc)
    ensures var m := MergeHookInto(agent, existing, bin, codec);
      && (m.Body? <==> agent == Aider || WellShaped(doc))
      && (m.Body? ==> codec.parse(m.text) == Some(if agent == Aider then doc else Inject(agent, doc, bin)))
  {
    hide Inject, WellShaped;
    assert Document(existing, codec) == Some(doc);
  }

  /** A merged file is left as it is by a further merge. */
  lemma MergeIdempotent(agent: AgentKind, existing: Option<string>, bin: string, codec: Codec)
    requires Faithful(codec) && Acceptable(agent, existing, codec)
    ensures var m := MergeHookInto(agent, existing, bin, codec);
      m.Body? && MergeHookInto(agent, Some(m.text), bin, codec) == m
  {
    var doc := Document(existing, codec).value;
    var merged := if agent == Aider then doc else Inject(agent, doc, bin);
    assert codec.parse(codec.print_(merged)) == Some(merged);
    if agent != Aider { InjectIdempotent(agent, doc, bin); }
  }

  /** The document already holds what the merge would add: the hook list is there, and if it is an array
      some entry runs the binary. */
  predicate HasHook(agent: AgentKind, doc: Json, bin: string) {
    agent == Aider ||
    match Resolve(doc, HookPath(agent))
    case None => false
    case Some(Arr(items)) => Installed(agent, items, bin)
    case Some(_) => true
  }

  lemma InjectUnchangedIff(agent: AgentKind, doc: Json, bin: string)
    requires agent != Aider && WellShaped(doc)
    ensures Inject(agent, doc, bin) == doc <==> HasHook(agent, doc, bin)
  {
    hide Installed, Entry, HookKey;
    var key, r := HookKey(agent), Inject(agent, doc, bin);
    ResolveTwo(doc, "hooks", key);
    ResolveTwo(r, "hooks", key);
    if HasHook(agent, doc, bin) {
      var hooks := doc.members["hooks"].members;
      assert hooks[key := hooks[key]] == hooks;
      assert doc.members["hooks" := Obj(hooks)] == doc.members;
    } else {
      InjectEntries(agent, doc, bin);
      hide Inject, WellShaped;
      var es := Entries(agent, doc).value;
      NoneInstalled(agent, bin);
      assert |WithEntry(agent, es, bin)| == |es| + 1;
    }
  }

  lemma NoneInstalled(agent: AgentKind, bin: string)
    ensures !Installed(agent, [], bin)
  {
  }

  /** A file the merge leaves as it is: not blank, printed the way the merge prints, and hooked already. */
  predicate Settled(agent: AgentKind, existing: Option<string>, bin: string, codec: Codec) {
    existing.Some? && !IsBlank(existing.value) &&
    match codec.parse(existing.value)
    case None => false
    case Some(doc) => existing.value == codec.print_(doc) && HasHook(agent, doc, bin)
  }

  /** Merging leaves a file byte for byte unchanged exactly when it is settled. */
  lemma MergeUnchangedIff(agent: AgentKind, existing: Option<string>, bin: string, codec: Codec)
    requires Faithful(codec) && Acceptable(agent, existing, codec)
    ensures var m := MergeHookInto(agent, existing, bin, codec);
      m.Body? && (Some(m.text) == existing <==> Settled(agent, existing, bin, codec))
  {
    hide IsBlank, HasHook, Inject, WellShaped;
    var doc := Document(existing, codec).value;
    var merged := if agent == Aider then doc else Inject(agent, doc, bin);
    assert codec.parse(codec.print_(merged)) == Some(merged);
    assert HasHook(agent, doc, bin) <==> merged == doc by {
      if agent == Aider { AiderHasHook(doc, bin); } else { InjectUnchangedIff(agent, doc, bin); }
    }
  }

  lemma AiderHasHook(doc: Json, bin: string)
    ensures HasHook(Aider, doc, bin)
  {
  }

  // ---- aider's YAML ----

  function Setting(key: string, value: string): string { key + (": \"" + (value + "\"")) }

  /** The test the program makes on the raw text. */
  predicate HasKey(text: string, key: string) {
    Contains(text, [NEWLINE] + (key + ":")) || key + ":" <= text
  }

  /** The text with the setting appended as a line of its own. */
  function WithLine(text: string, line: string): string {
    if text != "" && text[|text| - 1] != NEWLINE then text + ([NEWLINE] + (line + [NEWLINE]))
    else text + (line + [NEWLINE])
  }

  function AiderYaml(existing: Option<string>, key: string, value: string): string {
    var text := existing.GetOr("");
    if HasKey(text, key) then text else WithLine(text, Setting(key, value))
  }

  /** `merge_aider_yaml`. */
  method MergeAiderYaml(existing: Option<string>, key: string, value: string) returns (text: string)
    ensures text == AiderYaml(existing, key, value)
  {
    text := existing.GetOr("");
    if HasKey(text, key) { return; }
    ghost var was := text;
    if !(text != "" && text[|text| - 1] == NEWLINE) && text != "" {
      text := text + [NEWLINE];
      ConcatAssoc(was, [NEWLINE], Setting(key, value) + [NEWLINE]);
    }
    text := text + (Setting(key, value) + [NEWLINE]);
  }

  lemma PrefixCons(c: char, a: string, b: string)
    ensures [c] + a <= [c] + b <==> a <= b
  {
    assert ([c] + a)[1..] == a && ([c] + b)[1..] == b;
  }

  lemma OccursLater(text: string, n: string, k: nat, i: nat)
    requires k < |text| && i <= |text| - k - 1
    ensures OccursAt(text, n, k + 1 + i) <==> OccursAt(text[k + 1..], n, i)
  {
    assert text[k + 1 + i..] == text[k + 1..][i..];
  }

  lemma OccursHere(text: string, needle: string, k: nat)
    requires k < |text| && text[k] == NEWLINE
    ensures OccursAt(text, [NEWLINE] + needle, k) <==> needle <= text[k + 1..]
  {
    assert text[k..] == [NEWLINE] + text[k + 1..];
    PrefixCons(NEWLINE, needle, text[k + 1..]);
  }

  lemma NewlineStarts(text: string, needle: string, k: nat)
    requires k < |text| && text[k] == NEWLINE && forall j :: 0 <= j < k ==> text[j] != NEWLINE
    ensures Contains(text, [NEWLINE] + needle) <==>
      needle <= text[k + 1..] || Contains(text[k + 1..], [NEWLINE] + needle)
  {
    var n, rest := [NEWLINE] + needle, text[k + 1..];
    OccursHere(text, needle, k);
    forall i | 0 <= i <= |rest| ensures OccursAt(text, n, k + 1 + i) <==> OccursAt(rest, n, i) {
      OccursLater(text, n, k, i);
    }
    assert forall i | 0 <= i < k :: OccursAt(text, n, i) ==> text[i..][0] == n[0];
    hide OccursAt;
    if Contains(text, n) {
      var i :| 0 <= i <= |text| && OccursAt(text, n, i);
      assert i > k ==> OccursAt(rest, n, i - k - 1) <==> OccursAt(text, n, k + 1 + (i - k - 1));
    }
  }

  lemma NoNewlineNoHit(text: string, needle: string)
    requires forall j :: 0 <= j < |text| ==> text[j] != NEWLINE
    ensures !Contains(text, [NEWLINE] + needle)
  {
    var n := [NEWLINE] + needle;
    forall i | 0 <= i <= |text| ensures !OccursAt(text, n, i) {
      assert n[0] == NEWLINE && (i < |text| ==> text[i..][0] == text[i]);
    }
  }

  predicate SomeLineStarts(lines: seq<string>, needle: string) {
    exists i | 0 <= i < |lines| :: needle <= lines[i]
  }

  lemma SomeLineStartsCons(l: string, lines: seq<string>, needle: string)
    ensures SomeLineStarts([l] + lines, needle) <==> needle <= l || SomeLineStarts(lines, needle)
  {
    var all := [l] + lines;
    assert all[0] == l;
    if SomeLineStarts(lines, needle) {
      var i :| 0 <= i < |lines| && needle <= lines[i];
      assert needle <= all[i + 1];
    }
  }

  /** The raw-text test asks exactly whether a line starts with the needle. */
  lemma {:induction false} RawTestIsPerLine(text: string, needle: string)
    requires needle != "" && NEWLINE !in needle
    ensures Contains(text, [NEWLINE] + needle) || needle <= text <==> SomeLineStarts(InputLines(text), needle)
  {
    var k := IndexOf(text, NEWLINE);
    assert forall j :: 0 <= j < k ==> text[j] in text[..k];
    if k == |text| {
      NoNewlineNoHit(text, needle);
      if text != "" { assert InputLines(text)[0] == text; }
    } else {
      var rest := text[k + 1..];
      NewlineStarts(text, needle, k);
      PrefixOfLine(text, needle, k);
      RawTestIsPerLine(rest, needle);
      SomeLineStartsCons(text[..k], InputLines(rest), needle);
    }
  }

  lemma OneLineWithLine(text: string, line: string)
    requires NEWLINE !in text && NEWLINE !in line
    ensures InputLines(WithLine(text, line)) == InputLines(text) + [line]
  {
    LinesPrepend(line, "");
    var last := line + ([NEWLINE] + "");
    assert last == line + [NEWLINE] && InputLines("") == [];
    if text == "" {
      assert WithLine(text, line) == last;
    } else {
      assert text[|text| - 1] in text;
      assert WithLine(text, line) == text + ([NEWLINE] + last);
      LinesPrepend(text, last);
      LineAlone(text);
      hide *;
    }
  }

  lemma LineAlone(text: string)
    requires text != "" && NEWLINE !in text
    ensures InputLines(text) == [text]
  {
    assert text[..|text|] == text;
  }

  lemma {:induction false} LinesOfWithLine(text: string, line: string)
    requires NEWLINE !in line
    ensures InputLines(WithLine(text, line)) == InputLines(text) + [line]
  {
    var k := IndexOf(text, NEWLINE);
    if k == |text| {
      assert text[..k] == text;
      OneLineWithLine(text, line);
    } else {
      var first, rest := text[..k], text[k + 1..];
      hide *;
      assert text == first + ([NEWLINE] + rest);
      WithLineOfRest(first, rest, line);
      LinesPrepend(first, rest);
      LinesPrepend(first, WithLine(rest, line));
      LinesOfWithLine(rest, line);
      ConcatAssoc([first], InputLines(rest), [line]);
    }
  }

  lemma WithLineOfRest(first: string, rest: string, line: string)
    ensures WithLine(first + ([NEWLINE] + rest), line) == first + ([NEWLINE] + WithLine(rest, line))
  {
    var text := first + ([NEWLINE] + rest);
    assert text[|text| - 1] == if rest == "" then NEWLINE else rest[|rest| - 1];
    var added := if rest != "" && rest[|rest| - 1] != NEWLINE then [NEWLINE] + (line + [NEWLINE]) else line + [NEWLINE];
    assert WithLine(text, line) == text + added && WithLine(rest, line) == rest + added;
    hide WithLine;
    ConcatAssoc([NEWLINE], rest, added);
    ConcatAssoc(first, [NEWLINE] + rest, added);
  }

  /** The merge leaves the file unchanged exactly when it is there and has the key. */
  lemma AiderUnchangedIff(existing: Option<string>, key: string, value: string)
    ensures Some(AiderYaml(existing, key, value)) == existing <==> existing.Some? && HasKey(existing.value, key)
  {
    var text := existing.GetOr("");
    assert |WithLine(text, Setting(key, value))| > |text|;
  }

  /** Merging twice is merging once, whatever the key. */
  lemma AiderIdempotent(existing: Option<string>, key: string, value: string)
    ensures AiderYaml(Some(AiderYaml(existing, key, value)), key, value) == AiderYaml(existing, key, value)
  {
    var text, r := existing.GetOr(""), AiderYaml(existing, key, value);
    var needle, rest := key + ":", " \"" + (value + "\"");
    if !HasKey(text, key) {
      assert Setting(key, value) == needle + rest;
      var line := needle + (rest + [NEWLINE]);
      ConcatAssoc(needle, rest, [NEWLINE]);
      assert needle <= line;
      if text == "" {
        assert r == line;
      } else {
        var k := if text[|text| - 1] == NEWLINE then |text| - 1 else |text|;
        assert r == text[..k] + ([NEWLINE] + line);
        assert r[k..] == [NEWLINE] + line;
        PrefixCons(NEWLINE, needle, line);
        assert OccursAt(r, [NEWLINE] + needle, k);
      }
      assert HasKey(r, key);
    }
  }

  /** The merge keeps every line and adds the setting as a last line exactly when no line sets the key. */
  lemma AiderLaws(existing: Option<string>, key: string, value: string)
    requires NEWLINE !in key && NEWLINE !in value
    ensures var text, r := existing.GetOr(""), AiderYaml(existing, key, value);
      && InputLines(r) ==
           (if SomeLineStarts(InputLines(text), key + ":") then InputLines(text)
            else InputLines(text) + [key + ": \"" + value + "\""])
      && text <= r
      && SomeLineStarts(InputLines(r), key + ":")
  {
    var text, r, line := existing.GetOr(""), AiderYaml(existing, key, value), Setting(key, value);
    var needle := key + ":";
    assert line == key + ": \"" + value + "\"";
    RawTestIsPerLine(text, needle);
    if !HasKey(text, key) {
      LinesOfWithLine(text, line);
      assert needle <= line by { assert line[..|needle|] == needle; }
      var lines := InputLines(r);
      assert lines[|lines| - 1] == line;
    }
  }
}
