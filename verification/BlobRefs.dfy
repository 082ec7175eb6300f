/** Who refers to a blob: every run of put-then-reference, dereference-then-release and garbage
    collection keeps each reference count equal to the rows that name the hash plus the references
    still in some process's hands. */
module BlobRefs {
  import opened Text
  import opened BlobStore

  datatype Session = Session(id: string, startedAt: int, raw: Option<Hash>, compressed: Option<Hash>)

  datatype Profile = Profile(id: int, dsl: Hash, rubric: Option<Hash>)

  /** A reference a process holds: put but not yet recorded in a row, or taken from a deleted row but
      not yet released. */
  datatype Claim = Claim(pid: nat, hash: Hash)

  datatype State = State(
    store: Store,
    sessions: seq<Session>,
    samples: seq<Hash>,
    profiles: seq<Profile>,
    claims: seq<Claim>,
    lost: seq<Hash>,                // references whose row was overwritten
    dead: set<nat>)

  function Opt(h: Option<Hash>): seq<Hash> { if h.Some? then [h.value] else [] }

  function SessionNames(s: Session): seq<Hash> { Opt(s.raw) + Opt(s.compressed) }

  function ProfileNames(p: Profile): seq<Hash> { [p.dsl] + Opt(p.rubric) }

  /** All hashes named by a table, one entry per naming. */
  function Names<T>(rows: seq<T>, names: T -> seq<Hash>): seq<Hash> {
    if rows == [] then [] else names(rows[0]) + Names(rows[1..], names)
  }

  function NamedBy(s: State): multiset<Hash> {
    multiset(Names(s.sessions, SessionNames)) + (multiset(s.samples) + multiset(Names(s.profiles, ProfileNames)))
  }

  function ClaimHash(c: Claim): seq<Hash> { [c.hash] }

  function Claimed(claims: seq<Claim>): multiset<Hash> { multiset(Names(claims, ClaimHash)) }

  function RefCount(st: Store, h: Hash): int { if h in st.rows then st.rows[h].refCount else 0 }

  /** The rows of a table that satisfy a condition. */
  function Where<T>(rows: seq<T>, p: T -> bool): seq<T> {
    if rows == [] then []
    else if p(rows[0]) then [rows[0]] + Where(rows[1..], p)
    else Where(rows[1..], p)
  }

  function ClaimsFor(pid: nat, hashes: seq<Hash>): seq<Claim> { MapSeq(hashes, h => Claim(pid, h)) }

  function WithoutAt<T>(s: seq<T>, i: nat): seq<T>
    requires i < |s|
  {
    s[..i] + s[i + 1..]
  }

  // ---- Steps ----

  datatype Step =
    | Put(pid: nat, data: Bytes)
    | CreateSession(pid: nat, id: string, startedAt: int)
    | FinalizeSession(pid: nat, id: string, raw: Option<nat>, compressed: nat)
    | InsertSample(pid: nat, claim: nat)
    | InsertProfile(pid: nat, profile: int, claim: nat)
    | PurgeSessions(pid: nat, cutoff: int)
    | PurgeProfile(pid: nat, profile: int)
    | Release(pid: nat, claim: nat)
    | Gc(pid: nat)
    | Die(pid: nat)

  ghost predicate Holds(s: State, pid: nat, c: nat) { c < |s.claims| && s.claims[c].pid == pid }

  /** One atomic store call or row statement of a live process. */
  ghost predicate Next(hash: Hasher, s: State, step: Step, t: State) {
    step.pid !in s.dead &&
    match step
    case Put(pid, data) =>
      t == s.(store := PutStore(s.store, hash(data), data), claims := s.claims + [Claim(pid, hash(data))])
    case CreateSession(pid, id, startedAt) =>
      // The identifier is the primary key.
      t == if HasSession(s, id) then s else s.(sessions := s.sessions + [Session(id, startedAt, None, None)])
    case FinalizeSession(pid, id, raw, c) =>
      // UPDATE ... WHERE id: overwrites what the row named; without a row the references stay with the
      // process.
      Holds(s, pid, c) && (raw.Some? ==> Holds(s, pid, raw.value) && raw.value < c) &&
      if HasSession(s, id) then exists k :: IsSession(s, id, k) && t == Finalize(s, k, raw, c) else t == s
    case InsertSample(pid, c) =>
      Holds(s, pid, c) && t == s.(samples := s.samples + [s.claims[c].hash], claims := WithoutAt(s.claims, c))
    case InsertProfile(pid, id, c) =>
      Holds(s, pid, c) &&
      t == s.(profiles := s.profiles + [Profile(id, s.claims[c].hash, None)], claims := WithoutAt(s.claims, c))
    case PurgeSessions(pid, cutoff) =>
      var gone := Where(s.sessions, (x: Session) => x.startedAt < cutoff);
      t == s.(sessions := Where(s.sessions, (x: Session) => x.startedAt >= cutoff),
              claims := s.claims + ClaimsFor(pid, Names(gone, SessionNames)))
    case PurgeProfile(pid, id) =>
      var gone := Where(s.profiles, (x: Profile) => x.id == id);
      t == s.(profiles := Where(s.profiles, (x: Profile) => x.id != id),
              claims := s.claims + ClaimsFor(pid, Names(gone, ProfileNames)))
    case Release(pid, c) =>
      Holds(s, pid, c) &&
      t == s.(store := ReleaseStore(s.store, s.claims[c].hash), claims := WithoutAt(s.claims, c))
    case Gc(pid) => t == s.(store := GcStore(s.store))
    case Die(pid) => t == s.(dead := s.dead + {pid})
  }

  ghost predicate IsSession(s: State, id: string, k: nat) { k < |s.sessions| && s.sessions[k].id == id }

  ghost predicate HasSession(s: State, id: string) { exists k :: IsSession(s, id, k) }

  function Finalized(s: State, k: nat, raw: Option<nat>, c: nat): Session
    requires k < |s.sessions| && c < |s.claims| && (raw.Some? ==> raw.value < c)
  {
    var sha := if raw.Some? then Some(s.claims[raw.value].hash) else None;
    s.sessions[k].(raw := sha, compressed := Some(s.claims[c].hash))
  }

  /** The claims left once these two are recorded. */
  function ClaimsLeft(claims: seq<Claim>, raw: Option<nat>, c: nat): seq<Claim>
    requires c < |claims| && (raw.Some? ==> raw.value < c)
  {
    var rest := WithoutAt(claims, c);
    if raw.Some? then WithoutAt(rest, raw.value) else rest
  }

  function Finalize(s: State, k: nat, raw: Option<nat>, c: nat): State
    requires k < |s.sessions| && c < |s.claims| && (raw.Some? ==> raw.value < c)
  {
    s.(sessions := s.sessions[k := Finalized(s, k, raw, c)],
       claims := ClaimsLeft(s.claims, raw, c),
       lost := s.lost + SessionNames(s.sessions[k]))
  }

  const EMPTY := State(Store(map[], map[]), [], [], [], [], [], {})

  ghost predicate IsRun(hash: Hasher, states: seq<State>, steps: seq<Step>) {
    && |states| == |steps| + 1 && states[0] == EMPTY
    && forall i :: 0 <= i < |steps| ==> Next(hash, states[i], steps[i], states[i + 1])
  }

  // ---- The invariant ----

  /** Every reference there is: one per naming in a row, one per claim, and the lost ones. */
  function References(s: State): multiset<Hash> { NamedBy(s) + Claimed(s.claims) + multiset(s.lost) }

  /** Each hash is counted as often as it occurs. */
  ghost predicate Tallies(st: Store, m: multiset<Hash>) { forall h :: RefCount(st, h) == m[h] }

  /** Rows and files agree, counts are positive, and each file holds what its name says. */
  ghost predicate StoreOk(hash: Hasher, st: Store) {
    && st.rows.Keys == st.files.Keys
    && forall h :: h in st.rows ==> st.rows[h].refCount > 0 && hash(st.files[h]) == h
  }

  ghost predicate Inv(hash: Hasher, s: State) { StoreOk(hash, s.store) && Tallies(s.store, References(s)) }

  // ---- Multisets of names ----

  lemma {:induction false} NamesConcat<T>(a: seq<T>, b: seq<T>, names: T -> seq<Hash>)
    ensures Names(a + b, names) == Names(a, names) + Names(b, names)
  {
    if a == [] {
      assert a + b == b;
    } else {
      assert (a + b)[1..] == a[1..] + b;
      NamesConcat(a[1..], b, names);
      ConcatAssoc(names(a[0]), Names(a[1..], names), Names(b, names));
    }
  }

  lemma NamesOne<T>(x: T, names: T -> seq<Hash>)
    ensures Names([x], names) == names(x)
  {
    assert Names([x][1..], names) == [];
  }

  lemma NamesPush<T>(a: seq<T>, x: T, names: T -> seq<Hash>)
    ensures multiset(Names(a + [x], names)) == multiset(Names(a, names)) + multiset(names(x))
  {
    NamesConcat(a, [x], names);
    NamesOne(x, names);
  }

  lemma NamesWithout<T>(a: seq<T>, i: nat, names: T -> seq<Hash>)
    requires i < |a|
    ensures multiset(Names(WithoutAt(a, i), names)) + multiset(names(a[i])) == multiset(Names(a, names))
  {
    hide Names;
    var x, y, z := Names(a[..i], names), names(a[i]), Names(a[i + 1..], names);
    NamesConcat(a[..i], a[i + 1..], names);
    NamesConcat(a[..i], [a[i]] + a[i + 1..], names);
    NamesConcat([a[i]], a[i + 1..], names);
    NamesOne(a[i], names);
    assert a == a[..i] + ([a[i]] + a[i + 1..]);
    assert multiset(x + (y + z)) == multiset(x) + (multiset(y) + multiset(z));
  }

  lemma NamesUpdate<T>(a: seq<T>, i: nat, x: T, names: T -> seq<Hash>)
    requires i < |a|
    ensures multiset(Names(a[i := x], names)) + multiset(names(a[i])) == multiset(Names(a, names)) + multiset(names(x))
  {
    NamesWithout(a, i, names);
    NamesWithout(a[i := x], i, names);
    assert WithoutAt(a[i := x], i) == WithoutAt(a, i);
  }

  lemma {:induction false} NamesSplit<T>(a: seq<T>, p: T -> bool, q: T -> bool, names: T -> seq<Hash>)
    requires forall x :: x in a ==> (q(x) <==> !p(x))
    ensures multiset(Names(Where(a, p), names)) + multiset(Names(Where(a, q), names)) == multiset(Names(a, names))
  {
    if a != [] {
      NamesSplit(a[1..], p, q, names);
      var rest := if p(a[0]) then Where(a[1..], p) else Where(a[1..], q);
      NamesConcat([a[0]], rest, names);
      NamesOne(a[0], names);
    }
  }

  lemma {:induction false} ClaimsForHashes(pid: nat, hashes: seq<Hash>)
    ensures Names(ClaimsFor(pid, hashes), ClaimHash) == hashes
  {
    if hashes != [] {
      assert ClaimsFor(pid, hashes)[1..] == ClaimsFor(pid, hashes[1..]);
      ClaimsForHashes(pid, hashes[1..]);
    }
  }

  // ---- Each kind of step keeps the invariant ----

  lemma PutTallies(hash: Hasher, st: Store, data: Bytes, m: multiset<Hash>)
    requires StoreOk(hash, st) && Tallies(st, m)
    ensures var out := PutStore(st, hash(data), data); StoreOk(hash, out) && Tallies(out, m + multiset{hash(data)})
  {
  }

  lemma ReleaseTallies(hash: Hasher, st: Store, h: Hash, m: multiset<Hash>)
    requires StoreOk(hash, st) && Tallies(st, m + multiset{h})
    ensures StoreOk(hash, ReleaseStore(st, h)) && Tallies(ReleaseStore(st, h), m)
  {
    forall x ensures RefCount(ReleaseStore(st, h), x) == m[x] {
      assert RefCount(st, x) == (m + multiset{h})[x];
      assert RefCount(st, h) == (m + multiset{h})[h] == m[h] + 1;
    }
  }

  lemma PutKeeps(hash: Hasher, s: State, pid: nat, data: Bytes)
    requires Inv(hash, s)
    ensures Inv(hash, s.(store := PutStore(s.store, hash(data), data), claims := s.claims + [Claim(pid, hash(data))]))
  {
    PutTallies(hash, s.store, data, References(s));
    hide PutStore, StoreOk, Tallies;
    var t := s.(store := PutStore(s.store, hash(data), data), claims := s.claims + [Claim(pid, hash(data))]);
    NamesPush(s.claims, Claim(pid, hash(data)), ClaimHash);
    assert References(t) == References(s) + multiset{hash(data)};
  }

  lemma DropClaim(claims: seq<Claim>, c: nat)
    requires c < |claims|
    ensures Claimed(claims) == Claimed(WithoutAt(claims, c)) + multiset{claims[c].hash}
  {
    NamesWithout(claims, c, ClaimHash);
  }

  lemma ReleaseKeeps(hash: Hasher, s: State, c: nat)
    requires Inv(hash, s) && c < |s.claims|
    ensures Inv(hash, s.(store := ReleaseStore(s.store, s.claims[c].hash), claims := WithoutAt(s.claims, c)))
  {
    hide ReleaseStore, StoreOk, Tallies;
    var h := s.claims[c].hash;
    var t := s.(store := ReleaseStore(s.store, h), claims := WithoutAt(s.claims, c));
    DropClaim(s.claims, c);
    assert References(s) == References(t) + multiset{h};
    ReleaseTallies(hash, s.store, h, References(t));
  }

  /** A step that leaves the store alone keeps the invariant when it only moves references. */
  lemma MoveKeeps(hash: Hasher, s: State, t: State)
    requires Inv(hash, s) && t.store == s.store && References(t) == References(s)
    ensures Inv(hash, t)
  {
  }

  /** Recording claims in a row moves exactly their references. */
  lemma RecordedClaims(s: State, k: nat, raw: Option<nat>, c: nat)
    requires k < |s.sessions| && c < |s.claims| && (raw.Some? ==> raw.value < c)
    ensures Claimed(s.claims) ==
      Claimed(ClaimsLeft(s.claims, raw, c)) + multiset(SessionNames(Finalized(s, k, raw, c)))
  {
    hide Names, Claimed;
    DropClaim(s.claims, c);
    var h := s.claims[c].hash;
    if raw.Some? {
      var rest, h' := WithoutAt(s.claims, c), s.claims[raw.value].hash;
      assert rest[raw.value] == s.claims[raw.value];
      DropClaim(rest, raw.value);
      assert multiset([h'] + [h]) == multiset{h'} + multiset{h};
    } else {
      assert [] + [h] == [h];
    }
  }

  lemma FinalizeKeeps(hash: Hasher, s: State, k: nat, raw: Option<nat>, c: nat)
    requires Inv(hash, s) && k < |s.sessions| && c < |s.claims| && (raw.Some? ==> raw.value < c)
    ensures Inv(hash, Finalize(s, k, raw, c))
  {
    hide Names, StoreOk, Tallies, Claimed, Finalized, ClaimsLeft, SessionNames;
    var t := Finalize(s, k, raw, c);
    RecordedClaims(s, k, raw, c);
    NamesUpdate(s.sessions, k, Finalized(s, k, raw, c), SessionNames);
    var was, now := multiset(SessionNames(s.sessions[k])), multiset(SessionNames(Finalized(s, k, raw, c)));
    assert multiset(t.lost) == multiset(s.lost) + was;
    Swap(multiset(Names(t.sessions, SessionNames)), multiset(Names(s.sessions, SessionNames)), was, now,
      multiset(s.samples) + multiset(Names(s.profiles, ProfileNames)), Claimed(t.claims), Claimed(s.claims),
      multiset(s.lost));
    MoveKeeps(hash, s, t);
  }

  lemma Swap(
    named': multiset<Hash>, named: multiset<Hash>, was: multiset<Hash>, now: multiset<Hash>, others: multiset<Hash>,
    claimed': multiset<Hash>, claimed: multiset<Hash>, lost: multiset<Hash>)
    requires named' + was == named + now && claimed == claimed' + now
    ensures named' + others + claimed' + (lost + was) == named + others + claimed + lost
  {
    forall h
      ensures (named' + others + claimed' + (lost + was))[h] == (named + others + claimed + lost)[h]
    {
      assert (named' + was)[h] == (named + now)[h];
    }
  }

  lemma PurgeKeeps(hash: Hasher, s: State, t: State, pid: nat, cutoff: int)
    requires Inv(hash, s) && Next(hash, s, PurgeSessions(pid, cutoff), t)
    ensures Inv(hash, t)
  {
    var p, q := (x: Session) => x.startedAt < cutoff, (x: Session) => x.startedAt >= cutoff;
    NamesSplit(s.sessions, p, q, SessionNames);
    var names := Names(Where(s.sessions, p), SessionNames);
    ClaimsForHashes(pid, names);
    NamesConcat(s.claims, ClaimsFor(pid, names), ClaimHash);
    assert References(t) == References(s);
    MoveKeeps(hash, s, t);
  }

  lemma PurgeProfileKeeps(hash: Hasher, s: State, t: State, pid: nat, id: int)
    requires Inv(hash, s) && Next(hash, s, PurgeProfile(pid, id), t)
    ensures Inv(hash, t)
  {
    var p, q := (x: Profile) => x.id == id, (x: Profile) => x.id != id;
    NamesSplit(s.profiles, p, q, ProfileNames);
    var names := Names(Where(s.profiles, p), ProfileNames);
    ClaimsForHashes(pid, names);
    NamesConcat(s.claims, ClaimsFor(pid, names), ClaimHash);
    assert References(t) == References(s);
    MoveKeeps(hash, s, t);
  }

  /** With positive counts there is nothing for the garbage collector to do. */
  lemma GcFindsNothing(hash: Hasher, st: Store)
    requires StoreOk(hash, st)
    ensures Orphans(st) == {} && GcStore(st) == st
  {
    assert st.rows - {} == st.rows && st.files - {} == st.files;
  }

  lemma CreateKeeps(hash: Hasher, s: State, row: Session)
    requires Inv(hash, s) && row.raw == None && row.compressed == None
    ensures Inv(hash, s.(sessions := s.sessions + [row]))
  {
    NamesPush(s.sessions, row, SessionNames);
    assert SessionNames(row) == [];
    assert References(s.(sessions := s.sessions + [row])) == References(s);
    MoveKeeps(hash, s, s.(sessions := s.sessions + [row]));
  }

  lemma SampleKeeps(hash: Hasher, s: State, c: nat)
    requires Inv(hash, s) && c < |s.claims|
    ensures Inv(hash, s.(samples := s.samples + [s.claims[c].hash], claims := WithoutAt(s.claims, c)))
  {
    var t := s.(samples := s.samples + [s.claims[c].hash], claims := WithoutAt(s.claims, c));
    DropClaim(s.claims, c);
    assert References(t) == References(s);
    MoveKeeps(hash, s, t);
  }

  lemma ProfileKeeps(hash: Hasher, s: State, id: int, c: nat)
    requires Inv(hash, s) && c < |s.claims|
    ensures var row := Profile(id, s.claims[c].hash, None);
      Inv(hash, s.(profiles := s.profiles + [row], claims := WithoutAt(s.claims, c)))
  {
    var p := Profile(id, s.claims[c].hash, None);
    var t := s.(profiles := s.profiles + [p], claims := WithoutAt(s.claims, c));
    NamesPush(s.profiles, p, ProfileNames);
    assert ProfileNames(p) == [s.claims[c].hash];
    DropClaim(s.claims, c);
    assert References(t) == References(s);
    MoveKeeps(hash, s, t);
  }

  lemma StepKeepsInv(hash: Hasher, s: State, step: Step, t: State)
    requires Inv(hash, s) && Next(hash, s, step, t)
    ensures Inv(hash, t)
  {
    match step
    case Put(pid, data) => PutKeeps(hash, s, pid, data);
    case CreateSession(pid, id, at) =>
      if !HasSession(s, id) { CreateKeeps(hash, s, Session(id, at, None, None)); }
    case FinalizeSession(pid, id, raw, c) =>
      if HasSession(s, id) {
        var k :| IsSession(s, id, k) && t == Finalize(s, k, raw, c);
        FinalizeKeeps(hash, s, k, raw, c);
      }
    case InsertSample(pid, c) => SampleKeeps(hash, s, c);
    case InsertProfile(pid, id, c) => ProfileKeeps(hash, s, id, c);
    case PurgeSessions(pid, cutoff) => PurgeKeeps(hash, s, t, pid, cutoff);
    case PurgeProfile(pid, id) => PurgeProfileKeeps(hash, s, t, pid, id);
    case Release(pid, c) => ReleaseKeeps(hash, s, c);
    case Gc(pid) => GcFindsNothing(hash, s.store);
    case Die(pid) => assert References(t) == References(s);
  }

  lemma EmptyInv(hash: Hasher)
    ensures Inv(hash, EMPTY)
  {
    assert References(EMPTY) == multiset{};
  }

  lemma {:induction false} RunsKeepInv(hash: Hasher, states: seq<State>, steps: seq<Step>, n: nat)
    requires IsRun(hash, states, steps) && n < |states|
    ensures Inv(hash, states[n])
  {
    hide Next, Inv;
    if n == 0 {
      EmptyInv(hash);
    } else {
      RunsKeepInv(hash, states, steps, n - 1);
      StepKeepsInv(hash, states[n - 1], steps[n - 1], states[n]);
    }
  }

  /** Over every run: a hash is counted at least once per row that names it, exactly so when no process
      holds a reference to it and none was lost; and every named blob within the read cap reads back as the
      bytes that were put. */
  lemma NamedBlobsReadBack(hash: Hasher, states: seq<State>, steps: seq<Step>, n: nat, h: Hash)
    requires IsRun(hash, states, steps) && n < |states|
    requires forall a: Bytes, b: Bytes :: hash(a) == hash(b) ==> a == b
    ensures RefCount(states[n].store, h) >= NamedBy(states[n])[h]
    ensures h !in Claimed(states[n].claims) && h !in states[n].lost ==>
      RefCount(states[n].store, h) == NamedBy(states[n])[h]
    ensures h in NamedBy(states[n]) ==>
      h in states[n].store.files &&
      forall data: Bytes :: hash(data) == h ==>
        Read(states[n].store, hash, h) == if |data| > READ_CAP then TooLarge else Ok(data)
  {
    RunsKeepInv(hash, states, steps, n);
    var s := states[n];
    assert RefCount(s.store, h) == References(s)[h];
    if h in NamedBy(s) {
      forall data: Bytes | hash(data) == h
        ensures Read(s.store, hash, h) == if |data| > READ_CAP then TooLarge else Ok(data)
      {
        assert hash(data) == hash(s.store.files[h]);
      }
    }
  }

  // ---- What a purge takes, and what the dead keep ----

  lemma {:induction false} WhereIs<T>(rows: seq<T>, p: T -> bool)
    ensures forall x :: x in Where(rows, p) <==> x in rows && p(x)
  {
    if rows != [] { WhereIs(rows[1..], p); }
  }

  /** A purge removes exactly the sessions started before the cutoff, or the rows of that profile. */
  lemma PurgeTakes(hash: Hasher, s: State, step: Step, t: State)
    requires Next(hash, s, step, t)
    ensures step.PurgeSessions? ==>
      forall x :: x in t.sessions <==> x in s.sessions && x.startedAt >= step.cutoff
    ensures step.PurgeProfile? ==>
      forall x :: x in t.profiles <==> x in s.profiles && x.id != step.profile
  {
    if step.PurgeSessions? { WhereIs(s.sessions, (x: Session) => x.startedAt >= step.cutoff); }
    if step.PurgeProfile? { WhereIs(s.profiles, (x: Profile) => x.id != step.profile); }
  }

  function ClaimsBy(claims: seq<Claim>, pid: nat): seq<Claim> { Where(claims, (c: Claim) => c.pid == pid) }

  lemma {:induction false} ClaimsByConcat(a: seq<Claim>, b: seq<Claim>, pid: nat)
    ensures ClaimsBy(a + b, pid) == ClaimsBy(a, pid) + ClaimsBy(b, pid)
  {
    if a == [] {
      assert a + b == b;
    } else {
      assert (a + b)[1..] == a[1..] + b;
      ClaimsByConcat(a[1..], b, pid);
    }
  }

  lemma {:induction false} NoClaimsBy(claims: seq<Claim>, pid: nat)
    requires forall i :: 0 <= i < |claims| ==> claims[i].pid != pid
    ensures ClaimsBy(claims, pid) == []
  {
    if claims != [] { NoClaimsBy(claims[1..], pid); }
  }

  lemma ClaimsByWithout(claims: seq<Claim>, i: nat, pid: nat)
    requires i < |claims| && claims[i].pid != pid
    ensures ClaimsBy(WithoutAt(claims, i), pid) == ClaimsBy(claims, pid)
  {
    hide ClaimsBy;
    assert claims == claims[..i] + ([claims[i]] + claims[i + 1..]);
    ClaimsByConcat(claims[..i], [claims[i]] + claims[i + 1..], pid);
    ClaimsByConcat([claims[i]], claims[i + 1..], pid);
    ClaimsByConcat(claims[..i], claims[i + 1..], pid);
    NoClaimsBy([claims[i]], pid);
  }

  /** No step of another process touches the references a process holds. */
  lemma StepKeepsClaims(hash: Hasher, s: State, step: Step, t: State, pid: nat)
    requires Next(hash, s, step, t) && step.pid != pid
    ensures ClaimsBy(t.claims, pid) == ClaimsBy(s.claims, pid)
  {
    hide ClaimsBy, Names, PutStore, ReleaseStore, GcStore, Where;
    match step
    case InsertSample(_, c) => ClaimsByWithout(s.claims, c, pid);
    case InsertProfile(_, _, c) => ClaimsByWithout(s.claims, c, pid);
    case Release(_, c) => ClaimsByWithout(s.claims, c, pid);
    case FinalizeSession(_, id, raw, c) =>
      ClaimsByWithout(s.claims, c, pid);
      if raw.Some? { ClaimsByWithout(WithoutAt(s.claims, c), raw.value, pid); }
    case _ =>
      assert s.claims <= t.claims;
      var added := t.claims[|s.claims|..];
      assert t.claims == s.claims + added;
      ClaimsByConcat(s.claims, added, pid);
      NoClaimsBy(added, pid);
  }

  /** A process that dies keeps its references for the rest of the run: it takes no further step, and nobody
      gives them back. */
  lemma {:induction false} DeadKeepClaims(hash: Hasher, states: seq<State>, steps: seq<Step>, pid: nat, i: nat, n: nat)
    requires IsRun(hash, states, steps) && i <= n < |states| && pid in states[i].dead
    ensures pid in states[n].dead && ClaimsBy(states[n].claims, pid) == ClaimsBy(states[i].claims, pid)
  {
    hide ClaimsBy, PutStore, ReleaseStore, GcStore, Where;
    if i < n {
      DeadKeepClaims(hash, states, steps, pid, i, n - 1);
      StepKeepsClaims(hash, states[n - 1], steps[n - 1], states[n], pid);
    }
  }

  /** A crash leaks: what a process held when it died stays counted in every later state, so no release and
      no collection ever removes those blobs. */
  lemma CrashLeaks(hash: Hasher, states: seq<State>, steps: seq<Step>, pid: nat, i: nat, n: nat, h: Hash)
    requires IsRun(hash, states, steps) && i <= n < |states| && pid in states[i].dead
    ensures RefCount(states[n].store, h) >= Claimed(ClaimsBy(states[i].claims, pid))[h]
  {
    hide IsRun, Where, Names;
    DeadKeepClaims(hash, states, steps, pid, i, n);
    RunsKeepInv(hash, states, steps, n);
    var claims := states[n].claims;
    NamesSplit(claims, (c: Claim) => c.pid == pid, (c: Claim) => c.pid != pid, ClaimHash);
    assert RefCount(states[n].store, h) == References(states[n])[h];
  }
}
