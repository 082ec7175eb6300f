/** The profile table: status flips, one active profile per fingerprint, and rollback. */
module ProfileRepo {
  import opened Text

  datatype Status = Pending | Active | Superseded | Quarantined

  datatype Row = Row(
    id: int, fingerprint: string, version: string, status: Status,
    dslBlob: string, rubricBlob: Option<string>, createdAt: int)

  datatype NewProfile = NewProfile(fingerprint: string, version: string, dslBlob: string)

  datatype Result<+T> = Ok(value: T) | UniqueViolation | NotFound | ForeignKeyViolation

  /** The blobs a deleted row named. */
  datatype Named = Named(dsl: Option<string>, rubric: Option<string>)

  // ---- Statements as functions of the table ----

  function WithStatus(r: Row, cond: bool, s: Status): Row { if cond then r.(status := s) else r }

  /** UPDATE ... SET status = s WHERE id = `id`. */
  function SetStatusRows(rows: seq<Row>, id: int, s: Status): seq<Row> {
    MapSeq(rows, (r: Row) => WithStatus(r, r.id == id, s))
  }

  /** UPDATE ... SET status = 'superseded' WHERE fingerprint = fp AND status = 'active' AND id != keep. */
  function SupersedeRows(rows: seq<Row>, fp: string, keep: int): seq<Row> {
    MapSeq(rows, (r: Row) => WithStatus(r, r.fingerprint == fp && r.status == Active && r.id != keep, Superseded))
  }

  /** The table after row `id` of fingerprint `fp` takes over as the active one. */
  function ActivateRows(rows: seq<Row>, fp: string, id: int): seq<Row> {
    MapSeq(rows, (r: Row) =>
      if r.id == id then r.(status := Active)
      else WithStatus(r, r.fingerprint == fp && r.status == Active, Superseded))
  }

  lemma ActivateIsTwoUpdates(rows: seq<Row>, fp: string, id: int)
    ensures SetStatusRows(SupersedeRows(rows, fp, id), id, Active) == ActivateRows(rows, fp, id)
  {
  }

  function FindId(rows: seq<Row>, id: int): (k: nat)
    ensures k <= |rows|
    ensures k < |rows| ==> rows[k].id == id
    ensures forall j :: 0 <= j < k ==> rows[j].id != id
  {
    if rows == [] || rows[0].id == id then 0 else 1 + FindId(rows[1..], id)
  }

  function MaxId(rows: seq<Row>): (m: int)
    ensures m >= 0 && forall i :: 0 <= i < |rows| ==> rows[i].id <= m
    ensures m > 0 ==> exists i :: 0 <= i < |rows| && rows[i].id == m
  {
    if rows == [] then 0
    else
      var m := MaxId(rows[..|rows| - 1]);
      if rows[|rows| - 1].id > m then rows[|rows| - 1].id else m
  }

  function DeleteRow(rows: seq<Row>, id: int): seq<Row> {
    if rows == [] then []
    else if rows[0].id == id then DeleteRow(rows[1..], id)
    else [rows[0]] + DeleteRow(rows[1..], id)
  }

  function InsertRow(rows: seq<Row>, p: NewProfile, now: int): seq<Row> {
    rows + [Row(MaxId(rows) + 1, p.fingerprint, p.version, Pending, p.dslBlob, None, now)]
  }

  predicate SameVersion(r: Row, p: NewProfile) { r.fingerprint == p.fingerprint && r.version == p.version }

  predicate Taken(rows: seq<Row>, fp: string, version: string) {
    exists i :: 0 <= i < |rows| && rows[i].fingerprint == fp && rows[i].version == version
  }

  predicate SupersededOf(r: Row, fp: string) { r.fingerprint == fp && r.status == Superseded }

  predicate ActiveOf(r: Row, fp: string) { r.fingerprint == fp && r.status == Active }

  /** `k` is the position of a most recent row among the first `n` that satisfy `p`, if there is one. */
  ghost predicate LatestOf(rows: seq<Row>, n: nat, p: Row -> bool, k: Option<nat>)
    requires n <= |rows|
  {
    if k.None? then forall j :: 0 <= j < n ==> !p(rows[j])
    else
      k.value < n && p(rows[k.value]) &&
      forall j :: 0 <= j < n && p(rows[j]) ==> rows[j].createdAt <= rows[k.value].createdAt
  }

  /** Row `id` is a most recent superseded row of the fingerprint. */
  ghost predicate IsNewestSuperseded(rows: seq<Row>, fp: string, id: int) {
    exists k :: 0 <= k < |rows| && rows[k].id == id && SupersededOf(rows[k], fp) &&
      forall j :: 0 <= j < |rows| && SupersededOf(rows[j], fp) ==> rows[j].createdAt <= rows[k].createdAt
  }

  // ---- The table invariant ----

  ghost predicate UniqueIds(rows: seq<Row>) { forall i, j :: 0 <= i < j < |rows| ==> rows[i].id != rows[j].id }

  ghost predicate OneActive(rows: seq<Row>) {
    forall i, j :: 0 <= i < j < |rows| && rows[i].status == Active && rows[j].status == Active ==>
      rows[i].fingerprint != rows[j].fingerprint
  }

  ghost predicate Valid(rows: seq<Row>) { UniqueIds(rows) && OneActive(rows) }

  class Repo {
    var rows: seq<Row>

    constructor ()
      ensures rows == []
    {
      rows := [];
    }

    method InsertPending(p: NewProfile, now: int) returns (r: Result<int>)
      modifies this
      ensures r == if Taken(old(rows), p.fingerprint, p.version) then UniqueViolation else Ok(MaxId(old(rows)) + 1)
      ensures r.Ok? || r.UniqueViolation?
      ensures r.UniqueViolation? <==> exists i :: 0 <= i < |old(rows)| && SameVersion(old(rows)[i], p)
      ensures r.Ok? ==> r.value == 1 || exists i :: 0 <= i < |old(rows)| && old(rows)[i].id == r.value - 1
      ensures r.Ok? ==>
        && rows == old(rows) + [Row(r.value, p.fingerprint, p.version, Pending, p.dslBlob, None, now)]
        && forall i :: 0 <= i < |old(rows)| ==> old(rows)[i].id < r.value
      ensures rows == if r.Ok? then InsertRow(old(rows), p, now) else old(rows)
    {
      assert Taken(rows, p.fingerprint, p.version) <==> exists i :: 0 <= i < |rows| && SameVersion(rows[i], p);
      if Taken(rows, p.fingerprint, p.version) {
        return UniqueViolation;
      }
      var id := MaxId(rows) + 1;
      rows := InsertRow(rows, p, now);
      return Ok(id);
    }

    /** One transaction: read the fingerprint, supersede the others, activate the row. */
    method Promote(id: int) returns (r: Result<()>)
      modifies this
      ensures r.Ok? <==> FindId(old(rows), id) < |old(rows)|
      ensures r.Ok? || r.NotFound?
      ensures var k := FindId(old(rows), id);
        rows == if r.Ok? then ActivateRows(old(rows), old(rows)[k].fingerprint, id) else old(rows)
    {
      var k := FindId(rows, id);
      if k == |rows| {
        return NotFound;
      }
      var fp := rows[k].fingerprint;
      ActivateIsTwoUpdates(rows, fp, id);
      rows := SupersedeRows(rows, fp, id);
      rows := SetStatusRows(rows, id, Active);
      return Ok(());
    }

    method SetStatus(id: int, s: Status)
      modifies this
      ensures rows == SetStatusRows(old(rows), id, s)
    {
      rows := SetStatusRows(rows, id, s);
    }

    method ActiveFor(fp: string) returns (r: Option<Row>)
      ensures r.None? <==> forall i :: 0 <= i < |rows| && rows[i].fingerprint == fp ==> rows[i].status != Active
      ensures r.Some? ==>
        && r.value in rows && r.value.fingerprint == fp && r.value.status == Active
        && forall i :: 0 <= i < |rows| && rows[i].fingerprint == fp && rows[i].status == Active ==>
                         rows[i].createdAt <= r.value.createdAt
    {
      var k := Latest(x => ActiveOf(x, fp));
      r := if k.Some? then Some(rows[k.value]) else None;
    }

    /** ORDER BY created_at DESC LIMIT 1 over the rows a condition selects. */
    method Latest(p: Row -> bool) returns (k: Option<nat>)
      ensures LatestOf(rows, |rows|, p, k)
    {
      k := None;
      for i := 0 to |rows|
        invariant LatestOf(rows, i, p, k)
      {
        if p(rows[i]) && (k.None? || rows[k.value].createdAt < rows[i].createdAt) {
          k := Some(i);
        }
      }
    }

    /** One transaction: pick a most recent superseded row, supersede the active one, activate the pick. */
    method Rollback(fp: string) returns (r: Option<int>)
      modifies this
      ensures r.None? <==> forall i :: 0 <= i < |old(rows)| ==> !SupersededOf(old(rows)[i], fp)
      ensures r.Some? ==> IsNewestSuperseded(old(rows), fp, r.value)
      ensures rows == if r.Some? then ActivateRows(old(rows), fp, r.value) else old(rows)
    {
      var best := Latest(x => SupersededOf(x, fp));
      if best.None? {
        return None;
      }
      var target := rows[best.value].id;
      ActivateIsTwoUpdates(rows, fp, target);
      rows := SupersedeRows(rows, fp, target);
      rows := SetStatusRows(rows, target, Active);
      return Some(target);
    }

    /** Delete a row and hand back the blobs it named, for the caller to release. `referenced` is whether a
        session or an event refers to the row: the foreign keys then refuse. */
    method Purge(id: int, referenced: bool) returns (r: Result<Named>)
      modifies this
      ensures var k := FindId(old(rows), id);
        r == if k == |old(rows)| then Ok(Named(None, None))
             else if referenced then ForeignKeyViolation
             else Ok(Named(Some(old(rows)[k].dslBlob), old(rows)[k].rubricBlob))
      ensures rows == if r.Ok? then DeleteRow(old(rows), id) else old(rows)
    {
      var k := FindId(rows, id);
      var named := Named(None, None);
      if k < |rows| {
        named := Named(Some(rows[k].dslBlob), rows[k].rubricBlob);
        if referenced {
          return ForeignKeyViolation;
        }
      }
      rows := DeleteRow(rows, id);
      return Ok(named);
    }
  }

  // ---- Every run keeps one active profile per fingerprint ----

  datatype Op =
    | Insert(p: NewProfile, now: int)
    | Promote(id: int)
    | Quarantine(id: int)
    | Rollback(fp: string)
    | Purge(id: int, referenced: bool)

  /** One store call. A rollback may pick any most recent superseded row. */
  ghost predicate Next(rows: seq<Row>, op: Op, rows': seq<Row>) {
    match op
    case Insert(p, now) =>
      rows' == if Taken(rows, p.fingerprint, p.version) then rows else InsertRow(rows, p, now)
    case Promote(id) =>
      var k := FindId(rows, id);
      rows' == if k < |rows| then ActivateRows(rows, rows[k].fingerprint, id) else rows
    case Quarantine(id) => rows' == SetStatusRows(rows, id, Quarantined)
    case Rollback(fp) =>
      if exists id :: IsNewestSuperseded(rows, fp, id)
      then exists id :: IsNewestSuperseded(rows, fp, id) && rows' == ActivateRows(rows, fp, id)
      else rows' == rows
    case Purge(id, referenced) =>
      rows' == if referenced && FindId(rows, id) < |rows| then rows else DeleteRow(rows, id)
  }

  ghost predicate IsRun(states: seq<seq<Row>>, ops: seq<Op>) {
    && |states| == |ops| + 1 && states[0] == []
    && forall i :: 0 <= i < |ops| ==> Next(states[i], ops[i], states[i + 1])
  }

  /** Activating a row of the fingerprint leaves it the only active one. */
  lemma ActivateKeepsValid(rows: seq<Row>, fp: string, id: int)
    requires Valid(rows)
    requires forall i :: 0 <= i < |rows| && rows[i].id == id ==> rows[i].fingerprint == fp
    ensures Valid(ActivateRows(rows, fp, id))
  {
  }

  /** Row identifiers are unique, so a promoted row is the one that is found. */
  lemma PromoteKeepsValid(rows: seq<Row>, id: int)
    requires Valid(rows) && FindId(rows, id) < |rows|
    ensures Valid(ActivateRows(rows, rows[FindId(rows, id)].fingerprint, id))
  {
    ActivateKeepsValid(rows, rows[FindId(rows, id)].fingerprint, id);
  }

  lemma {:induction false} DeleteTakes(rows: seq<Row>, id: int)
    ensures forall r :: r in DeleteRow(rows, id) <==> r in rows && r.id != id
  {
    if rows != [] { DeleteTakes(rows[1..], id); }
  }

  /** The rows of the rest, behind a first row that none of them clashes with. */
  lemma ValidCons(r: Row, rest: seq<Row>)
    requires Valid(rest)
    requires forall x :: x in rest ==>
      x.id != r.id && (x.status == Active && r.status == Active ==> x.fingerprint != r.fingerprint)
    ensures Valid([r] + rest)
  {
  }

  lemma ValidTail(rows: seq<Row>)
    requires Valid(rows) && rows != []
    ensures Valid(rows[1..])
    ensures forall x :: x in rows[1..] ==>
      x.id != rows[0].id && (x.status == Active && rows[0].status == Active ==> x.fingerprint != rows[0].fingerprint)
  {
    var rest := rows[1..];
    assert forall i :: 0 <= i < |rest| ==> rest[i] == rows[i + 1];
  }

  lemma {:induction false} DeleteKeepsValid(rows: seq<Row>, id: int)
    requires Valid(rows)
    ensures Valid(DeleteRow(rows, id))
  {
    if rows != [] {
      ValidTail(rows);
      hide Valid;
      DeleteKeepsValid(rows[1..], id);
      DeleteTakes(rows[1..], id);
      if rows[0].id != id { ValidCons(rows[0], DeleteRow(rows[1..], id)); }
    }
  }

  lemma StepKeepsValid(rows: seq<Row>, op: Op, rows': seq<Row>)
    requires Valid(rows) && Next(rows, op, rows')
    ensures Valid(rows')
  {
    match op
    case Promote(id) =>
      var k := FindId(rows, id);
      if k < |rows| { ActivateKeepsValid(rows, rows[k].fingerprint, id); }
    case Rollback(fp) =>
      if exists id :: IsNewestSuperseded(rows, fp, id) {
        var id :| IsNewestSuperseded(rows, fp, id) && rows' == ActivateRows(rows, fp, id);
        ActivateKeepsValid(rows, fp, id);
      }
    case Purge(id, _) => DeleteKeepsValid(rows, id);
    case Insert(p, now) =>
    case Quarantine(id) =>
  }

  /** Over every run of insert, promote, quarantine, rollback and purge: ids stay unique and each
      fingerprint has at most one active profile. */
  lemma {:induction false} RunsKeepOneActive(states: seq<seq<Row>>, ops: seq<Op>, n: nat)
    requires IsRun(states, ops) && n < |states|
    ensures Valid(states[n])
  {
    if n > 0 {
      RunsKeepOneActive(states, ops, n - 1);
      StepKeepsValid(states[n - 1], ops[n - 1], states[n]);
    }
  }

  // ---- Versions ----

  /** UNIQUE(fingerprint, version). */
  ghost predicate VersionsUnique(rows: seq<Row>) {
    forall i, j :: 0 <= i < j < |rows| && rows[i].fingerprint == rows[j].fingerprint ==>
      rows[i].version != rows[j].version
  }

  lemma {:induction false} DeleteKeepsVersions(rows: seq<Row>, id: int)
    requires VersionsUnique(rows)
    ensures VersionsUnique(DeleteRow(rows, id))
  {
    if rows != [] {
      var rest := rows[1..];
      assert forall i :: 0 <= i < |rest| ==> rest[i] == rows[i + 1];
      DeleteKeepsVersions(rest, id);
      DeleteTakes(rest, id);
      var out := DeleteRow(rest, id);
      forall i | 0 <= i < |out| && out[i].fingerprint == rows[0].fingerprint
        ensures out[i].version != rows[0].version
      {
        assert out[i] in rest;
      }
    }
  }

  predicate SameButStatus(a: Row, b: Row) { a == b.(status := a.status) }

  lemma StepKeepsVersions(rows: seq<Row>, op: Op, rows': seq<Row>)
    requires VersionsUnique(rows) && Next(rows, op, rows')
    ensures VersionsUnique(rows')
  {
    match op
    case Purge(id, _) => DeleteKeepsVersions(rows, id);
    case Insert(p, _) =>
      assert forall i :: 0 <= i < |rows| ==> rows'[i] == rows[i];
    case Promote(_) =>
      assert |rows'| == |rows| && forall i :: 0 <= i < |rows| ==> SameButStatus(rows'[i], rows[i]);
    case Quarantine(_) =>
      assert |rows'| == |rows| && forall i :: 0 <= i < |rows| ==> SameButStatus(rows'[i], rows[i]);
    case Rollback(_) =>
      assert |rows'| == |rows| && forall i :: 0 <= i < |rows| ==> SameButStatus(rows'[i], rows[i]);
  }

  /** Over every run no two rows share fingerprint and version. */
  lemma {:induction false} RunsKeepVersions(states: seq<seq<Row>>, ops: seq<Op>, n: nat)
    requires IsRun(states, ops) && n < |states|
    ensures VersionsUnique(states[n])
  {
    hide Next;
    if n == 0 {
      assert states[n] == [];
    } else {
      RunsKeepVersions(states, ops, n - 1);
      StepKeepsVersions(states[n - 1], ops[n - 1], states[n]);
    }
  }

  /** A purge deletes the row with that id, unless another table refers to it, and no other. */
  lemma PurgeTakes(rows: seq<Row>, id: int, referenced: bool, rows': seq<Row>)
    requires Next(rows, Purge(id, referenced), rows')
    ensures forall r :: r in rows' <==> r in rows && (r.id != id || referenced)
  {
    DeleteTakes(rows, id);
    assert forall r :: r in rows && r.id == id ==> FindId(rows, id) < |rows|;
  }

  // ---- Nothing becomes active that was not promoted ----

  ghost predicate Holds(rows: seq<Row>, id: int) { exists k :: 0 <= k < |rows| && rows[k].id == id }

  /** A row with that id is active, or was. */
  ghost predicate LiveIn(rows: seq<Row>, id: int) {
    exists k :: 0 <= k < |rows| && rows[k].id == id && rows[k].status in {Active, Superseded}
  }

  /** The new statuses, row by row; nothing else about a row changes. */
  lemma ActivatedStatuses(rows: seq<Row>, fp: string, id: int, k: nat)
    requires k < |rows|
    ensures var out := ActivateRows(rows, fp, id);
      && |out| == |rows| && out[k] == rows[k].(status := out[k].status)
      && out[k].status ==
           (if rows[k].id == id then Active
            else if rows[k].fingerprint == fp && rows[k].status == Active then Superseded
            else rows[k].status)
  {
  }

  /** Only a promotion brings a row to life: a rollback picks one that was active before. */
  lemma StepRevives(rows: seq<Row>, op: Op, rows': seq<Row>, id: int)
    requires Next(rows, op, rows') && LiveIn(rows', id)
    ensures LiveIn(rows, id) || (op == Promote(id) && Holds(rows, id))
  {
    match op
    case Purge(gone, _) =>
      DeleteTakes(rows, gone);
      var k :| 0 <= k < |rows'| && rows'[k].id == id && rows'[k].status in {Active, Superseded};
      assert rows'[k] in rows;
    case Insert(_, _) =>
    case Promote(chosen) =>
      var k := FindId(rows, chosen);
      if k < |rows| { ActivateRevives(rows, rows[k].fingerprint, chosen, id); }
    case Quarantine(_) =>
    case Rollback(fp) =>
      if chosen :| IsNewestSuperseded(rows, fp, chosen) && rows' == ActivateRows(rows, fp, chosen) {
        ActivateRevives(rows, fp, chosen, id);
      }
  }

  lemma ActivateRevives(rows: seq<Row>, fp: string, chosen: int, id: int)
    requires LiveIn(ActivateRows(rows, fp, chosen), id)
    ensures id == chosen || LiveIn(rows, id)
  {
  }

  /** `ops[i]` promoted the row, which has been active or superseded ever since. */
  ghost predicate PromotedAt(states: seq<seq<Row>>, ops: seq<Op>, n: nat, id: int, i: int)
    requires |states| == |ops| + 1 && n < |states|
  {
    && 0 <= i < n && ops[i] == Promote(id) && Holds(states[i], id)
    && forall j :: i < j <= n ==> LiveIn(states[j], id)
  }

  /** In every run, a row that is active or superseded was promoted at some point, and has not been gone, or
      anything else, since. */
  lemma {:induction false} LiveRowsWerePromoted(states: seq<seq<Row>>, ops: seq<Op>, n: nat, id: int)
    requires IsRun(states, ops) && n < |states|
    ensures LiveIn(states[n], id) <==> exists i :: PromotedAt(states, ops, n, id, i)
  {
    hide Next, LiveIn, Holds;
    if n == 0 {
      assert !LiveIn(states[0], id) by { NothingLives(id); }
    } else if LiveIn(states[n], id) {
      StepRevives(states[n - 1], ops[n - 1], states[n], id);
      LiveRowsWerePromoted(states, ops, n - 1, id);
      if LiveIn(states[n - 1], id) {
        var i :| PromotedAt(states, ops, n - 1, id, i);
        assert PromotedAt(states, ops, n, id, i);
      } else {
        assert PromotedAt(states, ops, n, id, n - 1);
      }
    }
  }

  lemma NothingLives(id: int)
    ensures !LiveIn([], id)
  {
  }

  /** A row that no operation of the run promoted is not active. */
  lemma NeverPromotedNeverActive(states: seq<seq<Row>>, ops: seq<Op>, n: nat, k: nat)
    requires IsRun(states, ops) && n < |states| && k < |states[n]|
    requires forall i :: 0 <= i < n ==> ops[i] != Promote(states[n][k].id)
    ensures states[n][k].status != Active && states[n][k].status != Superseded
  {
    hide Next;
    LiveRowsWerePromoted(states, ops, n, states[n][k].id);
  }

  /** `ops[i]` inserted the row: same fields, whatever its status now, and it has been there ever since. */
  ghost predicate InsertedAt(states: seq<seq<Row>>, ops: seq<Op>, n: nat, r: Row, i: int)
    requires |states| == |ops| + 1 && n < |states|
  {
    && 0 <= i < n && ops[i].Insert?
    && r == Row(r.id, ops[i].p.fingerprint, ops[i].p.version, r.status, ops[i].p.dslBlob, None, ops[i].now)
    && !Holds(states[i], r.id) && forall j :: i < j <= n ==> Holds(states[j], r.id)
  }

  /** The row a row was before the step, or that it was just inserted, as pending. */
  lemma StepKeepsFields(rows: seq<Row>, op: Op, rows': seq<Row>, k: nat)
    requires Next(rows, op, rows') && k < |rows'|
    ensures (exists j :: 0 <= j < |rows| && SameButStatus(rows'[k], rows[j])) ||
            (op.Insert? && !Holds(rows, rows'[k].id) &&
             rows'[k] == Row(rows'[k].id, op.p.fingerprint, op.p.version, Pending, op.p.dslBlob, None, op.now))
  {
    match op
    case Purge(gone, _) =>
      DeleteTakes(rows, gone);
      var j :| 0 <= j < |rows| && rows[j] == rows'[k];
      assert SameButStatus(rows'[k], rows[j]);
    case Insert(_, _) =>
      assert k < |rows| ==> SameButStatus(rows'[k], rows[k]);
    case Promote(_) =>
      assert SameButStatus(rows'[k], rows[k]);
    case Quarantine(_) =>
      assert SameButStatus(rows'[k], rows[k]);
    case Rollback(_) =>
      assert SameButStatus(rows'[k], rows[k]);
  }

  /** In every run, each row of the table is one that was inserted, with the caller's fields and no rubric; a
      row of that id has been in the table ever since. */
  lemma {:induction false} RowsWereInserted(states: seq<seq<Row>>, ops: seq<Op>, n: nat, k: nat)
    requires IsRun(states, ops) && n < |states| && k < |states[n]|
    ensures exists i :: InsertedAt(states, ops, n, states[n][k], i)
  {
    hide Next;
    var before, r := states[n - 1], states[n][k];
    StepKeepsFields(before, ops[n - 1], states[n], k);
    if j :| 0 <= j < |before| && SameButStatus(r, before[j]) {
      RowsWereInserted(states, ops, n - 1, j);
      var i :| InsertedAt(states, ops, n - 1, before[j], i);
      assert InsertedAt(states, ops, n, r, i);
    } else {
      assert InsertedAt(states, ops, n, r, n - 1);
    }
  }

  /** Setting a status directly keeps the invariant exactly when it does not add a second active row. */
  lemma SetStatusKeepsOneActiveIff(rows: seq<Row>, k: nat, s: Status)
    requires Valid(rows) && k < |rows|
    ensures OneActive(SetStatusRows(rows, rows[k].id, s)) <==>
      s != Active ||
      forall j :: 0 <= j < |rows| && j != k ==> !ActiveOf(rows[j], rows[k].fingerprint)
  {
    var out := SetStatusRows(rows, rows[k].id, s);
    assert forall j :: 0 <= j < |rows| && j != k ==> out[j] == rows[j];
    assert out[k] == rows[k].(status := s);
  }

  // ---- Rollback ----

  /** Rollback revives a superseded row, and touches no quarantined or pending row. */
  lemma RollbackRevivesSuperseded(rows: seq<Row>, fp: string, id: int)
    requires Valid(rows) && IsNewestSuperseded(rows, fp, id)
    ensures var out := ActivateRows(rows, fp, id);
      && (forall k :: 0 <= k < |rows| && out[k].status == Active && out[k].fingerprint == fp ==>
            rows[k].id == id && rows[k].status == Superseded)
      && (forall k :: 0 <= k < |rows| && rows[k].status in {Quarantined, Pending} ==> out[k] == rows[k])
      && (forall k :: 0 <= k < |rows| && rows[k].fingerprint != fp ==> out[k] == rows[k])
  {
  }

  ghost predicate DistinctTimes(rows: seq<Row>, fp: string) {
    forall i, j :: 0 <= i < j < |rows| && rows[i].fingerprint == fp && rows[j].fingerprint == fp ==>
      rows[i].createdAt != rows[j].createdAt
  }

  /** The table after a rollback of row `t` from active row `a`: the two swap statuses. */
  predicate Swapped(rows: seq<Row>, mid: seq<Row>, a: nat, t: nat)
    requires a < |rows| && t < |rows|
  {
    && |mid| == |rows| && mid[t] == rows[t].(status := Active) && mid[a] == rows[a].(status := Superseded)
    && forall j :: 0 <= j < |rows| && j != t && j != a ==> mid[j] == rows[j]
  }

  lemma FirstRollback(rows: seq<Row>, fp: string, a: nat, t: nat)
    requires Valid(rows) && a < |rows| && ActiveOf(rows[a], fp) && t < |rows| && SupersededOf(rows[t], fp)
    ensures Swapped(rows, ActivateRows(rows, fp, rows[t].id), a, t)
  {
  }

  /** The second rollback undoes the first exactly when it picks the row that was active. */
  lemma SecondRollback(rows: seq<Row>, mid: seq<Row>, fp: string, a: nat, t: nat, k: nat)
    requires Valid(rows) && a < |rows| && ActiveOf(rows[a], fp) && t < |rows| && SupersededOf(rows[t], fp)
    requires Swapped(rows, mid, a, t) && k < |rows| && SupersededOf(mid[k], fp)
    ensures ActivateRows(mid, fp, mid[k].id) == rows <==> k == a
  {
    var out := ActivateRows(mid, fp, mid[k].id);
    assert out[k].status == Active;
    if k == a {
      assert forall j :: 0 <= j < |rows| ==> out[j] == rows[j];
    } else {
      assert out[a].status == Superseded;
    }
  }

  /** Two rollbacks restore every status exactly when the active row is newer than every superseded row
      but the newest. */
  lemma TwoRollbacksIff(rows: seq<Row>, fp: string, a: nat, t: nat, second: int)
    requires Valid(rows) && DistinctTimes(rows, fp)
    requires a < |rows| && rows[a].fingerprint == fp && rows[a].status == Active
    requires t < |rows| && SupersededOf(rows[t], fp)
    requires forall j :: 0 <= j < |rows| && SupersededOf(rows[j], fp) ==> rows[j].createdAt <= rows[t].createdAt
    requires IsNewestSuperseded(ActivateRows(rows, fp, rows[t].id), fp, second)
    ensures IsNewestSuperseded(rows, fp, rows[t].id)
    ensures ActivateRows(ActivateRows(rows, fp, rows[t].id), fp, second) == rows <==>
      forall j :: 0 <= j < |rows| && j != t && SupersededOf(rows[j], fp) ==> rows[j].createdAt < rows[a].createdAt
  {
    var mid := ActivateRows(rows, fp, rows[t].id);
    FirstRollback(rows, fp, a, t);
    var k :| 0 <= k < |mid| && mid[k].id == second && SupersededOf(mid[k], fp) &&
      forall j :: 0 <= j < |mid| && SupersededOf(mid[j], fp) ==> mid[j].createdAt <= mid[k].createdAt;
    SecondRollback(rows, mid, fp, a, t, k);
    hide ActivateRows, Valid;
    assert SupersededOf(mid[a], fp);
    forall j | 0 <= j < |rows| && j != t && SupersededOf(rows[j], fp)
      ensures SupersededOf(mid[j], fp) && j != a
    {
    }
  }
}
