/** The daily rollup table: one row per UTC date, bumped once per run. */
module GainDaily {
  import opened Text
  import opened CivilDate

  datatype Row = Row(runs: nat, rawBytes: int, compressedBytes: int, tokensSaved: int)

  /** One run: its time in seconds since the epoch and what it saved. */
  datatype Run = Run(now: nat, rawBytes: int, compressedBytes: int, tokensSaved: int)

  const EMPTY := Row(0, 0, 0, 0)

  function Add(row: Row, r: Run): Row {
    Row(row.runs + 1, row.rawBytes + r.rawBytes,
        row.compressedBytes + r.compressedBytes, row.tokensSaved + r.tokensSaved)
  }

  function Day(r: Run): nat { r.now / 86400 }

  /** The first day of the year 2^31. */
  const FIRST_WRAPPED_DAY := 784351576777

  predicate InRange(day: nat) { day < FIRST_WRAPPED_DAY }

  lemma FirstWrapped()
    ensures CivilFromDays(FIRST_WRAPPED_DAY) == Date(0x8000_0000, 1, 1)
  {
    hide CivilFromDays;
    var first := Date(0x8000_0000, 1, 1);
    FirstWrappedNumber();
    hide DayNumber;
    CivilOfDayNumber(first);
  }

  lemma FirstWrappedNumber()
    ensures DayNumber(Date(0x8000_0000, 1, 1)) == FIRST_WRAPPED_DAY
  {
    assert 0x8000_0000 - 1 == 400 * 5368709 + 47 && YearStart(47) == 17166;
  }

  /** The days in range are exactly those whose year fits the 32-bit year of the date key. */
  lemma InRangeIff(day: nat)
    ensures InRange(day) <==> CivilFromDays(day).year < 0x8000_0000
  {
    hide CivilFromDays;
    FirstWrapped();
    CivilIsGregorian(day);
    if day < FIRST_WRAPPED_DAY {
      CivilKeepsOrder(day, FIRST_WRAPPED_DAY);
    } else if FIRST_WRAPPED_DAY < day {
      CivilKeepsOrder(FIRST_WRAPPED_DAY, day);
    }
  }

  lemma CastIsPlausible(day: int)
    ensures PlausibleDate(CivilFromDaysCast(day))
  {
    hide CivilFromDays;
    CivilIsGregorian(day);
  }

  function KeyOf(day: nat): string {
    CastIsPlausible(day);
    DateKey(CivilFromDaysCast(day))
  }

  /** Two days get the same row if and only if they have the same month and day in years that differ by a
      multiple of 2^32. */
  predicate ShareRow(a: nat, b: nat) { SameCast(CivilFromDays(a), CivilFromDays(b)) }

  lemma KeysMergeIff(a: nat, b: nat)
    ensures KeyOf(a) == KeyOf(b) <==> ShareRow(a, b)
  {
    hide CivilFromDays, DateKey, CivilFromDaysCast, SameCast;
    CastIsPlausible(a);
    CastIsPlausible(b);
    CastAgreeIff(a, b);
    if KeyOf(a) == KeyOf(b) { DateKeyInjective(CivilFromDaysCast(a), CivilFromDaysCast(b)); }
  }

  lemma {:induction false} SinceEpoch(day: nat)
    ensures CivilFromDays(day).year >= 1970
  {
    hide CivilFromDays;
    CivilIsGregorian(0);
    if day > 0 { CivilKeepsOrder(0, day); }
  }

  /** Two days whose years fit 32 bits share a row only if they are the same day. */
  lemma KeysDistinct(a: nat, b: nat)
    requires InRange(a) && InRange(b)
    ensures ShareRow(a, b) ==> a == b
  {
    hide CivilFromDays;
    SinceEpoch(a);
    SinceEpoch(b);
    InRangeIff(a);
    InRangeIff(b);
    if a < b { CivilKeepsOrder(a, b); }
    if b < a { CivilKeepsOrder(b, a); }
  }

  /** INSERT ... ON CONFLICT(date) DO UPDATE. */
  function Upsert(table: map<string, Row>, r: Run): map<string, Row> {
    var key := KeyOf(Day(r));
    table[key := Add(if key in table then table[key] else EMPTY, r)]
  }

  class Gain {
    var table: map<string, Row>

    constructor ()
      ensures table == map[]
    {
      table := map[];
    }

    method Bump(r: Run)
      modifies this
      ensures table == Upsert(old(table), r)
    {
      hide KeyOf;
      var date := KeyOf(Day(r));
      if date in table {
        var row := table[date];
        table := table[date := Row(row.runs + 1, row.rawBytes + r.rawBytes,
                                   row.compressedBytes + r.compressedBytes, row.tokensSaved + r.tokensSaved)];
      } else {
        table := table[date := Row(1, r.rawBytes, r.compressedBytes, r.tokensSaved)];
      }
    }
  }

  /** The table after a history of runs. */
  function Rollup(runs: seq<Run>): map<string, Row> {
    if runs == [] then map[] else Upsert(Rollup(runs[..|runs| - 1]), runs[|runs| - 1])
  }

  /** The total of the runs on days that share a row with this one. */
  function RowTotal(runs: seq<Run>, day: nat): Row {
    if runs == [] then EMPTY
    else
      var t, r := RowTotal(runs[..|runs| - 1], day), runs[|runs| - 1];
      if ShareRow(Day(r), day) then Add(t, r) else t
  }

  /** The total of the runs of one UTC day. */
  function DayTotal(runs: seq<Run>, day: nat): Row {
    if runs == [] then EMPTY
    else
      var t, r := DayTotal(runs[..|runs| - 1], day), runs[|runs| - 1];
      if Day(r) == day then Add(t, r) else t
  }

  /** The sum of one column over the runs that fall on chosen days. */
  function ColumnSum(runs: seq<Run>, chosen: nat -> bool, amount: Run -> int): int {
    if runs == [] then 0
    else
      var sum, r := ColumnSum(runs[..|runs| - 1], chosen, amount), runs[|runs| - 1];
      if chosen(r.now / 86400) then sum + amount(r) else sum
  }

  function One(): Run -> int { (r: Run) => 1 }

  function Raw(): Run -> int { (r: Run) => r.rawBytes }

  function Squeezed(): Run -> int { (r: Run) => r.compressedBytes }

  function Saved(): Run -> int { (r: Run) => r.tokensSaved }

  /** Each column of a total is the sum of that field over the runs it counts. */
  ghost predicate SumsOf(row: Row, runs: seq<Run>, chosen: nat -> bool) {
    && row.runs == ColumnSum(runs, chosen, One())
    && row.rawBytes == ColumnSum(runs, chosen, Raw())
    && row.compressedBytes == ColumnSum(runs, chosen, Squeezed())
    && row.tokensSaved == ColumnSum(runs, chosen, Saved())
  }

  lemma {:induction false} TotalsAddUp(runs: seq<Run>, day: nat)
    ensures SumsOf(DayTotal(runs, day), runs, (d: nat) => d == day)
    ensures SumsOf(RowTotal(runs, day), runs, (d: nat) => ShareRow(d, day))
  {
    hide ShareRow;
    if runs != [] { TotalsAddUp(runs[..|runs| - 1], day); }
  }

  /** A day is 86400 seconds. */
  lemma DayBounds(r: Run)
    ensures 86400 * Day(r) <= r.now < 86400 * (Day(r) + 1)
  {
  }

  /** After any history, in any order of times, the row of a day is the total of exactly the runs on days
      that share its row, and there is no row without such a run. */
  lemma {:induction false} RollupIsPerRow(runs: seq<Run>, day: nat)
    ensures KeyOf(day) in Rollup(runs) <==> exists i :: 0 <= i < |runs| && ShareRow(Day(runs[i]), day)
    ensures KeyOf(day) in Rollup(runs) ==> Rollup(runs)[KeyOf(day)] == RowTotal(runs, day)
    ensures KeyOf(day) !in Rollup(runs) ==> RowTotal(runs, day) == EMPTY
  {
    hide KeyOf, Day, ShareRow;
    if runs != [] {
      var init, r := runs[..|runs| - 1], runs[|runs| - 1];
      RollupIsPerRow(init, day);
      assert forall i :: 0 <= i < |init| ==> init[i] == runs[i];
      KeysMergeIff(Day(r), day);
    }
  }

  /** No run falls on another day that shares this day's row. */
  ghost predicate Unshared(runs: seq<Run>, day: nat) {
    forall i :: 0 <= i < |runs| ==> ShareRow(Day(runs[i]), day) ==> Day(runs[i]) == day
  }

  lemma ShareRowSelf(day: nat)
    ensures ShareRow(day, day)
  {
    hide CivilFromDays;
  }

  /** The runs a row counts are those of its own day exactly when no run falls on a day that shares it. */
  lemma {:induction false} RowIsDayIff(runs: seq<Run>, day: nat)
    ensures DayTotal(runs, day).runs <= RowTotal(runs, day).runs
    ensures RowTotal(runs, day).runs == DayTotal(runs, day).runs <==> Unshared(runs, day)
    ensures Unshared(runs, day) ==> RowTotal(runs, day) == DayTotal(runs, day)
  {
    hide Day, ShareRow;
    if runs != [] {
      var init, r := runs[..|runs| - 1], runs[|runs| - 1];
      RowIsDayIff(init, day);
      assert forall i :: 0 <= i < |init| ==> init[i] == runs[i];
      ShareRowSelf(day);
      assert Unshared(runs, day) <==> Unshared(init, day) && (ShareRow(Day(r), day) ==> Day(r) == day);
    }
  }

  /** As long as all years fit 32 bits no two UTC days are ever merged: the row of a day is the total of
      exactly that day's runs, and a day without runs has no row. */
  lemma RollupIsPerDay(runs: seq<Run>, day: nat)
    requires InRange(day) && forall i :: 0 <= i < |runs| ==> InRange(Day(runs[i]))
    ensures KeyOf(day) in Rollup(runs) <==> exists i :: 0 <= i < |runs| && Day(runs[i]) == day
    ensures KeyOf(day) in Rollup(runs) ==> Rollup(runs)[KeyOf(day)] == DayTotal(runs, day)
    ensures KeyOf(day) !in Rollup(runs) ==> DayTotal(runs, day) == EMPTY
  {
    hide KeyOf, Day, InRange, ShareRow;
    forall i | 0 <= i < |runs| ensures ShareRow(Day(runs[i]), day) <==> Day(runs[i]) == day {
      KeysDistinct(Day(runs[i]), day);
      ShareRowSelf(day);
    }
    RollupIsPerRow(runs, day);
    RowIsDayIff(runs, day);
  }
}
