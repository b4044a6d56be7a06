/**
 The availability-history backfill of server/scripts/backfill-availability-histories.ts: for each
 day in range and each volunteer, copy the latest earlier snapshot to 4 AM of that day.
 */
module AvailabilityBackfill {
  import opened Basics
  import opened MapSums

  type UserId = nat
  /** An instant. */
  type Time = int

  datatype Row = Row(start: nat, end: nat, timezone: string, weekday: nat)

  /** The snapshots of one volunteer: the rows recorded at each instant. */
  type History = map<Time, seq<Row>>
  type Table = map<UserId, History>

  ghost predicate ProperHistory(h: History) {
    forall t <- h :: h[t] != []
  }

  ghost predicate ProperTable(table: Table) {
    forall u <- table :: ProperHistory(table[u])
  }

  function HistoryOf(table: Table, user: UserId): History {
    if user in table then table[user] else map[]
  }

  /** m is the latest instant at or before t with a snapshot. */
  ghost predicate IsLatest(h: History, t: Time, m: Time) {
    m in h && m <= t && forall k <- h :: k <= t ==> k <= m
  }

  ghost predicate HasEarlier(h: History, t: Time) {
    exists k <- h :: k <= t
  }

  lemma {:induction false} LatestExists(h: History, t: Time)
    requires HasEarlier(h, t)
    ensures exists m :: IsLatest(h, t, m)
    decreases |h|
  {
    var m :| m in h && m <= t;
    if k :| k in h && m < k <= t {
      Smaller(h, m);
      assert k in h - {m};
      LatestExists(h - {m}, t);
      var n :| IsLatest(h - {m}, t, n);
      forall j <- h | j <= t ensures j <= n {
        assert j == m || j in h - {m};
      }
      assert IsLatest(h, t, n);
    } else {
      assert IsLatest(h, t, m);
    }
  }

  ghost function Latest(h: History, t: Time): (m: Time)
    requires HasEarlier(h, t)
    ensures IsLatest(h, t, m)
  {
    LatestExists(h, t);
    var m :| IsLatest(h, t, m);
    m
  }

  /** The rows inserted for a copy: every row takes the timezone of the first. */
  function Copy(rows: seq<Row>): (r: seq<Row>)
    ensures |r| == |rows|
  {
    seq(|rows|, i requires 0 <= i < |rows| => rows[i].(timezone := rows[0].timezone))
  }

  lemma CopyOfCopy(rows: seq<Row>)
    ensures Copy(Copy(rows)) == Copy(rows)
  {
  }

  /** The time slots of a copy are those of the original. */
  lemma CopyKeepsSlots(rows: seq<Row>, i: nat)
    requires i < |rows|
    ensures var c := Copy(rows)[i];
            (c.start, c.end, c.weekday) == (rows[i].start, rows[i].end, rows[i].weekday)
            && c.timezone == rows[0].timezone
  {
  }

  // ----- What the backfill is for -----

  /** Carry the last observation of `h` forward to each of `times` that `missed` does not hold for. */
  ghost function CarryForward(h: History, times: set<Time>, missed: set<Time>): (r: History)
    ensures h.Keys <= r.Keys
  {
    map t | t in h.Keys + times && (t in h || (t !in missed && HasEarlier(h, t)))
      :: if t in h then h[t] else Copy(h[Latest(h, t)])
  }

  lemma SameLatest(h: History, t: Time, a: Time, b: Time)
    requires IsLatest(h, t, a) && IsLatest(h, t, b)
    ensures a == b
  {
  }

  /** A history that already holds some copies carries forward the same observations. */
  lemma CopiesDoNotMatter(h: History, times: set<Time>, missed: set<Time>, t: Time)
    ensures var c := CarryForward(h, times, missed);
            && (HasEarlier(c, t) <==> HasEarlier(h, t))
            && (HasEarlier(h, t) && t !in c ==> Copy(c[Latest(c, t)]) == Copy(h[Latest(h, t)]))
  {
    var c := CarryForward(h, times, missed);
    if HasEarlier(c, t) {
      var k :| k in c && k <= t;
      if k !in h {
        var k' :| k' in h && k' <= k;
      }
    }
    if HasEarlier(h, t) {
      var k :| k in h && k <= t;
      assert k in c;
      var m, n := Latest(c, t), Latest(h, t);
      assert n in c && n <= m;
      if m in h {
        SameLatest(h, t, m, n);
      } else {
        SameLatest(h, m, Latest(h, m), n);
        CopyOfCopy(h[n]);
      }
    }
  }

  /** Two runs are one run that misses only what both missed; so a second run inserts nothing, and a
      run repeated after failures repairs them. */
  lemma {:induction false} TwoRuns(h: History, times: set<Time>, missed: set<Time>, missedAgain: set<Time>)
    ensures CarryForward(CarryForward(h, times, missed), times, missedAgain)
         == CarryForward(h, times, missed * missedAgain)
  {
    var once := CarryForward(h, times, missed);
    var twice, direct := CarryForward(once, times, missedAgain), CarryForward(h, times, missed * missedAgain);
    forall t ensures (t in twice <==> t in direct) && (t in twice ==> twice[t] == direct[t]) {
      CopiesDoNotMatter(h, times, missed, t);
    }
  }

  lemma SecondRunInsertsNothing(h: History, times: set<Time>, missed: set<Time>)
    ensures CarryForward(CarryForward(h, times, missed), times, missed) == CarryForward(h, times, missed)
  {
    TwoRuns(h, times, missed, missed);
    assert missed * missed == missed;
  }

  /** One more instant, later than all before it: what the loop does there is what carrying forward does. */
  lemma OneMoreTime(h: History, times: set<Time>, missed: set<Time>, t: Time)
    requires forall k <- times :: k < t
    ensures var c := CarryForward(h, times, missed);
            && (t in c <==> t in h)
            && CarryForward(h, times + {t}, missed)
               == if t in c || t in missed || !HasEarlier(c, t) then c else c[t := Copy(c[Latest(c, t)])]
  {
    var c := CarryForward(h, times, missed);
    CopiesDoNotMatter(h, times, missed, t);
    var next := CarryForward(h, times + {t}, missed);
    if t in c || t in missed || !HasEarlier(c, t) {
      assert next == c;
    } else {
      assert next == c[t := Copy(c[Latest(c, t)])];
    }
  }

  // ----- The table and the loop -----

  ghost function Sizes(h: History): map<Time, int> {
    map t | t in h :: |h[t]|
  }

  ghost function RowCounts(table: Table): map<UserId, int> {
    map u | u in table :: Sum(Sizes(table[u]))
  }

  ghost function RowCount(table: Table): int {
    Sum(RowCounts(table))
  }

  lemma InsertCounts(table: Table, user: UserId, t: Time, rows: seq<Row>)
    requires t !in HistoryOf(table, user)
    ensures RowCount(table[user := HistoryOf(table, user)[t := rows]]) == RowCount(table) + |rows|
  {
    var h := HistoryOf(table, user);
    var table' := table[user := h[t := rows]];
    assert Sizes(h[t := rows]) == Sizes(h)[t := |rows|];
    SumUpdate(Sizes(h), t, |rows|);
    assert RowCounts(table') == RowCounts(table)[user := Sum(Sizes(h[t := rows]))];
    SumUpdate(RowCounts(table), user, Sum(Sizes(h[t := rows])));
  }

  /** The 4 AM instants of the days in [from, until) of a calendar, which lists that instant for each day. */
  function Snapshots(calendar: seq<Time>, from: nat, until: nat): set<Time>
    requires until <= |calendar|
  {
    set day | from <= day < until :: calendar[day]
  }

  predicate Increasing(calendar: seq<Time>) {
    forall a, b :: 0 <= a < b < |calendar| ==> calendar[a] < calendar[b]
  }

  class HistoryTable {
    var table: Table

    constructor (table: Table)
      ensures this.table == table
    {
      this.table := table;
    }

    /** SELECT EXISTS */
    method HasSnapshot(user: UserId, t: Time) returns (found: bool)
      ensures found <==> t in HistoryOf(table, user)
    {
      found := t in HistoryOf(table, user);
    }

    /** The rows at MAX(recorded_at) among those at or before t. */
    method RowsAtOrBefore(user: UserId, t: Time) returns (rows: seq<Row>)
      requires ProperTable(table)
      ensures var h := HistoryOf(table, user);
              if HasEarlier(h, t) then rows == h[Latest(h, t)] && rows != [] else rows == []
    {
      var h := HistoryOf(table, user);
      var left, best := h, None;
      while left != map[]
        invariant forall k <- left :: k in h
        invariant best.Some? ==> best.value in h && best.value <= t
        invariant forall k <- h :: k <= t && k !in left ==> best.Some? && k <= best.value
        decreases |left|
      {
        var k := SomeKey(left);
        Smaller(left, k);
        left := left - {k};
        if k <= t && (best.None? || best.value < k) {
          best := Some(k);
        }
      }
      if best.None? {
        return [];
      }
      SameLatest(h, t, best.value, Latest(h, t));
      return h[best.value];
    }

    method InsertRows(user: UserId, t: Time, rows: seq<Row>) returns (inserted: nat)
      requires rows != [] && t !in HistoryOf(table, user) && ProperTable(table)
      modifies this
      ensures table == old(table)[user := HistoryOf(old(table), user)[t := Copy(rows)]]
      ensures inserted == |rows| && RowCount(table) == old(RowCount(table)) + inserted && ProperTable(table)
    {
      InsertCounts(table, user, t, Copy(rows));
      table := table[user := HistoryOf(table, user)[t := Copy(rows)]];
      inserted := |rows|;
    }

    /** One volunteer on one day; `fails` when a query throws, which the caller records and goes on. */
    method BackfillOne(user: UserId, t: Time, fails: bool) returns (inserted: nat)
      requires ProperTable(table)
      modifies this
      ensures ProperTable(table)
      ensures forall u: UserId :: u != user ==> HistoryOf(table, u) == HistoryOf(old(table), u)
      ensures var h := HistoryOf(old(table), user);
              HistoryOf(table, user)
              == if t in h || fails || !HasEarlier(h, t) then h else h[t := Copy(h[Latest(h, t)])]
      ensures RowCount(table) == old(RowCount(table)) + inserted
    {
      inserted := 0;
      if fails {
        return;
      }
      var alreadyHasSnapshot := HasSnapshot(user, t);
      if alreadyHasSnapshot {
        return;
      }
      var rows := RowsAtOrBefore(user, t);
      if rows == [] {
        return;
      }
      inserted := InsertRows(user, t, rows);
    }

    /** Each listed volunteer's history is carried forward to 4 AM of every day in range, and nothing
        else changes. */
    method Backfill(calendar: seq<Time>, fromDay: nat, toDay: nat, volunteerIds: seq<UserId>,
                    fails: set<(UserId, Time)>)
      returns (totalRowsInserted: nat, errors: seq<(Time, UserId)>)
      requires ProperTable(table) && Increasing(calendar) && fromDay <= |calendar| && toDay <= |calendar|
      modifies this
      ensures Progress(old(table), table, volunteerIds, Snapshots(calendar, fromDay, toDay), fails,
                       totalRowsInserted, errors)
    {
      hide CarriedFor;
      totalRowsInserted, errors := 0, [];
      ghost var start := table;
      NothingYet(start, volunteerIds, fails);
      if fromDay >= toDay {
        assert Snapshots(calendar, fromDay, toDay) == {};
        return;
      }
      var day := fromDay;
      assert Snapshots(calendar, fromDay, day) == {};
      while day < toDay
        invariant fromDay <= day <= toDay
        invariant Progress(start, table, volunteerIds, Snapshots(calendar, fromDay, day), fails, totalRowsInserted,
            errors)
      {
        day, totalRowsInserted, errors :=
          BackfillNext(calendar, fromDay, day, volunteerIds, fails, start, totalRowsInserted, errors);
      }
    }

    /** One day of the outer loop, and on to the next. */
    method BackfillNext(calendar: seq<Time>, ghost fromDay: nat, day: nat, volunteerIds: seq<UserId>,
                        fails: set<(UserId, Time)>, ghost start: Table, total: nat, errors: seq<(Time, UserId)>)
      returns (day': nat, total': nat, errors': seq<(Time, UserId)>)
      requires Increasing(calendar) && fromDay <= day < |calendar|
      requires Progress(start, table, volunteerIds, Snapshots(calendar, fromDay, day), fails, total, errors)
      modifies this
      ensures day' == day + 1
      ensures Progress(start, table, volunteerIds, Snapshots(calendar, fromDay, day'), fails, total', errors')
    {
      ghost var done := Snapshots(calendar, fromDay, day);
      SnapshotsStep(calendar, fromDay, day);
      var inserted, failed := BackfillDay(calendar[day], volunteerIds, fails);
      DayStep(start, old(table), table, volunteerIds, done, fails, calendar[day]);
      ErrorsAppend(errors, failed, done, calendar[day], volunteerIds, fails);
      day', total', errors' := day + 1, total + inserted, errors + failed;
    }

    /** The loop over volunteers; a repeated id finds its work done. */
    method BackfillDay(t: Time, volunteerIds: seq<UserId>, fails: set<(UserId, Time)>)
      returns (inserted: nat, errors: seq<(Time, UserId)>)
      requires ProperTable(table)
      modifies this
      ensures ProperTable(table)
      ensures forall u: UserId :: HistoryOf(table, u)
                == if u in volunteerIds then Stepped(HistoryOf(old(table), u), t, (u, t) in fails)
                   else HistoryOf(old(table), u)
      ensures inserted == RowCount(table) - old(RowCount(table))
      ensures ErrorsAre(errors, {t}, volunteerIds, fails)
    {
      inserted, errors := 0, [];
      for i := 0 to |volunteerIds|
        invariant ProperTable(table)
        invariant forall u: UserId :: HistoryOf(table, u)
                    == if u in volunteerIds[..i] then Stepped(HistoryOf(old(table), u), t, (u, t) in fails)
                       else HistoryOf(old(table), u)
        invariant inserted == RowCount(table) - old(RowCount(table))
        invariant forall s: Time, u: UserId :: (s, u) in errors <==> s == t && u in volunteerIds[..i] && (u, t) in fails
      {
        var user := volunteerIds[i];
        assert forall u: UserId :: u in volunteerIds[..i + 1] <==> u in volunteerIds[..i] || u == user;
        var n := BackfillOne(user, t, (user, t) in fails);
        inserted := inserted + n;
        if (user, t) in fails {
          errors := errors + [(t, user)];
        }
      }
    }
  }

  ghost function Stepped(h: History, t: Time, fails: bool): History {
    if t in h || fails || !HasEarlier(h, t) then h else h[t := Copy(h[Latest(h, t)])]
  }

  /** The instants at which a volunteer's queries fail. */
  ghost function Missed(fails: set<(UserId, Time)>, u: UserId): set<Time> {
    set f | f in fails && f.0 == u :: f.1
  }

  ghost predicate CarriedFor(start: Table, table: Table, volunteerIds: seq<UserId>, times: set<Time>,
                             fails: set<(UserId, Time)>, u: UserId) {
    HistoryOf(table, u)
    == if u in volunteerIds then CarryForward(HistoryOf(start, u), times, Missed(fails, u)) else HistoryOf(start, u)
  }

  /** Each listed volunteer's history is carried forward to `times`, and no other history changes. */
  ghost predicate CarriedTo(start: Table, table: Table, volunteerIds: seq<UserId>, times: set<Time>,
                            fails: set<(UserId, Time)>) {
    forall u: UserId :: CarriedFor(start, table, volunteerIds, times, fails, u)
  }

  /** The failures recorded are all there were. */
  ghost predicate ErrorsAre(errors: seq<(Time, UserId)>, times: set<Time>, volunteerIds: seq<UserId>,
                            fails: set<(UserId, Time)>) {
    forall t: Time, u: UserId :: (t, u) in errors <==> t in times && u in volunteerIds && (u, t) in fails
  }

  lemma SnapshotsStep(calendar: seq<Time>, from: nat, day: nat)
    requires Increasing(calendar) && from <= day < |calendar|
    ensures forall k <- Snapshots(calendar, from, day) :: k < calendar[day]
    ensures Snapshots(calendar, from, day + 1) == Snapshots(calendar, from, day) + {calendar[day]}
  {
  }

  lemma ErrorsAppend(errors: seq<(Time, UserId)>, failed: seq<(Time, UserId)>, times: set<Time>, t: Time,
                     volunteerIds: seq<UserId>, fails: set<(UserId, Time)>)
    requires ErrorsAre(errors, times, volunteerIds, fails) && ErrorsAre(failed, {t}, volunteerIds, fails)
    ensures ErrorsAre(errors + failed, times + {t}, volunteerIds, fails)
  {
    forall s: Time, u: UserId ensures (s, u) in errors + failed
        <==> s in times + {t} && u in volunteerIds && (u, s) in fails {
      assert (s, u) in errors + failed <==> (s, u) in errors || (s, u) in failed;
    }
  }

  ghost predicate Progress(start: Table, table: Table, volunteerIds: seq<UserId>, times: set<Time>,
                           fails: set<(UserId, Time)>, total: int, errors: seq<(Time, UserId)>) {
    && ProperTable(table)
    && CarriedTo(start, table, volunteerIds, times, fails)
    && total == RowCount(table) - RowCount(start)
    && ErrorsAre(errors, times, volunteerIds, fails)
  }

  lemma NothingYet(start: Table, volunteerIds: seq<UserId>, fails: set<(UserId, Time)>)
    requires ProperTable(start)
    ensures Progress(start, start, volunteerIds, {}, fails, 0, [])
  {
    forall u: UserId ensures CarriedFor(start, start, volunteerIds, {}, fails, u) {
      assert CarryForward(HistoryOf(start, u), {}, Missed(fails, u)) == HistoryOf(start, u);
    }
  }

  lemma DayStep(start: Table, before: Table, after: Table, volunteerIds: seq<UserId>, done: set<Time>,
                fails: set<(UserId, Time)>, t: Time)
    requires CarriedTo(start, before, volunteerIds, done, fails)
    requires forall k <- done :: k < t
    requires forall u: UserId :: HistoryOf(after, u)
               == if u in volunteerIds then Stepped(HistoryOf(before, u), t, (u, t) in fails) else HistoryOf(before, u)
    ensures CarriedTo(start, after, volunteerIds, done + {t}, fails)
  {
    forall u: UserId ensures CarriedFor(start, after, volunteerIds, done + {t}, fails, u) {
      assert CarriedFor(start, before, volunteerIds, done, fails, u);
      OneMoreTime(HistoryOf(start, u), done, Missed(fails, u), t);
    }
  }

  /** Equal histories, equal numbers of rows. */
  lemma SameHistoriesSameCount(a: Table, b: Table)
    requires forall u: UserId :: HistoryOf(a, u) == HistoryOf(b, u)
    ensures RowCount(a) == RowCount(b)
  {
    forall u: UserId ensures ValueOr0(RowCounts(a), u) == ValueOr0(RowCounts(b), u) {
      assert HistoryOf(a, u) == HistoryOf(b, u);
      assert Sizes(map[]) == map[];
    }
    SumsAgree(RowCounts(a), RowCounts(b));
  }

  /** What a second run finds where the first one failed, it fails at too. */
  lemma FailsAgain(fails: set<(UserId, Time)>, failsAgain: set<(UserId, Time)>, u: UserId)
    requires fails <= failsAgain
    ensures Missed(fails, u) * Missed(failsAgain, u) == Missed(fails, u)
  {
    forall t | t in Missed(fails, u) ensures t in Missed(failsAgain, u) {
      assert (u, t) in fails;
      assert (u, t) in failsAgain;
    }
  }

  /** Two runs over the same range: the second inserts no row, unless it gets through where the first one failed. */
  lemma SecondBackfillInsertsNothing(start: Table, once: Table, twice: Table, volunteerIds: seq<UserId>,
                                     times: set<Time>,
                                     fails: set<(UserId, Time)>, failsAgain: set<(UserId, Time)>, total: int,
                                         total': int,
                                     errors: seq<(Time, UserId)>, errors': seq<(Time, UserId)>)
    requires Progress(start, once, volunteerIds, times, fails, total, errors)
    requires Progress(once, twice, volunteerIds, times, failsAgain, total', errors')
    requires fails <= failsAgain
    ensures total' == 0 && forall u: UserId :: HistoryOf(twice, u) == HistoryOf(once, u)
  {
    hide CarryForward;
    forall u: UserId ensures HistoryOf(twice, u) == HistoryOf(once, u) {
      assert CarriedFor(start, once, volunteerIds, times, fails, u);
      assert CarriedFor(once, twice, volunteerIds, times, failsAgain, u);
      TwoRuns(HistoryOf(start, u), times, Missed(fails, u), Missed(failsAgain, u));
      FailsAgain(fails, failsAgain, u);
    }
    SameHistoriesSameCount(twice, once);
  }

  /** What a caller can rely on, with no failures: a snapshot at each 4 AM that has any earlier one, with the
      time slots of the latest from before the run; everything that was there is untouched. */
  lemma CarriedObservations(start: Table, table: Table, volunteerIds: seq<UserId>, times: set<Time>, u: UserId, t: Time)
    requires CarriedTo(start, table, volunteerIds, times, {})
    requires u in volunteerIds && t in times
    ensures var h, h' := HistoryOf(start, u), HistoryOf(table, u);
            && (t in h' <==> HasEarlier(h, t))
            && (t in h' ==>
                  && |h'[t]| == |h[Latest(h, t)]|
                  && forall i :: 0 <= i < |h'[t]| ==>
                       var a, b := h'[t][i], h[Latest(h, t)][i];
                       (a.start, a.end, a.weekday) == (b.start, b.end, b.weekday))
            && (forall k <- h :: k in h' && h'[k] == h[k])
  {
    var h := HistoryOf(start, u);
    assert CarriedFor(start, table, volunteerIds, times, {}, u);
    if t in h {
      SameLatest(h, t, t, Latest(h, t));
    }
  }
}
