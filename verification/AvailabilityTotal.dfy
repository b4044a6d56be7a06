/**
 The elapsed-availability total of server/services/AvailabilityService.ts: the earliest snapshot of each
 UTC day is credited to the weekday before it. Instants are milliseconds since the epoch.
 */
module AvailabilityTotal {
  import opened MapSums

  type Time = int

  const DAY_MS := 86400000

  /** The 24 hours of one weekday. */
  type DayHours = hours: seq<bool> | |hours| == 24 witness seq(24, _ => false)
  /** Sunday first, as moment's day(). */
  type Week = days: seq<DayHours> | |days| == 7 witness seq(7, _ => seq(24, _ => false))

  datatype Doc = Doc(recordedAt: Time, availability: Week)

  /** The UTC calendar day of an instant, counted from the epoch. */
  function Day(t: Time): int {
    t / DAY_MS
  }

  /** The epoch was a Thursday. */
  function Weekday(day: int): (w: nat)
    ensures w < 7
  {
    (day + 4) % 7
  }

  ghost function AvailableHours(day: DayHours, n: nat): set<int>
    requires n <= 24
  {
    set h | 0 <= h < n && day[h]
  }

  ghost function Hours(day: DayHours): nat {
    |AvailableHours(day, 24)|
  }

  lemma OneMoreHour(day: DayHours, n: nat)
    requires n < 24
    ensures AvailableHours(day, n + 1) == AvailableHours(day, n) + if day[n] then {n} else {}
  {
  }

  lemma {:induction false} HoursBound(day: DayHours, n: nat)
    requires n <= 24
    ensures |AvailableHours(day, n)| <= n
    ensures (forall h :: 0 <= h < n ==> day[h]) ==> |AvailableHours(day, n)| == n
  {
    if n > 0 {
      HoursBound(day, n - 1);
      OneMoreHour(day, n - 1);
    }
  }

  method GetElapsedAvailabilityForDay(day: DayHours) returns (elapsedAvailability: nat)
    ensures elapsedAvailability == Hours(day)
  {
    elapsedAvailability := 0;
    for i := 0 to |day|
      invariant elapsedAvailability == |AvailableHours(day, i)|
    {
      OneMoreHour(day, i);
      if day[i] {
        elapsedAvailability := elapsedAvailability + 1;
      }
    }
  }

  // ----- What the total is -----

  ghost predicate IsEarliest(docs: seq<Doc>, day: int, doc: Doc) {
    && doc in docs && Day(doc.recordedAt) == day
    && forall other <- docs :: Day(other.recordedAt) == day ==> doc.recordedAt <= other.recordedAt
  }

  /** The snapshots of `day` credit `hours` to the day before it: those of its weekday in an earliest one. */
  ghost predicate Credited(docs: seq<Doc>, day: int, hours: int) {
    if exists doc <- docs :: Day(doc.recordedAt) == day
    then exists doc :: IsEarliest(docs, day, doc) && hours == Hours(doc.availability[Weekday(day - 1)])
    else hours == 0
  }

  /** `total` hours were earned over the calendar days [from, until). */
  ghost predicate Earned(docs: seq<Doc>, from: int, until: int, total: int)
    decreases until - from
  {
    if from >= until then total == 0 else
      exists hours :: Credited(docs, until, hours) && Earned(docs, from, until - 1, total - hours)
  }

  ghost predicate DistinctTimes(docs: seq<Doc>) {
    forall a <- docs, b <- docs :: a.recordedAt == b.recordedAt ==> a == b
  }

  lemma {:induction false} EarnedAtMost24PerDay(docs: seq<Doc>, from: int, until: int, total: int)
    requires Earned(docs, from, until, total) && from <= until
    ensures 0 <= total <= 24 * (until - from)
    decreases until - from
  {
    if from < until {
      var h :| Credited(docs, until, h) && Earned(docs, from, until - 1, total - h);
      EarnedAtMost24PerDay(docs, from, until - 1, total - h);
      if exists doc <- docs :: Day(doc.recordedAt) == until {
        var a :| IsEarliest(docs, until, a) && h == Hours(a.availability[Weekday(until - 1)]);
        HoursBound(a.availability[Weekday(until - 1)], 24);
      }
    }
  }

  lemma {:induction false} EarnedJoins(docs: seq<Doc>, from: int, middle: int, until: int, first: int, second: int)
    requires from <= middle <= until
    requires Earned(docs, from, middle, first) && Earned(docs, middle, until, second)
    ensures Earned(docs, from, until, first + second)
    decreases until - middle
  {
    hide Credited;
    if middle < until {
      var h :| Credited(docs, until, h) && Earned(docs, middle, until - 1, second - h);
      EarnedJoins(docs, from, middle, until - 1, first, second - h);
      assert Earned(docs, from, until - 1, first + second - h);
    }
  }

  lemma {:induction false} EarnedSplits(docs: seq<Doc>, from: int, middle: int, until: int, total: int)
    returns (first: int)
    requires from <= middle <= until && Earned(docs, from, until, total)
    ensures Earned(docs, from, middle, first) && Earned(docs, middle, until, total - first)
    decreases until - middle
  {
    hide Credited;
    if middle == until {
      first := total;
    } else {
      var h :| Credited(docs, until, h) && Earned(docs, from, until - 1, total - h);
      first := EarnedSplits(docs, from, middle, until - 1, total - h);
      assert Earned(docs, middle, until - 1, total - first - h);
    }
  }

  /** The totals of adjacent ranges add up. */
  lemma EarnedIsAdditive(docs: seq<Doc>, from: int, middle: int, until: int, total: int)
    requires from <= middle <= until
    ensures Earned(docs, from, until, total)
       <==> exists first :: Earned(docs, from, middle, first) && Earned(docs, middle, until, total - first)
  {
    if Earned(docs, from, until, total) {
      var first := EarnedSplits(docs, from, middle, until, total);
    }
    if first :| Earned(docs, from, middle, first) && Earned(docs, middle, until, total - first) {
      EarnedJoins(docs, from, middle, until, first, total - first);
    }
  }

  /** All earliest snapshots of each day in (from, until] agree on the hours of the weekday before. */
  ghost predicate Determined(docs: seq<Doc>, from: int, until: int) {
    forall day | from < day <= until :: DeterminedOn(docs, day)
  }

  ghost predicate DeterminedOn(docs: seq<Doc>, day: int) {
    forall a, b :: IsEarliest(docs, day, a) && IsEarliest(docs, day, b) ==>
      Hours(a.availability[Weekday(day - 1)]) == Hours(b.availability[Weekday(day - 1)])
  }

  ghost predicate OneTotal(docs: seq<Doc>, from: int, until: int) {
    forall total, total' :: Earned(docs, from, until, total) && Earned(docs, from, until, total') ==> total == total'
  }

  lemma {:induction false} EarliestExists(docs: seq<Doc>, day: int) returns (earliest: Doc)
    requires exists doc <- docs :: Day(doc.recordedAt) == day
    ensures IsEarliest(docs, day, earliest)
  {
    var rest, last := docs[..|docs| - 1], docs[|docs| - 1];
    assert docs == rest + [last];
    if exists doc <- rest :: Day(doc.recordedAt) == day {
      earliest := EarliestExists(rest, day);
      if Day(last.recordedAt) == day && last.recordedAt < earliest.recordedAt {
        earliest := last;
      }
    } else {
      earliest := last;
    }
  }

  lemma CreditedIff(docs: seq<Doc>, day: int)
    ensures exists hours :: Credited(docs, day, hours)
    ensures (forall h, h' :: Credited(docs, day, h) && Credited(docs, day, h') ==> h == h') <==> DeterminedOn(docs, day)
  {
    if exists doc <- docs :: Day(doc.recordedAt) == day {
      var e := EarliestExists(docs, day);
      assert Credited(docs, day, Hours(e.availability[Weekday(day - 1)]));
      if a, b :| IsEarliest(docs, day, a) && IsEarliest(docs, day, b)
                 && Hours(a.availability[Weekday(day - 1)]) != Hours(b.availability[Weekday(day - 1)]) {
        assert Credited(docs, day, Hours(a.availability[Weekday(day - 1)]));
        assert Credited(docs, day, Hours(b.availability[Weekday(day - 1)]));
      }
    } else {
      assert Credited(docs, day, 0);
    }
  }

  lemma {:induction false} SomethingEarned(docs: seq<Doc>, from: int, until: int) returns (total: int)
    ensures Earned(docs, from, until, total)
    decreases until - from
  {
    hide Credited;
    if from >= until {
      total := 0;
    } else {
      CreditedIff(docs, until);
      var h :| Credited(docs, until, h);
      var before := SomethingEarned(docs, from, until - 1);
      total := before + h;
      assert Earned(docs, from, until - 1, total - h);
    }
  }

  /** A snapshot alone: the hours of the weekday before it are earned on that day, none on the days around it. Day 0
      was a Thursday. */
  lemma OneSnapshotEarns(doc: Doc, week: int, j: nat, total: int)
    requires j < 7 && Day(doc.recordedAt) == 7 * week + j + 1
    ensures var day := 7 * week + j;
            && (Earned([doc], day, day + 1, total) <==> total == Hours(doc.availability[(4 + j) % 7]))
            && (Earned([doc], day - 1, day, total) <==> total == 0)
            && (Earned([doc], day + 1, day + 2, total) <==> total == 0)
  {
    var day := 7 * week + j;
    assert Weekday(day) == (4 + j) % 7;
    assert doc in [doc] && IsEarliest([doc], day + 1, doc);
    forall d: int, h: int
      ensures Credited([doc], d, h) <==> h == if d == day + 1 then Hours(doc.availability[Weekday(day)]) else 0
    {
    }
    OneDayEarned([doc], day - 1, total);
    OneDayEarned([doc], day, total);
    OneDayEarned([doc], day + 1, total);
  }

  lemma OneDayEarned(docs: seq<Doc>, day: int, total: int)
    ensures Earned(docs, day, day + 1, total) <==> Credited(docs, day + 1, total)
  {
    if Credited(docs, day + 1, total) {
      assert Earned(docs, day, day, total - total);
    }
    if Earned(docs, day, day + 1, total) {
      var h :| Credited(docs, day + 1, h) && Earned(docs, day, day, total - h);
    }
  }

  /** Two answers for one day are two answers for the range. */
  lemma TwoTotals(docs: seq<Doc>, from: int, day: int, until: int, h: int, h': int)
    requires from < day <= until && Credited(docs, day, h) && Credited(docs, day, h') && h != h'
    ensures !OneTotal(docs, from, until)
  {
    hide Credited;
    var before := SomethingEarned(docs, from, day - 1);
    var after := SomethingEarned(docs, day, until);
    assert Earned(docs, from, day - 1, before + h - h) && Earned(docs, from, day - 1, before + h' - h');
    assert Earned(docs, from, day, before + h) && Earned(docs, from, day, before + h');
    EarnedJoins(docs, from, day, until, before + h, after);
    EarnedJoins(docs, from, day, until, before + h', after);
  }

  lemma {:induction false} DeterminedHasOneTotal(docs: seq<Doc>, from: int, until: int, total: int, total': int)
    requires Determined(docs, from, until)
    requires Earned(docs, from, until, total) && Earned(docs, from, until, total')
    ensures total == total'
    decreases until - from
  {
    hide Credited, DeterminedOn;
    if from < until {
      var h :| Credited(docs, until, h) && Earned(docs, from, until - 1, total - h);
      var h' :| Credited(docs, until, h') && Earned(docs, from, until - 1, total' - h');
      CreditedIff(docs, until);
      assert DeterminedOn(docs, until);
      DeterminedHasOneTotal(docs, from, until - 1, total - h, total' - h');
    }
  }

  /** The total is determined exactly when, for every day of the range, all earliest snapshots of the next day agree. */
  lemma OneTotalIff(docs: seq<Doc>, from: int, until: int)
    ensures OneTotal(docs, from, until) <==> Determined(docs, from, until)
  {
    hide Credited, DeterminedOn;
    if Determined(docs, from, until) {
      forall total, total' | Earned(docs, from, until, total)
          && Earned(docs, from, until, total') ensures total == total' {
        DeterminedHasOneTotal(docs, from, until, total, total');
      }
    } else {
      var day :| from < day <= until && !DeterminedOn(docs, day);
      CreditedIff(docs, day);
      var h, h' :| Credited(docs, day, h) && Credited(docs, day, h') && h != h';
      TwoTotals(docs, from, day, until, h, h');
    }
  }

  /** With distinct timestamps there is one answer. */
  lemma EarnedIsUnique(docs: seq<Doc>, from: int, until: int)
    requires DistinctTimes(docs)
    ensures OneTotal(docs, from, until)
  {
    forall day | from < day <= until ensures DeterminedOn(docs, day) {
    }
    OneTotalIff(docs, from, until);
  }

  /** Two snapshots at one instant can leave the total undetermined: the sort decides. */
  lemma TiesAreAmbiguous(none: DayHours, all: DayHours)
    requires forall h :: 0 <= h < 24 ==> !none[h] && all[h]
    ensures var docs := [Doc(DAY_MS, [none, none, none, none, none, none, none]),
                         Doc(DAY_MS, [all, all, all, all, all, all, all])];
            Earned(docs, 0, 1, 0) && Earned(docs, 0, 1, 24)
  {
    var a, b := Doc(DAY_MS, [none, none, none, none, none, none, none]),
        Doc(DAY_MS, [all, all, all, all, all, all, all]);
    var docs := [a, b];
    assert docs[0] == a && docs[1] == b;
    assert AvailableHours(none, 24) == {};
    HoursBound(all, 24);
    assert IsEarliest(docs, 1, a) && IsEarliest(docs, 1, b);
    assert Credited(docs, 1, 0) && Credited(docs, 1, 24);
    assert Earned(docs, 0, 0, 0);
    assert Earned(docs, 0, 1, 0 + 0) && Earned(docs, 0, 1, 24 + 0);
  }

  lemma {:induction false} SameCreditsSameTotals(docs: seq<Doc>, docs': seq<Doc>, from: int, until: int, total: int)
    requires forall day, hours :: Credited(docs, day, hours) ==> Credited(docs', day, hours)
    requires Earned(docs, from, until, total)
    ensures Earned(docs', from, until, total)
    decreases until - from
  {
    hide Credited;
    if from < until {
      var h :| Credited(docs, until, h) && Earned(docs, from, until - 1, total - h);
      SameCreditsSameTotals(docs, docs', from, until - 1, total - h);
    }
  }

  /** A further snapshot later on a day that already has one changes nothing. */
  lemma LaterSnapshotsDoNotMatter(docs: seq<Doc>, more: Doc, from: int, until: int, total: int)
    requires exists doc <- docs :: Day(doc.recordedAt) == Day(more.recordedAt) && doc.recordedAt < more.recordedAt
    ensures Earned(docs + [more], from, until, total) <==> Earned(docs, from, until, total)
  {
    forall day, hours ensures Credited(docs + [more], day, hours) <==> Credited(docs, day, hours) {
      LaterSnapshotOnADay(docs, more, day, hours);
    }
    if Earned(docs, from, until, total) {
      SameCreditsSameTotals(docs, docs + [more], from, until, total);
    }
    if Earned(docs + [more], from, until, total) {
      SameCreditsSameTotals(docs + [more], docs, from, until, total);
    }
  }

  lemma LaterSnapshotOnADay(docs: seq<Doc>, more: Doc, day: int, hours: int)
    requires exists doc <- docs :: Day(doc.recordedAt) == Day(more.recordedAt) && doc.recordedAt < more.recordedAt
    ensures Credited(docs + [more], day, hours) <==> Credited(docs, day, hours)
  {
    var all := docs + [more];
    assert forall doc :: doc in all <==> doc in docs || doc == more;
    assert forall doc :: IsEarliest(all, day, doc) <==> IsEarliest(docs, day, doc);
  }

  // ----- The query, the grouping and the loop -----

  /** The documents recorded in [start, end], as the two queries select them. */
  function InRange(docs: seq<Doc>, start: Time, end: Time): seq<Doc> {
    if docs == [] then [] else
      (if start <= docs[0].recordedAt <= end then [docs[0]] else []) + InRange(docs[1..], start, end)
  }

  lemma {:induction false} InRangeMembers(docs: seq<Doc>, start: Time, end: Time, doc: Doc)
    ensures doc in InRange(docs, start, end) <==> doc in docs && start <= doc.recordedAt <= end
  {
    if docs != [] {
      InRangeMembers(docs[1..], start, end, doc);
      assert doc in docs <==> doc == docs[0] || doc in docs[1..];
    }
  }

  function InsertByTime(doc: Doc, sorted: seq<Doc>): (r: seq<Doc>)
    ensures |r| == |sorted| + 1
  {
    if sorted == [] || doc.recordedAt <= sorted[0].recordedAt then [doc] + sorted
    else [sorted[0]] + InsertByTime(doc, sorted[1..])
  }

  /** sort by recordedAt; which of two equal timestamps comes first is not relied upon */
  function SortByTime(docs: seq<Doc>): (sorted: seq<Doc>)
    ensures |sorted| == |docs|
  {
    if docs == [] then [] else InsertByTime(docs[0], SortByTime(docs[1..]))
  }

  ghost predicate SortedByTime(docs: seq<Doc>) {
    forall i, j :: 0 <= i < j < |docs| ==> docs[i].recordedAt <= docs[j].recordedAt
  }

  lemma {:induction false} InsertKeepsElements(doc: Doc, sorted: seq<Doc>)
    ensures multiset(InsertByTime(doc, sorted)) == multiset(sorted) + multiset{doc}
  {
    if sorted != [] && doc.recordedAt > sorted[0].recordedAt {
      InsertKeepsElements(doc, sorted[1..]);
      assert sorted == [sorted[0]] + sorted[1..];
    }
  }

  lemma {:induction false} InsertKeepsOrder(doc: Doc, sorted: seq<Doc>)
    requires SortedByTime(sorted)
    ensures SortedByTime(InsertByTime(doc, sorted))
  {
    if sorted != [] && doc.recordedAt > sorted[0].recordedAt {
      var rest := InsertByTime(doc, sorted[1..]);
      InsertKeepsOrder(doc, sorted[1..]);
      InsertKeepsElements(doc, sorted[1..]);
      forall other | other in rest ensures sorted[0].recordedAt <= other.recordedAt {
        assert other in multiset(rest);
        assert other in sorted[1..] || other == doc;
      }
    }
  }

  lemma {:induction false} SortIsSorted(docs: seq<Doc>)
    ensures SortedByTime(SortByTime(docs)) && multiset(SortByTime(docs)) == multiset(docs)
  {
    if docs != [] {
      assert docs == [docs[0]] + docs[1..];
      var rest := SortByTime(docs[1..]);
      SortIsSorted(docs[1..]);
      InsertKeepsOrder(docs[0], rest);
      InsertKeepsElements(docs[0], rest);
    }
  }

  lemma FirstIsEarliest(docs: seq<Doc>, day: int, group: seq<Doc>)
    requires group != [] && forall doc :: doc in group <==> doc in docs && Day(doc.recordedAt) == day
    ensures IsEarliest(docs, day, SortByTime(group)[0])
  {
    SortIsSorted(group);
    var sorted := SortByTime(group);
    forall doc ensures doc in sorted <==> doc in group {
      assert doc in multiset(sorted) <==> doc in multiset(group);
    }
  }

  ghost predicate GroupedByDay(docs: seq<Doc>, groups: map<int, seq<Doc>>) {
    && (forall day <- groups :: groups[day] != []
          && forall doc :: doc in groups[day] <==> doc in docs && Day(doc.recordedAt) == day)
    && (forall doc <- docs :: Day(doc.recordedAt) in groups)
  }

  /** lodash's groupBy */
  method GroupByDay(docs: seq<Doc>) returns (groups: map<int, seq<Doc>>)
    ensures GroupedByDay(docs, groups)
  {
    groups := map[];
    for i := 0 to |docs|
      invariant GroupedByDay(docs[..i], groups)
    {
      var day := Day(docs[i].recordedAt);
      assert forall doc :: doc in docs[..i + 1] <==> doc in docs[..i] || doc == docs[i];
      groups := groups[day := (if day in groups then groups[day] else []) + [docs[i]]];
    }
    assert docs[..|docs|] == docs;
  }

  /** The hours of the weekday before `day` in the first of its snapshots. */
  ghost function Credit(day: int, group: seq<Doc>): int
    requires group != []
  {
    Hours(SortByTime(group)[0].availability[Weekday(day - 1)])
  }

  ghost function Credits(groups: map<int, seq<Doc>>): map<int, int>
    requires forall day <- groups :: groups[day] != []
  {
    map day | day in groups :: Credit(day, groups[day])
  }

  lemma NoCredits()
    ensures Sum(Credits(map[])) == 0
  {
    assert Credits(map[]) == map[];
  }

  lemma CreditsWithout(groups: map<int, seq<Doc>>, day: int)
    requires day in groups && forall day <- groups :: groups[day] != []
    ensures Sum(Credits(groups)) == Credit(day, groups[day]) + Sum(Credits(groups - {day}))
  {
    SumRemove(Credits(groups), day);
    assert Credits(groups) - {day} == Credits(groups - {day});
  }

  lemma {:induction false} CreditsAddUp(docs: seq<Doc>, from: int, until: int, credits: map<int, int>)
    requires forall day <- credits :: from < day <= until && Credited(docs, day, credits[day])
    requires forall day :: from < day <= until && day !in credits ==> Credited(docs, day, 0)
    ensures Earned(docs, from, until, Sum(credits))
    decreases until - from
  {
    hide Credited;
    if from >= until {
      assert credits == map[];
    } else if until in credits {
      SumRemove(credits, until);
      CreditsAddUp(docs, from, until - 1, credits - {until});
      assert Earned(docs, from, until - 1, Sum(credits) - credits[until]);
    } else {
      CreditsAddUp(docs, from, until - 1, credits);
      assert Credited(docs, until, 0) && Earned(docs, from, until - 1, Sum(credits) - 0);
    }
  }

  /** Grouping what the query finds credits every calendar day from `from` to `last`, and no other. */
  lemma QueryCredits(docs: seq<Doc>, from: int, last: int, found: seq<Doc>, groups: map<int, seq<Doc>>)
    requires forall doc ::
      doc in found <==> doc in docs && (from + 1) * DAY_MS <= doc.recordedAt <= (last + 2) * DAY_MS - 1
    requires GroupedByDay(found, groups)
    ensures Earned(docs, from, last + 1, Sum(Credits(groups)))
  {
    forall doc ensures doc in found <==> doc in docs && from < Day(doc.recordedAt) <= last + 1 {
      assert (from + 1) * DAY_MS <= doc.recordedAt <= (last + 2) * DAY_MS - 1
          <==> from < Day(doc.recordedAt) <= last + 1;
    }
    var credits := Credits(groups);
    forall day | day in credits ensures from < day <= last + 1 && Credited(docs, day, credits[day]) {
      assert groups[day][0] in groups[day];
      FirstIsEarliest(docs, day, groups[day]);
    }
    CreditsAddUp(docs, from, last + 1, credits);
  }

  /** The hours earned over the calendar days of fromDate to toDate, both included. */
  method GetTotalElapsedAvailabilityForDateRange(history: seq<Doc>, legacy: seq<Doc>, fromDate: Time, toDate: Time)
    returns (totalElapsedAvailability: int)
    ensures Earned(history + legacy, Day(fromDate), Day(toDate) + 1, totalElapsedAvailability)
  {
    hide Credited, Earned, InRange, Credits, GroupedByDay;
    var startShifted, endShifted := (Day(fromDate) + 1) * DAY_MS, (Day(toDate) + 2) * DAY_MS - 1;
    var historyDocs, legacyDocs := InRange(history, startShifted, endShifted),
        InRange(legacy, startShifted, endShifted);
    var bySnapshotDate := GroupByDay(historyDocs + legacyDocs);
    totalElapsedAvailability := SumOfCredits(bySnapshotDate);
    forall doc
      ensures doc in historyDocs + legacyDocs
          <==> doc in history + legacy && startShifted <= doc.recordedAt <= endShifted
    {
      InRangeMembers(history, startShifted, endShifted, doc);
      InRangeMembers(legacy, startShifted, endShifted, doc);
    }
    QueryCredits(history + legacy, Day(fromDate), Day(toDate), historyDocs + legacyDocs, bySnapshotDate);
  }

  /** The loop over the groups, in any order. */
  method SumOfCredits(bySnapshotDate: map<int, seq<Doc>>) returns (totalElapsedAvailability: int)
    requires forall day <- bySnapshotDate :: bySnapshotDate[day] != []
               && forall doc <- bySnapshotDate[day] :: Day(doc.recordedAt) == day
    ensures totalElapsedAvailability == Sum(Credits(bySnapshotDate))
  {
    hide Credits, SortByTime, Hours;
    totalElapsedAvailability := 0;
    var left := bySnapshotDate;
    while left != map[]
      invariant forall day <- left :: day in bySnapshotDate && left[day] == bySnapshotDate[day]
      invariant totalElapsedAvailability + Sum(Credits(left)) == Sum(Credits(bySnapshotDate))
      decreases |left|
    {
      var date := SomeKey(left);
      var doc := SortByTime(left[date])[0];
      FirstIsEarliest(left[date], date, left[date]);
      var prevDayOfWeek := Weekday(Day(doc.recordedAt) - 1);
      var hours := GetElapsedAvailabilityForDay(doc.availability[prevDayOfWeek]);
      totalElapsedAvailability := totalElapsedAvailability + hours;
      CreditsWithout(left, date);
      Smaller(left, date);
      left := left - {date};
    }
    NoCredits();
  }
}
