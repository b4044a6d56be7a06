/**
 How sessions and availability overlap in telecomTutorTime of server/utils/reportUtils.ts: which minutes of a
 session count and which are skipped, said of the hours that were credited rather than of the accumulator.
 */
module TutorTimeOverlap {
  import opened MapSums
  import opened TutorTime
  import opened TutorTimeTotals

  // ----- What is credited -----

  lemma {:induction false} SlotCreditsIff(day: Day, slots: seq<Slot>, c: Credit)
    ensures c in SlotCredits(day, slots) <==> c.day == day && Slot(c.hour, true) in slots
  {
    if slots != [] {
      var init, slot := slots[..|slots| - 1], slots[|slots| - 1];
      SlotCreditsIff(day, init, c);
      assert slots == init + [slot];
    }
  }

  /** An hour is credited exactly when some snapshot of its day says it is available. */
  lemma {:induction false} CreditsIff(histories: seq<History>, day: Day, hour: nat)
    ensures Credit(day, hour) in Credits(histories)
       <==> exists h <- histories :: h.day == day && Slot(hour, true) in h.slots
  {
    if histories != [] {
      var init, h := histories[..|histories| - 1], histories[|histories| - 1];
      CreditsIff(init, day, hour);
      SlotCreditsIff(h.day, h.slots, Credit(day, hour));
      assert histories == init + [h];
    }
  }

  /** Sixty minutes for a credited hour of a tutoring day. */
  function CreditedHour(days: set<Day>, credits: seq<Credit>, day: Day, hour: nat): int {
    if day in days && Credit(day, hour) in credits then 60 else 0
  }

  lemma {:induction false} CreditedReads(days: set<Day>, credits: seq<Credit>, day: Day, hour: nat)
    ensures ReadFrom(CreditAll(EmptyDays(days), credits), day, hour) == CreditedHour(days, credits, day, hour)
  {
    if credits != [] {
      var init, c := credits[..|credits| - 1], credits[|credits| - 1];
      CreditedReads(days, init, day, hour);
      assert credits == init + [c];
      assert CreditAll(EmptyDays(days), init).Keys == days;
    }
  }

  // ----- What earlier sessions have added -----

  /** What the sessions that start in this hour of this day have added to it. */
  function Contributed(accs: (Acc, Acc), cal: Calendar, sessions: seq<Session>, day: Day, hour: nat): int {
    if sessions == [] then 0
    else
      var init, s := sessions[..|sessions| - 1], sessions[|sessions| - 1];
      Contributed(accs, cal, init, day, hour)
      + if s.timeTutored == 0 || DayAt(cal, s.joinedAt) != day || HourAt(cal, s.joinedAt) != hour then 0
        else RoundUp(LoopMinutes(AfterSessions(accs, cal, init).0, cal, s, true), 15)
  }

  lemma {:induction false} HourAfterSessions(accs: (Acc, Acc), cal: Calendar, sessions: seq<Session>, day: Day,
                                             hour: nat)
    requires SessionDays(cal, sessions) <= accs.0.Keys
    ensures accs.0.Keys == AfterSessions(accs, cal, sessions).0.Keys
    ensures ReadFrom(AfterSessions(accs, cal, sessions).0, day, hour)
         == ReadFrom(accs.0, day, hour) + Contributed(accs, cal, sessions, day, hour)
  {
    if sessions != [] {
      var init, s := sessions[..|sessions| - 1], sessions[|sessions| - 1];
      assert sessions == init + [s];
      assert DayAt(cal, s.joinedAt) in SessionDays(cal, sessions);
      assert SessionDays(cal, init) <= SessionDays(cal, sessions);
      HourAfterSessions(accs, cal, init, day, hour);
    }
  }

  // ----- The minutes of one session -----

  /** The accumulators when the sessions begin. */
  function Credited(days: set<Day>, credits: seq<Credit>): (Acc, Acc) {
    (CreditAll(EmptyDays(days), credits), CountAll(days, credits))
  }

  /** The hour of this minute is filled, by availability, by earlier sessions or by both together. */
  predicate Filled(days: set<Day>, credits: seq<Credit>, cal: Calendar, earlier: seq<Session>, minute: int) {
    var day, hour := (cal.dayOf)(minute / 60), (cal.hourOf)(minute / 60);
    CreditedHour(days, credits, day, hour) + Contributed(Credited(days, credits), cal, earlier, day, hour) >= 60
  }

  function FilledMinutes(days: set<Day>, credits: seq<Credit>, cal: Calendar, earlier: seq<Session>,
                         from: int, until: int): nat
    decreases until - from
  {
    if until <= from then 0
    else FilledMinutes(days, credits, cal, earlier, from, until - 1)
         + if Filled(days, credits, cal, earlier, until - 1) then 1 else 0
  }

  lemma {:induction false} CountIsFilled(days: set<Day>, credits: seq<Credit>, cal: Calendar, earlier: seq<Session>,
                                         from: int, until: int)
    requires SessionDays(cal, earlier) <= days && from <= until
    ensures CountMinutes(AfterSessions(Credited(days, credits), cal, earlier).0, cal, from, until, false)
         == FilledMinutes(days, credits, cal, earlier, from, until)
    decreases until - from
  {
    if from < until {
      CountIsFilled(days, credits, cal, earlier, from, until - 1);
      BelowIsNotFilled(days, credits, cal, earlier, until - 1);
    }
  }

  lemma BelowIsNotFilled(days: set<Day>, credits: seq<Credit>, cal: Calendar, earlier: seq<Session>, minute: int)
    requires SessionDays(cal, earlier) <= days
    ensures Below60(AfterSessions(Credited(days, credits), cal, earlier).0, cal, minute / 60)
       <==> !Filled(days, credits, cal, earlier, minute)
  {
    var day, hour := (cal.dayOf)(minute / 60), (cal.hourOf)(minute / 60);
    CreditedReads(days, credits, day, hour);
    HourAfterSessions(Credited(days, credits), cal, earlier, day, hour);
  }

  /** The minutes of a session in filled hours are skipped, and the others count. An hour that is lost is taken from the
      hour before the end. */
  lemma SessionSplit(days: set<Day>, credits: seq<Credit>, cal: Calendar, earlier: seq<Session>, s: Session)
    requires SessionDays(cal, earlier) <= days && s.joinedAt <= s.endedAt
    ensures var acc, from, until := AfterSessions(Credited(days, credits), cal, earlier).0, Minute(s.joinedAt),
                Minute(s.endedAt);
            var filled, before := FilledMinutes(days, credits, cal, earlier, from, until),
                Filled(days, credits, cal, earlier, until - 60);
            && LoopMinutes(acc, cal, s, false) == filled - (if LosesAnHour(s) && before then 60 else 0)
            && LoopMinutes(acc, cal, s, true) == until - from - filled - (if LosesAnHour(s) && !before then 60 else 0)
  {
    var acc, from, until := AfterSessions(Credited(days, credits), cal, earlier).0, Minute(s.joinedAt),
        Minute(s.endedAt);
    CountIsFilled(days, credits, cal, earlier, from, until);
    CountsPartition(acc, cal, from, until);
    BelowIsNotFilled(days, credits, cal, earlier, until - 60);
    assert (until - 60) / 60 == until / 60 - 1;
  }

  lemma {:induction false} AllOrNoneFilled(days: set<Day>, credits: seq<Credit>, cal: Calendar, earlier: seq<Session>,
                                           from: int, until: int, filled: bool)
    requires from <= until
    requires forall m :: from <= m < until ==> Filled(days, credits, cal, earlier, m) == filled
    ensures FilledMinutes(days, credits, cal, earlier, from, until) == if filled then until - from else 0
    decreases until - from
  {
    if from < until {
      AllOrNoneFilled(days, credits, cal, earlier, from, until - 1, filled);
    }
  }

  predicate IsCredited(days: set<Day>, credits: seq<Credit>, cal: Calendar, minute: int) {
    (cal.dayOf)(minute / 60) in days && Credit((cal.dayOf)(minute / 60), (cal.hourOf)(minute / 60)) in credits
  }

  /** A first session inside credited hours adds nothing and is all taken off the availability; outside of them it all
      counts and nothing is taken off. */
  lemma FirstSession(days: set<Day>, credits: seq<Credit>, cal: Calendar, s: Session, credited: bool)
    requires s.joinedAt <= s.endedAt && !LosesAnHour(s)
    requires forall m :: Minute(s.joinedAt) <= m < Minute(s.endedAt) ==> IsCredited(days, credits, cal, m) == credited
    ensures var acc, minutes := CreditAll(EmptyDays(days), credits), Minute(s.endedAt) - Minute(s.joinedAt);
            && LoopMinutes(acc, cal, s, true) == (if credited then 0 else minutes)
            && LoopMinutes(acc, cal, s, false) == (if credited then minutes else 0)
  {
    SessionSplit(days, credits, cal, [], s);
    forall m | Minute(s.joinedAt) <= m < Minute(s.endedAt) ensures Filled(days, credits, cal, [], m) == credited {
      assert IsCredited(days, credits, cal, m) == credited;
    }
    AllOrNoneFilled(days, credits, cal, [], Minute(s.joinedAt), Minute(s.endedAt), credited);
  }

  /** Time tutored is rounded up to the next quarter of an hour. */
  lemma TutoringRoundsUp(s: Session)
    ensures var minutes := TutoringMinutes(s);
            minutes % 15 == 0 && s.timeTutored <= minutes * 60000 < s.timeTutored + 15 * 60000
  {
  }

  lemma {:induction false} OnlySession(accs: (Acc, Acc), cal: Calendar, s: Session, below: bool)
    requires s.timeTutored != 0
    ensures RoundedMinutes(accs, cal, [s], DayAt(cal, s.joinedAt), below)
         == RoundUp(LoopMinutes(accs.0, cal, s, below), 15)
  {
    assert [s][..0] == [];
    assert AfterSessions(accs, cal, []) == accs;
    assert RoundedMinutes(accs, cal, [], DayAt(cal, s.joinedAt), below) == 0;
  }

  lemma OneCredit(day: Day, hour: nat)
    ensures Credits([History(day, [Slot(hour, true)])]) == [Credit(day, hour)]
  {
    hide HoursOn, Distinct;
    var slots := [Slot(hour, true)];
    assert SlotCredits(day, []) == [] && slots[..0] == [];
    assert SlotCredits(day, slots) == [Credit(day, hour)];
    assert Credits([]) == [] && [History(day, slots)][..0] == [];
  }

  lemma HourOfOneCredit(day: Day, hour: nat)
    ensures HoursOn([Credit(day, hour)], day) == [hour]
    ensures |Distinct([hour])| == 1 && |Distinct([hour][1..])| == 0
  {
    assert HoursOn([], day) == [] && [Credit(day, hour)][..0] == [];
    assert Distinct([hour]) == {hour} && [hour][1..] == [] && Distinct([]) == {};
  }

  predicate HalfPastTen(s: Session) {
    s.joinedAt == 10 * 3600000 && s.endedAt == s.joinedAt + 30 * 60000 && s.timeTutored == 30 * 60000
  }

  /** Half an hour of tutoring inside an hour of availability: an hour in all, of which half is availability. */
  lemma HalfHourInAvailableHour(cal: Calendar, s: Session)
    requires HalfPastTen(s)
    ensures var day := DayAt(cal, s.joinedAt);
            var r := FinalAccs(cal, [s], [History(day, [Slot(HourAt(cal, s.joinedAt), true)])], []);
            DayTotal(r.total, day) == 60 && DayTotal(r.session, day) == 30 && DayTotal(r.availability, day) == 30
  {
    var day, hour := DayAt(cal, s.joinedAt), HourAt(cal, s.joinedAt);
    var histories, days := [History(day, [Slot(hour, true)])], SessionDays(cal, [s]);
    hide FinalAccs, RoundedMinutes, CreditAll, CountAll, DayTotal, HoursOn, Distinct, Credits, TutoringOn, QuizzesOn,
         TutoringMinutes;
    assert s in [s] && day in days;
    OneCredit(day, hour);
    HourOfOneCredit(day, hour);
    HalfHourSkipped(cal, days, s);
    OnlyTutoring(cal, s);
    TutoringRoundsUp(s);
    hide DayAt, HourAt, SessionDays, HalfPastTen;
    DayTotals(cal, [s], histories, [], day);
  }

  /** A session without tutored time adds nothing itself, but has the availability of its day counted. */
  lemma UntutoredSessionStillCounts(cal: Calendar, s: Session)
    requires s.timeTutored == 0
    ensures var day := DayAt(cal, s.joinedAt);
            var r := FinalAccs(cal, [s], [History(day, [Slot(HourAt(cal, s.joinedAt), true)])], []);
            DayTotal(r.total, day) == 60 && DayTotal(r.session, day) == 0 && DayTotal(r.availability, day) == 60
  {
    var day, hour := DayAt(cal, s.joinedAt), HourAt(cal, s.joinedAt);
    var histories, days := [History(day, [Slot(hour, true)])], SessionDays(cal, [s]);
    assert s in [s] && day in days;
    OneCredit(day, hour);
    HourOfOneCredit(day, hour);
    NothingTutored(cal, s, Credited(days, [Credit(day, hour)]));
    hide FinalAccs, RoundedMinutes, CreditAll, CountAll, DayTotal, HoursOn, Distinct, Credits, TutoringOn, QuizzesOn,
         DayAt, HourAt, SessionDays;
    DayTotals(cal, [s], histories, [], day);
  }

  lemma NothingTutored(cal: Calendar, s: Session, start: (Acc, Acc))
    requires s.timeTutored == 0
    ensures forall day, below :: RoundedMinutes(start, cal, [s], day, below) == 0
    ensures forall day :: TutoringOn(cal, [s], day) == 0 && QuizzesOn(cal, [], day) == 0
  {
    assert [s][..0] == [];
    forall day, below ensures RoundedMinutes(start, cal, [s], day, below) == 0 {
      assert RoundedMinutes(start, cal, [], day, below) == 0;
    }
    assert forall day :: TutoringOn(cal, [], day) == 0;
  }

  lemma HalfHourSkipped(cal: Calendar, days: set<Day>, s: Session)
    requires HalfPastTen(s) && DayAt(cal, s.joinedAt) in days
    ensures var day := DayAt(cal, s.joinedAt);
            var start := Credited(days, [Credit(day, HourAt(cal, s.joinedAt))]);
            RoundedMinutes(start, cal, [s], day, true) == 0 && RoundedMinutes(start, cal, [s], day, false) == 30
  {
    var day, hour := DayAt(cal, s.joinedAt), HourAt(cal, s.joinedAt);
    var credits := [Credit(day, hour)];
    hide LoopMinutes, RoundedMinutes, CreditAll, CountAll, IsCredited;
    assert Minute(s.joinedAt) == 600 && Minute(s.endedAt) == 630 && Block(s.joinedAt) == 10;
    TenIsCredited(cal, days, day, hour);
    FirstSession(days, credits, cal, s, true);
    OnlySession(Credited(days, credits), cal, s, true);
    OnlySession(Credited(days, credits), cal, s, false);
    assert RoundUp(30, 15) == 30 && RoundUp(0, 15) == 0;
  }

  lemma TenIsCredited(cal: Calendar, days: set<Day>, day: Day, hour: nat)
    requires day in days && (cal.dayOf)(10) == day && (cal.hourOf)(10) == hour
    ensures forall m :: 600 <= m < 630 ==> IsCredited(days, [Credit(day, hour)], cal, m)
  {
    assert forall m :: 600 <= m < 630 ==> m / 60 == 10;
  }

  lemma OnlyTutoring(cal: Calendar, s: Session)
    requires s.timeTutored != 0
    ensures TutoringOn(cal, [s], DayAt(cal, s.joinedAt)) == TutoringMinutes(s)
    ensures QuizzesOn(cal, [], DayAt(cal, s.joinedAt)) == 0
  {
    assert [s][..0] == [];
    assert TutoringOn(cal, [], DayAt(cal, s.joinedAt)) == 0;
  }
}
