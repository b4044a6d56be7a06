/**
 The four accumulators of telecomTutorTime in server/utils/reportUtils.ts over
 all of its loops, and what each day's total comes to.
 */
module TutorTimeTotals {
  import opened MapSums
  import opened TutorTime

  // ----- The loops as functions of what has been processed -----

  function SessionDays(cal: Calendar, sessions: seq<Session>): set<Day> {
    set s | s in sessions :: DayAt(cal, s.joinedAt)
  }

  function TutoringMinutes(s: Session): int {
    -((-s.timeTutored) / 900000) * 15
  }

  function SessionAcc(cal: Calendar, sessions: seq<Session>): Acc {
    if sessions == [] then map[]
    else
      var init, s := sessions[..|sessions| - 1], sessions[|sessions| - 1];
      var acc := SessionAcc(cal, init);
      if s.timeTutored == 0 then acc
      else AddTo(acc, DayAt(cal, s.joinedAt), HourAt(cal, s.joinedAt), TutoringMinutes(s))
  }

  function SlotCredits(day: Day, slots: seq<Slot>): seq<Credit> {
    if slots == [] then []
    else
      var init, slot := slots[..|slots| - 1], slots[|slots| - 1];
      SlotCredits(day, init) + if slot.available then [Credit(day, slot.hour)] else []
  }

  function Credits(histories: seq<History>): seq<Credit> {
    if histories == [] then []
    else
      var init, h := histories[..|histories| - 1], histories[|histories| - 1];
      Credits(init) + SlotCredits(h.day, h.slots)
  }

  /** acc[day][hour] = 60, for days with tutoring only. */
  function CreditHour(acc: Acc, c: Credit): Acc {
    if c.day in acc then acc[c.day := acc[c.day][Hour(c.hour) := 60]] else acc
  }

  /** The separate availability accumulator: a day's first hour goes under the property name "hour". */
  function CountHour(acc: Acc, days: set<Day>, c: Credit): Acc {
    if c.day !in days then acc
    else if c.day in acc then acc[c.day := acc[c.day][Hour(c.hour) := 60]]
    else acc[c.day := map[LiteralHour := 60]]
  }

  function CreditAll(acc: Acc, credits: seq<Credit>): (r: Acc)
    ensures r.Keys == acc.Keys
  {
    if credits == [] then acc
    else CreditHour(CreditAll(acc, credits[..|credits| - 1]), credits[|credits| - 1])
  }

  function CountAll(days: set<Day>, credits: seq<Credit>): Acc {
    if credits == [] then map[]
    else CountHour(CountAll(days, credits[..|credits| - 1]), days, credits[|credits| - 1])
  }

  function EmptyDays(days: set<Day>): Acc {
    map d | d in days :: map[]
  }

  /** The main and the availability accumulator after a number of sessions. */
  function AfterSessions(accs: (Acc, Acc), cal: Calendar, sessions: seq<Session>): (Acc, Acc) {
    if sessions == [] then accs
    else
      var init, s := sessions[..|sessions| - 1], sessions[|sessions| - 1];
      var (acc, avail) := AfterSessions(accs, cal, init);
      if s.timeTutored == 0 then (acc, avail)
      else
        var day, hour := DayAt(cal, s.joinedAt), HourAt(cal, s.joinedAt);
        (AddTo(acc, day, hour, RoundUp(LoopMinutes(acc, cal, s, true), 15)),
         AddTo(avail, day, hour, -1 * RoundUp(LoopMinutes(acc, cal, s, false), 15)))
  }

  function AddQuizzes(acc: Acc, cal: Calendar, quizzes: seq<int>): Acc {
    if quizzes == [] then acc
    else
      var init, q := quizzes[..|quizzes| - 1], quizzes[|quizzes| - 1];
      AddTo(AddQuizzes(acc, cal, init), DayAt(cal, q), HourAt(cal, q), 60)
  }

  // ----- What the totals mean -----

  /** The sum of the rounded minutes (contributed or skipped) of the sessions that start on a day, each
      measured against the accumulator as it stands when the session's turn comes. */
  function RoundedMinutes(accs: (Acc, Acc), cal: Calendar, sessions: seq<Session>, day: Day, below: bool): int {
    if sessions == [] then 0
    else
      var init, s := sessions[..|sessions| - 1], sessions[|sessions| - 1];
      RoundedMinutes(accs, cal, init, day, below)
      + if s.timeTutored == 0 || DayAt(cal, s.joinedAt) != day then 0
        else RoundUp(LoopMinutes(AfterSessions(accs, cal, init).0, cal, s, below), 15)
  }

  function RawMinutes(accs: (Acc, Acc), cal: Calendar, sessions: seq<Session>, day: Day, below: bool): int {
    if sessions == [] then 0
    else
      var init, s := sessions[..|sessions| - 1], sessions[|sessions| - 1];
      RawMinutes(accs, cal, init, day, below)
      + if s.timeTutored == 0 || DayAt(cal, s.joinedAt) != day then 0
        else LoopMinutes(AfterSessions(accs, cal, init).0, cal, s, below)
  }

  function TutoredSessions(cal: Calendar, sessions: seq<Session>, day: Day): nat {
    if sessions == [] then 0
    else
      var s := sessions[|sessions| - 1];
      TutoredSessions(cal, sessions[..|sessions| - 1], day)
      + if s.timeTutored == 0 || DayAt(cal, s.joinedAt) != day then 0 else 1
  }

  function TutoringOn(cal: Calendar, sessions: seq<Session>, day: Day): int {
    if sessions == [] then 0
    else
      var s := sessions[|sessions| - 1];
      TutoringOn(cal, sessions[..|sessions| - 1], day)
      + if s.timeTutored == 0 || DayAt(cal, s.joinedAt) != day then 0 else TutoringMinutes(s)
  }

  function QuizzesOn(cal: Calendar, quizzes: seq<int>, day: Day): nat {
    if quizzes == [] then 0
    else QuizzesOn(cal, quizzes[..|quizzes| - 1], day) + if DayAt(cal, quizzes[|quizzes| - 1]) == day then 1 else 0
  }

  function HoursOn(credits: seq<Credit>, day: Day): seq<nat> {
    if credits == [] then []
    else
      var c := credits[|credits| - 1];
      HoursOn(credits[..|credits| - 1], day) + if c.day == day then [c.hour] else []
  }

  function Distinct(hours: seq<nat>): set<nat> {
    set h | h in hours
  }

  lemma RoundUpBounds(n: int)
    ensures n <= RoundUp(n, 15) < n + 15 && RoundUp(n, 15) % 15 == 0
  {
  }

  /** Rounding adds less than fifteen minutes a session. */
  lemma {:induction false} RoundingAddsUnder15(accs: (Acc, Acc), cal: Calendar, sessions: seq<Session>, day: Day,
                                               below: bool)
    ensures var raw := RawMinutes(accs, cal, sessions, day, below);
            raw <= RoundedMinutes(accs, cal, sessions, day, below) <= raw + 14 * TutoredSessions(cal, sessions, day)
  {
    if sessions != [] {
      var init, s := sessions[..|sessions| - 1], sessions[|sessions| - 1];
      RoundingAddsUnder15(accs, cal, init, day, below);
      RoundUpBounds(LoopMinutes(AfterSessions(accs, cal, init).0, cal, s, below));
    }
  }

  lemma {:induction false} SessionsTotal(accs: (Acc, Acc), cal: Calendar, sessions: seq<Session>, day: Day)
    ensures var (acc, avail) := AfterSessions(accs, cal, sessions);
            && DayTotal(acc, day) == DayTotal(accs.0, day) + RoundedMinutes(accs, cal, sessions, day, true)
            && DayTotal(avail, day) == DayTotal(accs.1, day) - RoundedMinutes(accs, cal, sessions, day, false)
  {
    if sessions != [] {
      var init, s := sessions[..|sessions| - 1], sessions[|sessions| - 1];
      SessionsTotal(accs, cal, init, day);
      var (acc, avail) := AfterSessions(accs, cal, init);
      var d, h := DayAt(cal, s.joinedAt), HourAt(cal, s.joinedAt);
      AddToTotal(acc, d, h, RoundUp(LoopMinutes(acc, cal, s, true), 15), day);
      AddToTotal(avail, d, h, -1 * RoundUp(LoopMinutes(acc, cal, s, false), 15), day);
    }
  }

  lemma {:induction false} QuizzesTotal(acc: Acc, cal: Calendar, quizzes: seq<int>, day: Day)
    ensures DayTotal(AddQuizzes(acc, cal, quizzes), day) == DayTotal(acc, day) + 60 * QuizzesOn(cal, quizzes, day)
  {
    if quizzes != [] {
      var init, q := quizzes[..|quizzes| - 1], quizzes[|quizzes| - 1];
      QuizzesTotal(acc, cal, init, day);
      AddToTotal(AddQuizzes(acc, cal, init), DayAt(cal, q), HourAt(cal, q), 60, day);
    }
  }

  lemma {:induction false} SessionAccTotal(cal: Calendar, sessions: seq<Session>, day: Day)
    ensures DayTotal(SessionAcc(cal, sessions), day) == TutoringOn(cal, sessions, day)
  {
    if sessions != [] {
      var init, s := sessions[..|sessions| - 1], sessions[|sessions| - 1];
      SessionAccTotal(cal, init, day);
      AddToTotal(SessionAcc(cal, init), DayAt(cal, s.joinedAt), HourAt(cal, s.joinedAt), TutoringMinutes(s), day);
    }
  }

  /** The hours of a set, each worth sixty minutes. */
  function Hours(hours: set<nat>): map<HourKey, int> {
    map h | h in hours :: Hour(h) := 60
  }

  lemma {:induction false} HoursCount(hours: set<nat>)
    ensures |Hours(hours)| == |hours|
  {
    if hours != {} {
      var h: nat :| h in hours;
      HoursCount(hours - {h});
      assert Hours(hours) == Hours(hours - {h})[Hour(h) := 60];
    }
  }

  lemma OneMoreHour(hours: seq<nat>, h: nat)
    ensures Hours(Distinct(hours + [h])) == Hours(Distinct(hours))[Hour(h) := 60]
  {
    assert Distinct(hours + [h]) == Distinct(hours) + {h};
  }

  lemma {:induction false} CreditedMap(days: set<Day>, credits: seq<Credit>, day: Day)
    ensures CreditAll(EmptyDays(days), credits).Keys == days
    ensures day in days ==> CreditAll(EmptyDays(days), credits)[day] == Hours(Distinct(HoursOn(credits, day)))
  {
    if credits != [] {
      var init, c := credits[..|credits| - 1], credits[|credits| - 1];
      CreditedMap(days, init, day);
      if day in days && c.day == day {
        OneMoreHour(HoursOn(init, day), c.hour);
      }
    }
  }

  /** Crediting the same hour of a day twice counts once. */
  lemma CreditedTotal(days: set<Day>, credits: seq<Credit>, day: Day)
    ensures DayTotal(CreditAll(EmptyDays(days), credits), day)
         == if day in days then 60 * |Distinct(HoursOn(credits, day))| else 0
  {
    CreditedMap(days, credits, day);
    if day in days {
      HoursCount(Distinct(HoursOn(credits, day)));
      SumConstant(Hours(Distinct(HoursOn(credits, day))), 60);
    }
  }

  lemma {:induction false} CountedMap(days: set<Day>, credits: seq<Credit>, day: Day)
    ensures var acc, hours := CountAll(days, credits), HoursOn(credits, day);
            && (day in acc <==> day in days && hours != [])
            && (day in acc ==> acc[day] == Hours(Distinct(hours[1..]))[LiteralHour := 60])
  {
    if credits != [] {
      var init, c := credits[..|credits| - 1], credits[|credits| - 1];
      CountedMap(days, init, day);
      if day in days && c.day == day {
        var before := HoursOn(init, day);
        assert HoursOn(credits, day) == before + [c.hour];
        CountedStep(before, c.hour);
      } else {
        assert HoursOn(credits, day) == HoursOn(init, day) || day !in days;
      }
    }
  }

  lemma CountedStep(before: seq<nat>, h: nat)
    ensures before != [] ==>
              Hours(Distinct((before + [h])[1..]))[LiteralHour := 60]
              == Hours(Distinct(before[1..]))[LiteralHour := 60][Hour(h) := 60]
    ensures before == [] ==> Hours(Distinct((before + [h])[1..]))[LiteralHour := 60] == map[LiteralHour := 60]
  {
    if before != [] {
      assert (before + [h])[1..] == before[1..] + [h];
      OneMoreHour(before[1..], h);
      UpdatesCommute(Hours(Distinct(before[1..])), h);
    } else {
      assert (before + [h])[1..] == [];
      assert Hours(Distinct([])) == map[];
    }
  }

  lemma UpdatesCommute(m: map<HourKey, int>, h: nat)
    ensures m[Hour(h) := 60][LiteralHour := 60] == m[LiteralHour := 60][Hour(h) := 60]
  {
  }

  /** The availability accumulator counts a day's distinct hours exactly when its first hour does not come up again. */
  lemma CountedTotal(days: set<Day>, credits: seq<Credit>, day: Day)
    ensures var total, hours := DayTotal(CountAll(days, credits), day), HoursOn(credits, day);
            && total == (if day in days && hours != [] then 60 * (1 + |Distinct(hours[1..])|) else 0)
            && (day in days && hours != [] ==>
                  (total == 60 * |Distinct(hours)| <==> hours[0] !in hours[1..]))
  {
    CountedMap(days, credits, day);
    var hours := HoursOn(credits, day);
    if day in days && hours != [] {
      var rest := Distinct(hours[1..]);
      HoursCount(rest);
      SumConstant(Hours(rest), 60);
      SumUpdate(Hours(rest), LiteralHour, 60);
      assert hours == [hours[0]] + hours[1..];
      assert Distinct(hours) == rest + {hours[0]};
    }
  }

  lemma SameCreditTwice(day: Day, hour: nat)
    ensures var snapshot := History(day, [Slot(hour, true)]);
            Credits([snapshot, snapshot]) == [Credit(day, hour), Credit(day, hour)]
  {
    var snapshot, c := History(day, [Slot(hour, true)]), Credit(day, hour);
    assert SlotCredits(day, []) == [] && [Slot(hour, true)][..0] == [];
    assert SlotCredits(day, [Slot(hour, true)]) == [c];
    assert Credits([]) == [] && [snapshot][..0] == [];
    assert Credits([snapshot]) == [c];
    assert [snapshot, snapshot][..1] == [snapshot];
  }

  lemma SameHourTwice(day: Day, hour: nat)
    ensures HoursOn([Credit(day, hour), Credit(day, hour)], day) == [hour, hour]
    ensures Distinct([hour, hour]) == {hour} && Distinct([hour, hour][1..]) == {hour}
  {
    var c := Credit(day, hour);
    assert HoursOn([], day) == [] && [c][..0] == [];
    assert HoursOn([c], day) == [hour];
    assert [c, c][..1] == [c];
    assert [hour, hour][1..] == [hour];
  }

  /** Two snapshots that credit the same hour of one day: the availability accumulator counts it twice. */
  lemma RepeatedFirstHour(days: set<Day>, day: Day, hour: nat)
    requires day in days
    ensures var snapshot := History(day, [Slot(hour, true)]);
            var credits := Credits([snapshot, snapshot]);
            && DayTotal(CountAll(days, credits), day) == 120
            && DayTotal(CreditAll(EmptyDays(days), credits), day) == 60
  {
    hide *;
    var credits := [Credit(day, hour), Credit(day, hour)];
    SameCreditTwice(day, hour);
    SameHourTwice(day, hour);
    CountedTotal(days, credits, day);
    CreditedTotal(days, credits, day);
  }

  // ----- telecomTutorTime -----

  datatype Report = Report(total: Acc, session: Acc, availability: Acc, certification: Acc)

  function FinalAccs(cal: Calendar, sessions: seq<Session>, histories: seq<History>, quizzes: seq<int>): Report {
    var days := SessionDays(cal, sessions);
    var credits := Credits(histories);
    var start := (CreditAll(EmptyDays(days), credits), CountAll(days, credits));
    var (acc, avail) := AfterSessions(start, cal, sessions);
    Report(AddQuizzes(acc, cal, quizzes), SessionAcc(cal, sessions), avail, AddQuizzes(map[], cal, quizzes))
  }

  /** Every day's total, in minutes, in each of the four accumulators. */
  lemma DayTotals(cal: Calendar, sessions: seq<Session>, histories: seq<History>, quizzes: seq<int>, day: Day)
    ensures var r, days, credits := FinalAccs(cal, sessions, histories, quizzes), SessionDays(cal, sessions),
        Credits(histories);
            var start, hours := (CreditAll(EmptyDays(days), credits), CountAll(days, credits)), HoursOn(credits, day);
            && DayTotal(r.total, day)
               == (if day in days then 60 * |Distinct(hours)| + RoundedMinutes(start, cal, sessions, day, true) else 0)
                  + 60 * QuizzesOn(cal, quizzes, day)
            && DayTotal(r.session, day) == TutoringOn(cal, sessions, day)
            && DayTotal(r.availability, day)
               == (if day in days && hours != [] then 60 * (1 + |Distinct(hours[1..])|) else 0)
                  - RoundedMinutes(start, cal, sessions, day, false)
            && DayTotal(r.certification, day) == 60 * QuizzesOn(cal, quizzes, day)
  {
    var days, credits := SessionDays(cal, sessions), Credits(histories);
    var start := (CreditAll(EmptyDays(days), credits), CountAll(days, credits));
    CreditedTotal(days, credits, day);
    CountedTotal(days, credits, day);
    SessionsTotal(start, cal, sessions, day);
    SessionAccTotal(cal, sessions, day);
    QuizzesTotal(AfterSessions(start, cal, sessions).0, cal, quizzes, day);
    QuizzesTotal(map[], cal, quizzes, day);
    if day !in days {
      NoMinutesOffSessionDays(start, cal, sessions, day);
    }
  }

  lemma {:induction false} NoMinutesOffSessionDays(accs: (Acc, Acc), cal: Calendar, sessions: seq<Session>, day: Day)
    requires day !in SessionDays(cal, sessions)
    ensures RoundedMinutes(accs, cal, sessions, day, true) == 0
  {
    if sessions != [] {
      assert sessions[|sessions| - 1] in sessions;
      assert SessionDays(cal, sessions[..|sessions| - 1]) <= SessionDays(cal, sessions);
      NoMinutesOffSessionDays(accs, cal, sessions[..|sessions| - 1], day);
    }
  }

  lemma TakeOneMore<T>(s: seq<T>, i: nat)
    requires i < |s|
    ensures s[..i + 1][..|s[..i + 1]| - 1] == s[..i] && s[..i + 1][|s[..i + 1]| - 1] == s[i]
    ensures s[..|s|] == s
  {
  }

  method InitialDays(cal: Calendar, sessions: seq<Session>) returns (acc: Accumulator, sessionAcc: Accumulator)
    ensures fresh(acc) && fresh(sessionAcc) && acc != sessionAcc
    ensures acc.days == EmptyDays(SessionDays(cal, sessions))
    ensures sessionAcc.days == SessionAcc(cal, sessions)
  {
    acc := new Accumulator();
    sessionAcc := new Accumulator();
    for i := 0 to |sessions|
      invariant fresh(acc) && fresh(sessionAcc) && acc != sessionAcc
      invariant acc.days == EmptyDays(SessionDays(cal, sessions[..i]))
      invariant sessionAcc.days == SessionAcc(cal, sessions[..i])
    {
      TakeOneMore(sessions, i);
      var s := sessions[i];
      assert SessionDays(cal, sessions[..i + 1]) == SessionDays(cal, sessions[..i]) + {DayAt(cal, s.joinedAt)};
      acc.days := acc.days[DayAt(cal, s.joinedAt) := map[]];
      if s.timeTutored != 0 {
        sessionAcc.Add(DayAt(cal, s.joinedAt), HourAt(cal, s.joinedAt), TutoringMinutes(s));
      }
    }
    assert sessions[..|sessions|] == sessions;
  }

  lemma CreditOneMore(days: set<Day>, done: seq<Credit>, c: Credit)
    ensures CreditAll(EmptyDays(days), done + [c]) == CreditHour(CreditAll(EmptyDays(days), done), c)
    ensures CountAll(days, done + [c]) == CountHour(CountAll(days, done), days, c)
  {
    assert (done + [c])[..|done + [c]| - 1] == done;
  }

  /** The inner loop: the hours of one snapshot. */
  method CreditSnapshot(acc: Accumulator, availabilityAcc: Accumulator, h: History,
                        ghost days: set<Day>, ghost before: seq<Credit>)
    requires acc != availabilityAcc
    requires acc.days == CreditAll(EmptyDays(days), before) && availabilityAcc.days == CountAll(days, before)
    modifies acc, availabilityAcc
    ensures acc.days == CreditAll(EmptyDays(days), before + SlotCredits(h.day, h.slots))
    ensures availabilityAcc.days == CountAll(days, before + SlotCredits(h.day, h.slots))
  {
    var day := h.day;
    assert before + [] == before;
    for j := 0 to |h.slots|
      invariant acc.days == CreditAll(EmptyDays(days), before + SlotCredits(day, h.slots[..j]))
      invariant availabilityAcc.days == CountAll(days, before + SlotCredits(day, h.slots[..j]))
    {
      TakeOneMore(h.slots, j);
      ghost var done := before + SlotCredits(day, h.slots[..j]);
      ghost var next := before + SlotCredits(day, h.slots[..j + 1]);
      if h.slots[j].available {
        var hour := h.slots[j].hour;
        assert next == done + [Credit(day, hour)];
        CreditOneMore(days, done, Credit(day, hour));
        // No tutoring on that day, no credit.
        if day in acc.days {
          acc.days := acc.days[day := acc.days[day][Hour(hour) := 60]];
          if day in availabilityAcc.days {
            availabilityAcc.days := availabilityAcc.days[day := availabilityAcc.days[day][Hour(hour) := 60]];
          } else {
            availabilityAcc.days := availabilityAcc.days[day := map[LiteralHour := 60]];
          }
        }
      } else {
        assert next == done;
      }
    }
    assert h.slots[..|h.slots|] == h.slots;
  }

  method CreditAvailability(acc: Accumulator, availabilityAcc: Accumulator, histories: seq<History>,
                            ghost days: set<Day>)
    requires acc != availabilityAcc && acc.days == EmptyDays(days) && availabilityAcc.days == map[]
    modifies acc, availabilityAcc
    ensures acc.days == CreditAll(EmptyDays(days), Credits(histories))
    ensures availabilityAcc.days == CountAll(days, Credits(histories))
  {
    for i := 0 to |histories|
      invariant acc.days == CreditAll(EmptyDays(days), Credits(histories[..i]))
      invariant availabilityAcc.days == CountAll(days, Credits(histories[..i]))
    {
      TakeOneMore(histories, i);
      CreditSnapshot(acc, availabilityAcc, histories[i], days, Credits(histories[..i]));
    }
    assert histories[..|histories|] == histories;
  }

  method AddSessions(acc: Accumulator, availabilityAcc: Accumulator, cal: Calendar, sessions: seq<Session>)
    requires acc != availabilityAcc
    modifies acc, availabilityAcc
    ensures (acc.days, availabilityAcc.days) == AfterSessions(old((acc.days, availabilityAcc.days)), cal, sessions)
  {
    for i := 0 to |sessions|
      invariant (acc.days, availabilityAcc.days)
             == AfterSessions(old((acc.days, availabilityAcc.days)), cal, sessions[..i])
    {
      TakeOneMore(sessions, i);
      var s := sessions[i];
      if s.timeTutored != 0 {
        var contribution, skipped := SplitSession(acc, cal, s);
        contribution := RoundUp(contribution, 15);
        skipped := RoundUp(skipped, 15);
        acc.Add(DayAt(cal, s.joinedAt), HourAt(cal, s.joinedAt), contribution);
        availabilityAcc.Add(DayAt(cal, s.joinedAt), HourAt(cal, s.joinedAt), -1 * skipped);
      }
    }
    assert sessions[..|sessions|] == sessions;
  }

  method AddCertifications(acc: Accumulator, certificationAcc: Accumulator, cal: Calendar, quizzes: seq<int>)
    requires acc != certificationAcc && certificationAcc.days == map[]
    modifies acc, certificationAcc
    ensures acc.days == AddQuizzes(old(acc.days), cal, quizzes)
    ensures certificationAcc.days == AddQuizzes(map[], cal, quizzes)
  {
    for i := 0 to |quizzes|
      invariant acc.days == AddQuizzes(old(acc.days), cal, quizzes[..i])
      invariant certificationAcc.days == AddQuizzes(map[], cal, quizzes[..i])
    {
      TakeOneMore(quizzes, i);
      acc.Add(DayAt(cal, quizzes[i]), HourAt(cal, quizzes[i]), 60);
      certificationAcc.Add(DayAt(cal, quizzes[i]), HourAt(cal, quizzes[i]), 60);
    }
    assert quizzes[..|quizzes|] == quizzes;
  }

  /** Minutes per day: all volunteering, tutoring alone, availability alone, certifications alone. */
  method TelecomTutorTime(cal: Calendar, sessions: seq<Session>, histories: seq<History>, quizzes: seq<int>)
    returns (totalTime: map<Day, int>, sessionTime: map<Day, int>,
             availabilityTime: map<Day, int>, certificationTime: map<Day, int>)
    ensures var r := FinalAccs(cal, sessions, histories, quizzes);
            && totalTime == Reduced(r.total) && sessionTime == Reduced(r.session)
            && availabilityTime == Reduced(r.availability) && certificationTime == Reduced(r.certification)
  {
    var acc, sessionAcc := InitialDays(cal, sessions);
    var availabilityAcc := new Accumulator();
    var certificationAcc := new Accumulator();
    CreditAvailability(acc, availabilityAcc, histories, SessionDays(cal, sessions));
    AddSessions(acc, availabilityAcc, cal, sessions);
    AddCertifications(acc, certificationAcc, cal, quizzes);
    totalTime := acc.Reduce();
    sessionTime := sessionAcc.Reduce();
    availabilityTime := availabilityAcc.Reduce();
    certificationTime := certificationAcc.Reduce();
  }
}
