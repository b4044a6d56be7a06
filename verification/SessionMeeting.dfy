/**
 Creating the video meeting of one session (server/services/SessionMeetingService.ts) when student
 and volunteer, or any number of callers, ask for it at the same time. Database and Chime commands
 are single steps; a session has at most one row (unique session_id, provider).
 */
module SessionMeeting {
  import opened Basics

  type MeetingId = nat
  type UserId = nat
  type ThreadId = nat

  datatype Pc =
    | Checking                      // getSessionMeetingBySessionId
    | Creating                      // createMeetingWithAttendee
    | Inserting(mine: MeetingId)    // insertSessionMeeting
    | Recovering                    // deleteChimeMeeting, by the external id
    | Refetching                    // getSessionMeetingBySessionId again
    | Attending(meeting: MeetingId) // getMeeting and getOrCreateAttendee

  datatype Caller = Caller(user: UserId, pc: Pc)

  datatype State = State(
    externalId: MeetingId,                  // the session's id, which deleteChimeMeeting is given
    row: Option<MeetingId>,
    meetings: set<MeetingId>,               // meetings alive at Chime
    attendees: set<(MeetingId, UserId)>,
    callers: map<ThreadId, Caller>,
    returned: map<ThreadId, (MeetingId, UserId)>,  // history: what callers got, and for whom
    created: map<MeetingId, ThreadId>)      // history: who created each meeting

  datatype Action =
    | Call(t: ThreadId, user: UserId)
    | Step(t: ThreadId, newId: MeetingId, ok: bool)  // `ok` is false when an insert fails for another reason
    | Fail(t: ThreadId)
    | EndMeeting                                     // the session ends

  predicate Enabled(s: State, a: Action) {
    match a
    case Call(t, _) => t !in s.callers && t !in s.returned && t !in s.created.Values
    case Step(t, newId, _) =>
      t in s.callers && (s.callers[t].pc.Creating? ==> newId !in s.created && newId != s.externalId)
    case Fail(t) => t in s.callers
    case EndMeeting => true
  }

  function Goto(s: State, t: ThreadId, pc: Pc): State
    requires t in s.callers
  {
    s.(callers := s.callers[t := Caller(s.callers[t].user, pc)])
  }

  function Finish(s: State, t: ThreadId): State {
    s.(callers := s.callers - {t})
  }

  function Apply(s: State, a: Action): State
    requires Enabled(s, a)
  {
    match a
    case Call(t, user) => s.(callers := s.callers[t := Caller(user, Checking)])
    case Step(t, newId, ok) => Advance(s, t, newId, ok)
    case Fail(t) => Finish(s, t)
    case EndMeeting => if s.row.None? then s else s.(meetings := s.meetings - {s.row.value})
  }

  function Advance(s: State, t: ThreadId, newId: MeetingId, ok: bool): State
    requires t in s.callers
  {
    var user := s.callers[t].user;
    match s.callers[t].pc
    case Checking => Goto(s, t, if s.row.Some? then Attending(s.row.value) else Creating)
    case Creating =>
      Goto(s, t, Inserting(newId)).(
        meetings := s.meetings + {newId}, attendees := s.attendees + {(newId, user)}, created := s.created[newId := t])
    case Inserting(mine) =>
      if s.row.None? && ok
      then Finish(s, t).(row := Some(mine), returned := s.returned[t := (mine, user)])
      else Goto(s, t, Recovering)
    case Recovering => Goto(s, t, Refetching).(meetings := s.meetings - {s.externalId})
    case Refetching => if s.row.None? then Finish(s, t) else Goto(s, t, Attending(s.row.value))
    case Attending(m) =>
      if m !in s.meetings then Finish(s, t)
      else Finish(s, t).(attendees := s.attendees + {(m, user)}, returned := s.returned[t := (m, user)])
  }

  ghost predicate CallersOk(s: State) {
    forall t <- s.callers ::
      && t !in s.returned
      && match s.callers[t].pc
         case Inserting(mine) =>
           mine in s.created && s.created[mine] == t && s.row != Some(mine) && (mine, s.callers[t].user) in s.attendees
         case Attending(m) => s.row == Some(m)
         case Checking => t !in s.created.Values
         case Creating => t !in s.created.Values
         case _ => true
  }

  ghost predicate MeetingsOk(s: State) {
    && s.externalId !in s.created
    && (s.row.Some? ==> s.row.value in s.created)
    && s.meetings <= s.created.Keys
    && (forall m <- s.created :: Some(m) != s.row ==> m in s.meetings)
    && (forall m <- s.created, n <- s.created :: s.created[m] == s.created[n] ==> m == n)
  }

  ghost predicate Agreement(s: State) {
    forall t <- s.returned ::
      s.row == Some(s.returned[t].0) && s.returned[t] in s.attendees
  }

  ghost predicate Inv(s: State) {
    CallersOk(s) && MeetingsOk(s) && Agreement(s)
  }

  lemma CreateKeepsInv(s: State, t: ThreadId, newId: MeetingId, ok: bool)
    requires Inv(s) && Enabled(s, Step(t, newId, ok)) && s.callers[t].pc.Creating?
    ensures Inv(Advance(s, t, newId, ok))
  {
    var s' := Advance(s, t, newId, ok);
    assert forall m <- s.created :: s.created[m] in s.created.Values;
    assert s'.created.Values == s.created.Values + {t} by {
      assert forall m <- s.created :: m in s'.created && s'.created[m] == s.created[m];
      assert newId in s'.created;
    }
  }

  lemma InsertKeepsInv(s: State, t: ThreadId, newId: MeetingId, ok: bool)
    requires Inv(s) && t in s.callers && s.callers[t].pc.Inserting?
    ensures Inv(Advance(s, t, newId, ok))
  {
  }

  /** A caller that only moves on, to a place where its obligations are met, or leaves. */
  lemma MoveKeepsInv(s: State, t: ThreadId, pc: Pc)
    requires Inv(s) && t in s.callers
    requires pc.Creating? ==> s.callers[t].pc.Checking?
    requires pc in {Creating, Recovering, Refetching} || (pc.Attending? && s.row == Some(pc.meeting))
    ensures Inv(Goto(s, t, pc)) && Inv(Finish(s, t))
  {
  }

  lemma AttendKeepsInv(s: State, t: ThreadId, newId: MeetingId, ok: bool)
    requires Inv(s) && t in s.callers && s.callers[t].pc.Attending?
    ensures Inv(Advance(s, t, newId, ok))
  {
  }

  lemma RecoverKeepsInv(s: State, t: ThreadId, newId: MeetingId, ok: bool)
    requires Inv(s) && t in s.callers && s.callers[t].pc.Recovering?
    ensures Inv(Advance(s, t, newId, ok)) && Advance(s, t, newId, ok).meetings == s.meetings
  {
    assert s.meetings - {s.externalId} == s.meetings;
    MoveKeepsInv(s, t, Refetching);
  }

  lemma {:induction false} StepKeepsInv(s: State, a: Action)
    requires Inv(s) && Enabled(s, a)
    ensures Inv(Apply(s, a))
    ensures s.row.Some? ==> Apply(s, a).row == s.row
  {
    match a
    case Step(t, newId, ok) =>
      if s.callers[t].pc.Creating? {
        CreateKeepsInv(s, t, newId, ok);
      } else if s.callers[t].pc.Inserting? {
        InsertKeepsInv(s, t, newId, ok);
      } else if s.callers[t].pc.Attending? {
        AttendKeepsInv(s, t, newId, ok);
      } else if s.callers[t].pc.Recovering? {
        RecoverKeepsInv(s, t, newId, ok);
      } else {
        MoveKeepsInv(s, t, if s.row.Some? then Attending(s.row.value)
                           else if s.callers[t].pc.Checking? then Creating else Refetching);
      }
    case _ =>
  }

  ghost predicate IsRun(s: State, actions: seq<Action>)
    decreases |actions|
  {
    actions == [] || (Enabled(s, actions[0]) && IsRun(Apply(s, actions[0]), actions[1..]))
  }

  function Run(s: State, actions: seq<Action>): State
    requires IsRun(s, actions)
    decreases |actions|
  {
    if actions == [] then s else Run(Apply(s, actions[0]), actions[1..])
  }

  function Start(externalId: MeetingId): State {
    State(externalId, None, {}, {}, map[], map[], map[])
  }

  lemma {:induction false} RunsKeepInv(s: State, actions: seq<Action>)
    requires Inv(s) && IsRun(s, actions)
    ensures Inv(Run(s, actions))
    ensures s.row.Some? ==> Run(s, actions).row == s.row
    decreases |actions|
  {
    if actions != [] {
      StepKeepsInv(s, actions[0]);
      RunsKeepInv(Apply(s, actions[0]), actions[1..]);
    }
  }

  /** Every caller that returns got the meeting of the one row, which one of the callers created, and
      attends it. Each caller creates at most one meeting, and the meetings that lost the race are all
      still alive: their clean-up is given the external id and deletes nothing. */
  lemma MeetingAgreement(externalId: MeetingId, actions: seq<Action>)
    requires IsRun(Start(externalId), actions)
    ensures var s := Run(Start(externalId), actions);
            && (forall t <- s.returned :: s.row == Some(s.returned[t].0) && s.returned[t] in s.attendees)
            && (s.row.Some? ==> s.row.value in s.created)
            && (forall m <- s.created, n <- s.created :: s.created[m] == s.created[n] ==> m == n)
            && (forall m <- s.created :: Some(m) != s.row ==> m in s.meetings)
  {
    RunsKeepInv(Start(externalId), actions);
  }

  /** A row, once inserted, is what every later caller is given. */
  lemma RowIsFinal(externalId: MeetingId, before: seq<Action>, after: seq<Action>)
    requires IsRun(Start(externalId), before)
    requires Run(Start(externalId), before).row.Some? && IsRun(Run(Start(externalId), before), after)
    ensures var s := Run(Start(externalId), before);
            Run(s, after).row == s.row
            && forall t <- Run(s, after).returned :: Some(Run(s, after).returned[t].0) == s.row
  {
    RunsKeepInv(Start(externalId), before);
    RunsKeepInv(Run(Start(externalId), before), after);
  }

  /** Whoever may still create a meeting once there is a row has looked for it before. */
  ghost predicate CreatedSince(s: State, s': State) {
    && s.row.Some? && s'.row == s.row
    && (forall u <- s'.callers :: s'.callers[u].pc.Creating? ==> u in s.callers && s.callers[u].pc.Creating?)
    && (forall m <- s'.created ::
          m in s.created || (s'.created[m] in s.callers && s.callers[s'.created[m]].pc.Creating?))
  }

  lemma {:induction false} CreatedSinceRow(s: State, actions: seq<Action>, s0: State)
    requires CreatedSince(s0, s) && IsRun(s, actions)
    ensures CreatedSince(s0, Run(s, actions))
    decreases |actions|
  {
    if actions != [] {
      CreatedSinceStep(s0, s, actions[0]);
      hide Apply, Enabled, CreatedSince;
      CreatedSinceRow(Apply(s, actions[0]), actions[1..], s0);
    }
  }

  lemma CreatedSinceStep(s0: State, s: State, a: Action)
    requires CreatedSince(s0, s) && Enabled(s, a)
    ensures CreatedSince(s0, Apply(s, a))
  {
    var s' := Apply(s, a);
    if a.Step? && s.callers[a.t].pc.Creating? {
      assert s'.created == s.created[a.newId := a.t];
    } else {
      assert s'.created == s.created;
    }
  }

  /** Once there is a row, a meeting that comes into being was created by a caller that had found none: one that has
      yet to look, or to call, never creates any. */
  lemma LaterCallersCreateNone(s: State, actions: seq<Action>)
    requires s.row.Some? && IsRun(s, actions)
    ensures var s' := Run(s, actions);
            forall m <- s'.created ::
              m in s.created || (s'.created[m] in s.callers && s.callers[s'.created[m]].pc.Creating?)
  {
    CreatedSinceRow(s, actions, s);
  }

  lemma OverStep(s: State, a: Action)
    requires Inv(s) && s.row.Some? && s.row.value !in s.meetings && Enabled(s, a)
    ensures var s' := Apply(s, a);
            s'.row == s.row && s.row.value !in s'.meetings && s'.returned == s.returned
  {
  }

  lemma {:induction false} OverStaysOver(s: State, actions: seq<Action>)
    requires Inv(s) && s.row.Some? && s.row.value !in s.meetings && IsRun(s, actions)
    ensures var s' := Run(s, actions);
            s'.row == s.row && s.row.value !in s'.meetings && s'.returned == s.returned
    decreases |actions|
  {
    if actions != [] {
      OverStep(s, actions[0]);
      StepKeepsInv(s, actions[0]);
      hide Apply, Enabled, Inv;
      OverStaysOver(Apply(s, actions[0]), actions[1..]);
    }
  }

  /** Once the session has ended its meeting is gone for good, and no caller gets one any more. */
  lemma EndedMeetingStaysEnded(s: State, actions: seq<Action>)
    requires Inv(s) && s.row.Some? && IsRun(Apply(s, EndMeeting), actions)
    ensures var s' := Run(Apply(s, EndMeeting), actions);
            s'.row == s.row && s.row.value !in s'.meetings && s'.returned == s.returned
  {
    StepKeepsInv(s, EndMeeting);
    OverStaysOver(Apply(s, EndMeeting), actions);
  }

  /** A caller running alone creates the meeting and gets it. */
  lemma LoneCallerCreatesMeeting(externalId: MeetingId, t: ThreadId, user: UserId, m: MeetingId)
    requires m != externalId
    ensures var actions := [Call(t, user), Step(t, m, true), Step(t, m, true), Step(t, m, true)];
            && IsRun(Start(externalId), actions)
            && var s := Run(Start(externalId), actions);
               s.row == Some(m) && s.returned == map[t := (m, user)] && s.meetings == {m} && s.attendees == {(m, user)}
  {
    var s0 := Start(externalId);
    var a, b := Call(t, user), Step(t, m, true);
    var s1 := s0.(callers := map[t := Caller(user, Checking)]);
    var s2 := s0.(callers := map[t := Caller(user, Creating)]);
    var s3 := s0.(callers := map[t := Caller(user, Inserting(m))], meetings := {m},
                  attendees := {(m, user)}, created := map[m := t]);
    assert Apply(s0, a) == s1 && Apply(s1, b) == s2 && Apply(s2, b) == s3;
    RunCons(s3, b, []);
    RunCons(s2, b, [b]);
    RunCons(s1, b, [b, b]);
    RunCons(s0, a, [b, b, b]);
    assert [b] + [] == [b] && [b] + [b] == [b, b] && [b] + [b, b] == [b, b, b] && [a] + [b, b, b] == [a, b, b, b];
  }

  lemma RunCons(s: State, a: Action, rest: seq<Action>)
    requires Enabled(s, a) && IsRun(Apply(s, a), rest)
    ensures IsRun(s, [a] + rest) && Run(s, [a] + rest) == Run(Apply(s, a), rest)
  {
    assert ([a] + rest)[1..] == rest;
  }

  // ----- Meetings that nobody attends -----

  function RowMeeting(s: State): set<MeetingId> {
    if s.row.Some? then {s.row.value} else {}
  }

  /** Every meeting created beyond the row's stays alive, so none does exactly when none was created. */
  lemma LeftoverMeetings(externalId: MeetingId, actions: seq<Action>)
    requires IsRun(Start(externalId), actions)
    ensures var s := Run(Start(externalId), actions);
            && s.meetings - RowMeeting(s) == s.created.Keys - RowMeeting(s)
            && ((forall m <- s.meetings :: Some(m) == s.row) <==> (forall m <- s.created :: Some(m) == s.row))
  {
    RunsKeepInv(Start(externalId), actions);
  }

  /** Each meeting alive is the row's, or one that its creator is about to insert. */
  ghost predicate AllMeetingsWanted(s: State) {
    forall m <- s.meetings ::
      Some(m) == s.row
      || exists t <- s.callers :: s.callers[t].pc == Inserting(m)
  }

  /** An insert that is refused, or a caller that fails between creating a meeting and inserting it. */
  predicate AbandonsMeeting(s: State, a: Action)
    requires Enabled(s, a)
  {
    match a
    case Step(t, _, ok) => s.callers[t].pc.Inserting? && (s.row.Some? || !ok)
    case Fail(t) => s.callers[t].pc.Inserting?
    case _ => false
  }

  /** The step's thread apart, a caller that inserts goes on inserting; the step's thread starts to by creating. */
  lemma InsertersAfter(s: State, a: Action, m: MeetingId, u: ThreadId)
    requires Enabled(s, a)
    ensures var s' := Apply(s, a);
            (u in s'.callers && s'.callers[u].pc == Inserting(m))
            <==> match a
                 case Step(t, newId, _) =>
                   if u == t then s.callers[t].pc.Creating? && m == newId
                   else u in s.callers && s.callers[u].pc == Inserting(m)
                 case Fail(t) => u != t && u in s.callers && s.callers[u].pc == Inserting(m)
                 case _ => u in s.callers && s.callers[u].pc == Inserting(m)
  {
  }

  lemma AbandonsMeetingIff(s: State, a: Action)
    requires Inv(s) && AllMeetingsWanted(s) && Enabled(s, a)
    ensures AllMeetingsWanted(Apply(s, a)) <==> !AbandonsMeeting(s, a)
  {
    var s' := Apply(s, a);
    StepKeepsInv(s, a);
    if AbandonsMeeting(s, a) {
      var m := s.callers[a.t].pc.mine;
      assert m in s'.meetings && Some(m) != s'.row;
      forall u <- s'.callers ensures s'.callers[u].pc != Inserting(m) {
        InsertersAfter(s, a, m, u);
      }
    } else {
      forall m <- s'.meetings ensures Some(m) == s'.row || exists u <- s'.callers :: s'.callers[u].pc == Inserting(m) {
        if m in s.meetings && Some(m) != s.row {
          var u :| u in s.callers && s.callers[u].pc == Inserting(m);
          InsertersAfter(s, a, m, u);
        } else if m !in s.meetings {
          InsertersAfter(s, a, m, a.t);
        }
      }
    }
  }

  ghost predicate AlwaysWanted(s: State, actions: seq<Action>)
    requires IsRun(s, actions)
    decreases |actions|
  {
    AllMeetingsWanted(s) && (actions == [] || AlwaysWanted(Apply(s, actions[0]), actions[1..]))
  }

  ghost predicate NeverAbandons(s: State, actions: seq<Action>)
    requires IsRun(s, actions)
    decreases |actions|
  {
    actions == []
    || (!AbandonsMeeting(s, actions[0]) && NeverAbandons(Apply(s, actions[0]), actions[1..]))
  }

  /** In every state of a run each meeting alive is wanted, exactly when no insert is refused and no caller fails before
      its insert. */
  lemma {:induction false} RunsAbandonIff(s: State, actions: seq<Action>)
    requires Inv(s) && AllMeetingsWanted(s) && IsRun(s, actions)
    ensures AlwaysWanted(s, actions) <==> NeverAbandons(s, actions)
    decreases |actions|
  {
    if actions != [] {
      var next := Apply(s, actions[0]);
      StepKeepsInv(s, actions[0]);
      AbandonsMeetingIff(s, actions[0]);
      if AllMeetingsWanted(next) {
        RunsAbandonIff(next, actions[1..]);
      }
    }
  }

  // ----- Two callers that race -----

  lemma {:induction false} RunConcat(s: State, first: seq<Action>, second: seq<Action>)
    requires IsRun(s, first) && IsRun(Run(s, first), second)
    ensures IsRun(s, first + second) && Run(s, first + second) == Run(Run(s, first), second)
    decreases |first|
  {
    if first == [] {
      assert first + second == second;
    } else {
      assert (first + second)[1..] == first[1..] + second;
      RunConcat(Apply(s, first[0]), first[1..], second);
    }
  }

  lemma RunsThreeSteps(s: State, a: Action, b: Action, c: Action)
    requires Enabled(s, a) && Enabled(Apply(s, a), b) && Enabled(Apply(Apply(s, a), b), c)
    ensures IsRun(s, [a, b, c]) && Run(s, [a, b, c]) == Apply(Apply(Apply(s, a), b), c)
  {
    hide Enabled, Apply;
    RunCons(Apply(Apply(s, a), b), c, []);
    RunCons(Apply(s, a), b, [c]);
    RunCons(s, a, [b, c]);
    assert [c] + [] == [c] && [b] + [c] == [b, c] && [a] + [b, c] == [a, b, c];
  }

  /** Two callers t and u, who ask for one user each and create the meetings m and n. */
  datatype Race = Race(externalId: MeetingId, t: ThreadId, u: ThreadId, user: UserId, other: UserId, m: MeetingId,
                       n: MeetingId)
  {
    predicate Proper() {
      t != u && m != n && externalId != m && externalId != n
    }

    function Callers(pc: Pc, pc': Pc): map<ThreadId, Caller> {
      map[t := Caller(user, pc), u := Caller(other, pc')]
    }

    function Arrived(): State {
      Start(externalId).(callers := Callers(Creating, Checking))
    }

    function Created(): State {
      Start(externalId).(
        callers := Callers(Inserting(m), Inserting(n)),
        meetings := {m, n}, attendees := {(m, user), (n, other)}, created := map[m := t, n := u])
    }

    function Refused(pc: Pc): State {
      Created().(callers := map[u := Caller(other, pc)], row := Some(m), returned := map[t := (m, user)])
    }

    function Over(): State {
      Created().(
        callers := map[], row := Some(m), returned := map[t := (m, user), u := (m, other)],
        attendees := {(m, user), (n, other), (m, other)})
    }
  }

  lemma BothArrive(r: Race)
    requires r.Proper()
    ensures var actions := [Call(r.t, r.user), Call(r.u, r.other), Step(r.t, r.m, true)];
            IsRun(Start(r.externalId), actions) && Run(Start(r.externalId), actions) == r.Arrived()
  {
    var s0 := Start(r.externalId);
    var a, b, c := Call(r.t, r.user), Call(r.u, r.other), Step(r.t, r.m, true);
    var s1 := s0.(callers := map[r.t := Caller(r.user, Checking)]);
    var s2 := s0.(callers := r.Callers(Checking, Checking));
    assert Enabled(s0, a) && Apply(s0, a) == s1;
    assert Enabled(s1, b) && Apply(s1, b) == s2;
    assert Enabled(s2, c) && Apply(s2, c) == r.Arrived();
    RunsThreeSteps(s0, a, b, c);
  }

  lemma BothCreate(r: Race)
    requires r.Proper()
    ensures var actions := [Step(r.u, r.n, true), Step(r.t, r.m, true), Step(r.u, r.n, true)];
            IsRun(r.Arrived(), actions) && Run(r.Arrived(), actions) == r.Created()
  {
    var a, b := Step(r.u, r.n, true), Step(r.t, r.m, true);
    var s1 := r.Arrived().(callers := r.Callers(Creating, Creating));
    var s2 := s1.(callers := r.Callers(Inserting(r.m), Creating),
                  meetings := {r.m}, attendees := {(r.m, r.user)}, created := map[r.m := r.t]);
    assert Enabled(r.Arrived(), a) && Apply(r.Arrived(), a) == s1;
    assert Enabled(s1, b) && Apply(s1, b) == s2;
    assert Enabled(s2, a) && Apply(s2, a) == r.Created();
    RunsThreeSteps(r.Arrived(), a, b, a);
  }

  /** The first insert wins; the second caller is refused, and deletes nothing. */
  lemma FirstInsertWins(r: Race)
    requires r.Proper()
    ensures var actions := [Step(r.t, r.m, true), Step(r.u, r.n, true), Step(r.u, r.n, true)];
            IsRun(r.Created(), actions) && Run(r.Created(), actions) == r.Refused(Refetching)
  {
    var a, b := Step(r.t, r.m, true), Step(r.u, r.n, true);
    assert Enabled(r.Created(), a) && Apply(r.Created(), a) == r.Refused(Inserting(r.n));
    assert Enabled(r.Refused(Inserting(r.n)), b) && Apply(r.Refused(Inserting(r.n)), b) == r.Refused(Recovering);
    assert Enabled(r.Refused(Recovering), b) && Apply(r.Refused(Recovering), b) == r.Refused(Refetching);
    RunsThreeSteps(r.Created(), a, b, b);
  }

  lemma LoserAttendsRow(r: Race)
    requires r.Proper()
    ensures var actions := [Step(r.u, r.n, true), Step(r.u, r.n, true)];
            IsRun(r.Refused(Refetching), actions) && Run(r.Refused(Refetching), actions) == r.Over()
  {
    var b := Step(r.u, r.n, true);
    assert Enabled(r.Refused(Refetching), b) && Apply(r.Refused(Refetching), b) == r.Refused(Attending(r.m));
    assert Enabled(r.Refused(Attending(r.m)), b) && Apply(r.Refused(Attending(r.m)), b) == r.Over();
    hide Apply, Enabled;
    RunCons(r.Refused(Attending(r.m)), b, []);
    RunCons(r.Refused(Refetching), b, [b]);
    assert [b] + [] == [b] && [b] + [b] == [b, b];
  }

  function RaceActions(r: Race): seq<Action> {
    var a, b := Step(r.t, r.m, true), Step(r.u, r.n, true);
    ([Call(r.t, r.user), Call(r.u, r.other), a] + [b, a, b]) + ([a, b, b] + [b, b])
  }

  /** Student and volunteer ask at the same time: both get the meeting of the row, nobody is left to clean up, and the
      meeting of the one who came second is still alive. */
  lemma RaceLeavesMeeting(r: Race)
    requires r.Proper()
    ensures IsRun(Start(r.externalId), RaceActions(r))
    ensures var s := Run(Start(r.externalId), RaceActions(r));
            && s.row == Some(r.m) && s.callers == map[] && s.meetings == {r.m, r.n}
            && s.returned == map[r.t := (r.m, r.user), r.u := (r.m, r.other)]
  {
    var a, b := Step(r.t, r.m, true), Step(r.u, r.n, true);
    BothArrive(r);
    BothCreate(r);
    FirstInsertWins(r);
    LoserAttendsRow(r);
    hide Run, IsRun;
    RunConcat(Start(r.externalId), [Call(r.t, r.user), Call(r.u, r.other), a], [b, a, b]);
    RunConcat(r.Created(), [a, b, b], [b, b]);
    RunConcat(Start(r.externalId), [Call(r.t, r.user), Call(r.u, r.other), a] + [b, a, b], [a, b, b] + [b, b]);
  }
}
