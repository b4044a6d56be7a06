/**
 What calls achieve on the sessions of server/services/SessionService.ts when nothing comes in between, and what no call
 can achieve however they interleave.
 */
module SessionOutcomes {
  import opened Basics
  import opened SessionLifecycle

  /** The checks of startSession. */
  predicate MayStart(s: State, user: UserId, role: Role, banned: bool, requested: Option<UserId>, available: bool) {
    && !role.Volunteer? && !banned && !HasOpenSession(s, user)
    && (requested.Some? ==> available && !IsTutoring(s, requested.value))
  }


  /** A start, with nothing in between, inserts the session as it was asked for, keeps the request exactly when a
      tutor was asked for by a student who is not shadow-banned, and begins regular notifications, once, exactly
      when no tutor was asked for and the student is not shadow-banned. Nothing else changes. */
  lemma StartOpensSession(s: State, t: ThreadId, user: UserId, role: Role, banned: bool, shadowbanned: bool,
                          requested: Option<UserId>, available: bool, notify: bool, newId: SessionId)
    requires t !in s.threads && newId !in s.sessions && MayStart(s, user, role, banned, requested, available)
    ensures var actions := [StartSession(t, user, role, banned, shadowbanned, requested, available, notify)]
                           + [Step(t, newId), Step(t, newId), Step(t, newId)];
            && IsRun(s, actions)
            && var s' := Run(s, actions);
               && s'.sessions == s.sessions[newId := Session(user, shadowbanned, requested, None, false)]
               && s'.threads == s.threads
               && s'.notified
                  == (if !shadowbanned && requested.None? && notify then s.notified + multiset{newId} else s.notified)
               && s'.exclusive
                  == (if !shadowbanned && requested.Some? then s.exclusive[newId := requested.value] else s.exclusive)
  {
    var a, b := StartSession(t, user, role, banned, shadowbanned, requested, available, notify), Step(t, newId);
    var s1 := Spawn(s, t, StartChecked(user, shadowbanned, requested, notify));
    CheckedStart(s, a);
    CheckedStartRuns(s1, t, newId);
    hide IsRun, Run, Apply, Enabled, HasOpenSession, IsTutoring;
    RunCons(s, a, [b, b, b]);
    assert s1.threads - {t} == s.threads;
  }

  lemma CheckedStart(s: State, a: Action)
    requires a.StartSession? && a.t !in s.threads
    requires MayStart(s, a.user, a.role, a.banned, a.requested, a.available)
    ensures Enabled(s, a)
    ensures Apply(s, a) == Spawn(s, a.t, StartChecked(a.user, a.shadowbanned, a.requested, a.notify))
  {
    hide HasOpenSession, IsTutoring;
  }

  lemma CheckedStartRuns(s1: State, t: ThreadId, newId: SessionId)
    requires t in s1.threads && s1.threads[t].StartChecked? && newId !in s1.sessions
    ensures var b, pc := Step(t, newId), s1.threads[t];
            && IsRun(s1, [b, b, b])
            && var s' := Run(s1, [b, b, b]);
               && s'.sessions == s1.sessions[newId := Session(pc.user, pc.shadowbanned, pc.requested, None, false)]
               && s'.threads == s1.threads - {t}
               && s'.notified == (if !pc.shadowbanned && pc.requested.None? && pc.notify
                                  then s1.notified + multiset{newId} else s1.notified)
               && s'.exclusive == (if !pc.shadowbanned && pc.requested.Some?
                                   then s1.exclusive[newId := pc.requested.value] else s1.exclusive)
  {
    var b, pc := Step(t, newId), s1.threads[t];
    SessionInserted(s1, t, newId);
    var s2 := Apply(s1, b);
    RequestStored(s2, t, newId, pc.notify);
    var s3 := Apply(s2, b);
    NotificationsBegun(s3, t, newId, pc.notify);
    var s4 := Apply(s3, b);
    assert s4.threads == s1.threads - {t};
    assert IsRun(s4, []) && Run(s4, []) == s4;
    hide IsRun, Run, Apply, Enabled;
    RunCons(s3, b, []);
    RunCons(s2, b, [b]);
    RunCons(s1, b, [b, b]);
    assert [b] + [] == [b] && [b] + [b] == [b, b] && [b] + [b, b] == [b, b, b];
  }

  lemma SessionInserted(s: State, t: ThreadId, newId: SessionId)
    requires t in s.threads && s.threads[t].StartChecked? && newId !in s.sessions
    ensures Enabled(s, Step(t, newId))
    ensures var pc := s.threads[t];
            Apply(s, Step(t, newId))
            == Spawn(s, t, StartCreated(newId, pc.notify))
                 .(sessions := s.sessions[newId := Session(pc.user, pc.shadowbanned, pc.requested, None, false)])
  {
  }

  lemma RequestStored(s: State, t: ThreadId, sid: SessionId, notify: bool)
    requires t in s.threads && s.threads[t] == StartCreated(sid, notify) && sid in s.sessions
    ensures Enabled(s, Step(t, sid))
    ensures var s', x := Apply(s, Step(t, sid)), s.sessions[sid];
            && s'.sessions == s.sessions && s'.notified == s.notified
            && s'.threads == s.threads[t := StartStored(sid, notify)]
            && s'.exclusive == if !x.shadowbanned && x.requested.Some? then s.exclusive[sid := x.requested.value]
                               else s.exclusive
  {
  }

  lemma NotificationsBegun(s: State, t: ThreadId, sid: SessionId, notify: bool)
    requires t in s.threads && s.threads[t] == StartStored(sid, notify) && sid in s.sessions
    ensures Enabled(s, Step(t, sid))
    ensures var s', x := Apply(s, Step(t, sid)), s.sessions[sid];
            && s'.sessions == s.sessions && s'.threads == s.threads - {t} && s'.exclusive == s.exclusive
            && s'.notified == if !x.shadowbanned && x.requested.None? && notify then s.notified + multiset{sid}
                              else s.notified
  {
  }

  // ----- What is over stays over -----

  /** Threads that neither match a session nor begin notifications. */
  predicate Quiet(pc: Pc) {
    || pc.EndChecked?
    || ((pc.Clearing? || pc.Deleting?) && pc.purpose != ForBreakout(true))
  }

  ghost predicate Resting(s: State, sid: SessionId) {
    && sid in s.sessions && s.sessions[sid].Fulfilled()
    && forall t <- s.threads :: About(s.threads[t], sid) ==> Quiet(s.threads[t])
  }

  ghost predicate OnlyEnded(s: State, s': State, sid: SessionId)
    requires sid in s.sessions
  {
    && sid in s'.sessions && s'.notified[sid] == s.notified[sid] && s'.stored[sid] == s.stored[sid]
    && (s.sessions[sid].ended ==> s'.sessions[sid].ended)
    && s'.sessions[sid] == s.sessions[sid].(ended := s'.sessions[sid].ended)
  }

  lemma CallAtRest(s: State, a: Action, sid: SessionId)
    requires Resting(s, sid) && Enabled(s, a) && !a.Step? && !a.Crash?
    ensures Resting(Apply(s, a), sid) && OnlyEnded(s, Apply(s, a), sid)
  {
    hide HasOpenSession, IsTutoring, IsParticipant;
  }

  lemma AdvanceAtRest(s: State, t: ThreadId, newId: SessionId, sid: SessionId)
    requires Resting(s, sid) && Enabled(s, Step(t, newId))
    ensures Resting(Advance(s, t, newId), sid) && OnlyEnded(s, Advance(s, t, newId), sid)
  {
    var pc, s' := s.threads[t], Advance(s, t, newId);
    SessionsAfterStep(s, t, newId);
    HashAfterStep(s, t, newId);
    ThreadsAfterStep(s, t, newId);
    NotificationsAfterStep(s, t, newId);
    if About(pc, sid) {
      assert Quiet(pc);
      assert t in s'.threads ==> Quiet(s'.threads[t]);
    }
    hide Advance;
  }

  lemma StepAtRest(s: State, a: Action, sid: SessionId)
    requires Resting(s, sid) && Enabled(s, a)
    ensures Resting(Apply(s, a), sid) && OnlyEnded(s, Apply(s, a), sid)
  {
    match a
    case Step(t, newId) => AdvanceAtRest(s, t, newId, sid);
    case Crash(_) =>
    case _ => CallAtRest(s, a, sid);
  }

  /** Once a session is matched or ended, and the threads that began before have come to their end, no run stores a
      request for it, begins notifications for it or changes its tutor; once it is ended, nothing about it changes. */
  lemma {:induction false} FulfilledSessionsRest(s: State, actions: seq<Action>, sid: SessionId)
    requires Resting(s, sid) && IsRun(s, actions)
    ensures OnlyEnded(s, Run(s, actions), sid)
    ensures s.sessions[sid].ended ==> Run(s, actions).sessions[sid] == s.sessions[sid]
    decreases |actions|
  {
    assert OnlyEnded(s, s, sid);
    hide Apply, Enabled;
    if actions != [] {
      StepAtRest(s, actions[0], sid);
      FulfilledSessionsRest(Apply(s, actions[0]), actions[1..], sid);
    }
  }

  // ----- What nobody asked for does not happen -----

  /** The user is the tutor, or is about to be. */
  ghost predicate Matching(s: State, sid: SessionId, user: UserId) {
    || (sid in s.sessions && s.sessions[sid].volunteer == Some(user))
    || exists t <- s.threads :: s.threads[t] == JoinChecked(sid, user)
  }

  predicate IsJoin(a: Action, sid: SessionId, user: UserId) {
    a.JoinSession? && a.sid == sid && a.user == user && a.role.Volunteer?
  }

  lemma MatchingAdvance(s: State, t: ThreadId, newId: SessionId, sid: SessionId, user: UserId)
    requires Enabled(s, Step(t, newId)) && Matching(Advance(s, t, newId), sid, user)
    ensures Matching(s, sid, user)
  {
    var s' := Advance(s, t, newId);
    SessionsAfterStep(s, t, newId);
    ThreadsAfterStep(s, t, newId);
    assert t in s'.threads ==> !s'.threads[t].JoinChecked?;
    hide Advance;
    if s.threads[t].JoinChecked? && s.threads[t].sid == sid && s.threads[t].user == user {
      assert s.threads[t] == JoinChecked(sid, user);
    } else if u :| u in s'.threads && s'.threads[u] == JoinChecked(sid, user) {
      assert u in s.threads && s.threads[u] == JoinChecked(sid, user);
    }
  }

  lemma MatchingStep(s: State, a: Action, sid: SessionId, user: UserId)
    requires Enabled(s, a) && Matching(Apply(s, a), sid, user)
    ensures Matching(s, sid, user) || IsJoin(a, sid, user)
  {
    match a
    case Step(t, newId) => MatchingAdvance(s, t, newId, sid, user);
    case Crash(_) =>
    case _ =>
      CallsOnlySpawn(s, a);
      hide CanJoin, HasOpenSession, IsTutoring, IsParticipant;
  }

  /** A session's tutor has joined it, as a volunteer. */
  lemma {:induction false} TutorHasJoined(s: State, actions: seq<Action>, sid: SessionId, user: UserId)
    requires IsRun(s, actions) && Matching(Run(s, actions), sid, user)
    ensures Matching(s, sid, user) || exists a <- actions :: IsJoin(a, sid, user)
    decreases |actions|
  {
    hide Apply, Enabled, Matching, IsJoin;
    if actions != [] {
      TutorHasJoined(Apply(s, actions[0]), actions[1..], sid, user);
      if Matching(Apply(s, actions[0]), sid, user) {
        MatchingStep(s, actions[0], sid, user);
        assert actions[0] in actions;
      } else {
        var a :| a in actions[1..] && IsJoin(a, sid, user);
        assert a in actions;
      }
    }
  }

  /** The session is ended, or is about to be. */
  ghost predicate Ending(s: State, sid: SessionId) {
    || (sid in s.sessions && s.sessions[sid].ended)
    || exists t <- s.threads :: s.threads[t] == EndChecked(sid)
  }

  predicate IsEnd(s: State, a: Action, sid: SessionId) {
    a.EndSession? && a.sid == sid && sid in s.sessions && (a.isAdmin || IsParticipant(s.sessions[sid], a.endedBy))
  }

  lemma EndingAdvance(s: State, t: ThreadId, newId: SessionId, sid: SessionId)
    requires Enabled(s, Step(t, newId)) && Ending(Advance(s, t, newId), sid)
    ensures Ending(s, sid)
  {
    var s' := Advance(s, t, newId);
    SessionsAfterStep(s, t, newId);
    ThreadsAfterStep(s, t, newId);
    assert t in s'.threads ==> !s'.threads[t].EndChecked?;
    hide Advance;
    if s.threads[t].EndChecked? && s.threads[t].sid == sid {
      assert s.threads[t] == EndChecked(sid);
    } else if u :| u in s'.threads && s'.threads[u] == EndChecked(sid) {
      assert u in s.threads && s.threads[u] == EndChecked(sid);
    }
  }

  lemma EndingStep(s: State, a: Action, sid: SessionId)
    requires Enabled(s, a) && Ending(Apply(s, a), sid)
    ensures Ending(s, sid) || IsEnd(s, a, sid)
  {
    match a
    case Step(t, newId) => EndingAdvance(s, t, newId, sid);
    case Crash(_) =>
    case _ =>
      CallsOnlySpawn(s, a);
      hide CanJoin, HasOpenSession, IsTutoring, IsParticipant;
  }

  lemma ParticipantsStay(s: State, s': State, a: Action, sid: SessionId)
    requires Persists(s, s') && IsEnd(s, a, sid)
    ensures IsEnd(s', a, sid)
  {
  }

  lemma {:induction false} RunPersists(s: State, actions: seq<Action>)
    requires IsRun(s, actions)
    ensures Persists(s, Run(s, actions))
    decreases |actions|
  {
    hide Apply, Enabled;
    if actions != [] {
      StepPersists(s, actions[0]);
      RunPersists(Apply(s, actions[0]), actions[1..]);
    }
  }

  /** A session that has ended was ended by an admin or by its student or tutor. */
  lemma {:induction false} EndedByParticipant(s: State, actions: seq<Action>, sid: SessionId)
    requires IsRun(s, actions) && Ending(Run(s, actions), sid)
    ensures Ending(s, sid) || exists a <- actions :: IsEnd(Run(s, actions), a, sid)
    decreases |actions|
  {
    hide Apply, Enabled, Ending, IsEnd, Persists;
    if actions != [] {
      var next := Apply(s, actions[0]);
      EndedByParticipant(next, actions[1..], sid);
      if Ending(next, sid) {
        EndingStep(s, actions[0], sid);
        if !Ending(s, sid) {
          RunPersists(s, actions);
          ParticipantsStay(s, Run(s, actions), actions[0], sid);
          assert actions[0] in actions;
        }
      } else {
        var a :| a in actions[1..] && IsEnd(Run(next, actions[1..]), a, sid);
        assert a in actions;
      }
    }
  }

  predicate OpensUp(pc: Pc, sid: SessionId) {
    || pc == Notifying(sid)
    || ((pc.Clearing? || pc.Deleting?) && pc.sid == sid && pc.purpose == ForBreakout(true))
  }

  /** Regular notifications have begun for a session whose student asked for a tutor, or are about to. */
  ghost predicate Opening(s: State, sid: SessionId) {
    && (sid in s.sessions ==> s.sessions[sid].requested.Some?)
    && (s.notified[sid] > 0 || exists t <- s.threads :: OpensUp(s.threads[t], sid))
  }

  predicate IsBreakout(s: State, a: Action, sid: SessionId) {
    a.Breakout? && a.sid == sid && a.mayNotify && sid in s.sessions && a.user == s.sessions[sid].student
  }

  lemma OpeningAdvance(s: State, t: ThreadId, newId: SessionId, sid: SessionId)
    requires Enabled(s, Step(t, newId)) && Opening(Advance(s, t, newId), sid)
    ensures Opening(s, sid)
  {
    var s', pc := Advance(s, t, newId), s.threads[t];
    SessionsAfterStep(s, t, newId);
    ThreadsAfterStep(s, t, newId);
    NotificationsAfterStep(s, t, newId);
    assert t in s'.threads && OpensUp(s'.threads[t], sid) ==> OpensUp(pc, sid);
    assert s'.notified != s.notified && pc.StartStored? && pc.sid in s.sessions ==> s.sessions[pc.sid].requested.None?;
    hide Advance;
    if u :| u in s'.threads && u != t && OpensUp(s'.threads[u], sid) {
      assert u in s.threads && OpensUp(s.threads[u], sid);
    }
  }

  lemma OpeningStep(s: State, a: Action, sid: SessionId)
    requires Enabled(s, a) && Opening(Apply(s, a), sid)
    ensures Opening(s, sid) || IsBreakout(s, a, sid)
  {
    match a
    case Step(t, newId) => OpeningAdvance(s, t, newId, sid);
    case Crash(_) =>
    case _ =>
      CallsOnlySpawn(s, a);
      hide CanJoin, HasOpenSession, IsTutoring, IsParticipant;
  }

  lemma StudentStays(s: State, s': State, a: Action, sid: SessionId)
    requires Persists(s, s') && IsBreakout(s, a, sid)
    ensures IsBreakout(s', a, sid)
  {
  }

  lemma {:induction false} OpenedUpByStudent(s: State, actions: seq<Action>, sid: SessionId)
    requires IsRun(s, actions) && Opening(Run(s, actions), sid)
    ensures Opening(s, sid) || exists a <- actions :: IsBreakout(Run(s, actions), a, sid)
    decreases |actions|
  {
    if actions != [] {
      var next := Apply(s, actions[0]);
      hide Apply, Enabled, Opening, IsBreakout, Persists;
      OpenedUpByStudent(next, actions[1..], sid);
      if Opening(next, sid) {
        OpeningStep(s, actions[0], sid);
        if !Opening(s, sid) {
          RunPersists(s, actions);
          StudentStays(s, Run(s, actions), actions[0], sid);
          assert actions[0] in actions;
        }
      } else {
        var a :| a in actions[1..] && IsBreakout(Run(next, actions[1..]), a, sid);
        assert a in actions;
      }
    }
  }

  /** A session with these particulars is there, or is about to be inserted. */
  ghost predicate Starting(s: State, user: UserId, shadowbanned: bool, requested: Option<UserId>) {
    || (exists sid <- s.sessions :: IsOf(s.sessions[sid], user, shadowbanned, requested))
    || (exists t <- s.threads :: IsStartOf(s.threads[t], user, shadowbanned, requested))
  }

  predicate IsOf(x: Session, user: UserId, shadowbanned: bool, requested: Option<UserId>) {
    x.student == user && x.shadowbanned == shadowbanned && x.requested == requested
  }

  predicate IsStartOf(pc: Pc, user: UserId, shadowbanned: bool, requested: Option<UserId>) {
    pc.StartChecked? && pc.user == user && pc.shadowbanned == shadowbanned && pc.requested == requested
  }

  predicate IsStart(a: Action, user: UserId, shadowbanned: bool, requested: Option<UserId>) {
    && a.StartSession? && a.user == user && a.shadowbanned == shadowbanned && a.requested == requested
    && !a.role.Volunteer? && !a.banned && (requested.Some? ==> a.available)
  }

  lemma StartingAdvance(s: State, t: ThreadId, newId: SessionId, user: UserId, shadowbanned: bool,
                        requested: Option<UserId>)
    requires Enabled(s, Step(t, newId)) && Starting(Advance(s, t, newId), user, shadowbanned, requested)
    ensures Starting(s, user, shadowbanned, requested)
  {
    var s' := Advance(s, t, newId);
    SessionsAfterStep(s, t, newId);
    ThreadsAfterStep(s, t, newId);
    hide Advance;
    if u :| u in s'.threads && IsStartOf(s'.threads[u], user, shadowbanned, requested) {
      assert u in s.threads && s.threads[u] == s'.threads[u];
    } else {
      var sid :| sid in s'.sessions && IsOf(s'.sessions[sid], user, shadowbanned, requested);
      if sid in s.sessions {
        assert IsOf(s.sessions[sid], user, shadowbanned, requested);
      } else {
        assert IsStartOf(s.threads[t], user, shadowbanned, requested);
      }
    }
  }

  lemma StartingStep(s: State, a: Action, user: UserId, shadowbanned: bool, requested: Option<UserId>)
    requires Enabled(s, a) && Starting(Apply(s, a), user, shadowbanned, requested)
    ensures Starting(s, user, shadowbanned, requested) || IsStart(a, user, shadowbanned, requested)
  {
    match a
    case Step(t, newId) => StartingAdvance(s, t, newId, user, shadowbanned, requested);
    case Crash(_) =>
    case _ =>
      CallsOnlySpawn(s, a);
      hide CanJoin, HasOpenSession, IsTutoring, IsParticipant;
  }

  lemma {:induction false} StartedByStudent(s: State, actions: seq<Action>, user: UserId, shadowbanned: bool,
                                            requested: Option<UserId>)
    requires IsRun(s, actions) && Starting(Run(s, actions), user, shadowbanned, requested)
    ensures Starting(s, user, shadowbanned, requested)
         || exists a <- actions :: IsStart(a, user, shadowbanned, requested)
    decreases |actions|
  {
    hide Apply, Enabled, Starting, IsStart;
    if actions != [] {
      StartedByStudent(Apply(s, actions[0]), actions[1..], user, shadowbanned, requested);
      if Starting(Apply(s, actions[0]), user, shadowbanned, requested) {
        StartingStep(s, actions[0], user, shadowbanned, requested);
        assert actions[0] in actions;
      } else {
        var a :| a in actions[1..] && IsStart(a, user, shadowbanned, requested);
        assert a in actions;
      }
    }
  }

  /** A start whose checks fail changes nothing, and only such a start does. */
  lemma StartRefusedIff(s: State, t: ThreadId, user: UserId, role: Role, banned: bool, shadowbanned: bool,
                        requested: Option<UserId>, available: bool, notify: bool)
    requires t !in s.threads
    ensures Apply(s, StartSession(t, user, role, banned, shadowbanned, requested, available, notify)) == s
       <==> !MayStart(s, user, role, banned, requested, available)
  {
    hide HasOpenSession, IsTutoring;
  }

  /** However calls interleave: a session was started, as it says, by its student, who was not banned; its tutor has
      joined as a volunteer; if it has ended, an admin or its student or tutor ended it; and where the student asked
      for a tutor, notifications begin only once that student opens up. */
  lemma NothingUnasked(admins: set<UserId>, actions: seq<Action>, sid: SessionId)
    requires IsRun(Start(admins), actions) && sid in Run(Start(admins), actions).sessions
    ensures var s := Run(Start(admins), actions);
            var x := s.sessions[sid];
            && (exists a <- actions :: IsStart(a, x.student, x.shadowbanned, x.requested))
            && (x.volunteer.Some? ==> exists a <- actions :: IsJoin(a, sid, x.volunteer.value))
            && (x.ended ==> exists a <- actions :: IsEnd(s, a, sid))
            && (x.requested.Some? && s.notified[sid] > 0 ==> exists a <- actions :: IsBreakout(s, a, sid))
  {
    var s := Run(Start(admins), actions);
    var x := s.sessions[sid];
    assert IsOf(x, x.student, x.shadowbanned, x.requested);
    StartedByStudent(Start(admins), actions, x.student, x.shadowbanned, x.requested);
    if x.volunteer.Some? {
      TutorHasJoined(Start(admins), actions, sid, x.volunteer.value);
    }
    if x.ended {
      EndedByParticipant(Start(admins), actions, sid);
    }
    if x.requested.Some? && s.notified[sid] > 0 {
      OpenedUpByStudent(Start(admins), actions, sid);
    }
  }

  // ----- The clean-up job -----

  /** The job for unmatched sessions takes the request out of the hash, if it is there, and does nothing else. */
  lemma CleanUpTakesRequest(s: State, t: ThreadId, sid: SessionId)
    requires t !in s.threads && sid in s.sessions
    ensures var actions := [CleanUp(t, sid)] + ClearSteps(s, t, sid);
            && IsRun(s, actions)
            && var s' := Run(s, actions);
               && sid !in s'.exclusive && s'.sessions == s.sessions && s'.notified == s.notified
                   && s'.threads == s.threads
               && s'.cleared == (if sid in s.exclusive then s.cleared + multiset{sid} else s.cleared)
  {
    var a := CleanUp(t, sid);
    var s1 := Spawn(s, t, Clearing(sid, ForCleanUp));
    assert Enabled(s, a) && Apply(s, a) == s1;
    Clears(s1, t, sid, ForCleanUp);
    hide Apply, Run, IsRun, Enabled;
    RunCons(s, a, ClearSteps(s, t, sid));
    assert s1.threads - {t} == s.threads;
  }
}
