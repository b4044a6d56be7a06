/**
 The life of tutoring sessions (server/services/SessionService.ts) and of the hash of exclusive
 requests (server/services/NotifyVolunteerService.ts), with the clean-up job of
 server/worker/jobs/endUnmatchedSession.ts. Each handler is a thread whose database and
 Redis commands are single steps; any number of threads interleave, and any may fail at any step.
 */
module SessionLifecycle {
  import opened Basics

  type UserId = nat
  type SessionId = nat
  type ThreadId = nat

  /** `requested` is the volunteer the student asked for when starting the session. */
  datatype Session = Session(
    student: UserId, shadowbanned: bool, requested: Option<UserId>, volunteer: Option<UserId>, ended: bool)
  {
    /** isSessionFulfilled */
    predicate Fulfilled() {
      ended || volunteer.Some?
    }

    /** The request is kept in the hash until the session is matched, ended or opened up. */
    predicate Exclusive() {
      requested.Some? && !shadowbanned
    }
  }

  /** Who called clearExclusiveRequest. */
  datatype Purpose = ForJoin | ForEnd | ForBreakout(mayNotify: bool) | ForCleanUp

  /** What a thread does next. */
  datatype Pc =
    | StartChecked(user: UserId, shadowbanned: bool, requested: Option<UserId>, notify: bool) // createSession
    | StartCreated(sid: SessionId, notify: bool)    // HSET, if the request is exclusive
    | StartStored(sid: SessionId, notify: bool)     // beginRegularNotifications, if it is not
    | JoinChecked(sid: SessionId, user: UserId)     // updateSessionVolunteerById
    | EndChecked(sid: SessionId)                    // updateSessionToEnd
    | Clearing(sid: SessionId, purpose: Purpose)    // HGET
    | Deleting(sid: SessionId, purpose: Purpose)    // HDEL
    | Notifying(sid: SessionId)                     // beginRegularNotifications

  datatype State = State(
    admins: set<UserId>,
    sessions: map<SessionId, Session>,
    exclusive: map<SessionId, UserId>,
    threads: map<ThreadId, Pc>,
    notified: multiset<SessionId>,       // history: calls of beginRegularNotifications
    stored: multiset<SessionId>,         // history: HSETs of exclusive requests
    cleared: multiset<SessionId>,        // history: calls of clearExclusiveRequest that returned true
    reported: set<(SessionId, UserId)>)  // history: initial joins past their update, and whom they name as tutor

  datatype Role = Student | Volunteer | OtherRole

  datatype Action =
    | StartSession(t: ThreadId, user: UserId, role: Role, banned: bool, shadowbanned: bool,
                   requested: Option<UserId>, available: bool, notify: bool)
    | JoinSession(t: ThreadId, user: UserId, role: Role, sid: SessionId)
    | EndSession(t: ThreadId, endedBy: Option<UserId>, isAdmin: bool, sid: SessionId)
    | Breakout(t: ThreadId, user: UserId, mayNotify: bool, sid: SessionId)
    | CleanUp(t: ThreadId, sid: SessionId)  // the job for unmatched sessions, before it looks whether to end one
    | Step(t: ThreadId, newId: SessionId)
    | Crash(t: ThreadId)

  predicate HasOpenSession(s: State, user: UserId) {
    exists sid <- s.sessions :: var x := s.sessions[sid];
      !x.ended && (x.student == user || x.volunteer == Some(user))
  }

  predicate IsTutoring(s: State, user: UserId) {
    exists sid <- s.sessions :: !s.sessions[sid].ended && s.sessions[sid].volunteer == Some(user)
  }

  /** The checks of ensureCanJoinSession that let a caller through. */
  predicate CanJoin(s: State, user: UserId, role: Role, x: Session) {
    && !(role.Volunteer? && x.shadowbanned && user !in s.admins)
    && !x.ended
    && !(role.Student? && x.student != user)
    && !(role.Volunteer? && x.volunteer.Some? && x.volunteer.value != user)
    && !(role.Volunteer? && x.student == user)
  }

  predicate IsParticipant(x: Session, user: Option<UserId>) {
    user.Some? && (user.value == x.student || Some(user.value) == x.volunteer)
  }

  predicate Enabled(s: State, a: Action) {
    match a
    case Step(t, newId) => t in s.threads && (s.threads[t].StartChecked? ==> newId !in s.sessions)
    case Crash(t) => t in s.threads
    case _ => a.t !in s.threads
  }

  function Spawn(s: State, t: ThreadId, pc: Pc): State {
    s.(threads := s.threads[t := pc])
  }

  function Finish(s: State, t: ThreadId): State {
    s.(threads := s.threads - {t})
  }

  /** A handler whose checks fail throws and changes nothing. */
  function Apply(s: State, a: Action): State
    requires Enabled(s, a)
  {
    match a
    case StartSession(t, user, role, banned, shadowbanned, requested, available, notify) =>
      if role.Volunteer? || banned || HasOpenSession(s, user)
         || (requested.Some? && (!available || IsTutoring(s, requested.value)))
      then s
      else Spawn(s, t, StartChecked(user, shadowbanned, requested, notify))
    case JoinSession(t, user, role, sid) =>
      if sid !in s.sessions || !CanJoin(s, user, role, s.sessions[sid]) then s
      else if role.Volunteer? && s.sessions[sid].volunteer.None? then Spawn(s, t, JoinChecked(sid, user))
      else s
    case EndSession(t, endedBy, isAdmin, sid) =>
      if sid !in s.sessions || s.sessions[sid].ended || (!isAdmin && !IsParticipant(s.sessions[sid], endedBy)) then s
      else Spawn(s, t, EndChecked(sid))
    case Breakout(t, user, mayNotify, sid) =>
      if sid !in s.sessions || s.sessions[sid].student != user || s.sessions[sid].Fulfilled() then s
      else Spawn(s, t, Clearing(sid, ForBreakout(mayNotify)))
    case CleanUp(t, sid) => if sid in s.sessions then Spawn(s, t, Clearing(sid, ForCleanUp)) else s
    case Step(t, newId) => Advance(s, t, newId)
    case Crash(t) => Finish(s, t)
  }

  function Advance(s: State, t: ThreadId, newId: SessionId): State
    requires t in s.threads && (s.threads[t].StartChecked? ==> newId !in s.sessions)
  {
    match s.threads[t]
    case StartChecked(user, shadowbanned, requested, notify) =>
      Spawn(s, t, StartCreated(newId, notify))
        .(sessions := s.sessions[newId := Session(user, shadowbanned, requested, None, false)])
    case StartCreated(sid, notify) =>
      var next := Spawn(s, t, StartStored(sid, notify));
      if sid in s.sessions && s.sessions[sid].Exclusive() then
        next.(exclusive := s.exclusive[sid := s.sessions[sid].requested.value],
              stored := s.stored + multiset{sid})
      else next
    case StartStored(sid, notify) =>
      var next := Finish(s, t);
      if sid in s.sessions && !s.sessions[sid].shadowbanned && s.sessions[sid].requested.None? && notify
      then next.(notified := s.notified + multiset{sid})
      else next
    case JoinChecked(sid, user) =>
      // Compare and set: an update of no row is not an error, and the caller reports itself as tutor either way.
      var next := Spawn(s, t, Clearing(sid, ForJoin)).(reported := s.reported + {(sid, user)});
      if sid in s.sessions && s.sessions[sid].volunteer.None?
      then next.(sessions := s.sessions[sid := s.sessions[sid].(volunteer := Some(user))])
      else next
    case EndChecked(sid) =>
      var next := Spawn(s, t, Clearing(sid, ForEnd));
      if sid in s.sessions then next.(sessions := s.sessions[sid := s.sessions[sid].(ended := true)]) else next
    case Clearing(sid, purpose) =>
      if sid in s.exclusive then Spawn(s, t, Deleting(sid, purpose)) else Finish(s, t)
    case Deleting(sid, purpose) =>
      if sid !in s.exclusive then Finish(s, t)
      else
        var next := if purpose.ForBreakout? && purpose.mayNotify then Spawn(s, t, Notifying(sid)) else Finish(s, t);
        next.(exclusive := s.exclusive - {sid}, cleared := s.cleared + multiset{sid})
    case Notifying(sid) => Finish(s, t).(notified := s.notified + multiset{sid})
  }

  // ----- What no step undoes -----

  /** Sessions stay; who asked for them stays; an end is final; the tutor is written once. */
  ghost predicate Persists(s: State, s': State) {
    forall sid <- s.sessions ::
      && sid in s'.sessions
      && var x, x' := s.sessions[sid], s'.sessions[sid];
         && x'.student == x.student && x'.shadowbanned == x.shadowbanned && x'.requested == x.requested
         && (x.ended ==> x'.ended)
         && (x.volunteer.Some? ==> x'.volunteer == x.volunteer)
  }

  /** A call only starts a thread, past its checks. */
  lemma CallsOnlySpawn(s: State, a: Action)
    requires Enabled(s, a) && !a.Step? && !a.Crash?
    ensures var s' := Apply(s, a);
            s' != s ==> a.t in s'.threads && s' == Spawn(s, a.t, s'.threads[a.t])
                        && (s'.threads[a.t].StartChecked? ==> !HasOpenSession(s, s'.threads[a.t].user))
  {
    hide CanJoin, HasOpenSession, IsTutoring, IsParticipant;
  }

  /** The three commands that write to the session table. */
  lemma SessionsAfterStep(s: State, t: ThreadId, newId: SessionId)
    requires Enabled(s, Step(t, newId))
    ensures var pc, after := s.threads[t], Advance(s, t, newId).sessions;
            if pc.StartChecked? then
              after == s.sessions[newId := Session(pc.user, pc.shadowbanned, pc.requested, None, false)]
            else if pc.JoinChecked? && pc.sid in s.sessions && s.sessions[pc.sid].volunteer.None? then
              after == s.sessions[pc.sid := s.sessions[pc.sid].(volunteer := Some(pc.user))]
            else if pc.EndChecked? && pc.sid in s.sessions then
              after == s.sessions[pc.sid := s.sessions[pc.sid].(ended := true)]
            else after == s.sessions
  {
    match s.threads[t]
    case StartChecked(_, _, _, _) =>
    case JoinChecked(_, _) =>
    case EndChecked(_) =>
    case _ =>
  }

  /** The two commands that write to the hash. */
  lemma HashAfterStep(s: State, t: ThreadId, newId: SessionId)
    requires Enabled(s, Step(t, newId))
    ensures var pc, s' := s.threads[t], Advance(s, t, newId);
            if pc.StartCreated? && pc.sid in s.sessions && s.sessions[pc.sid].Exclusive() then
              && s'.exclusive == s.exclusive[pc.sid := s.sessions[pc.sid].requested.value]
              && s'.stored == s.stored + multiset{pc.sid} && s'.cleared == s.cleared
            else if pc.Deleting? && pc.sid in s.exclusive then
              && s'.exclusive == s.exclusive - {pc.sid}
              && s'.cleared == s.cleared + multiset{pc.sid} && s'.stored == s.stored
            else
              s'.exclusive == s.exclusive && s'.stored == s.stored && s'.cleared == s.cleared
  {
  }

  /** A step moves its own thread on, about the same session, or ends it. */
  lemma ThreadsAfterStep(s: State, t: ThreadId, newId: SessionId)
    requires Enabled(s, Step(t, newId))
    ensures var pc, s' := s.threads[t], Advance(s, t, newId);
            if t in s'.threads then
              && s'.threads == s.threads[t := s'.threads[t]] && !s'.threads[t].StartChecked?
              && s'.threads[t].sid == if pc.StartChecked? then newId else pc.sid
            else s'.threads == s.threads - {t}
  {
    var pc, s' := s.threads[t], Advance(s, t, newId);
    if pc.Deleting? {
      DeletingThread(s, t, newId);
    } else if t in s'.threads {
      assert s'.threads == s.threads[t := s'.threads[t]];
    }
  }

  lemma DeletingThread(s: State, t: ThreadId, newId: SessionId)
    requires t in s.threads && s.threads[t].Deleting?
    ensures var pc, threads := s.threads[t], Advance(s, t, newId).threads;
            threads == s.threads - {t} || threads == s.threads[t := Notifying(pc.sid)]
  {
  }

  lemma NotificationsAfterStep(s: State, t: ThreadId, newId: SessionId)
    requires Enabled(s, Step(t, newId))
    ensures var pc, s' := s.threads[t], Advance(s, t, newId);
            && s'.admins == s.admins
            && (s'.notified == s.notified || ((pc.StartStored? || pc.Notifying?)
                && s'.notified == s.notified + multiset{pc.sid}))
  {
  }

  lemma StepPersists(s: State, a: Action)
    requires Enabled(s, a)
    ensures Persists(s, Apply(s, a))
  {
    match a
    case Step(t, newId) => SessionsAfterStep(s, t, newId); hide Advance;
    case Crash(_) =>
    case _ => CallsOnlySpawn(s, a); hide Apply;
  }

  // ----- What every step keeps, one session at a time -----

  predicate About(pc: Pc, sid: SessionId) {
    !pc.StartChecked? && pc.sid == sid
  }

  predicate IsCreator(pc: Pc, sid: SessionId) {
    (pc.StartCreated? || pc.StartStored?) && pc.sid == sid
  }

  predicate IsNotifier(pc: Pc, sid: SessionId) {
    pc.Notifying? && pc.sid == sid
  }

  predicate WillClear(pc: Pc, sid: SessionId) {
    (pc.Clearing? || pc.Deleting?) && pc.sid == sid
  }

  /** The tutor is never the session's own student, and only an admin tutors a shadow-banned student. */
  predicate MayTutor(s: State, x: Session, user: UserId) {
    user != x.student && (x.shadowbanned ==> user in s.admins)
  }

  /** Nothing is known about a session that does not exist. */
  ghost predicate Unborn(s: State, sid: SessionId) {
    && sid !in s.sessions && sid !in s.exclusive
    && s.stored[sid] == s.cleared[sid] == s.notified[sid] == 0
    && (forall t <- s.threads :: !About(s.threads[t], sid))
  }

  /** A request is stored at most once, and is then either still in the hash or was cleared by exactly one caller. */
  predicate RequestAccounted(s: State, sid: SessionId, x: Session) {
    && s.stored[sid] == s.cleared[sid] + (if sid in s.exclusive then 1 else 0)
    && s.stored[sid] <= 1
    && (s.stored[sid] > 0 ==> x.Exclusive())
  }

  /** Regular notifications begin at most once: by the start if no tutor was asked for, else by the
      breakout that cleared the request. */
  predicate NotifiedOnce(s: State, sid: SessionId, x: Session) {
    && s.notified[sid] <= 1
    && (s.notified[sid] > 0 ==> !x.shadowbanned && (x.requested.Some? ==> s.cleared[sid] > 0))
  }

  predicate ThreadOk(s: State, pc: Pc, sid: SessionId, x: Session) {
    match pc
    case JoinChecked(_, user) => MayTutor(s, x, user)
    case StartCreated(_, _) => s.stored[sid] == 0 && (x.requested.None? ==> s.notified[sid] == 0)
    case StartStored(_, _) => x.requested.None? ==> s.notified[sid] == 0
    case Notifying(_) => s.cleared[sid] > 0 && s.notified[sid] == 0
    case _ => true
  }

  ghost predicate ThreadsOk(s: State, sid: SessionId, x: Session) {
    && (forall t <- s.threads :: About(s.threads[t], sid) ==> ThreadOk(s, s.threads[t], sid, x))
    && (forall t <- s.threads, u <- s.threads ::
          IsCreator(s.threads[t], sid) && IsCreator(s.threads[u], sid) ==> t == u)
    && (forall t <- s.threads, u <- s.threads ::
          IsNotifier(s.threads[t], sid) && IsNotifier(s.threads[u], sid) ==> t == u)
  }

  ghost predicate InvFor(s: State, sid: SessionId) {
    if sid !in s.sessions then Unborn(s, sid)
    else
      var x := s.sessions[sid];
      && (x.volunteer.Some? ==> MayTutor(s, x, x.volunteer.value))
      && RequestAccounted(s, sid, x)
      && NotifiedOnce(s, sid, x)
      && ThreadsOk(s, sid, x)
  }

  /** Nothing recorded about the session differs. */
  ghost predicate SameData(s: State, s': State, sid: SessionId) {
    && s'.admins == s.admins
    && (sid in s'.sessions <==> sid in s.sessions)
    && (sid in s.sessions ==> s'.sessions[sid] == s.sessions[sid])
    && (sid in s'.exclusive <==> sid in s.exclusive)
    && s'.stored[sid] == s.stored[sid] && s'.cleared[sid] == s.cleared[sid] && s'.notified[sid] == s.notified[sid]
  }

  ghost predicate OtherThreadsSame(s: State, s': State, t: ThreadId) {
    forall u :: u != t ==> (u in s.threads <==> u in s'.threads) && (u in s.threads ==> s'.threads[u] == s.threads[u])
  }

  /** A step that replaces one thread by another harmless one, or by none, and touches no data of the session. */
  lemma ThreadReplaced(s: State, s': State, t: ThreadId, sid: SessionId)
    requires InvFor(s, sid)
    requires SameData(s, s', sid) && OtherThreadsSame(s, s', t)
    requires t in s'.threads && About(s'.threads[t], sid) ==>
               && sid in s.sessions
               && ThreadOk(s, s'.threads[t], sid, s.sessions[sid])
               && !s'.threads[t].Notifying?
               && (IsCreator(s'.threads[t], sid) ==> t in s.threads && IsCreator(s.threads[t], sid))
    ensures InvFor(s', sid)
  {
  }

  lemma SpawnedThreadIsHarmless(s: State, t: ThreadId, pc: Pc, sid: SessionId)
    requires InvFor(s, sid) && t !in s.threads
    requires pc.StartChecked? || pc.JoinChecked? || pc.EndChecked? || pc.Clearing?
    requires !pc.StartChecked? ==> pc.sid in s.sessions && ThreadOk(s, pc, pc.sid, s.sessions[pc.sid])
    ensures InvFor(Spawn(s, t, pc), sid)
  {
    ThreadReplaced(s, Spawn(s, t, pc), t, sid);
  }

  lemma SpawnKeepsInv(s: State, a: Action, sid: SessionId)
    requires InvFor(s, sid) && Enabled(s, a) && !a.Step? && !a.Crash?
    ensures InvFor(Apply(s, a), sid)
  {
    if Apply(s, a) != s {
      match a
      case StartSession(t, user, _, _, shadowbanned, requested, _, notify) =>
        SpawnedThreadIsHarmless(s, t, StartChecked(user, shadowbanned, requested, notify), sid);
      case JoinSession(t, user, _, on) => SpawnedThreadIsHarmless(s, t, JoinChecked(on, user), sid);
      case EndSession(t, _, _, on) => SpawnedThreadIsHarmless(s, t, EndChecked(on), sid);
      case Breakout(t, _, mayNotify, on) => SpawnedThreadIsHarmless(s, t, Clearing(on, ForBreakout(mayNotify)), sid);
      case CleanUp(t, on) => SpawnedThreadIsHarmless(s, t, Clearing(on, ForCleanUp), sid);
    }
  }

  lemma CrashKeepsInv(s: State, t: ThreadId, sid: SessionId)
    requires InvFor(s, sid) && Enabled(s, Crash(t))
    ensures InvFor(Apply(s, Crash(t)), sid)
  {
    ThreadReplaced(s, Apply(s, Crash(t)), t, sid);
  }

  lemma CreateKeepsInv(s: State, t: ThreadId, newId: SessionId, sid: SessionId)
    requires InvFor(s, sid) && t in s.threads && s.threads[t].StartChecked? && newId !in s.sessions
    ensures InvFor(Advance(s, t, newId), sid)
  {
    var s' := Advance(s, t, newId);
    if newId != sid {
      ThreadReplaced(s, s', t, sid);
    } else {
      assert forall u <- s'.threads :: About(s'.threads[u], sid) ==> u == t;
    }
  }

  lemma StepTouchesOneSession(s: State, t: ThreadId, newId: SessionId, sid: SessionId)
    requires t in s.threads && !s.threads[t].StartChecked? && s.threads[t].sid != sid
    ensures SameData(s, Advance(s, t, newId), sid)
  {
    SessionsAfterStep(s, t, newId);
    HashAfterStep(s, t, newId);
    NotificationsAfterStep(s, t, newId);
    hide Advance;
  }

  lemma StepTouchesOneThread(s: State, t: ThreadId, newId: SessionId, sid: SessionId)
    requires t in s.threads && !s.threads[t].StartChecked? && s.threads[t].sid != sid
    ensures OtherThreadsSame(s, Advance(s, t, newId), t)
    ensures t in Advance(s, t, newId).threads ==> !About(Advance(s, t, newId).threads[t], sid)
  {
    ThreadsAfterStep(s, t, newId);
    hide Advance;
  }

  lemma OtherSessionKeepsInv(s: State, t: ThreadId, s': State, sid: SessionId)
    requires InvFor(s, sid) && t in s.threads && !s.threads[t].StartChecked? && s.threads[t].sid != sid
    requires SameData(s, s', sid) && OtherThreadsSame(s, s', t) && (t in s'.threads ==> !About(s'.threads[t], sid))
    ensures InvFor(s', sid)
  {
    ThreadReplaced(s, s', t, sid);
  }

  lemma StoreKeepsInv(s: State, t: ThreadId, sid: SessionId, notify: bool)
    requires InvFor(s, sid) && t in s.threads && s.threads[t] == StartCreated(sid, notify)
    ensures InvFor(Advance(s, t, 0), sid)
    ensures s.stored[sid] == 0 && sid !in s.exclusive
    ensures Advance(s, t, 0).stored[sid] == if s.sessions[sid].Exclusive() then 1 else 0
  {
    var s' := Advance(s, t, 0);
    var x := s.sessions[sid];
    if x.Exclusive() {
      assert OtherThreadsSame(s, s', t);
      assert s'.stored[sid] == s.stored[sid] + 1;
      assert forall u <- s.threads :: u != t ==> !IsCreator(s.threads[u], sid);
    } else {
      ThreadReplaced(s, s', t, sid);
    }
  }

  lemma BeginKeepsInv(s: State, t: ThreadId, sid: SessionId, notify: bool)
    requires InvFor(s, sid) && t in s.threads && s.threads[t] == StartStored(sid, notify)
    ensures InvFor(Advance(s, t, 0), sid)
    ensures Advance(s, t, 0).notified != s.notified ==>
              && s.notified[sid] == s.stored[sid] == 0
              && forall u <- s.threads :: !IsNotifier(s.threads[u], sid)
  {
    var s' := Advance(s, t, 0);
    var x := s.sessions[sid];
    if !x.shadowbanned && x.requested.None? && notify {
      assert OtherThreadsSame(s, s', t);
      assert s'.notified[sid] == s.notified[sid] + 1;
      assert forall u <- s.threads :: u != t ==> !IsCreator(s.threads[u], sid);
      assert forall u <- s.threads :: !IsNotifier(s.threads[u], sid) by {
        assert s.cleared[sid] == 0;
      }
    } else {
      ThreadReplaced(s, s', t, sid);
    }
  }

  lemma FulfilKeepsInv(s: State, t: ThreadId, sid: SessionId)
    requires InvFor(s, sid) && t in s.threads
    requires (s.threads[t].JoinChecked? || s.threads[t].EndChecked?) && s.threads[t].sid == sid
    ensures InvFor(Advance(s, t, 0), sid)
    ensures var s' := Advance(s, t, 0);
            s'.sessions[sid].Fulfilled() && t in s'.threads && WillClear(s'.threads[t], sid)
  {
    var s', x := Advance(s, t, 0), s.sessions[sid];
    ThreadsAfterStep(s, t, 0);
    SessionsAfterStep(s, t, 0);
    HashAfterStep(s, t, 0);
    NotificationsAfterStep(s, t, 0);
    assert t in s'.threads && WillClear(s'.threads[t], sid);
    hide Advance;
    forall u <- s'.threads | About(s'.threads[u], sid) ensures ThreadOk(s', s'.threads[u], sid, s'.sessions[sid]) {
      assert u != t ==> u in s.threads && ThreadOk(s, s.threads[u], sid, x);
    }
  }

  lemma ClearingKeepsInv(s: State, t: ThreadId, sid: SessionId, purpose: Purpose)
    requires InvFor(s, sid) && t in s.threads && s.threads[t] == Clearing(sid, purpose)
    ensures InvFor(Advance(s, t, 0), sid)
    ensures OtherThreadsSame(s, Advance(s, t, 0), t) && forall id: SessionId :: SameData(s, Advance(s, t, 0), id)
    ensures t in Advance(s, t, 0).threads <==> sid in s.exclusive
    ensures sid in s.exclusive ==> Advance(s, t, 0).threads[t] == Deleting(sid, purpose)
  {
    ThreadReplaced(s, Advance(s, t, 0), t, sid);
  }

  lemma DeletingKeepsInv(s: State, t: ThreadId, sid: SessionId, purpose: Purpose)
    requires InvFor(s, sid) && t in s.threads && s.threads[t] == Deleting(sid, purpose)
    ensures InvFor(Advance(s, t, 0), sid)
    ensures var s' := Advance(s, t, 0);
            && s'.cleared == (if sid in s.exclusive then s.cleared + multiset{sid} else s.cleared)
            && forall u <- s'.threads :: s'.threads[u].Deleting? && s'.threads[u].sid == sid ==>
                 Advance(s', u, 0).cleared == s'.cleared
  {
    var s' := Advance(s, t, 0);
    if sid !in s.exclusive {
      ThreadReplaced(s, s', t, sid);
    } else {
      assert OtherThreadsSame(s, s', t);
      assert s'.cleared[sid] == s.cleared[sid] + 1;
      assert s.cleared[sid] == 0 && s.stored[sid] == 1;
      assert forall u <- s.threads :: !IsNotifier(s.threads[u], sid);
      assert s.notified[sid] == 0;
    }
  }

  lemma NotifyingKeepsInv(s: State, t: ThreadId, sid: SessionId)
    requires InvFor(s, sid) && t in s.threads && s.threads[t] == Notifying(sid)
    ensures InvFor(Advance(s, t, 0), sid)
    ensures s.cleared[sid] == 1 && s.notified[sid] == 0
    ensures forall u <- Advance(s, t, 0).threads :: !IsNotifier(Advance(s, t, 0).threads[u], sid)
  {
    var s' := Advance(s, t, 0);
    assert OtherThreadsSame(s, s', t);
    assert s'.notified[sid] == s.notified[sid] + 1;
    assert forall u <- s.threads :: u != t ==> !IsNotifier(s.threads[u], sid);
  }

  lemma StepKeepsInv(s: State, a: Action, sid: SessionId)
    requires InvFor(s, sid) && Enabled(s, a)
    ensures InvFor(Apply(s, a), sid)
  {
    match a
    case Crash(t) => CrashKeepsInv(s, t, sid);
    case Step(t, newId) =>
      if s.threads[t].StartChecked? {
        CreateKeepsInv(s, t, newId, sid);
      } else if s.threads[t].sid != sid {
        StepTouchesOneSession(s, t, newId, sid);
        StepTouchesOneThread(s, t, newId, sid);
        OtherSessionKeepsInv(s, t, Advance(s, t, newId), sid);
      } else {
        match s.threads[t]
        case StartCreated(_, notify) => StoreKeepsInv(s, t, sid, notify);
        case StartStored(_, notify) => BeginKeepsInv(s, t, sid, notify);
        case JoinChecked(_, _) => FulfilKeepsInv(s, t, sid);
        case EndChecked(_) => FulfilKeepsInv(s, t, sid);
        case Clearing(_, purpose) => ClearingKeepsInv(s, t, sid, purpose);
        case Deleting(_, purpose) => DeletingKeepsInv(s, t, sid, purpose);
        case Notifying(_) => NotifyingKeepsInv(s, t, sid);
      }
    case _ => SpawnKeepsInv(s, a, sid);
  }

  // ----- Runs -----

  ghost predicate Inv(s: State) {
    forall sid: SessionId :: InvFor(s, sid)
  }

  ghost predicate IsRun(s: State, actions: seq<Action>)
    decreases |actions|
  {
    actions == [] || (Enabled(s, actions[0]) && IsRun(Apply(s, actions[0]), actions[1..]))
  }

  function Run(s: State, actions: seq<Action>): State
    requires IsRun(s, actions)
    decreases |actions|
  {
    if actions == [] then s else Run(Apply(s, actions[0]), actions[1..])
  }

  function Start(admins: set<UserId>): State {
    State(admins, map[], map[], map[], multiset{}, multiset{}, multiset{}, {})
  }

  lemma {:induction false} RunsKeepInv(s: State, actions: seq<Action>)
    requires Inv(s) && IsRun(s, actions)
    ensures Inv(Run(s, actions)) && Persists(s, Run(s, actions))
    decreases |actions|
  {
    if actions != [] {
      var next := Apply(s, actions[0]);
      forall sid: SessionId ensures InvFor(next, sid) {
        StepKeepsInv(s, actions[0], sid);
      }
      StepPersists(s, actions[0]);
      RunsKeepInv(next, actions[1..]);
    }
  }

  /** In every interleaving of any number of callers: at most one clearExclusiveRequest succeeds per stored
      request, regular notifications begin at most once per session and never for a shadow-banned student,
      no student tutors his own session, and only admins tutor shadow-banned students. */
  lemma ReachableSessions(admins: set<UserId>, actions: seq<Action>, sid: SessionId)
    requires IsRun(Start(admins), actions)
    requires sid in Run(Start(admins), actions).sessions
    ensures var s := Run(Start(admins), actions);
            var x := s.sessions[sid];
            && s.cleared[sid] <= s.stored[sid] <= 1
            && (sid in s.exclusive <==> s.stored[sid] == 1 && s.cleared[sid] == 0)
            && s.notified[sid] <= 1
            && (s.notified[sid] == 1 ==> !x.shadowbanned && (x.requested.Some? ==> s.cleared[sid] == 1))
            && (x.volunteer.Some? ==> x.volunteer.value != x.student
                                      && (x.shadowbanned ==> x.volunteer.value in s.admins))
  {
    StartIsGood(admins);
    RunsKeepInv(Start(admins), actions);
    assert InvFor(Run(Start(admins), actions), sid);
  }

  lemma StartIsGood(admins: set<UserId>)
    ensures Inv(Start(admins))
  {
  }

  // ----- Requests left behind -----

  /** The request of a matched or ended session is in the hash, and no caller is about to clear it. */
  ghost predicate Orphan(s: State, sid: SessionId) {
    && sid in s.exclusive && sid in s.sessions && s.sessions[sid].Fulfilled()
    && forall t <- s.threads :: !WillClear(s.threads[t], sid)
  }

  /** With nobody else about to clear it, the request of a session that is matched or ended already is stored,
      or the thread that was to clear it fails. */
  ghost predicate LeavesOrphan(s: State, a: Action, sid: SessionId) {
    && (a.Step? || a.Crash?) && a.t in s.threads
    && sid in s.sessions && s.sessions[sid].Fulfilled()
    && (forall u <- s.threads :: u != a.t ==> !WillClear(s.threads[u], sid))
    && var pc := s.threads[a.t];
       if a.Step? then pc.StartCreated? && pc.sid == sid && s.sessions[sid].Exclusive()
       else WillClear(pc, sid) && sid in s.exclusive
  }

  lemma CallsLeaveNoOrphan(s: State, a: Action, sid: SessionId)
    requires InvFor(s, sid) && Enabled(s, a) && !Orphan(s, sid) && !a.Step? && !a.Crash?
    ensures !Orphan(Apply(s, a), sid)
  {
    CallsOnlySpawn(s, a);
    hide Apply, InvFor;
    var s' := Apply(s, a);
    if t :| t in s.threads && WillClear(s.threads[t], sid) {
      assert t in s'.threads && s'.threads[t] == s.threads[t];
    }
  }

  lemma CrashLeavesOrphanIff(s: State, t: ThreadId, sid: SessionId)
    requires Enabled(s, Crash(t)) && !Orphan(s, sid)
    ensures Orphan(Finish(s, t), sid) <==> LeavesOrphan(s, Crash(t), sid)
  {
    var s' := Finish(s, t);
    assert forall u :: u in s'.threads <==> u in s.threads && u != t;
  }

  lemma AdvanceLeavesOrphanIff(s: State, t: ThreadId, newId: SessionId, sid: SessionId)
    requires InvFor(s, sid) && Enabled(s, Step(t, newId)) && !Orphan(s, sid)
    ensures Orphan(Advance(s, t, newId), sid) <==> LeavesOrphan(s, Step(t, newId), sid)
  {
    var s', pc := Advance(s, t, newId), s.threads[t];
    ThreadsAfterStep(s, t, newId);
    if pc.StartChecked? || pc.sid != sid {
      AdvanceElsewhere(s, t, newId, sid);
    } else if pc.StartCreated? {
      assert sid !in s.exclusive;
      assert forall u <- s.threads :: u != t ==> u in s'.threads && s'.threads[u] == s.threads[u];
    } else if pc.JoinChecked? || pc.EndChecked? || (pc.Clearing? && sid in s.exclusive) {
      assert t in s'.threads && WillClear(s'.threads[t], sid);
    } else if pc.StartStored? || pc.Notifying? {
      assert !WillClear(pc, sid) && s'.threads == s.threads - {t};
      assert forall u <- s.threads :: WillClear(s.threads[u], sid) ==> u in s'.threads && s'.threads[u] == s.threads[u];
    } else {
      assert sid !in s'.exclusive;
    }
  }

  lemma AdvanceElsewhere(s: State, t: ThreadId, newId: SessionId, sid: SessionId)
    requires InvFor(s, sid) && Enabled(s, Step(t, newId)) && !Orphan(s, sid)
    requires s.threads[t].StartChecked? || s.threads[t].sid != sid
    ensures !Orphan(Advance(s, t, newId), sid) && !LeavesOrphan(s, Step(t, newId), sid)
  {
    SessionsAfterStep(s, t, newId);
    HashAfterStep(s, t, newId);
    ThreadsAfterStep(s, t, newId);
    hide Advance;
    var s' := Advance(s, t, newId);
    if sid in s.sessions {
      if u :| u in s.threads && WillClear(s.threads[u], sid) {
        assert u != t && u in s'.threads && s'.threads[u] == s.threads[u];
      }
    }
  }

  /** Exactly which steps leave a request behind. */
  lemma LeavesOrphanIff(s: State, a: Action, sid: SessionId)
    requires InvFor(s, sid) && Enabled(s, a) && !Orphan(s, sid)
    ensures Orphan(Apply(s, a), sid) <==> LeavesOrphan(s, a, sid)
  {
    match a
    case Step(t, newId) => AdvanceLeavesOrphanIff(s, t, newId, sid);
    case Crash(t) => CrashLeavesOrphanIff(s, t, sid);
    case _ => CallsLeaveNoOrphan(s, a, sid);
  }

  ghost predicate NeverOrphan(s: State, actions: seq<Action>, sid: SessionId)
    requires IsRun(s, actions)
    decreases |actions|
  {
    !Orphan(s, sid) && (actions == [] || NeverOrphan(Apply(s, actions[0]), actions[1..], sid))
  }

  ghost predicate NeverLeavesOrphan(s: State, actions: seq<Action>, sid: SessionId)
    requires IsRun(s, actions)
    decreases |actions|
  {
    actions == [] || (!LeavesOrphan(s, actions[0], sid) && NeverLeavesOrphan(Apply(s, actions[0]), actions[1..], sid))
  }

  lemma {:induction false} RunsLeaveOrphanIff(s: State, actions: seq<Action>, sid: SessionId)
    requires Inv(s) && IsRun(s, actions) && !Orphan(s, sid)
    ensures NeverOrphan(s, actions, sid) <==> NeverLeavesOrphan(s, actions, sid)
    decreases |actions|
  {
    hide InvFor, Orphan, LeavesOrphan, Apply;
    if actions != [] {
      assert InvFor(s, sid);
      LeavesOrphanIff(s, actions[0], sid);
      var next := Apply(s, actions[0]);
      forall id: SessionId ensures InvFor(next, id) {
        StepKeepsInv(s, actions[0], id);
      }
      if !Orphan(next, sid) {
        RunsLeaveOrphanIff(next, actions[1..], sid);
      }
    }
  }

  /** In every state of a run the request of a session is in the hash only while the session is unmatched and open,
      or a caller is about to clear it, exactly when no step of the run leaves it behind. */
  lemma EntriesOnlyForOpenSessionsIff(admins: set<UserId>, actions: seq<Action>, sid: SessionId)
    requires IsRun(Start(admins), actions)
    ensures NeverOrphan(Start(admins), actions, sid) <==> NeverLeavesOrphan(Start(admins), actions, sid)
  {
    StartIsGood(admins);
    RunsLeaveOrphanIff(Start(admins), actions, sid);
  }

  /** A tutor who joins between the insert of a session and the storing of its request finds nothing to clear, and
      the request is then stored for a matched session. */
  lemma LateRequestStays(admins: set<UserId>, t: ThreadId, u: ThreadId, student: UserId, tutor: UserId, asked: UserId,
                         sid: SessionId)
    requires t != u && tutor != student
    ensures var actions := [StartSession(t, student, Student, false, false, Some(asked), true, true), Step(t, sid),
                            JoinSession(u, tutor, Volunteer, sid), Step(u, 0), Step(u, 0), Step(t, 0)];
            && IsRun(Start(admins), actions)
            && var s := Run(Start(admins), actions);
               Orphan(s, sid) && s.sessions[sid].volunteer == Some(tutor)
  {
    var a1 := StartSession(t, student, Student, false, false, Some(asked), true, true);
    var a2, a3, a4, a5 := Step(t, sid), JoinSession(u, tutor, Volunteer, sid), Step(u, 0), Step(t, 0);
    hide Apply, IsRun, Run, Orphan;
    var s0 := Start(admins);
    var s2 := InsertedRequest(admins, t, student, asked, sid);
    var s5 := JoinedEarly(admins, t, u, student, tutor, asked, sid);
    SixInARow(a1, a2, a3, a4, a4, a5);
    RunNil(Apply(s5, a5));
    RunCons(s5, a5, []);
    RunCons(Apply(Apply(s2, a3), a4), a4, [a5]);
    RunCons(Apply(s2, a3), a4, [a4, a5]);
    RunCons(s2, a3, [a4, a4, a5]);
    RunCons(Apply(s0, a1), a2, [a3, a4, a4, a5]);
    RunCons(s0, a1, [a2, a3, a4, a4, a5]);
  }

  lemma SixInARow(a: Action, b: Action, c: Action, d: Action, e: Action, f: Action)
    ensures [f] + [] == [f] && [e] + [f] == [e, f] && [d] + [e, f] == [d, e, f] && [c] + [d, e, f] == [c, d, e, f]
    ensures [b] + [c, d, e, f] == [b, c, d, e, f] && [a] + [b, c, d, e, f] == [a, b, c, d, e, f]
  {
  }

  lemma InsertedRequest(admins: set<UserId>, t: ThreadId, student: UserId, asked: UserId, sid: SessionId)
    returns (s2: State)
    ensures var a1, a2 := StartSession(t, student, Student, false, false, Some(asked), true, true), Step(t, sid);
            && Enabled(Start(admins), a1) && Enabled(Apply(Start(admins), a1), a2)
            && s2 == Apply(Apply(Start(admins), a1), a2)
    ensures s2 == Start(admins).(threads := map[t := StartCreated(sid, true)],
                                 sessions := map[sid := Session(student, false, Some(asked), None, false)])
  {
    var s0 := Start(admins);
    var s1 := s0.(threads := map[t := StartChecked(student, false, Some(asked), true)]);
    assert Apply(s0, StartSession(t, student, Student, false, false, Some(asked), true, true)) == s1;
    s2 := Apply(s1, Step(t, sid));
    assert s2.threads == map[t := StartCreated(sid, true)];
    assert s2.sessions == map[sid := Session(student, false, Some(asked), None, false)];
  }

  lemma JoinedEarly(admins: set<UserId>, t: ThreadId, u: ThreadId, student: UserId, tutor: UserId, asked: UserId,
                    sid: SessionId)
    returns (s5: State)
    requires t != u && tutor != student
    ensures var s2 := Start(admins).(threads := map[t := StartCreated(sid, true)],
                                     sessions := map[sid := Session(student, false, Some(asked), None, false)]);
            var a3, a4 := JoinSession(u, tutor, Volunteer, sid), Step(u, 0);
            && Enabled(s2, a3) && Enabled(Apply(s2, a3), a4) && Enabled(Apply(Apply(s2, a3), a4), a4)
            && s5 == Apply(Apply(Apply(s2, a3), a4), a4)
    ensures Enabled(s5, Step(t, 0))
    ensures Orphan(Apply(s5, Step(t, 0)), sid) && Apply(s5, Step(t, 0)).sessions[sid].volunteer == Some(tutor)
  {
    hide Orphan;
    var x := Session(student, false, Some(asked), None, false);
    var s2 := Start(admins).(threads := map[t := StartCreated(sid, true)], sessions := map[sid := x]);
    var s3 := s2.(threads := map[t := StartCreated(sid, true), u := JoinChecked(sid, tutor)]);
    var s4 := s2.(threads := map[t := StartCreated(sid, true), u := Clearing(sid, ForJoin)],
                  sessions := map[sid := x.(volunteer := Some(tutor))], reported := {(sid, tutor)});
    s5 := s4.(threads := map[t := StartCreated(sid, true)]);
    assert Apply(s2, JoinSession(u, tutor, Volunteer, sid)) == s3;
    assert Apply(s3, Step(u, 0)) == s4;
    assert Apply(s4, Step(u, 0)) == s5;
    StoredTooLate(s5, t, sid);
  }

  lemma StoredTooLate(s: State, t: ThreadId, sid: SessionId)
    requires s.threads == map[t := StartCreated(sid, true)]
    requires sid in s.sessions && s.sessions[sid].Fulfilled() && s.sessions[sid].Exclusive()
    ensures Orphan(Apply(s, Step(t, 0)), sid) && Apply(s, Step(t, 0)).sessions == s.sessions
  {
    assert Apply(s, Step(t, 0)).threads == map[t := StartStored(sid, true)];
  }

  // ----- What an undisturbed call achieves -----

  /** The steps of clearExclusiveRequest, undisturbed. */
  function ClearSteps(s: State, t: ThreadId, sid: SessionId): seq<Action> {
    if sid in s.exclusive then [Step(t, 0), Step(t, 0)] else [Step(t, 0)]
  }

  lemma Clears(s: State, t: ThreadId, sid: SessionId, purpose: Purpose)
    requires t in s.threads && s.threads[t] == Clearing(sid, purpose)
    ensures IsRun(s, ClearSteps(s, t, sid))
    ensures var s' := Run(s, ClearSteps(s, t, sid));
            && sid !in s'.exclusive && s'.sessions == s.sessions && s'.notified == s.notified
            && s'.cleared == (if sid in s.exclusive then s.cleared + multiset{sid} else s.cleared)
            && if sid in s.exclusive && purpose == ForBreakout(true) then s'.threads == s.threads[t := Notifying(sid)]
               else s'.threads == s.threads - {t}
  {
    var b := Step(t, 0);
    var s1 := Apply(s, b);
    if sid in s.exclusive {
      assert s1 == Spawn(s, t, Deleting(sid, purpose));
      var s2 := Apply(s1, b);
      RunCons(s1, b, []);
      RunCons(s, b, [b]);
      assert [b] + [] == [b] && [b] + [b] == [b, b];
    } else {
      RunCons(s, b, []);
      assert [b] + [] == [b];
    }
  }

  /** The student's breakout takes the request out of the hash and begins regular notifications, if it may. */
  lemma BreakoutOpensSession(s: State, t: ThreadId, mayNotify: bool, sid: SessionId)
    requires t !in s.threads && sid in s.sessions && sid in s.exclusive && !s.sessions[sid].Fulfilled()
    ensures var notifying := if mayNotify then [Step(t, 0)] else [];
            var actions := [Breakout(t, s.sessions[sid].student, mayNotify, sid)] + (ClearSteps(s, t, sid) + notifying);
            && IsRun(s, actions)
            && var s' := Run(s, actions);
               && sid !in s'.exclusive && s'.sessions == s.sessions && s'.threads == s.threads
               && s'.notified == (if mayNotify then s.notified + multiset{sid} else s.notified)
  {
    var a, b := Breakout(t, s.sessions[sid].student, mayNotify, sid), Step(t, 0);
    var s1 := Spawn(s, t, Clearing(sid, ForBreakout(mayNotify)));
    assert Enabled(s, a) && Apply(s, a) == s1;
    Clears(s1, t, sid, ForBreakout(mayNotify));
    var s2 := Run(s1, [b, b]);
    if mayNotify {
      NotifiesAndEnds(s2, t, sid);
    }
    hide Apply, Enabled;
    var rest := if mayNotify then [b] else [];
    RunConcat(s1, [b, b], rest);
    RunCons(s, a, [b, b] + rest);
    assert s1.threads - {t} == s.threads;
  }

  lemma {:induction false} RunConcat(s: State, first: seq<Action>, second: seq<Action>)
    requires IsRun(s, first) && IsRun(Run(s, first), second)
    ensures IsRun(s, first + second) && Run(s, first + second) == Run(Run(s, first), second)
    decreases |first|
  {
    hide Apply, Enabled;
    if first == [] {
      assert first + second == second;
    } else {
      FirstOfAppend(first, second);
      RunConcat(Apply(s, first[0]), first[1..], second);
    }
  }

  lemma NotifiesAndEnds(s: State, t: ThreadId, sid: SessionId)
    requires t in s.threads && s.threads[t] == Notifying(sid)
    ensures IsRun(s, [Step(t, 0)])
    ensures Run(s, [Step(t, 0)]) == s.(threads := s.threads - {t}, notified := s.notified + multiset{sid})
  {
    RunCons(s, Step(t, 0), []);
    assert [Step(t, 0)] + [] == [Step(t, 0)];
  }

  /** A tutor's join, with nothing in between, makes him the tutor and takes the request out of the hash. */
  lemma JoinMatchesSession(s: State, t: ThreadId, user: UserId, sid: SessionId)
    requires t !in s.threads && sid in s.sessions
    requires CanJoin(s, user, Volunteer, s.sessions[sid]) && s.sessions[sid].volunteer.None?
    ensures var actions := [JoinSession(t, user, Volunteer, sid)] + ([Step(t, 0)] + ClearSteps(s, t, sid));
            && IsRun(s, actions)
            && var s' := Run(s, actions);
               && sid !in s'.exclusive && s'.notified == s.notified && s'.threads == s.threads
               && s'.sessions == s.sessions[sid := s.sessions[sid].(volunteer := Some(user))]
  {
    var a, b := JoinSession(t, user, Volunteer, sid), Step(t, 0);
    var s1 := Spawn(s, t, JoinChecked(sid, user));
    assert Enabled(s, a) && Apply(s, a) == s1 by { hide CanJoin; }
    var s2 := Apply(s1, b);
    assert s2.threads == s1.threads[t := Clearing(sid, ForJoin)] && s2.exclusive == s.exclusive;
    assert s2.sessions == s.sessions[sid := s.sessions[sid].(volunteer := Some(user))];
    hide Apply, CanJoin;
    Clears(s2, t, sid, ForJoin);
    RunCons(s1, b, ClearSteps(s, t, sid));
    RunCons(s, a, [b] + ClearSteps(s, t, sid));
    assert s2.threads - {t} == s.threads;
  }

  /** An end by an admin or a participant, with nothing in between, ends the session and takes the request out of the
      hash. */
  lemma EndClosesSession(s: State, t: ThreadId, endedBy: Option<UserId>, isAdmin: bool, sid: SessionId)
    requires t !in s.threads && sid in s.sessions
    requires !s.sessions[sid].ended && (isAdmin || IsParticipant(s.sessions[sid], endedBy))
    ensures var actions := [EndSession(t, endedBy, isAdmin, sid)] + ([Step(t, 0)] + ClearSteps(s, t, sid));
            && IsRun(s, actions)
            && var s' := Run(s, actions);
               && sid !in s'.exclusive && s'.notified == s.notified && s'.threads == s.threads
               && s'.sessions == s.sessions[sid := s.sessions[sid].(ended := true)]
  {
    var a, b := EndSession(t, endedBy, isAdmin, sid), Step(t, 0);
    var s1 := Spawn(s, t, EndChecked(sid));
    assert Enabled(s, a) && Apply(s, a) == s1;
    var s2 := Apply(s1, b);
    assert s2.threads == s1.threads[t := Clearing(sid, ForEnd)] && s2.exclusive == s.exclusive;
    assert s2.sessions == s.sessions[sid := s.sessions[sid].(ended := true)];
    hide Apply;
    Clears(s2, t, sid, ForEnd);
    RunCons(s1, b, ClearSteps(s, t, sid));
    RunCons(s, a, [b] + ClearSteps(s, t, sid));
    assert s2.threads - {t} == s.threads;
  }

  // ----- One open session per student -----

  ghost predicate AtMostOneOpen(s: State) {
    forall a <- s.sessions, b <- s.sessions ::
      !s.sessions[a].ended && !s.sessions[b].ended && s.sessions[a].student == s.sessions[b].student ==> a == b
  }

  /** A start inserts its session although one of its student is open: its check was made before that one came. */
  ghost predicate InsertsSecond(s: State, a: Action) {
    && a.Step? && a.t in s.threads && s.threads[a.t].StartChecked?
    && exists sid <- s.sessions :: !s.sessions[sid].ended && s.sessions[sid].student == s.threads[a.t].user
  }

  /** Exactly which steps give a student a second open session. */
  lemma SecondOpenSessionIff(s: State, a: Action)
    requires Enabled(s, a) && AtMostOneOpen(s)
    ensures AtMostOneOpen(Apply(s, a)) <==> !InsertsSecond(s, a)
  {
    match a
    case Step(t, newId) =>
      SessionsAfterStep(s, t, newId);
      hide Advance;
      if InsertsSecond(s, a) {
        var sid :| sid in s.sessions && !s.sessions[sid].ended && s.sessions[sid].student == s.threads[t].user;
        var after := Apply(s, a).sessions;
        assert sid in after && newId in after && sid != newId;
      }
    case Crash(_) =>
    case _ => CallsOnlySpawn(s, a); hide Apply;
  }

  ghost predicate AlwaysOneOpen(s: State, actions: seq<Action>)
    requires IsRun(s, actions)
    decreases |actions|
  {
    AtMostOneOpen(s) && (actions == [] || AlwaysOneOpen(Apply(s, actions[0]), actions[1..]))
  }

  ghost predicate NeverInsertsSecond(s: State, actions: seq<Action>)
    requires IsRun(s, actions)
    decreases |actions|
  {
    actions == [] || (!InsertsSecond(s, actions[0]) && NeverInsertsSecond(Apply(s, actions[0]), actions[1..]))
  }

  /** A student has at most one open session in every state of a run exactly when no start of the run inserts one
      while another is open. */
  lemma {:induction false} OneOpenSessionIff(s: State, actions: seq<Action>)
    requires AtMostOneOpen(s) && IsRun(s, actions)
    ensures AlwaysOneOpen(s, actions) <==> NeverInsertsSecond(s, actions)
    decreases |actions|
  {
    hide Apply, AtMostOneOpen, InsertsSecond;
    if actions != [] {
      SecondOpenSessionIff(s, actions[0]);
      var next := Apply(s, actions[0]);
      if AtMostOneOpen(next) {
        OneOpenSessionIff(next, actions[1..]);
      }
    }
  }

  /** No two starts of one student are between their check and their insert. */
  ghost predicate StartsDoNotOverlap(s: State) {
    forall t <- s.threads, u <- s.threads ::
      s.threads[t].StartChecked? && s.threads[u].StartChecked? && s.threads[t].user == s.threads[u].user ==> t == u
  }

  /** No start that has made its check has a student with an open session. */
  ghost predicate ChecksHold(s: State) {
    forall t <- s.threads, a <- s.sessions :: s.threads[t].StartChecked? && !s.sessions[a].ended ==>
      s.sessions[a].student != s.threads[t].user
  }

  lemma StepKeepsChecks(s: State, a: Action)
    requires Enabled(s, a) && ChecksHold(s) && StartsDoNotOverlap(s)
    ensures ChecksHold(Apply(s, a))
  {
    match a
    case Step(t, newId) =>
      SessionsAfterStep(s, t, newId);
      ThreadsAfterStep(s, t, newId);
      hide Advance;
      var s' := Apply(s, a);
      forall u <- s'.threads, x <- s'.sessions | s'.threads[u].StartChecked? && !s'.sessions[x].ended
        ensures s'.sessions[x].student != s'.threads[u].user
      {
        assert u != t && u in s.threads && s'.threads[u] == s.threads[u];
      }
    case Crash(_) =>
    case _ => CallsOnlySpawn(s, a); hide Apply;
  }

  ghost predicate NeverOverlaps(s: State, actions: seq<Action>)
    requires IsRun(s, actions)
    decreases |actions|
  {
    StartsDoNotOverlap(s) && (actions == [] || NeverOverlaps(Apply(s, actions[0]), actions[1..]))
  }

  /** In particular, a run in which no student's starts overlap never gives one a second open session. */
  lemma {:induction false} OneOpenSessionUnlessStartsOverlap(s: State, actions: seq<Action>)
    requires ChecksHold(s) && AtMostOneOpen(s) && IsRun(s, actions) && NeverOverlaps(s, actions)
    ensures AlwaysOneOpen(s, actions)
    decreases |actions|
  {
    if actions != [] {
      assert !InsertsSecond(s, actions[0]);
      SecondOpenSessionIff(s, actions[0]);
      StepKeepsChecks(s, actions[0]);
      hide Apply;
      OneOpenSessionUnlessStartsOverlap(Apply(s, actions[0]), actions[1..]);
    }
  }

  /** Two starts that do overlap leave the student with two open sessions. */
  lemma OverlappingStarts(admins: set<UserId>, t: ThreadId, u: ThreadId, user: UserId, x: SessionId, y: SessionId)
    requires t != u && x != y
    ensures var actions := [StartSession(t, user, Student, false, false, None, true, true),
                            StartSession(u, user, Student, false, false, None, true, true), Step(t, x), Step(u, y)];
            && IsRun(Start(admins), actions)
            && var s := Run(Start(admins), actions);
               && x in s.sessions && y in s.sessions && !s.sessions[x].ended && !s.sessions[y].ended
               && s.sessions[x].student == s.sessions[y].student == user
  {
    var a := StartSession(t, user, Student, false, false, None, true, true);
    var b := StartSession(u, user, Student, false, false, None, true, true);
    var c, d := Step(t, x), Step(u, y);
    var checked := StartChecked(user, false, None, true);
    var s0 := Start(admins);
    var s1 := s0.(threads := map[t := checked]);
    var s2 := s0.(threads := map[t := checked, u := checked]);
    var s3 := Apply(s2, c);
    assert Apply(s0, a) == s1;
    assert Apply(s1, b) == s2;
    assert s3.threads[u] == checked && s3.sessions == map[x := Session(user, false, None, None, false)];
    RunCons(s3, d, []);
    RunCons(s2, c, [d]);
    RunCons(s1, b, [c, d]);
    RunCons(s0, a, [b, c, d]);
    assert [a] + [b, c, d] == [a, b, c, d] && [b] + [c, d] == [b, c, d] && [c] + [d] == [c, d] && [d] + [] == [d];
  }

  // ----- Losing joins -----

  /** Every join past its update names the tutor that is stored. */
  ghost predicate Truthful(s: State) {
    forall r <- s.reported :: r.0 in s.sessions && s.sessions[r.0].volunteer == Some(r.1)
  }

  /** A join's update finds another tutor, and the join goes on as if it had stored its own. */
  predicate LosesJoin(s: State, a: Action) {
    && a.Step? && a.t in s.threads && s.threads[a.t].JoinChecked?
    && var pc := s.threads[a.t];
       pc.sid in s.sessions ==> s.sessions[pc.sid].volunteer.Some? && s.sessions[pc.sid].volunteer.value != pc.user
  }

  lemma ReportsAfterStep(s: State, t: ThreadId, newId: SessionId)
    requires Enabled(s, Step(t, newId))
    ensures var pc := s.threads[t];
            Advance(s, t, newId).reported == if pc.JoinChecked? then s.reported + {(pc.sid, pc.user)} else s.reported
  {
  }

  /** Exactly which steps make a join name somebody who is not the tutor. */
  lemma LosingJoinIff(s: State, a: Action)
    requires Enabled(s, a) && Truthful(s)
    ensures Truthful(Apply(s, a)) <==> !LosesJoin(s, a)
  {
    StepPersists(s, a);
    match a
    case Step(t, newId) =>
      SessionsAfterStep(s, t, newId);
      ReportsAfterStep(s, t, newId);
      hide Advance;
      if s.threads[t].JoinChecked? {
        assert (s.threads[t].sid, s.threads[t].user) in Apply(s, a).reported;
      }
    case Crash(_) =>
    case _ => CallsOnlySpawn(s, a); hide Apply;
  }

  ghost predicate NeverLosesJoin(s: State, actions: seq<Action>)
    requires IsRun(s, actions)
    decreases |actions|
  {
    actions == [] || (!LosesJoin(s, actions[0]) && NeverLosesJoin(Apply(s, actions[0]), actions[1..]))
  }

  /** Somebody is named who never can be the tutor. */
  ghost predicate Misnamed(s: State, r: (SessionId, UserId)) {
    r in s.reported && r.0 in s.sessions && s.sessions[r.0].volunteer.Some? && s.sessions[r.0].volunteer != Some(r.1)
  }

  lemma {:induction false} MisnamedStays(s: State, actions: seq<Action>, r: (SessionId, UserId))
    requires IsRun(s, actions) && Misnamed(s, r)
    ensures Misnamed(Run(s, actions), r)
    decreases |actions|
  {
    if actions != [] {
      var a := actions[0];
      StepPersists(s, a);
      if a.Step? {
        ReportsAfterStep(s, a.t, a.newId);
      } else if !a.Crash? {
        CallsOnlySpawn(s, a);
      }
      assert r in Apply(s, a).reported;
      hide Apply, Advance;
      MisnamedStays(Apply(s, a), actions[1..], r);
    }
  }

  /** All joins of a run are truthful exactly when none of them loses the race for its session. */
  lemma {:induction false} JoinsAreTruthfulIff(s: State, actions: seq<Action>)
    requires Inv(s) && IsRun(s, actions) && Truthful(s)
    ensures Truthful(Run(s, actions)) <==> NeverLosesJoin(s, actions)
    decreases |actions|
  {
    if actions != [] {
      var a := actions[0];
      var next := Apply(s, a);
      LosingJoinIff(s, a);
      if LosesJoin(s, a) {
        LoserIsMisnamed(s, a);
        var pc := s.threads[a.t];
        MisnamedStays(next, actions[1..], (pc.sid, pc.user));
      } else {
        forall id: SessionId ensures InvFor(next, id) {
          StepKeepsInv(s, a, id);
        }
        hide InvFor, Apply;
        JoinsAreTruthfulIff(next, actions[1..]);
      }
    }
  }

  lemma LoserIsMisnamed(s: State, a: Action)
    requires Inv(s) && Enabled(s, a) && LosesJoin(s, a)
    ensures Misnamed(Apply(s, a), (s.threads[a.t].sid, s.threads[a.t].user))
  {
    var pc := s.threads[a.t];
    assert InvFor(s, pc.sid);
    assert About(pc, pc.sid);
    SessionsAfterStep(s, a.t, a.newId);
    ReportsAfterStep(s, a.t, a.newId);
  }

  /** Two tutors who both pass the check both get the session back with themselves as its tutor, although
      only the first was stored: an update that finds the tutor already set is not an error. */
  lemma LosingJoinIsNotToldSo(s: State, sid: SessionId, t: ThreadId, u: ThreadId, first: UserId, second: UserId)
    requires sid in s.sessions && s.sessions[sid].volunteer.None? && !s.sessions[sid].ended
    requires !s.sessions[sid].shadowbanned && first != second
    requires first != s.sessions[sid].student && second != s.sessions[sid].student
    requires t != u && t !in s.threads && u !in s.threads
    ensures var actions := [JoinSession(t, first, Volunteer, sid), JoinSession(u, second, Volunteer, sid),
                            Step(t, 0), Step(u, 0)];
            && IsRun(s, actions)
            && var s' := Run(s, actions);
               && sid in s'.sessions && s'.sessions[sid].volunteer == Some(first)
               && (sid, first) in s'.reported && (sid, second) in s'.reported
  {
    var a, b := JoinSession(t, first, Volunteer, sid), JoinSession(u, second, Volunteer, sid);
    var c, d := Step(t, 0), Step(u, 0);
    var s1 := Apply(s, a);
    assert s1 == Spawn(s, t, JoinChecked(sid, first));
    var s2 := Apply(s1, b);
    assert s2 == Spawn(s1, u, JoinChecked(sid, second));
    var s3 := Apply(s2, c);
    assert s3.sessions[sid].volunteer == Some(first) && s3.threads[u] == JoinChecked(sid, second);
    var s4 := Apply(s3, d);
    RunCons(s3, d, []);
    RunCons(s2, c, [d]);
    RunCons(s1, b, [c, d]);
    RunCons(s, a, [b, c, d]);
    assert [a] + [b, c, d] == [a, b, c, d] && [b] + [c, d] == [b, c, d] && [c] + [d] == [c, d] && [d] + [] == [d];
  }

  lemma RunNil(s: State)
    ensures IsRun(s, []) && Run(s, []) == s
  {
  }

  lemma RunCons(s: State, a: Action, rest: seq<Action>)
    requires Enabled(s, a) && IsRun(Apply(s, a), rest)
    ensures IsRun(s, [a] + rest) && Run(s, [a] + rest) == Run(Apply(s, a), rest)
  {
    assert ([a] + rest)[1..] == rest;
  }
}
