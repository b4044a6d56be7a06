/**
 Late notices for the presence machine of server/services/PresenceService.ts: Redis drops a key that is due
 at once, but its notice reaches the listener any time later, after any other calls.
 */
module PresenceNotices {
  import opened Basics
  import opened Presence

  datatype Notice = ActiveGone | PassiveGone | CountdownGone

  /** `hanging` is history, kept from keys and notices alone: the notice that now stands for the open visit, its key
      gone and neither a call nor another notice having come to end the visit or take it up again. */
  datatype LateState = LateState(s: State, pending: multiset<Notice>, hanging: Option<Notice>)

  datatype LateEvent = Call(e: Event) | Drop(n: Notice) | Handle(n: Notice)

  function KeyOf(s: State, n: Notice): Option<nat> {
    match n
    case ActiveGone => s.activeTimeout
    case PassiveGone => s.passiveTimeout
    case CountdownGone => s.maybeInactive
  }

  function WithoutKey(s: State, n: Notice): State {
    match n
    case ActiveGone => s.(activeTimeout := None)
    case PassiveGone => s.(passiveTimeout := None)
    case CountdownGone => s.(maybeInactive := None)
  }

  /** The listener's reaction, to the keys as they are by then. */
  function React(s: State, n: Notice): State {
    match n
    case ActiveGone => BecomePassive(s)
    case PassiveGone =>
      if s.activeTimeout.Some? then s
      else s.(activeTimeout := None, maybeInactive := None, log := s.log + [INACTIVE_ON_SITE])
    case CountdownGone =>
      if s.passiveTimeout.None? then s else s.(passiveTimeout := None, log := s.log + [INACTIVE_ON_SITE])
  }

  function Expiry(n: Notice): Event {
    match n
    case ActiveGone => ActiveExpires
    case PassiveGone => PassiveExpires
    case CountdownGone => CountdownExpires
  }

  predicate LateEnabled(l: LateState, e: LateEvent) {
    match e
    case Call(e) => !e.ActiveExpires? && !e.PassiveExpires? && !e.CountdownExpires? && Enabled(l.s, e)
    case Drop(n) => Due(KeyOf(l.s, n), l.s.now)
    case Handle(n) => n in l.pending
  }

  function HangingAfter(l: LateState, e: LateEvent): Option<Notice> {
    var s := l.s;
    match e
    case Call(Activity) => None
    case Call(Passivity) => if s.activeTimeout.Some? then None else l.hanging
    case Call(Inactivity) =>
      if s.activeTimeout.None? && s.passiveTimeout.None? && s.maybeInactive.None? then l.hanging else None
    case Call(_) => l.hanging
    case Drop(ActiveGone) => if s.passiveTimeout.Some? then None else Some(ActiveGone)
    case Drop(PassiveGone) => if s.activeTimeout.Some? then None else Some(PassiveGone)
    case Drop(CountdownGone) => l.hanging
    case Handle(ActiveGone) => None
    case Handle(PassiveGone) => if s.activeTimeout.Some? then l.hanging else None
    case Handle(CountdownGone) => if s.passiveTimeout.Some? then None else l.hanging
  }

  function LateApply(l: LateState, e: LateEvent): LateState {
    match e
    case Call(c) => LateState(Apply(l.s, c), l.pending, HangingAfter(l, e))
    case Drop(n) => LateState(WithoutKey(l.s, n), l.pending + multiset{n}, HangingAfter(l, e))
    case Handle(n) => LateState(React(l.s, n), l.pending - multiset{n}, HangingAfter(l, e))
  }

  /** A notice handled at once is the expiry of the prompt machine. */
  lemma PromptNotice(s: State, n: Notice)
    requires Inv(s) && Enabled(s, Expiry(n))
    ensures LateEnabled(LateState(s, multiset{}, None), Drop(n))
    ensures var l := LateApply(LateState(s, multiset{}, None), Drop(n));
            LateEnabled(l, Handle(n)) && LateApply(l, Handle(n)) == LateState(Apply(s, Expiry(n)), multiset{}, None)
  {
    assert multiset{} + multiset{n} - multiset{n} == multiset{};
  }

  // ----- When a late notice is harmless -----

  predicate EndsIn(visit: seq<AccountAction>, a: AccountAction) {
    visit != [] && visit[|visit| - 1] == a
  }

  /** Whether the action may follow in a log of visits. */
  predicate MayFollow(log: seq<AccountAction>, a: AccountAction) {
    var open := Visits(log).1;
    match a
    case ACTIVE_ON_SITE => open == [] || EndsIn(open, PASSIVE_ON_SITE)
    case PASSIVE_ON_SITE => EndsIn(open, ACTIVE_ON_SITE)
    case INACTIVE_ON_SITE => open != []
  }

  lemma AppendedVisits(log: seq<AccountAction>, a: AccountAction)
    ensures var (closed, open) := Visits(log);
            Visits(log + [a]) == if a.INACTIVE_ON_SITE? then (closed + [open + [a]], []) else (closed, open + [a])
  {
    assert (log + [a])[..|log|] == log;
  }

  /** Entries keep the shape of a log exactly when they may follow. */
  lemma LogOneMoreIff(log: seq<AccountAction>, a: AccountAction)
    ensures IsVisitLog(log + [a]) <==> IsVisitLog(log) && MayFollow(log, a)
  {
    AppendedVisits(log, a);
    var (closed, open) := Visits(log);
    if a.INACTIVE_ON_SITE? {
      ClosedIff(closed, open + [a]);
      assert (open + [a])[..|open|] == open;
    } else {
      AlternatesIff(open, a);
    }
  }

  lemma ClosedIff(closed: seq<seq<AccountAction>>, visit: seq<AccountAction>)
    ensures (forall v <- closed + [visit] :: IsClosedVisit(v))
        <==> (forall v <- closed :: IsClosedVisit(v)) && IsClosedVisit(visit)
  {
    assert forall v :: v in closed + [visit] <==> v in closed || v == visit;
  }

  lemma AlternatesIff(open: seq<AccountAction>, a: AccountAction)
    requires !a.INACTIVE_ON_SITE?
    ensures Alternates(open + [a])
       <==> Alternates(open) && if a.ACTIVE_ON_SITE? then open == [] || EndsIn(open, PASSIVE_ON_SITE)
           else EndsIn(open, ACTIVE_ON_SITE)
  {
    var more := open + [a];
    assert forall i :: 0 <= i < |open| ==> more[i] == open[i];
    assert more[|open|] == a;
    if Alternates(open) && open != [] {
      assert open[|open| - 1] == if (|open| - 1) % 2 == 0 then ACTIVE_ON_SITE else PASSIVE_ON_SITE;
    }
  }

  /** The notice of an active key is harmless exactly when the log ends in ACTIVE, there is no new active key, and
      it is handled within the 120 seconds after the last activity, that is, at once. */
  lemma LateActiveNoticeIff(s: State)
    ensures IsVisitLog(React(s, ActiveGone).log) <==> IsVisitLog(s.log) && EndsIn(Visits(s.log).1, ACTIVE_ON_SITE)
    ensures Inv(React(s, ActiveGone))
       <==> && IsVisitLog(s.log) && EndsIn(Visits(s.log).1, ACTIVE_ON_SITE)
            && s.activeTimeout.None?
            && s.lastActivity <= s.now <= s.lastActivity + NO_ACTIVITY
  {
    LogOneMoreIff(s.log, PASSIVE_ON_SITE);
    AppendedVisits(s.log, PASSIVE_ON_SITE);
  }

  /** The notice of a passive key is harmless, however late, exactly when the visit is still open and no new passive
      key was set; with an active key it changes nothing. */
  lemma LatePassiveNoticeIff(s: State)
    ensures IsVisitLog(React(s, PassiveGone).log)
       <==> IsVisitLog(s.log) && (s.activeTimeout.Some? || Visits(s.log).1 != [])
    ensures Inv(React(s, PassiveGone))
       <==> if s.activeTimeout.Some? then Inv(s)
            else IsVisitLog(s.log) && Visits(s.log).1 != [] && s.passiveTimeout.None? && s.lastActivity <= s.now
  {
    LogOneMoreIff(s.log, INACTIVE_ON_SITE);
    AppendedVisits(s.log, INACTIVE_ON_SITE);
  }

  /** The notice of a countdown is harmless, however late, exactly when the visit is still open and neither an active
      key nor a new countdown was set; without a passive key it changes nothing. */
  lemma LateCountdownNoticeIff(s: State)
    ensures IsVisitLog(React(s, CountdownGone).log)
       <==> IsVisitLog(s.log) && (s.passiveTimeout.None? || Visits(s.log).1 != [])
    ensures Inv(React(s, CountdownGone))
       <==> if s.passiveTimeout.None? then Inv(s)
            else && IsVisitLog(s.log) && Visits(s.log).1 != []
                 && s.activeTimeout.None? && s.maybeInactive.None? && s.lastActivity <= s.now
  {
    LogOneMoreIff(s.log, INACTIVE_ON_SITE);
    AppendedVisits(s.log, INACTIVE_ON_SITE);
  }

  // ----- One late notice, after any calls -----

  predicate IsCall(e: Event) {
    !e.ActiveExpires? && !e.PassiveExpires? && !e.CountdownExpires?
  }

  /** The calls end with the visit closed: an Inactivity after which there is no Activity, and before which there is a
      key for it to delete, of an earlier Activity or of a countdown. */
  ghost predicate Closes(calls: seq<Event>, countdown: bool) {
    exists k :: 0 <= k < |calls| && ClosesAt(calls, countdown, k)
  }

  ghost predicate ClosesAt(calls: seq<Event>, countdown: bool, k: int)
    requires 0 <= k < |calls|
  {
    && calls[k].Inactivity? && (forall j :: k < j < |calls| ==> !calls[j].Activity?)
    && (countdown || Activity in calls[..k])
  }

  lemma {:induction false} RunSnoc(s: State, events: seq<Event>, e: Event)
    ensures Run(s, events + [e]) == Apply(Run(s, events), e)
    decreases |events|
  {
    hide Apply;
    if events == [] {
      assert [] + [e] == [e] && [e][1..] == [];
    } else {
      FirstOfAppend(events, [e]);
      RunSnoc(Apply(s, events[0]), events[1..], e);
    }
  }

  lemma ClosesSnoc(calls: seq<Event>, countdown: bool, e: Event)
    ensures Closes(calls + [e], countdown)
       <==> || (e.Inactivity? && (countdown || Activity in calls))
            || (!e.Activity? && Closes(calls, countdown))
  {
    var all := calls + [e];
    assert all[..|calls|] == calls;
    if e.Inactivity? && (countdown || Activity in calls) {
      assert ClosesAt(all, countdown, |calls|);
    }
    if !e.Activity? && Closes(calls, countdown) {
      var k :| 0 <= k < |calls| && ClosesAt(calls, countdown, k);
      assert all[..k] == calls[..k];
      assert ClosesAt(all, countdown, k);
    }
    if k :| 0 <= k < |all| && ClosesAt(all, countdown, k) {
      assert all[|calls|] == e;
      if k < |calls| {
        assert all[..k] == calls[..k] && all[k] == calls[k];
        assert forall j :: k < j < |calls| ==> calls[j] == all[j];
        assert ClosesAt(calls, countdown, k);
      }
    }
  }

  /** What an event appends to the log. */
  function Logged(s: State, e: Event): seq<AccountAction> {
    match e
    case Activity => if s.activeTimeout.Some? then [] else [ACTIVE_ON_SITE]
    case Passivity => if s.activeTimeout.None? then [] else [PASSIVE_ON_SITE]
    case Inactivity =>
      if s.activeTimeout.None? && s.passiveTimeout.None? && s.maybeInactive.None? then [] else [INACTIVE_ON_SITE]
    case ActiveExpires => [PASSIVE_ON_SITE]
    case PassiveExpires => if s.activeTimeout.Some? then [] else [INACTIVE_ON_SITE]
    case CountdownExpires => if s.passiveTimeout.None? then [] else [INACTIVE_ON_SITE]
    case _ => []
  }

  lemma LogAfter(s: State, e: Event)
    ensures Apply(s, e).log == s.log + Logged(s, e)
    ensures Logged(s, e) == [] || Logged(s, e) == [Logged(s, e)[0]]
  {
  }

  lemma {:induction false} BrokenStaysBroken(s: State, events: seq<Event>)
    requires !IsVisitLog(s.log)
    ensures !IsVisitLog(Run(s, events).log)
    decreases |events|
  {
    hide IsVisitLog, Apply, Logged, MayFollow;
    if events != [] {
      LogAfter(s, events[0]);
      if Logged(s, events[0]) != [] {
        LogOneMoreIff(s.log, Logged(s, events[0])[0]);
      } else {
        assert s.log + [] == s.log;
      }
      BrokenStaysBroken(Apply(s, events[0]), events[1..]);
    }
  }

  /** No key left, the visit still open and active. */
  predicate LeftActive(s: State) {
    && s.activeTimeout.None? && s.passiveTimeout.None? && s.maybeInactive.None?
    && IsVisitLog(s.log) && EndsIn(Visits(s.log).1, ACTIVE_ON_SITE)
  }

  /** Until an Activity comes, calls do nothing; the Activity then breaks the log. */
  lemma {:induction false} CallsAfterActive(s: State, calls: seq<Event>)
    requires LeftActive(s) && forall e <- calls :: IsCall(e)
    ensures if Activity in calls then !IsVisitLog(Run(s, calls).log) else LeftActive(Run(s, calls))
    decreases |calls|
  {
    if calls != [] {
      var e, t := calls[0], Apply(s, calls[0]);
      assert calls == [e] + calls[1..];
      if e.Activity? {
        LogOneMoreIff(s.log, ACTIVE_ON_SITE);
        BrokenStaysBroken(t, calls[1..]);
      } else {
        assert IsCall(e);
        LogAfter(s, e);
        CallsAfterActive(t, calls[1..]);
      }
    }
  }

  /** Where calls lead after a passive key is gone: the visit hangs on, an Activity takes it up again, or it is
      closed. */
  ghost predicate AfterPassive(t: State, calls: seq<Event>, countdown: bool) {
    && IsVisitLog(t.log)
    && var open := Visits(t.log).1;
       if Closes(calls, countdown) then
         t.activeTimeout.None? && t.passiveTimeout.None? && t.maybeInactive.None? && open == []
       else if Activity in calls then
         if t.activeTimeout.Some? then t.passiveTimeout.None? && EndsIn(open, ACTIVE_ON_SITE)
         else t.passiveTimeout.Some? && EndsIn(open, PASSIVE_ON_SITE)
       else
         t.activeTimeout.None? && t.passiveTimeout.None? && t.maybeInactive.Some? == countdown
             && EndsIn(open, PASSIVE_ON_SITE)
  }

  lemma OneMoreCall(t: State, calls: seq<Event>, countdown: bool, e: Event)
    requires AfterPassive(t, calls, countdown) && IsCall(e)
    ensures AfterPassive(Apply(t, e), calls + [e], countdown)
  {
    hide Closes, IsVisitLog;
    ClosesSnoc(calls, countdown, e);
    ClosedNeedsNoActivity(calls, countdown);
    assert Activity in calls + [e] <==> Activity in calls || e.Activity?;
    hide Visits;
    LogAfter(t, e);
    if Logged(t, e) != [] {
      LogOneMoreIff(t.log, Logged(t, e)[0]);
      AppendedVisits(t.log, Logged(t, e)[0]);
    }
  }

  lemma ClosedNeedsNoActivity(calls: seq<Event>, countdown: bool)
    ensures Closes(calls, countdown) ==> countdown || Activity in calls
  {
    if k :| 0 <= k < |calls| && ClosesAt(calls, countdown, k) {
      assert Activity in calls[..k] ==> Activity in calls;
    }
  }

  lemma {:induction false} CallsAfterPassive(s: State, calls: seq<Event>)
    requires AfterPassive(s, [], s.maybeInactive.Some?) && forall e <- calls :: IsCall(e)
    ensures AfterPassive(Run(s, calls), calls, s.maybeInactive.Some?)
    decreases |calls|
  {
    if calls != [] {
      var init, last := calls[..|calls| - 1], calls[|calls| - 1];
      assert calls == init + [last];
      CallsAfterPassive(s, init);
      RunSnoc(s, init, last);
      OneMoreCall(Run(s, init), init, s.maybeInactive.Some?, last);
    }
  }

  /** A key that is due is dropped, any calls follow, and then its notice is handled. The log survives, but for two
      cases: the notice of an active key after an Activity,
          and that of a passive key after the calls closed the visit. */
  lemma OneLateNoticeIff(s: State, n: Notice, calls: seq<Event>)
    requires Inv(s) && Due(KeyOf(s, n), s.now)
    requires IsRun(WithoutKey(s, n), calls) && forall e <- calls :: IsCall(e)
    ensures IsVisitLog(React(Run(WithoutKey(s, n), calls), n).log)
       <==> match n
            case ActiveGone => Activity !in calls
            case PassiveGone => !Closes(calls, s.maybeInactive.Some?)
            case CountdownGone => true
  {
    var t := Run(WithoutKey(s, n), calls);
    match n
    case ActiveGone =>
      CallsAfterActive(WithoutKey(s, n), calls);
      LateActiveNoticeIff(t);
    case PassiveGone =>
      CallsAfterPassive(WithoutKey(s, n), calls);
      LatePassiveNoticeIff(t);
    case CountdownGone =>
      RunsKeepInv(WithoutKey(s, n), calls);
      LateCountdownNoticeIff(t);
  }

  // ----- Any number of late notices -----

  /** The keys, or the notice that hangs, tell the open visit. */
  ghost predicate Tells(l: LateState) {
    && IsVisitLog(l.s.log)
    && var open := Visits(l.s.log).1;
       if l.s.activeTimeout.Some? then l.s.passiveTimeout.None? && l.hanging.None? && EndsIn(open, ACTIVE_ON_SITE)
       else if l.s.passiveTimeout.Some? then l.hanging.None? && EndsIn(open, PASSIVE_ON_SITE)
       else match l.hanging
         case None => open == []
         case Some(ActiveGone) => EndsIn(open, ACTIVE_ON_SITE)
         case Some(PassiveGone) => EndsIn(open, PASSIVE_ON_SITE)
         case Some(CountdownGone) => false
  }

  /** An event that comes too early or too late: an Activity while the notice of an active key hangs, an Inactivity that
      finds only the countdown of a closed visit,
          or a notice of an active or passive key that does not hang any more. */
  predicate Races(l: LateState, e: LateEvent) {
    match e
    case Call(Activity) => l.hanging == Some(ActiveGone)
    case Call(Inactivity) =>
      l.s.activeTimeout.None? && l.s.passiveTimeout.None? && l.s.maybeInactive.Some? && l.hanging.None?
    case Handle(ActiveGone) => l.hanging != Some(ActiveGone)
    case Handle(PassiveGone) => l.s.activeTimeout.None? && l.hanging.None?
    case _ => false
  }

  lemma CallTellsIff(l: LateState, c: Event)
    requires Tells(l) && LateEnabled(l, Call(c))
    ensures Tells(LateApply(l, Call(c))) <==> !Races(l, Call(c))
    ensures IsVisitLog(LateApply(l, Call(c)).s.log) <==> !Races(l, Call(c))
  {
    hide IsVisitLog, Visits;
    LogAfter(l.s, c);
    if Logged(l.s, c) != [] {
      LogOneMoreIff(l.s.log, Logged(l.s, c)[0]);
      AppendedVisits(l.s.log, Logged(l.s, c)[0]);
    }
  }

  lemma HandleTellsIff(l: LateState, n: Notice)
    requires Tells(l) && LateEnabled(l, Handle(n))
    ensures Tells(LateApply(l, Handle(n))) <==> !Races(l, Handle(n))
    ensures IsVisitLog(LateApply(l, Handle(n)).s.log) <==> !Races(l, Handle(n)) || KeyOf(l.s, n).Some?
  {
    hide IsVisitLog, Visits;
    var after := LateApply(l, Handle(n)).s.log;
    if after != l.s.log {
      var a := after[|l.s.log|];
      assert after == l.s.log + [a];
      LogOneMoreIff(l.s.log, a);
      AppendedVisits(l.s.log, a);
    }
  }

  /** Exactly which events break the tie between the log, the keys and the notices: each breaks the log at once, but for
      a notice that finds a new key of its own kind, which it leaves in place beside a log that goes on without it. */
  lemma TellsIff(l: LateState, e: LateEvent)
    requires Tells(l) && LateEnabled(l, e)
    ensures Tells(LateApply(l, e)) <==> !Races(l, e)
    ensures IsVisitLog(LateApply(l, e).s.log) <==> !Races(l, e) || (e.Handle? && KeyOf(l.s, e.n).Some?)
  {
    match e
    case Call(c) => CallTellsIff(l, c);
    case Handle(n) => HandleTellsIff(l, n);
    case Drop(_) =>
  }

  ghost predicate IsLateRun(l: LateState, events: seq<LateEvent>)
    decreases |events|
  {
    events == [] || (LateEnabled(l, events[0]) && IsLateRun(LateApply(l, events[0]), events[1..]))
  }

  function LateRun(l: LateState, events: seq<LateEvent>): LateState
    decreases |events|
  {
    if events == [] then l else LateRun(LateApply(l, events[0]), events[1..])
  }

  ghost predicate AlwaysTells(l: LateState, events: seq<LateEvent>)
    decreases |events|
  {
    Tells(l) && (events == [] || AlwaysTells(LateApply(l, events[0]), events[1..]))
  }

  ghost predicate NeverRaces(l: LateState, events: seq<LateEvent>)
    decreases |events|
  {
    events == [] || (!Races(l, events[0]) && NeverRaces(LateApply(l, events[0]), events[1..]))
  }

  /** With notices however late, and however many: in every state of a run the log is a prefix of proper visits, and the
      keys or the hanging notice tell its open visit, exactly when no event of the run comes too early or too late. */
  lemma {:induction false} LateRunsTellIff(l: LateState, events: seq<LateEvent>)
    requires Tells(l) && IsLateRun(l, events)
    ensures AlwaysTells(l, events) <==> NeverRaces(l, events)
    decreases |events|
  {
    hide LateApply, LateEnabled, Tells, Races;
    if events != [] {
      TellsIff(l, events[0]);
      var next := LateApply(l, events[0]);
      if Tells(next) {
        LateRunsTellIff(next, events[1..]);
      }
    }
  }

  /** Every state of the prompt machine is a good place to start. */
  lemma PromptStatesTell(s: State, pending: multiset<Notice>)
    requires Inv(s)
    ensures Tells(LateState(s, pending, None))
  {
  }

  // ----- A run that goes wrong -----

  const LATE_START := LateState(START, multiset{}, None)

  function LateTicks(n: nat): seq<LateEvent> {
    seq(n, _ => Call(Tick))
  }

  lemma OneLateTick(n: nat, rest: seq<LateEvent>)
    requires n > 0
    ensures var events := LateTicks(n) + rest;
            events != [] && events[0] == Call(Tick) && events[1..] == LateTicks(n - 1) + rest
  {
  }

  lemma OneLateStep(l: LateState, events: seq<LateEvent>)
    requires events != [] && LateEnabled(l, events[0])
    ensures IsLateRun(l, events) <==> IsLateRun(LateApply(l, events[0]), events[1..])
    ensures LateRun(l, events) == LateRun(LateApply(l, events[0]), events[1..])
  {
  }

  function Later(l: LateState, n: nat): LateState {
    l.(s := l.s.(now := l.s.now + n))
  }

  lemma TickIsLater(l: LateState, n: nat)
    requires n > 0 && NothingDueBefore(l.s, l.s.now + n)
    ensures LateEnabled(l, Call(Tick))
    ensures var next := LateApply(l, Call(Tick));
            Later(next, n - 1) == Later(l, n) && NothingDueBefore(next.s, next.s.now + (n - 1))
  {
  }

  lemma {:induction false} RunOfLateTicks(l: LateState, n: nat, rest: seq<LateEvent>)
    requires NothingDueBefore(l.s, l.s.now + n)
    ensures IsLateRun(l, LateTicks(n) + rest) <==> IsLateRun(Later(l, n), rest)
    ensures LateRun(l, LateTicks(n) + rest) == LateRun(Later(l, n), rest)
    decreases n
  {
    if n == 0 {
      assert LateTicks(0) + rest == rest && Later(l, 0) == l;
    } else {
      hide *;
      TickIsLater(l, n);
      OneLateTick(n, rest);
      OneLateStep(l, LateTicks(n) + rest);
      RunOfLateTicks(LateApply(l, Call(Tick)), n - 1, rest);
    }
  }

  /** The active key runs out, the user becomes active again, and only then the notice is handled: two ACTIVE entries
      follow each other, and both timeouts are set. */
  lemma LateNoticeBreaksLog()
    ensures var late := [Drop(ActiveGone), Call(Activity), Handle(ActiveGone)];
            var events := [Call(Activity)] + (LateTicks(NO_ACTIVITY) + late);
            && IsLateRun(LATE_START, events)
            && var s := LateRun(LATE_START, events).s;
               && s.log == [ACTIVE_ON_SITE, ACTIVE_ON_SITE, PASSIVE_ON_SITE] && !IsVisitLog(s.log)
               && s.activeTimeout.Some? && s.passiveTimeout.Some?
  {
    var late := [Drop(ActiveGone), Call(Activity), Handle(ActiveGone)];
    var l1 := LateApply(LATE_START, Call(Activity));
    var l2 := l1.(s := l1.s.(now := NO_ACTIVITY));
    RunOfLateTicks(l1, NO_ACTIVITY, late);
    assert ([Call(Activity)] + (LateTicks(NO_ACTIVITY) + late))[1..] == LateTicks(NO_ACTIVITY) + late;
    LateTail(l2);
  }

  lemma LateTail(l: LateState)
    requires l.s == State(NO_ACTIVITY, Some(NO_ACTIVITY), None, None, [ACTIVE_ON_SITE], 0) && l.pending == multiset{}
        && l.hanging.None?
    ensures var late := [Drop(ActiveGone), Call(Activity), Handle(ActiveGone)];
            && IsLateRun(l, late)
            && var s := LateRun(l, late).s;
               && s.log == [ACTIVE_ON_SITE, ACTIVE_ON_SITE, PASSIVE_ON_SITE] && !IsVisitLog(s.log)
               && s.activeTimeout.Some? && s.passiveTimeout.Some?
  {
    var a, b, c := Drop(ActiveGone), Call(Activity), Handle(ActiveGone);
    var l1 := LateApply(l, a);
    var l2 := LateApply(l1, b);
    var l3 := LateApply(l2, c);
    assert LateEnabled(l, a) && LateEnabled(l1, b) && LateEnabled(l2, c);
    TwoActives();
    assert l2.s.log == [ACTIVE_ON_SITE] + [ACTIVE_ON_SITE] && l3.s.log == l2.s.log + [PASSIVE_ON_SITE];
    hide LateApply, LateEnabled, IsVisitLog;
    assert [a, b, c][1..] == [b, c] && [b, c][1..] == [c] && [c][1..] == [];
    assert IsLateRun(l3, []) && LateRun(l3, []) == l3;
    assert IsLateRun(l2, [c]) && LateRun(l2, [c]) == l3;
    assert IsLateRun(l1, [b, c]) && LateRun(l1, [b, c]) == l3;
  }

  lemma TwoActives()
    ensures !IsVisitLog([ACTIVE_ON_SITE] + [ACTIVE_ON_SITE] + [PASSIVE_ON_SITE])
  {
    AppendedVisits([], ACTIVE_ON_SITE);
    assert [] + [ACTIVE_ON_SITE] == [ACTIVE_ON_SITE];
    LogOneMoreIff([ACTIVE_ON_SITE], ACTIVE_ON_SITE);
    LogOneMoreIff([ACTIVE_ON_SITE] + [ACTIVE_ON_SITE], PASSIVE_ON_SITE);
  }
}
