/**
 The presence machine of server/services/PresenceService.ts for one user and client: three keys
 with a time to live and a log of account actions. Handlers and key expiries are atomic, and an
 expiry is handled before the clock moves on. Times are in seconds.
 */
module Presence {
  import opened Basics

  const NO_ACTIVITY: nat := 120
  const PASSIVE_TIMEOUT: nat := 3600

  datatype AccountAction = ACTIVE_ON_SITE | PASSIVE_ON_SITE | INACTIVE_ON_SITE

  /** A key is the instant at which it expires. */
  datatype State = State(
    now: nat,
    activeTimeout: Option<nat>,
    passiveTimeout: Option<nat>,
    maybeInactive: Option<nat>,
    log: seq<AccountAction>,
    lastActivity: nat)  // history: when trackActivity was last called

  datatype Event =
    | Activity | Passivity | Countdown(ttl: nat) | Inactivity
    | ActiveExpires | PassiveExpires | CountdownExpires
    | Tick

  predicate Due(key: Option<nat>, now: nat) {
    key.Some? && key.value <= now
  }

  predicate Enabled(s: State, e: Event) {
    match e
    case Countdown(ttl) => ttl >= 1
    case ActiveExpires => Due(s.activeTimeout, s.now)
    case PassiveExpires => Due(s.passiveTimeout, s.now)
    case CountdownExpires => Due(s.maybeInactive, s.now)
    case Tick => !Due(s.activeTimeout, s.now) && !Due(s.passiveTimeout, s.now) && !Due(s.maybeInactive, s.now)
    case _ => true
  }

  /** The listener's reaction to an expired active key. */
  function BecomePassive(s: State): State {
    s.(log := s.log + [PASSIVE_ON_SITE], maybeInactive := None, passiveTimeout := Some(s.now + PASSIVE_TIMEOUT))
  }

  function Apply(s: State, e: Event): State {
    match e
    case Activity =>
      s.(passiveTimeout := None, maybeInactive := None, activeTimeout := Some(s.now + NO_ACTIVITY),
         log := if s.activeTimeout.Some? then s.log else s.log + [ACTIVE_ON_SITE], lastActivity := s.now)
    case Passivity =>
      if s.activeTimeout.None? then s else BecomePassive(s.(activeTimeout := None))
    case Countdown(ttl) =>
      if s.maybeInactive.None? && s.passiveTimeout.Some? then s.(maybeInactive := Some(s.now + ttl)) else s
    case Inactivity =>
      var cleared := s.(activeTimeout := None, passiveTimeout := None, maybeInactive := None);
      if cleared == s then s else cleared.(log := s.log + [INACTIVE_ON_SITE])
    case ActiveExpires => BecomePassive(s.(activeTimeout := None))
    case PassiveExpires =>
      var gone := s.(passiveTimeout := None);
      if s.activeTimeout.Some? then gone
      else gone.(maybeInactive := None, log := s.log + [INACTIVE_ON_SITE])
    case CountdownExpires =>
      var gone := s.(maybeInactive := None);
      if s.passiveTimeout.None? then gone
      else gone.(passiveTimeout := None, log := s.log + [INACTIVE_ON_SITE])
    case Tick => s.(now := s.now + 1)
  }

  // ----- The log -----

  /** A log cut after each INACTIVE: the closed visits, and the visit still open. */
  function Visits(log: seq<AccountAction>): (seq<seq<AccountAction>>, seq<AccountAction>) {
    if log == [] then ([], [])
    else
      var (closed, open) := Visits(log[..|log| - 1]);
      var last := log[|log| - 1];
      if last.INACTIVE_ON_SITE? then (closed + [open + [last]], []) else (closed, open + [last])
  }

  function Concat(visits: seq<seq<AccountAction>>): seq<AccountAction> {
    if visits == [] then [] else Concat(visits[..|visits| - 1]) + visits[|visits| - 1]
  }

  /** ACTIVE, PASSIVE, ACTIVE, PASSIVE, ... */
  predicate Alternates(visit: seq<AccountAction>) {
    forall i :: 0 <= i < |visit| ==> visit[i] == if i % 2 == 0 then ACTIVE_ON_SITE else PASSIVE_ON_SITE
  }

  predicate IsClosedVisit(visit: seq<AccountAction>) {
    && |visit| >= 2
    && visit[|visit| - 1] == INACTIVE_ON_SITE
    && Alternates(visit[..|visit| - 1])
  }

  /** A prefix of a sequence of visits ACTIVE (PASSIVE ACTIVE)* PASSIVE? INACTIVE. */
  predicate IsVisitLog(log: seq<AccountAction>) {
    var (closed, open) := Visits(log);
    (forall v <- closed :: IsClosedVisit(v)) && Alternates(open)
  }

  lemma {:induction false} VisitsCoverLog(log: seq<AccountAction>)
    ensures var (closed, open) := Visits(log); Concat(closed) + open == log
  {
    if log != [] {
      VisitsCoverLog(log[..|log| - 1]);
      var (closed, open) := Visits(log[..|log| - 1]);
      var last := log[|log| - 1];
      assert log == Concat(closed) + open + [last];
      assert (closed + [open + [last]])[..|closed|] == closed;
    }
  }

  // ----- Invariants of every run -----

  /** What the keys say the last logged action is. */
  predicate KeysAgreeWithLog(s: State) {
    var open := Visits(s.log).1;
    if s.activeTimeout.Some? then open != [] && open[|open| - 1] == ACTIVE_ON_SITE
    else if s.passiveTimeout.Some? then open != [] && open[|open| - 1] == PASSIVE_ON_SITE
    else open == []
  }

  predicate Inv(s: State) {
    && !(s.activeTimeout.Some? && s.passiveTimeout.Some?)
    && (s.maybeInactive.Some? ==> s.passiveTimeout.Some?)
    && IsVisitLog(s.log) && KeysAgreeWithLog(s)
    && s.lastActivity <= s.now
    && (s.activeTimeout.Some? ==> s.now <= s.activeTimeout.value == s.lastActivity + NO_ACTIVITY)
    && (s.passiveTimeout.Some? ==>
          s.now <= s.passiveTimeout.value <= s.lastActivity + NO_ACTIVITY + PASSIVE_TIMEOUT)
  }

  lemma LogOneMore(log: seq<AccountAction>, a: AccountAction)
    requires IsVisitLog(log)
    requires var open := Visits(log).1;
             match a
             case ACTIVE_ON_SITE => open == [] || open[|open| - 1] == PASSIVE_ON_SITE
             case PASSIVE_ON_SITE => open != [] && open[|open| - 1] == ACTIVE_ON_SITE
             case INACTIVE_ON_SITE => open != []
    ensures IsVisitLog(log + [a])
    ensures Visits(log + [a]).1 == if a.INACTIVE_ON_SITE? then [] else Visits(log).1 + [a]
  {
    var open := Visits(log).1;
    assert (log + [a])[..|log|] == log;
    if a.INACTIVE_ON_SITE? {
      assert (open + [a])[..|open|] == open;
    }
  }

  lemma {:induction false} StepKeepsInv(s: State, e: Event)
    requires Inv(s) && Enabled(s, e)
    ensures Inv(Apply(s, e))
  {
    match e
    case Activity =>
      if s.activeTimeout.None? {
        LogOneMore(s.log, ACTIVE_ON_SITE);
      }
    case Passivity =>
      if s.activeTimeout.Some? {
        LogOneMore(s.log, PASSIVE_ON_SITE);
      }
    case ActiveExpires => LogOneMore(s.log, PASSIVE_ON_SITE);
    case Inactivity =>
      if s.activeTimeout.Some? || s.passiveTimeout.Some? {
        LogOneMore(s.log, INACTIVE_ON_SITE);
      }
    case PassiveExpires => LogOneMore(s.log, INACTIVE_ON_SITE);
    case CountdownExpires => LogOneMore(s.log, INACTIVE_ON_SITE);
    case _ =>
  }

  ghost predicate IsRun(s: State, events: seq<Event>)
    decreases |events|
  {
    events == [] || (Enabled(s, events[0]) && IsRun(Apply(s, events[0]), events[1..]))
  }

  function Run(s: State, events: seq<Event>): State
    decreases |events|
  {
    if events == [] then s else Run(Apply(s, events[0]), events[1..])
  }

  const START := State(0, None, None, None, [], 0)

  lemma {:induction false} RunsKeepInv(s: State, events: seq<Event>)
    requires Inv(s) && IsRun(s, events)
    ensures Inv(Run(s, events))
    decreases |events|
  {
    if events != [] {
      StepKeepsInv(s, events[0]);
      RunsKeepInv(Apply(s, events[0]), events[1..]);
    }
  }

  /** Keys, log and clock in every reachable state. */
  lemma ReachableStates(events: seq<Event>)
    requires IsRun(START, events)
    ensures var s := Run(START, events);
            && !(s.activeTimeout.Some? && s.passiveTimeout.Some?)
            && (s.maybeInactive.Some? ==> s.passiveTimeout.Some?)
            && IsVisitLog(s.log)
            && (s.activeTimeout.Some? <==> s.log != [] && s.log[|s.log| - 1] == ACTIVE_ON_SITE)
            && (s.passiveTimeout.Some? <==> s.log != [] && s.log[|s.log| - 1] == PASSIVE_ON_SITE)
            && (s.log != [] && s.log[|s.log| - 1] != INACTIVE_ON_SITE ==>
                  s.now <= s.lastActivity + NO_ACTIVITY + PASSIVE_TIMEOUT)
  {
    RunsKeepInv(START, events);
    var s := Run(START, events);
    if s.log != [] {
      LastOfLog(s.log);
    }
  }

  lemma LastOfLog(log: seq<AccountAction>)
    requires log != []
    ensures var open := Visits(log).1;
            if log[|log| - 1].INACTIVE_ON_SITE? then open == []
            else open != [] && open[|open| - 1] == log[|log| - 1]
  {
  }

  // ----- The bound is tight -----

  function Ticks(n: nat): seq<Event> {
    seq(n, _ => Tick)
  }

  predicate NothingDueBefore(s: State, t: nat) {
    && (s.activeTimeout.Some? ==> t <= s.activeTimeout.value)
    && (s.passiveTimeout.Some? ==> t <= s.passiveTimeout.value)
    && (s.maybeInactive.Some? ==> t <= s.maybeInactive.value)
  }

  lemma {:induction false} RunOfTicks(s: State, n: nat, rest: seq<Event>)
    requires NothingDueBefore(s, s.now + n)
    ensures var t := s.(now := s.now + n);
            && (IsRun(s, Ticks(n) + rest) <==> IsRun(t, rest))
            && Run(s, Ticks(n) + rest) == Run(t, rest)
    decreases n
  {
    if n == 0 {
      assert Ticks(0) + rest == rest;
    } else {
      var next := Apply(s, Tick);
      assert Enabled(s, Tick) && next == s.(now := s.now + 1);
      hide Apply, Enabled;
      RunOfTicks(next, n - 1, rest);
      assert (Ticks(n) + rest)[0] == Tick;
      assert (Ticks(n) + rest)[1..] == Ticks(n - 1) + rest;
    }
  }

  /** Somebody who leaves without a trace is still on the books 3720 seconds after the last activity. */
  lemma DriftBoundIsTight()
    ensures var events := [Activity] + (Ticks(NO_ACTIVITY) + ([ActiveExpires] + (Ticks(PASSIVE_TIMEOUT) + [])));
            && IsRun(START, events)
            && var s := Run(START, events);
               s.log == [ACTIVE_ON_SITE, PASSIVE_ON_SITE] && s.now == s.lastActivity + NO_ACTIVITY + PASSIVE_TIMEOUT
  {
    var late := Ticks(PASSIVE_TIMEOUT) + [];
    var middle := [ActiveExpires] + late;
    var s1 := Apply(START, Activity);
    var s2 := s1.(now := NO_ACTIVITY);
    var s3 := Apply(s2, ActiveExpires);
    RunOfTicks(s1, NO_ACTIVITY, middle);
    RunOfTicks(s3, PASSIVE_TIMEOUT, []);
    assert middle[1..] == late;
    assert ([Activity] + (Ticks(NO_ACTIVITY) + middle))[1..] == Ticks(NO_ACTIVITY) + middle;
    assert s3.log == [ACTIVE_ON_SITE, PASSIVE_ON_SITE];
  }

  // ----- The handlers, command by command -----

  class Client {
    var now: nat
    var activeTimeout: Option<nat>
    var passiveTimeout: Option<nat>
    var maybeInactive: Option<nat>
    var log: seq<AccountAction>
    ghost var lastActivity: nat

    ghost function Snapshot(): State
      reads this
    {
      State(now, activeTimeout, passiveTimeout, maybeInactive, log, lastActivity)
    }

    constructor ()
      ensures Snapshot() == START
    {
      now := 0;
      activeTimeout, passiveTimeout, maybeInactive := None, None, None;
      log := [];
      lastActivity := 0;
    }

    method TrackActivity()
      modifies this
      ensures Snapshot() == Apply(old(Snapshot()), Activity)
    {
      passiveTimeout, maybeInactive := None, None;
      var keyExists := activeTimeout.Some?;
      if !keyExists {
        log := log + [ACTIVE_ON_SITE];
      }
      activeTimeout := Some(now + NO_ACTIVITY);
      lastActivity := now;
    }

    method TrackPassivity()
      modifies this
      ensures Snapshot() == Apply(old(Snapshot()), Passivity)
    {
      if activeTimeout.None? {
        return;
      }
      activeTimeout, maybeInactive := None, None;
      log := log + [PASSIVE_ON_SITE];
      passiveTimeout := Some(now + PASSIVE_TIMEOUT);
    }

    method SetInactivityCountdown(ttl: nat)
      requires ttl >= 1
      modifies this
      ensures Snapshot() == Apply(old(Snapshot()), Countdown(ttl))
    {
      var isNotCurrentlyInCountdown := maybeInactive.None?;
      var isPassive := passiveTimeout.Some?;
      if isPassive && isNotCurrentlyInCountdown {
        maybeInactive := Some(now + ttl);
      }
    }

    method TrackInactivity()
      modifies this
      ensures Snapshot() == Apply(old(Snapshot()), Inactivity)
    {
      var deletedKeyCount := (if activeTimeout.Some? then 1 else 0) + (if passiveTimeout.Some? then 1 else 0)
                             + (if maybeInactive.Some? then 1 else 0);
      activeTimeout, passiveTimeout, maybeInactive := None, None, None;
      if deletedKeyCount >= 1 {
        log := log + [INACTIVE_ON_SITE];
      }
    }

    /** Redis drops the key that is due and the listener reacts to it. */
    method ExpiredKeyListener(e: Event)
      requires e.ActiveExpires? || e.PassiveExpires? || e.CountdownExpires?
      requires Enabled(Snapshot(), e)
      modifies this
      ensures Snapshot() == Apply(old(Snapshot()), e)
    {
      if e.ActiveExpires? {
        activeTimeout := None;
        log := log + [PASSIVE_ON_SITE];
        maybeInactive := None;
        passiveTimeout := Some(now + PASSIVE_TIMEOUT);
      } else if e.PassiveExpires? {
        passiveTimeout := None;
        if activeTimeout.Some? {
          return;
        }
        log := log + [INACTIVE_ON_SITE];
        activeTimeout, maybeInactive := None, None;
      } else {
        maybeInactive := None;
        if passiveTimeout.Some? {
          log := log + [INACTIVE_ON_SITE];
          passiveTimeout := None;
        }
      }
    }
  }
}
