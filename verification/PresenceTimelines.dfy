/**
 What the calls of server/services/PresenceService.ts and the passing of time come to, from any reachable state of the
 machine: how a visit fades, how a countdown closes one, and what calls it off.
 */
module PresenceTimelines {
  import opened Basics
  import opened Presence

  lemma RunFirst(s: State, e: Event, rest: seq<Event>)
    ensures IsRun(s, [e] + rest) <==> Enabled(s, e) && IsRun(Apply(s, e), rest)
    ensures Run(s, [e] + rest) == Run(Apply(s, e), rest)
  {
    assert ([e] + rest)[1..] == rest;
  }

  lemma RunLast(s: State, e: Event)
    ensures IsRun(s, [e]) <==> Enabled(s, e)
    ensures Run(s, [e]) == Apply(s, e)
  {
    assert [e][1..] == [];
  }

  /** One event, some time, and another event. */
  lemma Later(s: State, first: Event, n: nat, rest: seq<Event>)
    requires Enabled(s, first) && NothingDueBefore(Apply(s, first), s.now + n) && Apply(s, first).now == s.now
    ensures var t := Apply(s, first).(now := s.now + n);
            && (IsRun(s, [first] + (Ticks(n) + rest)) <==> IsRun(t, rest))
            && Run(s, [first] + (Ticks(n) + rest)) == Run(t, rest)
  {
    RunFirst(s, first, Ticks(n) + rest);
    RunOfTicks(Apply(s, first), n, rest);
  }

  predicate NoKeys(s: State) {
    s.activeTimeout.None? && s.passiveTimeout.None? && s.maybeInactive.None?
  }

  // ----- Countdowns -----

  predicate CanCountDown(s: State, ttl: nat) {
    && Inv(s) && s.passiveTimeout.Some? && s.maybeInactive.None?
    && ttl >= 1 && s.now + ttl <= s.passiveTimeout.value
  }

  /** A passive visit for which a countdown runs out is closed, after just that time. */
  lemma CountdownClosesVisit(s: State, ttl: nat)
    requires CanCountDown(s, ttl)
    ensures var events := [Countdown(ttl)] + (Ticks(ttl) + [CountdownExpires]);
            && IsRun(s, events)
            && var t := Run(s, events);
               NoKeys(t) && t.log == s.log + [INACTIVE_ON_SITE] && t.now == s.now + ttl
  {
    Later(s, Countdown(ttl), ttl, [CountdownExpires]);
    RunLast(Apply(s, Countdown(ttl)).(now := s.now + ttl), CountdownExpires);
  }

  /** Before that time the key is not due: nothing is logged. */
  lemma CountdownTakesItsTime(s: State, ttl: nat, n: nat)
    requires CanCountDown(s, ttl) && n < ttl
    ensures var events := [Countdown(ttl)] + (Ticks(n) + []);
            && IsRun(s, events) && Run(s, events).log == s.log
            && !Enabled(Run(s, events), CountdownExpires)
  {
    Later(s, Countdown(ttl), n, []);
  }

  /** An activity before the end calls the countdown off: the user is active again, and the countdown cannot expire. */
  lemma ActivityCallsCountdownOff(s: State, ttl: nat, n: nat)
    requires CanCountDown(s, ttl) && n <= ttl
    ensures var events := [Countdown(ttl)] + (Ticks(n) + [Activity]);
            && IsRun(s, events)
            && var t := Run(s, events);
               && t.log == s.log + [ACTIVE_ON_SITE] && t.activeTimeout == Some(s.now + n + NO_ACTIVITY)
               && t.passiveTimeout.None? && t.maybeInactive.None?
               && IsRun(s, events + Ticks(NO_ACTIVITY)) && Run(s, events + Ticks(NO_ACTIVITY)).log == t.log
  {
    Later(s, Countdown(ttl), n, [Activity]);
    var s1 := Apply(s, Countdown(ttl)).(now := s.now + n);
    RunLast(s1, Activity);
    Later(s, Countdown(ttl), n, [Activity] + (Ticks(NO_ACTIVITY) + []));
    Later(s1, Activity, NO_ACTIVITY, []);
    var ticks := Ticks(NO_ACTIVITY);
    assert [Countdown(ttl)] + (Ticks(n) + ([Activity] + (ticks + [])))
        == [Countdown(ttl)] + (Ticks(n) + [Activity]) + ticks;
  }

  /** A second countdown while one runs does not move its end, and none starts unless the user is passive. */
  lemma SecondCountdownIsIgnored(s: State, ttl: nat, n: nat, again: nat)
    requires CanCountDown(s, ttl) && n <= ttl && again >= 1
    ensures var events := [Countdown(ttl)] + (Ticks(n) + [Countdown(again)]);
            IsRun(s, events) && Run(s, events).maybeInactive == Some(s.now + ttl) && Run(s, events).log == s.log
  {
    Later(s, Countdown(ttl), n, [Countdown(again)]);
    RunLast(Apply(s, Countdown(ttl)).(now := s.now + n), Countdown(again));
  }

  lemma NoCountdownUnlessPassive(s: State, ttl: nat)
    requires s.passiveTimeout.None? && ttl >= 1
    ensures IsRun(s, [Countdown(ttl)]) && Run(s, [Countdown(ttl)]) == s
  {
    RunLast(s, Countdown(ttl));
  }

  // ----- Activity, passivity, inactivity -----

  function OpeningEntry(s: State): seq<AccountAction> {
    if s.activeTimeout.Some? then [] else [ACTIVE_ON_SITE]
  }

  /** An active user of whom nothing more is heard turns passive after 120 seconds and inactive an hour later. */
  lemma VisitFades(s: State)
    requires Inv(s)
    ensures var rest := [ActiveExpires] + (Ticks(PASSIVE_TIMEOUT) + [PassiveExpires]);
            var events := [Activity] + (Ticks(NO_ACTIVITY) + rest);
            && IsRun(s, events)
            && var t := Run(s, events);
               && NoKeys(t) && t.now == s.now + NO_ACTIVITY + PASSIVE_TIMEOUT
               && t.log == s.log + OpeningEntry(s) + [PASSIVE_ON_SITE, INACTIVE_ON_SITE]
  {
    var s1 := Apply(s, Activity).(now := s.now + NO_ACTIVITY);
    var s2 := Apply(s1, ActiveExpires).(now := s1.now + PASSIVE_TIMEOUT);
    var rest := [ActiveExpires] + (Ticks(PASSIVE_TIMEOUT) + [PassiveExpires]);
    Later(s, Activity, NO_ACTIVITY, rest);
    Later(s1, ActiveExpires, PASSIVE_TIMEOUT, [PassiveExpires]);
    RunLast(s2, PassiveExpires);
    assert s1.log == s.log + OpeningEntry(s);
    assert s1.log + [PASSIVE_ON_SITE] + [INACTIVE_ON_SITE] == s1.log + [PASSIVE_ON_SITE, INACTIVE_ON_SITE];
  }

  /** Going passive starts the hour at once; what comes after it closes the visit. */
  lemma PassiveVisitFades(s: State)
    requires Inv(s) && s.activeTimeout.Some?
    ensures var events := [Passivity] + (Ticks(PASSIVE_TIMEOUT) + [PassiveExpires]);
            && IsRun(s, events)
            && var t := Run(s, events);
               && NoKeys(t) && t.now == s.now + PASSIVE_TIMEOUT
               && t.log == s.log + [PASSIVE_ON_SITE, INACTIVE_ON_SITE]
  {
    var s1 := Apply(s, Passivity).(now := s.now + PASSIVE_TIMEOUT);
    Later(s, Passivity, PASSIVE_TIMEOUT, [PassiveExpires]);
    RunLast(s1, PassiveExpires);
    assert s.log + [PASSIVE_ON_SITE] + [INACTIVE_ON_SITE] == s.log + [PASSIVE_ON_SITE, INACTIVE_ON_SITE];
  }

  /** Leaving closes an open visit at once, active or passive, and a closed one stays closed. */
  lemma LeavingClosesVisit(s: State)
    requires Inv(s)
    ensures IsRun(s, [Inactivity])
    ensures var t := Run(s, [Inactivity]);
            && NoKeys(t) && Visits(t.log).1 == [] && t.now == s.now
            && t.log == (if Visits(s.log).1 == [] then s.log else s.log + [INACTIVE_ON_SITE])
            && Run(t, [Inactivity]) == t
  {
    RunLast(s, Inactivity);
    RunLast(Apply(s, Inactivity), Inactivity);
    if Visits(s.log).1 != [] {
      LogOneMore(s.log, INACTIVE_ON_SITE);
    }
  }

  /** Activity again within 120 seconds is not logged again, and starts those seconds anew. */
  lemma ActivityKeepsVisit(s: State, n: nat)
    requires Inv(s) && n <= NO_ACTIVITY
    ensures var events := [Activity] + (Ticks(n) + [Activity]);
            && IsRun(s, events)
            && var t := Run(s, events);
               t.log == s.log + OpeningEntry(s) && t.activeTimeout == Some(s.now + n + NO_ACTIVITY)
                   && t.passiveTimeout.None?
  {
    hide IsVisitLog, KeysAgreeWithLog, Run, IsRun, Ticks;
    Later(s, Activity, n, [Activity]);
    RunLast(Apply(s, Activity).(now := s.now + n), Activity);
  }
}
