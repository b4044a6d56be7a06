/**
 One-time passwords, server/services/MultiFactorAuthService.ts with the statements of
 server/models/Totp/totp.sql. The code of a counter is an uninterpreted function of the secret and the
 counter; one clock reading serves both the library's search and the service's own counter.
 */
module Totp {
  import opened Basics

  type Secret = string
  type Codes = (Secret, int) -> string

  const PERIOD_MS := 30000
  const WINDOW := 1

  datatype Record = Record(secret: Secret, verified: bool, lastUsedCounter: Option<int>)

  /** The row of one user. */
  type State = Option<Record>

  predicate IsValidToken(token: string) {
    |token| == 6 && forall c <- token :: '0' <= c <= '9'
  }

  // ----- The service -----

  /** Counter `used` is the first of the window around `current` with this code. */
  predicate FirstMatch(codes: Codes, secret: Secret, current: int, token: string, used: int) {
    && current - WINDOW <= used <= current + WINDOW && codes(secret, used) == token
    && forall c :: current - WINDOW <= c < used ==> codes(secret, c) != token
  }

  /** A token is accepted for a counter: it is the first match, and later than the counter last used. */
  predicate Accepts(codes: Codes, state: State, current: int, token: string, used: int) {
    && IsValidToken(token) && state.Some? && FirstMatch(codes, state.value.secret, current, token, used)
    && used > state.value.lastUsedCounter.GetOr(-1)
  }

  datatype Fault = NoFault | ReadFails | UpdateFails

  class Service {
    const codes: Codes
    var record: State

    constructor (codes: Codes)
      ensures this.codes == codes && record == None
    {
      this.codes := codes;
      record := None;
    }

    /** The library's search through the window, lowest counter first. */
    method Search(secret: Secret, current: int, token: string) returns (delta: Option<int>)
      ensures delta.Some? ==> FirstMatch(codes, secret, current, token, current + delta.value)
      ensures delta.None? ==> forall used :: !FirstMatch(codes, secret, current, token, used)
    {
      var counter := current - WINDOW;
      while counter <= current + WINDOW
        invariant current - WINDOW <= counter <= current + WINDOW + 1
        invariant forall c :: current - WINDOW <= c < counter ==> codes(secret, c) != token
      {
        if codes(secret, counter) == token {
          return Some(counter - current);
        }
        counter := counter + 1;
      }
      return None;
    }

    /** Any error, of the database or in decrypting, is caught and reported as a failure to verify. */
    method VerifyTotpToken(now: nat, token: string, fault: Fault) returns (ok: bool)
      modifies this
      ensures ok <==> fault.NoFault? && exists used :: Accepts(codes, old(record), now / PERIOD_MS, token, used)
      ensures !ok ==> record == old(record)
      ensures ok ==> exists used ::
                && Accepts(codes, old(record), now / PERIOD_MS, token, used)
                && record == Some(Record(old(record).value.secret, true, Some(used)))
      ensures fault.NoFault? ==> record == Step(codes, old(record), Verify(now / PERIOD_MS, token))
    {
      if !IsValidToken(token) || fault.ReadFails? || record.None? {
        return false;
      }
      var totpRecord := record.value;
      var currentCounter := now / PERIOD_MS;
      var delta := Search(totpRecord.secret, currentCounter, token);
      if delta.None? {
        return false;
      }
      var usedCounter := currentCounter + delta.value;
      OneFirstMatch(codes, totpRecord.secret, currentCounter, token);
      var lastUsedCounter := totpRecord.lastUsedCounter.GetOr(-1);
      if usedCounter <= lastUsedCounter || fault.UpdateFails? {
        return false;
      }
      assert Accepts(codes, old(record), now / PERIOD_MS, token, usedCounter);
      record := Some(totpRecord.(lastUsedCounter := Some(usedCounter)));
      if !totpRecord.verified {
        record := Some(record.value.(verified := true));
      }
      return true;
    }

    /** Enrolment: a new secret, unless one is already verified. */
    method GenerateTotpSecret(secret: Secret) returns (ok: bool)
      modifies this
      ensures ok <==> !(old(record).Some? && old(record).value.verified)
      ensures record == if ok then Some(Record(secret, false, None)) else old(record)
    {
      if record.Some? && record.value.verified {
        return false;
      }
      StoreSecret(secret);
      return true;
    }

    /** INSERT ... ON CONFLICT DO UPDATE ... WHERE NOT verified */
    method StoreSecret(secret: Secret)
      modifies this
      ensures record == Step(codes, old(record), Store(secret))
    {
      if record.None? || !record.value.verified {
        record := Some(Record(secret, false, None));
      }
    }
  }

  lemma OneFirstMatch(codes: Codes, secret: Secret, current: int, token: string)
    ensures forall a, b ::
      FirstMatch(codes, secret, current, token, a) && FirstMatch(codes, secret, current, token, b) ==> a == b
  {
  }

  // ----- Runs -----

  datatype Event = Verify(current: int, token: string) | Store(secret: Secret)

  /** A success: the counter the clock was at, and the counter accepted. */
  datatype Success = Success(current: int, used: int)

  /** The counter accepted, if any. */
  ghost function Accepted(codes: Codes, s: State, current: int, token: string): (used: Option<int>)
    ensures used.Some? ==> Accepts(codes, s, current, token, used.value)
    ensures used.None? ==> forall u :: !Accepts(codes, s, current, token, u)
  {
    if u :| Accepts(codes, s, current, token, u) then Some(u) else None
  }

  ghost function Step(codes: Codes, s: State, e: Event): State {
    match e
    case Store(secret) => if s.Some? && s.value.verified then s else Some(Record(secret, false, None))
    case Verify(current, token) =>
      var used := Accepted(codes, s, current, token);
      if used.Some? then Some(Record(s.value.secret, true, used)) else s
  }

  /** The record after sequential calls, any number of them, and the successes among them in order. */
  ghost function After(codes: Codes, events: seq<Event>): State {
    if events == [] then None else Step(codes, After(codes, Init(events)), Last(events))
  }

  ghost function Successes(codes: Codes, events: seq<Event>): seq<Success> {
    if events == [] then [] else
      Successes(codes, Init(events))
      + match Last(events)
        case Store(_) => []
        case Verify(current, token) =>
          var used := Accepted(codes, After(codes, Init(events)), current, token);
          if used.Some? then [Success(current, used.value)] else []
  }

  function Init(events: seq<Event>): seq<Event>
    requires events != []
  {
    events[..|events| - 1]
  }

  function Last(events: seq<Event>): Event
    requires events != []
  {
    events[|events| - 1]
  }

  /** A record is verified exactly when some code has been accepted, and holds the last counter accepted. */
  ghost predicate Agrees(s: State, successes: seq<Success>) {
    if successes == [] then s.Some? ==> !s.value.verified && s.value.lastUsedCounter == None
    else s.Some? && s.value.verified && s.value.lastUsedCounter == Some(successes[|successes| - 1].used)
  }

  /** Counters accepted are never negative, strictly increase, and are within one of the clock. */
  ghost predicate Increasing(successes: seq<Success>) {
    && (forall w <- successes :: w.used >= 0 && w.current - WINDOW <= w.used <= w.current + WINDOW)
    && (forall i, j :: 0 <= i < j < |successes| ==> successes[i].used < successes[j].used)
  }

  lemma OneMoreSuccess(s: State, successes: seq<Success>, codes: Codes, current: int, token: string, used: int)
    requires Agrees(s, successes) && Increasing(successes) && Accepts(codes, s, current, token, used)
    ensures Increasing(successes + [Success(current, used)])
  {
    if successes != [] {
      var last := successes[|successes| - 1];
      assert forall w <- successes :: w.used <= last.used;
    }
  }

  /** No counter is accepted twice, over any run, whatever is enrolled in between. */
  lemma {:induction false} AcceptedCountersIncrease(codes: Codes, events: seq<Event>)
    ensures Agrees(After(codes, events), Successes(codes, events))
    ensures Increasing(Successes(codes, events))
  {
    if events != [] {
      AcceptedCountersIncrease(codes, Init(events));
      var s, e := After(codes, Init(events)), Last(events);
      if e.Verify? && Accepted(codes, s, e.current, e.token).Some? {
        var used := Accepted(codes, s, e.current, e.token).value;
        OneMoreSuccess(s, Successes(codes, Init(events)), codes, e.current, e.token, used);
      }
    }
  }

  /** Once a code has been accepted the secret stays. */
  lemma {:induction false} VerifiedSecretStays(codes: Codes, events: seq<Event>, more: seq<Event>)
    requires Successes(codes, events) != []
    ensures var s, s' := After(codes, events), After(codes, events + more);
            s.Some? && s'.Some? && s'.value.verified && s'.value.secret == s.value.secret
  {
    if more == [] {
      assert events + more == events;
      AcceptedCountersIncrease(codes, events);
    } else {
      assert Init(events + more) == events + Init(more);
      VerifiedSecretStays(codes, events, Init(more));
    }
  }

  /** Readings confined to counters [a, b] allow at most b - a + 3 successes. */
  lemma SuccessBound(codes: Codes, events: seq<Event>, a: int, b: int)
    requires forall e <- events :: e.Verify? ==> a <= e.current <= b
    requires a <= b
    ensures |Successes(codes, events)| <= b - a + 3
  {
    var successes := Successes(codes, events);
    AcceptedCountersIncrease(codes, events);
    if successes != [] {
      ReadingsComeFromEvents(codes, events, successes[0]);
      ReadingsComeFromEvents(codes, events, successes[|successes| - 1]);
      Spread(successes, |successes| - 1);
    }
  }

  lemma {:induction false} ReadingsComeFromEvents(codes: Codes, events: seq<Event>, w: Success)
    requires w in Successes(codes, events)
    ensures exists e <- events :: e.Verify? && e.current == w.current
  {
    if w in Successes(codes, Init(events)) {
      ReadingsComeFromEvents(codes, Init(events), w);
    } else {
      assert Last(events) in events;
    }
  }

  /** Strictly increasing counters spread out. */
  lemma {:induction false} Spread(successes: seq<Success>, i: nat)
    requires Increasing(successes) && i < |successes|
    ensures successes[i].used >= successes[0].used + i
  {
    if i > 0 {
      Spread(successes, i - 1);
    }
  }

  // ----- The bound is attained -----

  /** Codes are proper tokens, and any three neighbouring counters have different ones. */
  ghost predicate Telling(codes: Codes, secret: Secret) {
    && (forall c :: IsValidToken(codes(secret, c)))
    && (forall c, d :: c < d <= c + 2 * WINDOW ==> codes(secret, c) != codes(secret, d))
  }

  /** Enrolment, then counters a - 1, a, ... in turn, each read as early as the window and `a` allow. */
  function EagerEvents(codes: Codes, secret: Secret, a: int, n: nat): seq<Event> {
    if n == 0 then [Store(secret)] else
      EagerEvents(codes, secret, a, n - 1) + [Verify(if n <= 2 then a else a + n - 3, codes(secret, a + n - 2))]
  }

  lemma {:induction false} EagerAfter(codes: Codes, secret: Secret, a: int, n: nat)
    requires Telling(codes, secret) && 1 <= a
    ensures After(codes, EagerEvents(codes, secret, a, n)) == EagerRecord(secret, a, n)
  {
    hide Telling, Accepts;
    var events := EagerEvents(codes, secret, a, n);
    if n == 0 {
      assert Init(events) == [];
    } else {
      EagerAfter(codes, secret, a, n - 1);
      assert Init(events) == EagerEvents(codes, secret, a, n - 1);
      EagerSucceeds(codes, secret, a, n);
    }
  }

  /** Each of these readings succeeds. */
  lemma {:induction false} BoundIsAttained(codes: Codes, secret: Secret, a: int, n: nat)
    requires Telling(codes, secret) && 1 <= a
    ensures |Successes(codes, EagerEvents(codes, secret, a, n))| == n
  {
    hide Telling, Accepts, Step, EagerRecord;
    var events := EagerEvents(codes, secret, a, n);
    if n == 0 {
      assert Init(events) == [];
      assert Successes(codes, events) == [];
    } else {
      BoundIsAttained(codes, secret, a, n - 1);
      EagerAfter(codes, secret, a, n - 1);
      assert Init(events) == EagerEvents(codes, secret, a, n - 1);
      EagerSucceeds(codes, secret, a, n);
    }
  }

  lemma {:induction false} EagerReadings(codes: Codes, secret: Secret, a: int, n: nat)
    ensures forall e <- EagerEvents(codes, secret, a, n) ::
      e.Verify? ==> a <= e.current <= if n >= 3 then a + n - 3 else a
  {
    if n > 0 {
      EagerReadings(codes, secret, a, n - 1);
    }
  }

  ghost function EagerRecord(secret: Secret, a: int, n: nat): State {
    Some(Record(secret, n > 0, if n > 0 then Some(a + n - 2) else None))
  }

  lemma EagerSucceeds(codes: Codes, secret: Secret, a: int, n: nat)
    requires Telling(codes, secret) && 1 <= a && n > 0
    ensures Accepted(codes, EagerRecord(secret, a, n - 1), if n <= 2 then a else a + n - 3, codes(secret, a + n - 2))
         == Some(a + n - 2)
  {
    var current := if n <= 2 then a else a + n - 3;
    assert Accepts(codes, EagerRecord(secret, a, n - 1), current, codes(secret, a + n - 2), a + n - 2);
    OneFirstMatch(codes, secret, current, codes(secret, a + n - 2));
  }

  /** The bound is exact. */
  lemma BoundIsExact(codes: Codes, secret: Secret, a: int, b: int)
    requires Telling(codes, secret) && 1 <= a <= b
    ensures exists events: seq<Event> :: |Successes(codes, events)| == b - a + 3
                             && forall e <- events :: e.Verify? ==> a <= e.current <= b
  {
    BoundIsAttained(codes, secret, a, b - a + 3);
    EagerReadings(codes, secret, a, b - a + 3);
  }
}
