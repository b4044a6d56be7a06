/**
 The tutored time of a session, calculateTimeTutored in server/utils/session-utils.ts. Instants and
 durations are milliseconds; a message is the instant it was created.
 */
module TimeTutored {
  import opened Basics

  type Time = int

  const THREE_HOURS := 3 * 60 * 60 * 1000
  const FIFTEEN_MINUTES := 15 * 60 * 1000

  datatype Session = Session(volunteerId: Option<nat>, volunteerJoinedAt: Option<Time>, endedAt: Option<Time>)

  /** Nothing to count: an incomplete or reversed session, or no messages. */
  predicate Skipped(session: Session, messages: seq<Time>) {
    || session.volunteerId.None? || session.volunteerJoinedAt.None? || session.endedAt.None?
    || messages == [] || session.endedAt.value < session.volunteerJoinedAt.value
  }

  predicate Trims(joined: Time, ended: Time, messages: seq<Time>)
    requires messages != []
  {
    ended - joined > THREE_HOURS || messages[|messages| - 1] > ended
  }

  /** Message k is not after the end and follows its predecessor within 15 minutes, or has no predecessor. */
  predicate Settled(ended: Time, messages: seq<Time>, k: nat)
    requires k < |messages|
  {
    k == 0 || (messages[k] <= ended && messages[k] - messages[k - 1] <= FIFTEEN_MINUTES)
  }

  ghost predicate LastSettled(ended: Time, messages: seq<Time>, k: nat) {
    && k < |messages| && Settled(ended, messages, k)
    && forall j :: k < j < |messages| ==> !Settled(ended, messages, j)
  }

  /** Message k is the one the time is measured to. */
  ghost predicate IsCutoff(joined: Time, ended: Time, messages: seq<Time>, k: nat) {
    && messages != []
    && if Trims(joined, ended, messages) then LastSettled(ended, messages, k) else k == |messages| - 1
  }

  /** The time measured to message k, none for a message before the volunteer or after the end. */
  function TimeAt(joined: Time, ended: Time, messages: seq<Time>, k: nat): int
    requires k < |messages|
  {
    if joined < messages[k] <= ended then messages[k] - joined else 0
  }

  method CalculateTimeTutored(session: Session, messages: seq<Time>) returns (time: int, ghost cutoff: nat)
    ensures Skipped(session, messages) ==> time == 0
    ensures !Skipped(session, messages) ==>
              var joined, ended := session.volunteerJoinedAt.value, session.endedAt.value;
              && IsCutoff(joined, ended, messages, cutoff)
              && 0 <= time <= ended - joined
              && time == TimeAt(joined, ended, messages, cutoff)
  {
    cutoff := 0;
    if session.volunteerId.None? || session.volunteerJoinedAt.None? || session.endedAt.None? {
      return 0, 0;
    }
    if |messages| == 0 {
      return 0, 0;
    }
    var volunteerJoinDate, sessionEndDate := session.volunteerJoinedAt.value, session.endedAt.value;
    var sessionLengthMs := sessionEndDate - volunteerJoinDate;
    if sessionLengthMs < 0 {
      return 0, 0;
    }
    var latestMessageIndex := |messages| - 1;
    var wasMessageSentAfterSessionEnded := messages[latestMessageIndex] > sessionEndDate;
    if sessionLengthMs > THREE_HOURS || wasMessageSentAfterSessionEnded {
      while latestMessageIndex > 0
            && (wasMessageSentAfterSessionEnded
                || messages[latestMessageIndex] - messages[latestMessageIndex - 1] > FIFTEEN_MINUTES)
        invariant 0 <= latestMessageIndex < |messages|
        invariant wasMessageSentAfterSessionEnded <==> messages[latestMessageIndex] > sessionEndDate
        invariant forall j :: latestMessageIndex < j < |messages| ==> !Settled(sessionEndDate, messages, j)
        decreases latestMessageIndex
      {
        latestMessageIndex := latestMessageIndex - 1;
        wasMessageSentAfterSessionEnded := messages[latestMessageIndex] > sessionEndDate;
      }
    }
    cutoff := latestMessageIndex;
    var latestMessageDate := messages[latestMessageIndex];
    if latestMessageDate <= volunteerJoinDate || wasMessageSentAfterSessionEnded {
      return 0, cutoff;
    }
    time := latestMessageDate - volunteerJoinDate;
  }

  /** There is exactly one message to measure to. */
  lemma {:induction false} OneCutoff(joined: Time, ended: Time, messages: seq<Time>)
    requires messages != []
    ensures exists k: nat :: IsCutoff(joined, ended, messages, k)
    ensures forall a: nat, b: nat ::
      IsCutoff(joined, ended, messages, a) && IsCutoff(joined, ended, messages, b) ==> a == b
  {
    var k: nat := |messages| - 1;
    while !Settled(ended, messages, k)
      invariant k < |messages|
      invariant forall j :: k < j < |messages| ==> !Settled(ended, messages, j)
      decreases k
    {
      k := k - 1;
    }
    assert LastSettled(ended, messages, k);
    assert IsCutoff(joined, ended, messages, if Trims(joined, ended, messages) then k else |messages| - 1);
  }

  predicate InOrder(messages: seq<Time>) {
    forall i, j :: 0 <= i < j < |messages| ==> messages[i] <= messages[j]
  }

  /** A session is credited with no time exactly when everything up to the cutoff came before the volunteer,
      or the very first message came after the end. */
  lemma NoTimeIff(joined: Time, ended: Time, messages: seq<Time>, k: nat)
    requires InOrder(messages) && IsCutoff(joined, ended, messages, k) && joined <= ended
    ensures TimeAt(joined, ended, messages, k) == 0
       <==> (forall i :: 0 <= i <= k ==> messages[i] <= joined) || messages[0] > ended
  {
    if messages[0] > ended {
      assert messages[|messages| - 1] > ended;
      assert messages[k] >= messages[0];
    }
  }

  /** One message after the end has the whole session trimmed: the time is then measured to the last settled message. */
  lemma LateMessageTrims(joined: Time, ended: Time, messages: seq<Time>, late: Time, k: nat)
    requires messages != [] && late > ended
    ensures IsCutoff(joined, ended, messages + [late], k) <==> LastSettled(ended, messages, k)
  {
    var all := messages + [late];
    assert !Settled(ended, all, |messages|);
    forall j: nat | j < |messages| ensures Settled(ended, all, j) <==> Settled(ended, messages, j) {
      assert all[j] == messages[j] && (j > 0 ==> all[j - 1] == messages[j - 1]);
    }
    if LastSettled(ended, messages, k) {
      assert LastSettled(ended, all, k);
    }
    if LastSettled(ended, all, k) {
      assert Settled(ended, messages, k);
      assert forall j: nat :: k < j < |messages| ==> !Settled(ended, all, j);
      assert LastSettled(ended, messages, k);
    }
  }

  /** A message after the end never adds time. It leaves the time as it was exactly when the session was trimmed anyway,
      its last message was settled, or that message came before the volunteer. */
  lemma LateMessageTime(joined: Time, ended: Time, messages: seq<Time>, late: Time, before: nat, after: nat)
    requires InOrder(messages) && joined <= ended < late
    requires IsCutoff(joined, ended, messages, before) && IsCutoff(joined, ended, messages + [late], after)
    ensures after < |messages|
    ensures var last := |messages| - 1;
            var was, now := TimeAt(joined, ended, messages, before), TimeAt(joined, ended, messages + [late], after);
            && now <= was
            && (now == was
                <==> Trims(joined, ended, messages) || Settled(ended, messages, last) || messages[last] <= joined)
  {
    LateMessageTrims(joined, ended, messages, late, after);
    if after < |messages| - 1 && !Trims(joined, ended, messages) {
      assert messages[after] <= messages[|messages| - 2];
    }
  }

  /** So a message after the end can take time away: two messages 50 minutes apart count for an hour, but for ten
      minutes once a message follows the end. */
  lemma LateMessageTakesTimeAway()
    ensures var messages, late := [600000, 3600000], 7260000;
            && IsCutoff(0, 7200000, messages, 1) && TimeAt(0, 7200000, messages, 1) == 3600000
            && IsCutoff(0, 7200000, messages + [late], 0) && TimeAt(0, 7200000, messages + [late], 0) == 600000
  {
    var messages := [600000, 3600000];
    assert Settled(7200000, messages, 0) && !Settled(7200000, messages, 1);
    assert LastSettled(7200000, messages, 0);
    LateMessageTrims(0, 7200000, messages, 7260000, 0);
  }
}
