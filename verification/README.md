# Verification of the tutoring backend

A Dafny model of the stateful parts of the backend, with proofs. Each module models one component; methods and
classes follow its loops and handlers, and functions say what they compute.

- `Doubles`, `ZwibblerCodec`, `ZwibblerCoder`, `ZwibblerLayout`: the whiteboard wire format, its nine field tables, printer
  and parser, with numbers as the IEEE 754 doubles they are.
- `TutorTime`, `TutorTimeTotals`, `TutorTimeOverlap`: volunteer hours, from the hour-jumping loop up to the four day
  totals, and which minutes of a session availability covers.
- `QuillDoc`, `QuillDrain`: the cached document and its delta queue, for any number of callers and failures.
- `Presence`, `PresenceTimelines`, `PresenceNotices`: three keys with a time to live and an action log, with expiry notices
  handled at once, and with notices however late.
- `SessionLifecycle`, `SessionOutcomes`: start, join, end and breakout of sessions with the hash of exclusive requests, as
  threads whose database and Redis commands interleave and may fail at any point.
- `SessionMeeting`: the race to create a session's video meeting.
- `AvailabilityBackfill`, `AvailabilityTotal`: filling in daily snapshots, and the hours they add up to.
- `PartnerOrgs`, `PartnerOrgsAdmin`: reconciling a student's partnership instances, by sign-up and by an administrator.
- `Roster`: roster uploads, on top of `PartnerOrgs`.
- `CleverRoster`, `CleverOutcome`: synchronising a teacher's classes with Clever.
- `TimeTutored`: the trimmed length of a session.
- `Totp`: one-time passwords.
- `Basics`, `MapSums`: options, concatenation, sums over maps.

Run `dafny verify dfyconfig.toml` in this directory.

## Where the code does less than its comments say

The model follows the code; these lemmas say exactly when the intended property holds, or what happens instead.

- Splitting a session loses an hour when it ends in the first minute of an hour, at a second earlier in that minute than
  the second at which it started (`TutorTime.LoopConservesMinutes`).
- The availability accumulator files the first hour of a day under the literal key `hour`, and counts it twice when it
  comes up again (`TutorTimeTotals.CountedTotal`).
- A drain loses deltas when it fails after its first pop (`QuillDrain.LosesNothingUnlessDrainDies`, reached in
  `QuillDoc.CrashAfterPopLosesDelta`), and a createDoc does when it comes upon a document that holds some, or upon a drain
  that returns without saving over it (`QuillDoc.RunsLoseNothingIff`, reached in `QuillDoc.SecondCreateLosesDelta`).
- A start that inserts its session while another of its student is open leaves two open sessions
  (`SessionLifecycle.OneOpenSessionIff`, reached in `SessionLifecycle.OverlappingStarts`).
- A join whose update finds another tutor names itself as the tutor all the same, the update of no row being no error
  (`SessionLifecycle.JoinsAreTruthfulIff`, reached in `SessionLifecycle.LosingJoinIsNotToldSo`).
- A request stored for a session that is matched or ended by then stays in the hash, and so does one whose clearing
  fails (`SessionLifecycle.EntriesOnlyForOpenSessionsIff`, reached in `SessionLifecycle.LateRequestStays`).
- An expiry notice handled late can break the presence log (`PresenceNotices.OneLateNoticeIff` for one notice after any
  calls, `LateRunsTellIff` for any number of them, reached in `LateNoticeBreaksLog`).
- Meetings that lose the race stay alive: their clean-up is given the external id (`SessionMeeting.RunsAbandonIff`,
  reached in `SessionMeeting.RaceLeavesMeeting`).
- A requested organisation with two active rows ends inactive, because deactivating takes every row of student and
  organisation (`PartnerOrgs.HitsTargetsIff`).
- A roster row whose commit fails is reported as created or updated as well as failed (`Roster.RowHasOneShape`); the
  not-a-member failure cannot occur (`Roster.UpsertLeavesInstance`).
- A message sent after the end of a session can lower its tutored time (`TimeTutored.LateMessageTime`, reached in
  `TimeTutored.LateMessageTakesTimeAway`).
- Which of two snapshots of one instant counts is up to the sort: the total is determined exactly when they agree
  (`AvailabilityTotal.OneTotalIff`).
- A school's organisation named as the partner is added to the school instances even when it is active already
  (`PartnerOrgsAdmin.SchoolNamedAsPartner`).

## Model

| member | source | states |
|---|---|---|
| ZwibblerCodec.DecodeOfEncode | server/utils/zwibblerDecoder.ts:260-326 | decode(encode(js)) gives js back exactly when js has just the fields of its table, every number fits its width and is a double, and each counted string has the length its count says (or fewer bytes, with nothing after it) |
| ZwibblerCodec.EncodeOfDecode | server/utils/zwibblerDecoder.ts:260-326 | encode(decode(m)) gives m back exactly when no number is cut short, every number m spells is a double, and the fields use m up |
| ZwibblerCodec.EncodeIsInjective | server/utils/zwibblerDecoder.ts:260-326 | typed messages of a known type, with just the fields of its table and numbers and counts that fit, never share an encoding |
| ZwibblerCodec.EncodeFailures | server/utils/zwibblerDecoder.ts:260-270 | encode throws exactly for an unknown message type or an absent field |
| ZwibblerCodec.ParseOfPrint | server/utils/zwibblerDecoder.ts:266-280 | for any proper table, parsing what was printed restores the fields exactly for faithful messages: the induction over a table |
| ZwibblerCodec.PrintOfParse | server/utils/zwibblerDecoder.ts:291-326 | for any proper table, printing what was parsed restores the bytes exactly when the table covers them |
| ZwibblerCodec.FieldRoundTrip | server/utils/zwibblerDecoder.ts:271-276 | one field comes back from any following bytes exactly when it is faithful, and leaves just those bytes |
| ZwibblerCodec.NumberRoundTrip | server/utils/zwibblerDecoder.ts:229-249 | a number written big-endian reads back exactly when 0 <= n < 256^width and n is a double; below 2^53 every fitting number is |
| ZwibblerCodec.BytesRoundTrip | server/utils/zwibblerDecoder.ts:229-249 | up to eight bytes, rounded as they are read, are written back unchanged exactly when they spell a double |
| ZwibblerCodec.ReadsSmallExactly | server/utils/zwibblerDecoder.ts:241-249 | no sum is rounded while the value stays below 2^53 |
| ZwibblerCodec.ReadsDoublesExactly | server/utils/zwibblerDecoder.ts:241-249 | a value that is a double is read exactly although it is assembled byte by byte with rounding |
| ZwibblerCodec.ReadErrorIsSmall | server/utils/zwibblerDecoder.ts:241-249 | rounding never moves a value of up to eight bytes by 256^size |
| ZwibblerCodec.DigitsWrap | server/utils/zwibblerDecoder.ts:229-235 | the bytes written determine n up to a multiple of 256^size |
| ZwibblerCodec.TablesAreProper | server/utils/zwibblerDecoder.ts:125-198 | all nine tables: distinct names, text and numbers where the names say, only the last field takes the rest of the message, the first is the type byte |
| Doubles.RoundIsDouble | server/utils/zwibblerDecoder.ts:241-249 | rounding to nearest, ties to even, ends at a double (section 4.3.1 of IEEE 754) |
| Doubles.RoundWithinUlp | server/utils/zwibblerDecoder.ts:241-249 | rounding moves a value by at most one unit in the last place |
| Doubles.HighPartIsDouble | server/utils/zwibblerDecoder.ts:241-249 | the leading bytes of a double are themselves a double |
| ZwibblerCoder.Buffer.WriteUint | server/utils/zwibblerDecoder.ts:229-235 | the pushing loop appends the base-256 digits, most significant first |
| ZwibblerCoder.Buffer.WriteString | server/utils/zwibblerDecoder.ts:237-239 | the bytes are appended in order |
| ZwibblerCoder.EncodeMessage | server/utils/zwibblerDecoder.ts:260-280 | the loop over the table computes the specified encoding or error |
| ZwibblerCoder.EncodeFields | server/utils/zwibblerDecoder.ts:266-279 | bytes of all fields, or the first missing field in table order |
| ZwibblerCoder.ReadUint | server/utils/zwibblerDecoder.ts:241-249 | the reading loop gives the rounded value, or NaN when a byte is missing |
| ZwibblerCoder.ReadField | server/utils/zwibblerDecoder.ts:298-315 | one turn of the loop: value, next position, last number |
| ZwibblerCoder.DecodeMessage | server/utils/zwibblerDecoder.ts:283-326 | the loop over the table computes the specified parse; nothing for an unknown type |
| ZwibblerCoder.DecodeFields | server/utils/zwibblerDecoder.ts:291-325 | js, pos and lastValue together always stand for what is still to parse |
| ZwibblerCoder.DecodeAdvanced | server/utils/zwibblerDecoder.ts:329-391 | shows the chunks of the table, or of the continuation table for an unknown type |
| ZwibblerCoder.ShowFields | server/utils/zwibblerDecoder.ts:350-388 | the loop stops at the end of the message and shows what the fields cover |
| ZwibblerCoder.RawChunksArePrefix | server/utils/zwibblerDecoder.ts:350-388 | the raw slices shown, followed by what no field covers, are the message |
| ZwibblerCoder.ChunksAgreeWithParse | server/utils/zwibblerDecoder.ts:350-388 | every value shown is the one decode returns for that field |
| ZwibblerLayout.InitialConnectionLayout | server/utils/zwibblerDecoder.ts:126-136 | the bytes of an initial connection, field by field |
| ZwibblerLayout.AppendLayout | server/utils/zwibblerDecoder.ts:137-142 | the bytes of an append |
| ZwibblerLayout.SetKeyLayout | server/utils/zwibblerDecoder.ts:143-155 | the bytes of a set-key |
| ZwibblerLayout.BroadcastLayout | server/utils/zwibblerDecoder.ts:156-162 | the bytes of a broadcast |
| ZwibblerLayout.ErrorLayout | server/utils/zwibblerDecoder.ts:163-168 | the bytes of an error |
| ZwibblerLayout.AckNackLayout | server/utils/zwibblerDecoder.ts:169-174 | the bytes of an ack or nack |
| ZwibblerLayout.KeyInformationLayout | server/utils/zwibblerDecoder.ts:175-184 | the bytes of key information |
| ZwibblerLayout.SetKeyAckLayout | server/utils/zwibblerDecoder.ts:185-191 | the bytes of a set-key ack |
| ZwibblerLayout.ContinuationLayout | server/utils/zwibblerDecoder.ts:192-197 | the bytes of a continuation |
| ZwibblerLayout.AdvancedShowsDecoded | server/utils/zwibblerDecoder.ts:329-391 | decodeAdvanced of a known type shows, in the order of its table, just what decode returns, but for fields read past the end of the message |
| ZwibblerLayout.AdvancedShowsUnknown | server/utils/zwibblerDecoder.ts:329-391 | of an unknown type it shows the type, the flag and the rest, as far as the message goes |
| TutorTime.LoopConservesMinutes | server/utils/reportUtils.ts:149-165 | contribution + skipped is the whole-minute difference of end and start exactly when the session does not end in the first minute of an hour at a second before its starting second; then it is 60 less |
| TutorTime.SplitSession | server/utils/reportUtils.ts:144-165 | the hour-jumping loop ends, and computes the minute-by-minute count of minutes in blocks below 60 (contribution) and of the others (skipped), less the lost hour |
| TutorTime.SoFarStep | server/utils/reportUtils.ts:151-165 | one jump adds just the minutes between, whichever kind of block |
| TutorTime.CountsPartition | server/utils/reportUtils.ts:143-165 | every whole minute of the session is counted once, on one side |
| TutorTime.CountInBlock | server/utils/reportUtils.ts:151-165 | minutes of one hour block fall on the same side |
| TutorTime.LostHourExample | server/utils/reportUtils.ts:151-168 | a nine-minute session contributes -51 minutes, rounded to -45 |
| TutorTime.AddToTotal | server/utils/reportUtils.ts:47-59 | whichever branch stores the minutes, they reach the total of that day and no other |
| TutorTime.Accumulator.Add | server/utils/reportUtils.ts:47-59 | the new accumulator, including the literal key of a new day |
| TutorTime.Accumulator.Read | server/utils/reportUtils.ts:61-70 | minutes of the hour block, 0 when absent |
| TutorTime.Accumulator.Reduce | server/utils/reportUtils.ts:74-86 | the total of every day whose total is not zero, and no other day |
| TutorTimeTotals.DayTotals | server/utils/reportUtils.ts:88-186 | every day in all four accumulators: 60 x distinct available hours (session days only) + rounded contributions + 60 x quizzes; tutoring; availability less rounded skipped minutes; 60 x quizzes |
| TutorTimeTotals.RoundingAddsUnder15 | server/utils/reportUtils.ts:166-168 | rounding adds at least 0 and less than 15 minutes a session |
| TutorTimeTotals.CreditedTotal | server/utils/reportUtils.ts:115-141 | crediting an hour of a day again changes nothing: 60 x distinct hours |
| TutorTimeTotals.CountedTotal | server/utils/reportUtils.ts:134-137 | the availability accumulator counts the distinct hours of a day exactly when its first hour does not come up again |
| TutorTimeTotals.RepeatedFirstHour | server/utils/reportUtils.ts:134-137 | two snapshots with the same hour of one day: 120 minutes of availability where 60 were credited |
| TutorTimeTotals.SessionsTotal | server/utils/reportUtils.ts:143-171 | what the sessions add to each day of both accumulators |
| TutorTimeTotals.QuizzesTotal | server/utils/reportUtils.ts:172-179 | 60 minutes a quiz, on its day |
| TutorTimeTotals.SessionAccTotal | server/utils/reportUtils.ts:99-114 | the tutoring time of a day is that of the sessions that start on it |
| TutorTimeTotals.NoMinutesOffSessionDays | server/utils/reportUtils.ts:99-101 | no contribution on a day on which no session starts |
| TutorTimeTotals.InitialDays | server/utils/reportUtils.ts:99-114 | the days with tutoring, emptied again for each session, and the tutoring accumulator |
| TutorTimeTotals.CreditSnapshot | server/utils/reportUtils.ts:116-141 | the hours of one snapshot, credited on tutoring days only |
| TutorTimeTotals.CreditAvailability | server/utils/reportUtils.ts:116-141 | the loop over snapshots credits both accumulators |
| TutorTimeTotals.AddSessions | server/utils/reportUtils.ts:143-171 | each session is measured against the accumulator as it stands at its turn |
| TutorTimeTotals.AddCertifications | server/utils/reportUtils.ts:172-179 | the loop over quizzes adds to both accumulators |
| TutorTimeTotals.TelecomTutorTime | server/utils/reportUtils.ts:88-186 | the four results are the non-zero day totals of the four accumulators |
| TutorTimeOverlap.SessionSplit | server/utils/reportUtils.ts:143-165 | which minutes of a session count and which are skipped, of its turn among the others: skipped are those in hours that credited availability and earlier contributions fill to 60, the others count; a lost hour is taken from the hour before the end |
| TutorTimeOverlap.FirstSession | server/utils/reportUtils.ts:143-165 | a first session inside credited hours contributes nothing and is all skipped, outside of them it all contributes |
| TutorTimeOverlap.CreditsIff | server/utils/reportUtils.ts:115-141 | an hour of a day is credited exactly when some snapshot of that day has the hour available |
| TutorTimeOverlap.CreditedReads | server/utils/reportUtils.ts:133-137 | an hour reads 60 exactly when it is credited and its day is a tutoring day, else 0 |
| TutorTimeOverlap.HourAfterSessions | server/utils/reportUtils.ts:143-171 | what an hour reads at the turn of a session: what it read before, and what the sessions starting in it have contributed since |
| TutorTimeOverlap.HalfHourInAvailableHour | server/utils/reportUtils.ts:88-186 | half an hour of tutoring inside an available hour: 60 minutes in all, 30 of tutoring, 30 of availability |
| TutorTimeOverlap.UntutoredSessionStillCounts | server/utils/reportUtils.ts:97-144 | a session without tutored time still has the availability of its day counted |
| TutorTimeOverlap.TutoringRoundsUp | server/utils/reportUtils.ts:103-113 | tutored time is rounded up to a multiple of 15 minutes, by less than 15 |
| QuillDoc.RunsRefineLog | server/services/QuillDocService.ts:64-136 | for any interleaving of appends and drains in which no step loses deltas, the document under work is the fold of the log without its queued tail, and every returned document is the fold of a prefix, with counts that never decrease |
| QuillDoc.DocumentPlusQueueIsLog | server/services/QuillDocService.ts:108-136 | folding the queue onto the document under work is folding the whole log; compose need not be associative |
| QuillDoc.StepLosesNothingIff | server/services/QuillDocService.ts:28-136 | a step keeps document plus queue equal to the log exactly when it is neither the failure or return of a drain that holds other deltas than the cache, nor a createDoc over a document with deltas while no drain holds one |
| QuillDoc.RunsLoseNothingIff | server/services/QuillDocService.ts:28-136 | document plus queue is the log in every state of a run exactly when no step of the run loses deltas |
| QuillDoc.StepIsCoherent | server/services/QuillDocService.ts:64-136 | after every step, losing deltas or not, each document is the fold of the deltas it is said to hold |
| QuillDoc.StepKeepsResults | server/services/QuillDocService.ts:118-128 | documents returned earlier stay prefixes of the log, and lastDeltaStored is the last delta of the prefix |
| QuillDoc.CrashAfterPopLosesDelta | server/services/QuillDocService.ts:118-128 | a run in which a failure after the pop loses a delta |
| QuillDoc.SecondCreateLosesDelta | server/services/QuillDocService.ts:28-37 | a run in which two callers find no document, and the second createDoc drops a delta that was saved in between |
| QuillDrain.LosesNothingUnlessDrainDies | server/services/QuillDocService.ts:28-136 | in runs from the start that create no document anew, document plus queue is always the log exactly when no drain fails between its first pop and its save; then the document is the fold of the log but for the queued tail |
| QuillDrain.LosesIffDropsPopped | server/services/QuillDocService.ts:108-128 | the same of one step: what is cached keeps in step with what the drain holds, and only a failure after a pop loses |
| QuillDrain.AnyDrain | server/services/QuillDocService.ts:64-136 | a drain from lock to release, with any appends between its pops: the deltas it popped are the first of all queued and appended, they are composed into the cached document in order, and that document is returned with the last of them |
| QuillDrain.LoneDrain | server/services/QuillDocService.ts:64-129 | left to itself, a drain pops once more than there are deltas, empties the queue, and caches and returns the document with all of them |
| QuillDrain.DrainMoves | server/services/QuillDocService.ts:118-136 | however appends come between pops, deltas go from the front of the queue to the document in order |
| QuillDoc.DocCache.AppendToDoc | server/services/QuillDocService.ts:131-136 | rpush at the end of the queue |
| QuillDoc.DocCache.PopDelta | server/services/QuillDocService.ts:113-122 | lpop takes the first delta; None only from an empty queue |
| QuillDoc.DocCache.ProcessDoc | server/services/QuillDocService.ts:108-129 | the loop ends with an empty queue; the document holds every delta queued or arriving meanwhile, in order, lastDeltaStored is the last one, and the cache is written just when there was any |
| Presence.ReachableStates | server/services/PresenceService.ts:114-384 | in every run: active and passive keys never coexist, a countdown implies a passive key, the keys tell the last log entry, the log is a prefix of visits ACTIVE (PASSIVE ACTIVE)* PASSIVE? INACTIVE, and now is at most 3720 s after the last activity while the visit is open |
| Presence.StepKeepsInv | server/services/PresenceService.ts:114-384 | each handler and each expiry keeps all of that |
| Presence.RunsKeepInv | server/services/PresenceService.ts:114-384 | so does every run |
| Presence.VisitsCoverLog | server/services/PresenceService.ts:203-384 | cutting a log into visits loses no entry |
| Presence.DriftBoundIsTight | server/services/PresenceService.ts:53-57 | a run that reaches 120 + 3600 seconds |
| PresenceTimelines.CountdownClosesVisit | server/services/PresenceService.ts:300-330 | a countdown of a passive visit closes it after just its time: all keys go and INACTIVE is logged |
| PresenceTimelines.CountdownTakesItsTime | server/services/PresenceService.ts:300-330 | before that time the countdown is not due and nothing is logged |
| PresenceTimelines.ActivityCallsCountdownOff | server/services/PresenceService.ts:207-253 | an activity before the end calls the countdown off: ACTIVE is logged, and no INACTIVE in the 120 seconds after it |
| PresenceTimelines.SecondCountdownIsIgnored | server/services/PresenceService.ts:300-330 | a second countdown does not move the end of the first |
| PresenceTimelines.NoCountdownUnlessPassive | server/services/PresenceService.ts:300-330 | no countdown starts without a passive key |
| PresenceTimelines.VisitFades | server/services/PresenceService.ts:114-182 | nothing more heard after an activity: PASSIVE after 120 seconds, INACTIVE an hour later, and no key left |
| PresenceTimelines.PassiveVisitFades | server/services/PresenceService.ts:255-299 | passivity starts the hour at once |
| PresenceTimelines.LeavingClosesVisit | server/services/PresenceService.ts:341-384 | leaving closes an open visit at once, whatever its keys, and leaves a closed one as it is |
| PresenceTimelines.ActivityKeepsVisit | server/services/PresenceService.ts:207-253 | activity within 120 seconds is not logged again and renews them |
| PresenceNotices.LateActiveNoticeIff | server/services/PresenceService.ts:124-147 | handled in any state, the notice of an active key keeps keys, log and deadlines exactly when the log ends in ACTIVE, no new active key is set and at most 120 s have passed since the last activity; the log alone, exactly when it ends in ACTIVE |
| PresenceNotices.LatePassiveNoticeIff | server/services/PresenceService.ts:148-165 | the notice of a passive key is harmless, however late, exactly when the visit is open and no new passive key is set, or there is an active key and all was well |
| PresenceNotices.LateCountdownNoticeIff | server/services/PresenceService.ts:166-182 | the notice of a countdown is harmless, however late, exactly when the visit is open and there is no active key and no new countdown, or there is no passive key and all was well |
| PresenceNotices.LateRunsTellIff | server/services/PresenceService.ts:114-384 | with any notices however late, the log of every state of a run is a prefix of visits whose open one the keys, or the notice that hangs, tell, exactly when no event of the run comes too early or too late; which events do is a matter of keys and notices, not of the log |
| PresenceNotices.TellsIff | server/services/PresenceService.ts:114-384 | exactly which call or notice breaks that tie, and exactly which breaks the log at once |
| PresenceNotices.OneLateNoticeIff | server/services/PresenceService.ts:114-384 | one notice handled after any calls: the log survives exactly without an Activity among them, for an active key; exactly unless they close the visit, for a passive key; always, for a countdown |
| PresenceNotices.PromptStatesTell | server/services/PresenceService.ts:114-182 | every state of the prompt machine has that tie |
| PresenceNotices.LogOneMoreIff | server/services/PresenceService.ts:203-384 | which entry may follow in a log of visits |
| PresenceNotices.PromptNotice | server/services/PresenceService.ts:114-182 | a notice handled at once is the expiry of the prompt machine |
| PresenceNotices.LateNoticeBreaksLog | server/services/PresenceService.ts:114-147 | a run in which the notice is handled after the next activity, and leaves two ACTIVE entries and both keys |
| Presence.Client.TrackActivity | server/services/PresenceService.ts:207-248 | new keys and log; ACTIVE is logged only without an active key |
| Presence.Client.TrackPassivity | server/services/PresenceService.ts:255-290 | no effect unless active |
| Presence.Client.SetInactivityCountdown | server/services/PresenceService.ts:300-329 | a countdown starts only when passive and none is running |
| Presence.Client.TrackInactivity | server/services/PresenceService.ts:341-384 | INACTIVE is logged only if a key was deleted |
| Presence.Client.ExpiredKeyListener | server/services/PresenceService.ts:114-201 | the reaction to each kind of expired key |
| SessionLifecycle.ReachableSessions | server/services/SessionService.ts:586-980 | for any interleaving and any failures: at most one clearExclusiveRequest succeeds per stored request, regular notifications begin at most once per session and never for a shadow-banned student, the tutor is not the student, only admins tutor shadow-banned students |
| SessionLifecycle.RunsKeepInv | server/services/SessionService.ts:222-311 | over every run an end stays, the tutor is written once, and student, ban and request of a session never change |
| SessionLifecycle.StepKeepsInv | server/services/SessionService.ts:1459-1490 | every step of every thread keeps the invariant of every session |
| SessionLifecycle.StepPersists | server/services/SessionService.ts:855-862 | no step undoes an end or replaces a tutor |
| SessionLifecycle.EntriesOnlyForOpenSessionsIff | server/services/NotifyVolunteerService.ts:129-150 | in every state of a run a request is in the hash only while its session is unmatched and open, or a caller is about to clear it, exactly when no step of the run leaves it behind |
| SessionLifecycle.LeavesOrphanIff | server/services/SessionService.ts:692-699 | a step leaves a request behind exactly when, nobody else being about to clear it, it stores one for a session matched or ended already, or fails the thread that was to clear it |
| SessionLifecycle.RunsLeaveOrphanIff | server/services/NotifyVolunteerService.ts:129-150 | the same over a run from any good state |
| SessionLifecycle.LateRequestStays | server/services/SessionService.ts:692-699 | a run in which a tutor joins between insert and storing, and the request stays in the hash of a matched session |
| SessionLifecycle.DeletingKeepsInv | server/services/NotifyVolunteerService.ts:140-149 | of all callers that read the entry, the one whose HDEL removes it succeeds and no other can after it |
| SessionLifecycle.ClearingKeepsInv | server/services/NotifyVolunteerService.ts:129-141 | HGET changes no session, request or notification and no other thread; its own goes on to delete just when the request is there |
| SessionLifecycle.NotifyingKeepsInv | server/services/SessionService.ts:1475-1487 | notifications begun by a breakout are the first, for a request cleared once, and nobody else is about to begin them |
| SessionLifecycle.BeginKeepsInv | server/services/SessionService.ts:730-739 | notifications begun by a start are the first, no request was stored, and no breakout is about to begin them |
| SessionLifecycle.StoreKeepsInv | server/services/SessionService.ts:692-699 | a request is stored for the first time, and once |
| SessionLifecycle.FulfilKeepsInv | server/services/SessionService.ts:855-862 | a join or end that fulfils a session is itself about to clear its request |
| SessionLifecycle.BreakoutOpensSession | server/services/SessionService.ts:1459-1490 | undisturbed, a breakout clears the request and begins notifications exactly when it may; nothing else changes |
| SessionLifecycle.JoinMatchesSession | server/services/SessionService.ts:826-862 | undisturbed, a join stores the tutor and clears the request, if there is one; nothing else changes |
| SessionLifecycle.EndClosesSession | server/services/SessionService.ts:222-291 | undisturbed, an end by an admin or a participant ends the session and clears the request, if there is one; nothing else changes |
| SessionOutcomes.StartOpensSession | server/services/SessionService.ts:607-739 | undisturbed, a start inserts the session as asked, keeps the request exactly when a tutor was asked for and the student is not shadow-banned, and begins notifications, once, exactly when none was asked for, the student is not shadow-banned and the flag is on |
| SessionOutcomes.StartRefusedIff | server/services/SessionService.ts:610-649 | a start changes nothing exactly when a check fails |
| SessionOutcomes.NothingUnasked | server/services/SessionService.ts:586-739 | in every run from the start: a session was started by its student, who was not banned; its tutor joined as a volunteer; an admin or a participant ended it; and notifications for a requested tutor begin only after the student opens up |
| SessionOutcomes.FulfilledSessionsRest | server/services/SessionService.ts:222-291 | once a session is matched or ended and earlier threads are done, no run stores a request for it, begins notifications or changes the tutor; once ended, nothing about it changes |
| SessionOutcomes.TutorHasJoined | server/services/SessionService.ts:826-862 | who is tutor, or about to be, has joined |
| SessionOutcomes.EndedByParticipant | server/services/SessionService.ts:222-291 | who ended a session was an admin or one of its participants |
| SessionOutcomes.OpenedUpByStudent | server/services/SessionService.ts:1459-1490 | notifications for a session with a request need a breakout by its student |
| SessionOutcomes.CleanUpTakesRequest | server/worker/jobs/endUnmatchedSession.ts:14-27 | the job takes the request out of the hash and changes nothing else |
| SessionLifecycle.OneOpenSessionIff | server/services/SessionService.ts:623-686 | a student has at most one open session in every state of a run exactly when no start of the run inserts one while another of its student is open |
| SessionLifecycle.SecondOpenSessionIff | server/services/SessionService.ts:623-686 | exactly which step gives a student a second open session: the insert of a start whose student has one by then |
| SessionLifecycle.OneOpenSessionUnlessStartsOverlap | server/services/SessionService.ts:623-686 | in particular, a run in which no student has two starts between check and insert keeps it at one |
| SessionLifecycle.OverlappingStarts | server/services/SessionService.ts:623-686 | a run from the start in which two overlapping starts leave their student with two open sessions |
| SessionLifecycle.JoinsAreTruthfulIff | server/services/SessionService.ts:845-862 | every join of a run names the tutor that is stored exactly when no update of the run finds another tutor |
| SessionLifecycle.LosingJoinIff | server/services/SessionService.ts:855-858 | exactly which step makes a join name somebody else: an update that finds another tutor |
| SessionLifecycle.LosingJoinIsNotToldSo | server/models/Session/session.sql:650-659 | both of two racing joins name themselves as tutor, though only the first is stored |
| SessionMeeting.MeetingAgreement | server/services/SessionMeetingService.ts:34-143 | every caller that returns got and attends the meeting of the one row, created by one of the callers; each caller creates at most one meeting; losing meetings stay alive |
| SessionMeeting.RowIsFinal | server/services/SessionMeetingService.ts:127-143 | once there is a row, every later caller is given its meeting |
| SessionMeeting.StepKeepsInv | server/services/SessionMeetingService.ts:59-125 | every step keeps the agreement, and no step replaces the row |
| SessionMeeting.RunsKeepInv | server/services/SessionMeetingService.ts:34-143 | so does every run |
| SessionMeeting.LoneCallerCreatesMeeting | server/services/SessionMeetingService.ts:59-81 | a caller alone creates, stores and attends its meeting |
| SessionMeeting.RecoverKeepsInv | server/services/SessionMeetingService.ts:100-125 | the clean-up after a lost insert is given the external id: the meetings alive stay the same |
| SessionMeeting.LeftoverMeetings | server/services/SessionMeetingService.ts:34-143 | the meetings alive beyond the row are all those created beyond it; none is exactly when none was created |
| SessionMeeting.AbandonsMeetingIff | server/services/SessionMeetingService.ts:34-143 | exactly which steps leave a meeting alive that is neither stored nor about to be: a refused insert, and a caller that fails before its insert |
| SessionMeeting.RunsAbandonIff | server/services/SessionMeetingService.ts:34-143 | no such meeting in any state of a run exactly when no step of the run is one of those |
| SessionMeeting.RaceLeavesMeeting | server/services/SessionMeetingService.ts:34-125 | two callers who race both get the meeting of the row, and the other meeting is left alive |
| SessionMeeting.LaterCallersCreateNone | server/services/SessionMeetingService.ts:127-143 | once there is a row, only a caller that had looked and found none can create a meeting |
| SessionMeeting.EndedMeetingStaysEnded | server/services/SessionMeetingService.ts:294-302 | after the session ends its meeting is gone for good and no caller gets one |
| AvailabilityBackfill.HistoryTable.Backfill | server/scripts/backfill-availability-histories.ts:120-203 | afterwards each listed history is the one carried forward to all 4 AMs in range except where its queries failed, no other changes, the count is that of new rows, and the errors are exactly the failures |
| AvailabilityBackfill.CarriedObservations | server/scripts/backfill-availability-histories.ts:150-193 | without failures there is a snapshot at a 4 AM exactly when some earlier one existed before the run, with the time slots of the latest such, and nothing that was there changed |
| AvailabilityBackfill.CopiesDoNotMatter | server/scripts/backfill-availability-histories.ts:169-182 | copies made earlier in the loop lead to the same observations as the rows before the run |
| AvailabilityBackfill.TwoRuns | server/scripts/backfill-availability-histories.ts:163-182 | a run after a run misses only what both missed |
| AvailabilityBackfill.SecondRunInsertsNothing | server/scripts/backfill-availability-histories.ts:163-167 | carrying forward again changes nothing |
| AvailabilityBackfill.SecondBackfillInsertsNothing | server/scripts/backfill-availability-histories.ts:150-193 | a second backfill over the same range inserts 0 rows and changes no history, unless it gets through where the first one failed |
| AvailabilityBackfill.OneMoreTime | server/scripts/backfill-availability-histories.ts:163-182 | one turn of the loop is one more instant carried forward |
| AvailabilityBackfill.CopyOfCopy | server/scripts/backfill-availability-histories.ts:72-118 | a copy of a copy is the copy |
| AvailabilityBackfill.CopyKeepsSlots | server/scripts/backfill-availability-histories.ts:72-118 | a copy keeps start, end and weekday of every row; the timezone is that of the first |
| AvailabilityBackfill.HistoryTable.HasSnapshot | server/scripts/backfill-availability-histories.ts:24-40 | a snapshot at that very instant |
| AvailabilityBackfill.HistoryTable.RowsAtOrBefore | server/scripts/backfill-availability-histories.ts:42-70 | the rows of the latest snapshot at or before the instant, or none |
| AvailabilityBackfill.HistoryTable.InsertRows | server/scripts/backfill-availability-histories.ts:72-118 | one snapshot more, as many rows more |
| AvailabilityBackfill.HistoryTable.BackfillOne | server/scripts/backfill-availability-histories.ts:152-188 | one volunteer on one day; all other histories unchanged |
| AvailabilityBackfill.HistoryTable.BackfillDay | server/scripts/backfill-availability-histories.ts:152-189 | every listed volunteer once, also when listed twice, and the failures of that day |
| AvailabilityTotal.GetTotalElapsedAvailabilityForDateRange | server/services/AvailabilityService.ts:74-117 | the total is one earned over the calendar days fromDate to toDate: for each, the hours of its weekday in an earliest snapshot of the next day |
| AvailabilityTotal.OneTotalIff | server/services/AvailabilityService.ts:103-114 | the total of a range is determined exactly when, for each of its days, all earliest snapshots of the next day agree on the hours of its weekday |
| AvailabilityTotal.CreditedIff | server/services/AvailabilityService.ts:104-113 | every day has some number of hours, and just one exactly when its earliest snapshots agree |
| AvailabilityTotal.TwoTotals | server/services/AvailabilityService.ts:103-114 | two answers for one day are two answers for the range |
| AvailabilityTotal.EarnedIsUnique | server/services/AvailabilityService.ts:103-114 | in particular, with distinct timestamps there is one total |
| AvailabilityTotal.TiesAreAmbiguous | server/services/AvailabilityService.ts:105-107 | two snapshots of one instant with the totals 0 and 24 |
| AvailabilityTotal.EarnedIsAdditive | server/services/AvailabilityService.ts:74-117 | totals of adjacent ranges add up, both ways |
| AvailabilityTotal.EarnedAtMost24PerDay | server/services/AvailabilityService.ts:12-19 | at most 24 hours a day |
| AvailabilityTotal.LaterSnapshotsDoNotMatter | server/services/AvailabilityService.ts:104-107 | a further snapshot later on the same day leaves the total as it was |
| AvailabilityTotal.QueryCredits | server/services/AvailabilityService.ts:79-95 | the shifted query credits every day of the range and no other |
| AvailabilityTotal.OneSnapshotEarns | server/services/AvailabilityService.ts:74-117 | a snapshot alone earns the hours of the weekday before it on that day, and none on the days around it |
| AvailabilityTotal.GetElapsedAvailabilityForDay | server/services/AvailabilityService.ts:12-19 | the number of available hours |
| AvailabilityTotal.HoursBound | server/services/AvailabilityService.ts:12-19 | no more hours than were looked at, and all of them if all are available |
| AvailabilityTotal.GroupByDay | server/services/AvailabilityService.ts:97-100 | every document is in the group of its day, and each group holds just its day |
| AvailabilityTotal.SortIsSorted | server/services/AvailabilityService.ts:105-107 | the sort is a sorted permutation |
| AvailabilityTotal.FirstIsEarliest | server/services/AvailabilityService.ts:104-107 | the first of the sorted group is an earliest snapshot of the day |
| AvailabilityTotal.SumOfCredits | server/services/AvailabilityService.ts:103-114 | the loop over the groups, in any order, sums their credits |
| PartnerOrgs.HitsTargetsIff | server/services/UserCreationService.ts:559-612 | reconciling ends with exactly the requested organisations active exactly when none of them was active twice before |
| PartnerOrgs.ActiveAfterReconcile | server/services/UserCreationService.ts:586-612 | what is active afterwards, for any table: each target once, a target that was active twice not at all |
| PartnerOrgs.MinimalChange | server/services/UserCreationService.ts:586-612 | with no duplicates, exactly old minus target is deactivated and exactly target minus old is created |
| PartnerOrgs.NothingLeftToDo | server/services/UserCreationService.ts:586-612 | a repeat changes no row |
| PartnerOrgs.SecondRunHits | server/services/UserCreationService.ts:586-612 | from any table, a second run reaches the targets |
| PartnerOrgs.DuplicateLosesTarget | server/models/StudentPartnerOrg/student_partner_orgs.sql:240-250 | two active rows of the one requested organisation: it ends inactive |
| PartnerOrgs.OthersUntouched | server/services/UserCreationService.ts:586-612 | no other student is affected |
| PartnerOrgs.TargetsAreDistinct | server/services/UserCreationService.ts:576-584 | the school is not looked up when the organisation already is its own, so the targets are distinct |
| PartnerOrgs.ActiveAfterDeactivate | server/models/StudentPartnerOrg/student_partner_orgs.sql:240-250 | deactivating an organisation takes all its active rows and no other |
| PartnerOrgs.CreatedCounts | server/services/UserCreationService.ts:606-612 | each target not yet active is created once |
| PartnerOrgs.RowsAfterReconcile | server/services/UserCreationService.ts:559-640 | row by row: unchanged, or dated now for an organisation that was active; new rows are targets not active before, at their sites |
| PartnerOrgs.Students.UpsertStudent | server/services/UserCreationService.ts:559-648 | the whole method: the reconciled rows, and the school recorded, also when it comes with a newly added organisation |
| PartnerOrgs.Students.DeactivateOthers | server/services/UserCreationService.ts:586-604 | the loop: which targets remain to add, and which rows are deactivated |
| PartnerOrgs.Students.DeactivateInstance | server/models/StudentPartnerOrg/student_partner_orgs.sql:240-250 | every row of student and organisation is dated; true if there was any, active or not |
| PartnerOrgsAdmin.UpdateMeetsRequestIff | server/services/UserService.ts:463-599 | for any organisation and school asked for, the student ends with exactly these just when they are of the right kinds and no kind had more than one active instance, but for instances of the one organisation that goes |
| PartnerOrgsAdmin.KindsMeetRequestIff | server/services/UserService.ts:463-599 | for requests of the right kinds, the same for each kind by itself |
| PartnerOrgsAdmin.SchoolNamedAsPartner | server/services/UserService.ts:470-479 | a school named as the partner organisation: the partner instance goes, and the school is added to the school instances, active already or not |
| PartnerOrgsAdmin.FoundIsListed | server/services/UserService.ts:470-489 | what the lookups find agrees with the catalogue |
| PartnerOrgsAdmin.SlotIff | server/services/UserService.ts:507-535 | the same for one kind of slot |
| PartnerOrgsAdmin.InstancesAfterUpdate | server/services/UserService.ts:507-583 | the active instances afterwards: those not dropped, and the new ones |
| PartnerOrgsAdmin.KindsAfter | server/services/UserService.ts:507-583 | partner and school slots do not disturb each other |
| PartnerOrgsAdmin.Tables.UpdateStudentPartnerOrgInstance | server/services/UserService.ts:463-599 | outcome and all four tables, and the request met under the condition above; errors for an unknown key, more than two active instances or a school change without a school leave everything as it was |
| PartnerOrgsAdmin.RequestInKeys | server/services/UserService.ts:470-489 | that the request is met, said of the organisation the key names and of the site that organisation has |
| PartnerOrgsAdmin.RowsAfterUpdate | server/services/UserService.ts:463-599 | rows stay or are dated now, the student's alone, and new rows are active and the student's |
| PartnerOrgsAdmin.SchoolsOnRecord | server/services/UserService.ts:563-599 | which school both tables have afterwards: replaced in both, given in the profile alone, taken away from users_schools if recorded there |
| PartnerOrgsAdmin.Tables.Slots | server/services/UserService.ts:499-505 | the loop keeps the last active instance of each kind |
| PartnerOrgsAdmin.Tables.DeactivateUnwanted | server/services/UserService.ts:507-535 | what goes, for each slot |
| PartnerOrgsAdmin.Tables.Activate | server/services/UserService.ts:550-583 | what is added, for each slot |
| PartnerOrgsAdmin.Tables.RecordSchool | server/services/UserService.ts:571-599 | the school columns: a school given to a student who had none is not written to users_schools, and a change to no school is refused there |
| Roster.RowHasOneShape | server/services/UserCreationService.ts:115-128 | every row lands in exactly one of {created}, {updated}, {updated, deactivated}, {updated, failed}, {failed}; it is both created and failed exactly when it is a new student whose commit failed |
| Roster.ShapeOfRow | server/services/UserCreationService.ts:115-128 | the combinations the comment lists, each exactly for the rows it names |
| Roster.DeactivationNeverCreates | server/services/UserCreationService.ts:78-113 | a row with a deactivation value creates no account, and one deactivated was updated |
| Roster.ReportsAreTrue | server/services/UserCreationService.ts:168-269 | an account reported exists afterwards exactly when the row is not a new student whose commit failed; created ones are new, updated ones are not, and a row only failed or not committed changed nothing |
| Roster.UploadAddsUp | server/services/UserCreationService.ts:168-269 | over a whole upload with repeated emails, every row is counted and those deactivated are among those updated |
| Roster.UploadCreatesOnce | server/services/UserCreationService.ts:168-269 | over a whole upload the accounts new at the end are exactly those reported as created, each once |
| Roster.UpsertLeavesInstance | server/services/UserCreationService.ts:240-259 | after the upsert there always is an instance to deactivate: the not-a-member failure cannot occur |
| Roster.DeactivatedStudentIsOut | server/services/UserCreationService.ts:240-252 | a deactivated student has no active instance left |
| Roster.DeactivatedOnGivenDate | server/services/UserCreationService.ts:235-246 | each row of the student with the school's organisation carries the date of the upload, and there is one |
| Roster.RosteredStudentIsIn | server/services/UserCreationService.ts:175-232 | a committed row without deactivation: the school is on record, the organisation active alone unless it was active twice, and no other student changes |
| Roster.Rosterer.PlanDeactivation | server/services/UserCreationService.ts:78-113 | the plan, in the order of its checks |
| Roster.Rosterer.UpsertInTransaction | server/services/UserCreationService.ts:183-232 | accounts, instances and arrays after one transaction; a rollback undoes the tables but not the arrays |
| Roster.Rosterer.RosterStudent | server/services/UserCreationService.ts:175-268 | arrays and tables after one row |
| Roster.Rosterer.RosterPartnerStudents | server/services/UserCreationService.ts:129-289 | arrays and tables after the loop; a failing plan lookup ends it at that row |
| CleverRoster.PlanIsPartition | server/services/CleverRosterService.ts:316-331 | add, update and remove lists hold every class id of either side once, each where it belongs |
| CleverRoster.StudentPlanConverges | server/services/CleverRosterService.ts:352-372 | doing what the lists say makes the roster the image of the Clever students, and they are empty exactly when it is |
| CleverRoster.Tables.SyncClasses | server/services/CleverRosterService.ts:176-248 | new classes, missing ones deactivated, every section with the roster that is the image of its students, all other rosters unchanged |
| CleverRoster.Tables.RosterTeacherClasses | server/services/CleverRosterService.ts:149-252 | the same, and no effect for an unknown teacher |
| CleverRoster.SecondSyncSettles | server/services/CleverRosterService.ts:149-252 | a second run adds no class, changes no roster, and only dates the same missing classes again |
| CleverRoster.NoStudentLeftToMove | server/services/CleverRosterService.ts:352-372 | after a run, the class of every section has no student to add or remove |
| CleverRoster.ClassAfterSync | server/services/CleverRosterService.ts:241-248 | a class is deactivated exactly when it stands for a Clever id that is gone; all others are as they were, also one deactivated that Clever has again |
| CleverRoster.OtherRostersUntouched | server/services/CleverRosterService.ts:210-239 | a class of no section keeps its roster |
| CleverRoster.MapAfterSync | server/services/CleverRosterService.ts:176-190 | which class stands for which Clever id after a run |
| CleverRoster.ClassMapMembers | server/services/CleverRosterService.ts:176-180 | every class with a Clever id is in the map, under a class that has it |
| CleverRoster.RostersFollow | server/services/CleverRosterService.ts:192-239 | filling the new classes and updating the old ones brings every section its roster |
| CleverRoster.Tables.AddClasses | server/services/CleverRosterService.ts:192-208 | the new classes, in order, with their rosters |
| CleverRoster.Tables.UpdateClass | server/services/CleverRosterService.ts:210-239 | one roster becomes the image, no other changes |
| CleverRoster.Tables.UpdateClasses | server/services/CleverRosterService.ts:210-239 | all classes to update, and no other roster |
| CleverRoster.Tables.RemoveClasses | server/services/CleverRosterService.ts:241-248 | the classes to remove are dated |
| CleverOutcome.SectionsHaveRosters | server/services/CleverRosterService.ts:175-240 | every section, the last of those with its id, has a class whose roster is the accounts of its students |
| CleverOutcome.OldRows | server/services/CleverRosterService.ts:175-255 | a row is dated exactly when it stands for a Clever id that no section has, and is otherwise unchanged; a class that stands for no section keeps its roster |
| CleverOutcome.NewRow | server/services/CleverRosterService.ts:187-206 | a new row has the next id, no date, and a Clever id of some section that no other row has |
| CleverOutcome.LastSectionCounts | server/services/CleverRosterService.ts:181-186 | of sections with the same id the last one counts |
| CleverOutcome.StandsIff | server/services/CleverRosterService.ts:176-180 | of rows with the same Clever id the last one stands for it |
| TimeTutored.CalculateTimeTutored | server/utils/session-utils.ts:71-122 | 0, or the time from join to the cutoff message, always within [0, end - join]; the cutoff is the greatest index that is 0 or follows within 15 minutes and not after the end when trimming applies, else the last |
| TimeTutored.OneCutoff | server/utils/session-utils.ts:90-111 | there is exactly one cutoff |
| TimeTutored.NoTimeIff | server/utils/session-utils.ts:113-118 | with messages in order, no time is credited exactly when all up to the cutoff came before the tutor or the first came after the end |
| TimeTutored.LateMessageTrims | server/utils/session-utils.ts:94-111 | a message after the end moves the cutoff to the last settled message before it |
| TimeTutored.LateMessageTime | server/utils/session-utils.ts:94-118 | with messages in order, a message after the end never adds time, and leaves it the same exactly when the session was trimmed anyway, its last message was settled, or that message came before the tutor |
| TimeTutored.LateMessageTakesTimeAway | server/utils/session-utils.ts:94-118 | an hour of tutored time becomes ten minutes |
| Totp.AcceptedCountersIncrease | server/services/MultiFactorAuthService.ts:57-119 | over any sequential run with any clock readings and any re-enrolment, accepted counters strictly increase and each is within 1 of the clock (sections 5.2 and 4.2 of RFC 6238) |
| Totp.SuccessBound | server/services/MultiFactorAuthService.ts:90-101 | readings confined to counters [a, b] allow at most b - a + 3 successes |
| Totp.BoundIsExact | server/services/MultiFactorAuthService.ts:79-101 | and there are runs with that many, for any codes that tell neighbouring counters apart |
| Totp.VerifiedSecretStays | server/models/Totp/totp.sql:10-17 | once a code was accepted, no enrolment replaces the secret |
| Totp.Service.VerifyTotpToken | server/services/MultiFactorAuthService.ts:57-119 | true exactly when no query failed and the first counter of the window with this code is later than the last used one; then that counter and the verification are stored, else nothing changes |
| Totp.Service.Search | server/services/MultiFactorAuthService.ts:81-88 | the first counter of the window with this code |
| Totp.Service.GenerateTotpSecret | server/services/MultiFactorAuthService.ts:29-55 | a new secret unless one is verified |
| Totp.Service.StoreSecret | server/models/Totp/totp.sql:10-17 | the statement alone also spares a verified secret |

## Left out

- Text encoding: strings are byte sequences; UTF-8 validity and byte-order marks are not modelled.
- Repeat-to-end fields of the codec: no table has one, so those branches are never taken.
- Messages for encode whose values are not of the declared types, fractional numbers and NaN among them.
- Labels and hexadecimal rendering of decodeAdvanced; chunks carry raw bytes and values.
- Time zones: a calendar maps hour blocks to a day and an hour, offsets are whole hours, and the days of the backfill are
  an increasing list of 4 AM instants.
- The conversion of day totals to hours with two decimals.
- Sorting in place and the order in which groups, maps and sets are iterated: the results do not depend on it.
- Redis, Redlock and SQL internals: commands are atomic, a lock does not expire while its holder is at work, an abandoned
  one expires some time later, and the meeting row is unique per session.
- deleteDoc, the retries of getQuillDocV1, and version 2 of the document editor.
- Presence across several servers, and handlers interrupted between two of their commands.
- Failed-join bookkeeping, surveys, assignments, actions and the document-editor and whiteboard keys of sessions.
- Attendee races inside Chime, transcription and recording.
- How volunteer ids, students, organisations and Clever students are looked up or created beyond what the tables hold:
  lookups are parameters.
- How the database driver passes an absent school: it is taken to reach the database as NULL, which student_profiles
  accepts and users_schools does not.
- JavaScript's date parsing in rosters: a deactivation value is blank, not a date, or a date.
- Password hashing, reset tokens, and the emails of a roster upload.
- Overlapping verifications of one token, and overlapping runs of roster, Clever or partner updates: each is sequential.
- Encryption and HOTP are uninterpreted functions; the notp library is modelled as its documented search through the
  window, lowest counter first.
- Mail, messages, analytics, feature flags other than the notification flags of sessions, routers and validators.
