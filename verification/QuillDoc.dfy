/**
 The cached document and its queue of deltas (server/services/QuillDocService.ts):
 lock-free appends on one side, a drain under a lock on the other. `compose` is any
 function; D is the type of deltas, of which a document is one.
 */
module QuillDoc {
  import opened Basics

  function Fold<D>(compose: (D, D) -> D, doc: D, deltas: seq<D>): D {
    if deltas == [] then doc
    else compose(Fold(compose, doc, deltas[..|deltas| - 1]), deltas[|deltas| - 1])
  }

  // ----- The drain, step by step, for any number of callers -----

  /** The caller that has the lock. `base` and `taken` are history: the deltas in the document it
      loaded, and those it has popped since. */
  datatype Holder<D> =
    | Free
    | Acquired
    | Popping(doc: D, base: seq<D>, taken: seq<D>)
    | Drained(doc: D, base: seq<D>, taken: seq<D>)
    | Finished(doc: D, base: seq<D>, taken: seq<D>)
    | Abandoned

  /** What a caller got back, and after how many deltas. */
  datatype Returned<D> = Returned(doc: D, lastDeltaStored: Option<D>, count: nat)

  datatype State<D> = State(
    cached: Option<D>,
    queue: seq<D>,
    holder: Holder<D>,
    creators: nat,             // callers that found no document and are about to create one
    log: seq<D>,               // history: every delta ever appended
    saved: seq<D>,             // history: the deltas composed into the cached document
    results: seq<Returned<D>>  // history
  )

  datatype Action<D> =
    | Append(delta: D)
    | Acquire
    | Load
    | Pop
    | Save
    | Return
    | Fail      // Redis refuses a command or the process dies; the lock is not released
    | Expire    // the time to live of an abandoned lock runs out
    | Create    // createDoc, which takes no lock

  predicate Active<D>(s: State<D>) {
    s.holder.Popping? || s.holder.Drained?
  }

  ghost predicate Enabled<D>(s: State<D>, a: Action<D>) {
    match a
    case Append(_) => true
    case Acquire => s.holder.Free?
    case Load => s.holder.Acquired?
    case Pop => s.holder.Popping?
    case Save => s.holder.Drained?
    case Return => s.holder.Finished?
    case Fail => !s.holder.Free? && !s.holder.Abandoned?
    case Expire => s.holder.Abandoned?
    case Create => s.creators > 0
  }

  function Apply<D>(compose: (D, D) -> D, blank: D, s: State<D>, a: Action<D>): State<D>
    requires Enabled(s, a)
  {
    match a
    case Append(d) => s.(queue := s.queue + [d], log := s.log + [d])
    case Acquire => s.(holder := Acquired)
    case Load =>
      if s.cached.None? then s.(holder := Abandoned, creators := s.creators + 1)
      else s.(holder := Popping(s.cached.value, s.saved, []))
    case Pop =>
      var h := s.holder;
      if s.queue == [] then s.(holder := Drained(h.doc, h.base, h.taken))
      else s.(queue := s.queue[1..],
              holder := Popping(compose(h.doc, s.queue[0]), h.base, h.taken + [s.queue[0]]))
    case Save =>
      var h := s.holder;
      var next := s.(holder := Finished(h.doc, h.base, h.taken));
      if h.taken == [] then next else next.(cached := Some(h.doc), saved := h.base + h.taken)
    case Return =>
      var h := s.holder;
      var last := if h.taken == [] then None else Some(h.taken[|h.taken| - 1]);
      s.(holder := Free, results := s.results + [Returned(h.doc, last, |h.base| + |h.taken|)])
    case Fail => s.(holder := Abandoned)
    case Expire => s.(holder := Free)
    case Create => s.(cached := Some(blank), saved := [], creators := s.creators - 1)
  }

  /** The deltas in the document under work. */
  function Working<D>(s: State<D>): seq<D> {
    if Active(s) || s.holder.Finished? then s.holder.base + s.holder.taken else s.saved
  }

  function WorkingDoc<D>(s: State<D>): Option<D> {
    if Active(s) || s.holder.Finished? then Some(s.holder.doc) else s.cached
  }

  /** Every document is the fold of the deltas it is said to hold. */
  ghost predicate Coherent<D>(compose: (D, D) -> D, blank: D, s: State<D>) {
    && (s.cached.Some? ==> s.cached.value == Fold(compose, blank, s.saved))
    && (s.cached.None? ==> s.saved == [] && !Active(s) && !s.holder.Finished?)
    && (Active(s) || s.holder.Finished? ==> s.holder.doc == Fold(compose, blank, s.holder.base + s.holder.taken))
    && (Active(s) ==> s.saved == s.holder.base || s.saved == [])
    && (s.holder.Finished? ==> s.saved == s.holder.base + s.holder.taken || s.saved == [])
  }

  /** Document and queue together are the whole log. */
  ghost predicate Plain<D>(s: State<D>) {
    s.log == Working(s) + s.queue
  }

  /** A drain has loaded the document and not returned yet. */
  predicate HoldsDocument<D>(s: State<D>) {
    Active(s) || s.holder.Finished?
  }

  /** A step that loses deltas: a drain fails or returns while what is cached is not what it holds (it failed between
      its first pop and its save, or a createDoc came in between),
          or a document is created over one that holds deltas. */
  ghost predicate Loses<D>(s: State<D>, a: Action<D>) {
    || ((a.Fail? || a.Return?) && HoldsDocument(s) && s.saved != s.holder.base + s.holder.taken)
    || (a.Create? && !HoldsDocument(s) && s.saved != [])
  }

  lemma FoldOneMore<D>(compose: (D, D) -> D, doc: D, deltas: seq<D>, d: D)
    ensures Fold(compose, doc, deltas + [d]) == compose(Fold(compose, doc, deltas), d)
  {
    assert (deltas + [d])[..|deltas|] == deltas;
  }

  lemma StepIsCoherent<D>(compose: (D, D) -> D, blank: D, s: State<D>, a: Action<D>)
    requires Coherent(compose, blank, s) && Enabled(s, a)
    ensures Coherent(compose, blank, Apply(compose, blank, s, a))
  {
    match a
    case Load => assert s.saved + [] == s.saved;
    case Pop =>
      if s.queue != [] {
        var h := s.holder;
        FoldOneMore(compose, blank, h.base + h.taken, s.queue[0]);
        assert h.base + (h.taken + [s.queue[0]]) == h.base + h.taken + [s.queue[0]];
      }
    case Save => assert s.holder.base + [] == s.holder.base;
    case _ =>
  }

  lemma Cancel<D>(log: seq<D>, a: seq<D>, b: seq<D>, rest: seq<D>)
    requires log == a + rest
    ensures log == b + rest <==> a == b
  {
    if log == b + rest {
      assert |a| == |b| && a == log[..|a|] && b == log[..|b|];
    }
  }

  /** Popping moves one delta from the queue to the document. */
  lemma PopIsPlain<D>(compose: (D, D) -> D, blank: D, s: State<D>)
    requires Plain(s) && s.holder.Popping?
    ensures Plain(Apply(compose, blank, s, Pop))
  {
    if s.queue != [] {
      var h := s.holder;
      PoppedDelta(h.base, h.taken, s.queue);
    }
  }

  lemma PoppedDelta<D>(base: seq<D>, taken: seq<D>, queue: seq<D>)
    requires queue != []
    ensures base + (taken + [queue[0]]) + queue[1..] == base + taken + queue
  {
  }

  /** Exactly which steps lose deltas. */
  lemma StepLosesNothingIff<D>(compose: (D, D) -> D, blank: D, s: State<D>, a: Action<D>)
    requires Coherent(compose, blank, s) && Plain(s) && Enabled(s, a)
    ensures Plain(Apply(compose, blank, s, a)) <==> !Loses(s, a)
  {
    hide Coherent, Fold;
    match a
    case Append(d) => assert Working(s) + (s.queue + [d]) == Working(s) + s.queue + [d];
    case Load => assert s.saved + [] == s.saved;
    case Pop => PopIsPlain(compose, blank, s);
    case Create => Cancel(s.log, Working(s), [], s.queue);
    case _ => Cancel(s.log, Working(s), s.saved, s.queue);
  }

  // ----- Runs -----

  ghost predicate IsRun<D>(compose: (D, D) -> D, blank: D, s: State<D>, actions: seq<Action<D>>)
    decreases |actions|
  {
    actions == [] ||
    (Enabled(s, actions[0]) && IsRun(compose, blank, Apply(compose, blank, s, actions[0]), actions[1..]))
  }

  function Run<D>(compose: (D, D) -> D, blank: D, s: State<D>, actions: seq<Action<D>>): State<D>
    requires IsRun(compose, blank, s, actions)
    decreases |actions|
  {
    if actions == [] then s else Run(compose, blank, Apply(compose, blank, s, actions[0]), actions[1..])
  }

  ghost predicate AlwaysPlain<D>(compose: (D, D) -> D, blank: D, s: State<D>, actions: seq<Action<D>>)
    requires IsRun(compose, blank, s, actions)
    decreases |actions|
  {
    Plain(s) && (actions == [] || AlwaysPlain(compose, blank, Apply(compose, blank, s, actions[0]), actions[1..]))
  }

  ghost predicate NeverLoses<D>(compose: (D, D) -> D, blank: D, s: State<D>, actions: seq<Action<D>>)
    requires IsRun(compose, blank, s, actions)
    decreases |actions|
  {
    actions == [] ||
    (!Loses(s, actions[0]) && NeverLoses(compose, blank, Apply(compose, blank, s, actions[0]), actions[1..]))
  }

  /** Document and queue are the whole log in every state of a run exactly when no step of the run loses deltas. */
  lemma {:induction false} RunsLoseNothingIff<D>(compose: (D, D) -> D, blank: D, s: State<D>, actions: seq<Action<D>>)
    requires Coherent(compose, blank, s) && Plain(s) && IsRun(compose, blank, s, actions)
    ensures AlwaysPlain(compose, blank, s, actions) <==> NeverLoses(compose, blank, s, actions)
    decreases |actions|
  {
    hide Apply, Coherent, Plain, Loses;
    if actions != [] {
      StepIsCoherent(compose, blank, s, actions[0]);
      StepLosesNothingIff(compose, blank, s, actions[0]);
      var next := Apply(compose, blank, s, actions[0]);
      if Plain(next) {
        RunsLoseNothingIff(compose, blank, next, actions[1..]);
      }
    }
  }

  /** Each returned document is the fold of the first `count` deltas of the log, its last stored delta is
      the last of those if the call popped any, and counts never decrease. */
  ghost predicate ResultsArePrefixes<D>(compose: (D, D) -> D, blank: D, s: State<D>) {
    && (forall r <- s.results ::
          && r.count <= |Working(s)| <= |s.log|
          && r.doc == Fold(compose, blank, s.log[..r.count])
          && (r.lastDeltaStored.Some? ==> r.count > 0 && r.lastDeltaStored.value == s.log[r.count - 1]))
    && (forall i, j :: 0 <= i < j < |s.results| ==> s.results[i].count <= s.results[j].count)
  }

  ghost predicate Inv<D>(compose: (D, D) -> D, blank: D, s: State<D>) {
    Coherent(compose, blank, s) && Plain(s) && ResultsArePrefixes(compose, blank, s)
  }

  lemma WorkingGrows<D>(compose: (D, D) -> D, blank: D, s: State<D>, a: Action<D>)
    requires Enabled(s, a) && !Loses(s, a)
    ensures var t := Apply(compose, blank, s, a);
            |Working(t)| >= |Working(s)| && s.log <= t.log && (!a.Return? ==> t.results == s.results)
  {
  }

  lemma ResultsStay<D>(compose: (D, D) -> D, blank: D, s: State<D>, t: State<D>)
    requires ResultsArePrefixes(compose, blank, s) && t.results == s.results
    requires s.log <= t.log && |Working(s)| <= |Working(t)| <= |t.log|
    ensures ResultsArePrefixes(compose, blank, t)
  {
    hide Fold, Working;
    forall r <- s.results
      ensures t.log[..r.count] == s.log[..r.count] && (r.count > 0 ==> t.log[r.count - 1] == s.log[r.count - 1])
    {
    }
  }

  lemma ReturnKeepsResults<D>(compose: (D, D) -> D, blank: D, s: State<D>)
    requires Inv(compose, blank, s) && s.holder.Finished? && !Loses(s, Return)
    ensures ResultsArePrefixes(compose, blank, Apply(compose, blank, s, Return))
  {
    hide Fold;
    var h, k := s.holder, |Working(s)|;
    assert s.log[..k] == Working(s);
    assert h.taken != [] ==> Working(s)[k - 1] == h.taken[|h.taken| - 1];
  }

  lemma {:induction false} StepKeepsResults<D>(compose: (D, D) -> D, blank: D, s: State<D>, a: Action<D>)
    requires Inv(compose, blank, s) && Enabled(s, a) && !Loses(s, a)
    ensures ResultsArePrefixes(compose, blank, Apply(compose, blank, s, a))
  {
    var t := Apply(compose, blank, s, a);
    if a.Return? {
      ReturnKeepsResults(compose, blank, s);
    } else {
      StepLosesNothingIff(compose, blank, s, a);
      WorkingGrows(compose, blank, s, a);
      hide Apply, Coherent, Loses, ResultsArePrefixes, Working, Fold;
      assert |t.log| == |Working(t)| + |t.queue|;
      ResultsStay(compose, blank, s, t);
    }
  }

  /** From any good state, every run that never loses deltas ends in one: the document under work is the fold of the
      log without its queued tail, however appends and drains interleave. */
  lemma {:induction false} RunsRefineLog<D>(compose: (D, D) -> D, blank: D, s: State<D>, actions: seq<Action<D>>)
    requires Inv(compose, blank, s)
    requires IsRun(compose, blank, s, actions) && NeverLoses(compose, blank, s, actions)
    ensures var t := Run(compose, blank, s, actions);
            && Inv(compose, blank, t)
            && t.log == Working(t) + t.queue
            && (WorkingDoc(t).Some? ==> WorkingDoc(t).value == Fold(compose, blank, t.log[..|t.log| - |t.queue|]))
            && s.results <= t.results
    decreases |actions|
  {
    if actions == [] {
      assert s.log[..|s.log| - |s.queue|] == Working(s);
    } else {
      var next := Apply(compose, blank, s, actions[0]);
      StepIsCoherent(compose, blank, s, actions[0]);
      StepLosesNothingIff(compose, blank, s, actions[0]);
      StepKeepsResults(compose, blank, s, actions[0]);
      RunsRefineLog(compose, blank, next, actions[1..]);
    }
  }

  /** Folding the queue onto the document under work is folding the whole log onto the fresh document. */
  lemma DocumentPlusQueueIsLog<D>(compose: (D, D) -> D, blank: D, s: State<D>)
    requires Inv(compose, blank, s) && WorkingDoc(s).Some?
    ensures Fold(compose, WorkingDoc(s).value, s.queue) == Fold(compose, blank, s.log)
  {
    FoldConcat(compose, blank, Working(s), s.queue);
  }

  lemma {:induction false} FoldConcat<D>(compose: (D, D) -> D, doc: D, a: seq<D>, b: seq<D>)
    ensures Fold(compose, Fold(compose, doc, a), b) == Fold(compose, doc, a + b)
    decreases |b|
  {
    if b == [] {
      assert a + b == a;
    } else {
      var init := b[..|b| - 1];
      FoldConcat(compose, doc, a, init);
      assert (a + b)[..|a + b| - 1] == a + init;
    }
  }

  ghost function Start<D>(): State<D> {
    State(None, [], Free, 0, [], [], [])
  }

  lemma StartIsGood<D>(compose: (D, D) -> D, blank: D)
    ensures Inv(compose, blank, Start())
  {
  }

  /** One delta is queued, and nothing is in the document yet. */
  function OneQueued<D>(blank: D, d: D): State<D> {
    State(Some(blank), [d], Free, 0, [d], [], [])
  }

  lemma OneQueuedIsGood<D>(compose: (D, D) -> D, blank: D, d: D)
    ensures Inv(compose, blank, OneQueued(blank, d))
  {
  }

  lemma CrashStates<D>(compose: (D, D) -> D, blank: D, d: D)
    ensures var s0 := OneQueued(blank, d);
            var s3 := s0.(queue := [], holder := Popping(compose(blank, d), [], [d]));
            && Enabled(s0, Acquire) && Apply(compose, blank, s0, Acquire) == s0.(holder := Acquired)
            && Apply(compose, blank, s0.(holder := Acquired), Load) == s0.(holder := Popping(blank, [], []))
            && Apply(compose, blank, s0.(holder := Popping(blank, [], [])), Pop) == s3
            && Apply(compose, blank, s3, Fail) == s3.(holder := Abandoned)
  {
    assert [d][1..] == [] && [] + [d] == [d];
  }

  /** A drain that dies after its first pop: the delta is neither in the document nor in the queue. */
  lemma CrashAfterPopLosesDelta<D>(compose: (D, D) -> D, blank: D, d: D)
    ensures var s := OneQueued(blank, d);
            && Inv(compose, blank, s)
            && IsRun(compose, blank, s, [Acquire, Load, Pop, Fail])
            && var t := Run(compose, blank, s, [Acquire, Load, Pop, Fail]);
               t.log == [d] && t.queue == [] && t.cached == Some(blank) && Working(t) == []
  {
    hide Apply, Inv, IsRun, Run;
    var s0 := OneQueued(blank, d);
    var s1, s2 := s0.(holder := Acquired), s0.(holder := Popping(blank, [], []));
    var s3 := s0.(queue := [], holder := Popping(compose(blank, d), [], [d]));
    OneQueuedIsGood(compose, blank, d);
    CrashStates(compose, blank, d);
    FourInARow<D>(Acquire, Load, Pop, Fail);
    RunNil(compose, blank, s3.(holder := Abandoned));
    RunCons(compose, blank, s3, Fail, []);
    RunCons(compose, blank, s2, Pop, [Fail]);
    RunCons(compose, blank, s1, Load, [Pop, Fail]);
    RunCons(compose, blank, s0, Acquire, [Load, Pop, Fail]);
  }

  /** Two callers have found no document. */
  lemma TwoCreators<D>(compose: (D, D) -> D, blank: D)
    ensures var actions: seq<Action<D>> := [Acquire, Load, Expire, Acquire, Load, Expire];
            && IsRun(compose, blank, Start(), actions)
            && Run(compose, blank, Start(), actions) == State(None, [], Free, 2, [], [], [])
  {
    var s0: State<D> := Start();
    var s1 := s0.(holder := Acquired);
    var s2 := s0.(holder := Abandoned, creators := 1);
    var s3 := s0.(creators := 1);
    var s4 := s3.(holder := Acquired);
    var s5 := s3.(holder := Abandoned, creators := 2);
    var s6 := s3.(creators := 2);
    RunsThreeSteps(compose, blank, s0, Acquire, Load, Expire, s1, s2, s3);
    RunsThreeSteps(compose, blank, s3, Acquire, Load, Expire, s4, s5, s6);
    RunConcat(compose, blank, s0, [Acquire, Load, Expire], [Acquire, Load, Expire]);
    var half: seq<Action<D>> := [Acquire, Load, Expire];
    assert half + half == [Acquire, Load, Expire, Acquire, Load, Expire];
  }

  function Locked<D>(blank: D, e: D): State<D> {
    State(Some(blank), [e], Acquired, 1, [e], [], [])
  }

  function Emptied<D>(compose: (D, D) -> D, blank: D, e: D): State<D> {
    State(Some(blank), [], Drained(compose(blank, e), [], [e]), 1, [e], [], [])
  }

  lemma CreatedAndLocked<D>(compose: (D, D) -> D, blank: D, e: D)
    ensures var s: State<D> := State(None, [], Free, 2, [], [], []);
            && IsRun(compose, blank, s, [Create, Append(e), Acquire])
            && Run(compose, blank, s, [Create, Append(e), Acquire]) == Locked(blank, e)
  {
    var s0: State<D> := State(None, [], Free, 2, [], [], []);
    var s1 := State(Some(blank), [], Free, 1, [], [], []);
    var s2 := State(Some(blank), [e], Free, 1, [e], [], []);
    assert [] + [e] == [e];
    RunsThreeSteps(compose, blank, s0, Create, Append(e), Acquire, s1, s2, Locked(blank, e));
  }

  lemma LoadedAndEmptied<D>(compose: (D, D) -> D, blank: D, e: D)
    ensures IsRun(compose, blank, Locked(blank, e), [Load, Pop, Pop])
    ensures Run(compose, blank, Locked(blank, e), [Load, Pop, Pop]) == Emptied(compose, blank, e)
  {
    var s3 := Locked(blank, e);
    var s4 := s3.(holder := Popping(blank, [], []));
    var s5 := s3.(queue := [], holder := Popping(compose(blank, e), [], [e]));
    assert [] + [e] == [e] && [e][1..] == [];
    RunsThreeSteps(compose, blank, s3, Load, Pop, Pop, s4, s5, Emptied(compose, blank, e));
  }

  lemma SavedAndCreatedAnew<D>(compose: (D, D) -> D, blank: D, e: D)
    ensures IsRun(compose, blank, Emptied(compose, blank, e), [Save, Return, Create])
    ensures var t := Run(compose, blank, Emptied(compose, blank, e), [Save, Return, Create]);
            t.log == [e] && t.queue == [] && t.cached == Some(blank) && Working(t) == []
  {
    var s6, doc := Emptied(compose, blank, e), compose(blank, e);
    var s7 := s6.(holder := Finished(doc, [], [e]), cached := Some(doc), saved := [e]);
    var s8 := s7.(holder := Free, results := [Returned(doc, Some(e), 1)]);
    var s9 := s8.(cached := Some(blank), saved := [], creators := 0);
    assert [] + [e] == [e];
    RunsThreeSteps(compose, blank, s6, Save, Return, Create, s7, s8, s9);
  }

  /** One of them creates the document, a drain saves a delta into it, and the other creates it anew. */
  lemma CreatedAndFilled<D>(compose: (D, D) -> D, blank: D, e: D)
    ensures var s: State<D> := State(None, [], Free, 2, [], [], []);
            var actions := [Create, Append(e), Acquire, Load, Pop, Pop, Save, Return, Create];
            && IsRun(compose, blank, s, actions)
            && var t := Run(compose, blank, s, actions);
               t.log == [e] && t.queue == [] && t.cached == Some(blank) && Working(t) == []
  {
    hide IsRun, Run, Apply, Locked, Emptied;
    CreatedAndLocked(compose, blank, e);
    LoadedAndEmptied(compose, blank, e);
    SavedAndCreatedAnew(compose, blank, e);
    RunConcat(compose, blank, Locked(blank, e), [Load, Pop, Pop], [Save, Return, Create]);
    RunConcat(compose, blank, State(None, [], Free, 2, [], [], []), [Create, Append(e), Acquire],
              [Load, Pop, Pop] + [Save, Return, Create]);
    assert [Create, Append(e), Acquire] + ([Load, Pop, Pop] + [Save, Return, Create])
        == [Create, Append(e), Acquire, Load, Pop, Pop, Save, Return, Create];
  }

  /** The second createDoc of two callers that found no document drops what was saved between them. */
  lemma SecondCreateLosesDelta<D>(compose: (D, D) -> D, blank: D, e: D)
    ensures var actions := [Acquire, Load, Expire, Acquire, Load, Expire]
                           + [Create, Append(e), Acquire, Load, Pop, Pop, Save, Return, Create];
            && IsRun(compose, blank, Start(), actions)
            && var t := Run(compose, blank, Start(), actions);
               t.log == [e] && t.queue == [] && t.cached == Some(blank) && Working(t) == [] && !Plain(t)
  {
    hide IsRun, Run, Apply;
    TwoCreators(compose, blank);
    CreatedAndFilled(compose, blank, e);
    RunConcat(compose, blank, Start(), [Acquire, Load, Expire, Acquire, Load, Expire],
              [Create, Append(e), Acquire, Load, Pop, Pop, Save, Return, Create]);
  }

  lemma RunsThreeSteps<D>(compose: (D, D) -> D, blank: D, s: State<D>, a: Action<D>, b: Action<D>, c: Action<D>,
                          s1: State<D>, s2: State<D>, s3: State<D>)
    requires Enabled(s, a) && s1 == Apply(compose, blank, s, a)
    requires Enabled(s1, b) && s2 == Apply(compose, blank, s1, b)
    requires Enabled(s2, c) && s3 == Apply(compose, blank, s2, c)
    ensures IsRun(compose, blank, s, [a, b, c]) && Run(compose, blank, s, [a, b, c]) == s3
  {
    hide Apply, Enabled, IsRun, Run;
    assert [c] + [] == [c] && [b] + [c] == [b, c] && [a] + [b, c] == [a, b, c];
    RunNil(compose, blank, s3);
    RunCons(compose, blank, s2, c, []);
    RunCons(compose, blank, s1, b, [c]);
    RunCons(compose, blank, s, a, [b, c]);
  }

  lemma {:induction false} RunConcat<D>(compose: (D, D) -> D, blank: D, s: State<D>, first: seq<Action<D>>,
                                        second: seq<Action<D>>)
    requires IsRun(compose, blank, s, first) && IsRun(compose, blank, Run(compose, blank, s, first), second)
    ensures IsRun(compose, blank, s, first + second)
    ensures Run(compose, blank, s, first + second) == Run(compose, blank, Run(compose, blank, s, first), second)
    decreases |first|
  {
    hide Apply, Enabled;
    if first == [] {
      assert first + second == second;
    } else {
      FirstOfAppend(first, second);
      RunConcat(compose, blank, Apply(compose, blank, s, first[0]), first[1..], second);
    }
  }

  lemma FourInARow<D>(a: Action<D>, b: Action<D>, c: Action<D>, e: Action<D>)
    ensures [e] + [] == [e] && [c] + [e] == [c, e] && [b] + [c, e] == [b, c, e] && [a] + [b, c, e] == [a, b, c, e]
  {
  }

  lemma RunNil<D>(compose: (D, D) -> D, blank: D, s: State<D>)
    ensures IsRun(compose, blank, s, []) && Run(compose, blank, s, []) == s
  {
  }

  lemma RunCons<D>(compose: (D, D) -> D, blank: D, s: State<D>, a: Action<D>, rest: seq<Action<D>>)
    requires Enabled(s, a) && IsRun(compose, blank, Apply(compose, blank, s, a), rest)
    ensures IsRun(compose, blank, s, [a] + rest)
    ensures Run(compose, blank, s, [a] + rest) == Run(compose, blank, Apply(compose, blank, s, a), rest)
  {
    assert ([a] + rest)[1..] == rest;
  }

  // ----- processDoc -----

  function Flatten<D>(batches: seq<seq<D>>): seq<D> {
    if batches == [] then [] else batches[0] + Flatten(batches[1..])
  }

  lemma {:induction false} FlattenOneMore<D>(batches: seq<seq<D>>, i: nat)
    requires i < |batches|
    ensures Flatten(batches[..i + 1]) == Flatten(batches[..i]) + batches[i]
  {
    if i == 0 {
      assert batches[..1][1..] == [];
    } else {
      FlattenOneMore(batches[1..], i - 1);
      assert batches[..i + 1][1..] == batches[1..][..i] && batches[..i][1..] == batches[1..][..i - 1];
    }
  }

  class DocCache<D> {
    var doc: Option<D>
    var deltas: seq<D>

    constructor (doc: Option<D>)
      ensures this.doc == doc && deltas == []
    {
      this.doc := doc;
      deltas := [];
    }

    method AppendToDoc(delta: D)
      modifies this`deltas
      ensures deltas == old(deltas) + [delta]
    {
      deltas := deltas + [delta];
    }

    /** One lpop, before which other callers have appended `arrived`. */
    method PopDelta(arrived: seq<D>) returns (d: Option<D>)
      modifies this`deltas
      ensures Pending(d) + deltas == old(deltas) + arrived
      ensures d.None? ==> deltas == []
    {
      deltas := deltas + arrived;
      if deltas == [] {
        return None;
      }
      d := Some(deltas[0]);
      deltas := deltas[1..];
    }

    /** The drain, with arrivals[k] appended by other callers before the k-th pop. It stops at the first
        empty pop: then every delta so far is in the document, in order, and the document is saved. */
    method ProcessDoc(compose: (D, D) -> D, docString: D, arrivals: seq<seq<D>>)
      returns (result: D, lastDeltaStored: Option<D>, pops: nat)
      modifies this
      ensures pops >= 1 && deltas == []
      ensures var seen := old(deltas) + UpTo(arrivals, pops);
              && pops == |seen| + 1
              && result == Fold(compose, docString, seen)
              && lastDeltaStored == (if seen == [] then None else Some(seen[|seen| - 1]))
              && doc == if seen == [] then old(doc) else Some(result)
    {
      var pending := PopDelta(Arrival(arrivals, 0));
      pops := 1;
      var isUpdateNeeded := pending.Some?;
      result := docString;
      lastDeltaStored := None;
      ghost var start, taken: seq<D> := old(deltas), [];
      UpToStep(arrivals, 0);
      assert taken + (Pending(pending) + deltas) == start + UpTo(arrivals, 1);
      while pending.Some?
        invariant Draining(start, arrivals, pops, taken, pending, deltas)
        invariant doc == old(doc)
        invariant result == Fold(compose, docString, taken)
        invariant lastDeltaStored == if pending.None? && taken != [] then Some(taken[|taken| - 1]) else None
        invariant isUpdateNeeded <==> pending.Some? || taken != []
        decreases |start| + |Flatten(arrivals)| - |taken|
      {
        FoldOneMore(compose, docString, taken, pending.value);
        result := compose(result, pending.value);
        var prevDelta := pending.value;
        ghost var before := deltas;
        pending := PopDelta(Arrival(arrivals, pops));
        DrainStep(start, arrivals, pops, taken, prevDelta, before, pending, deltas);
        pops := pops + 1;
        taken := taken + [prevDelta];
        if pending.None? {
          lastDeltaStored := Some(prevDelta);
        }
      }
      assert taken + (Pending(pending) + deltas) == taken;
      if isUpdateNeeded {
        doc := Some(result);
      }
    }
  }

  /** The deltas taken, the one in hand and the queue are all that has been appended so far. */
  ghost predicate Draining<D>(start: seq<D>, arrivals: seq<seq<D>>, pops: nat, taken: seq<D>, pending: Option<D>,
                              deltas: seq<D>) {
    && pops == |taken| + 1
    && taken + (Pending(pending) + deltas) == start + UpTo(arrivals, pops)
    && (pending.None? ==> deltas == [])
  }

  lemma DrainStep<D>(start: seq<D>, arrivals: seq<seq<D>>, pops: nat, taken: seq<D>, d: D, deltas: seq<D>,
                     pending: Option<D>, rest: seq<D>)
    requires Draining(start, arrivals, pops, taken, Some(d), deltas)
    requires Pending(pending) + rest == deltas + Arrival(arrivals, pops)
    requires pending.None? ==> rest == []
    ensures Draining(start, arrivals, pops + 1, taken + [d], pending, rest)
    ensures |taken| < |start| + |Flatten(arrivals)|
  {
    UpToStep(arrivals, pops);
    UpToBound(arrivals, pops);
    var upTo, arrived := UpTo(arrivals, pops), Arrival(arrivals, pops);
    Regroup(taken, d, deltas, arrived, start + upTo);
    Associate(start, upTo, arrived);
    assert |taken + ([d] + deltas)| == |start| + |upTo|;
  }

  lemma Associate<D>(a: seq<D>, b: seq<D>, c: seq<D>)
    ensures (a + b) + c == a + (b + c)
  {
  }

  function Pending<D>(d: Option<D>): seq<D> {
    if d.Some? then [d.value] else []
  }

  lemma Regroup<D>(taken: seq<D>, d: D, rest: seq<D>, arrived: seq<D>, all: seq<D>)
    requires taken + ([d] + rest) == all
    ensures (taken + [d]) + (rest + arrived) == all + arrived
  {
    assert taken + ([d] + rest) + arrived == (taken + [d]) + (rest + arrived);
  }

  function Arrival<D>(arrivals: seq<seq<D>>, k: nat): seq<D> {
    if k < |arrivals| then arrivals[k] else []
  }

  function UpTo<D>(arrivals: seq<seq<D>>, k: nat): seq<D> {
    Flatten(if k <= |arrivals| then arrivals[..k] else arrivals)
  }

  lemma UpToStep<D>(arrivals: seq<seq<D>>, k: nat)
    ensures UpTo(arrivals, k + 1) == UpTo(arrivals, k) + Arrival(arrivals, k)
    ensures k == 0 ==> UpTo(arrivals, 1) == Arrival(arrivals, 0)
  {
    if k < |arrivals| {
      FlattenOneMore(arrivals, k);
    } else {
      assert arrivals[..|arrivals|] == arrivals;
    }
    if k == 0 {
      assert UpTo(arrivals, 0) == [];
    }
  }

  lemma {:induction false} UpToBound<D>(arrivals: seq<seq<D>>, k: nat)
    ensures |UpTo(arrivals, k)| <= |Flatten(arrivals)|
    decreases |arrivals| - k
  {
    if k < |arrivals| {
      UpToBound(arrivals, k + 1);
      UpToStep(arrivals, k);
    } else {
      assert arrivals[..|arrivals|] == arrivals;
    }
  }
}
