/**
 Whole drains of the delta queue (server/services/QuillDocService.ts), and which runs lose nothing, told from the
 actions and the cache alone.
 */
module QuillDrain {
  import opened Basics
  import opened QuillDoc

  // ----- A drain from lock to release -----

  /** What a drain does and what others may do between its pops. */
  ghost predicate PopsAndAppends<D>(actions: seq<Action<D>>) {
    forall a <- actions :: a.Pop? || a.Append?
  }

  function Appended<D>(actions: seq<Action<D>>): seq<D> {
    if actions == [] then []
    else (if actions[0].Append? then [actions[0].delta] else []) + Appended(actions[1..])
  }

  lemma FoldFirst<D>(compose: (D, D) -> D, doc: D, d: D, deltas: seq<D>)
    ensures Fold(compose, compose(doc, d), deltas) == Fold(compose, doc, [d] + deltas)
  {
    assert Fold(compose, doc, [d]) == compose(Fold(compose, doc, []), d);
    FoldConcat(compose, doc, [d], deltas);
  }

  /** How far a drain has come: of all deltas queued and appended, the first `n` are in its document. */
  ghost predicate HasMoved<D>(compose: (D, D) -> D, s: State<D>, t: State<D>, all: seq<D>, n: nat)
    requires s.holder.Popping?
  {
    && n <= |all| && t.queue == all[n..]
    && (t.holder.Popping? || t.holder.Drained?)
    && t.holder.base == s.holder.base && t.holder.taken == s.holder.taken + all[..n]
    && t.holder.doc == Fold(compose, s.holder.doc, all[..n])
    && t.cached == s.cached && t.saved == s.saved && t.results == s.results
  }

  lemma PopMoves<D>(compose: (D, D) -> D, blank: D, s: State<D>, t: State<D>, rest: seq<D>, n: nat)
    requires s.holder.Popping? && s.queue != [] && Apply(compose, blank, s, Pop).holder.Popping?
    requires HasMoved(compose, Apply(compose, blank, s, Pop), t, s.queue[1..] + rest, n)
    ensures HasMoved(compose, s, t, s.queue + rest, n + 1)
  {
    var all, later := s.queue + rest, s.queue[1..] + rest;
    assert all == [s.queue[0]] + later;
    assert all[..n + 1] == [s.queue[0]] + later[..n] && all[n + 1..] == later[n..];
    FoldFirst(compose, s.holder.doc, s.queue[0], later[..n]);
    assert s.holder.taken + [s.queue[0]] + later[..n] == s.holder.taken + all[..n + 1];
  }

  /** A drain, once it has found the queue empty, waits for its save whatever is appended. */
  lemma {:induction false} DrainedStays<D>(compose: (D, D) -> D, blank: D, s: State<D>, actions: seq<Action<D>>)
    requires s.holder.Drained? && PopsAndAppends(actions) && IsRun(compose, blank, s, actions)
    ensures Run(compose, blank, s, actions)
        == s.(queue := s.queue + Appended(actions), log := s.log + Appended(actions))
    decreases |actions|
  {
    if actions == [] {
      assert s.queue + [] == s.queue && s.log + [] == s.log;
    } else {
      assert actions[0] in actions;
      var d := actions[0].delta;
      DrainedStays(compose, blank, Apply(compose, blank, s, actions[0]), actions[1..]);
      assert s.queue + [d] + Appended(actions[1..]) == s.queue + ([d] + Appended(actions[1..]));
      assert s.log + [d] + Appended(actions[1..]) == s.log + ([d] + Appended(actions[1..]));
    }
  }

  /** However appends come between its pops, a drain moves deltas from the front of the queue to its document, in
      order. */
  lemma {:induction false} DrainMoves<D>(compose: (D, D) -> D, blank: D, s: State<D>, actions: seq<Action<D>>)
    returns (n: nat)
    requires s.holder.Popping? && PopsAndAppends(actions) && IsRun(compose, blank, s, actions)
    ensures HasMoved(compose, s, Run(compose, blank, s, actions), s.queue + Appended(actions), n)
    ensures Run(compose, blank, s, actions).log == s.log + Appended(actions)
    decreases |actions|
  {
    if actions == [] {
      n := 0;
      assert s.queue + [] == s.queue && s.log + [] == s.log && s.holder.taken + [] == s.holder.taken;
    } else {
      assert actions[0] in actions;
      var next, rest := Apply(compose, blank, s, actions[0]), Appended(actions[1..]);
      if actions[0].Append? {
        var d := actions[0].delta;
        n := DrainMoves(compose, blank, next, actions[1..]);
        assert s.queue + [d] + rest == s.queue + ([d] + rest) && s.log + [d] + rest == s.log + ([d] + rest);
      } else if s.queue == [] {
        n := 0;
        DrainedStays(compose, blank, next, actions[1..]);
        assert s.holder.taken + [] == s.holder.taken && s.queue + rest == rest && Appended(actions) == rest;
      } else {
        n := DrainMoves(compose, blank, next, actions[1..]);
        PopMoves(compose, blank, s, Run(compose, blank, s, actions), rest, n);
        n := n + 1;
        assert Appended(actions) == rest;
      }
    }
  }

  function Pops<D>(n: nat): seq<Action<D>> {
    seq(n, _ => Pop)
  }

  lemma {:induction false} PopsEmptyQueue<D>(compose: (D, D) -> D, blank: D, s: State<D>)
    requires s.holder.Popping?
    ensures IsRun(compose, blank, s, Pops(|s.queue| + 1))
    ensures var t := Run(compose, blank, s, Pops(|s.queue| + 1)); t.holder.Drained? && t.queue == []
    decreases |s.queue|
  {
    var actions: seq<Action<D>> := Pops(|s.queue| + 1);
    var next := Apply(compose, blank, s, Pop);
    assert actions[0] == Pop;
    if s.queue == [] {
      assert actions[1..] == [];
      assert Run(compose, blank, next, []) == next;
    } else {
      assert actions[1..] == Pops(|next.queue| + 1);
      PopsEmptyQueue(compose, blank, next);
    }
  }

  lemma {:induction false} NoneAppended<D>(n: nat)
    ensures PopsAndAppends<D>(Pops(n)) && Appended<D>(Pops(n)) == []
  {
    if n > 0 {
      var pops: seq<Action<D>> := Pops(n);
      assert pops[1..] == Pops(n - 1);
      NoneAppended<D>(n - 1);
    }
  }

  function LastOf<D>(deltas: seq<D>): Option<D> {
    if deltas == [] then None else Some(deltas[|deltas| - 1])
  }

  lemma TwoInARow<D>(a: Action<D>, b: Action<D>)
    ensures [b] + [] == [b] && [a] + [b] == [a, b]
  {
  }

  /** The end of a drain: the document with what it popped is in the cache, and is returned. */
  lemma SaveAndReturn<D>(compose: (D, D) -> D, blank: D, s: State<D>)
    requires s.holder.Drained? && (s.holder.taken == [] ==> s.cached == Some(s.holder.doc))
    ensures IsRun(compose, blank, s, [Save, Return])
    ensures var t := Run(compose, blank, s, [Save, Return]);
            && t.holder.Free? && t.queue == s.queue && t.cached == Some(s.holder.doc)
            && t.results
               == s.results + [Returned(s.holder.doc, LastOf(s.holder.taken), |s.holder.base| + |s.holder.taken|)]
  {
    var s1 := Apply(compose, blank, s, Save);
    var s2 := Apply(compose, blank, s1, Return);
    RunNil(compose, blank, s2);
    RunCons(compose, blank, s1, Return, []);
    RunCons(compose, blank, s, Save, [Return]);
    TwoInARow<D>(Save, Return);
  }

  lemma LockAndLoad<D>(compose: (D, D) -> D, blank: D, s: State<D>)
    requires s.holder.Free? && s.cached.Some?
    ensures IsRun(compose, blank, s, [Acquire, Load])
    ensures Run(compose, blank, s, [Acquire, Load]) == s.(holder := Popping(s.cached.value, s.saved, []))
  {
    var s1 := Apply(compose, blank, s, Acquire);
    var s2 := Apply(compose, blank, s1, Load);
    RunNil(compose, blank, s2);
    RunCons(compose, blank, s1, Load, []);
    RunCons(compose, blank, s, Acquire, [Load]);
    TwoInARow<D>(Acquire, Load);
  }

  /** Any drain that finds a document: of all deltas queued and appended meanwhile, it leaves the last ones in the
      queue, composes the others into the cached document, in order, and returns it. */
  lemma AnyDrain<D>(compose: (D, D) -> D, blank: D, s: State<D>, middle: seq<Action<D>>) returns (n: nat)
    requires s.holder.Free? && s.cached.Some? && PopsAndAppends(middle)
    requires IsRun(compose, blank, Run(compose, blank, s, [Acquire, Load]), middle)
    requires Run(compose, blank, Run(compose, blank, s, [Acquire, Load]), middle).holder.Drained?
    ensures IsRun(compose, blank, s, [Acquire, Load] + middle + [Save, Return])
    ensures var t := Run(compose, blank, s, [Acquire, Load] + middle + [Save, Return]);
            var all := s.queue + Appended(middle);
            && n <= |all| && t.queue == all[n..] && t.holder.Free?
            && t.queue == Run(compose, blank, Run(compose, blank, s, [Acquire, Load]), middle).queue
            && t.cached == Some(Fold(compose, s.cached.value, all[..n]))
            && t.results == s.results + [Returned(t.cached.value, LastOf(all[..n]), |s.saved| + n)]
  {
    hide IsRun, Run, Apply;
    var s2 := s.(holder := Popping(s.cached.value, s.saved, []));
    LockAndLoad(compose, blank, s);
    n := DrainMoves(compose, blank, s2, middle);
    var s3 := Run(compose, blank, s2, middle);
    var all := s.queue + Appended(middle);
    assert [] + all[..n] == all[..n];
    SaveAndReturn(compose, blank, s3);
    RunConcat(compose, blank, s, [Acquire, Load], middle);
    RunConcat(compose, blank, s, [Acquire, Load] + middle, [Save, Return]);
  }

  /** A drain left to itself: one pop more than there are deltas, an empty queue, and every delta in the document. */
  lemma LoneDrain<D>(compose: (D, D) -> D, blank: D, s: State<D>)
    requires s.holder.Free? && s.cached.Some?
    ensures IsRun(compose, blank, s, [Acquire, Load] + Pops(|s.queue| + 1) + [Save, Return])
    ensures var t := Run(compose, blank, s, [Acquire, Load] + Pops(|s.queue| + 1) + [Save, Return]);
            && t.queue == [] && t.holder.Free?
            && t.cached == Some(Fold(compose, s.cached.value, s.queue))
            && t.results == s.results + [Returned(t.cached.value, LastOf(s.queue), |s.saved| + |s.queue|)]
  {
    hide IsRun, Run, Apply;
    var s2 := s.(holder := Popping(s.cached.value, s.saved, []));
    LockAndLoad(compose, blank, s);
    PopsEmptyQueue(compose, blank, s2);
    NoneAppended<D>(|s.queue| + 1);
    var n := AnyDrain(compose, blank, s, Pops(|s.queue| + 1));
  }

  // ----- Runs that lose nothing -----

  /** What the cache is said to hold is what the drain loaded, or has saved. */
  predicate InStep<D(==)>(s: State<D>) {
    && (Active(s) ==> s.saved == s.holder.base)
    && (s.holder.Finished? ==> s.saved == s.holder.base + s.holder.taken)
    && (s.cached.None? ==> s.saved == [] && !HoldsDocument(s))
  }

  /** createDoc for a document that is there already. */
  predicate CreatesAnew<D>(s: State<D>, a: Action<D>) {
    a.Create? && s.cached.Some?
  }

  /** A drain fails between its first pop and its save. */
  predicate DropsPopped<D>(s: State<D>, a: Action<D>) {
    a.Fail? && Active(s) && |s.holder.taken| > 0
  }

  lemma LosesIffDropsPopped<D>(compose: (D, D) -> D, blank: D, s: State<D>, a: Action<D>)
    requires InStep(s) && Enabled(s, a) && !CreatesAnew(s, a)
    ensures InStep(Apply(compose, blank, s, a))
    ensures Loses(s, a) <==> DropsPopped(s, a)
  {
    if Active(s) && s.holder.taken != [] {
      assert |s.holder.base + s.holder.taken| > |s.holder.base|;
    }
    if a.Load? {
      assert s.saved + [] == s.saved;
    }
    if Active(s) && s.holder.taken == [] {
      assert s.holder.base + s.holder.taken == s.holder.base;
    }
  }

  ghost predicate NeverCreatesAnew<D>(compose: (D, D) -> D, blank: D, s: State<D>, actions: seq<Action<D>>)
    requires IsRun(compose, blank, s, actions)
    decreases |actions|
  {
    actions == [] ||
    (!CreatesAnew(s, actions[0]) && NeverCreatesAnew(compose, blank, Apply(compose, blank, s, actions[0]),
        actions[1..]))
  }

  ghost predicate NeverDropsPopped<D>(compose: (D, D) -> D, blank: D, s: State<D>, actions: seq<Action<D>>)
    requires IsRun(compose, blank, s, actions)
    decreases |actions|
  {
    actions == [] ||
    (!DropsPopped(s, actions[0]) && NeverDropsPopped(compose, blank, Apply(compose, blank, s, actions[0]),
        actions[1..]))
  }

  lemma {:induction false} NeverLosesIff<D>(compose: (D, D) -> D, blank: D, s: State<D>, actions: seq<Action<D>>)
    requires InStep(s) && IsRun(compose, blank, s, actions) && NeverCreatesAnew(compose, blank, s, actions)
    ensures NeverLoses(compose, blank, s, actions) <==> NeverDropsPopped(compose, blank, s, actions)
    decreases |actions|
  {
    hide InStep, Enabled, Apply, Loses, DropsPopped, CreatesAnew;
    if actions != [] {
      LosesIffDropsPopped(compose, blank, s, actions[0]);
      NeverLosesIff(compose, blank, Apply(compose, blank, s, actions[0]), actions[1..]);
    }
  }

  /** Runs from the start in which no document is created anew: document and queue are the log in every state
      exactly when no drain fails between its first pop and its save. The document is then the fold of the log but
      for its queued tail. */
  lemma LosesNothingUnlessDrainDies<D>(compose: (D, D) -> D, blank: D, actions: seq<Action<D>>)
    requires IsRun(compose, blank, Start(), actions) && NeverCreatesAnew(compose, blank, Start(), actions)
    ensures AlwaysPlain(compose, blank, Start(), actions) <==> NeverDropsPopped(compose, blank, Start(), actions)
    ensures NeverDropsPopped(compose, blank, Start(), actions) ==>
              var t := Run(compose, blank, Start(), actions);
              && |t.queue| <= |t.log| && t.queue == t.log[|t.log| - |t.queue|..]
              && (WorkingDoc(t).Some? ==> WorkingDoc(t).value == Fold(compose, blank, t.log[..|t.log| - |t.queue|]))
  {
    StartIsGood(compose, blank);
    NeverLosesIff(compose, blank, Start(), actions);
    RunsLoseNothingIff(compose, blank, Start(), actions);
    if NeverDropsPopped(compose, blank, Start(), actions) {
      RunsRefineLog(compose, blank, Start(), actions);
    }
  }
}
