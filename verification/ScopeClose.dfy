/** What a close() call promises to its caller, and when a teardown ends. */
module ScopeClose {
  import opened Sequences
  import opened ScopeMachine
  import opened ScopeRuns

  /** The first `n` undos registered have all finished: they lie in the first `t`
      detached lists, and everything in those lists has run. */
  ghost predicate FinishedUpTo(s: Scope, n: nat) {
    exists t: nat :: t <= |s.batches| && n <= |Flat(s.batches[..t])| <= |s.executed|
  }

  lemma FinishedMeansRun(s: Scope, n: nat)
    requires Inv(s) && FinishedUpTo(s, n)
    ensures exists t: nat :: t <= |s.batches| && n <= |Flat(s.batches[..t])|
                             && FlatReversed(s.batches[..t]) <= s.executed
  {
    var t: nat :| t <= |s.batches| && n <= |Flat(s.batches[..t])| <= |s.executed|;
    FlatPrefix(s.batches, t);
    FlatSameLength(s.batches[..t]);
    assert FlatReversed(s.batches[..t]) <= s.executed + Reversed(Remaining(s));
    assert FlatReversed(s.batches[..t]) == (s.executed + Reversed(Remaining(s)))[..|Flat(s.batches[..t])|];
    assert FlatReversed(s.batches[..t]) <= s.executed;
  }

  ghost function Registered(s: Scope): (n: nat) {
    |Flat(s.batches)| + |s.undo|
  }

  lemma FlatMonotone(batches: seq<seq<Undo>>, t: nat, t': nat)
    requires t <= t' <= |batches|
    ensures |Flat(batches[..t])| <= |Flat(batches[..t'])|
  {
    FlatPrefix(batches[..t'], t);
    assert batches[..t'][..t] == batches[..t];
  }

  /** How much has finished while teardown `t.id` runs. */
  lemma ExecutedLength(s: Scope)
    requires Inv(s)
    ensures |s.executed| + |Remaining(s)| == |Flat(s.batches)|
    ensures s.running.Some? ==>
              |Flat(s.batches[..s.running.value.id])| + |s.running.value.batch| == |Flat(s.batches)|
  {
    FlatSameLength(s.batches);
    assert |s.executed + Reversed(Remaining(s))| == |FlatReversed(s.batches)|;
    if s.running.Some? {
      var id := s.running.value.id;
      assert s.batches == s.batches[..id] + [s.batches[id]];
      FlatSnoc(s.batches[..id], s.batches[id]);
    }
  }

  lemma FinishedKeeps(s: Scope, e: Event, n: nat)
    requires Inv(s) && Enabled(s, e) && FinishedUpTo(s, n)
    ensures FinishedUpTo(Step(s, e), n)
  {
    var t: nat :| t <= |s.batches| && n <= |Flat(s.batches[..t])| <= |s.executed|;
    assert Step(s, e).batches[..t] == s.batches[..t];
    assert |Step(s, e).executed| >= |s.executed|;
  }

  /** Every undo of a teardown that is over, or of an earlier one, has finished. */
  lemma EndedMeansFinished(s: Scope, t: nat)
    requires Inv(s) && t < |s.batches|
    requires s.running.Some? ==> s.running.value.id != t
    ensures |Flat(s.batches[..t + 1])| <= |s.executed|
  {
    ExecutedLength(s);
    if s.running.Some? {
      FlatMonotone(s.batches, t + 1, s.running.value.id);
    } else {
      FlatMonotone(s.batches, t + 1, |s.batches|);
      assert s.batches[..|s.batches|] == s.batches;
    }
  }

  /** What is known of a call made when `n` undos were registered and none of them
      could be missed: it waits for a teardown that covers them, or they are done. */
  ghost predicate CallCovers(s: Scope, c: Call, n: nat) {
    && (c in s.waiting ==>
          s.waiting[c] < |s.batches| && n <= |Flat(s.batches[..s.waiting[c] + 1])|)
    && (c in s.returned && s.returned[c] in {Completed, Joined} ==> FinishedUpTo(s, n))
    && (c !in s.waiting && c !in s.returned ==>
          && s.running.Some? && s.running.value.sync && s.running.value.starter == c
          && n <= |Flat(s.batches)|)
  }

  lemma FinishCovers(s: Scope, c: Call, n: nat)
    requires Inv(s) && s.running.Some? && CallCovers(s, c, n)
    ensures CallCovers(FinishUndo(s), c, n)
  {
    var s' := FinishUndo(s);
    if c in s.returned && s.returned[c] in {Completed, Joined} {
      var t: nat :| t <= |s.batches| && n <= |Flat(s.batches[..t])| <= |s.executed|;
      assert FinishedUpTo(s', n);
    }
    if s'.running.None? && c !in s.waiting && c !in s.returned {
      ExecutedLength(s);
      assert s'.batches[..|s'.batches|] == s'.batches;
      assert n <= |Flat(s'.batches[..|s'.batches|])| <= |s'.executed|;
    }
  }

  lemma CloseCovers(s: Scope, d: Call, owner: bool, c: Call, n: nat)
    requires Inv(s) && Enabled(s, Close(d, owner)) && CallCovers(s, c, n)
    ensures CallCovers(Step(s, Close(d, owner)), c, n)
  {
    var s' := Step(s, Close(d, owner));
    assert s'.batches[..|s.batches|] == s.batches;
    if c in s.waiting {
      assert s'.batches[..s.waiting[c] + 1] == s.batches[..s.waiting[c] + 1];
    }
    if FinishedUpTo(s, n) {
      FinishedKeeps(s, Close(d, owner), n);
    }
  }

  lemma StepCovers(s: Scope, e: Event, c: Call, n: nat)
    requires Inv(s) && Enabled(s, e) && CallCovers(s, c, n)
    ensures CallCovers(Step(s, e), c, n)
  {
    match e
    case Track(_) => if FinishedUpTo(s, n) { FinishedKeeps(s, e, n); }
    case Register(_, _) => if FinishedUpTo(s, n) { FinishedKeeps(s, e, n); }
    case Close(d, owner) => CloseCovers(s, d, owner, c, n);
    case Advance =>
      if s.running.value.pending == 0 { FinishCovers(s, c, n); } else { SuspendCovers(s, None, c, n); }
    case AwaitCall(d) => SuspendCovers(s, Some(d), c, n);
    case Resume(d) =>
      if FinishedUpTo(s, n) { FinishedKeeps(s, e, n); }
      if c == d {
        EndedMeansFinished(s, s.waiting[c]);
        assert n <= |Flat(s.batches[..s.waiting[c] + 1])| <= |s.executed|;
      }
    case Cancel(d) => if FinishedUpTo(s, n) { FinishedKeeps(s, e, n); }
  }

  lemma SuspendCovers(s: Scope, awaited: Option<Call>, c: Call, n: nat)
    requires Inv(s) && s.running.Some? && s.running.value.pending > 0 && CallCovers(s, c, n)
    ensures CallCovers(SuspendUndo(s, awaited), c, n)
  {
    hide HistoryAgrees;
    var s' := SuspendUndo(s, awaited);
    assert s'.batches[..s.running.value.id + 1] == s.batches;
    if FinishedUpTo(s, n) {
      var t: nat :| t <= |s.batches| && n <= |Flat(s.batches[..t])| <= |s.executed|;
      assert FinishedUpTo(s', n);
    }
  }

  lemma {:induction false} RunCovers(s: Scope, es: seq<Event>, c: Call, n: nat)
    requires Inv(s) && Legal(s, es) && CallCovers(s, c, n)
    ensures CallCovers(Run(s, es), c, n)
    decreases es
  {
    if es != [] {
      StepCovers(s, es[0], c, n);
      StepInv(s, es[0]);
      RunCovers(Step(s, es[0]), es[1..], c, n);
    }
  }

  /** The call itself: it covers everything registered before it unless a teardown
      runs and the pending list is not empty. */
  lemma CallStartsCovered(s: Scope, c: Call)
    requires Inv(s) && Enabled(s, Close(c, true))
    requires s.tearingDown ==> s.undo == []
    ensures CallCovers(Step(s, Close(c, true)), c, Registered(s))
  {
    var s' := Step(s, Close(c, true));
    FlatSnoc(s.batches, s.undo);
    assert s'.batches[..|s'.batches|] == s'.batches;
    if !s.tearingDown && s.undo == [] {
      assert Flat(s.batches) + [] == Flat(s.batches);
      ExecutedLength(s);
      assert Registered(s) <= |Flat(s'.batches[..|s'.batches|])| <= |s'.executed|;
    }
  }

  /** A close() that returns because its teardown is over returns after every undo
      registered before the call has finished, provided that no undo was tracked
      into a scope that was already closing when the call was made. */
  lemma CloseReturnsAfterAll(before: seq<Event>, c: Call, after: seq<Event>)
    requires Legal(FRESH, before + [Close(c, true)] + after)
    requires Legal(FRESH, before)
    requires Run(FRESH, before).tearingDown ==> Run(FRESH, before).undo == []
    ensures var s := Run(FRESH, before + [Close(c, true)] + after);
            c in s.returned && s.returned[c] in {Completed, Joined} ==>
              FinishedUpTo(s, |Accepted(FRESH, before)|)
  {
    var s := Run(FRESH, before);
    var call := [Close(c, true)];
    FreshInv();
    RunInv(FRESH, before);
    RunTracked(FRESH, before);
    assert Flat(FRESH.batches) + FRESH.undo == [];
    RunConcat(FRESH, before + call, after);
    RunConcat(FRESH, before, call);
    assert Run(s, call) == Step(s, call[0]) by { assert call[1..] == []; }
    CallStartsCovered(s, c);
    StepInv(s, call[0]);
    RunCovers(Run(s, call), after, c, Registered(s));
  }

  /** The teardown that runs at `s` also runs before each of the events. */
  ghost predicate RunsThroughout(s: Scope, es: seq<Event>)
    requires Legal(s, es)
    decreases es
  {
    es == [] || (s.running.Some? && RunsThroughout(Step(s, es[0]), es[1..]))
  }

  lemma {:induction false} OneTeardown(s: Scope, es: seq<Event>)
    requires Inv(s) && s.running.Some? && Legal(s, es) && RunsThroughout(s, es)
    ensures Run(s, es).batches == s.batches
    decreases es
  {
    if es != [] {
      StepInv(s, es[0]);
      if es[1..] != [] { OneTeardown(Step(s, es[0]), es[1..]); }
    }
  }

  /** Exactly when the promise holds for a call that joins: when the teardown it
      joined ends, all the undos registered before the call have finished if and
      only if the pending list was empty at the call. An undo tracked into a
      closing scope waits for the next close. */
  lemma JoinCoversIffNothingPending(s: Scope, es: seq<Event>)
    requires Inv(s) && s.closing.Some?
    requires Legal(s, es) && RunsThroughout(s, es) && Run(s, es).running.None?
    ensures FinishedUpTo(Run(s, es), Registered(s)) <==> s.undo == []
  {
    var end := Run(s, es);
    OneTeardown(s, es);
    RunInv(s, es);
    ExecutedLength(end);
    assert end.batches[..|end.batches|] == end.batches;
    if s.undo == [] {
      assert Registered(s) <= |Flat(end.batches[..|end.batches|])| <= |end.executed|;
    } else {
      forall t: nat | t <= |end.batches|
        ensures |Flat(end.batches[..t])| <= |end.executed|
      {
        FlatMonotone(end.batches, t, |end.batches|);
      }
    }
  }

  /** What a close() call does, told by the flags and the pending list alone. It returns in
      its own step off the owning thread, or with nothing recorded, or from the synchronous
      part of the running teardown, and only then; with a suspended teardown it waits for
      that one and changes nothing else; and otherwise it starts one. */
  lemma CloseCallOutcome(s: Scope, c: Call, owner: bool)
    requires Inv(s) && Enabled(s, Close(c, owner))
    ensures var s' := Step(s, Close(c, owner));
            && (c in s'.returned <==>
                  || !owner
                  || (!s.tearingDown && s.undo == [])
                  || (s.running.Some? && s.running.value.sync))
            && (c in s'.waiting <==> owner && s.closing.Some?)
            && (owner && s.closing.Some? ==> s' == s.(waiting := s.waiting[c := s.closing.value]))
            && (c in s'.returned && (!owner || s.tearingDown) ==> s' == s.(returned := s.returned[c := s'.returned[c]]))
            && (owner && !s.tearingDown ==> s'.undo == [] && s'.batches == s.batches + [s.undo])
            && (owner && !s.tearingDown && s.undo != [] ==>
                  && s'.tearingDown && s'.running.Some? && s'.running.value.starter == c
                  && s'.running.value.batch == s.undo && s'.running.value.left == |s.undo|)
  {
  }

  /** A waiter can resume exactly when the teardown it waits for is over, and can give up at
      any time. */
  lemma WaiterCanLeave(s: Scope, c: Call)
    requires Inv(s) && c in s.waiting
    ensures Enabled(s, Resume(c)) <==> s.closing != Some(s.waiting[c])
    ensures Enabled(s, Cancel(c))
    ensures !s.tearingDown ==> Enabled(s, Resume(c)) && c in Step(s, Resume(c)).returned
  {
  }

  /** The call waits, or started the synchronous teardown that runs, or is back for good. */
  ghost predicate NotGivenUp(s: Scope, c: Call) {
    c in s.returned ==> s.returned[c] in {Completed, Joined}
  }

  lemma StepNotGivenUp(s: Scope, e: Event, c: Call)
    requires Inv(s) && Enabled(s, e) && e != Cancel(c) && Used(s, c) && NotGivenUp(s, c)
    ensures Used(Step(s, e), c) && NotGivenUp(Step(s, e), c)
  {
    hide HistoryAgrees;
  }

  lemma {:induction false} RunNotGivenUp(s: Scope, es: seq<Event>, c: Call)
    requires Inv(s) && Legal(s, es) && Cancel(c) !in es && Used(s, c) && NotGivenUp(s, c)
    ensures NotGivenUp(Run(s, es), c)
    decreases es
  {
    if es != [] {
      assert es[0] in es;
      StepNotGivenUp(s, es[0], c);
      StepInv(s, es[0]);
      RunNotGivenUp(Step(s, es[0]), es[1..], c);
    }
  }

  /** The promise of close(), told by the events: an owner's call that is not made from the
      synchronous part of a teardown, and is not cancelled, is back only after every undo
      registered before it has finished, if nothing was pending in a closing scope. */
  lemma CloseIsBackOnlyAfterAll(before: seq<Event>, c: Call, after: seq<Event>)
    requires Legal(FRESH, before + [Close(c, true)] + after)
    requires Legal(FRESH, before) && Cancel(c) !in after
    requires var s := Run(FRESH, before);
             (s.tearingDown ==> s.undo == []) && !(s.running.Some? && s.running.value.sync)
    ensures var s := Run(FRESH, before + [Close(c, true)] + after);
            c in s.returned ==> FinishedUpTo(s, |Accepted(FRESH, before)|)
  {
    var s := Run(FRESH, before);
    var call := [Close(c, true)];
    CloseReturnsAfterAll(before, c, after);
    FreshInv();
    RunInv(FRESH, before);
    RunConcat(FRESH, before + call, after);
    RunConcat(FRESH, before, call);
    assert Run(s, call) == Step(s, call[0]) by { assert call[1..] == []; }
    CloseCallOutcome(s, c, true);
    StepInv(s, call[0]);
    CallIsUsed(s, c);
    RunNotGivenUp(Run(s, call), after, c);
  }

  lemma CallIsUsed(s: Scope, c: Call)
    requires Inv(s) && Enabled(s, Close(c, true)) && !(s.running.Some? && s.running.value.sync)
    ensures Used(Step(s, Close(c, true)), c) && NotGivenUp(Step(s, Close(c, true)), c)
  {
  }

  /** A run from an unused scope in which the promise fails: an undo is tracked while the
      scope closes, the close() made after it joins, and returns with that undo not run. */
  lemma LateTrackIsMissed(u: Undo, late: Undo)
    requires u.suspensions == 1
    ensures var es := [Track(u), Close(0, true), Advance, Track(late), Close(1, true), Advance, Resume(1)];
            && Legal(FRESH, es) && Legal(FRESH, es[..4]) && Accepted(FRESH, es[..4]) == [u, late]
            && var s := Run(FRESH, es);
               && 1 in s.returned && s.returned[1] == Joined
               && s.executed == [u] && s.undo == [late] && !s.tearingDown && !FinishedUpTo(s, 2)
  {
    var es := [Track(u), Close(0, true), Advance, Track(late), Close(1, true), Advance, Resume(1)];
    var s1, s2, s3, s4, s5, s6 := MissedStates(u, late);
    MissedRun(s1, s2, s3, s4, s5, s6, late);
    MissedAccepted(u, late);
    var s7 := Step(s6, Resume(1));
    OneFinished(s7, u);
    hide Step, Enabled, FinishedUpTo, Flat, Accepted;
    assert es == [es[0]] + es[1..] && es[1..] == [Close(0, true), Advance, Track(late), Close(1, true), Advance, Resume(1)];
    Unroll(FRESH, es[0], es[1..]);
    assert es[..4] == [Track(u), Close(0, true), Advance, Track(late)];
  }

  lemma OneFinished(s: Scope, u: Undo)
    requires s.batches == [[u]]
    ensures !FinishedUpTo(s, 2)
  {
    assert [[u]] == [] + [[u]];
    FlatSnoc([], [u]);
    forall t: nat | t <= |s.batches|
      ensures |Flat(s.batches[..t])| <= 1
    {
      FlatMonotone(s.batches, t, 1);
      assert s.batches[..1] == [[u]];
    }
  }

  /** `u` has suspended, and call 0 waits for the teardown that runs it. */
  function Suspended(u: Undo): (s: Scope) {
    Scope([], true, Some(0), Some(Teardown(0, 0, [u], 1, 0, false, None)), map[0 := 0], map[], [], [[u]])
  }

  lemma FirstStates(u: Undo) returns (s1: Scope, s2: Scope)
    requires u.suspensions == 1
    ensures Enabled(FRESH, Track(u)) && s1 == Step(FRESH, Track(u))
    ensures Enabled(s1, Close(0, true)) && s2 == Step(s1, Close(0, true))
    ensures Enabled(s2, Advance) && Step(s2, Advance) == Suspended(u)
  {
    s1 := FRESH.(undo := [u]);
    s2 := s1.(undo := [], tearingDown := true, batches := [[u]],
              running := Some(Teardown(0, 0, [u], 1, 1, true, None)));
    assert Step(FRESH, Track(u)) == s1 by { assert [] + [u] == [u]; }
    assert Step(s1, Close(0, true)) == s2 by { assert [] + [[u]] == [[u]]; }
    assert Step(s2, Advance) == SuspendUndo(s2, None);
  }

  lemma MissedStates(u: Undo, late: Undo)
    returns (s1: Scope, s2: Scope, s3: Scope, s4: Scope, s5: Scope, s6: Scope)
    requires u.suspensions == 1
    ensures Enabled(FRESH, Track(u)) && s1 == Step(FRESH, Track(u))
    ensures Enabled(s1, Close(0, true)) && s2 == Step(s1, Close(0, true))
    ensures Enabled(s2, Advance) && s3 == Step(s2, Advance)
    ensures Enabled(s3, Track(late)) && s4 == Step(s3, Track(late))
    ensures Enabled(s4, Close(1, true)) && s5 == Step(s4, Close(1, true))
    ensures Enabled(s5, Advance) && s6 == Step(s5, Advance) && Enabled(s6, Resume(1))
    ensures s6.executed == [u] && s6.undo == [late] && s6.batches == [[u]] && !s6.tearingDown
  {
    s1, s2 := FirstStates(u);
    s3 := Suspended(u);
    s4, s5, s6 := LastStates(u, late);
  }

  lemma LastStates(u: Undo, late: Undo) returns (s4: Scope, s5: Scope, s6: Scope)
    ensures Enabled(Suspended(u), Track(late)) && s4 == Step(Suspended(u), Track(late))
    ensures Enabled(s4, Close(1, true)) && s5 == Step(s4, Close(1, true))
    ensures Enabled(s5, Advance) && s6 == Step(s5, Advance) && Enabled(s6, Resume(1))
    ensures s6.executed == [u] && s6.undo == [late] && s6.batches == [[u]] && !s6.tearingDown
  {
    s4 := Suspended(u).(undo := [late]);
    s5 := s4.(waiting := map[0 := 0, 1 := 0]);
    s6 := s5.(executed := [u], running := None, closing := None, tearingDown := false);
    assert [] + [u] == [u];
  }

  lemma MissedAccepted(u: Undo, late: Undo)
    requires u.suspensions == 1
    ensures var es := [Track(u), Close(0, true), Advance, Track(late)];
            Legal(FRESH, es) && Accepted(FRESH, es) == [u, late]
  {
    var s1 := Step(FRESH, Track(u));
    var s2 := Step(s1, Close(0, true));
    var s3 := Step(s2, Advance);
    var s4 := Step(s3, Track(late));
    var es := [Track(u), Close(0, true), Advance, Track(late)];
    var e3 := [Track(late)];
    assert e3[1..] == [] && Legal(s4, []) && Accepted(s4, []) == [];
    assert Legal(s3, e3) && Accepted(s3, e3) == [late];
    var e2 := [Advance, Track(late)];
    assert e2[1..] == e3;
    assert Legal(s2, e2) && Accepted(s2, e2) == [late];
    var e1 := [Close(0, true), Advance, Track(late)];
    assert e1[1..] == e2;
    assert Legal(s1, e1) && Accepted(s1, e1) == [late];
    assert es[1..] == e1;
  }

  lemma MissedRun(s1: Scope, s2: Scope, s3: Scope, s4: Scope, s5: Scope, s6: Scope, late: Undo)
    requires Enabled(s1, Close(0, true)) && s2 == Step(s1, Close(0, true))
    requires Enabled(s2, Advance) && s3 == Step(s2, Advance)
    requires Enabled(s3, Track(late)) && s4 == Step(s3, Track(late))
    requires Enabled(s4, Close(1, true)) && s5 == Step(s4, Close(1, true))
    requires Enabled(s5, Advance) && s6 == Step(s5, Advance) && Enabled(s6, Resume(1))
    ensures var es := [Close(0, true), Advance, Track(late), Close(1, true), Advance, Resume(1)];
            Legal(s1, es) && Run(s1, es) == Step(s6, Resume(1))
  {
    hide Step, Enabled;
    var s7 := Step(s6, Resume(1));
    assert Legal(s7, []) && Run(s7, []) == s7;
    Unroll(s6, Resume(1), []);
    Unroll(s5, Advance, [Resume(1)]);
    Unroll(s4, Close(1, true), [Advance, Resume(1)]);
    Unroll(s3, Track(late), [Close(1, true), Advance, Resume(1)]);
    Unroll(s2, Advance, [Track(late), Close(1, true), Advance, Resume(1)]);
    Unroll(s1, Close(0, true), [Advance, Track(late), Close(1, true), Advance, Resume(1)]);
  }

  /** When every registration goes through an overload that tests isOpen, a
      closing scope has nothing pending: the promise above holds for every call,
      and a teardown leaves the scope empty. */
  lemma {:induction false} GatedHasNothingPending(s: Scope, es: seq<Event>)
    requires Inv(s) && (s.tearingDown ==> s.undo == [])
    requires Legal(s, es) && Gated(s, es)
    ensures Run(s, es).tearingDown ==> Run(s, es).undo == []
    decreases es
  {
    if es != [] {
      StepInv(s, es[0]);
      GatedHasNothingPending(Step(s, es[0]), es[1..]);
    }
  }

  lemma GatedCloseReturnsAfterAll(before: seq<Event>, c: Call, after: seq<Event>)
    requires Legal(FRESH, before + [Close(c, true)] + after)
    requires Legal(FRESH, before) && Gated(FRESH, before)
    ensures var s := Run(FRESH, before + [Close(c, true)] + after);
            c in s.returned && s.returned[c] in {Completed, Joined} ==>
              FinishedUpTo(s, |Accepted(FRESH, before)|)
  {
    FreshInv();
    GatedHasNothingPending(FRESH, before);
    CloseReturnsAfterAll(before, c, after);
  }

  lemma GatedCloseIsBackOnlyAfterAll(before: seq<Event>, c: Call, after: seq<Event>)
    requires Legal(FRESH, before + [Close(c, true)] + after)
    requires Legal(FRESH, before) && Gated(FRESH, before) && Cancel(c) !in after
    requires var s := Run(FRESH, before); !(s.running.Some? && s.running.value.sync)
    ensures var s := Run(FRESH, before + [Close(c, true)] + after);
            c in s.returned ==> FinishedUpTo(s, |Accepted(FRESH, before)|)
  {
    FreshInv();
    GatedHasNothingPending(FRESH, before);
    CloseIsBackOnlyAfterAll(before, c, after);
  }
}
