/** What every run of the close / reopen machine keeps. */
module ScopeRuns {
  import opened Sequences
  import opened ScopeMachine

  /** One teardown at most; `closing` is set exactly while a suspended one runs,
      and `tearingDown` without `closing` is its synchronous part. */
  ghost predicate FlagsAgree(s: Scope) {
    && (s.tearingDown <==> s.running.Some?)
    && s.closing ==
       (if s.running.Some? && !s.running.value.sync then Some(s.running.value.id) else None)
  }

  ghost predicate FrameAgrees(s: Scope) {
    s.running.Some? ==>
      var t := s.running.value;
      && |s.batches| == t.id + 1 && s.batches[t.id] == t.batch
      && 0 < t.left <= |t.batch|
      && t.pending <= t.batch[t.left - 1].suspensions
      && (t.sync ==> t.awaited.None?)
  }

  /** The finished undos, followed by those still to run, are the detached lists
      one after the other, each one last first. */
  ghost predicate HistoryAgrees(s: Scope) {
    s.executed + Reversed(Remaining(s)) == FlatReversed(s.batches)
  }

  ghost predicate CallsAgree(s: Scope) {
    && s.waiting.Keys !! s.returned.Keys
    && (forall c <- s.waiting :: s.waiting[c] < |s.batches|)
    && (s.running.Some? && s.running.value.sync ==>
          && s.running.value.starter !in s.waiting && s.running.value.starter !in s.returned
          && forall c <- s.waiting :: s.waiting[c] != s.running.value.id)
    && (s.running.Some? && !s.running.value.sync ==>
          s.running.value.starter in s.waiting || s.running.value.starter in s.returned)
    && (s.running.Some? && s.running.value.awaited.Some? ==>
          var c := s.running.value.awaited.value;
          c in s.waiting || c in s.returned)
  }

  ghost predicate Inv(s: Scope) {
    FlagsAgree(s) && FrameAgrees(s) && HistoryAgrees(s) && CallsAgree(s)
  }

  lemma FreshInv()
    ensures Inv(FRESH)
  {
  }

  lemma FinishKeepsHistory(s: Scope)
    requires Inv(s) && s.running.Some?
    ensures HistoryAgrees(FinishUndo(s))
  {
    var t := s.running.value;
    var todo := t.batch[..t.left];
    assert todo[..|todo| - 1] == t.batch[..t.left - 1];
    assert Reversed(todo) == [t.batch[t.left - 1]] + Reversed(t.batch[..t.left - 1]);
    assert s.executed + Reversed(todo)
           == (s.executed + [t.batch[t.left - 1]]) + Reversed(t.batch[..t.left - 1]);
  }

  lemma StartKeepsHistory(s: Scope, c: Call)
    requires Inv(s) && !s.tearingDown
    ensures HistoryAgrees(StartTeardown(s, c))
  {
    FlatSnoc(s.batches, s.undo);
    assert s.undo[..|s.undo|] == s.undo;
  }

  lemma StepKeepsHistory(s: Scope, e: Event)
    requires Inv(s) && Enabled(s, e)
    ensures HistoryAgrees(Step(s, e))
  {
    match e
    case Close(c, owner) => if owner && !s.tearingDown { StartKeepsHistory(s, c); }
    case Advance => if s.running.value.pending == 0 { FinishKeepsHistory(s); }
    case _ =>
  }

  lemma StepKeepsFrame(s: Scope, e: Event)
    requires FlagsAgree(s) && FrameAgrees(s) && Enabled(s, e)
    ensures FlagsAgree(Step(s, e)) && FrameAgrees(Step(s, e))
  {
  }

  lemma StepKeepsCalls(s: Scope, e: Event)
    requires FlagsAgree(s) && FrameAgrees(s) && CallsAgree(s) && Enabled(s, e)
    ensures CallsAgree(Step(s, e))
  {
  }

  lemma StepInv(s: Scope, e: Event)
    requires Inv(s) && Enabled(s, e)
    ensures Inv(Step(s, e))
  {
    StepKeepsHistory(s, e);
    StepKeepsFrame(s, e);
    StepKeepsCalls(s, e);
  }

  lemma {:induction false} RunInv(s: Scope, es: seq<Event>)
    requires Inv(s) && Legal(s, es)
    ensures Inv(Run(s, es))
    decreases es
  {
    if es != [] {
      StepInv(s, es[0]);
      RunInv(Step(s, es[0]), es[1..]);
    }
  }

  lemma StepTracked(s: Scope, e: Event)
    requires Inv(s) && Enabled(s, e)
    ensures Flat(Step(s, e).batches) + Step(s, e).undo
            == Flat(s.batches) + s.undo + Accepted(s, [e])
  {
    hide Inv;
    assert [e][1..] == [];
    assert Accepted(Step(s, e), []) == [];
    match e
    case Close(c, owner) => if owner && !s.tearingDown { FlatSnoc(s.batches, s.undo); }
    case _ =>
  }

  lemma AcceptedNone(s: Scope)
    ensures Accepted(s, []) == []
  {
  }

  lemma AcceptedSplit(s: Scope, es: seq<Event>)
    requires es != [] && Legal(s, es)
    ensures Accepted(s, es) == Accepted(s, [es[0]]) + Accepted(Step(s, es[0]), es[1..])
  {
    hide Step, Enabled;
    AcceptedNone(Step(s, es[0]));
    var one := [es[0]];
    assert one[1..] == [] && Legal(s, one);
    assert Accepted(s, one) + Accepted(Step(s, es[0]), es[1..]) == Accepted(s, es);
  }

  lemma {:induction false} RunTracked(s: Scope, es: seq<Event>)
    requires Inv(s) && Legal(s, es)
    ensures Flat(Run(s, es).batches) + Run(s, es).undo
            == Flat(s.batches) + s.undo + Accepted(s, es)
    decreases es
  {
    hide Inv, Step, Enabled, Flat, Accepted;
    if es == [] {
      AcceptedNone(s);
    } else {
      var s' := Step(s, es[0]);
      StepTracked(s, es[0]);
      StepInv(s, es[0]);
      RunTracked(s', es[1..]);
      AcceptedSplit(s, es);
    }
  }

  /** Whatever the schedule: the detached lists cut what was registered into
      consecutive pieces and the pending list holds the rest, so nothing is lost
      or registered twice across reopenings; and what has finished, followed by
      what the running teardown still owes, is those pieces one after the other,
      each run newest first. */
  lemma ExecutionOrder(es: seq<Event>)
    requires Legal(FRESH, es)
    ensures var s := Run(FRESH, es);
            && Flat(s.batches) + s.undo == Accepted(FRESH, es)
            && s.executed + Reversed(Remaining(s)) == FlatReversed(s.batches)
            && (!s.tearingDown ==> s.executed == FlatReversed(s.batches))
            && |s.executed| + |Remaining(s)| + |s.undo| == |Accepted(FRESH, es)|
  {
    FreshInv();
    RunInv(FRESH, es);
    RunTracked(FRESH, es);
    FlatSameLength(Run(FRESH, es).batches);
    assert Flat(FRESH.batches) + FRESH.undo == [];
  }
}
