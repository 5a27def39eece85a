/** When a teardown ends, and the one way it can wait for ever. */
module ScopeProgress {
  import opened Sequences
  import opened ScopeMachine
  import opened ScopeRuns
  import opened ScopeClose

  function Cost(batch: seq<Undo>): (n: nat) {
    if batch == [] then 0 else Cost(batch[..|batch| - 1]) + 1 + batch[|batch| - 1].suspensions
  }

  /** Turns the undos of the running teardown still take. */
  function Work(s: Scope): (n: nat)
    requires s.running.Some? && 0 < s.running.value.left <= |s.running.value.batch|
  {
    s.running.value.pending + 1 + Cost(s.running.value.batch[..s.running.value.left - 1])
  }

  /** The turns taken by undos. */
  function UndoTurns(es: seq<Event>): (n: nat) {
    if es == [] then 0
    else (if es[0].Advance? || es[0].AwaitCall? then 1 else 0) + UndoTurns(es[1..])
  }

  lemma StepWork(s: Scope, e: Event)
    requires Inv(s) && s.running.Some? && Enabled(s, e)
    ensures var s' := Step(s, e);
            if e.Advance? || e.AwaitCall? then
              if Work(s) == 1 then s'.running.None? else s'.running.Some? && Work(s') == Work(s) - 1
            else s'.running == s.running
  {
    if e.Advance? && s.running.value.pending == 0 && s.running.value.left > 1 {
      var t := s.running.value;
      var todo := t.batch[..t.left - 1];
      assert todo[..|todo| - 1] == t.batch[..t.left - 2];
    }
  }

  /** However the scheduler mixes in registrations, calls, waiters and
      cancellations, a teardown is over after exactly `Work` turns of its undos:
      not before, and no step of anyone else adds to them. */
  lemma {:induction false} TeardownEndsExactly(s: Scope, es: seq<Event>)
    requires Inv(s) && s.running.Some? && Legal(s, es) && RunsThroughout(s, es)
    ensures UndoTurns(es) <= Work(s)
    ensures Run(s, es).running.None? <==> UndoTurns(es) == Work(s)
    ensures Run(s, es).running.None? ==>
              !Run(s, es).tearingDown && Run(s, es).closing.None?
              && Run(s, es).executed == FlatReversed(s.batches)
    decreases es
  {
    if es != [] {
      var s' := Step(s, es[0]);
      StepInv(s, es[0]);
      StepWork(s, es[0]);
      if es[1..] != [] {
        TeardownEndsExactly(s', es[1..]);
      } else {
        assert Run(s, es) == s';
        assert UndoTurns(es[1..]) == 0;
      }
    }
    RunInv(s, es);
    OneTeardown(s, es);
  }

  lemma {:induction false} GatedTeardownLeavesEmpty(s: Scope, es: seq<Event>)
    requires Inv(s) && s.running.Some? && s.undo == []
    requires Legal(s, es) && RunsThroughout(s, es) && Gated(s, es)
    ensures Run(s, es).undo == []
    decreases es
  {
    if es != [] {
      StepInv(s, es[0]);
      if es[1..] != [] { GatedTeardownLeavesEmpty(Step(s, es[0]), es[1..]); }
    }
  }

  /** The current undo waits for a close() call that waits for this very teardown. */
  ghost predicate SelfWaiting(s: Scope) {
    && s.running.Some? && s.running.value.awaited.Some?
    && var c := s.running.value.awaited.value;
       c in s.waiting && s.waiting[c] == s.running.value.id
  }

  /** A running teardown can take its next turn, at once or after the call its undo
      awaits resumes, exactly when it does not wait for itself. */
  lemma ProceedsIffNotSelfWaiting(s: Scope)
    requires Inv(s) && s.running.Some?
    ensures !SelfWaiting(s) <==>
            || Enabled(s, Advance)
            || exists c :: Enabled(s, Resume(c)) && Enabled(Step(s, Resume(c)), Advance)
  {
    if !Enabled(s, Advance) && !SelfWaiting(s) {
      var c := s.running.value.awaited.value;
      assert Enabled(s, Resume(c)) && Enabled(Step(s, Resume(c)), Advance);
    }
  }

  /** The undos alone bring every teardown that does not wait for itself to its
      end. */
  lemma {:induction false} CanEnd(s: Scope) returns (es: seq<Event>)
    requires Inv(s) && s.running.Some? && !SelfWaiting(s)
    ensures Legal(s, es) && RunsThroughout(s, es)
    ensures Run(s, es).running.None? && Run(s, es).executed == FlatReversed(s.batches)
    decreases Work(s), if Runnable(s) then 0 else 1
  {
    if Runnable(s) {
      var s' := Step(s, Advance);
      StepInv(s, Advance);
      StepWork(s, Advance);
      if s'.running.None? {
        es := [Advance];
        assert es[1..] == [];
      } else {
        var rest := CanEnd(s');
        es := [Advance] + rest;
        assert es[1..] == rest;
      }
    } else {
      var c := s.running.value.awaited.value;
      var s' := Step(s, Resume(c));
      StepInv(s, Resume(c));
      var rest := CanEnd(s');
      es := [Resume(c)] + rest;
      assert es[1..] == rest;
    }
  }

  /** A teardown that waits for itself makes no progress until somebody cancels the
      call its undo awaits. */
  lemma {:induction false} SelfWaitIsForEver(s: Scope, es: seq<Event>)
    requires Inv(s) && SelfWaiting(s) && Legal(s, es)
    requires Cancel(s.running.value.awaited.value) !in es
    ensures SelfWaiting(Run(s, es)) && Run(s, es).running == s.running
    ensures Run(s, es).executed == s.executed && Run(s, es).tearingDown
    decreases es
  {
    if es != [] {
      assert es[0] in es;
      StepInv(s, es[0]);
      SelfWaitIsForEver(Step(s, es[0]), es[1..]);
    }
  }

  /** Such a teardown is reached from an unused scope: an undo that suspends twice calls
      close() after its first suspension and awaits it. */
  lemma SelfWaitingIsReached(slot: nat, closure: nat)
    ensures var es := [Track(Undo(slot, closure, 2, 0)), Close(0, true), Advance, Close(1, true), AwaitCall(1)];
            Legal(FRESH, es) && SelfWaiting(Run(FRESH, es)) && Inv(Run(FRESH, es))
  {
    var s1 := Step(FRESH, Track(Undo(slot, closure, 2, 0)));
    var s2 := Step(s1, Close(0, true));
    var s3 := Step(s2, Advance);
    var s4 := Step(s3, Close(1, true));
    var s5 := Step(s4, AwaitCall(1));
    assert Legal(s5, []) && Run(s5, []) == s5;
    Unroll(s4, AwaitCall(1), []);
    Unroll(s3, Close(1, true), [AwaitCall(1)]);
    Unroll(s2, Advance, [Close(1, true), AwaitCall(1)]);
    Unroll(s1, Close(0, true), [Advance, Close(1, true), AwaitCall(1)]);
    var es := [Track(Undo(slot, closure, 2, 0)), Close(0, true), Advance, Close(1, true), AwaitCall(1)];
    Unroll(FRESH, es[0], es[1..]);
    assert es == [es[0]] + es[1..];
    FreshInv();
    RunInv(FRESH, es);
  }

  /** No undo suspends on a call that waits for the undo's own teardown. */
  ghost predicate NoSelfWait(s: Scope, es: seq<Event>)
    requires Legal(s, es)
    decreases es
  {
    es == [] ||
    ((es[0].AwaitCall? ==> s.waiting[es[0].call] != s.running.value.id)
     && NoSelfWait(Step(s, es[0]), es[1..]))
  }

  lemma {:induction false} NeverSelfWaiting(s: Scope, es: seq<Event>)
    requires Inv(s) && !SelfWaiting(s) && Legal(s, es) && NoSelfWait(s, es)
    ensures !SelfWaiting(Run(s, es))
    decreases es
  {
    if es != [] {
      StepInv(s, es[0]);
      StepNotSelfWaiting(s, es[0]);
      NeverSelfWaiting(Step(s, es[0]), es[1..]);
    }
  }

  lemma StepNotSelfWaiting(s: Scope, e: Event)
    requires Inv(s) && !SelfWaiting(s) && Enabled(s, e)
    requires e.AwaitCall? ==> s.waiting[e.call] != s.running.value.id
    ensures !SelfWaiting(Step(s, e))
  {
  }

  /** A close() made from the synchronous part of the teardown returns at once, so
      it can never be what the teardown waits for. */
  lemma SynchronousReentryReturns(s: Scope, c: Call)
    requires Inv(s) && s.running.Some? && s.running.value.sync && Enabled(s, Close(c, true))
    ensures Step(s, Close(c, true)) == s.(returned := s.returned[c := Reentrant])
    ensures !Enabled(Step(s, Close(c, true)), AwaitCall(c))
  {
  }
}
