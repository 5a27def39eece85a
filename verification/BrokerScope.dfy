/** The scope object: each method is what one task does between two suspension
    points, and moves the object along the machine of ScopeMachine. */
module BrokerScopes {
  import opened Sequences
  import opened ScopeMachine
  import opened ScopeClose
  import opened ScopeRuns

  lemma {:induction false} OneMoreEvent(s: Scope, es: seq<Event>, e: Event)
    requires Legal(s, es) && Enabled(Run(s, es), e)
    ensures Legal(s, es + [e]) && Run(s, es + [e]) == Step(Run(s, es), e)
    decreases es
  {
    if es == [] {
      assert [e][1..] == [] && [] + [e] == [e];
    } else {
      assert (es + [e])[1..] == es[1..] + [e];
      OneMoreEvent(Step(s, es[0]), es[1..], e);
    }
  }

  function Left(s: Scope): nat {
    if s.running.Some? then s.running.value.left else 0
  }

  predicate SameFrame(r: Teardown, t: Teardown) {
    r.id == t.id && r.starter == t.starter && r.batch == t.batch && r.sync == t.sync
  }

  /** What an undo may call on its own scope without waiting for it. */
  predicate CallBack(e: Event) {
    e.Track? || e.Register? || e.Close?
  }

  /** `s` is `b` after some undos of its teardown have run without suspending. */
  ghost predicate FinishedWithoutSuspending(b: Scope, s: Scope)
    requires b.running.Some? && 0 < b.running.value.left <= |b.running.value.batch|
  {
    var t := b.running.value;
    && Left(s) <= t.left
    && (Left(s) < t.left ==> t.pending == 0)
    && (forall i | Left(s) <= i < t.left - 1 :: t.batch[i].suspensions == 0)
    && s.executed == b.executed + Reversed(t.batch[Left(s)..t.left])
    && s.batches == b.batches
    && (s.running.Some? ==>
          && Runnable(s) && Left(s) > 0
          && SameFrame(s.running.value, t)
          && s.running.value.pending
             == (if Left(s) == t.left then t.pending else t.batch[Left(s) - 1].suspensions))
    && (s.running.None? && t.sync ==> t.starter in s.returned && s.returned[t.starter] == Completed)
  }

  lemma OneMoreExecuted(t: Teardown, left: nat, executed: seq<Undo>)
    requires 0 < left <= t.left <= |t.batch|
    ensures executed + Reversed(t.batch[left..t.left]) + [t.batch[left - 1]]
            == executed + Reversed(t.batch[left - 1..t.left])
  {
    var last := [t.batch[left - 1]];
    ReversedConcat(last, t.batch[left..t.left]);
    assert t.batch[left - 1..t.left] == last + t.batch[left..t.left];
    assert Reversed(last) == last + Reversed([]);
  }

  lemma FinishFields(s: Scope)
    requires Runnable(s) && 0 < s.running.value.left <= |s.running.value.batch| && s.running.value.pending == 0
    ensures Enabled(s, Advance)
    ensures var t, r := s.running.value, Step(s, Advance);
            && r.executed == s.executed + [t.batch[t.left - 1]]
            && r.batches == s.batches && (r.running.Some? ==> Runnable(r))
            && (t.left == 1 && t.sync ==> t.starter in r.returned && r.returned[t.starter] == Completed)
            && r.running == if t.left == 1 then None
                            else Some(t.(left := t.left - 1, pending := t.batch[t.left - 2].suspensions, awaited := None))
  {
  }

  lemma OneMoreFinished(b: Scope, s: Scope)
    requires b.running.Some? && 0 < b.running.value.left <= |b.running.value.batch|
    requires FinishedWithoutSuspending(b, s) && s.running.Some? && s.running.value.pending == 0
    ensures Enabled(s, Advance) && FinishedWithoutSuspending(b, Step(s, Advance))
  {
    hide Step, Enabled, Reversed, Runnable;
    var t := b.running.value;
    var r := s.running.value;
    assert SameFrame(r, t);
    FinishFields(s);
    OneMoreExecuted(t, r.left, b.executed);
    assert Left(Step(s, Advance)) == r.left - 1;
  }

  lemma CallBackFields(s: Scope, e: Event)
    requires s.running.Some? && s.tearingDown && Enabled(s, e) && CallBack(e)
    ensures Step(s, e).running == s.running && Step(s, e).executed == s.executed && Step(s, e).batches == s.batches
    ensures forall c <- s.returned :: c in Step(s, e).returned
  {
  }

  lemma CalledBack(b: Scope, s: Scope, e: Event)
    requires b.running.Some? && 0 < b.running.value.left <= |b.running.value.batch|
    requires FinishedWithoutSuspending(b, s) && s.running.Some? && s.tearingDown && Enabled(s, e) && CallBack(e)
    ensures FinishedWithoutSuspending(b, Step(s, e))
  {
    hide Step, Enabled;
    CallBackFields(s, e);
  }

  /** How a stretch that began in `b` ended, after these events. */
  ghost predicate StretchEnded(b: Scope, r: Scope, es: seq<Event>)
    requires b.running.Some? && 0 < b.running.value.left <= |b.running.value.batch|
  {
    && Legal(b, es) && r == Run(b, es)
    && if r.running.None? then FinishedWithoutSuspending(b, r) else SuspendedAfter(b, r)
  }

  ghost predicate SuspendedAfter(b: Scope, r: Scope)
    requires b.running.Some? && 0 < b.running.value.left <= |b.running.value.batch|
  {
    exists s, e :: FinishedWithoutSuspending(b, s) && Suspends(s, e, r)
  }

  /** The current undo suspends in this event. */
  ghost predicate Suspends(s: Scope, e: Event, r: Scope) {
    && s.running.Some? && s.running.value.pending > 0
    && (e.Advance? || e.AwaitCall?) && Enabled(s, e) && r == Step(s, e)
  }

  /** `s` is `b` after these events, in which no undo suspended. */
  ghost predicate StretchAt(b: Scope, s: Scope, es: seq<Event>)
    requires b.running.Some? && 0 < b.running.value.left <= |b.running.value.batch|
  {
    Legal(b, es) && s == Run(b, es) && FinishedWithoutSuspending(b, s)
  }

  lemma StretchBegins(b: Scope)
    requires Enabled(b, Advance)
    ensures StretchAt(b, b, [])
  {
    assert b.running.value.batch[b.running.value.left..b.running.value.left] == [];
  }

  lemma StretchCalledBack(b: Scope, s: Scope, es: seq<Event>, e: Event)
    requires b.running.Some? && 0 < b.running.value.left <= |b.running.value.batch|
    requires StretchAt(b, s, es) && s.running.Some? && s.tearingDown && Enabled(s, e) && CallBack(e)
    ensures StretchAt(b, Step(s, e), es + [e])
  {
    hide FinishedWithoutSuspending, Step, Enabled;
    OneMoreEvent(b, es, e);
    CalledBack(b, s, e);
  }

  lemma StretchGoesOn(b: Scope, s: Scope, es: seq<Event>)
    requires b.running.Some? && 0 < b.running.value.left <= |b.running.value.batch|
    requires StretchAt(b, s, es) && s.running.Some?
    ensures Enabled(s, Advance)
    ensures s.running.value.pending == 0 ==> StretchAt(b, Step(s, Advance), es + [Advance])
  {
    assert Enabled(s, Advance);
    OneMoreEvent(b, es, Advance);
    if s.running.value.pending == 0 {
      OneMoreFinished(b, s);
    }
  }

  lemma StretchSuspends(b: Scope, s: Scope, es: seq<Event>, e: Event)
    requires b.running.Some? && 0 < b.running.value.left <= |b.running.value.batch|
    requires StretchAt(b, s, es) && s.running.Some? && s.running.value.pending > 0
    requires (e.Advance? || e.AwaitCall?) && Enabled(s, e)
    ensures StretchEnded(b, Step(s, e), es + [e])
  {
    OneMoreEvent(b, es, e);
    assert Suspends(s, e, Step(s, e)) && Step(s, e).running.Some?;
  }

  /** What close() has done by its first suspension or its return; `es` is what happened in
      its teardown, calls of the undos on the scope included. */
  ghost predicate ClosedBy(a: Scope, c: Call, r: Scope, es: seq<Event>) {
    && (r.running.None? <==> forall u <- a.undo :: u.suspensions == 0)
    && (r.running.None? ==> c in r.returned && r.returned[c] == Completed
                            && r.executed == a.executed + Reversed(a.undo))
    && (r.running.Some? ==> r.closing == Some(|a.batches|) && c in r.waiting
                            && r.waiting[c] == |a.batches|)
    && r.batches == a.batches + [a.undo]
    && Legal(StartTeardown(a, c), es) && r == Run(StartTeardown(a, c), es)
    && r.undo == Accepted(StartTeardown(a, c), es)
  }

  lemma ClosedAtOnce(a: Scope, c: Call, r: Scope)
    requires !a.tearingDown && a.undo != []
    requires r.running.None? && FinishedWithoutSuspending(StartTeardown(a, c), r)
    ensures (forall u <- a.undo :: u.suspensions == 0) && c in r.returned && r.returned[c] == Completed
    ensures r.executed == a.executed + Reversed(a.undo) && r.batches == a.batches + [a.undo]
  {
    var n := |a.undo|;
    assert a.undo[0..n] == a.undo;
    assert forall i | 0 <= i < n :: i < n - 1 || a.undo[i] == a.undo[n - 1];
  }

  lemma ClosedLater(a: Scope, c: Call, r: Scope)
    requires !a.tearingDown && a.undo != []
    requires r.running.Some? && SuspendedAfter(StartTeardown(a, c), r)
    ensures exists u :: u in a.undo && u.suspensions > 0
    ensures r.closing == Some(|a.batches|) && c in r.waiting && r.waiting[c] == |a.batches|
    ensures r.batches == a.batches + [a.undo]
  {
    var s, e :| FinishedWithoutSuspending(StartTeardown(a, c), s) && Suspends(s, e, r);
    assert s.running.value.pending == a.undo[Left(s) - 1].suspensions;
    assert a.undo[Left(s) - 1] in a.undo;
  }

  /** Without a detached list in between, what is pending is what was registered. */
  lemma PendingIsAccepted(b: Scope, es: seq<Event>)
    requires Inv(b) && b.undo == [] && Legal(b, es) && Run(b, es).batches == b.batches
    ensures Run(b, es).undo == Accepted(b, es)
  {
    RunTracked(b, es);
    var x := Flat(b.batches);
    assert x + b.undo == x;
    assert (x + Run(b, es).undo)[|x|..] == (x + Accepted(b, es))[|x|..];
  }

  lemma Closed(a: Scope, c: Call, r: Scope, es: seq<Event>)
    requires Inv(a) && !a.tearingDown && !Used(a, c)
    requires if a.undo == [] then es == [] && r == StartTeardown(a, c)
             else Inv(StartTeardown(a, c)) && StretchEnded(StartTeardown(a, c), r, es)
    ensures ClosedBy(a, c, r, es)
  {
    var b := StartTeardown(a, c);
    if a.undo == [] {
      AcceptedNone(b);
    } else if r.running.None? {
      ClosedAtOnce(a, c, r);
      PendingIsAccepted(b, es);
    } else {
      ClosedLater(a, c, r);
      PendingIsAccepted(b, es);
    }
  }

  class BrokerScope {
    var undo: seq<Undo>
    var tearingDown: bool
    var closing: Option<nat>
    var running: Option<Teardown>    // the suspended or running frame of runTeardown
    var waiting: map<Call, nat>      // callers suspended in join
    var returned: map<Call, Return>
    ghost var executed: seq<Undo>
    ghost var batches: seq<seq<Undo>>
    var teardowns: nat

    ghost function Abs(): Scope
      reads this
    {
      Scope(undo, tearingDown, closing, running, waiting, returned, executed, batches)
    }

    ghost predicate Valid()
      reads this
    {
      Inv(Abs()) && teardowns == |batches|
    }

    constructor ()
      ensures Valid() && Abs() == FRESH
    {
      undo, tearingDown, closing, running := [], false, None, None;
      waiting, returned, teardowns := map[], map[], 0;
      executed, batches := [], [];
      new;
      FreshInv();
    }

    predicate IsOpen()
      reads this
    {
      !tearingDown
    }

    method Track(u: Undo)
      requires Valid()
      modifies this
      ensures Valid() && Abs() == old(Abs()).(undo := old(undo) + [u])
      ensures Abs() == Step(old(Abs()), Event.Track(u))
    {
      StepInv(Abs(), Event.Track(u));
      undo := undo + [u];
    }

    /** A generated scope overload: refused off the owning thread and while closing. */
    method Register(u: Undo, owner: bool) returns (ok: bool)
      requires Valid()
      modifies this
      ensures Valid() && Abs() == Step(old(Abs()), Event.Register(u, owner))
      ensures ok <==> owner && old(IsOpen())
      ensures Abs() == if ok then old(Abs()).(undo := old(undo) + [u]) else old(Abs())
    {
      StepInv(Abs(), Event.Register(u, owner));
      if !owner || !IsOpen() {
        return false;
      }
      Track(u);
      ok := true;
    }

    /** close(), as far as the call of the first undo. */
    method Close(c: Call, owner: bool)
      requires Valid() && !Used(Abs(), c)
      modifies this
      ensures Valid() && Abs() == Step(old(Abs()), Event.Close(c, owner))
      ensures !owner ==> Abs() == old(Abs()).(returned := old(returned)[c := OffThread])
      ensures c in returned <==> !owner || (!old(tearingDown) && old(undo) == [])
                                 || (old(running).Some? && old(running).value.sync)
      ensures owner && old(closing).Some? ==> Abs() == old(Abs()).(waiting := old(waiting)[c := old(closing).value])
      ensures owner && old(running).Some? && old(running).value.sync ==>
                Abs() == old(Abs()).(returned := old(returned)[c := Reentrant])
      ensures owner && !old(tearingDown) ==> undo == [] && batches == old(batches) + [old(undo)]
    {
      CloseCallOutcome(Abs(), c, owner);
      hide Inv;
      StepInv(Abs(), Event.Close(c, owner));
      if !owner {
        returned := returned[c := OffThread];
        return;
      }
      if !tearingDown {
        tearingDown := true;
        var detached := undo;
        undo := [];
        batches := batches + [detached];
        if detached == [] {
          tearingDown := false;
          returned := returned[c := Completed];
        } else {
          running := Some(Teardown(teardowns, c, detached, |detached|,
                                   detached[|detached| - 1].suspensions, true, None));
        }
        teardowns := teardowns + 1;
      } else if closing.None? {
        returned := returned[c := Reentrant];
      } else {
        waiting := waiting[c := closing.value];
      }
    }

    /** The current undo returns; the loop calls the next one or leaves the scope open. */
    method FinishUndo()
      requires Valid() && Enabled(Abs(), Advance) && running.value.pending == 0
      modifies this
      ensures Valid() && Abs() == Step(old(Abs()), Advance)
      ensures teardowns == old(teardowns)
    {
      StepInv(Abs(), Advance);
      var t := running.value;
      executed := executed + [t.batch[t.left - 1]];
      if t.left > 1 {
        running := Some(t.(left := t.left - 1, pending := t.batch[t.left - 2].suspensions, awaited := None));
      } else {
        closing := None;
        tearingDown := false;
        running := None;
        if t.sync {
          returned := returned[t.starter := Completed];
        }
      }
    }

    /** The current undo suspends; if this is the first suspension, the starter of the
        teardown publishes it in `closing` and joins it. */
    method SuspendUndo()
      requires Valid() && Enabled(Abs(), Advance) && running.value.pending > 0
      modifies this
      ensures Valid() && Abs() == Step(old(Abs()), Advance)
      ensures teardowns == old(teardowns)
    {
      StepInv(Abs(), Advance);
      var t := running.value;
      running := Some(t.(pending := t.pending - 1, sync := false, awaited := None));
      if t.sync {
        closing := Some(t.id);
        waiting := waiting[t.starter := t.id];
      }
    }

    /** The current undo suspends on a close() call that has not returned. */
    method SuspendOnCall(c: Call)
      requires Valid() && Enabled(Abs(), AwaitCall(c))
      modifies this
      ensures Valid() && Abs() == Step(old(Abs()), AwaitCall(c))
    {
      StepInv(Abs(), AwaitCall(c));
      var t := running.value;
      running := Some(t.(pending := t.pending - 1, sync := false, awaited := Some(c)));
      if t.sync {
        closing := Some(t.id);
        waiting := waiting[t.starter := t.id];
      }
    }

    /** A waiter resumes because its teardown is over, or is cancelled. */
    method ReturnFromJoin(c: Call, cancelled: bool)
      requires Valid() && Enabled(Abs(), if cancelled then Cancel(c) else Resume(c))
      modifies this
      ensures Valid()
      ensures Abs() == Step(old(Abs()), if cancelled then Cancel(c) else Resume(c))
    {
      StepInv(Abs(), if cancelled then Cancel(c) else Resume(c));
      waiting := waiting - {c};
      returned := returned[c := if cancelled then Cancelled else Joined];
    }

    /** What the current undo calls on its own scope before it suspends or returns: any number
        of registrations and of close() calls it does not wait for. */
    method CallBacks(ghost b: Scope, ghost es: seq<Event>) returns (ghost es': seq<Event>)
      requires Valid() && running.Some?
      requires b.running.Some? && 0 < b.running.value.left <= |b.running.value.batch| && StretchAt(b, Abs(), es)
      modifies this
      ensures Valid() && running == old(running) && StretchAt(b, Abs(), es')
    {
      es' := es;
      var more: nat := *;
      while more > 0
        invariant Valid() && running == old(running) && StretchAt(b, Abs(), es')
        decreases more
      {
        var u: Undo, owner: bool, direct: bool, c: Call := *, *, *, *;
        if direct {
          StretchCalledBack(b, Abs(), es', Event.Track(u));
          Track(u);
          es' := es' + [Event.Track(u)];
        } else if c in waiting || c in returned || c == running.value.starter {
          StretchCalledBack(b, Abs(), es', Event.Register(u, owner));
          var _ := Register(u, owner);
          es' := es' + [Event.Register(u, owner)];
        } else {
          StretchCalledBack(b, Abs(), es', Event.Close(c, owner));
          Close(c, owner);
          es' := es' + [Event.Close(c, owner)];
        }
        more := more - 1;
      }
    }

    /** The loop of runTeardown between two suspensions, the undos calling back as they
        like: those that do not suspend finish, newest first, and the stretch ends at the
        first suspension or with the scope open. */
    method RunStretch() returns (ghost es: seq<Event>)
      requires Valid() && Enabled(Abs(), Advance)
      modifies this
      ensures Valid()
      ensures StretchEnded(old(Abs()), Abs(), es)
    {
      ghost var before := Abs();
      es := [];
      StretchBegins(before);
      es := CallBacks(before, es);
      while running.Some? && running.value.pending == 0
        invariant Valid() && StretchAt(before, Abs(), es)
        decreases Left(Abs())
      {
        StretchGoesOn(before, Abs(), es);
        FinishUndo();
        es := es + [Advance];
        if running.Some? {
          es := CallBacks(before, es);
        }
      }
      if running.Some? {
        StretchGoesOn(before, Abs(), es);
        var c: Call := *;
        if c in waiting {
          StretchSuspends(before, Abs(), es, AwaitCall(c));
          SuspendOnCall(c);
          es := es + [AwaitCall(c)];
        } else {
          StretchSuspends(before, Abs(), es, Advance);
          SuspendUndo();
          es := es + [Advance];
        }
      }
    }

    /** close() up to its first suspension or its return: it returns at once, open again and
        with everything released newest first, exactly when every recorded undo is
        suspension-free; otherwise it waits on the teardown it published. What is pending
        then is what the undos themselves have registered meanwhile. */
    method CloseAndRun(c: Call) returns (ghost es: seq<Event>)
      requires Valid() && IsOpen() && !Used(Abs(), c)
      modifies this
      ensures Valid()
      ensures IsOpen() <==> running.None?
      ensures ClosedBy(old(Abs()), c, Abs(), es)
    {
      ghost var before := Abs();
      es := [];
      Close(c, true);
      if running.Some? {
        es := RunStretch();
      }
      Closed(before, c, Abs(), es);
    }
  }
}
