/**
 The close / reopen machine of a BrokerScope, one event per action a task can
 take between two suspension points: a registration, a close() call, an undo
 that suspends or finishes, a waiter that resumes or gives up.
 */
module ScopeMachine {
  import opened Sequences

  type Call = nat

  /** A recorded undo: which closure it releases from which slot, how many times its
      body suspends before it returns, and after how many of these it releases. */
  datatype Undo = Undo(slot: nat, closure: nat, suspensions: nat, releaseAfter: nat)

  datatype Return =
    | Completed  // the teardown this call started needed no suspension
    | Joined     // the call waited for a teardown to end
    | Reentrant  // called from the synchronous part of the running teardown
    | OffThread  // called off the owning thread
    | Cancelled  // the caller gave up waiting

  /** The frame of runTeardown: `batch[..left]` is still to run, `batch[left - 1]`
      is the undo being run. */
  datatype Teardown = Teardown(
    id: nat,
    starter: Call,
    batch: seq<Undo>,
    left: nat,
    pending: nat,          // suspensions the current undo still goes through
    sync: bool,            // runTeardown has not suspended yet
    awaited: Option<Call>) // a close() call the current undo is waiting for

  datatype Scope = Scope(
    undo: seq<Undo>,
    tearingDown: bool,
    closing: Option<nat>,
    running: Option<Teardown>,
    waiting: map<Call, nat>,      // calls suspended in join, and on which teardown
    returned: map<Call, Return>,
    executed: seq<Undo>,          // history: undos in the order they finished
    batches: seq<seq<Undo>>)      // history: the list each teardown detached

  datatype Event =
    | Track(u: Undo)
    | Register(u: Undo, owner: bool) // generated overload: rejected unless open
    | Close(call: Call, owner: bool)
    | Advance                        // the current undo runs: suspends or finishes
    | AwaitCall(call: Call)          // the current undo suspends on a close() call
    | Resume(call: Call)
    | Cancel(call: Call)

  const FRESH: Scope := Scope([], false, None, None, map[], map[], [], [])

  predicate Used(s: Scope, c: Call) {
    c in s.waiting || c in s.returned || (s.running.Some? && s.running.value.starter == c)
  }

  /** The current undo is not held up by a close() call it waits for. */
  predicate Runnable(s: Scope) {
    s.running.Some? &&
    (s.running.value.awaited.None? || s.running.value.awaited.value in s.returned)
  }

  predicate Enabled(s: Scope, e: Event) {
    match e
    case Track(_) => true
    case Register(_, _) => true
    case Close(c, _) => !Used(s, c)
    case Advance => Runnable(s) && 0 < s.running.value.left <= |s.running.value.batch|
    case AwaitCall(c) => Runnable(s) && s.running.value.pending > 0 && c in s.waiting
    case Resume(c) =>
      c in s.waiting && (s.running.None? || s.running.value.id != s.waiting[c])
    case Cancel(c) => c in s.waiting
  }

  function StartTeardown(s: Scope, c: Call): (r: Scope) {
    var detached := s.(undo := [], tearingDown := true, batches := s.batches + [s.undo]);
    if s.undo == [] then
      detached.(tearingDown := false, returned := s.returned[c := Completed])
    else
      detached.(running := Some(Teardown(|s.batches|, c, s.undo, |s.undo|,
                                         s.undo[|s.undo| - 1].suspensions, true, None)))
  }

  function SuspendUndo(s: Scope, awaited: Option<Call>): (r: Scope)
    requires s.running.Some? && s.running.value.pending > 0
  {
    var t := s.running.value;
    var t' := t.(pending := t.pending - 1, sync := false, awaited := awaited);
    if t.sync then
      s.(running := Some(t'), closing := Some(t.id), waiting := s.waiting[t.starter := t.id])
    else
      s.(running := Some(t'))
  }

  function FinishUndo(s: Scope): (r: Scope)
    requires s.running.Some? && 0 < s.running.value.left <= |s.running.value.batch|
  {
    var t := s.running.value;
    var s' := s.(executed := s.executed + [t.batch[t.left - 1]]);
    if t.left > 1 then
      s'.(running := Some(t.(left := t.left - 1, pending := t.batch[t.left - 2].suspensions,
                             awaited := None)))
    else
      s'.(running := None, closing := None, tearingDown := false,
          returned := if t.sync then s.returned[t.starter := Completed] else s.returned)
  }

  function Step(s: Scope, e: Event): (r: Scope)
    requires Enabled(s, e)
  {
    match e
    case Track(u) => s.(undo := s.undo + [u])
    case Register(u, owner) =>
      if owner && !s.tearingDown then s.(undo := s.undo + [u]) else s
    case Close(c, owner) =>
      if !owner then s.(returned := s.returned[c := OffThread])
      else if !s.tearingDown then StartTeardown(s, c)
      else if s.closing.None? then s.(returned := s.returned[c := Reentrant])
      else s.(waiting := s.waiting[c := s.closing.value])
    case Advance =>
      if s.running.value.pending > 0 then SuspendUndo(s, None) else FinishUndo(s)
    case AwaitCall(c) => SuspendUndo(s, Some(c))
    case Resume(c) => s.(waiting := s.waiting - {c}, returned := s.returned[c := Joined])
    case Cancel(c) => s.(waiting := s.waiting - {c}, returned := s.returned[c := Cancelled])
  }

  ghost predicate Legal(s: Scope, es: seq<Event>)
    decreases es
  {
    es == [] || (Enabled(s, es[0]) && Legal(Step(s, es[0]), es[1..]))
  }

  ghost function Run(s: Scope, es: seq<Event>): (r: Scope)
    requires Legal(s, es)
    decreases es
  {
    if es == [] then s else Run(Step(s, es[0]), es[1..])
  }

  lemma {:induction false} RunConcat(s: Scope, a: seq<Event>, b: seq<Event>)
    requires Legal(s, a + b)
    ensures Legal(s, a) && Legal(Run(s, a), b) && Run(s, a + b) == Run(Run(s, a), b)
    decreases a
  {
    if a == [] {
      assert a + b == b;
    } else {
      assert (a + b)[0] == a[0] && (a + b)[1..] == a[1..] + b;
      RunConcat(Step(s, a[0]), a[1..], b);
    }
  }

  lemma Unroll(s: Scope, e: Event, rest: seq<Event>)
    requires Enabled(s, e) && Legal(Step(s, e), rest)
    ensures Legal(s, [e] + rest) && Run(s, [e] + rest) == Run(Step(s, e), rest)
  {
    assert ([e] + rest)[1..] == rest;
  }

  /** The undos that are detached but have not finished. */
  function Remaining(s: Scope): (r: seq<Undo>) {
    if s.running.Some? && s.running.value.left <= |s.running.value.batch|
    then s.running.value.batch[..s.running.value.left] else []
  }

  /** What the events add to the scope, read off the events: every low-level
      track, and the registrations made on the owning thread of an open scope. */
  ghost function Accepted(s: Scope, es: seq<Event>): (r: seq<Undo>)
    requires Legal(s, es)
    decreases es
  {
    if es == [] then []
    else
      (match es[0]
       case Track(u) => [u]
       case Register(u, owner) => if owner && !s.tearingDown then [u] else []
       case _ => [])
      + Accepted(Step(s, es[0]), es[1..])
  }

  /** No low-level track while a close runs: every registration went through an
      overload that tests isOpen. */
  ghost predicate Gated(s: Scope, es: seq<Event>)
    requires Legal(s, es)
    decreases es
  {
    es == [] ||
    ((es[0].Track? ==> !s.tearingDown) && Gated(Step(s, es[0]), es[1..]))
  }
}
