/** The plugin's atomic globals, updated in place. */
module StoragePlugin {
  import opened Sequences
  import opened ParkedCalls

  ghost predicate Sound(s: State) {
    Shaped(s) && Orderly(s) && Conserved(s) && s.overwritten == multiset{}
  }

  lemma StartSound()
    ensures Sound(START)
  {
    StartConserved();
  }

  lemma StepSound(s: State, e: Event)
    requires Sound(s) && Enabled(s, e) && (e.Reserve? ==> SafeToReserve(s))
    ensures Sound(Step(s, e))
  {
    StepOrderly(s, e);
    StepConserves(s, e);
  }

  /** The releaser waits at slot `i` of `n`. */
  predicate At(s: State, n: nat, i: nat) {
    s.drain == Some(Drain(n, i))
  }

  /** The same calls are out, and nobody new came. */
  predicate SameCalls(s: State, s': State) {
    s'.issued == s.issued && s'.turnedAway == s.turnedAway && s'.count == s.count
  }

  /** What has been answered and what the drain still owes. */
  function Settled(s: State): (m: multiset<CallId>)
    requires Shaped(s) && s.drain.Some?
  {
    multiset(s.answered) + Owed(s)
  }

  /** A store or a safe reservation while the releaser is at slot `i`. */
  lemma OtherEffect(s: State, e: Event, n: nat, i: nat)
    requires Sound(s) && At(s, n, i) && Enabled(s, e)
    requires e.Store? || (e.Reserve? && SafeToReserve(s))
    ensures var s' := Step(s, e);
            Sound(s') && At(s', n, i) && s'.answered == s.answered && Settled(s') == Settled(s)
  {
    StepSound(s, e);
    DrainStepOwes(s, e);
    hide Sound, Owed;
  }

  lemma SoundShape(s: State)
    requires Sound(s)
    ensures Shaped(s)
  {
  }

  lemma AwaitedWhenEmpty(s: State, n: nat, i: nat)
    requires Sound(s) && At(s, n, i) && i < n && i < |s.slots| && s.slots[i] == 0
    ensures exists k :: 0 <= k < |s.claims| && s.claims[k].index == i
  {
    assert Live(s, i) && Awaited(s.claims, i);
  }

  lemma EmptyMeansPending(s: State, n: nat, i: nat)
    requires Sound(s) && At(s, n, i) && i < n && s.slots[i] == 0
    ensures s.claims != []
  {
    hide Conserved, ClaimsOrderly;
    assert Live(s, i) && Awaited(s.claims, i);
  }

  lemma ExchangeEffect(s: State, n: nat, i: nat)
    requires Sound(s) && At(s, n, i) && i < n
    ensures var s' := Step(s, Exchange); Sound(s') && Exchanged(s, s', n, i)
  {
    StepSound(s, Exchange);
    SoundShape(s);
    if s.slots[i] == 0 {
      EmptyMeansPending(s, n, i);
    }
    hide Sound, Step, Exchanged;
    SlotExchanged(s, n, i);
  }

  predicate Exchanged(s: State, s': State, n: nat, i: nat) {
    && SameCalls(s, s') && s'.claims == s.claims && i < |s.slots|
    && s'.slots == s.slots[i := 0]
    && (if s.slots[i] == 0 then s' == s && s.claims != []
        else At(s', n, i + 1) && s'.answered == s.answered + [s.slots[i]])
  }

  lemma SlotExchanged(s: State, n: nat, i: nat)
    requires Shaped(s) && At(s, n, i) && i < n && (s.slots[i] == 0 ==> s.claims != [])
    ensures Exchanged(s, Step(s, Exchange), n, i)
  {
    if s.slots[i] == 0 {
      assert s.slots[i := 0] == s.slots;
    }
  }

  lemma SettledByExchange(s: State, n: nat, i: nat)
    requires Sound(s) && At(s, n, i) && i < n
    ensures var s' := Step(s, Exchange); Shaped(s') && s'.drain.Some? && Settled(s') == Settled(s)
  {
    DrainStepOwes(s, Exchange);
    hide Sound, Owed;
  }

  lemma FinishEffect(s: State, n: nat)
    requires Sound(s) && At(s, n, n)
    ensures var s' := Step(s, Finish);
            && Sound(s') && s'.drain.None? && s'.answered == s.answered && multiset(s'.answered) == Settled(s)
            && s'.slots == s.slots && s'.claims == s.claims && s'.count == s.count
    ensures s.count == 0 ==> s.claims == [] && s.slots == START.slots
  {
    StepSound(s, Finish);
    DrainStepOwes(s, Finish);
    DrainProgress(s, Finish);
  }

  class Parking {
    const parked: array<CallId>
    var parkedCount: nat
    var claims: seq<Claim>    // what the invokers between their two operations hold
    ghost var state: State

    /** The fields are the machine's state; `Sound(state)`, the protocol's invariant, is kept
        apart because a reservation at the wrong moment breaks it. */
    ghost predicate Valid()
      reads this, parked
    {
      && parked.Length == MAX_PARKED && Shaped(state) && Conserved(state)
      && state.slots == parked[..] && state.count == parkedCount && state.claims == claims
    }

    constructor ()
      ensures Valid() && state == START && fresh(parked) && Sound(state)
    {
      parked := new CallId[MAX_PARKED](_ => 0);
      parkedCount, claims := 0, [];
      state := START;
      new;
      StartSound();
      assert parked[..] == START.slots;
    }

    /** Opening the plugin resets the count and leaves the slots. */
    method Open()
      requires Valid()
      modifies this
      ensures Valid() && state == Reopened(old(state))
      ensures parkedCount == 0 && claims == old(claims)
      ensures Sound(old(state)) && old(parkedCount) == 0 ==> Sound(state)
    {
      ReopenedConserves(state);
      state := Reopened(state);
      parkedCount := 0;
    }

    /** First half of slow_op: an index is reserved; over capacity nothing is kept. */
    method Reserve(id: CallId)
      requires Valid() && Enabled(state, Event.Reserve(id))
      modifies this
      ensures Valid() && state == Step(old(state), Event.Reserve(id))
      ensures parkedCount == old(parkedCount) + 1
      ensures claims == old(claims)
                        + if old(parkedCount) < MAX_PARKED then [Claim(old(parkedCount), id)] else []
      ensures Sound(old(state)) && SafeToReserve(old(state)) ==> Sound(state)
    {
      hide Orderly, Conserved;
      StepConserves(state, Event.Reserve(id));
      if Sound(state) && SafeToReserve(state) {
        StepSound(state, Event.Reserve(id));
      }
      state := Step(state, Event.Reserve(id));
      var i := parkedCount;
      parkedCount := parkedCount + 1;
      if i < MAX_PARKED {
        claims := claims + [Claim(i, id)];
      }
    }

    /** Second half of slow_op, by any one of the invokers that have reserved. */
    method Store(k: nat)
      requires Valid() && k < |claims|
      modifies this, parked
      ensures Valid() && state == Step(old(state), Event.Store(k))
      ensures parked[..] == old(parked[..])[old(claims)[k].index := old(claims)[k].id]
      ensures claims == Without(old(claims), k) && parkedCount == old(parkedCount)
      ensures Sound(old(state)) ==> Sound(state)
    {
      hide Orderly, Conserved;
      StepConserves(state, Event.Store(k));
      if Sound(state) {
        StepSound(state, Event.Store(k));
      }
      state := Step(state, Event.Store(k));
      ghost var slots := parked[..];
      parked[claims[k].index] := claims[k].id;
      assert parked[..] == slots[claims[k].index := claims[k].id];
      claims := Without(claims, k);
    }

    method TakeCount() returns (n: nat)
      requires Valid() && Sound(state) && state.drain.None?
      modifies this
      ensures Valid() && Sound(state) && state == Step(old(state), Event.TakeCount) && At(state, n, 0)
      ensures n == if old(parkedCount) > MAX_PARKED then MAX_PARKED else old(parkedCount)
      ensures parkedCount == 0 && claims == old(claims) && state.answered == old(state).answered
      ensures Owed(state) == Stored(old(parked[..])) + multiset(Ids(old(claims)))
    {
      StepSound(state, Event.TakeCount);
      TakeOwesAll(state);
      TakeFields(state);
      state := Step(state, Event.TakeCount);
      n := parkedCount;
      parkedCount := 0;
      if n > MAX_PARKED {
        n := MAX_PARKED;
      }
    }

    /** One atomic exchange of slot `i`, and the reply when it yields an id. */
    method ExchangeSlot(i: nat, n: nat) returns (id: CallId)
      requires Valid() && Sound(state) && At(state, n, i) && i < n
      modifies this, parked
      ensures Valid() && Sound(state) && state == Step(old(state), Event.Exchange)
      ensures i < parked.Length && id == old(parked[i]) && parked[..] == old(parked[..])[i := 0]
      ensures if id == 0 then state == old(state)
              else At(state, n, i + 1) && state.answered == old(state).answered + [id]
      ensures state.drain.Some? && Settled(state) == old(Settled(state)) && claims == old(claims)
    {
      hide Conserved, Owed;
      ExchangeEffect(state, n, i);
      SettledByExchange(state, n, i);
      state := Step(state, Event.Exchange);
      ghost var slots := parked[..];
      id := parked[i];
      parked[i] := 0;
      assert parked[..] == slots[i := 0];
    }

    /** What the invokers do between two operations of the releaser: any number of stores by
        those that have reserved, and of reservations behind the releaser, in any order. */
    method Others(n: nat, i: nat)
      requires Valid() && Sound(state) && At(state, n, i)
      modifies this, parked
      ensures Valid() && Sound(state) && At(state, n, i)
      ensures state.answered == old(state).answered && Settled(state) == old(Settled(state))
    {
      ghost var start := state;
      var more: nat := *;
      while more > 0
        invariant Valid() && Sound(state) && At(state, n, i)
        invariant state.answered == start.answered && Settled(state) == Settled(start)
        decreases more
      {
        var reserves: bool, k: nat, id: CallId := *, *, *;
        if reserves && id != 0 && parkedCount < INT_MAX && (parkedCount < i || i == n) {
          OtherEffect(state, Event.Reserve(id), n, i);
          Reserve(id);
        } else if k < |claims| {
          OtherEffect(state, Event.Store(k), n, i);
          Store(k);
        }
        more := more - 1;
      }
    }

    /** The invoker that has reserved slot `i` stores, if it has not yet. */
    method StoreAwaited(n: nat, i: nat)
      requires Valid() && Sound(state) && At(state, n, i) && i < n
      modifies this, parked
      ensures Valid() && Sound(state) && At(state, n, i) && i < parked.Length && parked[i] != 0
      ensures state.answered == old(state).answered && Settled(state) == old(Settled(state))
    {
      if parked[i] == 0 {
        AwaitedWhenEmpty(state, n, i);
        var k :| 0 <= k < |claims| && claims[k].index == i;
        OtherEffect(state, Event.Store(k), n, i);
        Store(k);
      }
    }

    /** The inner loop: exchanges slot `i` until it yields an id. The scheduler may let the
        others do anything safe in between and make the releaser try as often as it likes;
        all it owes is to let the invoker that has reserved the slot store in the end. */
    method SpinOn(i: nat, n: nat)
      requires Valid() && Sound(state) && At(state, n, i) && i < n
      modifies this, parked
      ensures Valid() && Sound(state) && At(state, n, i + 1) && Settled(state) == old(Settled(state))
      ensures old(state).answered <= state.answered && |state.answered| == |old(state).answered| + 1
    {
      ghost var start := state;
      var patience: nat := *;
      Others(n, i);
      var id := ExchangeSlot(i, n);
      while id == 0
        invariant Valid() && Sound(state) && state.drain.Some? && Settled(state) == Settled(start)
        invariant id == 0 ==> At(state, n, i) && state.answered == start.answered
        invariant id != 0 ==> At(state, n, i + 1) && state.answered == start.answered + [id]
        decreases patience, id == 0
      {
        Others(n, i);
        if patience == 0 {
          StoreAwaited(n, i);
        } else {
          patience := patience - 1;
        }
        id := ExchangeSlot(i, n);
      }
    }

    method DrainSlots(n: nat)
      requires Valid() && Sound(state) && At(state, n, 0)
      modifies this, parked
      ensures Valid() && Sound(state) && At(state, n, n) && Settled(state) == old(Settled(state))
      ensures old(state).answered <= state.answered && |state.answered| == |old(state).answered| + n
    {
      for i := 0 to n
        invariant Valid() && Sound(state) && At(state, n, i) && Settled(state) == old(Settled(state))
        invariant old(state).answered <= state.answered
        invariant |state.answered| == |old(state).answered| + i
      {
        SpinOn(i, n);
      }
    }

    method FinishDrain(n: nat)
      requires Valid() && Sound(state) && At(state, n, n)
      modifies this
      ensures Valid() && Sound(state) && state.drain.None? && parkedCount == old(parkedCount)
      ensures state.answered == old(state).answered && multiset(state.answered) == old(Settled(state))
      ensures parkedCount == 0 ==> claims == [] && parked[..] == START.slots
    {
      FinishEffect(state, n);
      state := Step(state, Event.Finish);
    }

    /** raw_storage_release_slow: takes the count, then spins on each slot in turn. It answers
        exactly the calls that had reserved before, each once, whenever their stores come and
        whoever reserves behind it; if nobody has, every slot ends zero with no store pending. */
    method ReleaseSlow() returns (n: nat)
      requires Valid() && Sound(state) && state.drain.None?
      modifies this, parked
      ensures Valid() && Sound(state) && state.drain.None?
      ensures n == if old(parkedCount) > MAX_PARKED then MAX_PARKED else old(parkedCount)
      ensures old(state).answered <= state.answered && |state.answered| == |old(state).answered| + n
      ensures multiset(state.answered)
              == multiset(old(state).answered) + (Stored(old(parked[..])) + multiset(Ids(old(claims))))
      ensures parkedCount == 0 ==> claims == [] && parked[..] == START.slots
    {
      n := TakeCount();
      DrainSlots(n);
      Others(n, n);
      FinishDrain(n);
    }
  }
}
