/**
 The parked-call hand-off of the storage plugin, one event per atomic operation.
 An invoker reserves an index with a fetch-and-add and stores its call id there later;
 a releaser exchanges the count with 0, then spins on each reserved slot until it
 exchanges a non-zero id out of it, and answers that id.
 */
module ParkedCalls {
  import opened Sequences

  type CallId = nat  // 0 marks an empty slot, and is never the id of a request
  const MAX_PARKED: nat := 64
  const INT_MAX: nat := 0x7FFF_FFFF

  /** One invoker between its fetch-and-add and its store. */
  datatype Claim = Claim(index: nat, id: CallId)

  function Without(claims: seq<Claim>, k: nat): seq<Claim>
    requires k < |claims|
  {
    claims[..k] + claims[k + 1..]
  }

  /** The releaser's loop: `next` of `n` slots are done. */
  datatype Drain = Drain(n: nat, next: nat)

  datatype State = State(
    count: nat,
    slots: seq<CallId>,
    claims: seq<Claim>,         // the invokers between their two operations
    drain: Option<Drain>,
    issued: multiset<CallId>,   // history: the ids of all slow_op invocations
    answered: seq<CallId>,      // history: the ids replied to, in order
    turnedAway: multiset<CallId>, // history: over capacity, never stored
    overwritten: multiset<CallId>) // history: ids stored over

  datatype Event =
    | Reserve(id: CallId)
    | Store(k: nat)              // by the k-th of those invokers
    | TakeCount
    | Exchange
    | Finish

  const START: State :=
    State(0, seq(MAX_PARKED, _ => 0), [], None, multiset{}, [], multiset{}, multiset{})

  predicate Shaped(s: State) {
    && |s.slots| == MAX_PARKED
    && (forall j | 0 <= j < |s.claims| :: s.claims[j].index < MAX_PARKED && s.claims[j].id != 0)
    && (s.drain.Some? ==> s.drain.value.next <= s.drain.value.n <= MAX_PARKED)
  }

  predicate Enabled(s: State, e: Event) {
    match e
    case Reserve(id) => id != 0 && s.count < INT_MAX
    case Store(k) => k < |s.claims|
    case TakeCount => s.drain.None?
    case Exchange => s.drain.Some? && s.drain.value.next < s.drain.value.n
    case Finish => s.drain.Some? && s.drain.value.next == s.drain.value.n
  }

  function Step(s: State, e: Event): (s': State)
    requires Shaped(s) && Enabled(s, e)
    ensures Shaped(s')
  {
    match e
    case Reserve(id) =>
      var s1 := s.(count := s.count + 1, issued := s.issued + multiset{id});
      if s.count < MAX_PARKED then s1.(claims := s.claims + [Claim(s.count, id)])
      else s1.(turnedAway := s.turnedAway + multiset{id})
    case Store(k) =>
      var c := s.claims[k];
      s.(slots := s.slots[c.index := c.id], claims := Without(s.claims, k),
         overwritten := if s.slots[c.index] == 0 then s.overwritten
                        else s.overwritten + multiset{s.slots[c.index]})
    case TakeCount =>
      s.(count := 0, drain := Some(Drain(if s.count > MAX_PARKED then MAX_PARKED else s.count, 0)))
    case Exchange =>
      var i := s.drain.value.next;
      if s.slots[i] == 0 then s
      else s.(slots := s.slots[i := 0], answered := s.answered + [s.slots[i]],
              drain := Some(s.drain.value.(next := i + 1)))
    case Finish => s.(drain := None)
  }

  ghost predicate Legal(s: State, es: seq<Event>)
    requires Shaped(s)
    decreases es
  {
    es == [] || (Enabled(s, es[0]) && Legal(Step(s, es[0]), es[1..]))
  }

  ghost function Run(s: State, es: seq<Event>): (s': State)
    requires Shaped(s) && Legal(s, es)
    ensures Shaped(s')
    decreases es
  {
    if es == [] then s else Run(Step(s, es[0]), es[1..])
  }

  function Ids(claims: seq<Claim>): (ids: seq<CallId>) {
    seq(|claims|, i requires 0 <= i < |claims| => claims[i].id)
  }

  function Stored(slots: seq<CallId>): (m: multiset<CallId>) {
    multiset(slots)[0 := 0]
  }

  /** Every invocation is answered, parked, in flight, turned away or stored over. */
  ghost predicate Conserved(s: State) {
    s.issued == multiset(s.answered) + Stored(s.slots) + multiset(Ids(s.claims)) + s.turnedAway + s.overwritten
  }

  lemma IdsWithout(claims: seq<Claim>, k: nat)
    requires k < |claims|
    ensures multiset(Ids(claims)) == multiset(Ids(Without(claims, k))) + multiset{claims[k].id}
  {
    assert Ids(claims) == Ids(claims[..k]) + [claims[k].id] + Ids(claims[k + 1..]);
    assert Ids(Without(claims, k)) == Ids(claims[..k]) + Ids(claims[k + 1..]);
  }

  lemma AllZero(slots: seq<CallId>)
    requires forall k | 0 <= k < |slots| :: slots[k] == 0
    ensures Stored(slots) == multiset{}
  {
    assert forall x :: x in multiset(slots) ==> x in slots;
  }

  /** The ids in the slots after a write. */
  lemma StoredAfterWrite(slots: seq<CallId>, i: nat, id: CallId)
    requires i < |slots|
    ensures Stored(slots[i := id]) + (if slots[i] == 0 then multiset{} else multiset{slots[i]})
            == Stored(slots) + (if id == 0 then multiset{} else multiset{id})
  {
    assert multiset(slots[i := id]) == multiset(slots) - multiset{slots[i]} + multiset{id};
  }

  lemma StartConserved()
    ensures Shaped(START) && Conserved(START)
  {
    AllZero(START.slots);
  }

  lemma ReserveConserves(s: State, id: CallId)
    requires Shaped(s) && Enabled(s, Reserve(id)) && Conserved(s)
    ensures Conserved(Step(s, Reserve(id)))
  {
    var claims := s.claims + [Claim(s.count, id)];
    assert Ids(claims) == Ids(s.claims) + [id];
    assert multiset(Ids(claims)) == multiset(Ids(s.claims)) + multiset{id};
  }

  lemma StoreConserves(s: State, k: nat)
    requires Shaped(s) && Enabled(s, Store(k)) && Conserved(s)
    ensures Conserved(Step(s, Store(k)))
  {
    var c := s.claims[k];
    IdsWithout(s.claims, k);
    StoredAfterWrite(s.slots, c.index, c.id);
    var gone := if s.slots[c.index] == 0 then multiset{} else multiset{s.slots[c.index]};
    assert Step(s, Store(k)).overwritten == s.overwritten + gone;
  }

  lemma ExchangeConserves(s: State)
    requires Shaped(s) && Enabled(s, Exchange) && Conserved(s)
    ensures Conserved(Step(s, Exchange))
  {
    var i := s.drain.value.next;
    if s.slots[i] != 0 {
      StoredAfterWrite(s.slots, i, 0);
      assert multiset(s.answered + [s.slots[i]]) == multiset(s.answered) + multiset{s.slots[i]};
    }
  }

  lemma StepConserves(s: State, e: Event)
    requires Shaped(s) && Enabled(s, e) && Conserved(s)
    ensures Conserved(Step(s, e))
  {
    match e
    case Reserve(id) => ReserveConserves(s, id);
    case Store(k) => StoreConserves(s, k);
    case Exchange => ExchangeConserves(s);
    case _ =>
  }

  /** In every interleaving at all, overlapping reservations included. */
  lemma {:induction false} RunConserves(s: State, es: seq<Event>)
    requires Shaped(s) && Conserved(s) && Legal(s, es)
    ensures Conserved(Run(s, es))
    decreases es
  {
    if es != [] {
      StepConserves(s, es[0]);
      RunConserves(Step(s, es[0]), es[1..]);
    }
  }

  /** The calls that came in and are nowhere: not answered, parked, in flight or turned away. */
  function Lost(s: State): (m: multiset<CallId>) {
    s.issued - (multiset(s.answered) + Stored(s.slots) + multiset(Ids(s.claims)) + s.turnedAway)
  }

  lemma LostAreOverwritten(s: State)
    requires Conserved(s)
    ensures Lost(s) == s.overwritten
  {
  }

  /** A call gets lost in exactly one way: another one is stored into its slot. */
  lemma LostOnlyByOverwriting(s: State, e: Event)
    requires Shaped(s) && Enabled(s, e) && Conserved(s)
    ensures Lost(Step(s, e)) > Lost(s) <==> e.Store? && s.slots[s.claims[e.k].index] != 0
    ensures Lost(Step(s, e))
            == Lost(s) + if e.Store? && s.slots[s.claims[e.k].index] != 0
                         then multiset{s.slots[s.claims[e.k].index]} else multiset{}
  {
    hide Conserved, Lost, Stored, Ids, Step;
    StepConserves(s, e);
    LostAreOverwritten(s);
    LostAreOverwritten(Step(s, e));
    OverwrittenBy(s, e);
  }

  lemma OverwrittenBy(s: State, e: Event)
    requires Shaped(s) && Enabled(s, e)
    ensures Step(s, e).overwritten
            == s.overwritten + if e.Store? && s.slots[s.claims[e.k].index] != 0
                               then multiset{s.slots[s.claims[e.k].index]} else multiset{}
  {
  }

  /** The slots the protocol is about: reserved since the count was last taken, or
      still to be drained. */
  predicate Live(s: State, i: int) {
    || 0 <= i < (if s.count > MAX_PARKED then MAX_PARKED else s.count)
    || (s.drain.Some? && s.drain.value.next <= i < s.drain.value.n)
  }

  ghost predicate Awaited(claims: seq<Claim>, slot: nat) {
    exists k :: 0 <= k < |claims| && claims[k].index == slot
  }

  /** The pending stores go to different empty slots among those. */
  ghost predicate ClaimsOrderly(s: State)
    requires Shaped(s)
  {
    && (forall j | 0 <= j < |s.claims| :: Live(s, s.claims[j].index) && s.slots[s.claims[j].index] == 0)
    && (forall j, k | 0 <= j < k < |s.claims| :: s.claims[j].index != s.claims[k].index)
  }

  /** Each of those slots holds an id or has its store pending; the others are empty. */
  ghost predicate SlotsOrderly(s: State)
    requires Shaped(s)
  {
    forall i | 0 <= i < MAX_PARKED ::
      if Live(s, i) then s.slots[i] != 0 || Awaited(s.claims, i) else s.slots[i] == 0
  }

  /** A reservation begun now gets an index the releaser no longer has to drain. */
  predicate SafeToReserve(s: State) {
    s.drain.None? || s.count < s.drain.value.next || s.drain.value.next == s.drain.value.n
  }

  /** The protocol's invariant: whatever is reserved during a drain stays behind it. */
  ghost predicate Orderly(s: State)
    requires Shaped(s)
  {
    && (s.drain.Some? && s.drain.value.next < s.drain.value.n ==> s.count <= s.drain.value.next)
    && ClaimsOrderly(s) && SlotsOrderly(s)
  }

  /** Every reservation is begun when it is safe, in particular when none begins while
      a drain runs. Stores of slots already reserved may come at any time. */
  ghost predicate SafeReservations(s: State, es: seq<Event>)
    requires Shaped(s) && Legal(s, es)
    decreases es
  {
    es == [] || ((es[0].Reserve? ==> SafeToReserve(s)) && SafeReservations(Step(s, es[0]), es[1..]))
  }

  lemma AwaitedWithout(claims: seq<Claim>, k: nat, slot: nat)
    requires k < |claims| && Awaited(claims, slot) && claims[k].index != slot
    ensures Awaited(Without(claims, k), slot)
  {
    var j :| 0 <= j < |claims| && claims[j].index == slot;
    assert Without(claims, k)[if j < k then j else j - 1] == claims[j];
  }

  lemma ReserveOrderly(s: State, id: CallId)
    requires Shaped(s) && Enabled(s, Reserve(id)) && Orderly(s) && SafeToReserve(s)
    ensures Orderly(Step(s, Reserve(id)))
  {
    var s' := Step(s, Reserve(id));
    forall i | 0 <= i < MAX_PARKED && Live(s', i)
      ensures s'.slots[i] != 0 || Awaited(s'.claims, i)
    {
      if i == s.count {
        assert s'.claims[|s.claims|].index == i;
      } else if s.slots[i] == 0 {
        assert Live(s, i);
        var j :| 0 <= j < |s.claims| && s.claims[j].index == i;
        assert s'.claims[j].index == i;
      }
    }
  }

  lemma StoreClaims(s: State, k: nat)
    requires Shaped(s) && Enabled(s, Store(k)) && ClaimsOrderly(s)
    ensures ClaimsOrderly(Step(s, Store(k)))
  {
    var s' := Step(s, Store(k));
    forall j | 0 <= j < |s'.claims|
      ensures s'.claims[j] == s.claims[if j < k then j else j + 1]
    {
    }
  }

  lemma StoreFills(s: State, k: nat)
    requires Shaped(s) && Enabled(s, Store(k)) && ClaimsOrderly(s) && SlotsOrderly(s)
    ensures SlotsOrderly(Step(s, Store(k)))
  {
    var s' := Step(s, Store(k));
    forall i | 0 <= i < MAX_PARKED && Live(s', i)
      ensures s'.slots[i] != 0 || Awaited(s'.claims, i)
    {
      assert Live(s, i);
      if i != s.claims[k].index && s.slots[i] == 0 {
        AwaitedWithout(s.claims, k, i);
      }
    }
    forall i | 0 <= i < MAX_PARKED && !Live(s', i)
      ensures s'.slots[i] == 0
    {
      assert !Live(s, i);
    }
  }

  lemma StoreOrderly(s: State, k: nat)
    requires Shaped(s) && Enabled(s, Store(k)) && Orderly(s)
    ensures Orderly(Step(s, Store(k)))
  {
    StoreClaims(s, k);
    StoreFills(s, k);
  }

  lemma ExchangeOrderly(s: State)
    requires Shaped(s) && Enabled(s, Exchange) && Orderly(s)
    ensures Orderly(Step(s, Exchange))
  {
  }

  lemma StepOrderly(s: State, e: Event)
    requires Shaped(s) && Enabled(s, e) && Orderly(s) && (e.Reserve? ==> SafeToReserve(s))
    ensures Orderly(Step(s, e))
    ensures Step(s, e).overwritten == s.overwritten
  {
    match e
    case Reserve(id) => ReserveOrderly(s, id);
    case Store(k) => StoreOrderly(s, k);
    case Exchange => ExchangeOrderly(s);
    case _ =>
  }

  lemma {:induction false} RunOrderly(s: State, es: seq<Event>)
    requires Shaped(s) && Orderly(s) && Legal(s, es) && SafeReservations(s, es)
    ensures Orderly(Run(s, es)) && Run(s, es).overwritten == s.overwritten
    decreases es
  {
    if es != [] {
      StepOrderly(s, es[0]);
      RunOrderly(Step(s, es[0]), es[1..]);
    }
  }

  lemma {:induction false} NeverAnswersZero(s: State, es: seq<Event>)
    requires Shaped(s) && Legal(s, es) && 0 !in s.answered
    ensures 0 !in Run(s, es).answered
    decreases es
  {
    if es != [] {
      NeverAnswersZero(Step(s, es[0]), es[1..]);
    }
  }

  lemma NoClaims(s: State)
    requires Shaped(s) && ClaimsOrderly(s) && forall i :: !Live(s, i)
    ensures s.claims == []
  {
    var first := ClaimAt(s.claims, 0);
  }

  function ClaimAt(claims: seq<Claim>, k: nat): Claim {
    if k < |claims| then claims[k] else Claim(0, 0)
  }

  lemma IdleMeansEmpty(s: State)
    requires Shaped(s) && Orderly(s) && s.drain.None? && s.count == 0
    ensures s.claims == [] && Stored(s.slots) == multiset{}
  {
    NoClaims(s);
    AllZero(s.slots);
  }

  /** Any number of invokers, any number of releases, every reservation safe:
      no id is lost, none is answered twice or made up, and nothing is left over once
      no drain runs and the count is 0. */
  lemma ExactlyOnce(es: seq<Event>)
    requires Shaped(START) && Legal(START, es) && SafeReservations(START, es)
    ensures var s := Run(START, es);
            && s.issued == multiset(s.answered) + Stored(s.slots) + multiset(Ids(s.claims)) + s.turnedAway
            && 0 !in s.answered
            && (s.drain.None? && s.count == 0 ==> s.issued == multiset(s.answered) + s.turnedAway)
  {
    StartConserved();
    RunConserves(START, es);
    RunOrderly(START, es);
    NeverAnswersZero(START, es);
    var s := Run(START, es);
    assert s.overwritten == multiset{};
    if s.drain.None? && s.count == 0 {
      IdleMeansEmpty(s);
    }
  }

  /** Whenever the releaser spins, the store it waits for is pending and enabled, and
      it makes the next exchange succeed. */
  lemma SpinsOnlyOnAPendingStore(s: State)
    requires Shaped(s) && Orderly(s) && Enabled(s, Exchange)
    ensures Step(s, Exchange) == s <==>
              exists k: nat :: Enabled(s, Store(k)) && s.claims[k].index == s.drain.value.next
    ensures forall k: nat :: Enabled(s, Store(k)) && s.claims[k].index == s.drain.value.next
              ==> Step(Step(s, Store(k)), Exchange).answered == s.answered + [s.claims[k].id]
  {
    var i := s.drain.value.next;
    if s.slots[i] == 0 {
      var k :| 0 <= k < |s.claims| && s.claims[k].index == i;
      assert Enabled(s, Store(k));
    } else {
      assert Step(s, Exchange).drain != s.drain;
    }
  }

  /** Exchanges still to succeed and stores still to come. */
  function Work(s: State): nat
    requires Shaped(s) && s.drain.Some?
  {
    s.drain.value.n - s.drain.value.next + |s.claims|
  }

  /** During a drain every store and every successful exchange is progress, nothing but
      a new reservation undoes it, and without work left the drain only has to return;
      if nothing was reserved meanwhile it returns with every slot zero and no store
      pending. */
  lemma DrainProgress(s: State, e: Event)
    requires Shaped(s) && Orderly(s) && s.drain.Some? && Enabled(s, e) && !e.Reserve?
    ensures Work(s) == 0 ==> e == Finish
    ensures !e.Finish? ==>
              && Step(s, e).drain.Some?
              && Work(Step(s, e)) == if e == Exchange && s.slots[s.drain.value.next] == 0
                                     then Work(s) else Work(s) - 1
    ensures e.Finish? && s.count == 0 ==> Step(s, e).slots == START.slots && Step(s, e).claims == []
  {
    if e.Finish? && s.count == 0 {
      NoClaims(s);
      assert Step(s, e).slots == START.slots;
    }
  }

  /** The drain that runs at `s` also runs before each of the events, and nobody reserves. */
  ghost predicate DrainsThroughout(s: State, es: seq<Event>)
    requires Shaped(s) && Legal(s, es)
    decreases es
  {
    es == [] || (s.drain.Some? && !es[0].Reserve? && DrainsThroughout(Step(s, es[0]), es[1..]))
  }

  /** The events that get the drain on: stores, and exchanges that yield an id. */
  ghost function Productive(s: State, es: seq<Event>): (n: nat)
    requires Shaped(s) && Legal(s, es)
    decreases es
  {
    if es == [] then 0
    else (if es[0].Store? || (es[0].Exchange? && Step(s, es[0]) != s) then 1 else 0)
         + Productive(Step(s, es[0]), es[1..])
  }

  lemma DrainStep(s: State, e: Event)
    requires Shaped(s) && Orderly(s) && s.drain.Some? && s.count == 0 && Enabled(s, e) && !e.Reserve?
    ensures var s' := Step(s, e);
            && Orderly(s') && s'.count == 0 && (e.Finish? <==> s'.drain.None?)
            && (e.Finish? ==> Work(s) == 0 && s'.slots == START.slots && s'.claims == [])
            && (!e.Finish? ==> Work(s') == Work(s) - if e.Store? || s' != s then 1 else 0)
  {
    StepOrderly(s, e);
    DrainProgress(s, e);
    if e.Exchange? && s.slots[s.drain.value.next] != 0 {
      assert Step(s, e).drain != s.drain;
    }
    if e.Finish? {
      NoClaims(s);
    }
  }

  /** Whatever order the scheduler picks, a drain without reservations takes exactly `Work`
      stores and successful exchanges and the return: it does not end before, spinning does
      not count, and it ends with every slot zero and no store pending. */
  lemma {:induction false} DrainEndsExactly(s: State, es: seq<Event>)
    requires Shaped(s) && Orderly(s) && s.drain.Some? && s.count == 0
    requires Legal(s, es) && DrainsThroughout(s, es)
    ensures Productive(s, es) <= Work(s)
    ensures var end := Run(s, es);
            if end.drain.None? then Productive(s, es) == Work(s) && end.slots == START.slots && end.claims == []
            else end.count == 0 && Orderly(end) && Work(end) == Work(s) - Productive(s, es)
                 && (Enabled(end, Finish) <==> Productive(s, es) == Work(s))
    decreases es
  {
    if es == [] {
      if Enabled(s, Finish) { NoClaims(s); }
    } else {
      DrainStep(s, es[0]);
      if es[0].Finish? {
        if es[1..] != [] { assert false; }
      } else {
        DrainEndsExactly(Step(s, es[0]), es[1..]);
      }
    }
  }

  function InRange(c: Claim, lo: nat, hi: nat): (m: multiset<CallId>) {
    if lo <= c.index < hi then multiset{c.id} else multiset{}
  }

  /** The ids in flight to the slots from `lo` to `hi`. */
  function PendingIn(claims: seq<Claim>, lo: nat, hi: nat): (m: multiset<CallId>) {
    if claims == [] then multiset{}
    else PendingIn(claims[..|claims| - 1], lo, hi) + InRange(claims[|claims| - 1], lo, hi)
  }

  /** What the drain has still to answer: what is or will be in the slots before it. */
  function Owed(s: State): (m: multiset<CallId>)
    requires Shaped(s) && s.drain.Some?
  {
    var d := s.drain.value;
    Stored(s.slots[d.next..d.n]) + PendingIn(s.claims, d.next, d.n)
  }

  lemma PendingSnoc(claims: seq<Claim>, c: Claim, lo: nat, hi: nat)
    ensures PendingIn(claims + [c], lo, hi) == PendingIn(claims, lo, hi) + InRange(c, lo, hi)
  {
    assert (claims + [c])[..|claims|] == claims;
  }

  lemma {:induction false} PendingWithout(claims: seq<Claim>, k: nat, lo: nat, hi: nat)
    requires k < |claims|
    ensures PendingIn(claims, lo, hi) == PendingIn(Without(claims, k), lo, hi) + InRange(claims[k], lo, hi)
    decreases claims
  {
    hide PendingIn, InRange;
    var front, last := claims[..|claims| - 1], claims[|claims| - 1];
    assert claims == front + [last];
    PendingSnoc(front, last, lo, hi);
    if k == |claims| - 1 {
      assert Without(claims, k) == front;
    } else {
      PendingWithout(front, k, lo, hi);
      PendingSnoc(Without(front, k), last, lo, hi);
      assert Without(claims, k) == Without(front, k) + [last];
    }
  }

  lemma {:induction false} PendingNarrower(claims: seq<Claim>, lo: nat, hi: nat)
    requires !Awaited(claims, lo)
    ensures PendingIn(claims, lo, hi) == PendingIn(claims, lo + 1, hi)
    decreases claims
  {
    if claims != [] {
      var front := claims[..|claims| - 1];
      assert forall k | 0 <= k < |front| :: front[k] == claims[k];
      assert claims[|claims| - 1].index != lo;
      PendingNarrower(front, lo, hi);
    }
  }

  lemma {:induction false} NonePending(claims: seq<Claim>, lo: nat, hi: nat)
    requires lo >= hi
    ensures PendingIn(claims, lo, hi) == multiset{}
    decreases claims
  {
    if claims != [] {
      NonePending(claims[..|claims| - 1], lo, hi);
    }
  }

  lemma IdsSnoc(claims: seq<Claim>, c: Claim)
    ensures multiset(Ids(claims + [c])) == multiset(Ids(claims)) + multiset{c.id}
  {
    assert Ids(claims + [c]) == Ids(claims) + [c.id];
  }

  lemma {:induction false} AllPending(claims: seq<Claim>, lo: nat, hi: nat)
    requires forall k | 0 <= k < |claims| :: lo <= claims[k].index < hi
    ensures PendingIn(claims, lo, hi) == multiset(Ids(claims))
    decreases claims
  {
    if claims != [] {
      var front, last := claims[..|claims| - 1], claims[|claims| - 1];
      assert claims == front + [last];
      AllPending(front, lo, hi);
      hide PendingIn, Ids;
      PendingSnoc(front, last, lo, hi);
      IdsSnoc(front, last);
    }
  }

  lemma StoredConcat(a: seq<CallId>, b: seq<CallId>)
    ensures Stored(a + b) == Stored(a) + Stored(b)
  {
    assert multiset(a + b) == multiset(a) + multiset(b);
  }

  /** Taking the count, the drain owes every call that has reserved. */
  lemma TakeOwesAll(s: State)
    requires Shaped(s) && Orderly(s) && s.drain.None?
    ensures Owed(Step(s, TakeCount)) == Stored(s.slots) + multiset(Ids(s.claims))
  {
    var n := Step(s, TakeCount).drain.value.n;
    TakenPart(s, n);
    hide Orderly, Stored, PendingIn, Ids;
    AllPending(s.claims, 0, n);
  }

  lemma TakenPart(s: State, n: nat)
    requires Shaped(s) && Orderly(s) && s.drain.None? && n == if s.count > MAX_PARKED then MAX_PARKED else s.count
    ensures Stored(s.slots[0..n]) == Stored(s.slots)
    ensures forall k | 0 <= k < |s.claims| :: s.claims[k].index < n
  {
    forall i | n <= i < MAX_PARKED
      ensures s.slots[i] == 0
    {
      assert !Live(s, i);
    }
    AllZero(s.slots[n..]);
    StoredConcat(s.slots[..n], s.slots[n..]);
    assert s.slots[..n] + s.slots[n..] == s.slots && s.slots[0..n] == s.slots[..n];
  }

  /** A store into an empty slot, seen from the slots `lo` to `hi`. */
  lemma StoredInPart(slots: seq<CallId>, c: Claim, lo: nat, hi: nat)
    requires c.index < |slots| && lo <= hi <= |slots| && slots[c.index] == 0 && c.id != 0
    ensures Stored(slots[c.index := c.id][lo..hi]) == Stored(slots[lo..hi]) + InRange(c, lo, hi)
  {
    var part, part' := slots[lo..hi], slots[c.index := c.id][lo..hi];
    if lo <= c.index < hi {
      assert part' == part[c.index - lo := c.id];
      StoredAfterWrite(part, c.index - lo, c.id);
    } else {
      assert part' == part;
    }
  }

  lemma StoreFields(s: State, k: nat)
    requires Shaped(s) && Orderly(s) && Enabled(s, Store(k))
    ensures var s' := Step(s, Store(k));
            && s'.slots == s.slots[s.claims[k].index := s.claims[k].id] && s'.claims == Without(s.claims, k)
            && s'.drain == s.drain && s'.answered == s.answered && s.slots[s.claims[k].index] == 0
  {
  }

  lemma StoreOwesTheSame(s: State, k: nat)
    requires Shaped(s) && Orderly(s) && s.drain.Some? && Enabled(s, Store(k))
    ensures Owed(Step(s, Store(k))) == Owed(s) && Step(s, Store(k)).answered == s.answered
  {
    hide Orderly, Stored, PendingIn, InRange, Step, Without;
    var d := s.drain.value;
    StoreFields(s, k);
    PendingWithout(s.claims, k, d.next, d.n);
    StoredInPart(s.slots, s.claims[k], d.next, d.n);
  }

  lemma ExchangeFields(s: State)
    requires Shaped(s) && Orderly(s) && Enabled(s, Exchange) && s.slots[s.drain.value.next] != 0
    ensures var s', i := Step(s, Exchange), s.drain.value.next;
            && s'.slots == s.slots[i := 0] && s'.claims == s.claims && s'.answered == s.answered + [s.slots[i]]
            && s'.drain == Some(Drain(s.drain.value.n, i + 1)) && !Awaited(s.claims, i)
  {
  }

  lemma FirstOfPart(slots: seq<CallId>, lo: nat, hi: nat)
    requires lo < hi <= |slots| && slots[lo] != 0
    ensures Stored(slots[lo..hi]) == multiset{slots[lo]} + Stored(slots[lo := 0][lo + 1..hi])
  {
    assert slots[lo..hi] == [slots[lo]] + slots[lo + 1..hi];
    StoredConcat([slots[lo]], slots[lo + 1..hi]);
    assert slots[lo := 0][lo + 1..hi] == slots[lo + 1..hi];
    assert multiset([slots[lo]]) == multiset{slots[lo]};
  }

  lemma ExchangePaysOne(s: State)
    requires Shaped(s) && Orderly(s) && Enabled(s, Exchange) && s.slots[s.drain.value.next] != 0
    ensures multiset(Step(s, Exchange).answered) + Owed(Step(s, Exchange)) == multiset(s.answered) + Owed(s)
  {
    hide Orderly, Stored, PendingIn, Step, Awaited;
    var d := s.drain.value;
    ExchangeFields(s);
    PendingNarrower(s.claims, d.next, d.n);
    FirstOfPart(s.slots, d.next, d.n);
    var id := s.slots[d.next];
    assert multiset(s.answered + [id]) == multiset(s.answered) + multiset{id};
  }

  lemma ReserveOwesTheSame(s: State, id: CallId)
    requires Shaped(s) && s.drain.Some? && Enabled(s, Reserve(id)) && SafeToReserve(s)
    ensures Owed(Step(s, Reserve(id))) == Owed(s)
  {
    PendingSnoc(s.claims, Claim(s.count, id), s.drain.value.next, s.drain.value.n);
  }

  /** Through a drain, safe reservations included: what is answered and what is owed stay
      together, and when it returns nothing is owed. */
  lemma DrainStepOwes(s: State, e: Event)
    requires Shaped(s) && Orderly(s) && s.drain.Some? && Enabled(s, e) && (e.Reserve? ==> SafeToReserve(s))
    ensures var s' := Step(s, e);
            if e.Finish? then s'.drain.None? && Owed(s) == multiset{} && s'.answered == s.answered
            else s'.drain.Some? && multiset(s'.answered) + Owed(s') == multiset(s.answered) + Owed(s)
  {
    match e
    case Reserve(id) => ReserveOwesTheSame(s, id);
    case Store(k) => StoreOwesTheSame(s, k);
    case Exchange => if s.slots[s.drain.value.next] != 0 { ExchangePaysOne(s); }
    case Finish => NonePending(s.claims, s.drain.value.next, s.drain.value.n);
  }

  /** The drain that runs at `s` also runs before each of the events. */
  ghost predicate DrainRuns(s: State, es: seq<Event>)
    requires Shaped(s) && Legal(s, es)
    decreases es
  {
    es == [] || (s.drain.Some? && DrainRuns(Step(s, es[0]), es[1..]))
  }

  lemma {:induction false} DrainAnswersWhatItOwes(s: State, es: seq<Event>)
    requires Shaped(s) && Orderly(s) && s.drain.Some?
    requires Legal(s, es) && SafeReservations(s, es) && DrainRuns(s, es)
    ensures var end := Run(s, es);
            multiset(end.answered) + (if end.drain.Some? then Owed(end) else multiset{})
            == multiset(s.answered) + Owed(s)
    decreases es
  {
    if es != [] {
      StepOrderly(s, es[0]);
      DrainStepOwes(s, es[0]);
      if es[0] != Finish {
        hide Step, Owed, Orderly;
        DrainAnswersWhatItOwes(Step(s, es[0]), es[1..]);
      } else {
        assert es[1..] == [];
      }
    }
  }

  /** A release answers exactly the calls that had reserved when it took the count, each once:
      whatever order their stores come in, and whoever reserves behind it meanwhile. */
  lemma ReleaseAnswersExactly(s: State, es: seq<Event>)
    requires Shaped(s) && Orderly(s) && s.drain.None?
    requires var s' := Step(s, TakeCount); Legal(s', es) && SafeReservations(s', es) && DrainRuns(s', es)
    ensures var end := Run(Step(s, TakeCount), es);
            end.drain.None? ==>
              multiset(end.answered) == multiset(s.answered) + Stored(s.slots) + multiset(Ids(s.claims))
  {
    hide Owed, Orderly, Step, Stored, Ids, Legal, Run, SafeReservations, DrainRuns;
    StepOrderly(s, TakeCount);
    TakeFields(s);
    TakeOwesAll(s);
    DrainAnswersWhatItOwes(Step(s, TakeCount), es);
    var end := Run(Step(s, TakeCount), es);
    assert multiset(end.answered) + multiset{} == multiset(end.answered);
  }

  lemma TakeFields(s: State)
    requires Shaped(s) && Enabled(s, TakeCount)
    ensures Step(s, TakeCount).drain.Some? && Step(s, TakeCount).answered == s.answered
  {
  }

  /** No call is ever lost after a reservation begun in an orderly state, whatever safe
      schedule follows, if and only if that reservation was safe: otherwise its index is
      the slot the releaser is at, and a store before the releaser's exchange hides one
      of the two ids. */
  lemma ReservationHarmlessIff(s: State, id: CallId)
    requires Shaped(s) && Orderly(s) && Conserved(s) && Enabled(s, Reserve(id))
    ensures SafeToReserve(s) <==>
              forall es: seq<Event> :: Legal(Step(s, Reserve(id)), es) && SafeReservations(Step(s, Reserve(id)), es)
                ==> Lost(Run(Step(s, Reserve(id)), es)) == Lost(s)
  {
    var s' := Step(s, Reserve(id));
    StepConserves(s, Reserve(id));
    LostAreOverwritten(s);
    if SafeToReserve(s) {
      ReserveOrderly(s, id);
      forall es: seq<Event> | Legal(s', es) && SafeReservations(s', es)
        ensures Lost(Run(s', es)) == Lost(s)
      {
        RunOrderly(s', es);
        RunConserves(s', es);
        LostAreOverwritten(Run(s', es));
      }
    } else {
      var es := UnsafeReservationLosesACall(s, id);
      RunConserves(s', es);
      LostAreOverwritten(Run(s', es));
    }
  }

  lemma OneStore(s: State, k: nat)
    requires Shaped(s) && k < |s.claims|
    ensures Legal(s, [Store(k)]) && SafeReservations(s, [Store(k)])
    ensures Run(s, [Store(k)]) == Step(s, Store(k))
  {
    var es := [Store(k)];
    assert es[1..] == [];
    assert Run(Step(s, es[0]), []) == Step(s, es[0]);
  }

  lemma TwoStores(s: State, k: nat, l: nat)
    requires Shaped(s) && k < |s.claims| && l < |s.claims| - 1
    ensures Legal(s, [Store(k), Store(l)]) && SafeReservations(s, [Store(k), Store(l)])
    ensures Run(s, [Store(k), Store(l)]) == Step(Step(s, Store(k)), Store(l))
  {
    var es := [Store(k), Store(l)];
    assert es[1..] == [Store(l)];
    OneStore(Step(s, es[0]), l);
  }

  lemma StoreOver(s: State, k: nat)
    requires Shaped(s) && k < |s.claims| && s.slots[s.claims[k].index] != 0
    ensures Step(s, Store(k)).overwritten > s.overwritten
  {
    var v := s.slots[s.claims[k].index];
    assert Step(s, Store(k)).overwritten == s.overwritten + multiset{v};
  }

  lemma UnsafeMeansLive(s: State, id: CallId)
    requires Shaped(s) && Orderly(s) && Enabled(s, Reserve(id)) && !SafeToReserve(s)
    ensures s.count < MAX_PARKED && Step(s, Reserve(id)).claims == s.claims + [Claim(s.count, id)]
    ensures Step(s, Reserve(id)).slots == s.slots && Step(s, Reserve(id)).overwritten == s.overwritten
    ensures s.slots[s.count] != 0 || Awaited(s.claims, s.count)
  {
    assert Live(s, s.count);
  }

  /** Two stores into the same slot, the first of them into an empty one. */
  lemma SecondStoreOver(s: State, k: nat)
    requires Shaped(s) && k < |s.claims| - 1
    requires s.claims[k].index == s.claims[|s.claims| - 1].index && s.slots[s.claims[k].index] == 0
    ensures Step(Step(s, Store(k)), Store(|s.claims| - 2)).overwritten > s.overwritten
  {
    var s2 := Step(s, Store(k));
    assert s2.overwritten == s.overwritten;
    assert s2.claims[|s.claims| - 2] == s.claims[|s.claims| - 1];
    hide Step;
    StoreOver(s2, |s.claims| - 2);
  }

  lemma UnsafeReservationLosesACall(s: State, id: CallId) returns (es: seq<Event>)
    requires Shaped(s) && Orderly(s) && Enabled(s, Reserve(id)) && !SafeToReserve(s)
    ensures var s' := Step(s, Reserve(id));
            Legal(s', es) && SafeReservations(s', es) && Run(s', es).overwritten > s.overwritten
  {
    hide Step, Orderly, Legal, Run, SafeReservations, SafeToReserve, Without;
    UnsafeMeansLive(s, id);
    var s1 := Step(s, Reserve(id));
    var i, last := s.count, |s.claims|;
    if s.slots[i] != 0 {
      es := [Store(last)];
      OneStore(s1, last);
      StoreOver(s1, last);
    } else {
      var k :| 0 <= k < |s.claims| && s.claims[k].index == i;
      es := [Store(k), Store(last - 1)];
      TwoStores(s1, k, last - 1);
      SecondStoreOver(s1, k);
    }
  }

  /** What opening the plugin again does: the count is reset, the slots are left. */
  function Reopened(s: State): (s': State) {
    s.(count := 0)
  }

  lemma FirstSlotAgain(s: State, id: CallId)
    requires Shaped(s) && Orderly(s) && s.drain.None? && s.count > 0 && id != 0
    ensures Shaped(Reopened(s)) && Enabled(Reopened(s), Reserve(id)) && SafeToReserve(Reopened(s))
    ensures var s1 := Step(Reopened(s), Reserve(id));
            s1.claims == s.claims + [Claim(0, id)] && s1.slots == s.slots && s1.overwritten == s.overwritten
    ensures s.slots[0] != 0 || Awaited(s.claims, 0)
  {
    assert Live(s, 0);
  }

  lemma AfterReserving(s: State, id: CallId, rest: seq<Event>)
    requires Shaped(s) && Enabled(s, Reserve(id)) && SafeToReserve(s)
    requires Legal(Step(s, Reserve(id)), rest) && SafeReservations(Step(s, Reserve(id)), rest)
    ensures var es := [Reserve(id)] + rest;
            Legal(s, es) && SafeReservations(s, es) && Run(s, es) == Run(Step(s, Reserve(id)), rest)
  {
    assert ([Reserve(id)] + rest)[1..] == rest;
  }

  lemma ReopeningLosesACall(s: State, id: CallId) returns (es: seq<Event>)
    requires Shaped(s) && Orderly(s) && s.drain.None? && s.count > 0 && id != 0
    ensures Legal(Reopened(s), es) && SafeReservations(Reopened(s), es)
    ensures Run(Reopened(s), es).overwritten > s.overwritten
  {
    hide Step, Orderly, Legal, Run, SafeReservations, SafeToReserve, Without, Enabled;
    FirstSlotAgain(s, id);
    var s1 := Step(Reopened(s), Reserve(id));
    var last := |s.claims|;
    var rest: seq<Event>;
    if s.slots[0] != 0 {
      rest := [Store(last)];
      OneStore(s1, last);
      StoreOver(s1, last);
    } else {
      var k :| 0 <= k < |s.claims| && s.claims[k].index == 0;
      rest := [Store(k), Store(last - 1)];
      TwoStores(s1, k, last - 1);
      SecondStoreOver(s1, k);
    }
    AfterReserving(Reopened(s), id, rest);
    es := [Reserve(id)] + rest;
  }

  lemma ReopenedConserves(s: State)
    requires Conserved(s)
    ensures Conserved(Reopened(s))
  {
  }

  /** Opening the plugin again between two releases can cost no call, on any later safe
      schedule, if and only if nothing was reserved since the count was last taken. */
  lemma ReopeningHarmlessIff(s: State)
    requires Shaped(s) && Orderly(s) && Conserved(s) && s.drain.None?
    ensures s.count == 0 <==>
              forall es: seq<Event> :: Legal(Reopened(s), es) && SafeReservations(Reopened(s), es)
                ==> Lost(Run(Reopened(s), es)) == Lost(s)
  {
    hide Conserved, Orderly, Lost, Legal, Run, SafeReservations, Step;
    var s' := Reopened(s);
    ReopenedConserves(s);
    LostAreOverwritten(s);
    if s.count == 0 {
      assert s' == s;
      forall es: seq<Event> | Legal(s', es) && SafeReservations(s', es)
        ensures Lost(Run(s', es)) == Lost(s)
      {
        RunOrderly(s', es);
        RunConserves(s', es);
        LostAreOverwritten(Run(s', es));
      }
    } else {
      var es := ReopeningLosesACall(s, 1);
      RunConserves(s', es);
      LostAreOverwritten(Run(s', es));
    }
  }

  /** A run to such a reopening: a call is parked, the plugin is opened again, and the next
      call is stored over it. */
  lemma ReopenedOverAParkedCall(a: CallId, b: CallId)
    requires a != 0 && b != 0
    ensures Shaped(START) && Legal(START, [Reserve(a), Store(0)])
    ensures var s := Reopened(Run(START, [Reserve(a), Store(0)]));
            && Shaped(s) && Legal(s, [Reserve(b), Store(0)]) && SafeReservations(s, [Reserve(b), Store(0)])
            && Lost(Run(s, [Reserve(b), Store(0)])) == multiset{a}
  {
    StartConserved();
    FirstParked(a);
    var s := Reopened(Run(START, [Reserve(a), Store(0)]));
    SecondParked(s, a, b);
  }

  lemma FirstParked(a: CallId)
    requires a != 0
    ensures Shaped(START) && Legal(START, [Reserve(a), Store(0)])
    ensures Run(START, [Reserve(a), Store(0)])
            == State(1, START.slots[0 := a], [], None, multiset{a}, [], multiset{}, multiset{})
    ensures Conserved(Run(START, [Reserve(a), Store(0)]))
  {
    var s1 := Step(START, Reserve(a));
    assert s1.claims == [Claim(0, a)] && Enabled(s1, Store(0));
    OneStore(s1, 0);
    var s2 := Step(s1, Store(0));
    assert s2.claims == [] && s2.slots == START.slots[0 := a];
    assert [Reserve(a), Store(0)][1..] == [Store(0)];
    StartConserved();
    RunConserves(START, [Reserve(a), Store(0)]);
  }

  lemma SecondParked(s: State, a: CallId, b: CallId)
    requires a != 0 && b != 0 && Conserved(s)
    requires s == State(0, START.slots[0 := a], [], None, multiset{a}, [], multiset{}, multiset{})
    ensures Shaped(s) && Legal(s, [Reserve(b), Store(0)]) && SafeReservations(s, [Reserve(b), Store(0)])
    ensures Lost(Run(s, [Reserve(b), Store(0)])) == multiset{a}
  {
    var s1 := Step(s, Reserve(b));
    assert s1.claims == [Claim(0, b)] && Enabled(s1, Store(0));
    OneStore(s1, 0);
    assert Step(s1, Store(0)).overwritten == multiset{a};
    var es := [Reserve(b), Store(0)];
    assert es[1..] == [Store(0)];
    RunConserves(s, es);
    LostAreOverwritten(Run(s, es));
  }

  /** A run that shows both effects: a reservation that begins while slot 0 is still to be
      drained reuses index 0, its store hides the first id for good, and the next
      release spins on a slot nobody will ever store to. */
  lemma OverlappingReservationLosesACall(a: CallId, b: CallId)
    requires a != 0 && b != 0
    ensures Shaped(START) && Legal(START, Overlap(a, b))
    ensures var s := Run(START, Overlap(a, b));
            && Lost(s) == multiset{a} && s.answered == [b] && s.issued == multiset{a, b}
            && Enabled(s, Exchange) && Step(s, Exchange) == s && s.claims == []
  {
    hide Step, Legal, Run, Lost, Conserved;
    OverlapRun(a, b);
    StartConserved();
    RunConserves(START, Overlap(a, b));
    LostAreOverwritten(Run(START, Overlap(a, b)));
  }

  lemma OverlapRun(a: CallId, b: CallId)
    requires a != 0 && b != 0
    ensures Shaped(START) && Legal(START, Overlap(a, b))
    ensures var s := Run(START, Overlap(a, b));
            && s.overwritten == multiset{a} && s.answered == [b] && s.issued == multiset{a, b}
            && Enabled(s, Exchange) && Step(s, Exchange) == s && s.claims == []
  {
    hide Step, Legal, Run;
    var es := Overlap(a, b);
    var zero := START.slots;
    var s3 := State(0, zero[0 := a], [], Some(Drain(1, 0)), multiset{a}, [], multiset{}, multiset{});
    var s5 := State(1, zero[0 := b], [], Some(Drain(1, 0)), multiset{a, b}, [], multiset{}, multiset{a});
    var s8 := State(0, zero, [], Some(Drain(1, 0)), multiset{a, b}, [b], multiset{}, multiset{a});
    assert zero[0 := b][0 := 0] == zero;
    FirstSteps(a);
    MiddleSteps(s3, b, a);
    LastSteps(s5, b);
    var p, q, r := es[..3], es[3..5], es[5..];
    assert p == [Reserve(a), Store(0), TakeCount] && q == [Reserve(b), Store(0)]
           && r == [Exchange, Finish, TakeCount];
    JoinRuns(s3, q, r);
    JoinRuns(START, p, q + r);
    assert es == p + (q + r);
    Spinning(s8);
  }

  lemma Spinning(s: State)
    requires Shaped(s) && s.drain == Some(Drain(1, 0)) && s.slots[0] == 0
    ensures Enabled(s, Exchange) && Step(s, Exchange) == s
  {
  }

  lemma {:induction false} JoinRuns(s: State, a: seq<Event>, b: seq<Event>)
    requires Shaped(s) && Legal(s, a) && Legal(Run(s, a), b)
    ensures Legal(s, a + b) && Run(s, a + b) == Run(Run(s, a), b)
    decreases a
  {
    if a == [] {
      assert a + b == b;
    } else {
      assert (a + b)[1..] == a[1..] + b;
      JoinRuns(Step(s, a[0]), a[1..], b);
    }
  }

  lemma FirstSteps(a: CallId)
    requires a != 0
    ensures Shaped(START) && Legal(START, [Reserve(a), Store(0), TakeCount])
    ensures Run(START, [Reserve(a), Store(0), TakeCount])
            == State(0, START.slots[0 := a], [], Some(Drain(1, 0)), multiset{a}, [], multiset{}, multiset{})
  {
    var es := [Reserve(a), Store(0), TakeCount];
    assert es[1..] == [Store(0), TakeCount] && es[1..][1..] == [TakeCount] && es[1..][1..][1..] == [];
    var s1 := Step(START, Reserve(a));
    assert s1.claims == [Claim(0, a)] && Enabled(s1, Store(0));
    var s2 := Step(s1, Store(0));
    assert s2.claims == [] && s2.slots == START.slots[0 := a];
    assert Legal(s2, [TakeCount]) && Run(s2, [TakeCount]) == Step(s2, TakeCount);
    assert Legal(s1, es[1..]) && Run(s1, es[1..]) == Run(s2, [TakeCount]);
  }

  lemma MiddleSteps(s: State, b: CallId, a: CallId)
    requires a != 0 && b != 0
    requires s == State(0, START.slots[0 := a], [], Some(Drain(1, 0)), multiset{a}, [], multiset{}, multiset{})
    ensures Shaped(s) && Legal(s, [Reserve(b), Store(0)])
    ensures Run(s, [Reserve(b), Store(0)])
            == State(1, START.slots[0 := b], [], Some(Drain(1, 0)), multiset{a, b}, [], multiset{}, multiset{a})
  {
    var es := [Reserve(b), Store(0)];
    assert es[1..] == [Store(0)] && es[1..][1..] == [];
    var s2 := Step(Step(s, Reserve(b)), Store(0));
    assert s2.claims == [] && s2.slots == START.slots[0 := b];
    assert Run(s2, []) == s2;
  }

  lemma LastSteps(s: State, b: CallId)
    requires b != 0 && s.count == 1 && s.slots == START.slots[0 := b] && s.claims == []
    requires s.drain == Some(Drain(1, 0))
    ensures Shaped(s) && Legal(s, [Exchange, Finish, TakeCount])
    ensures Run(s, [Exchange, Finish, TakeCount])
            == s.(count := 0, slots := s.slots[0 := 0], answered := s.answered + [b])
  {
    var es := [Exchange, Finish, TakeCount];
    assert es[1..] == [Finish, TakeCount] && es[1..][1..] == [TakeCount] && es[1..][1..][1..] == [];
    var s2 := Step(Step(s, Exchange), Finish);
    assert Run(Step(s2, TakeCount), []) == Step(s2, TakeCount);
  }

  function Overlap(a: CallId, b: CallId): seq<Event> {
    [Reserve(a), Store(0), TakeCount, Reserve(b), Store(0), Exchange, Finish, TakeCount]
  }
}
