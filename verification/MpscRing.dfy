/**
 The bounded queue of the multi-thread brokers: any number of senders, one receiver,
 one event per atomic operation. A slot's sequence number says whose turn it is:
 position p waits for p to be claimed, p + 1 means published, p + capacity freed.
 */
module MpscRing {
  import opened Integers

  type Call = nat  // one tryEnqueue call; it stands for the item it carries as well

  /** A tryEnqueue call between two of its atomic operations. */
  datatype Phase =
    | Checked                     // the ring was not closed
    | Positioned(pos: nat)
    | Compared(pos: nat, seqV: nat) // the slot's sequence number was read
    | Claimed(pos: nat)           // the compare-and-swap succeeded
    | Filled(pos: nat)            // the payload is written

  datatype Receiver =
    | Idle
    | Seen                // the slot at deqPos is published
    | Copied(item: Call)  // its payload is read
    | Freed(item: Call)   // its sequence number is set, deqPos is not
    | Missed              // nothing published; the closed flag is looked at next
    | Retired             // the poll function gave up for good

  datatype Ring = Ring(
    capacity: nat,
    closed: bool,
    enqPos: nat,
    deqPos: nat,
    seqs: seq<nat>,
    payload: seq<Call>,
    flight: map<Call, Phase>,
    receiver: Receiver,
    begun: set<Call>,      // history: calls made
    claimed: seq<Call>,    // history: successful claims, in order
    succeeded: set<Call>,  // history: calls that returned true
    dequeued: seq<Call>)   // history: items handed out, in order

  datatype Event =
    | Begin(c: Call)
    | Load(c: Call)
    | Compare(c: Call)
    | Decide(c: Call, spurious: bool) // a weak compare-and-swap may fail for no reason
    | Fill(c: Call)
    | Publish(c: Call)
    | Look
    | Copy
    | Free
    | Advance
    | CheckClosed
    | Close

  function Fresh(capacity: nat): (r: Ring)
    ensures |r.seqs| == |r.payload| == capacity
  {
    Ring(capacity, false, 0, 0, seq(capacity, i => i), seq(capacity, _ => 0),
         map[], Idle, {}, [], {}, [])
  }

  predicate Shaped(r: Ring) {
    r.capacity > 0 && |r.seqs| == |r.payload| == r.capacity
  }

  /** The slot of a position; a capacity is a power of two, so the mask takes the remainder. */
  function Index(capacity: nat, p: nat): (i: nat)
    requires capacity > 0
    ensures i < capacity
  {
    p % capacity
  }

  function At(slots: seq<nat>, p: nat): nat
    requires |slots| > 0
  {
    slots[Index(|slots|, p)]
  }

  function Put(slots: seq<nat>, p: nat, x: nat): (s: seq<nat>)
    requires |slots| > 0
    ensures |s| == |slots|
  {
    slots[Index(|slots|, p) := x]
  }

  predicate Enabled(r: Ring, e: Event) {
    match e
    case Begin(c) => c !in r.begun
    case Load(c) => c in r.flight && r.flight[c].Checked?
    case Compare(c) => c in r.flight && r.flight[c].Positioned?
    case Decide(c, _) => c in r.flight && r.flight[c].Compared?
    case Fill(c) => c in r.flight && r.flight[c].Claimed?
    case Publish(c) => c in r.flight && r.flight[c].Filled?
    case Look => r.receiver == Idle
    case Copy => r.receiver == Seen
    case Free => r.receiver.Copied?
    case Advance => r.receiver.Freed?
    case CheckClosed => r.receiver == Missed
    case Close => true
  }

  function Refuse(r: Ring, c: Call): (r': Ring) {
    r.(flight := r.flight - {c})
  }

  function Claim(r: Ring, c: Call): (r': Ring) {
    r.(enqPos := r.enqPos + 1, flight := r.flight[c := Claimed(r.enqPos)], claimed := r.claimed + [c])
  }

  function Step(r: Ring, e: Event): (r': Ring)
    requires Shaped(r) && Enabled(r, e)
    ensures Shaped(r') && r'.capacity == r.capacity
  {
    match e
    case Begin(c) =>
      var r1 := r.(begun := r.begun + {c});
      if r.closed then r1 else r1.(flight := r.flight[c := Checked])
    case Load(c) => r.(flight := r.flight[c := Positioned(r.enqPos)])
    case Compare(c) =>
      var p := r.flight[c].pos;
      r.(flight := r.flight[c := Compared(p, At(r.seqs, p))])
    case Decide(c, spurious) =>
      var p, v := r.flight[c].pos, r.flight[c].seqV;
      if v < p then Refuse(r, c)
      else if v > p then r.(flight := r.flight[c := Checked])
      else if r.enqPos == p && !spurious then Claim(r, c)
      else r.(flight := r.flight[c := Positioned(r.enqPos)])
    case Fill(c) =>
      var p := r.flight[c].pos;
      r.(payload := Put(r.payload, p, c), flight := r.flight[c := Filled(p)])
    case Publish(c) =>
      var p := r.flight[c].pos;
      r.(seqs := Put(r.seqs, p, p + 1), flight := r.flight - {c},
         succeeded := r.succeeded + {c})
    case Look => r.(receiver := if At(r.seqs, r.deqPos) == r.deqPos + 1 then Seen else Missed)
    case Copy => r.(receiver := Copied(At(r.payload, r.deqPos)))
    case Free =>
      r.(seqs := Put(r.seqs, r.deqPos, r.deqPos + r.capacity), receiver := Freed(r.receiver.item))
    case Advance =>
      r.(deqPos := r.deqPos + 1, dequeued := r.dequeued + [r.receiver.item], receiver := Idle)
    case CheckClosed => r.(receiver := if r.closed then Retired else Idle)
    case Close => r.(closed := true)
  }

  ghost predicate Legal(r: Ring, es: seq<Event>)
    requires Shaped(r)
    decreases es
  {
    es == [] || (Enabled(r, es[0]) && Legal(Step(r, es[0]), es[1..]))
  }

  ghost function Run(r: Ring, es: seq<Event>): (r': Ring)
    requires Shaped(r) && Legal(r, es)
    ensures Shaped(r') && r'.capacity == r.capacity
    decreases es
  {
    if es == [] then r else Run(Step(r, es[0]), es[1..])
  }

  /** The first position whose slot the receiver has not freed. */
  function Base(r: Ring): nat {
    r.deqPos + if r.receiver.Freed? then 1 else 0
  }

  predicate Owns(ph: Phase, p: nat) {
    ph == Claimed(p) || ph == Filled(p)
  }

  /** Each position within reach is free, claimed or published, and nothing else. */
  ghost predicate SlotsAgree(r: Ring)
    requires Shaped(r)
  {
    && Base(r) <= r.enqPos <= Base(r) + r.capacity && |r.claimed| == r.enqPos
    && (forall p | r.enqPos <= p < Base(r) + r.capacity :: At(r.seqs, p) == p)
    && (forall p | Base(r) <= p < r.enqPos ::
          || (At(r.seqs, p) == p && r.claimed[p] in r.flight && Owns(r.flight[r.claimed[p]], p))
          || (At(r.seqs, p) == p + 1 && At(r.payload, p) == r.claimed[p] && r.claimed[p] in r.succeeded))
  }

  ghost predicate CallAgrees(r: Ring, c: Call, ph: Phase)
    requires Shaped(r)
  {
    match ph
    case Checked => c !in r.claimed
    case Positioned(p) => c !in r.claimed && p <= r.enqPos
    case Compared(p, v) => c !in r.claimed && p <= r.enqPos && v <= At(r.seqs, p)
    case Claimed(p) => Base(r) <= p < |r.claimed| && r.claimed[p] == c && At(r.seqs, p) == p
    case Filled(p) =>
      Base(r) <= p < |r.claimed| && r.claimed[p] == c && At(r.seqs, p) == p && At(r.payload, p) == c
  }

  ghost predicate CallsAgree(r: Ring)
    requires Shaped(r)
  {
    && (forall c <- r.flight :: c in r.begun && c !in r.succeeded && CallAgrees(r, c, r.flight[c]))
    && (forall c <- r.claimed :: c in r.begun && (c in r.flight || c in r.succeeded))
    && (forall c <- r.succeeded :: c in r.claimed)
    && (forall i, j | 0 <= i < j < |r.claimed| :: r.claimed[i] != r.claimed[j])
  }

  ghost predicate ReceiverAgrees(r: Ring)
    requires Shaped(r)
  {
    && r.deqPos <= |r.claimed| && r.dequeued == r.claimed[..r.deqPos]
    && (forall p | 0 <= p < Base(r) <= |r.claimed| :: r.claimed[p] in r.succeeded)
    && match r.receiver
       case Seen => r.deqPos < r.enqPos && At(r.seqs, r.deqPos) == r.deqPos + 1
       case Copied(x) => r.deqPos < |r.claimed| && At(r.seqs, r.deqPos) == r.deqPos + 1 && x == r.claimed[r.deqPos]
       case Freed(x) => r.deqPos < |r.claimed| && x == r.claimed[r.deqPos]
       case _ => true
  }

  ghost predicate Inv(r: Ring) {
    Shaped(r) && r.capacity >= 2 && SlotsAgree(r) && CallsAgree(r) && ReceiverAgrees(r)
  }

  lemma Apart(n: nat, p: nat, q: nat)
    requires n > 0 && p != q && p < q + n && q < p + n
    ensures Index(n, p) != Index(n, q)
  {
    ModDistinct(if p < q then p else q, if p < q then q else p, n);
  }

  /** Positions within one capacity of each other use different slots. */
  lemma OnePut(slots: seq<nat>, lo: nat, p: nat, x: nat)
    requires |slots| > 0 && lo <= p < lo + |slots|
    ensures forall q | lo <= q < lo + |slots| :: At(Put(slots, p, x), q) == if q == p then x else At(slots, q)
  {
    forall q | lo <= q < lo + |slots|
      ensures At(Put(slots, p, x), q) == if q == p then x else At(slots, q)
    {
      if q != p { Apart(|slots|, p, q); }
    }
  }

  lemma SeqGrows(slots: seq<nat>, p: nat, x: nat)
    requires |slots| > 0 && x >= At(slots, p)
    ensures forall q :: At(Put(slots, p, x), q) >= At(slots, q)
  {
  }

  lemma NextSlot(slots: seq<nat>, p: nat)
    requires |slots| > 0
    ensures At(slots, p + |slots|) == At(slots, p)
  {
    Around(p, |slots|);
  }

  lemma FreshInv(capacity: nat)
    requires capacity >= 2
    ensures Inv(Fresh(capacity))
  {
    var r := Fresh(capacity);
    forall p | 0 <= p < capacity
      ensures At(r.seqs, p) == p
    {
      QuotientIsUnique(capacity, p / capacity, p % capacity, 0, p);
    }
  }

  predicate Pending(ph: Phase) {
    ph.Checked? || ph.Positioned? || ph.Compared?
  }

  /** A call that has claimed nothing moves on. */
  lemma MovesOn(r: Ring, c: Call, ph: Phase)
    requires Inv(r) && c in r.flight && Pending(r.flight[c])
    requires Pending(ph) && CallAgrees(r, c, ph)
    ensures Inv(r.(flight := r.flight[c := ph]))
  {
    hide At;
    assert CallAgrees(r, c, r.flight[c]);
  }

  lemma BeginInv(r: Ring, c: Call)
    requires Inv(r) && c !in r.begun
    ensures Inv(Step(r, Begin(c)))
  {
    hide At;
  }

  lemma LoadInv(r: Ring, e: Event)
    requires Inv(r) && Enabled(r, e) && (e.Load? || e.Compare?)
    ensures Inv(Step(r, e))
  {
    hide At;
    assert CallAgrees(r, e.c, r.flight[e.c]);
    MovesOn(r, e.c, if e.Load? then Positioned(r.enqPos)
                    else Compared(r.flight[e.c].pos, At(r.seqs, r.flight[e.c].pos)));
  }

  lemma RefuseInv(r: Ring, c: Call)
    requires Inv(r) && c in r.flight && Pending(r.flight[c])
    ensures Inv(Refuse(r, c))
  {
    hide At;
    assert CallAgrees(r, c, r.flight[c]);
  }

  lemma ReceiverInv(r: Ring, e: Event)
    requires Inv(r) && Enabled(r, e) && (e.Look? || e.Copy? || e.CheckClosed? || e.Close?)
    ensures Inv(Step(r, e))
  {
    hide At, CallsAgree;
    assert CallsAgree(Step(r, e)) by { SameCalls(r, Step(r, e)); }
  }

  lemma SameCalls(r: Ring, r': Ring)
    requires Inv(r) && Shaped(r') && Base(r') == Base(r)
    requires r' == r.(receiver := r'.receiver, closed := r'.closed)
    ensures CallsAgree(r')
  {
    hide At;
  }

  /** A claim finds its slot free: had the ring been full, the slot's sequence number would
      still belong to the round before. This is where two slots are needed. */
  lemma ClaimFindsFree(r: Ring, c: Call)
    requires Inv(r) && c in r.flight && r.flight[c] == Compared(r.enqPos, r.enqPos)
    ensures r.enqPos < Base(r) + r.capacity
  {
    hide Index, At;
    NextSlot(r.seqs, Base(r));
  }

  lemma ClaimSlots(r: Ring, c: Call)
    requires Inv(r) && c in r.flight && c !in r.claimed && r.enqPos < Base(r) + r.capacity
    ensures SlotsAgree(Claim(r, c)) && ReceiverAgrees(Claim(r, c))
  {
    hide At;
    var r' := Claim(r, c);
    assert r'.claimed[..r'.deqPos] == r.claimed[..r.deqPos];
  }

  lemma ClaimInv(r: Ring, c: Call)
    requires Inv(r) && c in r.flight && r.flight[c] == Compared(r.enqPos, r.enqPos)
    ensures Inv(Claim(r, c))
  {
    hide At, ReceiverAgrees;
    ClaimFindsFree(r, c);
    assert CallAgrees(r, c, r.flight[c]);
    ClaimSlots(r, c);
    assert At(r.seqs, r.enqPos) == r.enqPos;
  }

  lemma DecideInv(r: Ring, c: Call, spurious: bool)
    requires Inv(r) && Enabled(r, Decide(c, spurious))
    ensures Inv(Step(r, Decide(c, spurious)))
  {
    assert CallAgrees(r, c, r.flight[c]);
    hide At, Inv, SlotsAgree, ReceiverAgrees;
    var p, v := r.flight[c].pos, r.flight[c].seqV;
    if v < p {
      RefuseInv(r, c);
    } else if v > p {
      MovesOn(r, c, Checked);
    } else if r.enqPos == p && !spurious {
      ClaimInv(r, c);
    } else {
      MovesOn(r, c, Positioned(r.enqPos));
    }
  }

  lemma FillSlots(r: Ring, c: Call)
    requires Inv(r) && Enabled(r, Fill(c))
    ensures SlotsAgree(Step(r, Fill(c))) && ReceiverAgrees(Step(r, Fill(c)))
  {
    hide At, Put;
    assert CallAgrees(r, c, r.flight[c]);
    OnePut(r.payload, Base(r), r.flight[c].pos, c);
  }

  lemma FillCalls(r: Ring, c: Call)
    requires Inv(r) && Enabled(r, Fill(c))
    ensures CallsAgree(Step(r, Fill(c)))
  {
    hide At, Put, ReceiverAgrees;
    assert CallAgrees(r, c, r.flight[c]);
    OnePut(r.payload, Base(r), r.flight[c].pos, c);
  }

  lemma FillInv(r: Ring, c: Call)
    requires Inv(r) && Enabled(r, Fill(c))
    ensures Inv(Step(r, Fill(c)))
  {
    hide SlotsAgree, CallsAgree, ReceiverAgrees;
    FillSlots(r, c);
    FillCalls(r, c);
  }

  lemma PublishSlots(r: Ring, c: Call)
    requires Inv(r) && Enabled(r, Publish(c))
    ensures SlotsAgree(Step(r, Publish(c))) && ReceiverAgrees(Step(r, Publish(c)))
  {
    hide At, Put;
    var p := r.flight[c].pos;
    assert CallAgrees(r, c, r.flight[c]);
    OnePut(r.seqs, Base(r), p, p + 1);
  }

  lemma PublishCalls(r: Ring, c: Call)
    requires Inv(r) && Enabled(r, Publish(c))
    ensures CallsAgree(Step(r, Publish(c)))
  {
    hide At, Put, ReceiverAgrees;
    var p := r.flight[c].pos;
    assert CallAgrees(r, c, r.flight[c]);
    OnePut(r.seqs, Base(r), p, p + 1);
    SeqGrows(r.seqs, p, p + 1);
  }

  lemma PublishInv(r: Ring, c: Call)
    requires Inv(r) && Enabled(r, Publish(c))
    ensures Inv(Step(r, Publish(c)))
  {
    hide SlotsAgree, CallsAgree, ReceiverAgrees;
    PublishSlots(r, c);
    PublishCalls(r, c);
  }

  lemma FreeInv(r: Ring)
    requires Inv(r) && Enabled(r, Free)
    ensures Inv(Step(r, Free))
  {
    hide Index, At, Put;
    var p := r.deqPos;
    OnePut(r.seqs, p, p, p + r.capacity);
    SeqGrows(r.seqs, p, p + r.capacity);
    NextSlot(Put(r.seqs, p, p + r.capacity), p);
  }

  lemma AdvanceInv(r: Ring)
    requires Inv(r) && Enabled(r, Advance)
    ensures Inv(Step(r, Advance))
  {
    hide At;
    assert r.claimed[..r.deqPos + 1] == r.claimed[..r.deqPos] + [r.claimed[r.deqPos]];
  }

  lemma StepInv(r: Ring, e: Event)
    requires Inv(r) && Enabled(r, e)
    ensures Inv(Step(r, e))
  {
    hide Inv, Step;
    match e
    case Decide(c, spurious) => DecideInv(r, c, spurious);
    case Fill(c) => FillInv(r, c);
    case Publish(c) => PublishInv(r, c);
    case Free => FreeInv(r);
    case Advance => AdvanceInv(r);
    case Begin(c) => BeginInv(r, c);
    case Load(_) => LoadInv(r, e);
    case Compare(_) => LoadInv(r, e);
    case _ => ReceiverInv(r, e);
  }

  lemma {:induction false} RunInv(r: Ring, es: seq<Event>)
    requires Inv(r) && Legal(r, es)
    ensures Inv(Run(r, es))
    decreases es
  {
    if es != [] {
      StepInv(r, es[0]);
      RunInv(Step(r, es[0]), es[1..]);
    }
  }
}
