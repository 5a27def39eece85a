/** What the bounded queue promises over whole runs. */
module RingRuns {
  import opened MpscRing

  lemma {:induction false} ClaimsOnlyGrow(r: Ring, es: seq<Event>)
    requires Shaped(r) && Legal(r, es)
    ensures r.claimed <= Run(r, es).claimed
    decreases es
  {
    if es != [] {
      ClaimsOnlyGrow(Step(r, es[0]), es[1..]);
    }
  }

  /** Whatever the schedule: items come out in the order their slots were claimed, none
      twice and none made up; a call that returned false put nothing in; and an item
      accepted and not handed out yet is in its slot, published. */
  lemma EachItemOnceInOrder(capacity: nat, es: seq<Event>)
    requires capacity >= 2 && Legal(Fresh(capacity), es)
    ensures var r := Run(Fresh(capacity), es);
            && |r.claimed| == r.enqPos && r.dequeued <= r.claimed
            && (forall i, j | 0 <= i < j < |r.claimed| :: r.claimed[i] != r.claimed[j])
            && (forall c <- r.dequeued :: c in r.succeeded)
            && (forall c <- r.claimed :: c in r.flight || c in r.succeeded)
            && (forall p | Base(r) <= p < r.enqPos && r.claimed[p] in r.succeeded ::
                  At(r.seqs, p) == p + 1 && At(r.payload, p) == r.claimed[p])
            && (r.flight == map[] && r.enqPos == r.deqPos ==> r.succeeded == set c <- r.dequeued)
  {
    FreshInv(capacity);
    RunInv(Fresh(capacity), es);
    var r := Run(Fresh(capacity), es);
    hide At;
    forall p | Base(r) <= p < r.enqPos && r.claimed[p] in r.succeeded
      ensures At(r.seqs, p) == p + 1 && At(r.payload, p) == r.claimed[p]
    {
      assert r.claimed[p] !in r.flight;
    }
    if r.enqPos == r.deqPos {
      assert r.dequeued == r.claimed;
    }
  }

  /** A call that returned before another began is ahead of it: first in, first out for
      every pair of calls that do not overlap, hence for each sender. */
  lemma EarlierCallsComeFirst(r: Ring, es: seq<Event>, a: Call, b: Call)
    requires Inv(r) && Legal(r, es) && a in r.succeeded && b !in r.begun
    ensures var r' := Run(r, es);
            b in r'.claimed ==>
              exists i, j :: 0 <= i < j < |r'.claimed| && r'.claimed[i] == a && r'.claimed[j] == b
  {
    ClaimsOnlyGrow(r, es);
    var r' := Run(r, es);
    var i :| 0 <= i < |r.claimed| && r.claimed[i] == a;
    if b in r'.claimed {
      var j :| 0 <= j < |r'.claimed| && r'.claimed[j] == b;
      assert forall k | 0 <= k < |r.claimed| :: r.claimed[k] in r.begun && r'.claimed[k] == r.claimed[k];
      assert j >= |r.claimed| && r'.claimed[i] == a;
    }
  }

  /** A sender is told the ring is full exactly when, at the moment it read the slot, all
      slots were claimed and not yet freed. */
  lemma FullMeansFull(r: Ring, c: Call)
    requires Inv(r) && Enabled(r, Compare(c))
    ensures var ph := Step(r, Compare(c)).flight[c];
            && (ph.seqV < ph.pos <==> ph.pos == Base(r) + r.capacity)
            && (ph.seqV < ph.pos ==> r.enqPos == Base(r) + r.capacity)
  {
    var p := r.flight[c].pos;
    assert CallAgrees(r, c, r.flight[c]);
    NextSlot(r.seqs, Base(r));
    if p < Base(r) {
      NeverBehind(r, p);
    }
    hide At;
  }

  /** The slot of a position already freed has moved on to a later round. */
  lemma NeverBehind(r: Ring, p: nat)
    requires Inv(r) && p < Base(r)
    ensures At(r.seqs, p) > p
    decreases Base(r) - p
  {
    hide At;
    NextSlot(r.seqs, p);
    if p + r.capacity < Base(r) {
      NeverBehind(r, p + r.capacity);
    }
  }

  /** The receiver finds nothing exactly when nothing is claimed, or the call whose turn
      it is has claimed its slot and not published yet. */
  lemma MissMeansNothingNext(r: Ring)
    requires Inv(r) && Enabled(r, Look)
    ensures Step(r, Look).receiver == Missed <==>
              r.enqPos == r.deqPos || r.claimed[r.deqPos] in r.flight
  {
    if r.deqPos < r.enqPos && r.claimed[r.deqPos] in r.flight {
      assert CallAgrees(r, r.claimed[r.deqPos], r.flight[r.claimed[r.deqPos]]);
    }
    hide At;
  }

  /** The call has already read that the ring is full, and will return false. */
  predicate Doomed(ph: Phase) {
    ph.Compared? && ph.seqV < ph.pos
  }

  /** Everything accepted has been handed out. */
  ghost predicate Delivered(r: Ring) {
    forall c <- r.succeeded :: c in r.dequeued
  }

  /** Nothing is claimed that was not handed out, and no call can still claim. */
  ghost predicate NobodyOnTheWay(r: Ring) {
    r.enqPos == r.deqPos && forall c <- r.flight :: Doomed(r.flight[c])
  }

  lemma {:induction false} StaysDelivered(r: Ring, es: seq<Event>)
    requires Inv(r) && r.receiver == Retired && r.closed && NobodyOnTheWay(r) && Legal(r, es)
    ensures Delivered(Run(r, es))
    decreases es
  {
    if es == [] {
      assert r.claimed[..r.deqPos] == r.claimed;
    } else {
      StepInv(r, es[0]);
      hide Inv;
      StaysDelivered(Step(r, es[0]), es[1..]);
    }
  }

  /** How far a call is from publishing, in a ring that is empty when it has not claimed. */
  function Distance(r: Ring, ph: Phase): nat {
    match ph
    case Filled(_) => 0
    case Claimed(_) => 1
    case Compared(p, v) => if v > p then 5 else if p == r.enqPos then 2 else 4
    case Positioned(p) => if p == r.enqPos then 3 else 6
    case Checked => 4
  }

  function NextOf(c: Call, ph: Phase): Event {
    match ph
    case Filled(_) => Publish(c)
    case Claimed(_) => Fill(c)
    case Compared(_, _) => Decide(c, false)
    case Positioned(_) => Compare(c)
    case Checked => Load(c)
  }

  ghost predicate CanComplete(r: Ring, c: Call) {
    && c in r.flight && r.receiver == Retired
    && (Pending(r.flight[c]) ==> r.enqPos == r.deqPos && !Doomed(r.flight[c]))
  }

  lemma OneStepCloser(r: Ring, c: Call)
    requires Inv(r) && CanComplete(r, c)
    ensures var e := NextOf(c, r.flight[c]);
            && Enabled(r, e) && Step(r, e).dequeued == r.dequeued && Step(r, e).receiver == Retired
            && (c in Step(r, e).succeeded
                || (CanComplete(Step(r, e), c) && Distance(Step(r, e), Step(r, e).flight[c]) < Distance(r, r.flight[c])))
  {
    assert CallAgrees(r, c, r.flight[c]);
    if r.flight[c].Positioned? {
      FullMeansFull(r, c);
      if r.flight[c].pos == r.enqPos {
        assert At(r.seqs, r.enqPos) == r.enqPos;
      } else {
        NeverBehind(r, r.flight[c].pos);
      }
    }
    hide At;
  }

  lemma Completes(r: Ring, c: Call) returns (es: seq<Event>)
    requires Inv(r) && CanComplete(r, c)
    ensures Legal(r, es) && c in Run(r, es).succeeded && Run(r, es).dequeued == r.dequeued
    decreases Distance(r, r.flight[c])
  {
    hide Inv, CanComplete, Distance, NextOf;
    assert c in r.flight by { InFlight(r, c); }
    var e := NextOf(c, r.flight[c]);
    OneStepCloser(r, c);
    StepInv(r, e);
    if c in Step(r, e).succeeded {
      es := [e];
      assert es[1..] == [];
      assert Run(Step(r, e), []) == Step(r, e);
    } else {
      var rest := Completes(Step(r, e), c);
      es := [e] + rest;
      assert es[1..] == rest;
    }
  }

  lemma InFlight(r: Ring, c: Call)
    requires CanComplete(r, c)
    ensures c in r.flight
  {
  }

  lemma NotDeliveredYet(r: Ring, c: Call)
    requires Inv(r) && c in r.flight
    ensures c !in r.dequeued
  {
    hide At;
  }

  lemma LateCallIsLost(r: Ring) returns (es: seq<Event>)
    requires Inv(r) && r.receiver == Retired && !NobodyOnTheWay(r)
    ensures Legal(r, es) && !Delivered(Run(r, es))
  {
    hide At;
    if r.deqPos < r.enqPos && r.claimed[r.deqPos] in r.succeeded {
      es := [];
      assert r.claimed[r.deqPos] !in r.dequeued;
    } else {
      var c :| c in r.flight && CanComplete(r, c) by {
        if r.deqPos < r.enqPos {
          assert CanComplete(r, r.claimed[r.deqPos]);
        } else {
          var d :| d in r.flight && !Doomed(r.flight[d]);
          assert CanComplete(r, d);
        }
      }
      NotDeliveredYet(r, c);
      es := Completes(r, c);
    }
  }

  /** The receiver gives up for good in exactly one way, by finding the flag set after a miss;
      on a ring that is not closed it looks again. */
  lemma RetiresIff(r: Ring, e: Event)
    requires Shaped(r) && Enabled(r, e) && r.receiver != Retired
    ensures Step(r, e).receiver == Retired <==> e == CheckClosed && r.closed
    ensures e == CheckClosed && !r.closed ==> r.receiver == Missed && Step(r, e) == r.(receiver := Idle)
    ensures Step(r, e).closed <==> r.closed || e == Close
  {
  }

  ghost predicate RetiredIsClosed(r: Ring) {
    r.receiver == Retired ==> r.closed
  }

  lemma {:induction false} RetiredOnlyWhenClosed(r: Ring, es: seq<Event>)
    requires Shaped(r) && RetiredIsClosed(r) && Legal(r, es)
    ensures RetiredIsClosed(Run(r, es))
    ensures r.receiver == Retired ==>
              Run(r, es).receiver == Retired && Run(r, es).dequeued == r.dequeued
    ensures Close !in es ==> Run(r, es).closed == r.closed
    decreases es
  {
    if es != [] {
      if r.receiver != Retired { RetiresIff(r, es[0]); }
      assert Close !in es ==> es[0] != Close && Close !in es[1..];
      RetiredOnlyWhenClosed(Step(r, es[0]), es[1..]);
    }
  }

  /** Whatever the schedule: on a ring that nobody closes the receiver never gives up, and
      once it has, nothing more is handed out. */
  lemma NobodyClosesNobodyRetires(capacity: nat, es: seq<Event>)
    requires capacity > 0 && Legal(Fresh(capacity), es)
    ensures Run(Fresh(capacity), es).receiver == Retired ==> Run(Fresh(capacity), es).closed && Close in es
  {
    RetiredOnlyWhenClosed(Fresh(capacity), es);
  }

  /** A call returns false in exactly two ways: it finds the flag set when it begins, or a
      sequence number of the round before in the slot it read. It returns true when it has
      published, and not otherwise. */
  lemma ReturnsFalseIff(r: Ring, e: Event, c: Call)
    requires Inv(r) && Enabled(r, e) && c !in r.succeeded
    requires if e == Begin(c) then c !in r.flight else c in r.flight
    ensures c !in Step(r, e).flight && c !in Step(r, e).succeeded <==>
              || (e == Begin(c) && r.closed)
              || (e.Decide? && e.c == c && r.flight[c].seqV < r.flight[c].pos)
    ensures c in Step(r, e).succeeded <==> e == Publish(c)
    ensures c in Step(r, e).claimed <==>
              || c in r.claimed
              || (e == Decide(c, false) && r.flight[c].seqV == r.flight[c].pos == r.enqPos)
  {
    hide At;
  }

  /** The poll function retires on a closed ring in which it has found nothing. No call
      that returns true is lost by that, whatever the senders still in flight do, if and
      only if no slot is claimed and none of them has passed the closed check without
      having found the ring full. The flag alone does not ensure it. */
  lemma RetiresCleanlyIff(r: Ring)
    requires Inv(r) && r.receiver == Missed && r.closed
    ensures NobodyOnTheWay(r) <==>
              forall es: seq<Event> :: Legal(Step(r, CheckClosed), es) ==> Delivered(Run(Step(r, CheckClosed), es))
  {
    var r' := Step(r, CheckClosed);
    StepInv(r, CheckClosed);
    assert NobodyOnTheWay(r') <==> NobodyOnTheWay(r);
    hide Inv, NobodyOnTheWay, Delivered;
    if NobodyOnTheWay(r) {
      forall es: seq<Event> | Legal(r', es)
        ensures Delivered(Run(r', es))
      {
        StaysDelivered(r', es);
      }
    } else {
      var es := LateCallIsLost(r');
    }
  }

  /** A run that ends closed and found empty, and still loses a call: one sender looked at
      the flag before it was set. */
  lemma ClosedAndEmptyIsNotEnough(c: Call)
    ensures var es := [Begin(c), Close, Look];
            && Legal(Fresh(2), es)
            && var r := Run(Fresh(2), es);
               && Inv(r) && r.closed && r.receiver == Missed && r.enqPos == r.deqPos && !NobodyOnTheWay(r)
  {
    FreshInv(2);
    var r1 := Step(Fresh(2), Begin(c));
    var r2 := Step(r1, Close);
    assert At(r2.seqs, 0) == 0 by { assert Index(2, 0) == 0; }
    var r3 := Step(r2, Look);
    EmptyRun(r3);
    Unroll(r2, Look, []);
    Unroll(r1, Close, [Look]);
    Unroll(Fresh(2), Begin(c), [Close, Look]);
    assert [Begin(c), Close, Look] == [Begin(c)] + ([Close] + ([Look] + []));
    assert r3.flight[c] == Checked;
    RunInv(Fresh(2), [Begin(c), Close, Look]);
  }

  // ----- capacity 1: a power of two, and accepted, but the sequence numbers of a published
  // and of a freed slot coincide

  function WholeCall(c: Call): (es: seq<Event>) {
    [Begin(c), Load(c), Compare(c), Decide(c, false), Fill(c), Publish(c)]
  }

  /** A single slot, ready for the next claim, and no call in flight. */
  ghost predicate OneReady(r: Ring) {
    && Shaped(r) && r.capacity == 1 && r.flight == map[] && !r.closed && r.receiver == Idle
    && r.seqs == [r.enqPos] && r.deqPos == 0 && r.dequeued == []
  }

  lemma OnlySlot(p: nat)
    ensures Index(1, p) == 0
  {
  }

  lemma Unroll(r: Ring, e: Event, rest: seq<Event>)
    requires Shaped(r) && Enabled(r, e) && Legal(Step(r, e), rest)
    ensures Legal(r, [e] + rest) && Run(r, [e] + rest) == Run(Step(r, e), rest)
  {
    assert ([e] + rest)[1..] == rest;
  }

  lemma OneSlotAccepts(r: Ring, c: Call)
    requires OneReady(r) && c !in r.begun
    ensures Legal(r, WholeCall(c))
    ensures var r' := Run(r, WholeCall(c));
            && OneReady(r') && r'.enqPos == r.enqPos + 1 && r'.begun == r.begun + {c}
            && r'.succeeded == r.succeeded + {c}
  {
    var p := r.enqPos;
    OnlySlot(p);
    var r1 := Step(r, Begin(c));
    var r2 := Step(r1, Load(c));
    var r3 := Step(r2, Compare(c));
    assert r3.flight[c] == Compared(p, p);
    var r4 := Step(r3, Decide(c, false));
    var r5 := Step(r4, Fill(c));
    var r6 := Step(r5, Publish(c));
    assert r6.flight == map[] && r6.seqs == [p + 1];
    hide Step, Legal, Run;
    assert Legal(r6, []) && Run(r6, []) == r6 by { EmptyRun(r6); }
    Unroll(r5, Publish(c), []);
    Unroll(r4, Fill(c), [Publish(c)]);
    Unroll(r3, Decide(c, false), [Fill(c), Publish(c)]);
    Unroll(r2, Compare(c), [Decide(c, false), Fill(c), Publish(c)]);
    Unroll(r1, Load(c), [Compare(c), Decide(c, false), Fill(c), Publish(c)]);
    Unroll(r, Begin(c), [Load(c), Compare(c), Decide(c, false), Fill(c), Publish(c)]);
    assert WholeCall(c) == [Begin(c)] + [Load(c), Compare(c), Decide(c, false), Fill(c), Publish(c)];
  }

  lemma EmptyRun(r: Ring)
    requires Shaped(r)
    ensures Legal(r, []) && Run(r, []) == r
  {
  }

  lemma {:induction false} JoinRuns(r: Ring, a: seq<Event>, b: seq<Event>)
    requires Shaped(r) && Legal(r, a) && Legal(Run(r, a), b)
    ensures Legal(r, a + b) && Run(r, a + b) == Run(Run(r, a), b)
    decreases a
  {
    if a == [] {
      assert a + b == b;
    } else {
      assert (a + b)[1..] == a[1..] + b;
      JoinRuns(Step(r, a[0]), a[1..], b);
    }
  }

  /** The sequence number has run past the receiver. */
  ghost predicate PastReceiver(r: Ring) {
    && Shaped(r) && r.capacity == 1 && r.deqPos == 0 && r.dequeued == [] && r.seqs[0] >= 2 && r.enqPos >= 1
    && (r.receiver == Idle || r.receiver == Missed || r.receiver == Retired)
    && forall c <- r.flight :: r.flight[c].Claimed? || r.flight[c].Filled? ==> r.flight[c].pos >= 1
  }

  lemma {:induction false} NothingComesOut(r: Ring, es: seq<Event>)
    requires PastReceiver(r) && Legal(r, es)
    ensures Run(r, es).dequeued == []
    decreases es
  {
    if es != [] {
      OnlySlot(r.deqPos);
      if es[0].Publish? { OnlySlot(r.flight[es[0].c].pos); }
      assert PastReceiver(Step(r, es[0]));
      NothingComesOut(Step(r, es[0]), es[1..]);
    }
  }

  /** Two calls, one after the other, on a ring of one slot: both return true, and neither
      item, nor any later one, is ever handed out. */
  lemma OneSlotLosesCalls(a: Call, b: Call)
    requires a != b
    ensures Legal(Fresh(1), WholeCall(a) + WholeCall(b))
    ensures var r := Run(Fresh(1), WholeCall(a) + WholeCall(b));
            && r.succeeded == {a, b} && r.flight == map[] && r.receiver == Idle
            && forall es: seq<Event> :: Legal(r, es) ==> Run(r, es).dequeued == []
  {
    OneSlotAccepts(Fresh(1), a);
    var r1 := Run(Fresh(1), WholeCall(a));
    OneSlotAccepts(r1, b);
    JoinRuns(Fresh(1), WholeCall(a), WholeCall(b));
    var r := Run(Fresh(1), WholeCall(a) + WholeCall(b));
    assert PastReceiver(r);
    forall es: seq<Event> | Legal(r, es)
      ensures Run(r, es).dequeued == []
    {
      NothingComesOut(r, es);
    }
  }

  /** Every accepted item has been handed out, is in the receiver's hands, or is published
      in its slot within the receiver's reach. */
  ghost predicate Kept(r: Ring) {
    Shaped(r) && forall c <- r.succeeded ::
      || c in r.dequeued || r.receiver == Freed(c)
      || exists p :: Reaches(r, p, c)
  }

  predicate Reaches(r: Ring, p: nat, c: Call)
    requires Shaped(r)
  {
    Base(r) <= p < Base(r) + r.capacity && At(r.seqs, p) == p + 1 && At(r.payload, p) == c
  }

  lemma InvKeeps(r: Ring)
    requires Inv(r)
    ensures Kept(r)
  {
    hide At;
    forall c | c in r.succeeded
      ensures c in r.dequeued || r.receiver == Freed(c) || exists p :: Reaches(r, p, c)
    {
      var i :| 0 <= i < |r.claimed| && r.claimed[i] == c;
      if i < r.deqPos {
        assert r.dequeued[i] == c;
      } else if i >= Base(r) {
        assert c !in r.flight;
        assert Reaches(r, i, c);
      }
    }
  }

  /** The ring keeps what it accepts, on every run, exactly when it has two slots or more. */
  lemma KeepsItemsIffTwoSlots(capacity: nat)
    requires capacity > 0
    ensures capacity >= 2 <==>
              forall es: seq<Event> :: Legal(Fresh(capacity), es) ==> Kept(Run(Fresh(capacity), es))
  {
    if capacity >= 2 {
      FreshInv(capacity);
      forall es: seq<Event> | Legal(Fresh(capacity), es)
        ensures Kept(Run(Fresh(capacity), es))
      {
        RunInv(Fresh(capacity), es);
        InvKeeps(Run(Fresh(capacity), es));
      }
    } else {
      OneSlotLosesCalls(0, 1);
      var es := WholeCall(0) + WholeCall(1);
      var r := Run(Fresh(1), es);
      EmptyRun(r);
      OneSlotHoldsOne(r, 0, 1);
    }
  }

  lemma OneSlotHoldsOne(r: Ring, a: Call, b: Call)
    requires Shaped(r) && r.capacity == 1 && a != b && {a, b} <= r.succeeded
    requires r.dequeued == [] && r.receiver == Idle
    ensures !Kept(r)
  {
    forall p: nat
      ensures At(r.payload, p) == r.payload[0]
    {
      OnlySlot(p);
    }
    assert a in r.succeeded && b in r.succeeded;
  }
}
