/** When a pop's answer that nothing is free is the truth. */
module FreeListScans {
  import opened Sequences
  import opened Integers
  import opened FreeLists

  ghost predicate SomethingFree(f: FreeList) {
    exists k :: 0 <= k < |f.stacks| && f.stacks[k] != []
  }

  /** Something is free before the run and after each of its events. */
  ghost predicate NeverExhausted(f: FreeList, es: seq<Event>)
    requires Legal(f, es)
    decreases es
  {
    SomethingFree(f) && (es == [] || NeverExhausted(Step(f, es[0]), es[1..]))
  }

  /** The pop that thread `t` is in lasts through the run, and its last event is the load
      that ends it with nothing. */
  ghost predicate EndsWithNothing(f: FreeList, t: Thread, es: seq<Event>)
    requires Legal(f, es)
    decreases es
  {
    es != [] &&
    if es[1..] == [] then es[0] == Load(t) && t !in Step(f, es[0]).ops
    else t in Step(f, es[0]).ops && EndsWithNothing(Step(f, es[0]), t, es[1..])
  }

  /** After `before` thread `t` begins a pop; if it ends with nothing after `es`, there was a
      moment since when nothing was free. */
  ghost predicate AnswersTruly(f: FreeList, before: seq<Event>, t: Thread, hint: nat, es: seq<Event>) {
    Legal(f, before) && Shaped(Run(f, before)) && Enabled(Run(f, before), BeginPop(t, hint)) ==>
      var g := Step(Run(f, before), BeginPop(t, hint));
      Legal(g, es) && EndsWithNothing(g, t, es) ==> !NeverExhausted(g, es)
  }

  // ----- one shard, or one index: what is free cannot get behind the scan

  predicate Pops(op: Op) {
    op.Popping? || op.PopLoaded? || op.PopLinked?
  }

  /** The j-th shard a scan from `start` comes to holds something. */
  predicate HoldsAt(f: FreeList, start: nat, j: nat)
    requires 0 < |f.heads| == |f.stacks|
  {
    f.stacks[(start + j) % |f.heads|] != []
  }

  /** A shard the scan of `t` has still to come to holds something. */
  ghost predicate Ahead(f: FreeList, t: Thread)
    requires 0 < |f.heads| == |f.stacks|
  {
    t in f.ops && Pops(f.ops[t])
    && exists j: nat :: f.ops[t].offset <= j < |f.heads| && HoldsAt(f, f.ops[t].start, j)
  }

  ghost predicate OneShardOrIndex(f: FreeList) {
    |f.heads| == 1 || |f.links| <= 1
  }

  lemma StaysPut(f: FreeList, e: Event, k: nat)
    requires Inv(f) && Enabled(f, e) && OneShardOrIndex(f)
    requires SomethingFree(f) && SomethingFree(Step(f, e))
    requires k < |f.stacks| && f.stacks[k] != []
    ensures k < |Step(f, e).stacks| && Step(f, e).stacks[k] != []
  {
    var f' := Step(f, e);
    StepInv(f, e);
    var m :| 0 <= m < |f'.stacks| && f'.stacks[m] != [];
    if m != k {
      assert IsAt(f', f'.stacks[m][0], On(m)) && IsAt(f, f.stacks[k][0], On(k));
      assert f'.stacks[m][0] == 0 == f.stacks[k][0];
      assert !IsAt(f', 0, On(k)) && !IsAt(f, 0, On(m));
      assert !IsAt(f', 0, Loose);
    }
  }

  /** A pop goes on scanning from where it started, and only a load of an empty shard takes
      it to the next one. */
  lemma ScanGoesOn(f: FreeList, t: Thread, e: Event)
    requires Shaped(f) && Enabled(f, e) && t in f.ops && Pops(f.ops[t]) && t in Step(f, e).ops
    ensures |Step(f, e).heads| == |f.heads|
    ensures var op, op' := f.ops[t], Step(f, e).ops[t];
            && Pops(op') && op'.start == op.start
            && (op'.offset == op.offset
                || (op'.offset == op.offset + 1 && f.heads[(op.start + op.offset) % |f.heads|].top == None))
  {
  }

  lemma AheadStays(f: FreeList, t: Thread, e: Event)
    requires Inv(f) && Enabled(f, e) && OneShardOrIndex(f) && Ahead(f, t)
    requires SomethingFree(f) && SomethingFree(Step(f, e)) && t in Step(f, e).ops
    ensures Ahead(Step(f, e), t)
  {
    hide Step, StacksAgree, PlacesAgree, OpAgrees, SomethingFree;
    var s, o := f.ops[t].start, f.ops[t].offset;
    var j: nat :| o <= j < |f.heads| && HoldsAt(f, s, j);
    StaysPut(f, e, (s + j) % |f.heads|);
    ScanGoesOn(f, t, e);
    EmptyTop(f, (s + o) % |f.heads|);
    assert HoldsAt(Step(f, e), s, j);
  }

  lemma EmptyTop(f: FreeList, k: nat)
    requires Inv(f) && k < |f.heads|
    ensures f.heads[k].top == None <==> f.stacks[k] == []
  {
    assert Chain(f.links, f.heads[k].top, f.stacks[k]);
  }

  lemma LastLoadFindsIt(f: FreeList, t: Thread)
    requires Inv(f) && Ahead(f, t) && Enabled(f, Load(t))
    ensures t in Step(f, Load(t)).ops
  {
    EmptyTop(f, ShardOf(f, f.ops[t]));
    hide StacksAgree, PlacesAgree, OpAgrees;
  }

  lemma {:induction false} NeverEndsWithNothing(f: FreeList, t: Thread, es: seq<Event>)
    requires Inv(f) && OneShardOrIndex(f) && Ahead(f, t) && Legal(f, es) && NeverExhausted(f, es)
    ensures !EndsWithNothing(f, t, es)
    decreases es
  {
    if es != [] {
      if es[0] == Load(t) { LastLoadFindsIt(f, t); }
      hide Step, StacksAgree, PlacesAgree, OpAgrees;
      if es[1..] != [] && t in Step(f, es[0]).ops {
        StepInv(f, es[0]);
        AheadStays(f, t, es[0]);
        NeverEndsWithNothing(Step(f, es[0]), t, es[1..]);
      }
    }
  }

  /** The scan comes to every shard. */
  lemma ComesTo(start: nat, k: nat, n: nat) returns (j: nat)
    requires start < n && k < n
    ensures j < n && (start + j) % n == k
  {
    j := if k >= start then k - start else k + n - start;
    SmallRemainder(k, n);
    Around(k, n);
  }

  lemma TrulyWithOneShardOrIndex(f0: FreeList, before: seq<Event>, t: Thread, hint: nat, es: seq<Event>)
    requires Inv(f0) && OneShardOrIndex(f0)
    ensures AnswersTruly(f0, before, t, hint, es)
  {
    if Legal(f0, before) {
      var f := Run(f0, before);
      RunInv(f0, before);
      SameSize(f0, before);
      if Enabled(f, BeginPop(t, hint)) {
        var g := Step(f, BeginPop(t, hint));
        StepInv(f, BeginPop(t, hint));
        if Legal(g, es) && NeverExhausted(g, es) {
          var k :| 0 <= k < |g.stacks| && g.stacks[k] != [];
          var j := ComesTo(hint % |g.heads|, k, |g.heads|);
          assert HoldsAt(g, g.ops[t].start, j);
          NeverEndsWithNothing(g, t, es);
        }
      }
    }
  }

  lemma {:induction false} SameSize(f: FreeList, es: seq<Event>)
    requires Legal(f, es)
    ensures |Run(f, es).heads| == |f.heads| && |Run(f, es).links| == |f.links|
    decreases es
  {
    if es != [] {
      SameSize(Step(f, es[0]), es[1..]);
    }
  }

  // ----- two shards and two indices: the free index moves behind the scan

  /** A run from `f` in which `t`'s pop ends with nothing although something is free all along. */
  ghost predicate Misses(f: FreeList, t: Thread, es: seq<Event>) {
    Legal(f, es) && NeverExhausted(f, es) && EndsWithNothing(f, t, es)
  }

  lemma Unroll(f: FreeList, e: Event, rest: seq<Event>)
    requires Shaped(f) && Enabled(f, e) && Legal(Step(f, e), rest)
    ensures Legal(f, [e] + rest) && Run(f, [e] + rest) == Run(Step(f, e), rest)
  {
    assert ([e] + rest)[1..] == rest;
  }

  lemma MissesBefore(f: FreeList, e: Event, t: Thread, rest: seq<Event>)
    requires Shaped(f) && Enabled(f, e) && SomethingFree(f)
    requires Misses(Step(f, e), t, rest) && t in Step(f, e).ops
    ensures Misses(f, t, [e] + rest)
  {
    assert ([e] + rest)[1..] == rest;
  }

  function PushThen(i: nat, k: nat, rest: seq<Event>): seq<Event> {
    [BeginPush(1, i, k)] + ([Load(1)] + ([Link(1)] + ([Swap(1, false)] + rest)))
  }

  function PopThen(k: nat, rest: seq<Event>): seq<Event> {
    [BeginPop(2, k)] + ([Load(2)] + ([Link(2)] + ([Swap(2, false)] + rest)))
  }

  function Pushed(f: FreeList, i: nat, k: nat): (f': FreeList)
    requires k < |f.heads| == |f.stacks| && i < |f.links|
  {
    f.(heads := f.heads[k := Head(Some(i), f.heads[k].tag + 1)], links := f.links[i := f.heads[k].top],
       loose := f.loose - {i}, stacks := f.stacks[k := [i] + f.stacks[k]])
  }

  function Popped(f: FreeList, j: nat, k: nat): (f': FreeList)
    requires k < |f.heads| == |f.stacks| && j < |f.links|
  {
    f.(heads := f.heads[k := Head(f.links[j], f.heads[k].tag + 1)], loose := f.loose + {j}, stacks := f.stacks[k := []])
  }

  /** An event of one operation of `t` that leaves every stack and every other thread alone. */
  ghost predicate Quietly(f: FreeList, e: Event, t: Thread, f': FreeList) {
    && Shaped(f) && Enabled(f, e) && f' == Step(f, e)
    && f'.stacks == f.stacks && forall u <- f.ops :: u != t ==> u in f'.ops && f'.ops[u] == f.ops[u]
  }

  /** The states of an undisturbed push of `i` to shard `k`, by thread 1. */
  lemma PushStates(f: FreeList, i: nat, k: nat) returns (f1: FreeList, f2: FreeList, f3: FreeList)
    requires Inv(f) && k < |f.heads| && 1 !in f.ops && i in f.loose
    ensures Quietly(f, BeginPush(1, i, k), 1, f1)
    ensures Quietly(f1, Load(1), 1, f2)
    ensures Quietly(f2, Link(1), 1, f3)
    ensures Shaped(f3) && Enabled(f3, Swap(1, false))
    ensures i < |f.links| && Step(f3, Swap(1, false)) == Pushed(f, i, k)
  {
    hide StacksAgree, PlacesAgree, OpAgrees;
    SmallRemainder(k, |f.heads|);
    f1 := Step(f, BeginPush(1, i, k));
    f2 := Step(f1, Load(1));
    f3 := Step(f2, Link(1));
    assert Step(f3, Swap(1, false)).ops == f.ops;
  }

  lemma PushMisses(f: FreeList, i: nat, k: nat, rest: seq<Event>)
    requires Inv(f) && k < |f.heads| && 1 !in f.ops && 0 in f.ops && i in f.loose && SomethingFree(f)
    requires Misses(Pushed(f, i, k), 0, rest)
    ensures Misses(f, 0, PushThen(i, k, rest))
  {
    hide Step, Misses, StacksAgree, PlacesAgree, OpAgrees, Enabled;
    var f1, f2, f3 := PushStates(f, i, k);
    MissesBefore(f3, Swap(1, false), 0, rest);
    MissesBefore(f2, Link(1), 0, [Swap(1, false)] + rest);
    MissesBefore(f1, Load(1), 0, [Link(1)] + ([Swap(1, false)] + rest));
    MissesBefore(f, BeginPush(1, i, k), 0, [Load(1)] + ([Link(1)] + ([Swap(1, false)] + rest)));
  }

  /** The states of an undisturbed pop of the only index of shard `k`, by thread 2. */
  lemma PopStates(f: FreeList, j: nat, k: nat) returns (f1: FreeList, f2: FreeList, f3: FreeList)
    requires Inv(f) && k < |f.heads| && 2 !in f.ops && f.stacks[k] == [j]
    ensures Quietly(f, BeginPop(2, k), 2, f1)
    ensures Quietly(f1, Load(2), 2, f2)
    ensures Quietly(f2, Link(2), 2, f3)
    ensures Shaped(f3) && Enabled(f3, Swap(2, false))
    ensures j < |f.links| && Step(f3, Swap(2, false)) == Popped(f, j, k)
  {
    hide PlacesAgree, OpAgrees;
    assert Chain(f.links, f.heads[k].top, f.stacks[k]) && f.stacks[k][1..] == [];
    SmallRemainder(k, |f.heads|);
    f1 := Step(f, BeginPop(2, k));
    f2 := Step(f1, Load(2));
    f3 := Step(f2, Link(2));
    assert Step(f3, Swap(2, false)).ops == f.ops;
  }

  lemma PopMisses(f: FreeList, j: nat, k: nat, rest: seq<Event>)
    requires Inv(f) && k < |f.heads| && 2 !in f.ops && 0 in f.ops && f.stacks[k] == [j] && j < |f.links|
    requires Misses(Popped(f, j, k), 0, rest)
    ensures Misses(f, 0, PopThen(k, rest))
  {
    assert SomethingFree(f) by { assert f.stacks[k] != []; }
    hide Step, Misses, StacksAgree, PlacesAgree, OpAgrees, Enabled;
    var f1, f2, f3 := PopStates(f, j, k);
    MissesBefore(f3, Swap(2, false), 0, rest);
    MissesBefore(f2, Link(2), 0, [Swap(2, false)] + rest);
    MissesBefore(f1, Load(2), 0, [Link(2)] + ([Swap(2, false)] + rest));
    MissesBefore(f, BeginPop(2, k), 0, [Load(2)] + ([Link(2)] + ([Swap(2, false)] + rest)));
  }

  lemma PushedInv(f: FreeList, i: nat, k: nat)
    requires Inv(f) && k < |f.heads| && 1 !in f.ops && i in f.loose
    ensures i < |f.links| && Inv(Pushed(f, i, k))
    ensures Legal(f, PushThen(i, k, [])) && Run(f, PushThen(i, k, [])) == Pushed(f, i, k)
  {
    hide Step, StacksAgree, PlacesAgree, OpAgrees, Enabled, Legal, Run;
    var f1, f2, f3 := PushStates(f, i, k);
    StepInv(f, BeginPush(1, i, k));
    StepInv(f1, Load(1));
    StepInv(f2, Link(1));
    StepInv(f3, Swap(1, false));
    EmptyRun(Pushed(f, i, k));
    Unroll(f3, Swap(1, false), []);
    Unroll(f2, Link(1), [Swap(1, false)] + []);
    Unroll(f1, Load(1), [Link(1)] + ([Swap(1, false)] + []));
    Unroll(f, BeginPush(1, i, k), [Load(1)] + ([Link(1)] + ([Swap(1, false)] + [])));
  }

  lemma EmptyRun(f: FreeList)
    ensures Legal(f, []) && Run(f, []) == f
  {
  }

  lemma PoppedInv(f: FreeList, j: nat, k: nat)
    requires Inv(f) && k < |f.heads| && 2 !in f.ops && f.stacks[k] == [j]
    ensures j < |f.links| && Inv(Popped(f, j, k))
  {
    hide Step, StacksAgree, PlacesAgree, OpAgrees, Enabled;
    var f1, f2, f3 := PopStates(f, j, k);
    StepInv(f, BeginPop(2, k));
    StepInv(f1, Load(2));
    StepInv(f2, Link(2));
    StepInv(f3, Swap(2, false));
  }

  function LoadsThen(k: nat, rest: seq<Event>): seq<Event> {
    if k == 0 then rest else [Load(0)] + LoadsThen(k - 1, rest)
  }

  /** Thread 0's scan, at shard `o`, as the only operation. */
  function ScanAt(f: FreeList, o: nat): FreeList {
    f.(ops := map[0 := Popping(0, o)])
  }

  lemma OneLoad(f: FreeList, o: nat)
    requires Inv(f) && f.ops == map[0 := Popping(0, o)] && o < |f.heads| && f.stacks[o] == []
    ensures Enabled(f, Load(0))
    ensures Step(f, Load(0)) == if o + 1 < |f.heads| then ScanAt(f, o + 1) else f.(ops := map[])
  {
    EmptyTop(f, o);
    SmallRemainder(o, |f.heads|);
    hide StacksAgree, PlacesAgree, OpAgrees;
  }

  lemma {:induction false} ScanMisses(f: FreeList, o: nat, rest: seq<Event>)
    requires Inv(f) && o < |f.heads| && f.ops == map[0 := Popping(0, o)] && f.stacks[|f.heads| - 1] != []
    requires forall k | o <= k < |f.heads| - 1 :: f.stacks[k] == []
    requires Misses(ScanAt(f, |f.heads| - 1), 0, rest)
    ensures Misses(f, 0, LoadsThen(|f.heads| - 1 - o, rest))
    decreases |f.heads| - o
  {
    if o < |f.heads| - 1 {
      OneLoad(f, o);
      StepInv(f, Load(0));
      ScanMisses(ScanAt(f, o + 1), o + 1, rest);
      hide Misses, StacksAgree, PlacesAgree, OpAgrees;
      MissesBefore(f, Load(0), 0, LoadsThen(|f.heads| - 1 - (o + 1), rest));
    }
  }

  lemma LastLoad(f: FreeList)
    requires Inv(f) && f.ops == map[0 := Popping(0, |f.heads| - 1)] && f.stacks[|f.heads| - 1] == []
    requires SomethingFree(f)
    ensures Misses(f, 0, [Load(0)])
  {
    OneLoad(f, |f.heads| - 1);
    var f1 := Step(f, Load(0));
    assert f1.stacks == f.stacks;
    EmptyRun(f1);
    assert [Load(0)][1..] == [];
  }

  /** One index is pushed to the last shard. Thread 0 starts a pop and finds all the others
      empty; then a second index is pushed to the first shard and the one on the last popped,
      and thread 0 looks there. */
  function Overtaken(shards: nat): seq<Event>
    requires shards > 1
  {
    LoadsThen(shards - 1, PushThen(1, 0, PopThen(shards - 1, [Load(0)])))
  }

  lemma MovesBehind(f: FreeList)
    requires Inv(f) && |f.heads| > 1 && f.ops == map[0 := Popping(0, |f.heads| - 1)]
    requires 1 in f.loose && f.stacks[|f.heads| - 1] == [0]
    ensures Misses(f, 0, PushThen(1, 0, PopThen(|f.heads| - 1, [Load(0)])))
  {
    var last := |f.heads| - 1;
    assert SomethingFree(f) by { assert f.stacks[last] != []; }
    PushedInv(f, 1, 0);
    var f2 := Pushed(f, 1, 0);
    PoppedInv(f2, 0, last);
    var f3 := Popped(f2, 0, last);
    assert SomethingFree(f3) by { assert f3.stacks[0] != []; }
    hide Inv, Misses, SomethingFree, PushThen, PopThen;
    LastLoad(f3);
    PopMisses(f2, 0, last, [Load(0)]);
    PushMisses(f, 1, 0, PopThen(last, [Load(0)]));
  }

  lemma ScanIsOvertaken(f: FreeList)
    requires Inv(f) && |f.heads| > 1 && f.ops == map[0 := Popping(0, 0)] && 1 in f.loose
    requires f.stacks[|f.heads| - 1] == [0] && forall k | 0 <= k < |f.heads| - 1 :: f.stacks[k] == []
    ensures Misses(f, 0, Overtaken(|f.heads|))
  {
    var last := |f.heads| - 1;
    ScanInv(f, last);
    hide Inv, Misses, PushThen, PopThen;
    MovesBehind(ScanAt(f, last));
    ScanMisses(f, 0, PushThen(1, 0, PopThen(last, [Load(0)])));
  }

  /** Where thread 0's scan is does not matter to the invariant. */
  lemma ScanInv(f: FreeList, o: nat)
    requires Inv(f) && f.ops == map[0 := Popping(0, 0)] && o < |f.heads|
    ensures Inv(ScanAt(f, o))
  {
    OnlyKnows(f, 0, ScanAt(f, o));
  }

  lemma OvertakenFromFresh(shards: nat, capacity: nat)
    requires shards > 1 && capacity > 1
    ensures !AnswersTruly(Fresh(shards, capacity), PushThen(0, shards - 1, []), 0, 0, Overtaken(shards))
  {
    var f0 := Fresh(shards, capacity);
    FreshInv(shards, capacity);
    assert Upto(capacity)[0] == 0 && Upto(capacity)[1] == 1;
    assert 0 in f0.loose && 1 in f0.loose;
    PushedInv(f0, 0, shards - 1);
    var f := Pushed(f0, 0, shards - 1);
    BeginsPop(f, 0, 0);
    SmallRemainder(0, shards);
    var g := Step(f, BeginPop(0, 0));
    hide Misses, StacksAgree, PlacesAgree, OpAgrees, PushThen, PopThen, LoadsThen;
    ScanIsOvertaken(g);
    MissesMeans(g, 0, Overtaken(shards));
  }

  lemma MissesMeans(f: FreeList, t: Thread, es: seq<Event>)
    requires Misses(f, t, es)
    ensures Legal(f, es) && NeverExhausted(f, es) && EndsWithNothing(f, t, es)
  {
  }

  /** On every run from the start, a pop that ends with nothing had a moment when nothing was
      free, if and only if there is one shard or at most one index. */
  lemma EmptyAnswersTrueIff(shards: nat, capacity: nat)
    requires shards > 0
    ensures (shards == 1 || capacity <= 1) <==>
              forall before: seq<Event>, t: Thread, hint: nat, es: seq<Event> ::
                AnswersTruly(Fresh(shards, capacity), before, t, hint, es)
  {
    FreshInv(shards, capacity);
    if shards == 1 || capacity <= 1 {
      forall before: seq<Event>, t: Thread, hint: nat, es: seq<Event>
        ensures AnswersTruly(Fresh(shards, capacity), before, t, hint, es)
      {
        TrulyWithOneShardOrIndex(Fresh(shards, capacity), before, t, hint, es);
      }
    } else {
      OvertakenFromFresh(shards, capacity);
    }
  }
}
