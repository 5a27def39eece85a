/**
 The sharded free list of slabs and slot pools: one Treiber stack per shard, whose head
 word pairs the top index with a tag that every successful swap increments. One event per
 atomic operation, any number of threads.
 */
module FreeLists {
  import opened Sequences

  type Thread = nat

  datatype Head = Head(top: Option<nat>, tag: nat)

  datatype Op =
    | Pushing(shard: nat, idx: nat)
    | PushLoaded(shard: nat, idx: nat, was: Head)
    | PushLinked(shard: nat, idx: nat, was: Head)
    | Popping(start: nat, offset: nat)
    | PopLoaded(start: nat, offset: nat, was: Head)
    | PopLinked(start: nat, offset: nat, was: Head, next: Option<nat>)

  datatype FreeList = FreeList(
    heads: seq<Head>,
    links: seq<Option<nat>>,
    ops: map<Thread, Op>,
    loose: set<nat>,           // indices handed out, and not being pushed back
    stacks: seq<seq<nat>>)     // ghost view: what each shard holds, top first

  datatype Event =
    | BeginPush(t: Thread, idx: nat, hint: nat)
    | BeginPop(t: Thread, hint: nat)
    | Load(t: Thread)
    | Link(t: Thread)
    | Swap(t: Thread, spurious: bool)

  function Upto(n: nat): (s: seq<nat>)
    ensures |s| == n && forall i | 0 <= i < n :: s[i] == i
  {
    seq(n, i => i)
  }

  function Fresh(shards: nat, capacity: nat): (f: FreeList) {
    FreeList(seq(shards, _ => Head(None, 0)), seq(capacity, _ => None), map[],
             set i <- Upto(capacity), seq(shards, _ => []))
  }

  predicate Index(f: FreeList, i: Option<nat>) {
    i.Some? ==> i.value < |f.links|
  }

  predicate Shaped(f: FreeList) {
    && 0 < |f.heads| == |f.stacks|
    && (forall k | 0 <= k < |f.heads| :: Index(f, f.heads[k].top))
    && (forall i | 0 <= i < |f.links| :: Index(f, f.links[i]))
    && (forall t <- f.ops :: OpShaped(f, f.ops[t]))
    && (forall i <- f.loose :: i < |f.links|)
  }

  predicate OpShaped(f: FreeList, op: Op) {
    match op
    case Pushing(k, i) => k < |f.heads| && i < |f.links|
    case PushLoaded(k, i, was) => k < |f.heads| && i < |f.links| && Index(f, was.top)
    case PushLinked(k, i, was) => k < |f.heads| && i < |f.links|
    case Popping(_, o) => o < |f.heads|
    case PopLoaded(_, o, was) => o < |f.heads| && was.top.Some? && Index(f, was.top)
    case PopLinked(_, o, was, next) => o < |f.heads| && was.top.Some? && Index(f, was.top) && Index(f, next)
  }

  /** The shard an operation is at; a pop tries them all, from the preferred one on. */
  function ShardOf(f: FreeList, op: Op): (k: nat)
    requires 0 < |f.heads|
    ensures op.Popping? || op.PopLoaded? || op.PopLinked? || op.shard < |f.heads| ==> k < |f.heads|
  {
    match op
    case Popping(s, o) => (s + o) % |f.heads|
    case PopLoaded(s, o, _) => (s + o) % |f.heads|
    case PopLinked(s, o, _, _) => (s + o) % |f.heads|
    case _ => op.shard
  }

  predicate Enabled(f: FreeList, e: Event) {
    match e
    case BeginPush(t, idx, _) => t !in f.ops && idx in f.loose
    case BeginPop(t, _) => t !in f.ops
    case Load(t) => t in f.ops && (f.ops[t].Pushing? || f.ops[t].Popping?)
    case Link(t) => t in f.ops && (f.ops[t].PushLoaded? || f.ops[t].PopLoaded?)
    case Swap(t, _) => t in f.ops && (f.ops[t].PushLinked? || f.ops[t].PopLinked?)
  }

  function Loaded(f: FreeList, t: Thread): (f': FreeList)
    requires Shaped(f) && Enabled(f, Load(t))
    ensures Shaped(f')
  {
    var op := f.ops[t];
    var head := f.heads[ShardOf(f, op)];
    match op
    case Pushing(k, i) => f.(ops := f.ops[t := PushLoaded(k, i, head)])
    case Popping(s, o) =>
      if head.top.Some? then f.(ops := f.ops[t := PopLoaded(s, o, head)])
      else if o + 1 < |f.heads| then f.(ops := f.ops[t := Popping(s, o + 1)])
      else f.(ops := f.ops - {t})
  }

  function Linked(f: FreeList, t: Thread): (f': FreeList)
    requires Shaped(f) && Enabled(f, Link(t))
    ensures Shaped(f')
  {
    match f.ops[t]
    case PushLoaded(k, i, was) =>
      f.(links := f.links[i := was.top], ops := f.ops[t := PushLinked(k, i, was)])
    case PopLoaded(s, o, was) => f.(ops := f.ops[t := PopLinked(s, o, was, f.links[was.top.value])])
  }

  function Swapped(f: FreeList, t: Thread, spurious: bool): (f': FreeList)
    requires Shaped(f) && Enabled(f, Swap(t, spurious))
    ensures Shaped(f')
  {
    var op := f.ops[t];
    var k := ShardOf(f, op);
    var won := f.heads[k] == op.was && !spurious;
    match op
    case PushLinked(_, i, was) =>
      if won then
        f.(heads := f.heads[k := Head(Some(i), was.tag + 1)], ops := f.ops - {t},
           stacks := f.stacks[k := [i] + f.stacks[k]])
      else f.(ops := f.ops[t := Pushing(k, i)])
    case PopLinked(s, o, was, next) =>
      if won then
        f.(heads := f.heads[k := Head(next, was.tag + 1)], ops := f.ops - {t},
           loose := f.loose + {was.top.value},
           stacks := f.stacks[k := if f.stacks[k] == [] then [] else f.stacks[k][1..]])
      else f.(ops := f.ops[t := Popping(s, o)])
  }

  function Step(f: FreeList, e: Event): (f': FreeList)
    requires Shaped(f) && Enabled(f, e)
    ensures Shaped(f')
  {
    match e
    case BeginPush(t, i, hint) =>
      f.(ops := f.ops[t := Pushing(hint % |f.heads|, i)], loose := f.loose - {i})
    case BeginPop(t, hint) => f.(ops := f.ops[t := Popping(hint % |f.heads|, 0)])
    case Load(t) => Loaded(f, t)
    case Link(t) => Linked(f, t)
    case Swap(t, spurious) => Swapped(f, t, spurious)
  }

  /** The links lead from this top through exactly these indices. */
  ghost predicate Chain(links: seq<Option<nat>>, top: Option<nat>, stack: seq<nat>)
    decreases stack
  {
    if stack == [] then top == None
    else top == Some(stack[0]) && stack[0] < |links| && Chain(links, links[stack[0]], stack[1..])
  }

  ghost predicate StacksAgree(f: FreeList) {
    && 0 < |f.heads| == |f.stacks|
    && (forall k | 0 <= k < |f.heads| :: Chain(f.links, f.heads[k].top, f.stacks[k]))
  }

  predicate Carries(op: Op, i: nat) {
    (op.Pushing? || op.PushLoaded? || op.PushLinked?) && op.idx == i
  }

  /** The places an index can be at. */
  datatype Place = Loose | With(t: Thread) | On(shard: nat)

  ghost predicate IsAt(f: FreeList, i: nat, p: Place) {
    match p
    case Loose => i in f.loose
    case With(t) => t in f.ops && Carries(f.ops[t], i)
    case On(k) => k < |f.stacks| && i in f.stacks[k]
  }

  ghost predicate Somewhere(f: FreeList, i: nat) {
    exists p :: IsAt(f, i, p)
  }

  ghost predicate AtOnePlace(f: FreeList, i: nat) {
    exists p :: IsAt(f, i, p) && forall q :: IsAt(f, i, q) ==> q == p
  }

  predicate NoRepeats(s: seq<nat>) {
    forall d, e | 0 <= d < e < |s| :: s[d] != s[e]
  }

  /** Every index is at exactly one place, and on a stack once. */
  ghost predicate PlacesAgree(f: FreeList) {
    && (forall i | 0 <= i < |f.links| :: Somewhere(f, i))
    && (forall i: nat, p :: IsAt(f, i, p) ==> i < |f.links|)
    && (forall i: nat, p, q :: IsAt(f, i, p) && IsAt(f, i, q) ==> p == q)
    && (forall k | 0 <= k < |f.stacks| :: NoRepeats(f.stacks[k]))
  }

  /** What a thread has read is out of date, or still true. */
  ghost predicate OpAgrees(f: FreeList, op: Op)
    requires 0 < |f.heads|
  {
    var k := ShardOf(f, op);
    k < |f.heads| &&
    match op
    case PushLoaded(_, i, was) => Seen(f, k, was)
    case PushLinked(_, i, was) => Seen(f, k, was) && i < |f.links| && f.links[i] == was.top
    case PopLoaded(_, _, was) => Seen(f, k, was)
    case PopLinked(_, _, was, next) =>
      Seen(f, k, was) && (f.heads[k] == was && was.top.Some? && was.top.value < |f.links| ==> f.links[was.top.value] == next)
    case _ => true
  }

  ghost predicate Seen(f: FreeList, k: nat, was: Head)
    requires k < |f.heads|
  {
    was.tag <= f.heads[k].tag && (was.tag == f.heads[k].tag ==> was == f.heads[k])
  }

  ghost predicate Inv(f: FreeList) {
    Shaped(f) && StacksAgree(f) && PlacesAgree(f) && forall t <- f.ops :: OpAgrees(f, f.ops[t])
  }

  ghost predicate Legal(f: FreeList, es: seq<Event>)
    decreases es
  {
    es == [] || (Shaped(f) && Enabled(f, es[0]) && Legal(Step(f, es[0]), es[1..]))
  }

  ghost function Run(f: FreeList, es: seq<Event>): (f': FreeList)
    requires Legal(f, es)
    decreases es
  {
    if es == [] then f else Run(Step(f, es[0]), es[1..])
  }

  lemma FreshInv(shards: nat, capacity: nat)
    requires shards > 0
    ensures Inv(Fresh(shards, capacity))
  {
    var f := Fresh(shards, capacity);
    forall i | 0 <= i < capacity
      ensures Somewhere(f, i)
    {
      assert Upto(capacity)[i] == i;
      assert IsAt(f, i, Loose);
    }
  }

  /** Only `i` has moved. */
  lemma OneMoved(f: FreeList, f': FreeList, i: nat, to: Place)
    requires PlacesAgree(f) && |f'.links| == |f.links| && i < |f.links|
    requires forall j: nat, p :: IsAt(f', j, p) <==> if j == i then p == to else IsAt(f, j, p)
    requires forall k | 0 <= k < |f'.stacks| :: NoRepeats(f'.stacks[k])
    ensures PlacesAgree(f')
  {
    forall j | 0 <= j < |f'.links|
      ensures Somewhere(f', j)
    {
      assert Somewhere(f, j);
      var p :| IsAt(f, j, p);
      assert IsAt(f', j, if j == i then to else p);
    }
  }

  lemma NoneMoved(f: FreeList, f': FreeList)
    requires PlacesAgree(f) && |f'.links| == |f.links| && f'.stacks == f.stacks
    requires forall j: nat, p :: IsAt(f', j, p) <==> IsAt(f, j, p)
    ensures PlacesAgree(f')
  {
    forall j | 0 <= j < |f'.links|
      ensures Somewhere(f', j)
    {
      assert Somewhere(f, j);
      var p :| IsAt(f, j, p);
      assert IsAt(f', j, p);
    }
  }

  lemma ChainInRange(links: seq<Option<nat>>, top: Option<nat>, stack: seq<nat>)
    requires Chain(links, top, stack)
    ensures forall d | 0 <= d < |stack| :: stack[d] < |links|
    decreases stack
  {
    if stack != [] {
      ChainInRange(links, links[stack[0]], stack[1..]);
      forall d | 0 <= d < |stack|
        ensures stack[d] < |links|
      {
        if d > 0 { assert stack[d] == stack[1..][d - 1]; }
      }
    }
  }

  /** Rewriting the link of an index outside the stack leaves the chain alone. */
  lemma ChainElsewhere(links: seq<Option<nat>>, top: Option<nat>, stack: seq<nat>, i: nat, to: Option<nat>)
    requires Chain(links, top, stack) && i < |links| && i !in stack
    ensures Chain(links[i := to], top, stack)
    decreases stack
  {
    if stack != [] {
      assert stack[0] in stack;
      assert forall x <- stack[1..] :: x in stack;
      ChainElsewhere(links, links[stack[0]], stack[1..], i, to);
    }
  }

  lemma PushesWin(f: FreeList, t: Thread)
    requires Inv(f) && Enabled(f, Swap(t, false)) && f.ops[t].PushLinked?
    requires f.heads[f.ops[t].shard] == f.ops[t].was
    ensures Inv(Step(f, Swap(t, false)))
  {
    var PushLinked(k, i, was) := f.ops[t];
    var f' := Step(f, Swap(t, false));
    assert OpAgrees(f, f.ops[t]);
    assert IsAt(f, i, With(t));
    assert f'.stacks[k][1..] == f.stacks[k];
    assert Chain(f.links, was.top, f.stacks[k]);
    assert Chain(f'.links, f'.heads[k].top, f'.stacks[k]);
    assert StacksAgree(f');
    forall j: nat, p
      ensures IsAt(f', j, p) <==> if j == i then p == On(k) else IsAt(f, j, p)
    {
      assert j == i && IsAt(f, i, p) ==> p == With(t);
    }
    assert NoRepeats(f'.stacks[k]) by {
      assert !IsAt(f, i, On(k));
    }
    OneMoved(f, f', i, On(k));
    assert forall u <- f'.ops :: OpAgrees(f, f.ops[u]);
    assert forall u <- f'.ops :: OpAgrees(f', f'.ops[u]);
  }

  lemma BeginsPush(f: FreeList, e: Event)
    requires Inv(f) && Enabled(f, e) && e.BeginPush?
    ensures Inv(Step(f, e))
  {
    var f' := Step(f, e);
    assert IsAt(f, e.idx, Loose);
    forall j: nat, p
      ensures IsAt(f', j, p) <==> if j == e.idx then p == With(e.t) else IsAt(f, j, p)
    {
      assert j == e.idx && IsAt(f, j, p) ==> p == Loose;
    }
    OneMoved(f, f', e.idx, With(e.t));
  }

  /** Events that change only what a thread knows. */
  lemma OnlyKnows(f: FreeList, t: Thread, f': FreeList)
    requires Inv(f) && Shaped(f') && f' == f.(ops := f'.ops)
    requires f'.ops.Keys - {t} == f.ops.Keys - {t}
    requires forall u <- f'.ops :: u != t && u in f.ops ==> f'.ops[u] == f.ops[u]
    requires forall i: nat :: (t in f'.ops && Carries(f'.ops[t], i)) <==> (t in f.ops && Carries(f.ops[t], i))
    requires t in f'.ops ==> OpAgrees(f', f'.ops[t])
    ensures Inv(f')
  {
    forall u | u in f'.ops
      ensures OpAgrees(f', f'.ops[u])
    {
      if u != t {
        assert u in f'.ops.Keys - {t};
        assert OpAgrees(f, f.ops[u]);
      }
    }
    forall j: nat, p
      ensures IsAt(f', j, p) <==> IsAt(f, j, p)
    {
      if p.With? && p.t != t {
        assert p.t in f'.ops.Keys - {t} <==> p.t in f.ops.Keys - {t};
      }
    }
    NoneMoved(f, f');
  }

  lemma Loads(f: FreeList, t: Thread)
    requires Inv(f) && Enabled(f, Load(t))
    ensures Inv(Step(f, Load(t)))
  {
    OnlyKnows(f, t, Step(f, Load(t)));
  }

  lemma FailsSwap(f: FreeList, t: Thread, spurious: bool)
    requires Inv(f) && Enabled(f, Swap(t, spurious))
    requires spurious || f.heads[ShardOf(f, f.ops[t])] != f.ops[t].was
    ensures Inv(Step(f, Swap(t, spurious)))
  {
    OnlyKnows(f, t, Step(f, Swap(t, spurious)));
  }

  lemma BeginsPop(f: FreeList, t: Thread, hint: nat)
    requires Inv(f) && Enabled(f, BeginPop(t, hint))
    ensures Inv(Step(f, BeginPop(t, hint)))
  {
    OnlyKnows(f, t, Step(f, BeginPop(t, hint)));
  }

  lemma PopLinks(f: FreeList, t: Thread)
    requires Inv(f) && Enabled(f, Link(t)) && f.ops[t].PopLoaded?
    ensures Inv(Step(f, Link(t)))
  {
    assert OpAgrees(f, f.ops[t]);
    OnlyKnows(f, t, Step(f, Link(t)));
  }

  /** The only write to a link: the writer has the index, so it is on no stack, and no
      head that is still current leads to it. */
  lemma PushLinks(f: FreeList, t: Thread)
    requires Inv(f) && Enabled(f, Link(t)) && f.ops[t].PushLoaded?
    ensures Inv(Step(f, Link(t)))
  {
    var f' := Step(f, Link(t));
    var i := f.ops[t].idx;
    assert IsAt(f, i, With(t));
    forall k | 0 <= k < |f.heads|
      ensures Chain(f'.links, f'.heads[k].top, f'.stacks[k])
      ensures f.heads[k].top != Some(i)
    {
      assert !IsAt(f, i, On(k));
      ChainElsewhere(f.links, f.heads[k].top, f.stacks[k], i, f.ops[t].was.top);
    }
    forall u | u in f'.ops
      ensures OpAgrees(f', f'.ops[u])
    {
      assert OpAgrees(f, f.ops[u]);
      if u != t && f.ops[u].PushLinked? { assert !IsAt(f, i, With(u)); }
    }
    NoneMoved(f, f');
  }

  /** A pop that wins takes the top: its tag says that nothing was swapped since it read
      the head, so the link it read is still the one below. */
  lemma PopsWin(f: FreeList, t: Thread)
    requires Inv(f) && Enabled(f, Swap(t, false)) && f.ops[t].PopLinked?
    requires f.heads[ShardOf(f, f.ops[t])] == f.ops[t].was
    ensures Inv(Step(f, Swap(t, false)))
    ensures var k := ShardOf(f, f.ops[t]);
            f.stacks[k] != [] && f.ops[t].was.top == Some(f.stacks[k][0])
  {
    var k := ShardOf(f, f.ops[t]);
    var f' := Step(f, Swap(t, false));
    assert OpAgrees(f, f.ops[t]);
    assert Chain(f.links, f.heads[k].top, f.stacks[k]);
    var i := f.stacks[k][0];
    assert StacksAgree(f');
    assert IsAt(f, i, On(k));
    forall j: nat, p
      ensures IsAt(f', j, p) <==> if j == i then p == Loose else IsAt(f, j, p)
    {
      assert j == i && IsAt(f, i, p) ==> p == On(k);
      assert f.stacks[k] == [i] + f'.stacks[k];
    }
    OneMoved(f, f', i, Loose);
    assert forall u <- f'.ops :: OpAgrees(f, f.ops[u]);
    assert forall u <- f'.ops :: OpAgrees(f', f'.ops[u]);
  }

  lemma StepInv(f: FreeList, e: Event)
    requires Inv(f) && Enabled(f, e)
    ensures Inv(Step(f, e))
  {
    hide Step, StacksAgree, PlacesAgree, OpAgrees;
    match e
    case BeginPush(_, _, _) => BeginsPush(f, e);
    case BeginPop(t, hint) => BeginsPop(f, t, hint);
    case Load(t) => Loads(f, t);
    case Link(t) => if f.ops[t].PushLoaded? { PushLinks(f, t); } else { PopLinks(f, t); }
    case Swap(t, spurious) =>
      if spurious || f.heads[ShardOf(f, f.ops[t])] != f.ops[t].was { FailsSwap(f, t, spurious); }
      else if f.ops[t].PushLinked? { PushesWin(f, t); } else { PopsWin(f, t); }
  }

  lemma {:induction false} RunInv(f: FreeList, es: seq<Event>)
    requires Inv(f) && Legal(f, es)
    ensures Inv(Run(f, es))
    decreases es
  {
    if es != [] {
      StepInv(f, es[0]);
      RunInv(Step(f, es[0]), es[1..]);
    }
  }
}
