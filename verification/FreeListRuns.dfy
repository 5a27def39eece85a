/** What the sharded free list promises over whole runs, and what it does not. */
module FreeListRuns {
  import opened Sequences
  import opened FreeLists

  /** From the empty list with every index loose, in every interleaving of pushes and pops
      with any hints: each index is on one stack, once, or with one thread that is pushing
      it, or loose. So no index is lost and none is handed out twice. */
  lemma EachIndexAtOnePlace(shards: nat, capacity: nat, es: seq<Event>)
    requires shards > 0 && Legal(Fresh(shards, capacity), es)
    ensures var f := Run(Fresh(shards, capacity), es);
            && (forall i: nat, p :: IsAt(f, i, p) ==> i < |f.links|)
            && (forall i | 0 <= i < |f.links| :: AtOnePlace(f, i))
            && (forall k | 0 <= k < |f.stacks| :: NoRepeats(f.stacks[k]))
            && StacksAgree(f)
  {
    FreshInv(shards, capacity);
    RunInv(Fresh(shards, capacity), es);
    var f := Run(Fresh(shards, capacity), es);
    forall i | 0 <= i < |f.links|
      ensures AtOnePlace(f, i)
    {
      assert Somewhere(f, i);
      var p :| IsAt(f, i, p);
    }
  }

  /** A swap that wins is the operation on a plain stack, however many pushes and pops came
      between the thread's load and its swap: a push puts its index on top, a pop hands
      out the top one, and the links follow. A swap that fails changes no stack. */
  lemma SwapIsStackOperation(f: FreeList, t: Thread, spurious: bool)
    requires Inv(f) && Enabled(f, Swap(t, spurious))
    ensures var f' := Step(f, Swap(t, spurious));
            var op, k := f.ops[t], ShardOf(f, f.ops[t]);
            && k < |f.stacks| && StacksAgree(f')
            && if f.heads[k] != op.was || spurious then f'.stacks == f.stacks && f'.loose == f.loose
               else if op.PushLinked? then f'.stacks == f.stacks[k := [op.idx] + f.stacks[k]]
               else f.stacks[k] != [] && op.was.top == Some(f.stacks[k][0])
                    && f'.stacks == f.stacks[k := f.stacks[k][1..]]
                    && f'.loose == f.loose + {f.stacks[k][0]}
  {
    StepInv(f, Swap(t, spurious));
    var k := ShardOf(f, f.ops[t]);
    if f.heads[k] == f.ops[t].was && !spurious && f.ops[t].PopLinked? {
      PopsWin(f, t);
    }
  }

  /** A pop passes over a shard exactly when that shard is empty at that moment; with one
      shard it answers that nothing is free exactly when nothing is. */
  lemma PassesOverIffEmpty(f: FreeList, t: Thread)
    requires Inv(f) && Enabled(f, Load(t)) && f.ops[t].Popping?
    ensures var k := ShardOf(f, f.ops[t]);
            && (t in Step(f, Load(t)).ops && Step(f, Load(t)).ops[t].PopLoaded? <==> f.stacks[k] != [])
            && (t !in Step(f, Load(t)).ops <==> f.stacks[k] == [] && f.ops[t].offset + 1 == |f.heads|)
  {
    assert Chain(f.links, f.heads[ShardOf(f, f.ops[t])].top, f.stacks[ShardOf(f, f.ops[t])]);
  }
}
