/** Allocation of contexts by any number of threads: a call is a fetchAdd and, any
    number of other steps later, a return with the context or a failed assertion. */
module ContextRuns {
  import opened Integers
  import opened Sequences
  import opened BrokerContexts

  type ThreadId = nat

  /** A fetched value that has not been turned into a context. `parent` is the position
      of the parent among the contexts made, None for the default context. `serial`
      numbers the fetches on one counter. */
  datatype Ticket =
    | FlatTicket(fetched: u32, serial: nat)
    | SubTicket(fetched: u32, serial: nat, parent: Option<nat>)

  datatype Made = Made(ctx: Context, ticket: Ticket)

  datatype State = State(
    classCounter: u32,
    instanceCounter: u32,
    pending: map<ThreadId, Ticket>,
    made: seq<Made>,     // successful calls in the order they returned
    flatCalls: nat,
    subCalls: nat)

  datatype Event =
    | FetchFlat(t: ThreadId)
    | FetchSub(t: ThreadId, parent: Option<nat>)
    | Return(t: ThreadId)

  const START: State := State(0, 0, map[], [], 0, 0)

  predicate Enabled(s: State, e: Event) {
    match e
    case FetchFlat(t) => t !in s.pending
    case FetchSub(t, parent) => t !in s.pending && (parent.Some? ==> parent.value < |s.made|)
    case Return(t) => t in s.pending && (s.pending[t].SubTicket? && s.pending[t].parent.Some? ==>
                                           s.pending[t].parent.value < |s.made|)
  }

  function ParentCtx(made: seq<Made>, parent: Option<nat>): Context
    requires parent.Some? ==> parent.value < |made|
  {
    if parent.Some? then made[parent.value].ctx else DEFAULT_CONTEXT
  }

  function Result(made: seq<Made>, k: Ticket): Option<Context>
    requires k.SubTicket? && k.parent.Some? ==> k.parent.value < |made|
  {
    match k
    case FlatTicket(fetched, _) =>
      var id := ClassIdOf(fetched);
      if id.Some? then Some(MakeBrokerContext(id.value, 0)) else None
    case SubTicket(fetched, _, parent) =>
      var id := InstanceIdOf(fetched);
      if id.Some? then Some(MakeBrokerContext(ClassCtx(ParentCtx(made, parent)), id.value)) else None
  }

  function Step(s: State, e: Event): State
    requires Enabled(s, e)
  {
    match e
    case FetchFlat(t) =>
      s.(classCounter := (s.classCounter + 1) % TWO_TO_32, flatCalls := s.flatCalls + 1,
         pending := s.pending[t := FlatTicket(s.classCounter, s.flatCalls)])
    case FetchSub(t, parent) =>
      s.(instanceCounter := (s.instanceCounter + 1) % TWO_TO_32, subCalls := s.subCalls + 1,
         pending := s.pending[t := SubTicket(s.instanceCounter, s.subCalls, parent)])
    case Return(t) =>
      var k := s.pending[t];
      var ctx := Result(s.made, k);
      s.(pending := s.pending - {t},
         made := if ctx.Some? then s.made + [Made(ctx.value, k)] else s.made)
  }

  ghost predicate Legal(s: State, es: seq<Event>)
    decreases es
  {
    es == [] || (Enabled(s, es[0]) && Legal(Step(s, es[0]), es[1..]))
  }

  ghost function Run(s: State, es: seq<Event>): State
    requires Legal(s, es)
    decreases es
  {
    if es == [] then s else Run(Step(s, es[0]), es[1..])
  }

  predicate TicketOk(s: State, k: Ticket) {
    && k.fetched == k.serial % TWO_TO_32
    && k.serial < (if k.FlatTicket? then s.flatCalls else s.subCalls)
  }

  /** Same counter and same serial number. */
  predicate SameDraw(a: Ticket, b: Ticket) {
    a.FlatTicket? == b.FlatTicket? && a.serial == b.serial
  }

  ghost predicate MadeOk(s: State, i: nat)
    requires i < |s.made|
  {
    var m := s.made[i];
    && TicketOk(s, m.ticket)
    && (m.ticket.SubTicket? && m.ticket.parent.Some? ==> m.ticket.parent.value < i)
    && Result(s.made[..i], m.ticket) == Some(m.ctx)
  }

  ghost predicate Inv(s: State) {
    && s.classCounter == s.flatCalls % TWO_TO_32 && s.instanceCounter == s.subCalls % TWO_TO_32
    && (forall t <- s.pending :: TicketOk(s, s.pending[t])
                                 && (s.pending[t].SubTicket? && s.pending[t].parent.Some? ==>
                                       s.pending[t].parent.value < |s.made|))
    && (forall i | 0 <= i < |s.made| :: MadeOk(s, i))
    && (forall t, u | t in s.pending && u in s.pending && t != u :: !SameDraw(s.pending[t], s.pending[u]))
    && (forall t, i | t in s.pending && 0 <= i < |s.made| :: !SameDraw(s.pending[t], s.made[i].ticket))
    && (forall i, j | 0 <= i < j < |s.made| :: !SameDraw(s.made[i].ticket, s.made[j].ticket))
  }

  lemma FetchInv(s: State, e: Event)
    requires Inv(s) && Enabled(s, e) && !e.Return?
    ensures Inv(Step(s, e))
  {
    var s' := Step(s, e);
    forall i | 0 <= i < |s'.made|
      ensures MadeOk(s', i) && !SameDraw(s'.pending[e.t], s'.made[i].ticket)
    {
      assert MadeOk(s, i);
    }
    CounterStep(s.flatCalls);
    CounterStep(s.subCalls);
  }

  lemma CounterStep(n: nat)
    ensures (n % TWO_TO_32 + 1) % TWO_TO_32 == (n + 1) % TWO_TO_32
  {
  }

  lemma ReturnInv(s: State, t: ThreadId)
    requires Inv(s) && Enabled(s, Return(t))
    ensures Inv(Step(s, Return(t)))
  {
    var s' := Step(s, Return(t));
    forall i | 0 <= i < |s'.made| ensures MadeOk(s', i) {
      assert s'.made[..|s.made|] == s.made;
      if i < |s.made| {
        assert MadeOk(s, i);
        assert s'.made[..i] == s.made[..i];
      }
    }
  }

  lemma {:induction false} RunInv(s: State, es: seq<Event>)
    requires Inv(s) && Legal(s, es)
    ensures Inv(Run(s, es))
    decreases es
  {
    if es != [] {
      if es[0].Return? { ReturnInv(s, es[0].t); } else { FetchInv(s, es[0]); }
      RunInv(Step(s, es[0]), es[1..]);
    }
  }

  /** The flat context a context descends from. */
  ghost function Root(s: State, i: nat): Context
    requires Inv(s) && i < |s.made|
    decreases i
  {
    assert MadeOk(s, i);
    match s.made[i].ticket
    case FlatTicket(_, _) => s.made[i].ctx
    case SubTicket(_, _, None) => DEFAULT_CONTEXT
    case SubTicket(_, _, Some(p)) => Root(s, p)
  }

  lemma MadeHalves(s: State, i: nat)
    requires Inv(s) && i < |s.made|
    ensures var m := s.made[i];
            match m.ticket
            case FlatTicket(_, k) => InstanceCtx(m.ctx) == 0 && ClassIdOfCall(k) == Some(ClassCtx(m.ctx))
            case SubTicket(_, k, parent) =>
              (parent.Some? ==> parent.value < i) && InstanceIdOfCall(k) == Some(InstanceCtx(m.ctx))
              && ClassCtx(m.ctx) == ClassCtx(ParentCtx(s.made, parent))
  {
    assert MadeOk(s, i);
    var m := s.made[i];
    match m.ticket
    case FlatTicket(fetched, k) => PackUnpack(0, ClassIdOf(fetched).value, 0);
    case SubTicket(fetched, k, parent) =>
      PackUnpack(0, ClassCtx(ParentCtx(s.made[..i], parent)), InstanceIdOf(fetched).value);
  }

  /** Masking off the instance half of any context, at any nesting depth, gives the
      flat context at the root of its derivation. */
  lemma {:induction false} MaskRecoversRoot(s: State, i: nat)
    requires Inv(s) && i < |s.made|
    ensures MakeBrokerContext(ClassCtx(s.made[i].ctx), 0) == Root(s, i)
    decreases i
  {
    MadeHalves(s, i);
    match s.made[i].ticket
    case FlatTicket(_, _) => PackUnpack(s.made[i].ctx, 0, 0);
    case SubTicket(_, _, None) =>
    case SubTicket(_, _, Some(p)) => MaskRecoversRoot(s, p);
  }

  lemma MadeDistinct(s: State, i: nat, j: nat)
    requires Inv(s) && i < j < |s.made|
    requires s.flatCalls <= TWO_TO_32 - 2 && s.subCalls <= TWO_TO_32 - 1
    ensures s.made[i].ctx != s.made[j].ctx
  {
    MadeHalves(s, i);
    MadeHalves(s, j);
    assert MadeOk(s, i) && MadeOk(s, j);
    ClassIdsSoundIff(s.flatCalls);
    InstanceIdsSoundIff(s.subCalls);
  }

  /** Any interleaving of flat and derived allocations by any threads, short of the
      wrap of either counter: no two contexts are equal, none is nil or the default
      one, exactly the derived ones have an instance half, and masking leads every one
      of them back to its root. */
  lemma ContextsNeverCollide(es: seq<Event>)
    requires Legal(START, es)
    requires var s := Run(START, es); s.flatCalls <= TWO_TO_32 - 2 && s.subCalls <= TWO_TO_32 - 1
    ensures var s := Run(START, es);
            && Inv(s)
            && (forall i, j | 0 <= i < j < |s.made| :: s.made[i].ctx != s.made[j].ctx)
            && (forall i | 0 <= i < |s.made| ::
                  && s.made[i].ctx != 0 && s.made[i].ctx != DEFAULT_CONTEXT
                  && (s.made[i].ticket.SubTicket? <==> InstanceCtx(s.made[i].ctx) != 0)
                  && MakeBrokerContext(ClassCtx(s.made[i].ctx), 0) == Root(s, i))
  {
    RunInv(START, es);
    var s := Run(START, es);
    ClassIdsSoundIff(s.flatCalls);
    InstanceIdsSoundIff(s.subCalls);
    forall i, j | 0 <= i < j < |s.made| ensures s.made[i].ctx != s.made[j].ctx {
      MadeDistinct(s, i, j);
    }
    forall i | 0 <= i < |s.made|
      ensures s.made[i].ctx != 0 && s.made[i].ctx != DEFAULT_CONTEXT
      ensures s.made[i].ticket.SubTicket? <==> InstanceCtx(s.made[i].ctx) != 0
      ensures MakeBrokerContext(ClassCtx(s.made[i].ctx), 0) == Root(s, i)
    {
      MadeHalves(s, i);
      assert MadeOk(s, i);
      MaskRecoversRoot(s, i);
    }
  }

  /** Before the wrap, every flat context made comes from one of the first 65533 fetches,
      whoever made it, and is that fetch's number plus 2. */
  lemma FlatSuccessesAreTheFirstFetches(es: seq<Event>, i: nat)
    requires Legal(START, es) && Run(START, es).flatCalls <= TWO_TO_32 - 2
    requires i < |Run(START, es).made| && Run(START, es).made[i].ticket.FlatTicket?
    ensures var m := Run(START, es).made[i];
            m.ticket.serial < 65533 && m.ctx == m.ticket.serial + 2
  {
    RunInv(START, es);
    var s := Run(START, es);
    MadeHalves(s, i);
    assert MadeOk(s, i);
    ClassIdOfEarlyCall(s.made[i].ticket.serial);
    PackUnpack(s.made[i].ctx, 0, 0);
  }

  /** What a call comes to, wherever it is in whatever run. Its ticket carries the number of
      calls made before it on the same counter. A flat call with number k returns the context
      k + 2 if k is below 65533; a derived one the instance half k + 1 on its parent's class
      half (1 for the default context) if k is below 65535; and every other call fails. */
  lemma CallsComeTo(es: seq<Event>, t: ThreadId)
    requires Legal(START, es)
    requires var s := Run(START, es); s.flatCalls <= TWO_TO_32 - 2 && s.subCalls <= TWO_TO_32 - 1
    ensures var s := Run(START, es);
            && (t !in s.pending && s.flatCalls < TWO_TO_32 - 2 ==>
                  Step(s, FetchFlat(t)).pending == s.pending[t := FlatTicket(s.flatCalls, s.flatCalls)])
            && (t !in s.pending && s.subCalls < TWO_TO_32 - 1 ==>
                  Step(s, FetchSub(t, None)).pending == s.pending[t := SubTicket(s.subCalls, s.subCalls, None)])
            && (forall p: nat | t !in s.pending && s.subCalls < TWO_TO_32 - 1 && p < |s.made| ::
                  Step(s, FetchSub(t, Some(p))).pending
                  == s.pending[t := SubTicket(s.subCalls, s.subCalls, Some(p))])
            && (t in s.pending ==>
                  && Enabled(s, Return(t))
                  && Step(s, Return(t)) == s.(pending := s.pending - {t}, made := Step(s, Return(t)).made)
                  && Step(s, Return(t)).made == (
                    match s.pending[t]
                    case FlatTicket(_, k) => if k < 65533 then s.made + [Made(k + 2, s.pending[t])] else s.made
                    case SubTicket(_, k, parent) =>
                      if k < 65535 then
                        var half := if parent.Some? then s.made[parent.value].ctx % 0x1_0000 else 1;
                        s.made + [Made(0x1_0000 * (k + 1) + half, s.pending[t])]
                      else s.made))
  {
    hide MadeOk;
    RunInv(START, es);
    var s := Run(START, es);
    if t in s.pending {
      var k := s.pending[t];
      assert TicketOk(s, k);
      if k.FlatTicket? { ClassIdOfEarlyCall(k.serial); } else { InstanceIdOfEarlyCall(k.serial); }
    } else {
      assert s.flatCalls % TWO_TO_32 == s.flatCalls && (s.subCalls < TWO_TO_32 ==> s.subCalls % TWO_TO_32 == s.subCalls);
    }
  }

  /** The call with this number on one of the counters has not returned, or has succeeded. */
  ghost predicate Drawn(s: State, flat: bool, k: nat) {
    || (exists t <- s.pending :: s.pending[t].FlatTicket? == flat && s.pending[t].serial == k)
    || (exists i | 0 <= i < |s.made| :: s.made[i].ticket.FlatTicket? == flat && s.made[i].ticket.serial == k)
  }

  ghost predicate EarlyCallsDrawn(s: State) {
    && (forall k: nat | k < s.flatCalls && k < 65533 :: Drawn(s, true, k))
    && (forall k: nat | k < s.subCalls && k < 65535 :: Drawn(s, false, k))
  }

  lemma StepDraws(s: State, e: Event, flat: bool, k: nat)
    requires Inv(s) && Enabled(s, e) && Drawn(s, flat, k) && k < if flat then 65533 else 65535
    ensures Drawn(Step(s, e), flat, k)
  {
    var s' := Step(s, e);
    if i: nat :| i < |s.made| && s.made[i].ticket.FlatTicket? == flat && s.made[i].ticket.serial == k {
      assert s'.made[i] == s.made[i];
    } else {
      var t :| t in s.pending && s.pending[t].FlatTicket? == flat && s.pending[t].serial == k;
      if e == Return(t) {
        assert TicketOk(s, s.pending[t]);
        if flat { ClassIdOfEarlyCall(k); } else { InstanceIdOfEarlyCall(k); }
        assert s'.made[|s.made|].ticket == s.pending[t];
      } else {
        assert s'.pending[t] == s.pending[t];
      }
    }
  }

  lemma {:induction false} RunDraws(s: State, es: seq<Event>)
    requires Inv(s) && Legal(s, es) && EarlyCallsDrawn(s)
    ensures EarlyCallsDrawn(Run(s, es))
    decreases es
  {
    if es != [] {
      var s' := Step(s, es[0]);
      forall flat: bool, k: nat | k < (if flat then s'.flatCalls else s'.subCalls) && k < (if flat then 65533 else 65535)
        ensures Drawn(s', flat, k)
      {
        if k < if flat then s.flatCalls else s.subCalls {
          StepDraws(s, es[0], flat, k);
        } else {
          assert s'.pending[es[0].t].serial == k;
        }
      }
      if es[0].Return? { ReturnInv(s, es[0].t); } else { FetchInv(s, es[0]); }
      RunDraws(s', es[1..]);
    }
  }

  ghost predicate Hit(positions: set<nat>, drawn: map<nat, nat>, k: nat) {
    exists i <- positions :: i in drawn && drawn[i] == k
  }

  lemma {:induction false} CoversAll(positions: set<nat>, drawn: map<nat, nat>, n: nat)
    requires forall k: nat | k < n :: Hit(positions, drawn, k)
    ensures |positions| >= n
    decreases n
  {
    if n > 0 {
      assert Hit(positions, drawn, n - 1);
      var i :| i in positions && i in drawn && drawn[i] == n - 1;
      forall k: nat | k < n - 1 ensures Hit(positions - {i}, drawn, k) {
        assert Hit(positions, drawn, k);
        var j :| j in positions && j in drawn && drawn[j] == k;
        assert j in positions - {i};
      }
      CoversAll(positions - {i}, drawn, n - 1);
    }
  }

  lemma {:induction false} Pigeonhole(positions: set<nat>, drawn: map<nat, nat>, n: nat)
    requires forall i <- positions :: i in drawn && drawn[i] < n
    requires forall i, j :: i in positions && j in positions && i != j ==> drawn[i] != drawn[j]
    ensures |positions| <= n
    decreases n
  {
    if n > 0 {
      if i :| i in positions && drawn[i] == n - 1 {
        Pigeonhole(positions - {i}, drawn, n - 1);
        assert positions == (positions - {i}) + {i};
      } else {
        Pigeonhole(positions, drawn, n - 1);
      }
    } else {
      assert positions == {};
    }
  }

  ghost function FlatPositions(s: State): set<nat> {
    set i: nat | i < |s.made| && s.made[i].ticket.FlatTicket?
  }

  ghost function SubPositions(s: State): set<nat> {
    set i: nat | i < |s.made| && s.made[i].ticket.SubTicket?
  }

  function Least(a: nat, b: nat): (m: nat) {
    if a < b then a else b
  }

  /** What is true of the positions of one kind: distinct numbers below a bound and, with
      no call on its way, every number below it. */
  lemma CountedExactly(s: State, flat: bool, n: nat)
    requires Inv(s) && n <= if flat then s.flatCalls else s.subCalls
    requires forall i: nat | i < |s.made| && s.made[i].ticket.FlatTicket? == flat :: s.made[i].ticket.serial < n
    ensures var positions := set i: nat | i < |s.made| && s.made[i].ticket.FlatTicket? == flat;
            && |positions| <= n
            && ((forall k: nat | k < n :: Drawn(s, flat, k)) && s.pending == map[] ==> |positions| == n)
  {
    var positions := set i: nat | i < |s.made| && s.made[i].ticket.FlatTicket? == flat;
    var serials := map i: nat | i < |s.made| :: s.made[i].ticket.serial;
    Pigeonhole(positions, serials, n);
    if (forall k: nat | k < n :: Drawn(s, flat, k)) && s.pending == map[] {
      forall k: nat | k < n ensures Hit(positions, serials, k) {
        assert Drawn(s, flat, k);
        var i :| 0 <= i < |s.made| && s.made[i].ticket.FlatTicket? == flat && s.made[i].ticket.serial == k;
        assert i in positions && serials[i] == k;
      }
      CoversAll(positions, serials, n);
    }
  }

  /** The capacity of the two id spaces, over every run short of a wrap: never more contexts
      than calls or ids, and with no call on its way exactly as many as the fewer of these. */
  lemma CapacityIsReached(es: seq<Event>)
    requires Legal(START, es)
    requires var s := Run(START, es); s.flatCalls <= TWO_TO_32 - 2 && s.subCalls <= TWO_TO_32 - 1
    ensures var s := Run(START, es);
            && |FlatPositions(s)| <= Least(s.flatCalls, 65533)
            && |SubPositions(s)| <= Least(s.subCalls, 65535)
            && (s.pending == map[] ==>
                  && |FlatPositions(s)| == Least(s.flatCalls, 65533)
                  && |SubPositions(s)| == Least(s.subCalls, 65535))
  {
    RunInv(START, es);
    RunDraws(START, es);
    var s := Run(START, es);
    forall i: nat | i < |s.made|
      ensures s.made[i].ticket.serial < if s.made[i].ticket.FlatTicket? then Least(s.flatCalls, 65533)
                                        else Least(s.subCalls, 65535)
    {
      MadeHalves(s, i);
      assert MadeOk(s, i);
      if s.made[i].ticket.FlatTicket? {
        ClassIdOfEarlyCall(s.made[i].ticket.serial);
      } else {
        InstanceIdOfEarlyCall(s.made[i].ticket.serial);
      }
    }
    CountedExactly(s, true, Least(s.flatCalls, 65533));
    CountedExactly(s, false, Least(s.subCalls, 65535));
    assert FlatPositions(s) == set i: nat | i < |s.made| && s.made[i].ticket.FlatTicket? == true;
    assert SubPositions(s) == set i: nat | i < |s.made| && s.made[i].ticket.FlatTicket? == false;
  }
}
