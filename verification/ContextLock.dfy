/** The per-thread global context and the critical section that swaps it. */
module ContextLock {
  import opened Sequences
  import opened BrokerContexts

  type Task = nat

  /** `saved` is the local `previousBrokerCtx` of the lock's holder. */
  datatype Thread = Thread(
    value: Context,
    initialized: bool,
    holder: Option<Task>,
    saved: Option<Context>)

  datatype Event =
    | Read
    | Set(ctx: Context)
    | Acquire(task: Task)
    | Install(task: Task, ctx: Context)
    | Exit(task: Task)   // the body is over, normally or by an exception

  predicate Enabled(s: Thread, e: Event) {
    match e
    case Read => true
    case Set(_) => true
    case Acquire(_) => s.holder.None?
    case Install(t, _) => s.holder == Some(t) && s.saved.None?
    case Exit(t) => s.holder == Some(t) && s.saved.Some?
  }

  function Step(s: Thread, e: Event): Thread
    requires Enabled(s, e)
  {
    match e
    case Read => if s.initialized then s else s.(value := DEFAULT_CONTEXT, initialized := true)
    case Set(ctx) => s.(value := ctx, initialized := true)
    case Acquire(t) => s.(holder := Some(t))
    case Install(t, ctx) => s.(saved := Some(s.value), value := ctx, initialized := true)
    case Exit(t) => s.(value := s.saved.value, saved := None, holder := None)
  }

  ghost predicate Legal(s: Thread, es: seq<Event>)
    decreases es
  {
    es == [] || (Enabled(s, es[0]) && Legal(Step(s, es[0]), es[1..]))
  }

  ghost function Run(s: Thread, es: seq<Event>): Thread
    requires Legal(s, es)
    decreases es
  {
    if es == [] then s else Run(Step(s, es[0]), es[1..])
  }

  /** What threadGlobalBrokerContext returns. */
  function Readable(s: Thread): Context {
    if s.initialized then s.value else DEFAULT_CONTEXT
  }

  /** The thread's variables, and threadGlobalBrokerContext, setThreadBrokerContext and
      the two ends of lockGlobalBrokerContext over them. */
  class ThreadGlobals {
    var value: Context
    var initialized: bool
    var holder: Option<Task>
    var saved: Option<Context>

    function Abs(): Thread
      reads this
    {
      Thread(value, initialized, holder, saved)
    }

    constructor (mainThread: bool)
      ensures Abs() == Thread(if mainThread then DEFAULT_CONTEXT else 0, mainThread, None, None)
    {
      value := if mainThread then DEFAULT_CONTEXT else 0;
      initialized := mainThread;
      holder, saved := None, None;
    }

    method ThreadGlobalBrokerContext() returns (ctx: Context)
      modifies this
      ensures Abs() == Step(old(Abs()), Event.Read)
      ensures ctx == old(Readable(Abs())) == Readable(Abs())
    {
      if !initialized {
        value := DEFAULT_CONTEXT;
        initialized := true;
      }
      ctx := value;
    }

    method SetThreadBrokerContext(ctx: Context)
      modifies this
      ensures Abs() == Step(old(Abs()), Event.Set(ctx)) && Readable(Abs()) == ctx
    {
      value := ctx;
      initialized := true;
    }

    method Enter(task: Task, ctx: Context)
      requires holder.None? && saved.None?
      modifies this
      ensures Abs() == Step(Step(old(Abs()), Event.Acquire(task)), Event.Install(task, ctx))
      ensures Readable(Abs()) == ctx && saved == Some(old(value))
    {
      holder := Some(task);
      saved := Some(value);
      value := ctx;
      initialized := true;
    }

    method Leave(task: Task)
      requires holder == Some(task) && saved.Some?
      modifies this
      ensures Abs() == Step(old(Abs()), Event.Exit(task))
      ensures value == old(saved.value) && holder.None? && saved.None?
    {
      value := saved.value;
      saved := None;
      holder := None;
    }
  }

  /** The intended meaning, read off the events: the context outside the lock, and the
      one inside while a body runs. */
  datatype Layers = Layers(outside: Context, inside: Option<Context>)

  function Visible(l: Layers): Context {
    if l.inside.Some? then l.inside.value else l.outside
  }

  function Next(l: Layers, e: Event): Layers {
    match e
    case Read => l
    case Set(ctx) => if l.inside.Some? then l.(inside := Some(ctx)) else l.(outside := ctx)
    case Acquire(_) => l
    case Install(_, ctx) => l.(inside := Some(ctx))
    case Exit(_) => l.(inside := None)
  }

  function Intended(l: Layers, es: seq<Event>): Layers
    decreases es
  {
    if es == [] then l else Intended(Next(l, es[0]), es[1..])
  }

  ghost predicate Matches(s: Thread, l: Layers) {
    && s.initialized && s.value == Visible(l)
    && s.saved == (if l.inside.Some? then Some(l.outside) else None)
    && (s.saved.Some? ==> s.holder.Some?)
  }

  /** On an initialised thread, in every interleaving of tasks, reads and explicit sets:
      a body reads the context it installed (or set since), and with no body running the
      thread reads what it would have read had no body ever run. */
  lemma {:induction false} LayersAreKept(s: Thread, l: Layers, es: seq<Event>)
    requires Matches(s, l) && Legal(s, es)
    ensures Matches(Run(s, es), Intended(l, es))
    decreases es
  {
    if es != [] {
      assert Matches(Step(s, es[0]), Next(l, es[0]));
      LayersAreKept(Step(s, es[0]), Next(l, es[0]), es[1..]);
    }
  }

  lemma {:induction false} OutsideWithoutSets(l: Layers, es: seq<Event>)
    requires forall e <- es :: !e.Set?
    ensures Intended(l, es).outside == l.outside
    decreases es
  {
    if es != [] {
      assert es[0] in es;
      OutsideWithoutSets(Next(l, es[0]), es[1..]);
    }
  }

  /** Without explicit sets, whenever no body runs an initialised thread reads the
      context it read at the start. */
  lemma FreeLockReadsTheSame(s: Thread, es: seq<Event>)
    requires s.initialized && s.holder.None? && s.saved.None?
    requires Legal(s, es) && forall e <- es :: !e.Set?
    ensures Run(s, es).saved.None? ==> Readable(Run(s, es)) == Readable(s)
  {
    LayersAreKept(s, Layers(s.value, None), es);
    OutsideWithoutSets(Layers(s.value, None), es);
  }

  lemma {:induction false} ReadsInside(s: Thread, looks: seq<Event>)
    requires s.initialized && Legal(s, looks) && forall e <- looks :: e == Read
    ensures Run(s, looks) == s
    decreases looks
  {
    if looks != [] {
      assert looks[0] in looks && forall e <- looks[1..] :: e in looks;
      ReadsInside(Step(s, looks[0]), looks[1..]);
    }
  }

  /** From its acquisition to its exit a task has the lock to itself: nobody acquires it or
      installs a context meanwhile, and what the task will put back does not change. */
  lemma {:induction false} BodyKeepsTheLock(s: Thread, t: Task, es: seq<Event>)
    requires s.holder == Some(t) && Legal(s, es) && Exit(t) !in es
    ensures Run(s, es).holder == Some(t)
    ensures forall e <- es :: !e.Acquire? && !e.Exit? && (e.Install? ==> e.task == t && s.saved.None?)
    ensures s.saved.Some? ==> Run(s, es).saved == s.saved
    decreases es
  {
    if es != [] {
      assert es[0] in es && forall e <- es[1..] :: e in es;
      BodyKeepsTheLock(Step(s, es[0]), t, es[1..]);
      assert forall e <- es :: e == es[0] || e in es[1..];
    }
  }

  /** One critical section leaves the thread reading what it read before if and only if
      the thread was initialised: on a secondary thread that never read or set its
      context, the section saves the raw zero and the thread looks 0 afterwards. */
  lemma SectionRestoresIff(s: Thread, task: Task, ctx: Context, looks: seq<Event>)
    requires s.holder.None? && s.saved.None? && (!s.initialized ==> s.value == 0)
    requires forall e <- looks :: e == Read
    requires Legal(Step(Step(s, Acquire(task)), Install(task, ctx)), looks)
    ensures var inside := Step(Step(s, Acquire(task)), Install(task, ctx));
            var after := Step(inside, Exit(task));
            && Run(inside, looks) == inside && Readable(inside) == ctx
            && (Readable(after) == Readable(s) <==> s.initialized)
            && (!s.initialized ==> Readable(after) == 0)
  {
    ReadsInside(Step(Step(s, Acquire(task)), Install(task, ctx)), looks);
  }

  /** The thread reads its context before the first body is entered, if any is. */
  predicate ReadsFirst(es: seq<Event>)
    decreases es
  {
    es == [] || es[0] == Read || (!es[0].Install? && ReadsFirst(es[1..]))
  }

  /** Some explicit set comes while no body runs. */
  predicate SetsOutside(l: Layers, es: seq<Event>)
    decreases es
  {
    es != [] && ((es[0].Set? && l.inside.None?) || SetsOutside(Next(l, es[0]), es[1..]))
  }

  /** The context outside forgets where it started as soon as it is set, and not before. */
  lemma {:induction false} OutsideForgets(l: Layers, m: Layers, es: seq<Event>)
    requires l.inside == m.inside
    ensures SetsOutside(l, es) <==> SetsOutside(m, es)
    ensures Intended(l, es).inside == Intended(m, es).inside
    ensures if SetsOutside(l, es) then Intended(l, es).outside == Intended(m, es).outside
            else Intended(l, es).outside == l.outside && Intended(m, es).outside == m.outside
    decreases es
  {
    if es != [] {
      OutsideForgets(Next(l, es[0]), Next(m, es[0]), es[1..]);
    }
  }

  /** A thread that was never initialised, in every interleaving of tasks, reads and explicit
      sets: whenever no body runs it reads what it should, the context last set outside a
      body or the default one, if and only if it read its context before the first body was
      entered, or has set it outside a body; otherwise it reads 0. */
  lemma {:induction false} UninitialisedRestoredIff(s: Thread, es: seq<Event>)
    requires !s.initialized && s.value == 0 && s.saved.None?
    requires Legal(s, es) && Run(s, es).saved.None?
    ensures var start := Layers(DEFAULT_CONTEXT, None);
            && (Readable(Run(s, es)) == Intended(start, es).outside <==> ReadsFirst(es) || SetsOutside(start, es))
            && (!ReadsFirst(es) && !SetsOutside(start, es) ==> Readable(Run(s, es)) == 0)
    decreases es
  {
    var start := Layers(DEFAULT_CONTEXT, None);
    if es != [] {
      var rest := es[1..];
      if es[0] == Read {
        LayersAreKept(Step(s, Read), start, rest);
      } else if es[0].Set? {
        LayersAreKept(Step(s, es[0]), Next(start, es[0]), rest);
      } else if es[0].Install? {
        var entered := Layers(0, Some(es[0].ctx));
        LayersAreKept(Step(s, es[0]), entered, rest);
        OutsideForgets(entered, Next(start, es[0]), rest);
      } else if es[0].Acquire? {
        UninitialisedRestoredIff(Step(s, es[0]), rest);
      }
    }
  }

  /** The shortest such run, on a thread as it starts. */
  lemma SecondaryThreadReadsZero(task: Task, ctx: Context)
    ensures var s, es := Thread(0, false, None, None), [Acquire(task), Install(task, ctx), Exit(task)];
            Legal(s, es) && Readable(s) == DEFAULT_CONTEXT && Run(s, es).holder.None? && Readable(Run(s, es)) == 0
  {
    var s := Thread(0, false, None, None);
    var s1 := Step(s, Acquire(task));
    var s2 := Step(s1, Install(task, ctx));
    var s3 := Step(s2, Exit(task));
    assert [Exit(task)][1..] == [] && Legal(s3, []) && Run(s3, []) == s3;
    assert Legal(s2, [Exit(task)]) && Run(s2, [Exit(task)]) == s3;
    var es1 := [Install(task, ctx), Exit(task)];
    assert es1[1..] == [Exit(task)];
    assert Legal(s1, es1) && Run(s1, es1) == s3;
    var es := [Acquire(task), Install(task, ctx), Exit(task)];
    assert es[1..] == es1;
  }
}
