/** What the response slot promises over whole runs. */
module ResponseSlotRuns {
  import opened Sequences
  import opened ResponseSlots

  /** In every interleaving the slot is on the free list, being claimed, or held by one
      request; no request puts it back twice, and one both of whose sides are through has
      put it back. */
  lemma ReleasedExactlyOnce(es: seq<Event>)
    requires Legal(FRESH, es) && SafeEnds(FRESH, es)
    ensures var s := Run(FRESH, es);
            && s.free + s.claiming + |set g | g in s.requests && s.requests[g].releases == 0| == 1
            && (forall g <- s.requests :: s.requests[g].releases <= 1)
            && (forall g <- s.requests :: s.requests[g].requester == Left && s.requests[g].provider == Over ==>
                  s.requests[g].releases == 1)
  {
    hide Inv, Legal, Run, SafeEnds;
    FreshInv();
    RunInv(FRESH, es);
    HeldByOne(Run(FRESH, es));
    SettledOnce(Run(FRESH, es));
  }

  lemma HeldByOne(s: Slot)
    requires Inv(s)
    ensures s.free + s.claiming + |set g | g in s.requests && s.requests[g].releases == 0| == 1
  {
    var held := set g | g in s.requests && s.requests[g].releases == 0;
    if Taken(s) {
      assert held == {s.gen};
    } else {
      assert held == {};
    }
  }

  lemma SettledOnce(s: Slot)
    requires Inv(s)
    ensures forall g <- s.requests ::
              && s.requests[g].releases <= 1
              && (s.requests[g].requester == Left && s.requests[g].provider == Over ==> s.requests[g].releases == 1)
  {
  }

  /** While a provider writes the response bytes, or a requester reads them, the slot is of
      that generation and nobody else writes or reads it. */
  lemma WriterAndReaderAreAlone(es: seq<Event>, g: Gen)
    requires Legal(FRESH, es) && SafeEnds(FRESH, es)
    requires ProviderIn(Run(FRESH, es), g, Answering) || RequesterIn(Run(FRESH, es), g, Reading)
    ensures var s := Run(FRESH, es);
            && s.gen == g && Taken(s)
            && !(ProviderIn(s, g, Answering) && RequesterIn(s, g, Reading))
            && forall h <- s.requests :: h != g ==>
                 s.requests[h].provider != Answering && s.requests[h].requester != Reading
  {
    FreshInv();
    RunInv(FRESH, es);
  }

  /** What a requester reads is what the provider answered to that very request. */
  lemma ReadsItsOwnReply(es: seq<Event>, g: Gen)
    requires Legal(FRESH, es) && SafeEnds(FRESH, es) && g in Run(FRESH, es).requests
    ensures var r := Run(FRESH, es).requests[g]; r.got.Some? ==> r.got == r.reply
  {
    FreshInv();
    RunInv(FRESH, es);
  }

  /** Whoever still holds a generation that has passed, requester, provider, canceller or
      the provider's removal, changes nothing but its own course. */
  lemma StaleTouchesNothing(s: Slot, e: Event)
    requires Inv(s) && Enabled(s, e) && !e.Pop? && !e.Arm? && e.g < s.gen
    ensures Step(s, e).(requests := s.requests) == s
    ensures forall h <- s.requests :: h != e.g ==> h in Step(s, e).requests && Step(s, e).requests[h] == s.requests[h]
  {
  }

  /** Until the slot is put back exactly one side is bound to do it: once the requester has
      left, the provider; once the provider is through, the requester; and the provider is
      once the control word says so, whatever happens next. */
  lemma OneSideOwesTheRelease(es: seq<Event>)
    requires Legal(FRESH, es) && SafeEnds(FRESH, es) && Taken(Run(FRESH, es))
    ensures var s := Run(FRESH, es);
            && s.gen in s.requests
            && var r := s.requests[s.gen];
               && (r.requester == Left || r.requester == GivingUpAgain ==> r.provider != Over && r.provider != Unsent)
               && (r.provider == Over ==> r.requester != Left && s.mark in {Empty, Ready, Abandoned, ProviderGone})
               && !(r.requester == Owing && r.provider == OwingRelease)
               && (s.mark == AbandonedWriting ==> r.requester == Left || r.requester == GivingUpAgain)
  {
    FreshInv();
    RunInv(FRESH, es);
  }

  /** The provider that won the slot for writing publishes its answer exactly when the
      requester has not given up meanwhile; otherwise the winner has to release. */
  lemma PublishedIffStillWanted(s: Slot, g: Gen, bytes: Bytes)
    requires Inv(s) && Enabled(s, Commit(g, bytes))
    ensures var r := Step(s, Commit(g, bytes)).requests[g];
            if s.requests[g].requester != Left && s.requests[g].requester != GivingUpAgain
            then r.provider == Over && r.reply == Some(bytes) && Word(Step(s, Commit(g, bytes)), g, Ready)
            else r.provider == OwingRelease && r.reply.None?
  {
    hide AsRequester;
  }

  /** What the provider's next step finds, whatever the generation: it wins the slot for
      writing exactly when nobody has decided otherwise, and is left with the release exactly
      when its request was abandoned. */
  lemma WinsIffUndecided(s: Slot, g: Gen)
    ensures Enabled(s, Take(g)) ==>
              && (ProviderIn(Step(s, Take(g)), g, OwingRelease) <==> s.gen == g && s.mark == Abandoned)
              && (ProviderIn(Step(s, Take(g)), g, Working) <==> !(s.gen == g && s.mark == Abandoned))
    ensures Enabled(s, BeginWrite(g)) ==>
              var s' := Step(s, BeginWrite(g));
              && (ProviderIn(s', g, Answering) <==> s.gen == g && s.mark == Empty)
              && (ProviderIn(s', g, OwingRelease) <==> s.gen == g && s.mark == Abandoned)
              && (ProviderIn(s', g, Over) <==> !(s.gen == g && (s.mark == Empty || s.mark == Abandoned)))
              && s'.mark == (if s.gen == g && s.mark == Empty then Writing else s.mark)
  {
  }

  /** A cancellation and the provider's removal decide a slot of this generation that nobody
      has decided, and do nothing to any other. */
  lemma DecidedFromOutside(s: Slot, g: Gen)
    ensures Step(s, Cancel(g)) == if s.gen == g && s.mark == Empty then s.(mark := Abandoned) else s
    ensures Step(s, Clear(g)) == if s.gen == g && s.mark == Empty then s.(mark := ProviderGone) else s
  {
  }

  /** The requester that waited can end at once; after a cancellation the provider is left
      with the release, after the provider's removal the requester is. */
  lemma WaiterEnds(s: Slot, g: Gen)
    requires RequesterIn(s, g, Waiting) && s.gen == g && s.mark == Empty
    ensures var s' := Step(s, Cancel(g));
            && Enabled(s', PollAbandoned(g)) && RequesterIn(Step(s', PollAbandoned(g)), g, Left)
            && (ProviderIn(s', g, Queued) ==> ProviderIn(Step(s', Take(g)), g, OwingRelease))
            && (ProviderIn(s', g, Working) ==> ProviderIn(Step(s', BeginWrite(g)), g, OwingRelease))
    ensures var s' := Step(s, Clear(g));
            && Enabled(s', PollGone(g)) && RequesterIn(Step(s', PollGone(g)), g, Owing)
            && Enabled(Step(s', PollGone(g)), RequesterReleases(g))
            && (ProviderIn(s', g, Queued) ==> ProviderIn(Step(s', Take(g)), g, Working))
            && (ProviderIn(s', g, Working) ==> ProviderIn(Step(s', BeginWrite(g)), g, Over))
  {
  }

  /** Nobody answers the request any more, nor reads an answer to it. */
  ghost predicate NoAnswer(s: Slot, g: Gen) {
    && g in s.requests && g <= s.gen && (s.gen == g ==> s.mark == Abandoned || s.mark == ProviderGone)
    && s.requests[g].provider != Answering && s.requests[g].reply == None
    && s.requests[g].requester != Reading && s.requests[g].got == None
    && forall k <- s.requests ::
         s.requests[k].requester.Deciding? ==> s.requests[k].requester.seen in {Empty, Writing}
  }

  lemma {:induction false} StaysUnanswered(s: Slot, es: seq<Event>, g: Gen)
    requires NoAnswer(s, g) && Legal(s, es)
    ensures NoAnswer(Run(s, es), g)
    decreases es
  {
    if es != [] {
      StepUnanswered(s, es[0], g);
      hide NoAnswer;
      StaysUnanswered(Step(s, es[0]), es[1..], g);
    }
  }

  lemma StepUnanswered(s: Slot, e: Event, g: Gen)
    requires NoAnswer(s, g) && Enabled(s, e)
    ensures NoAnswer(Step(s, e), g)
  {
  }

  /** A request that was cancelled, or whose provider was removed, while it waited and nobody
      had begun to answer it, is never answered, whatever everyone does afterwards. */
  lemma DecidedIsNeverAnswered(s: Slot, e: Event, g: Gen, es: seq<Event>)
    requires Inv(s) && RequesterIn(s, g, Waiting) && s.gen == g && s.mark == Empty
    requires (e == Cancel(g) || e == Clear(g)) && Legal(Step(s, e), es)
    ensures var s' := Run(Step(s, e), es);
            g in s'.requests && s'.requests[g].reply == None && s'.requests[g].got == None
  {
    assert NoAnswer(Step(s, e), g);
    StaysUnanswered(Step(s, e), es, g);
  }

  /** Reading delivers what the provider of this request published. */
  lemma ReadDelivers(s: Slot, g: Gen)
    requires Inv(s) && Enabled(s, Read(g))
    ensures var r := Step(s, Read(g)).requests[g];
            r.got.Some? && r.got == s.requests[g].reply == Some(s.payload) && r.requester == Owing
  {
  }

  /** How many more loads and swaps giveUpSlot may need. */
  function GiveUpWork(s: Slot, g: Gen): (n: nat)
    requires g in s.requests
  {
    match s.requests[g].requester
    case GivingUp => 2 * Undecided(if s.gen == g then s.mark else Abandoned) + 1
    case GivingUpAgain => 2 * Undecided(if s.gen == g then s.mark else Abandoned) + 1
    case Deciding(seen) => 2 * Undecided(seen)
    case _ => 0
  }

  function Undecided(m: Mark): (n: nat) {
    match m
    case Empty => 2
    case Writing => 1
    case _ => 0
  }

  ghost predicate SeenFirst(s: Slot) {
    forall g <- s.requests :: s.requests[g].requester.Deciding? && s.gen == g ==>
      Undecided(s.mark) <= Undecided(s.requests[g].requester.seen)
  }

  /** Within a generation the mark gets only more decided. */
  lemma MarkSettles(s: Slot, e: Event)
    requires Enabled(s, e) && forall g <- s.requests ::
               s.requests[g].requester.Deciding? ==> s.requests[g].requester.seen in {Empty, Writing}
    ensures Step(s, e).gen == s.gen || Step(s, e).gen == s.gen + 1
    ensures Step(s, e).gen == s.gen ==> Undecided(Step(s, e).mark) <= Undecided(s.mark)
  {
  }

  lemma WhoDecides(s: Slot, e: Event, g: Gen)
    requires Inv(s) && Enabled(s, e) && g in Step(s, e).requests && Step(s, e).requests[g].requester.Deciding?
    ensures var seen := Step(s, e).requests[g].requester.seen;
            if e == GiveUpLoad(g) then seen == Step(s, e).mark
            else g in s.requests && s.requests[g].requester == Deciding(seen)
    ensures Step(s, e).gen == g ==> s.gen == g
  {
    hide CurrentAgrees;
  }

  lemma StepSeenFirst(s: Slot, e: Event)
    requires Inv(s) && SeenFirst(s) && Enabled(s, e)
    ensures SeenFirst(Step(s, e))
  {
    hide Step, CurrentAgrees, Enabled;
    MarkSettles(s, e);
    forall g | g in Step(s, e).requests && Step(s, e).requests[g].requester.Deciding? && Step(s, e).gen == g
      ensures Undecided(Step(s, e).mark) <= Undecided(Step(s, e).requests[g].requester.seen)
    {
      WhoDecides(s, e, g);
    }
  }

  lemma {:induction false} RunSeenFirst(s: Slot, es: seq<Event>)
    requires Inv(s) && SeenFirst(s) && Legal(s, es) && SafeEnds(s, es)
    ensures SeenFirst(Run(s, es))
    decreases es
  {
    if es != [] {
      StepInv(s, es[0]);
      StepSeenFirst(s, es[0]);
      hide SeenFirst, Inv;
      RunSeenFirst(Step(s, es[0]), es[1..]);
    }
  }

  predicate InGiveUp(r: Requester) {
    r.GivingUp? || r.GivingUpAgain? || r.Deciding?
  }

  lemma GiveUpStep(s: Slot, e: Event, g: Gen)
    requires Inv(s) && SeenFirst(s) && g in s.requests && (e == GiveUpLoad(g) || e == GiveUpSwap(g)) && Enabled(s, e)
    ensures g in Step(s, e).requests && GiveUpWork(Step(s, e), g) < GiveUpWork(s, g)
  {
    hide CurrentAgrees;
  }

  lemma OthersDoNotGiveUp(s: Slot, e: Event, g: Gen)
    requires Inv(s) && g in s.requests && Enabled(s, e)
    requires e != GiveUp(g) && e != GiveUpLoad(g) && e != GiveUpSwap(g)
    ensures g in Step(s, e).requests
    ensures Step(s, e).requests[g].requester == s.requests[g].requester || !InGiveUp(Step(s, e).requests[g].requester)
  {
    hide CurrentAgrees;
  }

  lemma OtherStep(s: Slot, e: Event, g: Gen)
    requires Inv(s) && g in s.requests && Enabled(s, e)
    requires e != GiveUp(g) && e != GiveUpLoad(g) && e != GiveUpSwap(g)
    ensures g in Step(s, e).requests && GiveUpWork(Step(s, e), g) <= GiveUpWork(s, g)
  {
    hide CurrentAgrees, Step;
    MarkSettles(s, e);
    OthersDoNotGiveUp(s, e, g);
  }

  /** Giving up never waits for anyone: nothing the others do prolongs it, and each of its
      own steps shortens it, so it is through after five of them at the most. */
  lemma GivingUpEnds(es: seq<Event>, e: Event, g: Gen)
    requires Legal(FRESH, es) && SafeEnds(FRESH, es) && Enabled(Run(FRESH, es), e) && g in Run(FRESH, es).requests
    requires e != GiveUp(g)
    ensures var s := Run(FRESH, es);
            && g in Step(s, e).requests && GiveUpWork(s, g) <= 5
            && GiveUpWork(Step(s, e), g) <= GiveUpWork(s, g)
            && (e == GiveUpLoad(g) || e == GiveUpSwap(g) ==> GiveUpWork(Step(s, e), g) < GiveUpWork(s, g))
            && (GiveUpWork(s, g) == 0 <==> !InGiveUp(s.requests[g].requester))
  {
    FreshInv();
    RunInv(FRESH, es);
    RunSeenFirst(FRESH, es);
    hide Step, Legal, Run, CurrentAgrees, SeenFirst;
    if e == GiveUpLoad(g) || e == GiveUpSwap(g) {
      GiveUpStep(Run(FRESH, es), e, g);
    } else {
      OtherStep(Run(FRESH, es), e, g);
    }
  }

  /** The slot is never at two places and no request has put it back twice. */
  predicate OnlyOnce(s: Slot) {
    s.free + s.claiming <= 1 && forall g <- s.requests :: s.requests[g].releases <= 1
  }

  lemma EmptyRun(s: Slot)
    ensures Legal(s, []) && Run(s, []) == s && SafeEnds(s, [])
  {
  }

  lemma Unroll(s: Slot, e: Event, rest: seq<Event>)
    requires Enabled(s, e) && Legal(Step(s, e), rest)
    ensures Legal(s, [e] + rest) && Run(s, [e] + rest) == Run(Step(s, e), rest)
    ensures SafeEnds(Step(s, e), rest) && !e.GiveUp? ==> SafeEnds(s, [e] + rest)
  {
    assert ([e] + rest)[1..] == rest;
  }

  lemma UnsafeGiveUp(s: Slot, g: Gen) returns (s1: Slot, s2: Slot, s3: Slot)
    requires Inv(s) && RequesterIn(s, g, Left) && Enabled(s, GiveUp(g)) && !SafeGiveUp(s, g)
    ensures s1 == Step(s, GiveUp(g)) && Enabled(s1, GiveUpLoad(g)) && s2 == Step(s1, GiveUpLoad(g))
    ensures Enabled(s2, RequesterReleases(g)) && s3 == Step(s2, RequesterReleases(g))
    ensures !OnlyOnce(s3)
  {
    s1 := Step(s, GiveUp(g));
    s2 := Step(s1, GiveUpLoad(g));
    s3 := Step(s2, RequesterReleases(g));
    assert g in s3.requests && s3.requests[g].releases == 2;
  }

  /** A requester that has ended and gives up after all: over every later schedule the slot is
      put back once, and never at two places, if and only if at that moment the slot did not
      bear its response or its provider's absence any more. */
  lemma LateGiveUpHarmlessIff(s: Slot, g: Gen)
    requires Inv(s) && RequesterIn(s, g, Left) && Enabled(s, GiveUp(g))
    ensures !Word(s, g, Ready) && !Word(s, g, ProviderGone) <==>
              forall es: seq<Event> :: Legal(Step(s, GiveUp(g)), es) && SafeEnds(Step(s, GiveUp(g)), es)
                ==> OnlyOnce(Run(Step(s, GiveUp(g)), es))
  {
    if SafeGiveUp(s, g) {
      StepInv(s, GiveUp(g));
      var s' := Step(s, GiveUp(g));
      forall es: seq<Event> | Legal(s', es) && SafeEnds(s', es)
        ensures OnlyOnce(Run(s', es))
      {
        RunInv(s', es);
        InvOnlyOnce(Run(s', es));
      }
    } else {
      var s1, s2, s3 := UnsafeGiveUp(s, g);
      hide Step, Legal, Run, SafeEnds, Inv, Enabled, OnlyOnce;
      EmptyRun(s3);
      Unroll(s2, RequesterReleases(g), []);
      Unroll(s1, GiveUpLoad(g), [RequesterReleases(g)] + []);
    }
  }

  lemma InvOnlyOnce(s: Slot)
    requires Inv(s)
    ensures OnlyOnce(s)
  {
  }

  // ----- runs from a fresh slot

  /** The first request is sent, and the provider has begun to write its response. */
  function WritingFirst(): (s: Slot) {
    Slot(1, Writing, 0, 0, 0, map[1 := Request(Waiting, Answering, true, 0, None, None)])
  }

  function UntilWriting(rest: seq<Event>): (es: seq<Event>) {
    [Pop] + ([Arm] + ([Send(1)] + ([Take(1)] + ([BeginWrite(1)] + rest))))
  }

  lemma FirstStates() returns (s1: Slot, s2: Slot, s3: Slot, s4: Slot)
    ensures Enabled(FRESH, Pop) && s1 == Step(FRESH, Pop)
    ensures Enabled(s1, Arm) && s2 == Step(s1, Arm)
    ensures Enabled(s2, Send(1)) && s3 == Step(s2, Send(1))
    ensures Enabled(s3, Take(1)) && s4 == Step(s3, Take(1))
    ensures Enabled(s4, BeginWrite(1)) && Step(s4, BeginWrite(1)) == WritingFirst()
  {
    s1 := Slot(0, Empty, 0, 0, 1, map[]);
    s2 := Slot(1, Empty, 0, 0, 0, map[1 := Request(Preparing, Unsent, false, 0, None, None)]);
    s3 := Slot(1, Empty, 0, 0, 0, map[1 := Request(Waiting, Queued, true, 0, None, None)]);
    s4 := Slot(1, Empty, 0, 0, 0, map[1 := Request(Waiting, Working, true, 0, None, None)]);
  }

  lemma ReachesWriting(rest: seq<Event>)
    requires Legal(WritingFirst(), rest)
    ensures Legal(FRESH, UntilWriting(rest)) && Run(FRESH, UntilWriting(rest)) == Run(WritingFirst(), rest)
    ensures SafeEnds(WritingFirst(), rest) ==> SafeEnds(FRESH, UntilWriting(rest))
  {
    hide Step, Legal, Run, SafeEnds, Enabled;
    var s1, s2, s3, s4 := FirstStates();
    Unroll(s4, BeginWrite(1), rest);
    Unroll(s3, Take(1), [BeginWrite(1)] + rest);
    Unroll(s2, Send(1), [Take(1)] + ([BeginWrite(1)] + rest));
    Unroll(s1, Arm, [Send(1)] + ([Take(1)] + ([BeginWrite(1)] + rest)));
    Unroll(FRESH, Pop, [Arm] + ([Send(1)] + ([Take(1)] + ([BeginWrite(1)] + rest))));
  }

  lemma UnrollGiveUp(s: Slot, g: Gen, rest: seq<Event>)
    requires Enabled(s, GiveUp(g)) && SafeGiveUp(s, g) && Legal(Step(s, GiveUp(g)), rest)
    requires SafeEnds(Step(s, GiveUp(g)), rest)
    ensures Legal(s, [GiveUp(g)] + rest) && SafeEnds(s, [GiveUp(g)] + rest)
    ensures Run(s, [GiveUp(g)] + rest) == Run(Step(s, GiveUp(g)), rest)
  {
    assert ([GiveUp(g)] + rest)[1..] == rest;
  }

  lemma GivesUpMidWrite() returns (s1: Slot, s2: Slot)
    ensures Enabled(WritingFirst(), GiveUp(1)) && SafeGiveUp(WritingFirst(), 1) && s1 == Step(WritingFirst(), GiveUp(1))
    ensures Enabled(s1, GiveUpLoad(1)) && s2 == Step(s1, GiveUpLoad(1)) && Enabled(s2, GiveUpSwap(1))
    ensures Step(s2, GiveUpSwap(1))
            == Slot(1, AbandonedWriting, 0, 0, 0, map[1 := Request(Left, Answering, true, 0, None, None)])
  {
    s1 := Slot(1, Writing, 0, 0, 0, map[1 := Request(GivingUp, Answering, true, 0, None, None)]);
    s2 := Slot(1, Writing, 0, 0, 0, map[1 := Request(Deciding(Writing), Answering, true, 0, None, None)]);
  }

  /** A requester gives up while its response is being written: the provider, which won the
      slot for writing, is told to release it. */
  lemma WinnerHasToRelease(bytes: Bytes)
    ensures var es := UntilWriting([GiveUp(1)] + ([GiveUpLoad(1)] + ([GiveUpSwap(1)] + [])));
            && Legal(FRESH, es) && SafeEnds(FRESH, es)
            && Enabled(Run(FRESH, es), Commit(1, bytes))
            && ProviderIn(Step(Run(FRESH, es), Commit(1, bytes)), 1, OwingRelease)
  {
    var s1, s2 := GivesUpMidWrite();
    var s3 := Step(s2, GiveUpSwap(1));
    assert Enabled(s3, Commit(1, bytes)) && ProviderIn(Step(s3, Commit(1, bytes)), 1, OwingRelease);
    hide Step, Legal, Run, SafeEnds, Enabled;
    EmptyRun(s3);
    Unroll(s2, GiveUpSwap(1), []);
    Unroll(s1, GiveUpLoad(1), [GiveUpSwap(1)] + []);
    UnrollGiveUp(WritingFirst(), 1, [GiveUpLoad(1)] + ([GiveUpSwap(1)] + []));
    ReachesWriting([GiveUp(1)] + ([GiveUpLoad(1)] + ([GiveUpSwap(1)] + [])));
  }

  /** The first request has read its response and put the slot back. */
  function ReadFirst(bytes: Bytes): (s: Slot) {
    Slot(1, Ready, bytes, 1, 0, map[1 := Request(Left, Over, true, 1, Some(bytes), Some(bytes))])
  }

  lemma ReadsFirstResponse(bytes: Bytes) returns (s1: Slot, s2: Slot, s3: Slot)
    ensures Enabled(WritingFirst(), Commit(1, bytes)) && s1 == Step(WritingFirst(), Commit(1, bytes))
    ensures Enabled(s1, PollReady(1)) && s2 == Step(s1, PollReady(1))
    ensures Enabled(s2, Read(1)) && s3 == Step(s2, Read(1))
    ensures Enabled(s3, RequesterReleases(1)) && Step(s3, RequesterReleases(1)) == ReadFirst(bytes)
  {
    s1 := Slot(1, Ready, bytes, 0, 0, map[1 := Request(Waiting, Over, true, 0, Some(bytes), None)]);
    s2 := Slot(1, Ready, bytes, 0, 0, map[1 := Request(Reading, Over, true, 0, Some(bytes), None)]);
    s3 := Slot(1, Ready, bytes, 0, 0, map[1 := Request(Owing, Over, true, 0, Some(bytes), Some(bytes))]);
  }

  lemma GivesUpLate(bytes: Bytes) returns (s1: Slot, s2: Slot, s3: Slot, s4: Slot)
    ensures var s := ReadFirst(bytes); Enabled(s, GiveUp(1)) && s1 == Step(s, GiveUp(1))
    ensures Enabled(s1, GiveUpLoad(1)) && s2 == Step(s1, GiveUpLoad(1))
    ensures Enabled(s2, RequesterReleases(1)) && s3 == Step(s2, RequesterReleases(1)) && s3.free == 2
    ensures Enabled(s3, Pop) && s4 == Step(s3, Pop) && Enabled(s4, Pop) && Step(s4, Pop).claiming == 2
  {
    s1 := Slot(1, Ready, bytes, 1, 0, map[1 := Request(GivingUpAgain, Over, true, 1, Some(bytes), Some(bytes))]);
    s2 := Slot(1, Ready, bytes, 1, 0, map[1 := Request(Owing, Over, true, 1, Some(bytes), Some(bytes))]);
    s3 := Slot(1, Ready, bytes, 2, 0, map[1 := Request(Left, Over, true, 2, Some(bytes), Some(bytes))]);
    s4 := s3.(free := 1, claiming := 1);
  }

  function LateGiveUp(bytes: Bytes): (es: seq<Event>) {
    UntilWriting([Commit(1, bytes)] + ([PollReady(1)] + ([Read(1)] + ([RequesterReleases(1)]
      + ([GiveUp(1)] + ([GiveUpLoad(1)] + ([RequesterReleases(1)] + ([Pop] + ([Pop] + [])))))))))
  }

  /** A run in which the poller reads the response and releases the slot, and the requester
      gives up after all: the slot is on the free list twice, and two requests claim it. */
  lemma LateGiveUpHandsItOutTwice(bytes: Bytes)
    ensures Legal(FRESH, LateGiveUp(bytes)) && Run(FRESH, LateGiveUp(bytes)).claiming == 2
  {
    hide Step, Legal, Run, SafeEnds, Enabled;
    var a1, a2, a3 := ReadsFirstResponse(bytes);
    var b1, b2, b3, b4 := GivesUpLate(bytes);
    EmptyRun(Step(b4, Pop));
    Unroll(b4, Pop, []);
    Unroll(b3, Pop, [Pop] + []);
    Unroll(b2, RequesterReleases(1), [Pop] + ([Pop] + []));
    Unroll(b1, GiveUpLoad(1), [RequesterReleases(1)] + ([Pop] + ([Pop] + [])));
    var late := [GiveUpLoad(1)] + ([RequesterReleases(1)] + ([Pop] + ([Pop] + [])));
    Unroll(ReadFirst(bytes), GiveUp(1), late);
    Unroll(a3, RequesterReleases(1), [GiveUp(1)] + late);
    Unroll(a2, Read(1), [RequesterReleases(1)] + ([GiveUp(1)] + late));
    Unroll(a1, PollReady(1), [Read(1)] + ([RequesterReleases(1)] + ([GiveUp(1)] + late)));
    Unroll(WritingFirst(), Commit(1, bytes), [PollReady(1)] + ([Read(1)] + ([RequesterReleases(1)] + ([GiveUp(1)] + late))));
    ReachesWriting([Commit(1, bytes)] + ([PollReady(1)] + ([Read(1)] + ([RequesterReleases(1)] + ([GiveUp(1)] + late)))));
  }
}
