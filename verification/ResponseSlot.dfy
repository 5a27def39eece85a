/**
 One response slot of a request broker through all its generations: requesters claim it,
 the provider answers into it, a canceller or the provider's removal may come in between,
 and one side puts it back on the free list. One event per atomic operation.
 */
module ResponseSlots {
  import opened Sequences

  type Gen = nat
  type Bytes = nat

  datatype Mark = Empty | Writing | Ready | Abandoned | AbandonedWriting | ProviderGone

  datatype Requester =
    | Preparing              // claimed, request not sent yet
    | Waiting
    | GivingUp               // about to read the control word in giveUpSlot
    | GivingUpAgain          // the same, though it has left already
    | Deciding(seen: Mark)   // read Empty or Writing there, about to compare-and-swap
    | Reading                // saw its response ready
    | Owing                  // about to release the slot
    | Left

  datatype Provider =
    | Unsent
    | Queued
    | Working
    | Answering      // won beginWrite, is writing the response bytes
    | OwingRelease   // about to release the slot
    | Over

  datatype Request = Request(
    requester: Requester,
    provider: Provider,
    sent: bool,            // the provider's queue took the request; somebody waits
    releases: nat,         // history: how often this request put the slot back
    reply: Option<Bytes>,  // history: what the provider published
    got: Option<Bytes>)    // history: what the requester read

  datatype Slot = Slot(
    gen: Gen,
    mark: Mark,
    payload: Bytes,
    free: nat,      // how often the slot is on the free list
    claiming: nat,  // claims between taking it off the list and the new control word
    requests: map<Gen, Request>)

  datatype Event =
    | Pop
    | Arm
    | Send(g: Gen)
    | SendFails(g: Gen)
    | PollReady(g: Gen)
    | PollGone(g: Gen)
    | PollAbandoned(g: Gen)
    | GiveUp(g: Gen)       // by whoever waits; nothing stops it after the poller has ended
    | GiveUpLoad(g: Gen)
    | GiveUpSwap(g: Gen)
    | Read(g: Gen)
    | RequesterReleases(g: Gen)
    | Take(g: Gen)
    | BeginWrite(g: Gen)
    | Commit(g: Gen, bytes: Bytes)
    | ProviderReleases(g: Gen)
    | Cancel(g: Gen)       // abandonIfGen, by anyone, with any generation
    | Clear(g: Gen)        // the swap of markProviderGone, with any generation it read

  const FRESH: Slot := Slot(0, Empty, 0, 1, 0, map[])

  predicate RequesterIn(s: Slot, g: Gen, phase: Requester) {
    g in s.requests && s.requests[g].requester == phase
  }

  predicate ProviderIn(s: Slot, g: Gen, phase: Provider) {
    g in s.requests && s.requests[g].provider == phase
  }

  predicate Enabled(s: Slot, e: Event) {
    match e
    case Pop => s.free > 0
    case Arm => s.claiming > 0
    case Send(g) => RequesterIn(s, g, Preparing)
    case SendFails(g) => RequesterIn(s, g, Preparing)
    case PollReady(g) => RequesterIn(s, g, Waiting) && Word(s, g, Ready)
    case PollGone(g) => RequesterIn(s, g, Waiting) && Word(s, g, ProviderGone)
    case PollAbandoned(g) => RequesterIn(s, g, Waiting) && Word(s, g, Abandoned)
    case GiveUp(g) => g in s.requests && s.requests[g].sent && s.requests[g].requester in {Waiting, Left}
    case GiveUpLoad(g) => RequesterIn(s, g, GivingUp) || RequesterIn(s, g, GivingUpAgain)
    case GiveUpSwap(g) => g in s.requests && s.requests[g].requester.Deciding?
    case Read(g) => RequesterIn(s, g, Reading)
    case RequesterReleases(g) => RequesterIn(s, g, Owing)
    case Take(g) => ProviderIn(s, g, Queued)
    case BeginWrite(g) => ProviderIn(s, g, Working)
    case Commit(g, _) => ProviderIn(s, g, Answering)
    case ProviderReleases(g) => ProviderIn(s, g, OwingRelease)
    case Cancel(_) => true
    case Clear(_) => true
  }

  /** The whole control word. */
  predicate Word(s: Slot, g: Gen, m: Mark) {
    s.gen == g && s.mark == m
  }

  /** Compare-and-swap of the mark, within one generation. */
  function Swap(s: Slot, g: Gen, from: Mark, to: Mark): (s': Slot) {
    if Word(s, g, from) then s.(mark := to) else s
  }

  function AsRequester(s: Slot, g: Gen, phase: Requester): (s': Slot)
    requires g in s.requests
  {
    s.(requests := s.requests[g := s.requests[g].(requester := phase)])
  }

  function AsProvider(s: Slot, g: Gen, phase: Provider): (s': Slot)
    requires g in s.requests
  {
    s.(requests := s.requests[g := s.requests[g].(provider := phase)])
  }

  function Released(s: Slot, g: Gen): (s': Slot)
    requires g in s.requests
  {
    s.(free := s.free + 1, requests := s.requests[g := s.requests[g].(releases := s.requests[g].releases + 1)])
  }

  /** giveUpSlot after its load. */
  function AfterLoad(s: Slot, g: Gen): (phase: Requester) {
    if s.gen != g then Left
    else match s.mark
      case Empty => Deciding(Empty)
      case Writing => Deciding(Writing)
      case Ready => Owing
      case Abandoned => Left
      case AbandonedWriting => Left
      case ProviderGone => Owing
  }

  function Step(s: Slot, e: Event): (s': Slot)
    requires Enabled(s, e)
  {
    match e
    case Pop => s.(free := s.free - 1, claiming := s.claiming + 1)
    case Arm =>
      s.(gen := s.gen + 1, mark := Empty, claiming := s.claiming - 1,
         requests := s.requests[s.gen + 1 := Request(Preparing, Unsent, false, 0, None, None)])
    case Send(g) =>
      var r := s.requests[g].(requester := Waiting, provider := Queued, sent := true);
      s.(requests := s.requests[g := r])
    case SendFails(g) => AsProvider(AsRequester(s, g, Owing), g, Over)
    case PollReady(g) => AsRequester(s, g, Reading)
    case PollGone(g) => AsRequester(s, g, Owing)
    case PollAbandoned(g) => AsRequester(s, g, Left)
    case GiveUp(g) => AsRequester(s, g, if RequesterIn(s, g, Waiting) then GivingUp else GivingUpAgain)
    case GiveUpLoad(g) => AsRequester(s, g, AfterLoad(s, g))
    case GiveUpSwap(g) =>
      var seen := s.requests[g].requester.seen;
      if Word(s, g, seen) then
        Swap(AsRequester(s, g, Left), g, seen, if seen == Empty then Abandoned else AbandonedWriting)
      else AsRequester(s, g, GivingUp)
    case Read(g) =>
      AsRequester(s.(requests := s.requests[g := s.requests[g].(got := Some(s.payload))]), g, Owing)
    case RequesterReleases(g) => AsRequester(Released(s, g), g, Left)
    case Take(g) => AsProvider(s, g, if Word(s, g, Abandoned) then OwingRelease else Working)
    case BeginWrite(g) =>
      if Word(s, g, Empty) then AsProvider(Swap(s, g, Empty, Writing), g, Answering)
      else AsProvider(s, g, if Word(s, g, Abandoned) then OwingRelease else Over)
    case Commit(g, bytes) =>
      var s1 := s.(payload := bytes);
      if Word(s, g, Writing) then
        AsProvider(Swap(s1, g, Writing, Ready), g, Over)
          .(requests := s.requests[g := s.requests[g].(provider := Over, reply := Some(bytes))])
      else AsProvider(s1, g, OwingRelease)
    case ProviderReleases(g) => AsProvider(Released(s, g), g, Over)
    case Cancel(g) => Swap(s, g, Empty, Abandoned)
    case Clear(g) => Swap(s, g, Empty, ProviderGone)
  }

  ghost predicate Legal(s: Slot, es: seq<Event>)
    decreases es
  {
    es == [] || (Enabled(s, es[0]) && Legal(Step(s, es[0]), es[1..]))
  }

  ghost function Run(s: Slot, es: seq<Event>): (s': Slot)
    requires Legal(s, es)
    decreases es
  {
    if es == [] then s else Run(Step(s, es[0]), es[1..])
  }

  /** Nobody is between the two steps of a claim and the slot is off the list. */
  predicate Taken(s: Slot) {
    s.free == 0 && s.claiming == 0
  }

  /** The request has the slot: who does what under which mark, and so whose the release
      is going to be. */
  predicate Holding(m: Mark, r: Request) {
    && r.releases == 0
    && (r.requester == Preparing <==> r.provider == Unsent)
    && (!r.sent ==> r.requester == Preparing || (r.requester == Owing && r.provider == Over && m != Ready))
    && (r.sent ==> r.requester != Preparing && (r.requester == Owing ==> m == Ready || m == ProviderGone))
    && (r.requester == Reading ==> m == Ready)
    && (r.requester == Owing ==> m == Ready || m == ProviderGone || r.provider == Over)
    && (r.requester == Left || r.requester == GivingUpAgain ==> m == Abandoned || m == AbandonedWriting)
    && (r.provider == Answering ==> m == Writing || m == AbandonedWriting)
    && (r.provider == OwingRelease ==> m == Abandoned || m == AbandonedWriting)
    && (r.reply.Some? <==> m == Ready)
    && (r.got.Some? ==> r.requester == Owing && r.got == r.reply)
    && match m
       case Empty => r.provider != Over || r.requester == Owing
       case Writing => r.provider == Answering
       case Ready => r.provider == Over
       case Abandoned => r.provider != Over || r.requester == Owing
       case AbandonedWriting =>
         (r.requester == Left || r.requester == GivingUpAgain) && (r.provider == Answering || r.provider == OwingRelease)
       case ProviderGone => true
  }

  /** The request has put the slot back, once, and will not do so again. */
  predicate Settled(r: Request) {
    && r.releases == 1
    && r.requester != Preparing && r.requester != Reading && r.requester != Owing
    && r.provider != Unsent && r.provider != Answering && r.provider != OwingRelease
    && (r.got.Some? ==> r.got == r.reply)
  }

  /** A settled request whose generation the slot still bears. */
  predicate Harmless(m: Mark, r: Request) {
    && (r.requester != Left ==> (m == Abandoned || m == AbandonedWriting) && r.provider == Over)
    && (r.provider != Over ==> m == ProviderGone && r.requester == Left)
    && (r.sent ==> m != Empty && m != Writing)
  }

  ghost predicate CurrentAgrees(s: Slot) {
    && (s.gen == 0 ==> !Taken(s))
    && (s.gen > 0 && s.gen in s.requests ==>
          var r := s.requests[s.gen];
          if Taken(s) then Holding(s.mark, r) && (s.mark == Ready ==> Some(s.payload) == r.reply)
          else Settled(r) && Harmless(s.mark, r))
  }

  ghost predicate Inv(s: Slot) {
    && s.free + s.claiming <= 1
    && (forall g :: g in s.requests <==> 1 <= g <= s.gen)
    && (forall g <- s.requests ::
          s.requests[g].requester.Deciding? ==> s.requests[g].requester.seen in {Empty, Writing})
    && (forall g <- s.requests :: g < s.gen ==> Settled(s.requests[g]))
    && CurrentAgrees(s)
  }

  lemma FreshInv()
    ensures Inv(FRESH)
  {
  }

  lemma PollInv(s: Slot, e: Event)
    requires Inv(s) && Enabled(s, e) && (e.PollReady? || e.PollGone? || e.PollAbandoned?)
    ensures Inv(Step(s, e))
  {
  }

  /** A give-up is harmless when the requester still waits, and later too unless the slot
      still bears its response or its provider's absence. */
  predicate SafeGiveUp(s: Slot, g: Gen) {
    RequesterIn(s, g, Waiting) || (!Word(s, g, Ready) && !Word(s, g, ProviderGone))
  }

  lemma GiveUpInv(s: Slot, g: Gen)
    requires Inv(s) && Enabled(s, GiveUp(g)) && SafeGiveUp(s, g)
    ensures Inv(Step(s, GiveUp(g)))
  {
  }

  lemma LoadInv(s: Slot, g: Gen)
    requires Inv(s) && Enabled(s, GiveUpLoad(g))
    ensures Inv(Step(s, GiveUpLoad(g)))
  {
  }

  lemma SwapInv(s: Slot, g: Gen)
    requires Inv(s) && Enabled(s, GiveUpSwap(g))
    ensures Inv(Step(s, GiveUpSwap(g)))
  {
  }

  lemma EndInv(s: Slot, e: Event)
    requires Inv(s) && Enabled(s, e) && (e.SendFails? || e.Read? || e.RequesterReleases?)
    ensures Inv(Step(s, e))
  {
  }

  lemma TakeInv(s: Slot, g: Gen)
    requires Inv(s) && Enabled(s, Take(g))
    ensures Inv(Step(s, Take(g)))
  {
  }

  lemma BeginWriteInv(s: Slot, g: Gen)
    requires Inv(s) && Enabled(s, BeginWrite(g))
    ensures Inv(Step(s, BeginWrite(g)))
  {
  }

  lemma CommitInv(s: Slot, e: Event)
    requires Inv(s) && Enabled(s, e) && (e.Commit? || e.ProviderReleases?)
    ensures Inv(Step(s, e))
  {
  }

  lemma ClaimInv(s: Slot, e: Event)
    requires Inv(s) && Enabled(s, e) && (e.Pop? || e.Arm? || e.Send? || e.Cancel? || e.Clear?)
    ensures Inv(Step(s, e))
  {
  }

  lemma StepInv(s: Slot, e: Event)
    requires Inv(s) && Enabled(s, e) && (e.GiveUp? ==> SafeGiveUp(s, e.g))
    ensures Inv(Step(s, e))
  {
    hide Inv, Step, Enabled, SafeGiveUp;
    if e.PollReady? || e.PollGone? || e.PollAbandoned? {
      PollInv(s, e);
    } else if e.GiveUp? {
      GiveUpInv(s, e.g);
    } else if e.GiveUpLoad? {
      LoadInv(s, e.g);
    } else if e.GiveUpSwap? {
      SwapInv(s, e.g);
    } else if e.SendFails? || e.Read? || e.RequesterReleases? {
      EndInv(s, e);
    } else if e.Take? {
      TakeInv(s, e.g);
    } else if e.BeginWrite? {
      BeginWriteInv(s, e.g);
    } else if e.Commit? || e.ProviderReleases? {
      CommitInv(s, e);
    } else {
      ClaimInv(s, e);
    }
  }

  /** Every give-up in the run is harmless. */
  ghost predicate SafeEnds(s: Slot, es: seq<Event>)
    requires Legal(s, es)
    decreases es
  {
    es == [] || ((es[0].GiveUp? ==> SafeGiveUp(s, es[0].g)) && SafeEnds(Step(s, es[0]), es[1..]))
  }

  /** Each requester ends once: nobody gives up who does not wait any more. */
  ghost predicate EndsOnce(s: Slot, es: seq<Event>)
    requires Legal(s, es)
    decreases es
  {
    es == [] || ((es[0].GiveUp? ==> RequesterIn(s, es[0].g, Waiting)) && EndsOnce(Step(s, es[0]), es[1..]))
  }

  lemma {:induction false} EndingOnceIsSafe(s: Slot, es: seq<Event>)
    requires Legal(s, es) && EndsOnce(s, es)
    ensures SafeEnds(s, es)
    decreases es
  {
    if es != [] {
      EndingOnceIsSafe(Step(s, es[0]), es[1..]);
    }
  }

  lemma {:induction false} RunInv(s: Slot, es: seq<Event>)
    requires Inv(s) && Legal(s, es) && SafeEnds(s, es)
    ensures Inv(Run(s, es))
    decreases es
  {
    if es != [] {
      StepInv(s, es[0]);
      RunInv(Step(s, es[0]), es[1..]);
    }
  }
}
