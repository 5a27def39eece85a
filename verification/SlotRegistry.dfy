/**
 What the undos do: release, not clear. The registry is one thread's view of the
 provider slots (`local`, the closure it installed there) and the shared bucket table
 (`bucket`, which thread owns the bucket). A bucket serves two slots, one for each
 signature a request broker may have.
 */
module SlotRegistry {
  import opened Sequences
  import opened ScopeMachine
  import opened ScopeRuns

  datatype Owner = Here | Elsewhere

  datatype ReleaseOutcome = Released | AlreadyGone | TakenOver | OwnerChanged

  datatype Registry = Registry(local: map<nat, nat>, bucket: map<nat, Owner>)

  function BucketOf(slot: nat): (b: nat) {
    slot / 2
  }

  /** The slot of the other signature on the same bucket. */
  function Sibling(slot: nat): (other: nat)
    ensures other != slot && BucketOf(other) == BucketOf(slot)
  {
    if slot % 2 == 0 then slot + 1 else slot - 1
  }

  function Outcome(r: Registry, slot: nat, closure: nat): (o: ReleaseOutcome) {
    if slot !in r.local then AlreadyGone
    else if r.local[slot] != closure then TakenOver
    else if BucketOf(slot) !in r.bucket then AlreadyGone
    else if r.bucket[BucketOf(slot)] == Elsewhere then OwnerChanged
    else Released
  }

  /** The registry after one undo: our own closure leaves this thread's view, and the
      bucket with it only when this thread owns it and the other slot is not in use. */
  function Release(r: Registry, slot: nat, closure: nat): (r': Registry)
    ensures r'.local == if slot in r.local && r.local[slot] == closure then r.local - {slot} else r.local
    ensures forall b <- r.bucket ::
              (b in r'.bucket <==> !(b == slot / 2 && r.bucket[b] == Here && Sibling(slot) !in r.local
                                     && slot in r.local && r.local[slot] == closure))
              && (b in r'.bucket ==> r'.bucket[b] == r.bucket[b])
    ensures r'.bucket.Keys <= r.bucket.Keys
    ensures Outcome(r', slot, closure) in {AlreadyGone, TakenOver}
  {
    match Outcome(r, slot, closure)
    case Released =>
      Registry(r.local - {slot}, if Sibling(slot) in r.local then r.bucket else r.bucket - {BucketOf(slot)})
    case OwnerChanged => r.(local := r.local - {slot})
    case AlreadyGone => r.(local := r.local - {slot})
    case TakenOver => r
  }

  /** What a registration answers, and the registry it leaves. */
  datatype Answer = Ok(reg: Registry) | Err(reg: Registry)

  /** The closure goes into this thread's view, and out again with whatever the slot held
      when the bucket is another thread's; without one this thread creates it. */
  function Settle(r: Registry, slot: nat, closure: nat): (a: Answer) {
    if BucketOf(slot) in r.bucket && r.bucket[BucketOf(slot)] == Elsewhere
    then Err(r.(local := r.local - {slot}))
    else Ok(Registry(r.local[slot := closure], r.bucket[BucketOf(slot) := Here]))
  }

  /** `set` refuses a slot in use, but drops an entry whose bucket this thread does not own
      (any more) and starts afresh; `replace` puts the closure over any entry. */
  function Provide(r: Registry, slot: nat, closure: nat, replace: bool): (a: Answer) {
    if slot in r.local && replace then Ok(r.(local := r.local[slot := closure]))
    else if slot in r.local && BucketOf(slot) in r.bucket && r.bucket[BucketOf(slot)] == Here then Err(r)
    else Settle(r, slot, closure)
  }

  class SlotTable {
    var local: map<nat, nat>
    var bucket: map<nat, Owner>

    constructor ()
      ensures local == map[] && bucket == map[]
    {
      local, bucket := map[], map[];
    }

    /** The owner-only removal of a bucket, decided and done in one locked section. */
    method RemoveOwned(b: nat) returns (outcome: ReleaseOutcome)
      modifies this`bucket
      ensures outcome == (if b !in old(bucket) then AlreadyGone
                          else if old(bucket)[b] == Elsewhere then OwnerChanged else Released)
      ensures bucket == if outcome == Released then old(bucket) - {b} else old(bucket)
    {
      if b !in bucket {
        return AlreadyGone;
      }
      if bucket[b] == Elsewhere {
        return OwnerChanged;
      }
      bucket := bucket - {b};
      outcome := Released;
    }

    /** The generated release: identity check in this thread's view; then, with the other
        slot in use only the owner check, else the removal of the bucket; then the purge of
        the local entry. */
    method ReleaseSlot(slot: nat, closure: nat) returns (outcome: ReleaseOutcome)
      modifies this
      ensures outcome == TakenOver <==> slot in old(local) && old(local)[slot] != closure
      ensures outcome == AlreadyGone <==>
                slot !in old(local) || (old(local)[slot] == closure && slot / 2 !in old(bucket))
      ensures outcome == OwnerChanged <==>
                slot in old(local) && old(local)[slot] == closure
                && slot / 2 in old(bucket) && old(bucket)[slot / 2] == Elsewhere
      ensures outcome == Released <==>
                slot in old(local) && old(local)[slot] == closure
                && slot / 2 in old(bucket) && old(bucket)[slot / 2] == Here
      ensures local == if outcome == TakenOver then old(local) else old(local) - {slot}
      ensures bucket == if outcome == Released && Sibling(slot) !in old(local)
                        then old(bucket) - {slot / 2} else old(bucket)
      ensures Registry(local, bucket) == old(Release(Registry(local, bucket), slot, closure))
    {
      if slot !in local {
        return AlreadyGone;
      }
      if local[slot] != closure {
        return TakenOver;
      }
      if Sibling(slot) in local {
        outcome := AlreadyGone;
        if BucketOf(slot) in bucket {
          outcome := if bucket[BucketOf(slot)] == Here then Released else OwnerChanged;
        }
      } else {
        outcome := RemoveOwned(BucketOf(slot));
        if outcome == Released {
          local := local - {slot, Sibling(slot)};
          return;
        }
      }
      local := local - {slot};
    }

    /** The bucket for a new entry, found or created under the lock. */
    method SetupBucket(b: nat) returns (ok: bool)
      modifies this`bucket
      ensures ok <==> b !in old(bucket) || old(bucket)[b] == Here
      ensures bucket == if ok then old(bucket)[b := Here] else old(bucket)
    {
      if b in bucket {
        return bucket[b] == Here;
      }
      bucket := bucket[b := Here];
      ok := true;
    }

    /** Appends the entry, and takes it off again when there is no bucket for it. */
    method AddEntry(slot: nat, closure: nat) returns (ok: bool)
      requires slot !in local
      modifies this
      ensures ok <==> slot / 2 !in old(bucket) || old(bucket)[slot / 2] == Here
      ensures local == if ok then old(local)[slot := closure] else old(local)
      ensures bucket == if ok then old(bucket)[slot / 2 := Here] else old(bucket)
    {
      local := local[slot := closure];
      ok := SetupBucket(BucketOf(slot));
      if !ok {
        local := local - {slot};
      }
    }

    method SetProvider(slot: nat, closure: nat) returns (ok: bool)
      modifies this
      ensures ok <==> if slot / 2 in old(bucket)
                      then old(bucket)[slot / 2] == Here && slot !in old(local) else true
      ensures ok ==> local == old(local)[slot := closure] && bucket == old(bucket)[slot / 2 := Here]
      ensures !ok ==> bucket == old(bucket)
      ensures !ok && old(bucket)[slot / 2] == Here ==> local == old(local)
      ensures !ok && old(bucket)[slot / 2] == Elsewhere ==> local == old(local) - {slot}
      ensures (if ok then Ok(Registry(local, bucket)) else Err(Registry(local, bucket)))
           == old(Provide(Registry(local, bucket), slot, closure, false))
    {
      if slot in local {
        var isStale := BucketOf(slot) !in bucket || bucket[BucketOf(slot)] != Here;
        if !isStale {
          return false;
        }
        local := local - {slot};
      }
      ok := AddEntry(slot, closure);
    }

    method ReplaceProvider(slot: nat, closure: nat) returns (ok: bool)
      modifies this
      ensures ok <==> slot in old(local) || slot / 2 !in old(bucket) || old(bucket)[slot / 2] == Here
      ensures local == if ok then old(local)[slot := closure] else old(local)
      ensures bucket == if ok && slot !in old(local) then old(bucket)[slot / 2 := Here] else old(bucket)
      ensures (if ok then Ok(Registry(local, bucket)) else Err(Registry(local, bucket)))
           == old(Provide(Registry(local, bucket), slot, closure, true))
    {
      if slot in local {
        local := local[slot := closure];
        return true;
      }
      ok := AddEntry(slot, closure);
    }
  }

  datatype World = World(scope: Scope, reg: Registry)

  datatype Deed =
    | ByScope(e: Event)                            // anything but a registration
    | Install(u: Undo, replace: bool, owner: bool) // a registration through the scope
    | OutsideInstall(slot: nat, closure: nat, replace: bool) // a provider, a mock, a mock's restore
    | OutsideDrop(slot: nat)                       // clears both slots of the bucket
    | OutsideRelease(slot: nat, closure: nat)      // one slot: another scope's undo, a dropped listener
    | ForeignTake(b: nat)                          // another thread's bucket
    | ForeignDrop(b: nat)

  predicate Possible(w: World, d: Deed) {
    d.ByScope? ==> !d.e.Track? && !d.e.Register? && Enabled(w.scope, d.e)
  }

  predicate OwnedHere(r: Registry, slot: nat) {
    BucketOf(slot) in r.bucket && r.bucket[BucketOf(slot)] == Here
  }

  function Drop(r: Registry, slot: nat): (r': Registry) {
    Registry(r.local - {slot, Sibling(slot)}, r.bucket - {BucketOf(slot)})
  }

  /** In which of its turns, counted from 0, the undo releases its slot. */
  function ReleaseTurn(u: Undo): (n: nat)
    ensures n <= u.suspensions
  {
    if u.releaseAfter < u.suspensions then u.releaseAfter else u.suspensions
  }

  /** The undo that releases its slot in this event, if any. */
  function Releasing(s: Scope, e: Event): (u: Option<Undo>)
    requires Enabled(s, e)
  {
    if e.Advance? || e.AwaitCall? then
      var t := s.running.value;
      if 0 < t.left <= |t.batch| && t.pending + ReleaseTurn(t.batch[t.left - 1]) == t.batch[t.left - 1].suspensions
      then Some(t.batch[t.left - 1]) else None
    else None
  }

  /** The undo being run releases when it has suspended as often as it says, or at its end. */
  lemma ReleasesInItsTurn(s: Scope, e: Event)
    requires Enabled(s, e) && (e.Advance? || e.AwaitCall?) && 0 < s.running.value.left <= |s.running.value.batch|
    ensures var u := s.running.value.batch[s.running.value.left - 1];
            var suspended := u.suspensions - s.running.value.pending;
            Releasing(s, e) == Some(u) <==>
              suspended == u.releaseAfter || (suspended == u.suspensions && u.suspensions < u.releaseAfter)
    ensures Releasing(s, e).Some? ==> Releasing(s, e).value == s.running.value.batch[s.running.value.left - 1]
  {
  }

  /** The detached undos that have not released their slots. */
  function ToRelease(s: Scope): (r: seq<Undo>) {
    if s.running.Some? && 0 < s.running.value.left <= |s.running.value.batch| then
      var t := s.running.value;
      if t.pending + ReleaseTurn(t.batch[t.left - 1]) < t.batch[t.left - 1].suspensions
      then t.batch[..t.left - 1] else t.batch[..t.left]
    else []
  }

  function Do(w: World, d: Deed): (w': World)
    requires Possible(w, d)
  {
    match d
    case ByScope(e) =>
      var u := Releasing(w.scope, e);
      World(Step(w.scope, e),
            if u.Some? then Release(w.reg, u.value.slot, u.value.closure) else w.reg)
    case Install(u, replace, owner) =>
      if !owner || w.scope.tearingDown then w
      else
        (match Provide(w.reg, u.slot, u.closure, replace)
         case Ok(reg) => World(Step(w.scope, Register(u, owner)), reg)
         case Err(reg) => w.(reg := reg))
    case OutsideInstall(slot, closure, replace) => w.(reg := Provide(w.reg, slot, closure, replace).reg)
    case OutsideDrop(slot) =>
      if OwnedHere(w.reg, slot) then w.(reg := Drop(w.reg, slot)) else w
    case OutsideRelease(slot, closure) => w.(reg := Release(w.reg, slot, closure))
    case ForeignTake(b) => w.(reg := w.reg.(bucket := w.reg.bucket[b := Elsewhere]))
    case ForeignDrop(b) => w.(reg := w.reg.(bucket := w.reg.bucket - {b}))
  }

  /** A registration through the scope, in full. Off the owning thread or in a closing scope,
      and as a `set` on a slot in use, it changes nothing. Over an entry with `replace`, and
      into any other slot whose bucket is this thread's or nobody's, the closure goes into the
      slot and the undo is recorded. Only a bucket of another thread's is left: then the entry
      the slot may have held from earlier is dropped. */
  lemma InstallOutcome(w: World, u: Undo, replace: bool, owner: bool)
    ensures var w' := Do(w, Install(u, replace, owner));
            var held, b := u.slot in w.reg.local, u.slot / 2;
            && (!owner || w.scope.tearingDown ==> w' == w)
            && (held && !replace && b in w.reg.bucket && w.reg.bucket[b] == Here ==> w' == w)
            && (owner && !w.scope.tearingDown ==>
                  && (held && replace ==>
                        && w'.reg == w.reg.(local := w.reg.local[u.slot := u.closure])
                        && w'.scope == w.scope.(undo := w.scope.undo + [u]))
                  && (!(held && !replace) && b in w.reg.bucket && w.reg.bucket[b] == Here ==>
                        && w'.reg == w.reg.(local := w.reg.local[u.slot := u.closure])
                        && w'.scope == w.scope.(undo := w.scope.undo + [u]))
                  && (!(held && replace) && b !in w.reg.bucket ==>
                        && w'.reg == Registry(w.reg.local[u.slot := u.closure], w.reg.bucket[b := Here])
                        && w'.scope == w.scope.(undo := w.scope.undo + [u]))
                  && (!(held && replace) && b in w.reg.bucket && w.reg.bucket[b] == Elsewhere ==>
                        w' == w.(reg := w.reg.(local := w.reg.local - {u.slot}))))
  {
    if u.slot / 2 in w.reg.bucket && w.reg.bucket[u.slot / 2] == Here {
      assert w.reg.bucket[u.slot / 2 := Here] == w.reg.bucket;
    }
  }

  /** The same for everyone else, and for a clear: it empties both slots of a bucket this
      thread owns and does nothing otherwise. */
  lemma OutsideOutcome(w: World, slot: nat, closure: nat, replace: bool)
    ensures var w' := Do(w, OutsideInstall(slot, closure, replace));
            var held, b := slot in w.reg.local, slot / 2;
            && w'.scope == w.scope
            && (held && !replace && b in w.reg.bucket && w.reg.bucket[b] == Here ==> w' == w)
            && (held && replace ==> w'.reg == w.reg.(local := w.reg.local[slot := closure]))
            && (!held && b in w.reg.bucket && w.reg.bucket[b] == Here ==>
                  w'.reg == w.reg.(local := w.reg.local[slot := closure]))
            && (!(held && replace) && b !in w.reg.bucket ==>
                  w'.reg == Registry(w.reg.local[slot := closure], w.reg.bucket[b := Here]))
            && (!(held && replace) && b in w.reg.bucket && w.reg.bucket[b] == Elsewhere ==>
                  w'.reg == w.reg.(local := w.reg.local - {slot}))
    ensures var w' := Do(w, OutsideDrop(slot));
            var b := slot / 2;
            && w'.scope == w.scope
            && w'.reg == if b in w.reg.bucket && w.reg.bucket[b] == Here
                         then Registry(w.reg.local - {b * 2, b * 2 + 1}, w.reg.bucket - {b}) else w.reg
    ensures Do(w, ForeignTake(slot)) == w.(reg := w.reg.(bucket := w.reg.bucket[slot := Elsewhere]))
    ensures Do(w, ForeignDrop(slot)) == w.(reg := w.reg.(bucket := w.reg.bucket - {slot}))
  {
    var b := slot / 2;
    if b in w.reg.bucket && w.reg.bucket[b] == Here {
      assert w.reg.bucket[b := Here] == w.reg.bucket;
      assert {slot, Sibling(slot)} == {b * 2, b * 2 + 1};
    }
  }

  /** An undo for this closure in this slot is still to release it. */
  ghost predicate Covered(s: Scope, slot: nat, closure: nat) {
    exists u :: (u in s.undo || u in ToRelease(s)) && u.slot == slot && u.closure == closure
  }

  /** The scope installs closures of its own; an outsider puts one of them (back) into
      a slot only while the undo for it has still to release it. */
  ghost predicate Respectful(w: World, d: Deed, ours: set<nat>) {
    && (d.Install? ==> d.u.closure in ours)
    && (d.OutsideInstall? && d.closure in ours ==> Covered(w.scope, d.slot, d.closure))
  }

  ghost predicate History(w: World, ds: seq<Deed>, ours: set<nat>)
    decreases ds
  {
    ds == [] || (Possible(w, ds[0]) && Respectful(w, ds[0], ours) && History(Do(w, ds[0]), ds[1..], ours))
  }

  ghost function After(w: World, ds: seq<Deed>, ours: set<nat>): (w': World)
    requires History(w, ds, ours)
    decreases ds
  {
    if ds == [] then w else After(Do(w, ds[0]), ds[1..], ours)
  }

  /** The slots as they would be had the undos released nothing: the last accepted
      write to each slot, starting from `held`. */
  ghost function LastWrites(w: World, ds: seq<Deed>, ours: set<nat>, held: map<nat, nat>): (m: map<nat, nat>)
    requires History(w, ds, ours)
    decreases ds
  {
    if ds == [] then held else LastWrites(Do(w, ds[0]), ds[1..], ours, Written(w, ds[0], held))
  }

  /** A registration on this thread: over an entry with `replace`; else refused where an
      entry of this thread's own bucket is, an entry without its bucket lost where the bucket
      is another thread's, and written everywhere else. */
  function WrittenBy(r: Registry, slot: nat, closure: nat, replace: bool, held: map<nat, nat>): (m: map<nat, nat>) {
    if replace && slot in r.local then held[slot := closure]
    else if slot / 2 in r.bucket && r.bucket[slot / 2] == Elsewhere then held - {slot}
    else if slot in r.local && slot / 2 in r.bucket then held
    else held[slot := closure]
  }

  function Written(w: World, d: Deed, held: map<nat, nat>): (m: map<nat, nat>) {
    match d
    case Install(u, replace, owner) =>
      if owner && !w.scope.tearingDown then WrittenBy(w.reg, u.slot, u.closure, replace, held) else held
    case OutsideInstall(slot, closure, replace) => WrittenBy(w.reg, slot, closure, replace, held)
    case OutsideDrop(slot) =>
      if slot / 2 in w.reg.bucket && w.reg.bucket[slot / 2] == Here
      then held - {slot / 2 * 2, slot / 2 * 2 + 1} else held
    case OutsideRelease(slot, closure) =>
      if slot in w.reg.local && w.reg.local[slot] == closure then held - {slot} else held
    case _ => held
  }

  /** The buckets other threads have meddled with since this thread last put something there,
      starting from `away`. */
  ghost function Disturbed(w: World, ds: seq<Deed>, ours: set<nat>, away: set<nat>): (bs: set<nat>)
    requires History(w, ds, ours)
    decreases ds
  {
    if ds == [] then away else Disturbed(Do(w, ds[0]), ds[1..], ours, StillAway(w, ds[0], away))
  }

  /** A new entry takes or creates the bucket; one put over another does not look at it. */
  function AwayAfter(r: Registry, slot: nat, replace: bool, away: set<nat>): (bs: set<nat>) {
    if slot !in r.local || (!replace && slot / 2 !in r.bucket) then
      if slot / 2 in r.bucket && r.bucket[slot / 2] == Elsewhere then away else away - {slot / 2}
    else away
  }

  function StillAway(w: World, d: Deed, away: set<nat>): (bs: set<nat>) {
    match d
    case Install(u, replace, owner) =>
      if owner && !w.scope.tearingDown then AwayAfter(w.reg, u.slot, replace, away) else away
    case OutsideInstall(slot, _, replace) => AwayAfter(w.reg, slot, replace, away)
    case ForeignTake(b) => away + {b}
    case ForeignDrop(b) => away + {b}
    case _ => away
  }

  predicate InUse(r: Registry, b: nat) {
    2 * b in r.local || 2 * b + 1 in r.local
  }

  /** Apart from those, this thread owns a bucket exactly while one of its slots is in use. */
  ghost predicate BucketsAgree(r: Registry, away: set<nat>) {
    forall b: nat :: b !in away ==> (InUse(r, b) <==> b in r.bucket && r.bucket[b] == Here)
  }

  lemma TwoSlots(slot: nat)
    ensures slot == 2 * BucketOf(slot) || slot == 2 * BucketOf(slot) + 1
    ensures Sibling(slot) == if slot == 2 * BucketOf(slot) then slot + 1 else slot - 1
    ensures forall b: nat | b != BucketOf(slot) ::
              2 * b != slot && 2 * b + 1 != slot && 2 * b != Sibling(slot) && 2 * b + 1 != Sibling(slot)
  {
  }

  lemma ReleaseKeepsBuckets(r: Registry, slot: nat, closure: nat, away: set<nat>)
    requires BucketsAgree(r, away)
    ensures BucketsAgree(Release(r, slot, closure), away)
  {
    TwoSlots(slot);
    var r' := Release(r, slot, closure);
    hide Sibling, BucketOf;
    forall b: nat | b !in away
      ensures InUse(r', b) <==> b in r'.bucket && r'.bucket[b] == Here
    {
      assert InUse(r, b) <==> b in r.bucket && r.bucket[b] == Here;
    }
  }

  lemma ProvideKeepsBuckets(r: Registry, slot: nat, closure: nat, replace: bool, away: set<nat>)
    requires BucketsAgree(r, away)
    ensures BucketsAgree(Provide(r, slot, closure, replace).reg, AwayAfter(r, slot, replace, away))
  {
    TwoSlots(slot);
    var r' := Provide(r, slot, closure, replace).reg;
    hide Sibling;
    forall b: nat | b !in AwayAfter(r, slot, replace, away)
      ensures InUse(r', b) <==> b in r'.bucket && r'.bucket[b] == Here
    {
      if b in away {
        assert b == slot / 2;
      } else {
        assert InUse(r, b) <==> b in r.bucket && r.bucket[b] == Here;
      }
    }
  }

  lemma DropKeepsBuckets(r: Registry, slot: nat, away: set<nat>)
    requires BucketsAgree(r, away)
    ensures BucketsAgree(Drop(r, slot), away)
  {
    TwoSlots(slot);
    var r' := Drop(r, slot);
    hide Sibling, BucketOf;
    forall b: nat | b !in away
      ensures InUse(r', b) <==> b in r'.bucket && r'.bucket[b] == Here
    {
      assert InUse(r, b) <==> b in r.bucket && r.bucket[b] == Here;
    }
  }

  lemma DeedKeepsBuckets(w: World, d: Deed, away: set<nat>)
    requires Possible(w, d) && BucketsAgree(w.reg, away)
    ensures BucketsAgree(Do(w, d).reg, StillAway(w, d, away))
  {
    match d
    case ByScope(e) =>
      var u := Releasing(w.scope, e);
      if u.Some? { ReleaseKeepsBuckets(w.reg, u.value.slot, u.value.closure, away); }
    case Install(u, replace, _) => ProvideKeepsBuckets(w.reg, u.slot, u.closure, replace, away);
    case OutsideInstall(slot, closure, replace) => ProvideKeepsBuckets(w.reg, slot, closure, replace, away);
    case OutsideDrop(slot) => if OwnedHere(w.reg, slot) { DropKeepsBuckets(w.reg, slot, away); }
    case OutsideRelease(slot, closure) => ReleaseKeepsBuckets(w.reg, slot, closure, away);
    case ForeignTake(_) => ForeignKeepsBuckets(w, d, away);
    case ForeignDrop(_) => ForeignKeepsBuckets(w, d, away);
  }

  lemma ForeignKeepsBuckets(w: World, d: Deed, away: set<nat>)
    requires (d.ForeignTake? || d.ForeignDrop?) && BucketsAgree(w.reg, away)
    ensures BucketsAgree(Do(w, d).reg, away + {d.b})
  {
    var r' := Do(w, d).reg;
    forall b: nat | b !in away + {d.b}
      ensures InUse(r', b) <==> b in r'.bucket && r'.bucket[b] == Here
    {
      assert InUse(w.reg, b) <==> b in w.reg.bucket && w.reg.bucket[b] == Here;
    }
  }

  /** Through every history, whoever does what: the bucket of a registration that stands is
      not taken from under it, and none stays behind without a registration. */
  lemma {:induction false} HistoryKeepsBuckets(w: World, ds: seq<Deed>, ours: set<nat>, away: set<nat>)
    requires History(w, ds, ours) && BucketsAgree(w.reg, away)
    ensures BucketsAgree(After(w, ds, ours).reg, Disturbed(w, ds, ours, away))
    decreases ds
  {
    if ds != [] {
      DeedKeepsBuckets(w, ds[0], away);
      HistoryKeepsBuckets(Do(w, ds[0]), ds[1..], ours, StillAway(w, ds[0], away));
    }
  }

  /** Every closure of ours still in a slot is covered, and nobody else's was touched. */
  ghost predicate Accounted(w: World, held: map<nat, nat>, ours: set<nat>) {
    && Inv(w.scope) && (w.scope.tearingDown ==> w.scope.undo == [])
    && (forall s <- w.reg.local :: w.reg.local[s] in ours ==> Covered(w.scope, s, w.reg.local[s]))
    && (forall s <- w.reg.local :: s in held && held[s] == w.reg.local[s])
    && (forall s <- held :: held[s] !in ours ==> s in w.reg.local)
    && (forall u :: u in w.scope.undo || u in ToRelease(w.scope) ==> u.closure in ours)
  }

  /** An event that is not a registration finds each undo to release in what was there, and
      takes out the one it releases. */
  lemma NoNewUndos(s: Scope, e: Event)
    requires Inv(s) && Enabled(s, e) && !e.Track? && !e.Register?
    ensures forall u | u in Step(s, e).undo || u in ToRelease(Step(s, e)) :: u in s.undo || u in ToRelease(s)
    ensures Releasing(s, e).Some? ==> Releasing(s, e).value in ToRelease(s)
  {
    hide HistoryAgrees, CallsAgree;
    var s' := Step(s, e);
    if e.Close? {
      assert s.undo[..|s.undo|] == s.undo;
    } else if s.running.Some? {
      assert ToRelease(s') <= ToRelease(s);
      if Releasing(s, e).Some? {
        var last := s.running.value.left - 1;
        assert ToRelease(s)[last] == s.running.value.batch[last];
      }
    }
  }

  lemma AdvanceKeepsOthers(s: Scope, e: Event, i: nat)
    requires Inv(s) && Enabled(s, e) && i < |ToRelease(s)| && Releasing(s, e) != Some(ToRelease(s)[i])
    ensures i < |ToRelease(Step(s, e))| && ToRelease(Step(s, e))[i] == ToRelease(s)[i]
  {
    hide HistoryAgrees, CallsAgree;
  }

  /** And it takes out no other. */
  lemma OthersStay(s: Scope, e: Event, u: Undo)
    requires Inv(s) && Enabled(s, e) && (u in s.undo || u in ToRelease(s)) && Releasing(s, e) != Some(u)
    ensures u in Step(s, e).undo || u in ToRelease(Step(s, e))
  {
    if u in ToRelease(s) {
      var i :| 0 <= i < |ToRelease(s)| && ToRelease(s)[i] == u;
      hide Inv, Step, ToRelease, Releasing, Enabled;
      AdvanceKeepsOthers(s, e, i);
    } else {
      UndoKept(s, e, u);
    }
  }

  lemma UndoKept(s: Scope, e: Event, u: Undo)
    requires Inv(s) && Enabled(s, e) && u in s.undo
    ensures u in Step(s, e).undo || u in ToRelease(Step(s, e))
  {
    hide HistoryAgrees, CallsAgree;
    if e.Close? {
      assert s.undo[..|s.undo|] == s.undo;
    }
  }

  lemma CoverSurvives(s: Scope, e: Event, slot: nat, closure: nat)
    requires Inv(s) && Enabled(s, e) && Covered(s, slot, closure)
    requires Releasing(s, e).Some? ==>
               var u := Releasing(s, e).value; u.slot != slot || u.closure != closure
    ensures Covered(Step(s, e), slot, closure)
  {
    hide Inv, Step, ToRelease, Releasing;
    var u :| (u in s.undo || u in ToRelease(s)) && u.slot == slot && u.closure == closure;
    OthersStay(s, e, u);
  }

  lemma UndosStayOurs(s: Scope, e: Event, ours: set<nat>)
    requires Inv(s) && Enabled(s, e) && !e.Track? && !e.Register?
    requires forall u :: u in s.undo || u in ToRelease(s) ==> u.closure in ours
    ensures forall u :: u in Step(s, e).undo || u in ToRelease(Step(s, e)) ==> u.closure in ours
    ensures Releasing(s, e).Some? ==> Releasing(s, e).value.closure in ours
  {
    hide Inv, Step, ToRelease, Releasing;
    NoNewUndos(s, e);
  }

  /** Whoever registers through the scope finds it open, so a teardown runs with
      nothing recorded behind it. */
  lemma NothingBehindATeardown(s: Scope, e: Event)
    requires Enabled(s, e) && !e.Track? && !e.Register? && (s.tearingDown ==> s.undo == [])
    ensures Step(s, e).tearingDown ==> Step(s, e).undo == []
  {
  }

  lemma ByScopeAccounted(w: World, e: Event, held: map<nat, nat>, ours: set<nat>)
    requires Accounted(w, held, ours) && Possible(w, ByScope(e))
    ensures Accounted(Do(w, ByScope(e)), held, ours)
  {
    var w' := Do(w, ByScope(e));
    StepInv(w.scope, e);
    UndosStayOurs(w.scope, e, ours);
    NothingBehindATeardown(w.scope, e);
    hide Inv, Step, ToRelease, Releasing, Covered;
    forall s | s in w'.reg.local && w'.reg.local[s] in ours
      ensures Covered(w'.scope, s, w'.reg.local[s])
    {
      CoverSurvives(w.scope, e, s, w.reg.local[s]);
    }
  }

  lemma DeedAccounted(w: World, d: Deed, held: map<nat, nat>, ours: set<nat>)
    requires Accounted(w, held, ours) && Possible(w, d) && Respectful(w, d, ours)
    ensures Accounted(Do(w, d), Written(w, d, held), ours)
  {
    hide Accounted, Do;
    match d
    case ByScope(e) => ByScopeAccounted(w, e, held, ours);
    case Install(u, replace, owner) => InstallAccounted(w, d, held, ours);
    case _ => OutsideAccounted(w, d, held, ours);
  }

  lemma OutsideAccounted(w: World, d: Deed, held: map<nat, nat>, ours: set<nat>)
    requires Accounted(w, held, ours) && Respectful(w, d, ours) && !d.ByScope? && !d.Install?
    ensures Accounted(Do(w, d), Written(w, d, held), ours)
  {
    hide Covered, Inv, ToRelease;
  }

  lemma InstallAccounted(w: World, d: Deed, held: map<nat, nat>, ours: set<nat>)
    requires Accounted(w, held, ours) && d.Install? && d.u.closure in ours
    ensures Accounted(Do(w, d), Written(w, d, held), ours)
  {
    if d.owner && !w.scope.tearingDown {
      var a := Provide(w.reg, d.u.slot, d.u.closure, d.replace);
      if a.Ok? {
        WriteAccounted(w, d.u, a.reg, held, ours);
      } else {
        hide Covered, Inv, ToRelease;
      }
    }
  }

  lemma WriteAccounted(w: World, u: Undo, reg: Registry, held: map<nat, nat>, ours: set<nat>)
    requires Accounted(w, held, ours) && u.closure in ours && !w.scope.tearingDown
    requires reg.local == w.reg.local[u.slot := u.closure]
    ensures Accounted(World(Step(w.scope, Register(u, true)), reg), held[u.slot := u.closure], ours)
  {
    var e := Register(u, true);
    StepInv(w.scope, e);
    NowCovered(w.scope, u);
    RegisterAdds(w.scope, u, ours);
    hide Covered, Inv, Step, ToRelease, Releasing;
    forall s | s in reg.local && reg.local[s] in ours
      ensures Covered(Step(w.scope, e), s, reg.local[s])
    {
      if s != u.slot {
        CoverSurvives(w.scope, e, s, w.reg.local[s]);
      }
    }
  }

  lemma NowCovered(s: Scope, u: Undo)
    requires !s.tearingDown
    ensures Covered(Step(s, Register(u, true)), u.slot, u.closure)
  {
    assert u in Step(s, Register(u, true)).undo;
  }

  lemma RegisterAdds(s: Scope, u: Undo, ours: set<nat>)
    requires !s.tearingDown && u.closure in ours
    requires forall v :: v in s.undo || v in ToRelease(s) ==> v.closure in ours
    ensures var s' := Step(s, Register(u, true));
            !s'.tearingDown && forall v :: v in s'.undo || v in ToRelease(s') ==> v.closure in ours
    ensures Releasing(s, Register(u, true)).None?
  {
  }

  lemma {:induction false} HistoryAccounted(w: World, ds: seq<Deed>, held: map<nat, nat>, ours: set<nat>)
    requires Accounted(w, held, ours) && History(w, ds, ours)
    ensures Accounted(After(w, ds, ours), LastWrites(w, ds, ours, held), ours)
    decreases ds
  {
    if ds != [] {
      DeedAccounted(w, ds[0], held, ours);
      HistoryAccounted(Do(w, ds[0]), ds[1..], Written(w, ds[0], held), ours);
    }
  }

  /** The registrations made outside the scope. */
  function Others(held: map<nat, nat>, ours: set<nat>): (m: map<nat, nat>) {
    map s | s in held && held[s] !in ours :: held[s]
  }

  /** This thread owns exactly the buckets these registrations are in. */
  ghost predicate BucketsServe(r: Registry, held: map<nat, nat>, away: set<nat>) {
    forall b: nat :: b !in away ==> (2 * b in held || 2 * b + 1 in held <==> b in r.bucket && r.bucket[b] == Here)
  }

  lemma OpenAndEmpty(w: World, held: map<nat, nat>, ours: set<nat>)
    requires Accounted(w, held, ours)
    ensures !w.scope.tearingDown && w.scope.undo == [] ==>
              w.reg.local == Others(held, ours)
  {
  }

  /** Start from any registrations of others and an unused scope, and mix scope
      registrations, replacements, mocks, drops, other threads and close() calls in any
      order. Whenever the scope is open with nothing recorded, which is how a close
      leaves it, each slot holds the last write made to it from outside, and the slots
      last written through the scope are empty; and this thread owns a bucket, other
      threads' meddling apart, exactly when such an outside registration is in it. */
  lemma CloseReleasesExactlyOurs(reg: Registry, ds: seq<Deed>, ours: set<nat>, away: set<nat>)
    requires (forall s <- reg.local :: reg.local[s] !in ours) && BucketsAgree(reg, away)
    requires History(World(FRESH, reg), ds, ours)
    ensures var w := After(World(FRESH, reg), ds, ours);
            var held := LastWrites(World(FRESH, reg), ds, ours, reg.local);
            !w.scope.tearingDown && w.scope.undo == [] ==>
              && w.reg.local == Others(held, ours)
              && BucketsServe(w.reg, Others(held, ours), Disturbed(World(FRESH, reg), ds, ours, away))
  {
    FreshInv();
    HistoryKeepsBuckets(World(FRESH, reg), ds, ours, away);
    HistoryAccounted(World(FRESH, reg), ds, reg.local, ours);
    OpenAndEmpty(After(World(FRESH, reg), ds, ours), LastWrites(World(FRESH, reg), ds, ours, reg.local), ours);
  }

  /** In particular the event that ends a teardown empties every slot last written
      through the scope and leaves every other one as it was last written. */
  lemma TeardownEndReleasesExactlyOurs(reg: Registry, ds: seq<Deed>, last: Deed, ours: set<nat>, away: set<nat>)
    requires (forall s <- reg.local :: reg.local[s] !in ours) && BucketsAgree(reg, away)
    requires History(World(FRESH, reg), ds, ours)
    requires var w := After(World(FRESH, reg), ds, ours);
             Possible(w, last) && w.scope.tearingDown && !Do(w, last).scope.tearingDown
    ensures var w := After(World(FRESH, reg), ds, ours);
            var held := LastWrites(World(FRESH, reg), ds, ours, reg.local);
            && Do(w, last).reg.local == Others(held, ours)
            && BucketsServe(Do(w, last).reg, Others(held, ours), Disturbed(World(FRESH, reg), ds, ours, away))
  {
    FreshInv();
    HistoryKeepsBuckets(World(FRESH, reg), ds, ours, away);
    DeedKeepsBuckets(After(World(FRESH, reg), ds, ours), last, Disturbed(World(FRESH, reg), ds, ours, away));
    HistoryAccounted(World(FRESH, reg), ds, reg.local, ours);
    var w := After(World(FRESH, reg), ds, ours);
    var held := LastWrites(World(FRESH, reg), ds, ours, reg.local);
    LastDeed(w, held, last, ours);
  }

  lemma LastDeed(w: World, held: map<nat, nat>, last: Deed, ours: set<nat>)
    requires Accounted(w, held, ours) && Possible(w, last)
    requires w.scope.tearingDown && !Do(w, last).scope.tearingDown
    ensures Do(w, last).reg.local == Others(held, ours)
  {
    ByScopeAccounted(w, last.e, held, ours);
    OpenAndEmpty(Do(w, last), held, ours);
    hide Accounted, Covered, Releasing, ToRelease;
  }

  /** No event of the scope, and so no undo, touches a bucket another thread owns. */
  lemma ScopeLeavesOthersBuckets(w: World, e: Event, b: nat)
    requires Possible(w, ByScope(e)) && b in w.reg.bucket && w.reg.bucket[b] == Elsewhere
    ensures var w' := Do(w, ByScope(e)); b in w'.reg.bucket && w'.reg.bucket[b] == Elsewhere
  {
  }

  /** One event of the scope, from any state: a closure that an undo is still to release stays
      so or goes, one that no undo is to release stays where it is. */
  lemma ScopeEventOnSlot(w: World, e: Event, slot: nat, closure: nat)
    requires Inv(w.scope) && Possible(w, ByScope(e)) && slot in w.reg.local && w.reg.local[slot] == closure
    ensures var w' := Do(w, ByScope(e));
            if slot in w'.reg.local
            then w'.reg.local[slot] == closure && (Covered(w'.scope, slot, closure) <==> Covered(w.scope, slot, closure))
            else Covered(w.scope, slot, closure)
  {
    NoNewUndos(w.scope, e);
    var taken := Releasing(w.scope, e).Some? && Releasing(w.scope, e).value.slot == slot
                 && Releasing(w.scope, e).value.closure == closure;
    hide Inv, Step, ToRelease, Releasing;
    if !taken && Covered(w.scope, slot, closure) {
      CoverSurvives(w.scope, e, slot, closure);
    }
  }

  /** A closure no undo is to release stays in its slot whatever the scope does next. */
  lemma {:induction false} UncoveredSurvives(w: World, ds: seq<Deed>, ours: set<nat>, slot: nat, closure: nat)
    requires Inv(w.scope) && History(w, ds, ours) && forall d <- ds :: d.ByScope?
    requires slot in w.reg.local && w.reg.local[slot] == closure && !Covered(w.scope, slot, closure)
    ensures var w' := After(w, ds, ours);
            slot in w'.reg.local && w'.reg.local[slot] == closure
    decreases ds
  {
    if ds != [] {
      assert ds[0] in ds;
      StepInv(w.scope, ds[0].e);
      ScopeEventOnSlot(w, ds[0].e, slot, closure);
      UncoveredSurvives(Do(w, ds[0]), ds[1..], ours, slot, closure);
    }
  }

  lemma StaysGone(w: World, e: Event, slot: nat)
    requires Possible(w, ByScope(e)) && slot !in w.reg.local
    ensures slot !in Do(w, ByScope(e)).reg.local
  {
  }

  lemma {:induction false} StaysGoneInRuns(w: World, ds: seq<Deed>, ours: set<nat>, slot: nat)
    requires History(w, ds, ours) && (forall d <- ds :: d.ByScope?) && slot !in w.reg.local
    ensures slot !in After(w, ds, ours).reg.local
    decreases ds
  {
    if ds != [] {
      assert ds[0] in ds;
      StaysGone(w, ds[0].e, slot);
      StaysGoneInRuns(Do(w, ds[0]), ds[1..], ours, slot);
    }
  }

  /** Exactly when the hypothesis on outsiders matters: take any closure in a slot, put there
      by anyone at any time. When the scope's own events have brought it to open with nothing
      recorded, the closure is gone if and only if an undo was still to release it; one put
      back after its undo released it outlives the close. */
  lemma {:induction false} GoneIffCovered(w: World, ds: seq<Deed>, ours: set<nat>, slot: nat, closure: nat)
    requires Inv(w.scope) && History(w, ds, ours) && forall d <- ds :: d.ByScope?
    requires slot in w.reg.local && w.reg.local[slot] == closure
    requires var s := After(w, ds, ours).scope; !s.tearingDown && s.undo == []
    ensures var w' := After(w, ds, ours);
            && (slot !in w'.reg.local <==> Covered(w.scope, slot, closure))
            && (slot in w'.reg.local ==> w'.reg.local[slot] == closure)
    decreases ds
  {
    if ds != [] {
      assert ds[0] in ds;
      var e := ds[0].e;
      StepInv(w.scope, e);
      ScopeEventOnSlot(w, e, slot, closure);
      if slot in Do(w, ds[0]).reg.local {
        GoneIffCovered(Do(w, ds[0]), ds[1..], ours, slot, closure);
      } else {
        StaysGoneInRuns(Do(w, ds[0]), ds[1..], ours, slot);
      }
    }
  }

  /** A run from an empty table to such a late closure: the undo releases in its first turn
      and suspends afterwards, as a dropped listener's does, and the closure is put back
      meanwhile. It is in its slot when the scope is open and empty again. */
  lemma PutBackDuringTheUndo(slot: nat, closure: nat)
    ensures var u := Undo(slot, closure, 1, 0);
            var w0 := World(FRESH, Registry(map[], map[]));
            var w1 := Do(w0, Install(u, false, true));
            && Possible(w1, ByScope(Close(0, true)))
            && var w2 := Do(w1, ByScope(Close(0, true)));
            && Possible(w2, ByScope(Advance))
            && var w3 := Do(w2, ByScope(Advance));
            && slot !in w3.reg.local && w3.scope.tearingDown && !Covered(w3.scope, slot, closure)
            && var w4 := Do(w3, OutsideInstall(slot, closure, false));
            && Possible(w4, ByScope(Advance))
            && var w5 := Do(w4, ByScope(Advance));
            !w5.scope.tearingDown && w5.scope.undo == [] && slot in w5.reg.local && w5.reg.local[slot] == closure
  {
  }
}
