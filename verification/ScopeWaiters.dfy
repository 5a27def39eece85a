/** Callers only watch a teardown: taking some of them out of a run changes nothing
    for the undos. */
module ScopeWaiters {
  import opened Sequences
  import opened ScopeMachine
  import opened ScopeRuns

  /** The scope without its record of who waits and who returned. */
  function Core(s: Scope): (r: Scope) {
    s.(waiting := map[], returned := map[])
  }

  /** The run without the waits of the calls in `gone`: their resumptions and
      cancellations, and their close() calls unless they start a teardown. */
  ghost function Without(s: Scope, es: seq<Event>, gone: set<Call>): (r: seq<Event>)
    requires Legal(s, es)
    decreases es
  {
    if es == [] then []
    else (if Dropped(s, es[0], gone) then [] else [es[0]]) + Without(Step(s, es[0]), es[1..], gone)
  }

  predicate Dropped(s: Scope, e: Event, gone: set<Call>) {
    match e
    case Close(c, owner) => c in gone && !(owner && !s.tearingDown)
    case Resume(c) => c in gone
    case Cancel(c) => c in gone
    case _ => false
  }

  /** Same scope for everybody but the calls in `gone`. */
  ghost predicate Alike(s: Scope, s': Scope, gone: set<Call>) {
    && Core(s) == Core(s')
    && (forall c :: c !in gone ==> (c in s.waiting <==> c in s'.waiting))
    && (forall c :: c !in gone && c in s.waiting ==> s.waiting[c] == s'.waiting[c])
    && (forall c :: c !in gone ==> (c in s.returned <==> c in s'.returned))
    && (forall c :: c in gone && Used(s', c) ==> Used(s, c))
    && (s.running.Some? && s.running.value.awaited.Some? ==> s.running.value.awaited.value !in gone)
  }

  lemma DroppedStep(s: Scope, s': Scope, e: Event, gone: set<Call>)
    requires Inv(s) && Alike(s, s', gone) && Enabled(s, e) && Dropped(s, e, gone)
    ensures Alike(Step(s, e), s', gone)
  {
  }

  lemma KeptEnabled(s: Scope, s': Scope, e: Event, gone: set<Call>)
    requires Inv(s) && Alike(s, s', gone) && Enabled(s, e) && !Dropped(s, e, gone)
    requires e.AwaitCall? ==> e.call !in gone
    ensures Enabled(s', e)
  {
  }

  lemma SuspendAlike(s: Scope, s': Scope, awaited: Option<Call>, gone: set<Call>)
    requires Inv(s) && Alike(s, s', gone) && s.running.Some? && s.running.value.pending > 0
    requires awaited.Some? ==> awaited.value !in gone
    ensures Alike(SuspendUndo(s, awaited), SuspendUndo(s', awaited), gone)
  {
    hide HistoryAgrees, CallsAgree;
  }

  /** Finishing an undo touches the callers only in one entry of `returned`. */
  lemma FinishInReturned(s: Scope)
    requires s.running.Some? && 0 < s.running.value.left <= |s.running.value.batch|
    ensures var t, r := s.running.value, FinishUndo(s);
            && r.waiting == s.waiting && Core(r) == FinishUndo(Core(s)).(returned := map[])
            && r.returned == (if t.left == 1 && t.sync then s.returned[t.starter := Completed] else s.returned)
            && (r.running.Some? <==> t.left > 1)
            && (r.running.Some? ==> r.running.value.starter == t.starter && r.running.value.awaited.None?)
  {
  }

  lemma FinishAlike(s: Scope, s': Scope, gone: set<Call>)
    requires Alike(s, s', gone) && s.running.Some? && 0 < s.running.value.left <= |s.running.value.batch|
    requires s.running.value.sync || s.running.value.starter in s.waiting || s.running.value.starter in s.returned
    ensures Alike(FinishUndo(s), FinishUndo(s'), gone)
  {
    assert s'.running == s.running by { assert Core(s).running == Core(s').running; }
    hide FinishUndo, Core;
    FinishInReturned(s);
    FinishInReturned(s');
  }

  lemma StartAlike(s: Scope, s': Scope, c: Call, gone: set<Call>)
    requires FlagsAgree(s) && Alike(s, s', gone) && !s.tearingDown
    ensures Alike(StartTeardown(s, c), StartTeardown(s', c), gone)
  {
  }

  lemma CloseAlike(s: Scope, s': Scope, c: Call, owner: bool, gone: set<Call>)
    requires FlagsAgree(s) && Alike(s, s', gone) && !Used(s, c) && !Used(s', c)
    requires !Dropped(s, Close(c, owner), gone)
    ensures Alike(Step(s, Close(c, owner)), Step(s', Close(c, owner)), gone)
  {
    if owner && !s.tearingDown { StartAlike(s, s', c, gone); }
  }

  lemma ReturnAlike(s: Scope, s': Scope, e: Event, gone: set<Call>)
    requires Inv(s) && Alike(s, s', gone) && Enabled(s, e) && Enabled(s', e)
    requires e.Resume? || e.Cancel?
    requires !Dropped(s, e, gone)
    ensures Alike(Step(s, e), Step(s', e), gone)
  {
  }

  lemma KeptStep(s: Scope, s': Scope, e: Event, gone: set<Call>)
    requires Inv(s) && Alike(s, s', gone) && Enabled(s, e) && !Dropped(s, e, gone)
    requires e.AwaitCall? ==> e.call !in gone
    ensures Enabled(s', e) && Alike(Step(s, e), Step(s', e), gone)
  {
    KeptEnabled(s, s', e, gone);
    match e
    case Advance =>
      if s.running.value.pending > 0 { SuspendAlike(s, s', None, gone); } else { FinishAlike(s, s', gone); }
    case AwaitCall(c) => SuspendAlike(s, s', Some(c), gone);
    case Track(_) =>
    case Register(_, _) =>
    case Close(c, owner) => CloseAlike(s, s', c, owner, gone);
    case _ => ReturnAlike(s, s', e, gone);
  }

  /** Callers taken out of a run, one by one or all of them, leave every undo to run
      in the same order and the scope open or closing as before; the only thing
      assumed is that no undo suspends on one of those very calls. */
  lemma {:induction false} WaitersDoNotMatter(s: Scope, s': Scope, es: seq<Event>, gone: set<Call>)
    requires Inv(s) && Alike(s, s', gone) && Legal(s, es)
    requires forall e <- es :: e.AwaitCall? ==> e.call !in gone
    ensures Legal(s', Without(s, es, gone))
    ensures Core(Run(s, es)) == Core(Run(s', Without(s, es, gone)))
    decreases es
  {
    if es != [] {
      assert es[0] in es;
      StepInv(s, es[0]);
      var rest := Without(Step(s, es[0]), es[1..], gone);
      if Dropped(s, es[0], gone) {
        DroppedStep(s, s', es[0], gone);
        WaitersDoNotMatter(Step(s, es[0]), s', es[1..], gone);
        assert Without(s, es, gone) == rest;
      } else {
        KeptStep(s, s', es[0], gone);
        WaitersDoNotMatter(Step(s, es[0]), Step(s', es[0]), es[1..], gone);
        assert Without(s, es, gone) == [es[0]] + rest;
        assert ([es[0]] + rest)[1..] == rest;
      }
    }
  }
}
