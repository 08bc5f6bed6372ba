/** Which actions of the lifecycle machine change what; nothing is created, replaced or removed on other occasions. */
module StepTable {
  import opened Prelude
  import opened Lifecycle

  // ------------------------------------------------------------------- role bindings

  /** A binding is stored by a live reconcile of the DSPA it then names. */
  predicate StoresBinding(s: State, a: Action, b: string) {
    a.Advance? && a.k in s.workers && s.workers[a.k].Live? && b == BindingName(a.k)
  }

  predicate DropsBinding(s: State, a: Action, b: string) {
    a.Advance? && a.k in s.workers && s.workers[a.k].Unbinding? && b == BindingName(a.k)
  }

  lemma BindingsExactly(s: State, a: Action, b: string)
    ensures var t := Do(s, a);
      if StoresBinding(s, a, b) then b in t.bindings && t.bindings[b] == a.k
      else if DropsBinding(s, a, b) then b !in t.bindings
      else (b in t.bindings <==> b in s.bindings) && (b in s.bindings ==> t.bindings[b] == s.bindings[b])
  {
  }

  // ------------------------------------------------------------------------- webhook

  /** A resource is installed by a worker whose loaded DSPA stands at that resource of the install order. */
  predicate Installs(s: State, a: Action, r: WebhookResource) {
    a.Advance? && a.k in s.workers && s.workers[a.k].Installing? && s.workers[a.k].i < |INSTALL_ORDER|
    && INSTALL_ORDER[s.workers[a.k].i] == r
  }

  /** It is deleted by a worker that has seen it and stands at it in the cleanup order. */
  predicate Removes(s: State, a: Action, r: WebhookResource) {
    a.Advance? && a.k in s.workers && s.workers[a.k].Removing? && s.workers[a.k].seen
    && s.workers[a.k].i < |CLEANUP_ORDER| && CLEANUP_ORDER[s.workers[a.k].i] == r
  }

  lemma ReconcileInstalls(s: State, k: Key, r: WebhookResource)
    requires k in s.workers && !FinalizingPc(s.workers[k])
    ensures r in Do(s, Advance(k)).webhook <==> Installs(s, Advance(k), r) || r in s.webhook
  {
  }

  lemma FinalizeRemoves(s: State, k: Key, r: WebhookResource)
    requires k in s.workers && FinalizingPc(s.workers[k])
    ensures r in Do(s, Advance(k)).webhook <==> r in s.webhook && !Removes(s, Advance(k), r)
  {
  }

  lemma WebhookExactly(s: State, a: Action, r: WebhookResource)
    ensures r in Do(s, a).webhook <==> Installs(s, a, r) || (r in s.webhook && !Removes(s, a, r))
  {
    if a.Advance? && a.k in s.workers {
      if FinalizingPc(s.workers[a.k]) {
        FinalizeRemoves(s, a.k, r);
      } else {
        ReconcileInstalls(s, a.k, r);
      }
    }
  }

  // -------------------------------------------------------------------------- series

  /** A reconcile publishes when it ends, unless the DSPA was being deleted when it was loaded. */
  predicate Publishes(s: State, a: Action, k: Key) {
    a == Return(k) && k in s.workers && !s.workers[k].d.deleting
  }

  predicate Clears(s: State, a: Action, k: Key) {
    a.Crash? || (a == Advance(k) && k in s.workers && s.workers[k].Finalizing?)
  }

  lemma SeriesExactly(s: State, a: Action, k: Key)
    ensures k in Do(s, a).series <==> Publishes(s, a, k) || (k in s.series && !Clears(s, a, k))
  {
  }

  // ---------------------------------------------------------------- the stored DSPAs

  /** A DSPA goes when a user deletes it without finalizer, or its finalization ends on a current copy. */
  predicate Ends(s: State, a: Action, k: Key) {
    && k in s.dspas
    && ((a == Delete(k) && !s.dspas[k].finalizer)
        || (a == Advance(k) && k in s.workers && s.workers[k].Releasing? && s.dspas[k].rv == s.workers[k].d.rv))
  }

  /** A live reconcile of a supported DSPA without finalizer stores it, if its copy is current. */
  predicate StoresFinalizer(s: State, a: Action, k: Key) {
    && a == Advance(k) && k in s.dspas && k in s.workers && s.workers[k].Loaded?
    && var d := s.workers[k].d;
       d.supported && !d.deleting && !d.finalizer && s.dspas[k].rv == d.rv
  }

  /** The database or storage step's write of an unchanged copy. */
  predicate WritesCopy(s: State, a: Action, k: Key) {
    a == WriteBack(k) && k in s.dspas && k in s.workers && s.workers[k].Live? && s.dspas[k].rv == s.workers[k].d.rv
  }

  /** What an action makes of one stored DSPA, apart from removing it. */
  function Written(s: State, a: Action, k: Key): Option<Dspa> {
    if a.Create? && a.k == k && k !in s.dspas then Some(Dspa(s.next, false, false, a.kubernetes, a.supported))
    else if k !in s.dspas then None
    else if a.Edit? && a.k == k then
      Some(s.dspas[k].(rv := s.next, kubernetes := a.kubernetes, supported := a.supported))
    else if a == Delete(k) then Some(s.dspas[k].(rv := s.next, deleting := true))
    else if StoresFinalizer(s, a, k) then Some(s.workers[k].d.(rv := s.next, finalizer := true))
    else if WritesCopy(s, a, k) then Some(s.workers[k].d.(rv := s.next))
    else Some(s.dspas[k])
  }

  function Stored(s: State, k: Key): Option<Dspa> {
    if k in s.dspas then Some(s.dspas[k]) else None
  }

  lemma AdvanceWrites(s: State, j: Key, k: Key)
    ensures Stored(Do(s, Advance(j)), k) == if Ends(s, Advance(j), k) then None else Written(s, Advance(j), k)
  {
  }

  lemma DspasExactly(s: State, a: Action, k: Key)
    ensures Stored(Do(s, a), k) == if Ends(s, a, k) then None else Written(s, a, k)
  {
    if a.Advance? {
      AdvanceWrites(s, a.k, k);
    }
  }

  // ------------------------------------------------------------------------- workers

  /** A worker ends where it returns, with a restart, or by releasing its DSPA. */
  predicate Finishes(s: State, a: Action, k: Key) {
    || a == Return(k) || a.Crash?
    || (a == Advance(k) && k in s.workers && s.workers[k].Releasing?
        && k in s.dspas && s.dspas[k].rv == s.workers[k].d.rv)
  }

  lemma AdvanceEnds(s: State, j: Key, k: Key)
    ensures k in Do(s, Advance(j)).workers <==> k in s.workers && !Finishes(s, Advance(j), k)
  {
  }

  /** It starts on a stored DSPA that has none, and there is only ever one per DSPA. */
  lemma WorkersExactly(s: State, a: Action, k: Key)
    ensures k in Do(s, a).workers <==>
      (if k in s.workers then !Finishes(s, a, k) else a == Begin(k) && k in s.dspas)
    ensures k !in s.workers && k in Do(s, a).workers ==> Do(s, a).workers[k] == Loaded(s.dspas[k])
  {
    if a.Advance? {
      AdvanceEnds(s, a.k, k);
    }
  }
}
