/** Metric series over runs: when they end with their DSPA, and when they outlive it. */
module SeriesRuns {
  import opened Prelude
  import opened Lifecycle

  /** From the moment cleanup begins until the name is used again, no series exists for the DSPA. */
  lemma NoSeriesAfterCleanup(actions: seq<Action>)
    ensures Run(actions).series !! Run(actions).closing
  {
    EveryRunKeepsInv(actions);
  }

  // ------------------------------------------------------- series without a DSPA

  /** Series of a DSPA that is gone, with no reconcile left that could do anything about them. */
  predicate Stray(s: State, k: Key) {
    k in s.series && k !in s.dspas && k !in s.workers
  }

  /**
   The two ways to leave series behind: deleting a DSPA that has series but no finalizer and is not being
   reconciled, and ending a reconcile of a DSPA that was deleted meanwhile, which publishes on its way out
   unless its copy was being deleted.
   */
  predicate Strays(s: State, a: Action, k: Key) {
    || (a == Delete(k) && k in s.dspas && !s.dspas[k].finalizer && k in s.series && k !in s.workers)
    || (a == Return(k) && k in s.workers && k !in s.dspas && (k in s.series || !s.workers[k].d.deleting))
  }

  lemma AdvanceLeavesNoStray(s: State, j: Key, k: Key)
    requires VersionsIdentify(s) && FinalizersHold(s) && SeriesClosed(s) && !Stray(s, k)
    ensures !Stray(Do(s, Advance(j)), k)
  {
    if j in s.workers && s.workers[j].Releasing? && j == k {
      assert k in s.closing;
    }
  }

  /** In every run, series of `k` are left behind by exactly these steps. */
  lemma StrayExactlyWhen(actions: seq<Action>, a: Action, k: Key)
    requires !Stray(Run(actions), k)
    ensures Stray(Do(Run(actions), a), k) <==> Strays(Run(actions), a, k)
  {
    EveryRunKeepsInv(actions);
    match a
    case Advance(j) => AdvanceLeavesNoStray(Run(actions), j, k);
    case _ =>
  }

  /** Users delete `k` only once its finalizer is stored. */
  predicate DeletesFinalized(actions: seq<Action>, k: Key) {
    actions == [] ||
    var s, a := Run(Init(actions)), Last(actions);
    && DeletesFinalized(Init(actions), k)
    && (a == Delete(k) && k in s.dspas ==> s.dspas[k].finalizer)
  }

  ghost predicate Owned(s: State, k: Key) {
    k in s.series || k in s.workers ==> k in s.dspas
  }

  lemma DoKeepsOwned(s: State, a: Action, k: Key)
    requires VersionsIdentify(s) && FinalizersHold(s) && SeriesClosed(s) && Owned(s, k)
    requires a == Delete(k) && k in s.dspas ==> s.dspas[k].finalizer
    ensures Owned(Do(s, a), k)
  {
    if a.Advance? && a.k in s.workers && s.workers[a.k].Releasing? {
      assert a.k in s.closing;
    }
  }

  /**
   A DSPA of any version whose deletion waits for its finalizer to be stored never leaves series behind:
   in every such run, series exist only while their DSPA does.
   */
  lemma {:induction false} FinalizedLeavesNoSeries(actions: seq<Action>, k: Key)
    requires DeletesFinalized(actions, k)
    ensures k in Run(actions).series || k in Run(actions).workers ==> k in Run(actions).dspas
  {
    if actions != [] {
      FinalizedLeavesNoSeries(Init(actions), k);
      EveryRunKeepsInv(Init(actions));
      DoKeepsOwned(Run(Init(actions)), Last(actions), k);
    }
  }

  /**
   Without that, one reconcile is enough: of an unsupported version, which never gets the finalizer, or of
   a supported one whose finalizer update fails, since the conditions are published on every way out.
   */
  lemma SeriesOutliveUnfinalized(k: Key, kubernetes: bool, supported: bool) returns (a: seq<Action>)
    ensures var s := Run(a); Stray(s, k) && s.workers == map[] && s.dspas == map[]
  {
    a := Extend([], Create(k, kubernetes, supported));
    a := Extend(a, Begin(k));
    a := Extend(a, Return(k));
    a := Extend(a, Delete(k));
  }

  lemma StrayStays(s: State, x: Action, k: Key)
    requires Stray(s, k)
    requires !x.Crash? && !(x.Create? && x.k == k)
    ensures Stray(Do(s, x), k)
  {
    if x.Advance? && x.k in s.workers {
      assert x.k != k;
    }
  }

  /** Such series stay: nothing but a restart or a new DSPA of that name can end them. */
  lemma {:induction false} StraySeriesStay(a: seq<Action>, more: seq<Action>, k: Key)
    requires Stray(Run(a), k)
    requires forall x <- more :: !x.Crash? && !(x.Create? && x.k == k)
    ensures Stray(Run(a + more), k)
  {
    if more == [] {
      assert a + more == a;
    } else {
      assert Init(a + more) == a + Init(more) && Last(more) in more;
      StraySeriesStay(a, Init(more), k);
      StrayStays(Run(a + Init(more)), Last(more), k);
    }
  }
}
