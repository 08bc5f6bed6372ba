/** Transition times over a whole history of status updates. */
module StatusHistory {
  import opened Prelude
  import opened Conditions

  /** The conditions one reconcile built, the generation it saw, and whether its status write was accepted. */
  datatype Update = Update(built: seq<Condition>, generation: int, stored: bool)

  /** The conditions on the stored object after a history of updates. */
  function StoredStatus(history: seq<Update>): seq<Condition> {
    if history == [] then []
    else
      var u := Last(history);
      var before := StoredStatus(Init(history));
      if u.stored then CarryAll(before, u.generation, u.built) else before
  }

  function Accepted(history: seq<Update>): (r: seq<Update>)
    ensures forall u <- r :: u.stored
  {
    if history == [] then []
    else Accepted(Init(history)) + if Last(history).stored then [Last(history)] else []
  }

  /** Failed status writes leave no trace. */
  lemma {:induction false} FailedWritesDoNotMatter(history: seq<Update>)
    ensures StoredStatus(history) == StoredStatus(Accepted(history))
  {
    if history != [] {
      FailedWritesDoNotMatter(Init(history));
      var kept := Accepted(Init(history));
      if Last(history).stored {
        assert Accepted(history) == kept + [Last(history)];
        assert Init(kept + [Last(history)]) == kept && Last(kept + [Last(history)]) == Last(history);
      } else {
        assert Accepted(history) == kept;
      }
    }
  }

  function BuiltAs(u: Update, t: CType): Option<Condition> {
    Previous(u.built, t)
  }

  function StatusIn(u: Update, t: CType): Option<Truth> {
    match BuiltAs(u, t) case None => None case Some(c) => Some(c.status)
  }

  /** Update `j` starts the current maximal run of equal statuses of type `t`. */
  predicate StartsCurrentRun(us: seq<Update>, t: CType, j: int) {
    && 0 <= j < |us|
    && StatusIn(us[j], t).Some?
    && (forall i | j <= i < |us| :: StatusIn(us[i], t) == StatusIn(us[j], t))
    && (j > 0 ==> StatusIn(us[j - 1], t) != StatusIn(us[j], t))
  }

  lemma {:induction false} PreviousOfCarried(prev: seq<Condition>, generation: int, cs: seq<Condition>, t: CType)
    ensures Previous(CarryAll(prev, generation, cs), t) ==
            match Previous(cs, t) { case None => None case Some(c) => Some(Carry(prev, generation, c)) }
  {
    if cs != [] {
      assert Init(CarryAll(prev, generation, cs)) == CarryAll(prev, generation, Init(cs));
      PreviousOfCarried(prev, generation, Init(cs), t);
    }
  }

  lemma {:induction false} CurrentRunExists(us: seq<Update>, t: CType) returns (j: int)
    requires us != [] && StatusIn(Last(us), t).Some?
    ensures StartsCurrentRun(us, t, j)
  {
    j := |us| - 1;
    if j > 0 && StatusIn(us[j - 1], t) == StatusIn(us[j], t) {
      j := CurrentRunExists(Init(us), t);
    }
  }

  /**
   After any accepted updates, a condition's transition time is the build time at the first update of
   its current run of equal statuses; everything else comes from the newest update.
   */
  lemma {:induction false} TransitionTimeIsRunStart(us: seq<Update>, t: CType, j: int)
    requires forall u <- us :: u.stored
    requires StartsCurrentRun(us, t, j)
    ensures Previous(StoredStatus(us), t) == Some(
              BuiltAs(Last(us), t).value.(since := BuiltAs(us[j], t).value.since, generation := Last(us).generation))
  {
    var n := |us| - 1;
    assert us[n] in us;
    OneMoreUpdate(StoredStatus(Init(us)), us[n], t);
    if j == n {
      if n > 0 {
        assert us[n - 1] in us;
        StatusOfStored(Init(us), t);
      }
    } else {
      assert Init(us)[j] == us[j] && Last(Init(us)) == us[n - 1];
      assert StatusIn(us[n - 1], t) == StatusIn(us[j], t) == StatusIn(us[n], t);
      assert forall u <- Init(us) :: u in us;
      TransitionTimeIsRunStart(Init(us), t, j);
    }
  }

  /** What one accepted update makes of a condition type. */
  lemma OneMoreUpdate(before: seq<Condition>, u: Update, t: CType)
    requires StatusIn(u, t).Some?
    ensures var c, p := BuiltAs(u, t).value, Previous(before, t);
      Previous(CarryAll(before, u.generation, u.built), t) ==
      Some(c.(generation := u.generation, since := if p.Some?
              && p.value.status == c.status then p.value.since else c.since))
  {
    PreviousOfCarried(before, u.generation, u.built, t);
  }

  lemma StatusOfStored(us: seq<Update>, t: CType)
    requires us != [] && Last(us).stored
    ensures match Previous(StoredStatus(us), t)
            case None => StatusIn(Last(us), t) == None
            case Some(c) => StatusIn(Last(us), t) == Some(c.status)
  {
    PreviousOfCarried(StoredStatus(Init(us)), Last(us).generation, Last(us).built, t);
  }

  /** The same for any history, failed writes included. */
  lemma TransitionTimesOverHistory(history: seq<Update>, t: CType)
    ensures var us := Accepted(history);
      match Previous(StoredStatus(history), t)
      case None => us == [] || StatusIn(Last(us), t).None?
      case Some(c) =>
        && us != [] && c.generation == Last(us).generation
        && exists j :: StartsCurrentRun(us, t, j) && c.since == BuiltAs(us[j], t).value.since
  {
    var us := Accepted(history);
    FailedWritesDoNotMatter(history);
    if us != [] {
      assert Last(us) in us;
      StatusOfStored(us, t);
      if StatusIn(Last(us), t).Some? {
        var j := CurrentRunExists(us, t);
        TransitionTimeIsRunStart(us, t, j);
      }
    }
  }
}
