/** What every run of the `create-dip` workflow keeps, whatever is lost, renewed or cancelled on the way. */
module CreateDipSafety {
  import opened Wrappers
  import opened DipRow
  import opened CreateDip

  lemma {:induction false} InvAlways(c: Config, run: seq<State>, events: seq<Event>, i: nat)
    requires Run(c, run, events) && i < |run|
    ensures Inv(run[i])
    decreases i
  {
    hide Step, Enabled;
    if i == 0 {
      assert |KeyOf(run[0].row.uuid)| > 0;
    } else {
      InvAlways(c, run, events, i - 1);
      StepKeepsInv(c, run[i - 1], events[i - 1]);
    }
  }

  /** What a step does to the record: nothing, a renewal, or the update of the pending activity. */
  function ActionOf(c: Config, s: State, e: Event): Option<RowAction> {
    match e
    case Renewal(retention) => Some(Renew(retention, s.now))
    case Attempt(o) =>
      if PendingUpdate(c, s).Some? && (o.Acked? || o.effect) then Some(Update(PendingUpdate(c, s).value, s.now)) else None
    case _ => None
  }

  /** A run of the workflow is, for the record, a run of renewals and updates. */
  lemma StepOnRecord(c: Config, s: State, e: Event)
    requires Enabled(c, s, e)
    ensures var a := ActionOf(c, s, e);
            Step(c, s, e).row == if a.Some? then RowStep(s.row, a.value) else s.row
    ensures s.now <= Step(c, s, e).now
    ensures ActionOf(c, s, e).Some? ==> Step(c, s, e).bucket == s.bucket
  {
    hide Received, Refused, Commit, Renewed;
    match e {
      case Attempt(Acked) =>
        ReceiptKeepsRecord(Effect(c, s));
      case Attempt(Lost(effect, _)) =>
        RefusalKeepsRecord(if effect then Effect(c, s) else s);
      case Proceed =>
        if s.pc.Decide? {
          assert Decided(s, s.pc.seen).row == s.row;
        }
      case _ =>
    }
  }

  lemma ReceiptKeepsRecord(s: State)
    ensures Received(s).row == s.row && Received(s).now == s.now
    ensures Received(s).bucket == s.bucket
  {
  }

  lemma RefusalKeepsRecord(s: State)
    ensures Refused(s).row == s.row && Refused(s).now == s.now
    ensures Refused(s).bucket == s.bucket
  {
  }

  /**
    Data safety: once the workflow knows that the generation is stored, its object stays in the bucket,
    under the key that the record shows, until the record says "deleted".
  */
  lemma AcknowledgedObjectIsKept(c: Config, run: seq<State>, events: seq<Event>, i: nat)
    requires Run(c, run, events) && i < |run|
    requires run[i].acknowledged && !run[i].row.status.Deleted?
    ensures run[i].row.status.Stored? && run[i].row.objectKey in run[i].bucket && run[i].row.objectKey == KeyOf(run[i].row.uuid)
  {
    InvAlways(c, run, events, i);
  }

  /**
    A record becomes "deleted" only in the step of a deletion request that finds it stored and expired at
    that very moment; the object is still there, and only then goes.
  */
  lemma DeletedOnlyWhenExpired(c: Config, run: seq<State>, events: seq<Event>, i: nat)
    requires Run(c, run, events) && i + 1 < |run|
    requires !run[i].row.status.Deleted? && run[i + 1].row.status.Deleted?
    ensures run[i].pc.Claim? && run[i].row.status.Stored? && run[i].row.expiresAt.Some? && run[i].row.expiresAt.value <= run[i].now
    ensures run[i].acknowledged && HasObject(run[i + 1])
  {
    hide Step, Enabled;
    InvAlways(c, run, events, i);
    InvAlways(c, run, events, i + 1);
    StepOnRecord(c, run[i], events[i]);
  }

  /** One step never takes an expiry back: it stays, moves later, or the record expires. */
  lemma StepKeepsPromise(c: Config, s: State, e: Event)
    requires Inv(s) && Enabled(c, s, e) && s.row.status.Stored?
    ensures var s' := Step(c, s, e);
            && s.now <= s'.now
            && (s'.row.status.Stored? || s'.row.status.Deleted?)
            && (s'.row.status.Stored? ==> NotEarlier(s.row.expiresAt, s'.row.expiresAt))
            && (s'.row.status.Deleted? ==> s.row.expiresAt.Some? && s.row.expiresAt.value <= s'.now)
  {
    hide Step, Enabled;
    StepOnRecord(c, s, e);
  }

  /**
    An expiry that the record has shown is honoured: from any moment at which the record is stored, it is
    deleted only if it had an expiry then, and not before that expiry. This covers the latest renewal.
  */
  lemma {:induction false} NeverDeletedBeforeAShownExpiry(c: Config, run: seq<State>, events: seq<Event>, i: nat, j: nat)
    requires Run(c, run, events) && i <= j < |run|
    requires run[i].row.status.Stored?
    ensures run[j].row.status.Stored? || run[j].row.status.Deleted?
    ensures run[j].row.status.Stored? ==>
      run[j].row.expiresAt.None? || (run[i].row.expiresAt.Some? && run[i].row.expiresAt.value <= run[j].row.expiresAt.value)
    ensures run[j].row.status.Deleted? ==> run[i].row.expiresAt.Some? && run[i].row.expiresAt.value <= run[j].now
    decreases j
  {
    hide Step, Enabled;
    if i < j {
      NeverDeletedBeforeAShownExpiry(c, run, events, i, j - 1);
      InvAlways(c, run, events, j - 1);
      var s := run[j - 1];
      if s.row.status.Stored? {
        StepKeepsPromise(c, s, events[j - 1]);
      } else {
        DeletedStays(c, s, events[j - 1]);
      }
      assert run[j] == Step(c, s, events[j - 1]);
    }
  }

  lemma DeletedStays(c: Config, s: State, e: Event)
    requires Enabled(c, s, e) && s.row.status.Deleted?
    ensures Step(c, s, e).row.status.Deleted? && Step(c, s, e).now >= s.now
  {
    hide Step, Enabled;
    StepOnRecord(c, s, e);
  }

  /**
    No untracked object: of a generation that is stored, failed or deleted, an object in the bucket has its
    key in the record, so that a later cleanup can find it.
  */
  lemma NoUntrackedObject(c: Config, run: seq<State>, events: seq<Event>, i: nat)
    requires Run(c, run, events) && i < |run|
    requires run[i].row.status.Final() && HasObject(run[i])
    ensures run[i].row.objectKey == KeyOf(run[i].row.uuid)
  {
    InvAlways(c, run, events, i);
  }

  /** A completed record loses its key only when it is failed or deleted and the object is already gone. */
  lemma KeyIsClearedOnlyAfterTheObject(c: Config, run: seq<State>, events: seq<Event>, i: nat)
    requires Run(c, run, events) && i + 1 < |run|
    requires run[i].row.status.Final() && run[i].row.objectKey != "" && run[i + 1].row.objectKey == ""
    ensures run[i].row.status.Failed? || run[i].row.status.Deleted?
    ensures !HasObject(run[i]) && !HasObject(run[i + 1])
  {
    hide Step, Enabled;
    InvAlways(c, run, events, i);
    InvAlways(c, run, events, i + 1);
    StepOnRecord(c, run[i], events[i]);
  }

  /** A finished workflow does nothing more. */
  lemma {:induction false} FinishedStaysFinished(c: Config, run: seq<State>, events: seq<Event>, i: nat, j: nat)
    requires Run(c, run, events) && i <= j < |run| && run[i].pc.Done?
    ensures run[j].pc == run[i].pc && run[j].bucket == run[i].bucket
    decreases j
  {
    if i < j {
      FinishedStaysFinished(c, run, events, i, j - 1);
      assert run[j] == Step(c, run[j - 1], events[j - 1]);
    }
  }

  /**
    A workflow that returned without an error left either a stored record without an expiry, its object in
    place, or a deleted record without a key, its object gone; and it stays that way, whatever is requested
    later.
  */
  lemma SuccessfulOutcome(c: Config, run: seq<State>, events: seq<Event>, i: nat, j: nat)
    requires Run(c, run, events) && i <= j < |run|
    requires run[i].pc == Done(true)
    ensures || (run[j].row.status.Stored? && run[j].row.expiresAt.None? && run[j].row.objectKey in run[j].bucket)
            || (run[j].row.status.Deleted? && run[j].row.objectKey == "" && !HasObject(run[j]))
    ensures run[j].row.status == run[i].row.status
  {
    FinishedStaysFinished(c, run, events, i, j);
    InvAlways(c, run, events, i);
    InvAlways(c, run, events, j);
    if run[i].row.status.Stored? {
      NeverDeletedBeforeAShownExpiry(c, run, events, i, j);
    } else {
      DeletedStaysDeleted(c, run, events, i, j);
    }
  }

  lemma {:induction false} DeletedStaysDeleted(c: Config, run: seq<State>, events: seq<Event>, i: nat, j: nat)
    requires Run(c, run, events) && i <= j < |run| && run[i].row.status.Deleted?
    ensures run[j].row.status.Deleted?
    decreases j
  {
    if i < j {
      DeletedStaysDeleted(c, run, events, i, j - 1);
      DeletedStays(c, run[j - 1], events[j - 1]);
    }
  }

  // The number of deletion requests

  /** Each deletion request after the second has been paid for by a renewal since the one before. */
  predicate ClaimInv(s: State) {
    match s.pc
    case Claim(_) =>
      if s.lastRead.None? then s.claims == 1
      else
        var last := s.lastRead.value;
        && last.expiresAt.Some? && last.expiresAt.value <= s.now
        && last.renewals <= s.renewals
        && s.claims <= last.renewals + 2
        && (s.renewals > last.renewals || s.row.expiresAt == last.expiresAt)
    case Decide(seen) =>
      && s.lastRead.Some?
      && var last := s.lastRead.value;
      && last.renewals <= s.renewals
      && seen.expiresAt == last.expiresAt
      && s.claims <= last.renewals + (if seen.status.Deleted? then 2 else 1)
      && (s.row.status.Stored? ==> s.renewals > last.renewals || s.row.expiresAt == last.expiresAt)
    case Wait(until) =>
      && s.lastRead.Some?
      && var last := s.lastRead.value;
      && last.renewals <= s.renewals
      && last.expiresAt == Some(until)
      && s.claims <= last.renewals + 1
      && (s.renewals > last.renewals || s.row.expiresAt == last.expiresAt)
    case _ => s.claims <= s.renewals + 2
  }

  predicate NoRequestYet(s: State) {
    s.pc.Begin? || s.pc.Lookup? || s.pc.Session? || s.pc.Upload? || s.pc.Finalise? ==> s.claims == 0 && s.lastRead.None?
  }

  lemma EnvironmentKeepsClaimInv(c: Config, s: State, e: Event)
    requires Inv(s) && ClaimInv(s) && NoRequestYet(s) && Enabled(c, s, e)
    requires e.Tick? || e.Renewal? || e.Cancel?
    ensures ClaimInv(Step(c, s, e)) && NoRequestYet(Step(c, s, e))
  {
    StepOnRecord(c, s, e);
  }

  /** An acknowledged deletion request either deletes or finds an expiry that was renewed meanwhile. */
  lemma AcknowledgedClaimKeepsClaimInv(c: Config, s: State)
    requires Inv(s) && ClaimInv(s) && s.pc.Claim? && CanTakeEffect(c, s)
    ensures ClaimInv(Received(Effect(c, s))) && NoRequestYet(Received(Effect(c, s)))
  {
  }

  lemma RetryKeepsClaimInv(c: Config, s: State, effect: bool)
    requires Inv(s) && ClaimInv(s) && NoRequestYet(s) && Tries(s.pc).Some? && (effect ==> CanTakeEffect(c, s))
    ensures var s1 := if effect then Effect(c, s) else s;
            ClaimInv(s1) && NoRequestYet(s1) && s1.pc == s.pc && s1.claims <= s1.renewals + 2
  {
  }

  lemma ReceiptKeepsClaimInv(s: State)
    requires ClaimInv(s) && NoRequestYet(s) && Tries(s.pc).Some? && s.claims <= s.renewals + 2
    ensures ClaimInv(Refused(s)) && NoRequestYet(Refused(s))
    ensures ClaimInv(s.(pc := Retried(s.pc))) && NoRequestYet(s.(pc := Retried(s.pc)))
    ensures !s.pc.Claim? ==> ClaimInv(Received(s)) && NoRequestYet(Received(s))
  {
  }

  lemma DecisionKeepsClaimInv(s: State)
    requires Inv(s) && ClaimInv(s) && s.pc.Decide?
    ensures ClaimInv(Decided(s, s.pc.seen)) && NoRequestYet(Decided(s, s.pc.seen))
  {
  }

  lemma StepKeepsClaimInv(c: Config, s: State, e: Event)
    requires Inv(s) && ClaimInv(s) && NoRequestYet(s) && Enabled(c, s, e)
    ensures ClaimInv(Step(c, s, e)) && NoRequestYet(Step(c, s, e))
  {
    hide Received, Refused, Commit, Renewed, Inv;
    match e {
      case Attempt(o) =>
        RetryKeepsClaimInv(c, s, o.Acked? || o.effect);
        var s1 := if o.Acked? || o.effect then Effect(c, s) else s;
        if o.Acked? && s.pc.Claim? {
          AcknowledgedClaimKeepsClaimInv(c, s);
        } else {
          ReceiptKeepsClaimInv(s1);
        }
      case Tick(_) => EnvironmentKeepsClaimInv(c, s, e);
      case Renewal(_) => EnvironmentKeepsClaimInv(c, s, e);
      case Cancel => EnvironmentKeepsClaimInv(c, s, e);
      case SessionLost(effect) =>
        var s1 := if effect && s.pc.Upload? then Effect(c, s) else s;
        assert s1.claims == 0 && s1.lastRead.None?;
      case Fail =>
      case Proceed =>
        if s.pc.Decide? {
          DecisionKeepsClaimInv(s);
        }
    }
  }

  lemma {:induction false} ClaimInvAlways(c: Config, run: seq<State>, events: seq<Event>, i: nat)
    requires Run(c, run, events) && i < |run|
    ensures ClaimInv(run[i]) && NoRequestYet(run[i])
    decreases i
  {
    hide Step, Enabled;
    if i > 0 {
      ClaimInvAlways(c, run, events, i - 1);
      InvAlways(c, run, events, i - 1);
      StepKeepsClaimInv(c, run[i - 1], events[i - 1]);
    }
  }

  /** The retention loop asks for deletion at most twice, plus once per request that changed the expiry. */
  lemma RequestsArePaidForByRenewals(c: Config, run: seq<State>, events: seq<Event>, i: nat)
    requires Run(c, run, events) && i < |run|
    ensures run[i].claims <= run[i].renewals + 2
  {
    ClaimInvAlways(c, run, events, i);
  }

  // Where the guarantee ends

  /** Of a stored record the object can only be missing if the workflow never learned that it was stored. */
  lemma StoredObjectIsMissingOnlyUnacknowledged(c: Config, run: seq<State>, events: seq<Event>, i: nat)
    requires Run(c, run, events) && i < |run|
    requires run[i].row.status.Stored?
    ensures !HasObject(run[i]) ==> !run[i].acknowledged && run[i].failed
    ensures !run[i].acknowledged && run[i].pc.UndoClear? ==> !HasObject(run[i])
  {
    InvAlways(c, run, events, i);
  }

  /** Step `j` removes the object of a generation that counts as failed, whether or not that is acknowledged. */
  ghost predicate Undone(run: seq<State>, events: seq<Event>, j: nat)
    requires j < |events| && |run| == |events| + 1
  {
    run[j].pc.UndoDelete? && events[j].Attempt? && (events[j].outcome.Acked? || events[j].outcome.effect)
  }

  /** In step `j` the final "stored" update is reported as failed; the record may or may not have got it. */
  ghost predicate FinalUpdateLost(run: seq<State>, events: seq<Event>, j: nat)
    requires j < |events| && |run| == |events| + 1
  {
    run[j].pc.Finalise? && !run[j].failed && events[j].Attempt? && events[j].outcome.Lost? && events[j].outcome.reported
  }

  /** The workflow is undoing a failed generation, or is done with it. */
  predicate Undoing(pc: PC) {
    pc.UndoDelete? || pc.UndoClear? || pc == Done(false)
  }

  lemma UndoingGoesOn(c: Config, s: State, e: Event)
    requires Enabled(c, s, e) && Undoing(s.pc) && !HasObject(s)
    ensures Undoing(Step(c, s, e).pc) && !HasObject(Step(c, s, e))
  {
    UndoingStays(c, s, e);
    if e.Attempt? && (e.outcome.Acked? || e.outcome.effect) {
      UndoingAddsNothing(c, s);
    }
    hide Commit, Undoing, Effect, CanTakeEffect;
  }

  lemma UndoingAddsNothing(c: Config, s: State)
    requires Undoing(s.pc) && Tries(s.pc).Some? && CanTakeEffect(c, s) && !HasObject(s)
    ensures !HasObject(Effect(c, s)) && Effect(c, s).row.uuid == s.row.uuid
  {
  }

  /** A removal that takes effect leaves the workflow undoing, and the object gone. */
  lemma UndoneIsGone(c: Config, s: State, e: Event)
    requires Inv(s) && Enabled(c, s, e) && s.pc.UndoDelete?
    requires e.Attempt? && (e.outcome.Acked? || e.outcome.effect)
    ensures Undoing(Step(c, s, e).pc) && !HasObject(Step(c, s, e))
  {
  }

  lemma {:induction false} UndoneStaysGone(c: Config, run: seq<State>, events: seq<Event>, j: nat, i: nat)
    requires Run(c, run, events) && j < i < |run| && Undone(run, events, j)
    ensures Undoing(run[i].pc) && !HasObject(run[i])
    decreases i
  {
    InvAlways(c, run, events, j);
    hide Step, Enabled, HasObject, Undoing;
    if i == j + 1 {
      UndoneIsGone(c, run[j], events[j]);
    } else {
      UndoneStaysGone(c, run, events, j, i - 1);
      UndoingGoesOn(c, run[i - 1], events[i - 1]);
    }
  }

  /** Of a stored record, only a removal by the deferred function takes the object. */
  lemma LosesItsObject(c: Config, s: State, e: Event)
    requires Inv(s) && Enabled(c, s, e)
    requires Step(c, s, e).row.status.Stored? && !HasObject(Step(c, s, e))
    ensures s.row.status.Stored?
    ensures HasObject(s) ==> s.pc.UndoDelete? && e.Attempt? && (e.outcome.Acked? || e.outcome.effect)
  {
    hide Received, Refused, Commit, Effect, CanTakeEffect, Inv;
    match e {
      case Attempt(Acked) =>
        ReceiptKeepsRecord(Effect(c, s));
        EffectLosesItsObject(c, s);
      case Attempt(Lost(effect, _)) =>
        if effect {
          RefusalKeepsRecord(Effect(c, s));
          EffectLosesItsObject(c, s);
        } else {
          RefusalKeepsRecord(s);
        }
      case SessionLost(effect) =>
        StoredHasNoSession(c, s, effect);
      case Proceed =>
        if s.pc.Decide? {
          assert Decided(s, s.pc.seen).row == s.row;
        }
      case _ =>
    }
  }

  lemma StoredHasNoSession(c: Config, s: State, effect: bool)
    requires Inv(s) && Enabled(c, s, SessionLost(effect))
    ensures Step(c, s, SessionLost(effect)).row.status.Pending()
  {
  }

  lemma EffectLosesItsObject(c: Config, s: State)
    requires Inv(s) && Tries(s.pc).Some? && CanTakeEffect(c, s)
    requires Effect(c, s).row.status.Stored? && !HasObject(Effect(c, s))
    ensures s.row.status.Stored? && (HasObject(s) ==> s.pc.UndoDelete?)
  {
  }

  lemma StartIsPending(c: Config, run: seq<State>, events: seq<Event>)
    requires Run(c, run, events)
    ensures !run[0].row.status.Stored?
  {
  }

  lemma RunStep(c: Config, run: seq<State>, events: seq<Event>, i: nat)
    requires Run(c, run, events) && i < |events|
    ensures Enabled(c, run[i], events[i]) && run[i + 1] == Step(c, run[i], events[i])
  {
  }

  lemma RunLength(c: Config, run: seq<State>, events: seq<Event>)
    requires Run(c, run, events)
    ensures |run| == |events| + 1
  {
  }

  lemma RemovalIsUndoing(run: seq<State>, events: seq<Event>, j: nat)
    requires j < |events| && |run| == |events| + 1
    requires run[j].pc.UndoDelete? && events[j].Attempt? && (events[j].outcome.Acked? || events[j].outcome.effect)
    ensures Undone(run, events, j)
  {
  }

  /**
    The exact condition: a stored record is without its object if and only if the deferred function has
    removed it.
  */
  lemma {:induction false} StoredObjectIsMissingIff(c: Config, run: seq<State>, events: seq<Event>, i: nat)
    requires Run(c, run, events) && i < |run|
    requires run[i].row.status.Stored?
    ensures !HasObject(run[i]) <==> exists j :: 0 <= j < i && Undone(run, events, j)
    decreases i
  {
    hide *;
    RunLength(c, run, events);
    if j :| 0 <= j < i && Undone(run, events, j) {
      UndoneStaysGone(c, run, events, j, i);
    }
    if i == 0 {
      StartIsPending(c, run, events);
    } else if !HasObject(run[i]) {
      InvAlways(c, run, events, i - 1);
      RunStep(c, run, events, i - 1);
      LosesItsObject(c, run[i - 1], events[i - 1]);
      if HasObject(run[i - 1]) {
        RemovalIsUndoing(run, events, i - 1);
      } else {
        StoredObjectIsMissingIff(c, run, events, i - 1);
      }
    }
  }

  /** A step that makes the deferred function undo a generation, whose record is stored afterwards. */
  lemma StartsUndoing(c: Config, s: State, e: Event)
    requires Inv(s) && Enabled(c, s, e) && !s.pc.UndoDelete? && Step(c, s, e).pc.UndoDelete?
    requires Step(c, s, e).row.status.Stored?
    ensures s.pc.Finalise? && !s.failed && e.Attempt? && e.outcome.Lost? && e.outcome.reported
  {
    if e.Attempt? && (e.outcome.Acked? || e.outcome.effect) {
      EffectOfFinalUpdate(c, s);
    }
    hide Commit, Effect, CanTakeEffect;
  }

  lemma EffectOfFinalUpdate(c: Config, s: State)
    requires Inv(s) && Tries(s.pc).Some? && CanTakeEffect(c, s)
    ensures Effect(c, s).pc == s.pc && Effect(c, s).failed == s.failed
    ensures s.pc.Finalise? && s.failed ==> Effect(c, s).row.status.Failed?
  {
    EffectKeepsInv(c, s);
    hide Commit, Inv;
  }

  lemma UndoingStarts(c: Config, s: State, e: Event)
    requires Inv(s) && Enabled(c, s, e) && s.pc.Finalise? && !s.failed && e.Attempt? && e.outcome.Lost? && e.outcome.reported
    ensures Step(c, s, e).pc.UndoDelete?
  {
    assert HasObject(s) && s.key != "";
  }

  /** While a generation is undone, its record does not become stored. */
  lemma UndoingStoresNothing(c: Config, s: State, e: Event)
    requires Enabled(c, s, e) && Undoing(s.pc) && Step(c, s, e).row.status.Stored?
    ensures s.row.status.Stored?
  {
  }

  lemma UndoingStays(c: Config, s: State, e: Event)
    requires Enabled(c, s, e) && Undoing(s.pc)
    ensures Undoing(Step(c, s, e).pc)
  {
  }

  /** A record that is stored while its generation is undone was stored when that began. */
  lemma {:induction false} StoredBeforeUndoing(c: Config, run: seq<State>, events: seq<Event>, j: nat, i: nat)
    requires Run(c, run, events) && j <= i < |run| && Undoing(run[j].pc) && run[i].row.status.Stored?
    ensures run[j].row.status.Stored?
    decreases i
  {
    hide Step, Enabled, Undoing;
    if j < i {
      UndoingUntil(c, run, events, j, i - 1);
      UndoingStoresNothing(c, run[i - 1], events[i - 1]);
      StoredBeforeUndoing(c, run, events, j, i - 1);
    }
  }

  lemma {:induction false} UndoingUntil(c: Config, run: seq<State>, events: seq<Event>, j: nat, i: nat)
    requires Run(c, run, events) && j <= i < |run| && Undoing(run[j].pc)
    ensures Undoing(run[i].pc)
    decreases i
  {
    hide Step, Enabled, Undoing;
    if j < i {
      UndoingUntil(c, run, events, j, i - 1);
      UndoingStays(c, run[i - 1], events[i - 1]);
    }
  }

  /** The step by which the deferred function began to undo. */
  lemma {:induction false} FirstUndoing(c: Config, run: seq<State>, events: seq<Event>, i: nat) returns (j: nat)
    requires Run(c, run, events) && i < |run| && run[i].pc.UndoDelete?
    ensures j < i && !run[j].pc.UndoDelete? && run[j + 1].pc.UndoDelete?
    decreases i
  {
    if run[i - 1].pc.UndoDelete? {
      j := FirstUndoing(c, run, events, i - 1);
    } else {
      j := i - 1;
    }
  }

  /**
    And the deferred function sets out to remove the object of a stored record if and only if a final
    "stored" update was reported as failed; that update was then committed.
  */
  lemma StoredIsUndoneIff(c: Config, run: seq<State>, events: seq<Event>, i: nat)
    requires Run(c, run, events) && i < |run|
    requires run[i].row.status.Stored?
    ensures (exists j :: 0 <= j <= i && run[j].pc.UndoDelete?) <==> exists j :: 0 <= j < i && FinalUpdateLost(run, events, j)
    ensures forall j :: 0 <= j < i && FinalUpdateLost(run, events, j) ==> run[j + 1].row.status.Stored?
  {
    hide Step, Enabled, Inv;
    forall j | 0 <= j < i && FinalUpdateLost(run, events, j)
      ensures run[j + 1].pc.UndoDelete? && run[j + 1].row.status.Stored?
    {
      InvAlways(c, run, events, j);
      UndoingStarts(c, run[j], events[j]);
      StoredBeforeUndoing(c, run, events, j + 1, i);
    }
    if k :| 0 <= k <= i && run[k].pc.UndoDelete? {
      var j := FirstUndoing(c, run, events, k);
      InvAlways(c, run, events, j);
      StoredBeforeUndoing(c, run, events, j + 1, i);
      StartsUndoing(c, run[j], events[j]);
      assert FinalUpdateLost(run, events, j);
    }
  }

  /** A generation as its workflow finds it. */
  function Fresh(uuid: string, now: int): State {
    State(Row(uuid, "document", Queued, "", now, None, None, None, "", ""),
          {}, now, false, Begin(0), "", false, false, 0, 0, None)
  }

  /** `b` follows `a` by event `e`. */
  predicate Follows(c: Config, a: State, e: Event, b: State) {
    Enabled(c, a, e) && b == Step(c, a, e)
  }

  /** The same generation at the end of its session: the object is uploaded, the final update is due. */
  function Uploaded(c: Config, uuid: string, now: int): State {
    var k := KeyOf(uuid);
    Fresh(uuid, now).(row := RowStep(Fresh(uuid, now).row, Update(UpdateParams(Some(InProgress), "", "", 0, c.workflowId, false), now)),
                      key := k, bucket := {k}, pc := Finalise(0))
  }

  lemma SessionSucceeds(c: Config, uuid: string, now: int)
    ensures var s4 := Uploaded(c, uuid, now);
            var s3 := s4.(bucket := {}, pc := Upload(1, 0));
            var s2 := s3.(key := "", pc := Session(1));
            var s1 := s2.(pc := Lookup);
            && Follows(c, Fresh(uuid, now), Attempt(Acked), s1)
            && Follows(c, s1, Proceed, s2)
            && Follows(c, s2, Proceed, s3)
            && Follows(c, s3, Attempt(Acked), s4)
  {
  }

  /** The record after a final "stored" update. */
  function Published(c: Config, uuid: string, now: int): Row {
    RowStep(Uploaded(c, uuid, now).row, Update(PendingUpdate(c, Uploaded(c, uuid, now)).value, now))
  }

  lemma FinalUpdateIsLost(c: Config, uuid: string, now: int)
    ensures var s4 := Uploaded(c, uuid, now);
            var s5 := s4.(row := Published(c, uuid, now), pc := Finalise(1));
            && Follows(c, s4, Attempt(Lost(true, false)), s5)
            && Follows(c, s5, Attempt(Lost(false, false)), s5.(pc := Finalise(2)))
            && Follows(c, s5.(pc := Finalise(2)), Attempt(Lost(false, true)), s5.(failed := true, pc := UndoDelete(0)))
    ensures var r := Published(c, uuid, now);
            r.status.Stored? && !Expired(r, now) && r.objectKey == KeyOf(uuid) && r.uuid == uuid
  {
    assert |KeyOf(uuid)| > 0;
  }

  lemma ObjectIsRemoved(c: Config, s: State)
    requires s.pc == UndoDelete(0) && s.row.status.Stored? && s.bucket == {s.key}
    ensures var s' := s.(bucket := {}, pc := UndoClear(0));
            && Follows(c, s, Attempt(Acked), s')
            && Follows(c, s', Attempt(Acked), s'.(pc := Done(false)))
  {
  }

  /**
    The final "stored" update commits, but its result is lost three times: the workflow takes the
    generation for failed and deletes the object of a record that stays stored and unexpired, so that the
    API goes on handing it out.
  */
  lemma UnacknowledgedStoredRecordLosesItsObject(c: Config, uuid: string, now: int)
    returns (run: seq<State>, events: seq<Event>)
    ensures Run(c, run, events)
    ensures var last := run[|run| - 1];
            && last.row.status.Stored? && !Expired(last.row, last.now)
            && last.row.objectKey == KeyOf(uuid) && last.row.objectKey !in last.bucket
            && last.pc == Done(false)
  {
    hide Step, Enabled, Published;
    SessionSucceeds(c, uuid, now);
    FinalUpdateIsLost(c, uuid, now);
    var s4 := Uploaded(c, uuid, now);
    var s3 := s4.(bucket := {}, pc := Upload(1, 0));
    var s2 := s3.(key := "", pc := Session(1));
    var s5 := s4.(row := Published(c, uuid, now), pc := Finalise(1));
    var s7 := s5.(failed := true, pc := UndoDelete(0));
    ObjectIsRemoved(c, s7);
    var s8 := s7.(bucket := {}, pc := UndoClear(0));
    run := [Fresh(uuid, now), s2.(pc := Lookup), s2, s3, s4, s5, s5.(pc := Finalise(2)), s7, s8, s8.(pc := Done(false))];
    events := [Attempt(Acked), Proceed, Proceed, Attempt(Acked),
               Attempt(Lost(true, false)), Attempt(Lost(false, false)), Attempt(Lost(false, true)),
               Attempt(Acked), Attempt(Acked)];
    forall i | 0 <= i < |events|
      ensures Follows(c, run[i], events[i], run[i + 1])
    {
    }
  }
}
