/**
  The persisted DIP record and the only two things that ever change it: the `update-dip` activity
  (internal/dips/activities/update_dip.go) saved by the database client, and the API's RequestDIP,
  which may renew the expiry of a stored record (internal/dips/persistence/ent/client/dip.go).

  Times are integers of one clock; a zero Go time is None.
*/
module DipRow {
  import opened Wrappers

  datatype Status = Queued | InProgress | Stored | Failed | Deleted
  {
    /** A generation that has completed, successfully or not. */
    predicate Final() { Stored? || Failed? || Deleted? }

    /** A generation that a workflow still has to complete. */
    predicate Pending() { Queued? || InProgress? }
  }

  datatype Row = Row(
    uuid: string,
    docKey: string,
    status: Status,
    errorMessage: string,
    createdAt: int,
    startedAt: Option<int>,
    completedAt: Option<int>,
    expiresAt: Option<int>,
    objectKey: string,
    workflowId: string)

  /** `status` is None for a missing or unknown status label. */
  datatype UpdateParams = UpdateParams(
    status: Option<Status>,
    objectKey: string,
    errorMessage: string,
    retention: int,
    workflowId: string,
    clearObjectKey: bool)

  /** The record is stored with an expiry that is not after `now`. */
  predicate Expired(r: Row, now: int) {
    r.status.Stored? && r.expiresAt.Some? && r.expiresAt.value <= now
  }

  /** What the updater makes of record `r`, or None when it rejects the parameters. */
  function Updated(r: Row, p: UpdateParams, now: int): Option<Row> {
    if p.clearObjectKey then
      Some(if r.status.Failed? || r.status.Deleted? then r.(objectKey := "") else r)
    else if p.status == Some(Deleted) then
      Some(if Expired(r, now) then r.(status := Deleted) else r)
    else if r.status.Final() then
      Some(r)
    else match p.status
      case Some(InProgress) =>
        Some(r.(status := InProgress, startedAt := Some(now), workflowId := p.workflowId))
      case Some(Stored) =>
        if p.objectKey == "" || p.retention < 0 then None
        else Some(r.(status := Stored, objectKey := p.objectKey, completedAt := Some(now),
                     expiresAt := if p.retention > 0 then Some(now + p.retention) else r.expiresAt))
      case Some(Failed) =>
        Some(r.(status := Failed, objectKey := p.objectKey, errorMessage := p.errorMessage, completedAt := Some(now)))
      case _ => None
  }

  /** The record in memory, which the updater changes field by field. */
  class DIP {
    const uuid: string
    const docKey: string
    const createdAt: int
    var status: Status
    var errorMessage: string
    var startedAt: Option<int>
    var completedAt: Option<int>
    var expiresAt: Option<int>
    var objectKey: string
    var workflowId: string

    constructor (r: Row)
      ensures Value() == r
    {
      uuid, docKey, createdAt := r.uuid, r.docKey, r.createdAt;
      status, errorMessage := r.status, r.errorMessage;
      startedAt, completedAt, expiresAt := r.startedAt, r.completedAt, r.expiresAt;
      objectKey, workflowId := r.objectKey, r.workflowId;
    }

    function Value(): Row
      reads this
    {
      Row(uuid, docKey, status, errorMessage, createdAt, startedAt, completedAt, expiresAt, objectKey, workflowId)
    }

    /** The updater closure of the `update-dip` activity. */
    method Update(p: UpdateParams, now: int) returns (ok: bool)
      modifies this
      ensures ok == Updated(old(Value()), p, now).Some?
      ensures Value() == if ok then Updated(old(Value()), p, now).value else old(Value())
    {
      if p.clearObjectKey {
        if status == Failed || status == Deleted {
          objectKey := "";
        }
        return true;
      }
      if p.status != Some(Deleted) && (status == Stored || status == Failed || status == Deleted) {
        return true;
      }
      match p.status {
        case Some(InProgress) =>
          status, startedAt, workflowId := InProgress, Some(now), p.workflowId;
        case Some(Stored) =>
          if p.objectKey == "" || p.retention < 0 {
            return false;
          }
          status, objectKey, completedAt := Stored, p.objectKey, Some(now);
          if p.retention > 0 {
            expiresAt := Some(now + p.retention);
          }
        case Some(Failed) =>
          status, objectKey, errorMessage, completedAt := Failed, p.objectKey, p.errorMessage, Some(now);
        case Some(Deleted) =>
          if status == Stored && expiresAt.Some? && !(expiresAt.value > now) {
            status := Deleted;
          }
        case _ =>
          return false;
      }
      return true;
    }
  }

  /**
    How the database client saves an updated record over `d`: an error message, a time or a workflow
    identifier is never emptied, the expiry only moves later, and only the object key can be cleared.
  */
  function Saved(d: Row, up: Row): Row {
    d.(status := up.status,
       errorMessage := if up.errorMessage != "" then up.errorMessage else d.errorMessage,
       startedAt := if up.startedAt.Some? then up.startedAt else d.startedAt,
       completedAt := if up.completedAt.Some? then up.completedAt else d.completedAt,
       expiresAt := if up.expiresAt.Some? && (d.expiresAt.None? || up.expiresAt.value > d.expiresAt.value)
                    then up.expiresAt else d.expiresAt,
       workflowId := if up.workflowId != "" then up.workflowId else d.workflowId,
       objectKey := up.objectKey)
  }

  /** One committed `update-dip` transaction on an existing record. */
  function Commit(r: Row, p: UpdateParams, now: int): Option<Row> {
    var up := Updated(r, p, now);
    if up.None? then None else Some(Saved(r, up.value))
  }

  /**
    What is left of a record after an update was made and saved: a start and a failure take over the texts that are not
    empty, a stored record gets its key and its expiry, and a completed one changes only by expiring or losing its key.
  */
  lemma CommitMeans(r: Row, p: UpdateParams, now: int)
    ensures p.clearObjectKey && (r.status == Failed || r.status == Deleted) ==> Commit(r, p, now) == Some(r.(objectKey := ""))
    ensures p.clearObjectKey && r.status != Failed && r.status != Deleted ==> Commit(r, p, now) == Some(r)
    ensures !p.clearObjectKey && p.status == Some(Deleted) ==>
      Commit(r, p, now)
      == Some(if r.status == Stored && r.expiresAt.Some? && r.expiresAt.value <= now then r.(status := Deleted) else r)
    ensures !p.clearObjectKey && p.status != Some(Deleted) && r.status != Queued && r.status != InProgress ==> Commit(r, p, now) == Some(r)
    ensures !p.clearObjectKey && (r.status == Queued || r.status == InProgress) ==>
      && (p.status == Some(InProgress) ==>
            Commit(r, p, now) == Some(r.(status := InProgress, startedAt := Some(now),
                                         workflowId := if p.workflowId == "" then r.workflowId else p.workflowId)))
      && (p.status == Some(Failed) ==>
            Commit(r, p, now) == Some(r.(status := Failed, completedAt := Some(now), objectKey := p.objectKey,
                                         errorMessage := if p.errorMessage == "" then r.errorMessage else p.errorMessage)))
      && (p.status == Some(Stored) && p.objectKey != "" && p.retention >= 0 ==>
            Commit(r, p, now) == Some(r.(status := Stored, completedAt := Some(now), objectKey := p.objectKey,
                                         expiresAt := if p.retention == 0 || (r.expiresAt.Some? && now + p.retention < r.expiresAt.value)
                                                      then r.expiresAt else Some(now + p.retention))))
      && (p.status == Some(Stored) && (p.objectKey == "" || p.retention < 0) ==> Commit(r, p, now).None?)
      && (p.status.None? || p.status == Some(Queued) ==> Commit(r, p, now).None?)
  {
  }

  /**
    The effect of a request that reuses `r`: an unexpired stored record with an expiry has it removed
    (retention zero) or moved later, never earlier; any other record is left alone.
  */
  function Renewed(r: Row, retention: nat, now: int): Row {
    if r.status.Stored? && r.expiresAt.Some? && r.expiresAt.value > now then
      if retention == 0 then r.(expiresAt := None)
      else if now + retention > r.expiresAt.value then r.(expiresAt := Some(now + retention))
      else r
    else r
  }

  /** Everything that can happen to one record, in the order of its row lock. */
  datatype RowAction = Update(p: UpdateParams, now: int) | Renew(retention: nat, at: int)

  function RowStep(r: Row, a: RowAction): Row {
    match a
    case Update(p, now) => var c := Commit(r, p, now); if c.Some? then c.value else r
    case Renew(retention, now) => Renewed(r, retention, now)
  }

  function RowRun(r: Row, actions: seq<RowAction>): Row
    decreases |actions|
  {
    if actions == [] then r else RowRun(RowStep(r, actions[0]), actions[1..])
  }

  /** None is the latest of all expiries: the record is kept for good. */
  predicate NotEarlier(a: Option<int>, b: Option<int>) {
    b.None? || (a.Some? && a.value <= b.value)
  }

  /**
    A completed record keeps its completion time whatever happens next; a failed or deleted one can only
    lose its object key; a stored one keeps its key, has its expiry extended or removed, and may only
    become deleted.
  */
  ghost predicate Settled(r: Row, r': Row) {
    && r'.completedAt == r.completedAt
    && (r.status.Failed? || r.status.Deleted? ==> r' == r || r' == r.(objectKey := ""))
    && (r.status.Stored? ==>
          && (r'.status.Stored? || r'.status.Deleted?)
          && (r'.status.Stored? ==> r'.objectKey == r.objectKey && NotEarlier(r.expiresAt, r'.expiresAt)))
  }

  lemma {:induction false} CompletedRecordsAreSettled(r: Row, actions: seq<RowAction>)
    requires r.status.Final()
    ensures Settled(r, RowRun(r, actions))
    decreases |actions|
  {
    if actions != [] {
      var r1 := RowStep(r, actions[0]);
      assert Settled(r, r1);
      CompletedRecordsAreSettled(r1, actions[1..]);
    }
  }

  /** A record that has not completed has no completion time; it gets one when it completes. */
  lemma {:induction false} CompletionIsWrittenOnce(r: Row, before: seq<RowAction>, after: seq<RowAction>)
    requires r.status.Pending() && r.completedAt.None?
    ensures RowRun(r, before).completedAt.Some? <==> RowRun(r, before).status.Final()
    ensures RowRun(r, before).completedAt.Some? ==>
              RowRun(RowRun(r, before), after).completedAt == RowRun(r, before).completedAt
    decreases |before|
  {
    if before == [] {
    } else {
      var r1 := RowStep(r, before[0]);
      if r1.status.Pending() {
        CompletionIsWrittenOnce(r1, before[1..], after);
      } else {
        CompletedRecordsAreSettled(r1, before[1..]);
        CompletedRecordsAreSettled(RowRun(r, before), after);
      }
    }
  }

  /** Running `a` and then `b` is running them in one go. */
  lemma {:induction false} RunConcat(r: Row, a: seq<RowAction>, b: seq<RowAction>)
    ensures RowRun(r, a + b) == RowRun(RowRun(r, a), b)
    decreases |a|
  {
    if a == [] {
      assert a + b == b;
    } else {
      assert (a + b)[1..] == a[1..] + b;
      RunConcat(RowStep(r, a[0]), a[1..], b);
    }
  }

  /** The updates that complete a generation. */
  predicate Completes(p: UpdateParams) {
    !p.clearObjectKey && (p.status == Some(Stored) || p.status == Some(Failed))
  }

  /** The update by which the workflow removes the object key. */
  predicate Clears(p: UpdateParams) {
    p.clearObjectKey
  }

  /**
    At-least-once delivery of a completing update: once it is committed, delivering it again at any later
    time, whatever happened in between, changes nothing.
  */
  lemma CompletingTwiceIsCompletingOnce(
    r: Row, p: UpdateParams, t: int, between: seq<RowAction>, t': int, after: seq<RowAction>)
    requires Completes(p) && Commit(r, p, t).Some?
    ensures RowRun(r, [Update(p, t)] + between + [Update(p, t')] + after) == RowRun(r, [Update(p, t)] + between + after)
  {
    var r1 := RowStep(r, Update(p, t));
    assert RowRun(r, [Update(p, t)]) == r1 by {
      assert [Update(p, t)][1..] == [];
    }
    CompletedRecordsAreSettled(r1, between);
    RepeatWithoutEffect(r, p, t, between, t', after);
  }

  /** Dropping an update that leaves the record as it is does not change the rest of the run. */
  lemma RepeatWithoutEffect(
    r: Row, p: UpdateParams, t: int, between: seq<RowAction>, t': int, after: seq<RowAction>)
    requires var m := RowRun(RowStep(r, Update(p, t)), between); RowStep(m, Update(p, t')) == m
    ensures RowRun(r, [Update(p, t)] + between + [Update(p, t')] + after) == RowRun(r, [Update(p, t)] + between + after)
  {
    var first, again := [Update(p, t)], [Update(p, t')];
    var m := RowRun(RowStep(r, Update(p, t)), between);
    assert RowRun(r, first) == RowStep(r, Update(p, t)) by {
      assert first[1..] == [];
    }
    assert RowRun(m, again) == m by {
      assert again[1..] == [];
    }
    RunConcat(r, first, between);
    RunConcat(r, first + between, again);
    RunConcat(r, first + between + again, after);
    RunConcat(r, first + between, after);
  }

  /** Nothing is left to remove, now or later: the condition under which a key removal may be repeated. */
  predicate NothingToClear(r: Row) {
    || r.status.Failed?
    || r.status.Deleted?
    || (r.status.Stored? && (r.expiresAt.None? || r.objectKey == ""))
  }

  /**
    A repeated key removal is harmless in every continuation exactly when it was first committed on a
    failed or deleted record, or on a stored one that can never become deleted or has no key.
  */
  lemma RepeatedClearIsHarmlessIff(r: Row, p: UpdateParams, t: int)
    requires Clears(p)
    ensures NothingToClear(r) <==>
            forall between, t' ::
              RowStep(RowRun(RowStep(r, Update(p, t)), between), Update(p, t')) == RowRun(RowStep(r, Update(p, t)), between)
  {
    var r1 := RowStep(r, Update(p, t));
    if NothingToClear(r) {
      forall between, t'
        ensures RowStep(RowRun(r1, between), Update(p, t')) == RowRun(r1, between)
      {
        CompletedRecordsAreSettled(r1, between);
        if r.status.Stored? {
          KeptForGood(r1, between);
        }
      }
    } else {
      var fail := Update(UpdateParams(Some(Failed), "key", "", 0, "", false), t);
      var delete := Update(UpdateParams(Some(Deleted), "", "", 0, "", false), if r.expiresAt.Some? then r.expiresAt.value else 0);
      var next := if r.status.Stored? then delete else fail;
      assert RowRun(r1, [next]) == RowStep(r1, next) by {
        assert [next][1..] == [];
      }
      assert RowStep(RowRun(r1, [next]), Update(p, t)) != RowRun(r1, [next]);
    }
  }

  /** Renewals change nothing but the expiry of a stored record. */
  lemma {:induction false} RenewalsKeep(r: Row, renewals: seq<RowAction>)
    requires forall a :: a in renewals ==> a.Renew?
    ensures RowRun(r, renewals) == r.(expiresAt := RowRun(r, renewals).expiresAt)
    decreases |renewals|
  {
    if renewals != [] {
      assert renewals[0] in renewals;
      assert RowStep(r, renewals[0]) == r.(expiresAt := RowStep(r, renewals[0]).expiresAt);
      RenewalsKeep(RowStep(r, renewals[0]), renewals[1..]);
    }
  }

  /** With nothing but renewals in between, a repeated key removal is harmless on every record. */
  lemma ClearingAgainAfterRenewals(
    r: Row, p: UpdateParams, t: int, renewals: seq<RowAction>, t': int, after: seq<RowAction>)
    requires Clears(p) && forall a :: a in renewals ==> a.Renew?
    ensures RowRun(r, [Update(p, t)] + renewals + [Update(p, t')] + after) == RowRun(r, [Update(p, t)] + renewals + after)
  {
    RenewalsKeep(RowStep(r, Update(p, t)), renewals);
    RepeatWithoutEffect(r, p, t, renewals, t', after);
  }

  /** A stored record without an expiry stays stored without an expiry; one without a key stays without. */
  lemma {:induction false} KeptForGood(r: Row, actions: seq<RowAction>)
    requires r.status.Stored? && (r.expiresAt.None? || r.objectKey == "")
    ensures var r' := RowRun(r, actions);
            if r.expiresAt.None? then r' == r else r'.objectKey == "" && r'.status.Final()
    decreases |actions|
  {
    CompletedRecordsAreSettled(r, actions);
    if actions != [] {
      var r1 := RowStep(r, actions[0]);
      if r1.status.Stored? {
        KeptForGood(r1, actions[1..]);
      } else {
        CompletedRecordsAreSettled(r1, actions[1..]);
      }
    }
  }

  /** Two records that differ at most in the start time of the generation. */
  predicate SameButStart(a: Row, b: Row) {
    a.(startedAt := None) == b.(startedAt := None)
  }

  lemma {:induction false} RunKeepsSameButStart(a: Row, b: Row, actions: seq<RowAction>)
    requires SameButStart(a, b)
    ensures SameButStart(RowRun(a, actions), RowRun(b, actions))
    decreases |actions|
  {
    hide RowStep, SameButStart;
    if actions != [] {
      StepKeepsSameButStart(a, b, actions[0]);
      RunKeepsSameButStart(RowStep(a, actions[0]), RowStep(b, actions[0]), actions[1..]);
    }
  }

  lemma StepKeepsSameButStart(a: Row, b: Row, action: RowAction)
    requires SameButStart(a, b)
    ensures SameButStart(RowStep(a, action), RowStep(b, action))
  {
    if action.Update? {
      CommitKeepsSameButStart(a, b, action.p, action.now);
    }
    hide Commit;
  }

  lemma CommitKeepsSameButStart(a: Row, b: Row, p: UpdateParams, now: int)
    requires SameButStart(a, b)
    ensures Commit(a, p, now).Some? <==> Commit(b, p, now).Some?
    ensures Commit(a, p, now).Some? ==> SameButStart(Commit(a, p, now).value, Commit(b, p, now).value)
  {
  }

  /** No in-progress update of another workflow occurs. */
  predicate OneWorkflow(actions: seq<RowAction>, w: string) {
    forall a :: a in actions && a.Update? && !a.p.clearObjectKey && a.p.status == Some(InProgress) ==> a.p.workflowId == w
  }

  /** A pending record touched by workflow `w` alone stays in progress for `w` until it completes. */
  lemma {:induction false} InProgressUntilCompleted(r: Row, w: string, actions: seq<RowAction>)
    requires OneWorkflow(actions, w)
    requires r.status.InProgress? && (w != "" ==> r.workflowId == w)
    ensures var r' := RowRun(r, actions); r'.status.Final() || (r'.status.InProgress? && (w != "" ==> r'.workflowId == w))
    decreases |actions|
  {
    if actions != [] {
      var r1 := RowStep(r, actions[0]);
      if r1.status.Final() {
        CompletedRecordsAreSettled(r1, actions[1..]);
      } else {
        assert r1.status.InProgress? && (w != "" ==> r1.workflowId == w);
        InProgressUntilCompleted(r1, w, actions[1..]);
      }
    }
  }

  /** A repeated in-progress update moves at most the start time, in every continuation. */
  lemma StartingTwiceMovesAtMostTheStart(
    r: Row, p: UpdateParams, t: int, between: seq<RowAction>, t': int, after: seq<RowAction>)
    requires !p.clearObjectKey && p.status == Some(InProgress) && OneWorkflow(between, p.workflowId)
    ensures SameButStart(RowRun(r, [Update(p, t)] + between + [Update(p, t')] + after),
                         RowRun(r, [Update(p, t)] + between + after))
  {
    var first, again := [Update(p, t)], [Update(p, t')];
    var r1 := RowStep(r, Update(p, t));
    var m := RowRun(r1, between);
    assert RowRun(r, first) == r1 by {
      assert first[1..] == [];
    }
    assert RowRun(m, again) == RowStep(m, again[0]) by {
      assert again[1..] == [];
    }
    RunConcat(r, first, between);
    RunConcat(r, first + between, again);
    RunConcat(r, first + between + again, after);
    RunConcat(r, first + between, after);
    if r1.status.Final() {
      CompletedRecordsAreSettled(r1, between);
    } else {
      InProgressUntilCompleted(r1, p.workflowId, between);
    }
    assert SameButStart(RowStep(m, again[0]), m);
    RunKeepsSameButStart(RowRun(m, again), m, after);
  }
}
