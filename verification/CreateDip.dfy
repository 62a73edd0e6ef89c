/**
  The `create-dip` workflow (internal/dips/workflows/create_dip.go) as a step system over the DIP record,
  the bucket, the clock and the workflow's own state. Between any two workflow steps the API may renew the
  expiry, time may pass and the workflow may be cancelled.

  Activities run at least once: an attempt may take effect without its result reaching the workflow, is
  then retried up to three attempts, and may at any attempt be reported as failed.
*/
module CreateDip {
  import opened Wrappers
  import opened DipRow

  const MAX_ACTIVITY_ATTEMPTS := 3
  const MAX_SESSIONS := 5

  /** `failure` is the text of the error that a failed generation records. */
  datatype Config = Config(retentionPeriod: int, workflowId: string, failure: string)

  datatype PC =
    | Begin(tries: nat)          // update-dip: in progress
    | Lookup                     // ACTApro document and AIP paths
    | Session(attempt: nat)      // the session up to the ZIP archive
    | Upload(attempt: nat, tries: nat)
    | Finalise(tries: nat)       // deferred: update-dip, stored or failed
    | UndoDelete(tries: nat)     // deferred: remove the object of a failed generation
    | UndoClear(tries: nat)
    | Claim(tries: nat)          // update-dip: deleted, if expired
    | Decide(seen: Row)          // the claim returned record `seen`
    | Wait(until: int)
    | ExpireDelete(tries: nat)
    | ExpireClear(tries: nat)
    | Done(ok: bool)

  /** The expiry that the last acknowledged claim returned, and how many renewals preceded it. */
  datatype Read = Read(expiresAt: Option<int>, renewals: nat)

  datatype State = State(
    row: Row,
    bucket: set<string>,
    now: int,
    cancelled: bool,
    pc: PC,
    key: string,                 // state.objectKey
    failed: bool,                // the deferred function sees an error
    // What happened so far, for the statements below.
    acknowledged: bool,          // the final "stored" update was acknowledged
    claims: nat,                 // logical deletion requests
    renewals: nat,               // requests that changed the expiry
    lastRead: Option<Read>)

  /** The result of one activity attempt. A lost attempt that is not `reported` is retried. */
  datatype Outcome = Acked | Lost(effect: bool, reported: bool)

  datatype Event =
    | Tick(d: nat)
    | Renewal(retention: nat)
    | Cancel
    | Attempt(outcome: Outcome)
    | SessionLost(effect: bool)  // the session's worker is gone; an upload may have taken effect
    | Fail                       // the step returns an error
    | Proceed

  function KeyOf(uuid: string): string { "DIP_" + uuid + ".zip" }

  function Max(a: int, b: int): int { if a < b then b else a }

  /** The parameters of the update activity that is pending at a program counter. */
  function PendingUpdate(c: Config, s: State): Option<UpdateParams> {
    match s.pc
    case Begin(_) => Some(UpdateParams(Some(InProgress), "", "", 0, c.workflowId, false))
    case Finalise(_) =>
      if s.failed then Some(UpdateParams(Some(Failed), s.key, c.failure, 0, "", false))
      else Some(UpdateParams(Some(Stored), s.key, "", Max(0, c.retentionPeriod), "", false))
    case Claim(_) => Some(UpdateParams(Some(Deleted), "", "", 0, "", false))
    case UndoClear(_) => Some(UpdateParams(None, "", "", 0, "", true))
    case ExpireClear(_) => Some(UpdateParams(None, "", "", 0, "", true))
    case _ => None
  }

  /** Whether an activity is pending, and how often it has been attempted. */
  function Tries(pc: PC): Option<nat> {
    match pc
    case Begin(t) => Some(t)
    case Upload(_, t) => Some(t)
    case Finalise(t) => Some(t)
    case UndoDelete(t) => Some(t)
    case UndoClear(t) => Some(t)
    case Claim(t) => Some(t)
    case ExpireDelete(t) => Some(t)
    case ExpireClear(t) => Some(t)
    case _ => None
  }

  function Retried(pc: PC): PC
    requires Tries(pc).Some?
  {
    match pc
    case Begin(t) => Begin(t + 1)
    case Upload(a, t) => Upload(a, t + 1)
    case Finalise(t) => Finalise(t + 1)
    case UndoDelete(t) => UndoDelete(t + 1)
    case UndoClear(t) => UndoClear(t + 1)
    case Claim(t) => Claim(t + 1)
    case ExpireDelete(t) => ExpireDelete(t + 1)
    case ExpireClear(t) => ExpireClear(t + 1)
  }

  /** The pending activity can take effect: its update parameters are valid for the record. */
  predicate CanTakeEffect(c: Config, s: State) {
    var p := PendingUpdate(c, s);
    p.Some? ==> Commit(s.row, p.value, s.now).Some?
  }

  /** The pending activity takes effect on the record or on the bucket. */
  function Effect(c: Config, s: State): State
    requires CanTakeEffect(c, s)
  {
    match s.pc
    case Upload(_, _) => s.(bucket := s.bucket + {s.key})
    case UndoDelete(_) => s.(bucket := s.bucket - {s.key})
    case ExpireDelete(_) => s.(bucket := s.bucket - {s.key})
    case _ =>
      var p := PendingUpdate(c, s);
      if p.Some? then s.(row := Commit(s.row, p.value, s.now).value) else s
  }

  /** The deferred function starts; a cancelled workflow counts as failed. */
  function Deferred(s: State, error: bool): State {
    s.(pc := Finalise(0), failed := error || s.cancelled)
  }

  /** After the final update of a generation that failed, or whose update failed. */
  function Undo(s: State): State {
    s.(failed := true, pc := if s.key != "" then UndoDelete(0) else Done(false))
  }

  function Request(s: State): State {
    s.(pc := Claim(0), claims := s.claims + 1)
  }

  /** The workflow receives the result of the pending activity. */
  function Received(s: State): State {
    match s.pc
    case Begin(_) => s.(pc := Lookup)
    case Upload(_, _) => Deferred(s, false)
    case Finalise(_) => if s.failed then Undo(s) else Request(s.(acknowledged := true))
    case UndoDelete(_) => s.(pc := UndoClear(0))
    case UndoClear(_) => s.(pc := Done(false))
    case Claim(_) => s.(pc := Decide(s.row), lastRead := Some(Read(s.row.expiresAt, s.renewals)))
    case ExpireDelete(_) => s.(pc := ExpireClear(0))
    case ExpireClear(_) => s.(pc := Done(true))
    case _ => s
  }

  /** The workflow receives an error from the pending activity. */
  function Refused(s: State): State {
    match s.pc
    case Begin(_) => Deferred(s, true)
    case Upload(_, _) => Deferred(s, true)
    case Finalise(_) => Undo(s)
    case _ => s.(pc := Done(false))
  }

  /** The session is retried unless the workflow was cancelled or the attempts are used up. */
  function Restarted(s: State, attempt: nat): State {
    if s.cancelled || attempt >= MAX_SESSIONS then Deferred(s, true)
    else s.(pc := Session(attempt + 1))
  }

  /** The switch on the status that a claim returned. */
  function Decided(s: State, seen: Row): State {
    match seen.status
    case Deleted => s.(pc := ExpireDelete(0))
    case Failed => s.(pc := ExpireDelete(0))
    case Stored =>
      if seen.expiresAt.None? then s.(pc := Done(true))
      else if seen.expiresAt.value > s.now then s.(pc := Wait(seen.expiresAt.value))
      else Request(s)
    case _ => s.(pc := Done(false))
  }

  predicate Enabled(c: Config, s: State, e: Event) {
    match e
    case Tick(_) => true
    case Renewal(_) => true
    case Cancel => true
    case Attempt(Acked) => Tries(s.pc).Some? && CanTakeEffect(c, s)
    case Attempt(Lost(effect, reported)) =>
      && Tries(s.pc).Some?
      && (effect ==> CanTakeEffect(c, s))
      && (!reported ==> Tries(s.pc).value + 1 < MAX_ACTIVITY_ATTEMPTS)
    case SessionLost(effect) => s.pc.Session? || s.pc.Upload?
    case Fail => s.pc.Lookup? || s.pc.Session? || (s.pc.Wait? && s.cancelled)
    case Proceed => s.pc.Lookup? || s.pc.Session? || s.pc.Decide? || (s.pc.Wait? && s.now >= s.pc.until)
  }

  function Step(c: Config, s: State, e: Event): State
    requires Enabled(c, s, e)
  {
    match e
    case Tick(d) => s.(now := s.now + d)
    case Renewal(retention) =>
      var row := Renewed(s.row, retention, s.now);
      s.(row := row, renewals := if row == s.row then s.renewals else s.renewals + 1)
    case Cancel => s.(cancelled := true)
    case Attempt(Acked) => Received(Effect(c, s))
    case Attempt(Lost(effect, reported)) =>
      var s1 := if effect then Effect(c, s) else s;
      if reported then Refused(s1) else s1.(pc := Retried(s1.pc))
    case SessionLost(effect) =>
      var s1 := if effect && s.pc.Upload? then Effect(c, s) else s;
      Restarted(s1, s.pc.attempt)
    case Fail => if s.pc.Wait? then s.(pc := Done(false)) else Deferred(s, true)
    case Proceed =>
      match s.pc
      case Lookup => s.(pc := Session(1))
      case Session(a) => s.(key := KeyOf(s.row.uuid), pc := Upload(a, 0))
      case Decide(seen) => Decided(s, seen)
      case _ => Request(s)
  }

  /** A freshly requested generation whose object does not exist yet. */
  predicate Init(s: State) {
    && s.row.status.Queued? && s.row.objectKey == "" && s.row.expiresAt.None?
    && KeyOf(s.row.uuid) !in s.bucket
    && s.pc == Begin(0) && s.key == "" && !s.failed
    && !s.acknowledged && s.claims == 0 && s.renewals == 0 && s.lastRead.None?
  }

  /** `run` is a run of the system: state i+1 follows state i by event i. */
  ghost predicate Run(c: Config, run: seq<State>, events: seq<Event>) {
    && |run| == |events| + 1
    && Init(run[0])
    && forall i :: 0 <= i < |events| ==> Enabled(c, run[i], events[i]) && run[i + 1] == Step(c, run[i], events[i])
  }

  /** The object of this generation is in the bucket. */
  predicate HasObject(s: State) {
    KeyOf(s.row.uuid) in s.bucket
  }

  /** What holds of the record at each program counter. */
  predicate RecordInv(s: State) {
    var r := s.row;
    var k := KeyOf(r.uuid);
    match s.pc
    case Begin(_) => r.status.Pending() && s.key == ""
    case Lookup => r.status.Pending() && s.key == ""
    case Session(_) => r.status.Pending()
    case Upload(_, _) => r.status.Pending() && s.key == k
    case Finalise(_) =>
      && (r.status.Pending() || (if s.failed then r.status.Failed? && r.objectKey == s.key else r.status.Stored? && r.objectKey == k))
      && (!s.failed ==> HasObject(s))
    case UndoDelete(_) => s.failed && s.key == k && !r.status.Deleted? && (r.status.Final() ==> r.objectKey == k)
    case UndoClear(_) => s.failed && s.key == k && !r.status.Deleted? && !HasObject(s)
    case Claim(_) => s.acknowledged && HasObject(s) && r.objectKey == k
    case Decide(seen) =>
      && s.acknowledged && HasObject(s) && r.objectKey == k && seen.status == r.status
      && (r.status.Stored? ==> NotEarlier(seen.expiresAt, r.expiresAt))
    case Wait(until) =>
      && s.acknowledged && HasObject(s) && r.objectKey == k && r.status.Stored?
      && NotEarlier(Some(until), r.expiresAt)
    case ExpireDelete(_) => s.acknowledged && r.status.Deleted? && r.objectKey == k
    case ExpireClear(_) => s.acknowledged && r.status.Deleted? && !HasObject(s)
    case Done(true) =>
      s.acknowledged && (if r.status.Stored? then r.expiresAt.None? else r.status.Deleted? && !HasObject(s) && r.objectKey == "")
    case Done(false) => true
  }

  /** The invariant of all reachable states. */
  predicate Inv(s: State) {
    && RecordInv(s)
    && (s.key == "" || s.key == KeyOf(s.row.uuid))
    && (s.row.objectKey == "" || s.row.objectKey == KeyOf(s.row.uuid))
    && (HasObject(s) ==> s.key != "")
    && (s.row.status.Pending() ==> s.row.objectKey == "" && s.row.expiresAt.None?)
    && (s.row.status.Stored? ==> s.row.objectKey == KeyOf(s.row.uuid))
    && (s.row.status.Final() && HasObject(s) ==> s.row.objectKey == KeyOf(s.row.uuid))
    && (s.row.status.Deleted? ==> s.acknowledged)
    && (s.acknowledged ==> s.row.status.Deleted? || (s.row.status.Stored? && HasObject(s)))
    && (s.row.status.Stored? && !s.acknowledged && !s.failed ==> s.pc.Finalise?)
    && (s.acknowledged ==> s.pc.Claim? || s.pc.Decide? || s.pc.Wait? || s.pc.ExpireDelete? || s.pc.ExpireClear? || s.pc.Done?)
  }

  /** What the pending activity achieves when it takes effect. */
  predicate Achieved(s: State) {
    match s.pc
    case Upload(_, _) => HasObject(s)
    case Finalise(_) => s.row.status == (if s.failed then Failed else Stored)
    case UndoDelete(_) => !HasObject(s)
    case ExpireDelete(_) => !HasObject(s)
    case ExpireClear(_) => s.row.objectKey == ""
    case _ => true
  }

  lemma EffectKeepsInv(c: Config, s: State)
    requires Inv(s) && Tries(s.pc).Some? && CanTakeEffect(c, s)
    ensures Inv(Effect(c, s)) && Achieved(Effect(c, s)) && Effect(c, s).pc == s.pc
    ensures Effect(c, s).row.uuid == s.row.uuid
  {
    if PendingUpdate(c, s).Some? {
      UpdateKeepsInv(c, s);
      hide Inv, Achieved, CanTakeEffect, Commit;
    } else {
      assert |KeyOf(s.row.uuid)| > 0;
      hide Commit;
    }
  }

  /** The update of the record, if it is one. */
  lemma UpdateKeepsInv(c: Config, s: State)
    requires Inv(s) && PendingUpdate(c, s).Some? && CanTakeEffect(c, s)
    ensures var s' := s.(row := Commit(s.row, PendingUpdate(c, s).value, s.now).value);
            Inv(s') && Achieved(s') && s'.row.uuid == s.row.uuid
  {
    assert |KeyOf(s.row.uuid)| > 0;
  }

  lemma ReceivedKeepsInv(s: State)
    requires Inv(s) && Tries(s.pc).Some? && Achieved(s)
    ensures Inv(Received(s))
  {
  }

  lemma RefusedKeepsInv(s: State)
    requires Inv(s) && Tries(s.pc).Some?
    ensures Inv(Refused(s)) && Inv(s.(pc := Retried(s.pc)))
  {
    RetryKeepsInv(s);
    hide Retried;
  }

  lemma RetryKeepsInv(s: State)
    requires Inv(s) && Tries(s.pc).Some?
    ensures Inv(s.(pc := Retried(s.pc)))
  {
  }

  lemma RenewalKeepsInv(c: Config, s: State, retention: nat)
    requires Inv(s)
    ensures Inv(Step(c, s, Renewal(retention)))
  {
  }

  lemma StepKeepsInv(c: Config, s: State, e: Event)
    requires Inv(s) && Enabled(c, s, e)
    ensures Inv(Step(c, s, e))
  {
    match e {
      case Renewal(retention) => RenewalKeepsInv(c, s, retention);
      case Attempt(_) => AttemptKeepsInv(c, s, e);
      case SessionLost(effect) => SessionLostKeepsInv(c, s, effect);
      case _ => OwnStepKeepsInv(c, s, e);
    }
    hide *;
  }

  lemma AttemptKeepsInv(c: Config, s: State, e: Event)
    requires Inv(s) && Enabled(c, s, e) && e.Attempt?
    ensures Inv(Step(c, s, e))
  {
    hide Effect, Received, Refused, CanTakeEffect, Inv, Achieved;
    match e {
      case Attempt(Acked) =>
        EffectKeepsInv(c, s);
        ReceivedKeepsInv(Effect(c, s));
      case Attempt(Lost(effect, _)) =>
        if effect {
          EffectKeepsInv(c, s);
        }
        RefusedKeepsInv(if effect then Effect(c, s) else s);
    }
  }

  lemma SessionLostKeepsInv(c: Config, s: State, effect: bool)
    requires Inv(s) && Enabled(c, s, SessionLost(effect))
    ensures Inv(Step(c, s, SessionLost(effect)))
  {
    hide Commit;
  }

  /** Time passes, the workflow is cancelled, or it goes on by itself. */
  lemma OwnStepKeepsInv(c: Config, s: State, e: Event)
    requires Inv(s) && Enabled(c, s, e) && (e.Tick? || e.Cancel? || e.Fail? || e.Proceed?)
    ensures Inv(Step(c, s, e))
  {
    assert |KeyOf(s.row.uuid)| > 0;
    hide Commit, Effect, Received, Refused, CanTakeEffect;
  }
}
