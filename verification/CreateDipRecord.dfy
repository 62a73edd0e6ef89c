/**
  What the steps of the `create-dip` workflow write, in terms of the record and the configuration alone: every change of
  the record in every run, what a run without faults ends in, and what cancellation and the limits on attempts mean.
*/
module CreateDipRecord {
  import opened Wrappers
  import opened DipRow
  import opened CreateDip
  import opened CreateDipSafety

  /** The generation has begun: the record gets the start time and the workflow. */
  predicate Started(c: Config, r: Row, r': Row, now: int) {
    && (r.status == Queued || r.status == InProgress)
    && r' == r.(status := InProgress, startedAt := Some(now), workflowId := if c.workflowId != "" then c.workflowId else r.workflowId)
  }

  /** The generation is stored under its own key, and expires after the configured period if there is one. */
  predicate Published(c: Config, r: Row, r': Row, now: int) {
    && (r.status == Queued || r.status == InProgress)
    && r' == r.(status := Stored, objectKey := "DIP_" + r.uuid + ".zip", completedAt := Some(now),
                expiresAt := if c.retentionPeriod > 0 then Some(now + c.retentionPeriod) else None)
  }

  /** The generation has failed, with its error and the key under which an object may be. */
  predicate GivenUp(c: Config, r: Row, r': Row, now: int) {
    && (r.status == Queued || r.status == InProgress)
    && (r'.objectKey == "" || r'.objectKey == "DIP_" + r.uuid + ".zip")
    && r' == r.(status := Failed, objectKey := r'.objectKey, completedAt := Some(now),
                errorMessage := if c.failure != "" then c.failure else r.errorMessage)
  }

  /** The record has expired. */
  predicate Withdrawn(r: Row, r': Row, now: int) {
    && r.status == Stored && r.expiresAt.Some? && r.expiresAt.value <= now
    && r' == r.(status := Deleted)
  }

  /** The key of a failed or deleted record is removed. */
  predicate KeyRemoved(r: Row, r': Row) {
    && (r.status == Failed || r.status == Deleted)
    && r' == r.(objectKey := "")
  }

  /** A request keeps the record for good, or until a later time than before. */
  predicate Extended(r: Row, r': Row, retention: nat, now: int) {
    && r.status == Stored && r.expiresAt.Some? && now < r.expiresAt.value
    && r' == r.(expiresAt := if retention == 0 then None else Some(now + retention))
    && (retention != 0 ==> r.expiresAt.value < now + retention)
  }

  /** Whatever the run, the record changes in six ways only, each in the step of one activity or in a request. */
  lemma EveryChangeOfTheRecord(c: Config, run: seq<State>, events: seq<Event>, i: nat)
    requires Run(c, run, events) && i + 1 < |run| && run[i + 1].row != run[i].row
    ensures Changed(c, run[i], events[i], run[i + 1])
  {
    InvAlways(c, run, events, i);
    hide Inv;
    RunStep(c, run, events, i);
    hide Run;
    if events[i].Renewal? {
      RenewalExtends(c, run[i], events[i]);
    } else {
      AttemptChanges(c, run[i], events[i]);
    }
  }

  predicate Changed(c: Config, s: State, e: Event, s': State) {
    var r, r', now := s.row, s'.row, s.now;
    if e.Renewal? then Extended(r, r', e.retention, now)
    else
      && e.Attempt?
      && (s.pc.Begin? || s.pc.Finalise? || s.pc.Claim? || s.pc.UndoClear? || s.pc.ExpireClear?)
      && (s.pc.Begin? ==> Started(c, r, r', now))
      && (s.pc.Finalise? && s.failed ==> GivenUp(c, r, r', now))
      && (s.pc.Finalise? && !s.failed ==> Published(c, r, r', now) && r'.objectKey in s'.bucket)
      && (s.pc.Claim? ==> Withdrawn(r, r', now) && r'.objectKey in s'.bucket)
      && (s.pc.UndoClear? || s.pc.ExpireClear? ==> KeyRemoved(r, r') && r.objectKey !in s'.bucket)
  }

  lemma RenewalExtends(c: Config, s: State, e: Event)
    requires Enabled(c, s, e) && e.Renewal? && Step(c, s, e).row != s.row
    ensures Changed(c, s, e, Step(c, s, e))
  {
  }

  lemma AttemptChanges(c: Config, s: State, e: Event)
    requires Inv(s) && Enabled(c, s, e) && !e.Renewal? && Step(c, s, e).row != s.row
    ensures Changed(c, s, e, Step(c, s, e))
  {
    StepOnRecord(c, s, e);
    hide Step, Enabled;
    UpdateChanges(c, s);
  }

  /** The activity that is pending, on the record. */
  lemma UpdateChanges(c: Config, s: State)
    requires Inv(s) && PendingUpdate(c, s).Some? && RowStep(s.row, Update(PendingUpdate(c, s).value, s.now)) != s.row
    ensures var s' := s.(row := RowStep(s.row, Update(PendingUpdate(c, s).value, s.now)));
            Changed(c, s, Attempt(Acked), s')
  {
    assert |KeyOf(s.row.uuid)| > 0;
  }

  // Runs without faults

  /** Nothing is lost, fails or is renewed. */
  predicate Faultless(e: Event) {
    e == Attempt(Acked) || e == Proceed || e.Tick? || e.Cancel?
  }

  ghost predicate Undisturbed(events: seq<Event>) {
    forall e :: e in events ==> Faultless(e)
  }

  /** The generation up to the final update. */
  function InSession(c: Config, s: State): State {
    s.(row := s.row.(status := InProgress, startedAt := Some(s.now), workflowId := if c.workflowId != "" then c.workflowId else s.row.workflowId),
       pc := Session(1))
  }

  function Uploading(c: Config, s: State): State {
    InSession(c, s).(key := "DIP_" + s.row.uuid + ".zip", pc := Upload(1, 0))
  }

  lemma FirstSteps(c: Config, s: State)
    requires Init(s)
    ensures Follows(c, s, Attempt(Acked), InSession(c, s).(pc := Lookup))
    ensures Follows(c, InSession(c, s).(pc := Lookup), Proceed, InSession(c, s))
    ensures Follows(c, InSession(c, s), Proceed, Uploading(c, s))
  {
  }

  /** The generation when its first deletion request is due. */
  function FirstRequest(c: Config, s: State): State {
    var u := Uploading(c, s);
    u.(row := u.row.(status := Stored, objectKey := u.key, completedAt := Some(s.now),
                     expiresAt := if c.retentionPeriod > 0 then Some(s.now + c.retentionPeriod) else None),
       bucket := s.bucket + {u.key}, pc := Claim(0), failed := false, acknowledged := true, claims := 1)
  }

  lemma IsStored(c: Config, s: State)
    requires Init(s) && !s.cancelled
    ensures var u := Uploading(c, s);
            var f := u.(bucket := s.bucket + {u.key}, pc := Finalise(0));
            Follows(c, u, Attempt(Acked), f) && Follows(c, f, Attempt(Acked), FirstRequest(c, s))
  {
    assert |KeyOf(s.row.uuid)| > 0;
  }

  /** What the deletion request finds, and what the workflow makes of it. */
  lemma IsKept(c: Config, s: State)
    requires Init(s) && c.retentionPeriod <= 0
    ensures var t := FirstRequest(c, s);
            var d := t.(pc := Decide(t.row), lastRead := Some(Read(None, t.renewals)));
            Follows(c, t, Attempt(Acked), d) && Follows(c, d, Proceed, d.(pc := Done(true)))
  {
  }

  lemma IsRead(c: Config, s: State)
    requires Init(s) && c.retentionPeriod > 0
    ensures var t, expiry := FirstRequest(c, s), s.now + c.retentionPeriod;
            var d := t.(pc := Decide(t.row), lastRead := Some(Read(Some(expiry), t.renewals)));
            Follows(c, t, Attempt(Acked), d) && Follows(c, d, Proceed, d.(pc := Wait(expiry)))
  {
  }

  lemma IsAwaited(c: Config, w: State, d: nat)
    requires w.pc == Wait(w.now + d)
    ensures var w' := w.(now := w.now + d);
            Follows(c, w, Tick(d), w') && Follows(c, w', Proceed, w'.(pc := Claim(0), claims := w.claims + 1))
  {
  }

  lemma IsClaimed(c: Config, t: State)
    requires t.pc == Claim(0) && t.row.status.Stored? && t.row.expiresAt == Some(t.now) && t.row.objectKey == t.key
    ensures var r := t.row.(status := Deleted);
            var d := t.(row := r, pc := Decide(r), lastRead := Some(Read(Some(t.now), t.renewals)));
            && Follows(c, t, Attempt(Acked), d) && Follows(c, d, Proceed, d.(pc := ExpireDelete(0)))
  {
  }

  lemma IsDeleted(c: Config, d: State)
    requires d.pc == ExpireDelete(0) && d.row.status.Deleted?
    ensures var x := d.(bucket := d.bucket - {d.key}, pc := ExpireClear(0));
            Follows(c, d, Attempt(Acked), x) && Follows(c, x, Attempt(Acked), x.(row := d.row.(objectKey := ""), pc := Done(true)))
  {
  }

  /** A run without faults that ends in `s`. */
  ghost predicate LeadsTo(c: Config, run: seq<State>, events: seq<Event>, start: State, s: State) {
    Run(c, run, events) && Undisturbed(events) && run[0] == start && run[|run| - 1] == s
  }

  lemma Nothing(c: Config, s: State)
    requires Init(s)
    ensures LeadsTo(c, [s], [], s, s)
  {
  }

  lemma Next(c: Config, run: seq<State>, events: seq<Event>, start: State, s: State, e: Event, s': State)
    returns (run': seq<State>, events': seq<Event>)
    requires LeadsTo(c, run, events, start, s) && Follows(c, s, e, s') && Faultless(e)
    ensures LeadsTo(c, run', events', start, s')
  {
    hide Step, Enabled, Init;
    run', events' := run + [s'], events + [e];
  }

  lemma Ends(c: Config, run: seq<State>, events: seq<Event>, start: State, s: State)
    requires LeadsTo(c, run, events, start, s)
    ensures Run(c, run, events) && run[0] == start && Undisturbed(events) && run[|run| - 1] == s
  {
  }

  /** From a deletion request for a record that has expired. */
  lemma Deleting(c: Config, run: seq<State>, events: seq<Event>, start: State, t: State)
    returns (run': seq<State>, events': seq<Event>)
    requires LeadsTo(c, run, events, start, t)
    requires t.pc == Claim(0) && t.row.status.Stored? && t.row.expiresAt == Some(t.now) && t.row.objectKey == t.key
    ensures Run(c, run', events') && run'[0] == start && Undisturbed(events')
    ensures var last := run'[|run'| - 1];
            && last.pc == Done(true) && last.now == t.now && last.bucket == t.bucket - {t.key}
            && last.row == t.row.(status := Deleted, objectKey := "")
  {
    var r := t.row.(status := Deleted);
    var d := t.(row := r, pc := Decide(r), lastRead := Some(Read(Some(t.now), t.renewals)));
    IsClaimed(c, t);
    IsDeleted(c, d.(pc := ExpireDelete(0)));
    hide LeadsTo, Follows;
    var x := d.(bucket := t.bucket - {t.key}, pc := ExpireClear(0));
    run', events' := Next(c, run, events, start, t, Attempt(Acked), d);
    run', events' := Next(c, run', events', start, d, Proceed, d.(pc := ExpireDelete(0)));
    run', events' := Next(c, run', events', start, d.(pc := ExpireDelete(0)), Attempt(Acked), x);
    run', events' := Next(c, run', events', start, x, Attempt(Acked), x.(row := r.(objectKey := ""), pc := Done(true)));
    Ends(c, run', events', start, x.(row := r.(objectKey := ""), pc := Done(true)));
  }

  lemma UntilFirstRequest(c: Config, s: State) returns (run: seq<State>, events: seq<Event>)
    requires Init(s) && !s.cancelled
    ensures LeadsTo(c, run, events, s, FirstRequest(c, s))
  {
    var i, t, u := InSession(c, s), FirstRequest(c, s), Uploading(c, s);
    var f := u.(bucket := s.bucket + {u.key}, pc := Finalise(0));
    Nothing(c, s);
    FirstSteps(c, s);
    IsStored(c, s);
    hide LeadsTo, Follows, Init, InSession, FirstRequest, Uploading;
    run, events := Next(c, [s], [], s, s, Attempt(Acked), i.(pc := Lookup));
    run, events := Next(c, run, events, s, i.(pc := Lookup), Proceed, i);
    run, events := Next(c, run, events, s, i, Proceed, u);
    run, events := Next(c, run, events, s, u, Attempt(Acked), f);
    run, events := Next(c, run, events, s, f, Attempt(Acked), t);
  }

  lemma UntilKept(c: Config, s: State) returns (run: seq<State>, events: seq<Event>)
    requires Init(s) && !s.cancelled && c.retentionPeriod <= 0
    ensures var t := FirstRequest(c, s);
            LeadsTo(c, run, events, s, t.(pc := Done(true), lastRead := Some(Read(None, t.renewals))))
  {
    var t := FirstRequest(c, s);
    var d := t.(pc := Decide(t.row), lastRead := Some(Read(None, t.renewals)));
    IsKept(c, s);
    hide LeadsTo, Follows, Init, FirstRequest;
    run, events := UntilFirstRequest(c, s);
    run, events := Next(c, run, events, s, t, Attempt(Acked), d);
    run, events := Next(c, run, events, s, d, Proceed, d.(pc := Done(true)));
  }

  function SecondRequest(c: Config, s: State): State {
    var t, expiry := FirstRequest(c, s), s.now + c.retentionPeriod;
    t.(now := expiry, pc := Claim(0), claims := 2, lastRead := Some(Read(Some(expiry), t.renewals)))
  }

  lemma UntilExpiry(c: Config, s: State) returns (run: seq<State>, events: seq<Event>)
    requires Init(s) && !s.cancelled && c.retentionPeriod > 0
    ensures LeadsTo(c, run, events, s, SecondRequest(c, s))
  {
    var t, expiry := FirstRequest(c, s), s.now + c.retentionPeriod;
    var d := t.(pc := Decide(t.row), lastRead := Some(Read(Some(expiry), t.renewals)));
    var w := d.(pc := Wait(expiry));
    assert w.now + c.retentionPeriod == expiry && t.claims == 1;
    IsRead(c, s);
    IsAwaited(c, w, c.retentionPeriod);
    hide LeadsTo, Follows, Init, FirstRequest;
    run, events := UntilFirstRequest(c, s);
    run, events := Next(c, run, events, s, t, Attempt(Acked), d);
    run, events := Next(c, run, events, s, d, Proceed, w);
    run, events := Next(c, run, events, s, w, Tick(c.retentionPeriod), w.(now := expiry));
    run, events := Next(c, run, events, s, w.(now := expiry), Proceed, SecondRequest(c, s));
  }

  /**
    Nothing goes wrong and nothing is cancelled: without a retention period, the generation is stored for good, and
    with one it is kept until the period is over, and then its object and its key are removed.
  */
  lemma UndisturbedGeneration(c: Config, s: State) returns (run: seq<State>, events: seq<Event>)
    requires Init(s) && !s.cancelled
    ensures Run(c, run, events) && run[0] == s && Undisturbed(events)
    ensures var r, key, last := s.row, "DIP_" + s.row.uuid + ".zip", run[|run| - 1];
            var workflow := if c.workflowId != "" then c.workflowId else r.workflowId;
            && last.pc == Done(true)
            && (c.retentionPeriod <= 0 ==>
                  && last.now == s.now && last.bucket == s.bucket + {key}
                  && last.row == r.(status := Stored, startedAt := Some(s.now), workflowId := workflow,
                                    completedAt := Some(s.now), objectKey := key))
            && (c.retentionPeriod > 0 ==>
                  && last.now == s.now + c.retentionPeriod && last.bucket == s.bucket
                  && last.row == r.(status := Deleted, startedAt := Some(s.now), workflowId := workflow,
                                    completedAt := Some(s.now), expiresAt := Some(last.now), objectKey := ""))
  {
    var key := "DIP_" + s.row.uuid + ".zip";
    assert key == KeyOf(s.row.uuid) && s.row.expiresAt.None? && s.row.objectKey == "" && KeyOf(s.row.uuid) !in s.bucket;
    assert s.bucket + {key} - {key} == s.bucket;
    if c.retentionPeriod <= 0 {
      run, events := UntilKept(c, s);
      var t := FirstRequest(c, s);
      Ends(c, run, events, s, t.(pc := Done(true), lastRead := Some(Read(None, t.renewals))));
    } else {
      run, events := UntilExpiry(c, s);
      run, events := Deleting(c, run, events, s, SecondRequest(c, s));
    }
    hide Init, Run, LeadsTo, Undisturbed;
  }

  /** Cancelled during the upload: the final update records the failure, and the object is removed again. */
  function CancelledAt(c: Config, s: State): State {
    Uploading(c, s).(cancelled := true)
  }

  function RecordedFailure(c: Config, s: State): State {
    var u := CancelledAt(c, s);
    u.(row := u.row.(status := Failed, objectKey := u.key, completedAt := Some(s.now),
                     errorMessage := if c.failure != "" then c.failure else s.row.errorMessage),
       bucket := s.bucket + {u.key}, pc := UndoDelete(0), failed := true)
  }

  lemma IsFailed(c: Config, s: State)
    requires Init(s)
    ensures var u := CancelledAt(c, s);
            var f := u.(bucket := s.bucket + {u.key}, pc := Finalise(0), failed := true);
            && Follows(c, Uploading(c, s), Cancel, u) && Follows(c, u, Attempt(Acked), f)
            && Follows(c, f, Attempt(Acked), RecordedFailure(c, s))
  {
    assert |KeyOf(s.row.uuid)| > 0;
  }

  lemma IsRemoved(c: Config, s: State)
    requires Init(s)
    ensures var f := RecordedFailure(c, s);
            var x := f.(bucket := f.bucket - {f.key}, pc := UndoClear(0));
            && Follows(c, f, Attempt(Acked), x) && Follows(c, x, Attempt(Acked), x.(row := f.row.(objectKey := ""), pc := Done(false)))
  {
  }

  /** The generation ends as failed, with its error, and with neither object nor key. */
  lemma CancelledGeneration(c: Config, s: State) returns (run: seq<State>, events: seq<Event>)
    requires Init(s)
    ensures Run(c, run, events) && run[0] == s && Undisturbed(events)
    ensures var last := run[|run| - 1];
            && last.pc == Done(false) && last.bucket == s.bucket && last.now == s.now
            && last.row == s.row.(status := Failed, startedAt := Some(s.now), completedAt := Some(s.now),
                                  workflowId := if c.workflowId != "" then c.workflowId else s.row.workflowId,
                                  errorMessage := if c.failure != "" then c.failure else s.row.errorMessage)
  {
    assert s.row.objectKey == "" && KeyOf(s.row.uuid) !in s.bucket;
    var i, u, v, f := InSession(c, s), Uploading(c, s), CancelledAt(c, s), RecordedFailure(c, s);
    assert f.key == KeyOf(s.row.uuid) && f.bucket - {f.key} == s.bucket;
    var y := f.(bucket := s.bucket, row := f.row.(objectKey := ""), pc := Done(false));
    Nothing(c, s);
    FirstSteps(c, s);
    IsFailed(c, s);
    IsRemoved(c, s);
    hide LeadsTo, Follows, Init, InSession, Uploading, CancelledAt, RecordedFailure;
    run, events := Next(c, [s], [], s, s, Attempt(Acked), i.(pc := Lookup));
    run, events := Next(c, run, events, s, i.(pc := Lookup), Proceed, i);
    run, events := Next(c, run, events, s, i, Proceed, u);
    run, events := Next(c, run, events, s, u, Cancel, v);
    var w := v.(bucket := s.bucket + {v.key}, pc := Finalise(0), failed := true);
    run, events := Next(c, run, events, s, v, Attempt(Acked), w);
    run, events := Next(c, run, events, s, w, Attempt(Acked), f);
    run, events := Next(c, run, events, s, f, Attempt(Acked), f.(bucket := s.bucket, pc := UndoClear(0)));
    run, events := Next(c, run, events, s, f.(bucket := s.bucket, pc := UndoClear(0)), Attempt(Acked), y);
    Ends(c, run, events, s, y);
    FailedRow(c, s);
  }

  lemma FailedRow(c: Config, s: State)
    requires s.row.objectKey == ""
    ensures RecordedFailure(c, s).row.(objectKey := "")
            == s.row.(status := Failed, startedAt := Some(s.now), completedAt := Some(s.now),
                      workflowId := if c.workflowId != "" then c.workflowId else s.row.workflowId,
                      errorMessage := if c.failure != "" then c.failure else s.row.errorMessage)
    ensures RecordedFailure(c, s).now == s.now
  {
  }

  // Cancellation, attempts and sessions

  /** A generation that has not been stored and will not be. */
  predicate Hopeless(s: State) {
    && !s.row.status.Stored?
    && (s.pc.Finalise? ==> s.failed) && !s.pc.Claim? && !s.pc.Decide? && !s.pc.Wait? && !s.pc.ExpireDelete? && !s.pc.ExpireClear?
    && s.pc != Done(true)
  }

  lemma HopelessStays(c: Config, s: State, e: Event)
    requires Inv(s) && Enabled(c, s, e) && s.cancelled && Hopeless(s)
    ensures Step(c, s, e).cancelled && Hopeless(Step(c, s, e))
  {
    if e.Attempt? {
      AttemptIsHopeless(c, s, e);
      hide *;
    } else {
      hide Commit;
    }
  }

  lemma EffectIsHopeless(c: Config, s: State)
    requires Inv(s) && CanTakeEffect(c, s) && s.cancelled && Hopeless(s)
    ensures var s' := Effect(c, s); s'.cancelled && Hopeless(s') && s'.pc == s.pc
  {
  }

  lemma OutcomeIsHopeless(s: State)
    requires s.cancelled && Hopeless(s) && Tries(s.pc).Some?
    ensures Received(s).cancelled && Hopeless(Received(s)) && Refused(s).cancelled && Hopeless(Refused(s))
    ensures Hopeless(s.(pc := Retried(s.pc)))
  {
  }

  lemma AttemptIsHopeless(c: Config, s: State, e: Event)
    requires Inv(s) && Enabled(c, s, e) && s.cancelled && Hopeless(s) && e.Attempt?
    ensures Step(c, s, e).cancelled && Hopeless(Step(c, s, e))
  {
    hide Effect, CanTakeEffect, Received, Refused, Retried, Hopeless, Inv;
    if e.outcome.Acked? || e.outcome.effect {
      EffectIsHopeless(c, s);
      OutcomeIsHopeless(Effect(c, s));
    } else {
      OutcomeIsHopeless(s);
    }
  }

  /** A workflow that has been cancelled before its final update never stores the generation. */
  lemma {:induction false} CancelledIsNeverStored(c: Config, run: seq<State>, events: seq<Event>, i: nat, j: nat)
    requires Run(c, run, events) && i < j < |run|
    requires events[i].Cancel? && run[i].row.status.Pending() && !run[i].pc.Finalise?
    ensures run[j].cancelled && !run[j].row.status.Stored? && run[j].pc != Done(true)
    decreases j
  {
    if j > i + 1 {
      StaysCancelled(c, run, events, i, j);
    } else {
      InvAlways(c, run, events, i);
      RunStep(c, run, events, i);
      BecomesHopeless(c, run[i]);
    }
  }

  lemma BecomesHopeless(c: Config, s: State)
    requires Inv(s) && s.row.status.Pending() && !s.pc.Finalise?
    ensures Step(c, s, Cancel).cancelled && Hopeless(Step(c, s, Cancel))
  {
  }

  lemma {:induction false} StaysCancelled(c: Config, run: seq<State>, events: seq<Event>, i: nat, j: nat)
    requires Run(c, run, events) && i < j < |run|
    requires events[i].Cancel? && run[i].row.status.Pending() && !run[i].pc.Finalise?
    ensures run[j].cancelled && Hopeless(run[j])
    decreases j
  {
    hide Step, Enabled, Inv, Hopeless;
    InvAlways(c, run, events, j - 1);
    RunStep(c, run, events, j - 1);
    if j == i + 1 {
      BecomesHopeless(c, run[i]);
    } else {
      StaysCancelled(c, run, events, i, j - 1);
      HopelessStays(c, run[j - 1], events[j - 1]);
    }
  }

  /** An activity is attempted three times at most, a session five times. */
  predicate WithinLimits(pc: PC) {
    && (Tries(pc).Some? ==> Tries(pc).value < 3)
    && (pc.Session? || pc.Upload? ==> 1 <= pc.attempt <= 5)
  }

  lemma StepWithinLimits(c: Config, s: State, e: Event)
    requires Enabled(c, s, e) && WithinLimits(s.pc)
    ensures WithinLimits(Step(c, s, e).pc)
  {
    hide Commit, Renewed, CanTakeEffect;
    match e {
      case Attempt(_) =>
        AttemptWithinLimits(c, s, e);
        hide *;
      case _ =>
    }
  }

  lemma OutcomeWithinLimits(s: State)
    requires WithinLimits(s.pc) && Tries(s.pc).Some?
    ensures WithinLimits(Received(s).pc) && WithinLimits(Refused(s).pc)
    ensures Tries(s.pc).value < 2 ==> WithinLimits(Retried(s.pc))
  {
  }

  lemma EffectKeepsPlace(c: Config, s: State)
    requires CanTakeEffect(c, s)
    ensures Effect(c, s).pc == s.pc
  {
    hide Commit;
  }

  lemma AttemptWithinLimits(c: Config, s: State, e: Event)
    requires Enabled(c, s, e) && WithinLimits(s.pc) && e.Attempt?
    ensures WithinLimits(Step(c, s, e).pc)
  {
    hide Effect, CanTakeEffect, Received, Refused, Retried, Tries, WithinLimits;
    if e.outcome.Acked? || e.outcome.effect {
      EffectKeepsPlace(c, s);
      OutcomeWithinLimits(Effect(c, s));
    } else {
      OutcomeWithinLimits(s);
    }
  }

  lemma {:induction false} AlwaysWithinLimits(c: Config, run: seq<State>, events: seq<Event>, i: nat)
    requires Run(c, run, events) && i < |run|
    ensures WithinLimits(run[i].pc)
    decreases i
  {
    if i > 0 {
      AlwaysWithinLimits(c, run, events, i - 1);
      RunStep(c, run, events, i - 1);
      hide Run, Step, Enabled, WithinLimits;
      StepWithinLimits(c, run[i - 1], events[i - 1]);
    }
  }

  /** And these limits are used: before the last attempt or session, a lost one is followed by another. */
  lemma LimitsAreReached(c: Config, s: State)
    ensures Tries(s.pc).Some? ==>
      (Enabled(c, s, Attempt(Lost(false, false))) <==> Tries(s.pc).value < 2)
    ensures Enabled(c, s, Attempt(Lost(false, false))) ==>
      Tries(Step(c, s, Attempt(Lost(false, false))).pc) == Some(Tries(s.pc).value + 1)
    ensures s.pc.Session? || s.pc.Upload? ==>
      && Enabled(c, s, SessionLost(false))
      && Step(c, s, SessionLost(false)).pc == if !s.cancelled && s.pc.attempt < 5 then Session(s.pc.attempt + 1) else Finalise(0)
  {
  }

  /** What the rest of the world does: it passes time, renews and cancels, and nothing else. */
  lemma RestOfTheWorld(c: Config, s: State, d: nat)
    ensures Enabled(c, s, Tick(d)) && Step(c, s, Tick(d)) == s.(now := s.now + d)
    ensures Enabled(c, s, Cancel) && Step(c, s, Cancel) == s.(cancelled := true)
    ensures Enabled(c, s, Renewal(d))
    ensures var s', r := Step(c, s, Renewal(d)), s.row;
            s'.row == if r.status == Stored && r.expiresAt.Some? && s.now < r.expiresAt.value && (d == 0 || r.expiresAt.value < s.now + d)
                      then r.(expiresAt := if d == 0 then None else Some(s.now + d)) else r
  {
  }

  /** What the workflow does with the record that a deletion request returned. */
  lemma DecisionMeans(c: Config, s: State)
    requires s.pc.Decide?
    ensures Enabled(c, s, Proceed)
    ensures var seen, s' := s.pc.seen, Step(c, s, Proceed);
            if seen.status == Deleted || seen.status == Failed then s' == s.(pc := ExpireDelete(0))
            else if seen.status != Stored then s' == s.(pc := Done(false))
            else if seen.expiresAt.None? then s' == s.(pc := Done(true))
            else if s.now < seen.expiresAt.value then s' == s.(pc := Wait(seen.expiresAt.value))
            else s' == s.(pc := Claim(0), claims := s.claims + 1)
  {
  }
}
