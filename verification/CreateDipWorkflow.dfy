/**
  The workflow code itself (internal/dips/workflows/create_dip.go): the session loop, the deferred final
  update, and the retention loop, each operation one or more steps of the system in module CreateDip, with
  the rest of the world running in between. Every run of the code is therefore a run of that system.
*/
module CreateDipWorkflow {
  import opened Wrappers
  import opened DipRow
  import opened CreateDip
  import opened CreateDipSafety

  /** What the rest of the world cannot touch: the workflow's own state and the bucket. */
  predicate SameWorkflow(a: State, b: State) {
    b == a.(row := b.row, now := b.now, cancelled := b.cancelled, renewals := b.renewals)
  }

  /** The same activity is pending, possibly after further attempts. */
  predicate SameActivity(a: PC, b: PC) {
    match a
    case Begin(_) => b.Begin?
    case Upload(n, _) => b.Upload? && b.attempt == n
    case Finalise(_) => b.Finalise?
    case UndoDelete(_) => b.UndoDelete?
    case UndoClear(_) => b.UndoClear?
    case Claim(_) => b.Claim?
    case ExpireDelete(_) => b.ExpireDelete?
    case ExpireClear(_) => b.ExpireClear?
    case _ => false
  }

  /** How attempts of the pending activity change the state of the workflow: not at all. */
  predicate Attempted(a: State, b: State) {
    && SameActivity(a.pc, b.pc)
    && b.key == a.key && b.failed == a.failed && b.acknowledged == a.acknowledged
    && b.claims == a.claims && a.renewals <= b.renewals
    && (a.cancelled ==> b.cancelled)
  }

  class World {
    const c: Config
    const limit: nat      // how often the API changes the expiry of this record, in all
    const calm: bool      // nothing is lost or fails, and nobody cancels
    var s: State
    ghost var run: seq<State>
    ghost var events: seq<Event>

    constructor (c: Config, limit: nat, calm: bool, s: State)
      requires Init(s) && (calm ==> !s.cancelled)
      ensures Valid() && this.c == c && this.limit == limit && this.calm == calm && this.s == s
    {
      this.c, this.limit, this.calm, this.s := c, limit, calm, s;
      run, events := [s], [];
    }

    /** `run` records everything that happened, and it is a run of the step system. */
    ghost predicate Valid()
      reads this
    {
      Run(c, run, events) && run[|run| - 1] == s && s.renewals <= limit && (calm ==> !s.cancelled)
    }

    /** The invariants of the step system hold in the current state. */
    lemma Known()
      requires Valid()
      ensures Inv(s) && ClaimInv(s) && s.claims <= s.renewals + 2
    {
      InvAlways(c, run, events, |run| - 1);
      ClaimInvAlways(c, run, events, |run| - 1);
      RequestsArePaidForByRenewals(c, run, events, |run| - 1);
    }

    method Do(e: Event)
      requires Valid() && Enabled(c, s, e) && (e.Renewal? ==> s.renewals < limit) && (calm ==> !e.Cancel?)
      modifies this
      ensures Valid() && s == Step(c, old(s), e) && old(run) <= run
    {
      hide Run;
      ghost var before := s;
      s := Step(c, s, e);
      assert s.renewals <= limit && (s.cancelled ==> before.cancelled || e.Cancel?) by {
        RenewalsOfStep(c, before, e);
      }
      Extend(c, run, events, e, s);
      run, events := run + [s], events + [e];
    }

    /** The API, the clock and the operator act any number of times. */
    method Interfere()
      requires Valid()
      modifies this
      ensures Valid() && SameWorkflow(old(s), s) && old(run) <= run
      ensures old(s.renewals) <= s.renewals && old(s.now) <= s.now && (old(s.cancelled) ==> s.cancelled)
      ensures s.row.uuid == old(s.row.uuid)
    {
      var n: nat :| n >= 0;
      for i := 0 to n
        invariant Valid() && SameWorkflow(old(s), s) && old(run) <= run
        invariant old(s.renewals) <= s.renewals && old(s.now) <= s.now && (old(s.cancelled) ==> s.cancelled)
        invariant s.row.uuid == old(s.row.uuid)
      {
        var d: nat :| d >= 0;
        var kind: bool, renew: bool := *, *;
        if renew && s.renewals < limit {
          Do(Renewal(d));
        } else if kind || calm {
          Do(Tick(d));
        } else {
          Do(Cancel);
        }
      }
    }

    /**
      ExecuteActivity(...).Get(...): attempts until one is acknowledged or an error is reported. `at` is the
      state in which the outcome was reached; its record is the result of an acknowledged update.
    */
    method ExecuteActivity() returns (ok: bool, ghost at: State)
      requires Valid() && Tries(s.pc) == Some(0)
      modifies this
      ensures Valid() && old(run) <= run
      ensures Attempted(old(s), at)
      ensures s == if ok then Received(at) else Refused(at)
      ensures calm ==> ok
    {
      hide Run, Inv, ClaimInv, Effect, Received, Refused, CanTakeEffect;
      at := s;
      var tries := 0;
      while true
        invariant Valid() && old(run) <= run
        invariant Tries(s.pc) == Some(tries) && tries < MAX_ACTIVITY_ATTEMPTS
        invariant Attempted(old(s), s)
        decreases MAX_ACTIVITY_ATTEMPTS - tries
      {
        Interfere();
        Known();
        AttemptIsPossible(c, s);
        var acked: bool, effect: bool, reported: bool := *, *, *;
        EffectKeepsWorkflow(c, s);
        if acked || calm {
          at := Effect(c, s);
          Do(Attempt(Acked));
          return true, at;
        }
        at := if effect then Effect(c, s) else s;
        if reported || tries + 1 >= MAX_ACTIVITY_ATTEMPTS {
          Do(Attempt(Lost(effect, true)));
          return false, at;
        }
        Do(Attempt(Lost(effect, false)));
        tries := tries + 1;
      }
    }

    /** ctx.Err() != nil after an arbitrary wait. */
    method Cancelled() returns (yes: bool)
      requires Valid()
      modifies this
      ensures Valid() && SameWorkflow(old(s), s) && old(run) <= run
      ensures yes == s.cancelled && old(s.now) <= s.now && s.row.uuid == old(s.row.uuid)
    {
      Interfere();
      yes := s.cancelled;
    }

    /** Sleep until `until`, unless the workflow is cancelled first. */
    method Sleep(until: int) returns (ok: bool)
      requires Valid() && s.pc == Wait(until)
      modifies this
      ensures Valid() && SameWorkflow(old(s), s) && old(run) <= run
      ensures if ok then s.now >= until else s.cancelled
    {
      var cancelled := Cancelled();
      if cancelled {
        return false;
      }
      if s.now < until {
        Do(Tick(until - s.now));
      }
      return true;
    }

    /** sessionHandler in its session: true for no error, and whether an error came from losing the session. */
    method Attend(attempt: nat) returns (ok: bool, lost: bool)
      requires Valid() && s.pc == Session(attempt)
      modifies this
      ensures Valid() && old(run) <= run && (ok ==> !lost)
      ensures if lost && !s.cancelled && attempt < MAX_SESSIONS then s.pc == Session(attempt + 1)
              else s.pc == Finalise(0) && (s.failed <==> !ok || s.cancelled)
      ensures calm ==> ok
    {
      hide Run, Step, Enabled;
      Interfere();
      Moves(c, s);
      var prepared: bool;
      ok, lost, prepared := false, *, *;
      lost, prepared := lost && !calm, prepared || calm;
      if !prepared {
        if lost {
          Do(SessionLost(false));
        } else {
          Do(Fail);
        }
        return;
      }
      // The key is tracked before the upload, so that cleanup also covers an uncertain result.
      Do(Proceed);
      if lost {
        var effect: bool := *;
        Interfere();
        Moves(c, s);
        Do(SessionLost(effect));
      } else {
        ghost var at;
        ok, at := ExecuteActivity();
      }
    }

    /** The work between the first update and the deferred function; true when it returned no error. */
    method Generate() returns (ok: bool)
      requires Valid() && s.pc == Lookup
      modifies this
      ensures Valid() && old(run) <= run
      ensures s.pc == Finalise(0) && (s.failed <==> !ok || s.cancelled)
      ensures calm ==> ok
    {
      hide Run, Step, Enabled;
      Interfere();
      var found: bool := *;
      Moves(c, s);
      if !found && !calm {
        Do(Fail);
        return false;
      }
      Do(Proceed);
      var attempt, lost := 1, true;
      ok := false;
      while attempt <= MAX_SESSIONS && lost
        invariant Valid() && old(run) <= run && (lost ==> !ok)
        invariant calm ==> (ok || (lost && attempt <= MAX_SESSIONS))
        invariant if lost && attempt <= MAX_SESSIONS then s.pc == Session(attempt) && attempt >= 1
                  else s.pc == Finalise(0) && (s.failed <==> !ok || s.cancelled)
        decreases MAX_SESSIONS + 1 - attempt, lost
      {
        ok, lost := Attend(attempt);
        if lost && s.cancelled {
          return false;
        }
        attempt := attempt + 1;
      }
    }

    /** deleteDIP after the final update of a failed generation; its own result is only joined to the error. */
    method UndoUpload()
      requires Valid() && s.pc == UndoDelete(0)
      modifies this
      ensures Valid() && old(run) <= run && s.pc == Done(false)
    {
      var ok, at := ExecuteActivity();
      if ok {
        ok, at := ExecuteActivity();
      }
    }

    /** One deletion request: None for an error, otherwise the record it returned. */
    method RequestDeletion() returns (seen: Option<Row>)
      requires Valid() && s.pc == Claim(0)
      modifies this
      ensures Valid() && old(run) <= run
      ensures match seen
              case None => s.pc == Done(false)
              case Some(row) =>
                if row.status.Deleted? || row.status.Failed? then s.pc == ExpireDelete(0)
                else if !row.status.Stored? then s.pc == Done(false)
                else if row.expiresAt.None? then s.pc == Done(true)
                else s.pc == Wait(row.expiresAt.value) || s.pc == Claim(0)
      ensures calm ==> seen.Some? && (seen.value.status.Stored? || seen.value.status.Deleted?)
      ensures s.claims == old(s.claims) + (if s.pc == Claim(0) then 1 else 0)
    {
      hide Run, Step, Enabled;
      var claimed, at := ExecuteActivity();
      if !claimed {
        return None;
      }
      seen := Some(s.pc.seen);
      Known();
      ClaimedRecord(s);
      Interfere();
      Moves(c, s);
      Do(Proceed);
    }

    /** deleteDIPAfterRetention: request deletion, and wait for the expiry that the request returns. */
    method DeleteAfterRetention() returns (ok: bool)
      requires Valid() && s.pc == Claim(0)
      modifies this
      ensures Valid() && old(run) <= run && s.pc == Done(ok)
      ensures calm ==> ok
    {
      hide Run, Step, Enabled, Inv, ClaimInv;
      while true
        invariant Valid() && old(run) <= run && s.pc == Claim(0)
        decreases limit + 2 - s.claims
      {
        ghost var claims := s.claims;
        var seen := RequestDeletion();
        if seen.None? {
          return false;
        }
        var row := seen.value;
        if row.status == Deleted || row.status == Failed {
          ok := DeleteExpired();
          return;
        } else if row.status != Stored {
          return false;
        } else if row.expiresAt.None? {
          return true;
        }
        if s.pc.Wait? {
          var slept := Sleep(row.expiresAt.value);
          Moves(c, s);
          if !slept {
            Do(Fail);
            return false;
          }
          Do(Proceed);
        }
        Known();
      }
    }

    /** deleteDIP of an expired generation: the object first, then its key. */
    method DeleteExpired() returns (ok: bool)
      requires Valid() && s.pc == ExpireDelete(0)
      modifies this
      ensures Valid() && old(run) <= run && s.pc == Done(ok)
      ensures calm ==> ok
    {
      ghost var at;
      ok, at := ExecuteActivity();
      if ok {
        ok, at := ExecuteActivity();
      }
    }

    /**
      Execute, from the first update to the deferred function. When it returns without an error, the
      generation is either kept for good or deleted with its object, and it asked for deletion at most twice
      plus once per renewal.
    */
    method Execute() returns (ok: bool)
      requires Valid() && run == [s]
      modifies this
      ensures Valid() && old(run) <= run && s.pc == Done(ok)
      ensures ok && s.row.status.Stored? ==> s.row.expiresAt.None? && s.row.objectKey in s.bucket
      ensures ok && !s.row.status.Stored? ==> s.row.status.Deleted? && s.row.objectKey == "" && !HasObject(s)
      ensures s.claims <= s.renewals + 2
      // When nothing is lost, fails or is cancelled, it succeeds.
      ensures calm ==> ok
    {
      var ok1, at := ExecuteActivity();
      if ok1 {
        ok1 := Generate();
      }
      // The deferred function: cancellation is an error, too.
      var failed := !ok1 || s.cancelled;
      assert failed == s.failed;
      var saved;
      saved, at := ExecuteActivity();
      if !saved || failed {
        if s.key != "" {
          UndoUpload();
        }
        ok := false;
      } else {
        ok := DeleteAfterRetention();
      }
      Known();
    }
  }

  lemma ClaimedRecord(s: State)
    requires Inv(s) && s.pc.Decide?
    ensures s.pc.seen.status.Stored? || s.pc.seen.status.Deleted?
  {
  }

  lemma RenewalsOfStep(c: Config, s: State, e: Event)
    requires Enabled(c, s, e)
    ensures Step(c, s, e).renewals <= s.renewals + (if e.Renewal? then 1 else 0)
    ensures Step(c, s, e).cancelled ==> s.cancelled || e.Cancel?
    ensures Step(c, s, e).row.uuid == s.row.uuid
  {
    StepOnRecord(c, s, e);
    hide Commit, Renewed, CanTakeEffect, Received, Refused;
    match e {
      case Attempt(o) =>
        var s1 := if o.Acked? || o.effect then Effect(c, s) else s;
        assert s1.renewals == s.renewals;
        OutcomeKeepsRenewals(s1);
      case _ =>
    }
  }

  lemma OutcomeKeepsRenewals(s: State)
    ensures Received(s).renewals == s.renewals && Refused(s).renewals == s.renewals
    ensures Received(s).cancelled == s.cancelled && Refused(s).cancelled == s.cancelled
  {
  }

  /** An update of a known record with valid parameters is never rejected. */
  lemma AttemptIsPossible(c: Config, s: State)
    requires Inv(s) && Tries(s.pc).Some?
    ensures CanTakeEffect(c, s)
  {
    assert |KeyOf(s.row.uuid)| > 0;
  }

  lemma EffectKeepsWorkflow(c: Config, s: State)
    requires Tries(s.pc).Some? && CanTakeEffect(c, s)
    ensures var s' := Effect(c, s); s' == s.(row := s'.row, bucket := s'.bucket)
  {
  }

  /** The steps that the workflow code takes on its own, one program counter at a time. */
  lemma Moves(c: Config, s: State)
    ensures s.pc.Lookup? ==>
              && Enabled(c, s, Fail) && Step(c, s, Fail) == Deferred(s, true)
              && Enabled(c, s, Proceed) && Step(c, s, Proceed) == s.(pc := Session(1))
    ensures s.pc.Session? ==>
              && Enabled(c, s, Fail) && Step(c, s, Fail) == Deferred(s, true)
              && Enabled(c, s, Proceed) && Step(c, s, Proceed) == s.(key := KeyOf(s.row.uuid), pc := Upload(s.pc.attempt, 0))
              && Enabled(c, s, SessionLost(false)) && Step(c, s, SessionLost(false)) == Restarted(s, s.pc.attempt)
    ensures s.pc.Upload? ==>
              forall effect :: Enabled(c, s, SessionLost(effect)) &&
                Step(c, s, SessionLost(effect)) == Restarted(s.(bucket := if effect then s.bucket + {s.key} else s.bucket), s.pc.attempt)
    ensures s.pc.Decide? ==> Enabled(c, s, Proceed) && Step(c, s, Proceed) == Decided(s, s.pc.seen)
    ensures s.pc.Wait? && s.cancelled ==> Enabled(c, s, Fail) && Step(c, s, Fail) == s.(pc := Done(false))
    ensures s.pc.Wait? && s.now >= s.pc.until ==> Enabled(c, s, Proceed) && Step(c, s, Proceed) == Request(s)
  {
  }

  lemma Extend(c: Config, run: seq<State>, events: seq<Event>, e: Event, s: State)
    requires Run(c, run, events) && Enabled(c, run[|run| - 1], e) && s == Step(c, run[|run| - 1], e)
    ensures Run(c, run + [s], events + [e])
  {
    hide Step, Enabled;
  }
}
