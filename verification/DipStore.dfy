/**
  The DIP table and its two transactions, RequestDIP and UpdateDIP
  (internal/dips/persistence/ent/client/dip.go). Each locks the records it reads, so a run of the
  service is a sequence of them.
*/
module DipStore {
  import opened Wrappers
  import opened DipRow

  type Table = map<string, Row>

  datatype StoreError = NotValid | NotFound | Unavailable   // the last: any error of the database

  datatype Request = Request(uuid: string, docKey: string, ignoreCache: bool, retention: int)

  /** Rows are stored under their own identifier. */
  predicate Keyed(t: Table) {
    forall id :: id in t ==> t[id].uuid == id
  }

  /** The records that the locking query of RequestDIP returns. */
  predicate Candidate(t: Table, docKey: string, id: string) {
    id in t && t[id].docKey == docKey && (t[id].status.Pending() || t[id].status.Stored?)
  }

  /** `ids` lists the candidates once each, newest first: what the database promises of the query. */
  ghost predicate QueryResult(t: Table, docKey: string, ids: seq<string>) {
    && (forall i :: 0 <= i < |ids| ==> Candidate(t, docKey, ids[i]))
    && (forall id :: Candidate(t, docKey, id) ==> id in ids)
    && (forall i, j :: 0 <= i < j < |ids| ==> ids[i] != ids[j])
    && (forall i, j :: 0 <= i < j < |ids| ==> t[ids[i]].createdAt >= t[ids[j]].createdAt)
  }

  /** A candidate that the request can be answered with. */
  predicate Usable(t: Table, req: Request, now: int, id: string) {
    && Candidate(t, req.docKey, id)
    && (t[id].status.Stored? ==> !req.ignoreCache && !Expired(t[id], now))
  }

  predicate Acceptable(req: Request) {
    req.uuid != "" && req.docKey != "" && req.retention >= 0
  }

  /** A new generation as it enters the table. */
  function NewRow(req: Request, now: int): Row {
    Row(req.uuid, req.docKey, Queued, "", now, None, None, None, "", "")
  }

  /** `id` is the answer to the request: the newest usable candidate. */
  ghost predicate NewestUsable(t: Table, req: Request, now: int, id: string) {
    && Usable(t, req, now, id)
    && forall other :: Usable(t, req, now, other) ==> t[other].createdAt <= t[id].createdAt
  }

  /** What makes a record usable, in terms of its fields. */
  lemma UsableMeans(t: Table, req: Request, now: int, id: string)
    ensures Usable(t, req, now, id)
            <==> && id in t && t[id].docKey == req.docKey
                 && (t[id].status == Queued || t[id].status == InProgress
                     || (t[id].status == Stored && !req.ignoreCache && (t[id].expiresAt.None? || now < t[id].expiresAt.value)))
  {
  }

  class Database {
    var table: Table
    /** A reliable database reports no errors of its own. */
    const reliable: bool

    constructor (reliable: bool)
      ensures table == map[] && this.reliable == reliable
    {
      this.reliable := reliable;
      table := map[];
    }

    /** A transaction is committed, or not; either way that may be reported as an error. */
    method Commit(after: Table) returns (ok: bool)
      modifies this`table
      ensures table == after || (!ok && table == old(table))
      ensures reliable ==> ok
    {
      var fault: bool := *;
      ok := reliable || !fault;
      var committed: bool := *;
      if ok || committed {
        table := after;
      }
    }

    /** A query, an insertion or an update before the commit fails; the transaction is rolled back. */
    method Fails() returns (yes: bool)
      ensures reliable ==> !yes
    {
      yes := *;
      yes := yes && !reliable;
    }

    /** `ids` is the answer of the locking query; `now` is read after the locks are held. */
    method RequestDIP(req: Request, ids: seq<string>, now: int) returns (r: Result<Row, StoreError>)
      requires Keyed(table) && QueryResult(table, req.docKey, ids)
      modifies this
      ensures r != Err(NotValid) ==> req.uuid != "" && req.docKey != "" && req.retention >= 0
      ensures r == Err(NotValid) ==>
                table == old(table) && (!Acceptable(req) || ((forall id :: !Usable(old(table), req, now, id)) && req.uuid in old(table)))
      ensures reliable ==>
                (r.Err? <==> !Acceptable(req) || ((forall id :: !Usable(old(table), req, now, id)) && req.uuid in old(table)))
      // An error of the database: nothing has changed, or the request was committed all the same.
      ensures r.Err? && r != Err(NotValid) ==>
                && r == Err(Unavailable) && !reliable
                && (|| table == old(table)
                    || (exists id :: NewestUsable(old(table), req, now, id) && table == old(table)[id := Renewed(old(table)[id], req.retention, now)])
                    || ((forall id :: !Usable(old(table), req, now, id)) && table == old(table)[req.uuid := NewRow(req, now)]))
      // Reuse: the newest usable record, with its expiry renewed, and nothing else changed.
      ensures r.Ok? && (exists id :: Usable(old(table), req, now, id)) ==>
                && NewestUsable(old(table), req, now, r.value.uuid)
                && r.value == Renewed(old(table)[r.value.uuid], req.retention, now)
                && table == old(table)[r.value.uuid := r.value]
      // In terms of the record as it was, the newest that is usable: stored for good with no retention, otherwise until the later of the two times.
      ensures r.Ok? && r.value.uuid in old(table) ==>
                var was := old(table)[r.value.uuid];
                && (forall other :: Usable(old(table), req, now, other) ==> old(table)[other].createdAt <= was.createdAt)
                && (was.status != Stored || was.expiresAt.None? ==> r.value == was)
                && (was.status == Stored && was.expiresAt.Some? ==>
                      r.value == was.(expiresAt :=
                        if req.retention == 0 then None
                        else if was.expiresAt.value < now + req.retention then Some(now + req.retention)
                        else was.expiresAt))
      // A new generation has only its names and its time.
      ensures r.Ok? && r.value.uuid !in old(table) ==>
                r.value == Row(req.uuid, req.docKey, Queued, "", now, None, None, None, "", "")
      // Creation: a queued record under the fresh identifier.
      ensures r.Ok? && (forall id :: !Usable(old(table), req, now, id)) ==>
                && r.value == NewRow(req, now)
                && table == old(table)[req.uuid := r.value]
    {
      if req.uuid == "" || req.docKey == "" || req.retention < 0 {
        return Err(NotValid);
      }
      var failed := Fails();
      if failed {
        return Err(Unavailable);
      }
      var selected: Option<Row> := None;
      for i := 0 to |ids|
        invariant selected.None?
        invariant forall j :: 0 <= j < i ==> !Usable(table, req, now, ids[j])
      {
        var d := table[ids[i]];
        if d.status == Stored && (req.ignoreCache || (d.expiresAt.Some? && !(d.expiresAt.value > now))) {
          continue;
        }
        selected := Some(d);
        assert Usable(table, req, now, ids[i]);
        forall other | Usable(table, req, now, other)
          ensures table[other].createdAt <= d.createdAt
        {
          var k :| 0 <= k < |ids| && ids[k] == other;
        }
        break;
      }
      if selected.Some? {
        var d := selected.value;
        if d.status == Stored && d.expiresAt.Some? {
          var next := now + req.retention;
          if req.retention == 0 || next > d.expiresAt.value {
            d := d.(expiresAt := if req.retention == 0 then None else Some(next));
            failed := Fails();
            if failed {
              return Err(Unavailable);
            }
            assert NewestUsable(table, req, now, d.uuid) && d == Renewed(table[d.uuid], req.retention, now);
            var ok := Commit(table[d.uuid := d]);
            return if ok then Ok(d) else Err(Unavailable);
          }
        }
        failed := Fails();
        return if failed then Err(Unavailable) else Ok(d);
      }
      if req.uuid in table {
        return Err(NotValid);
      }
      failed := Fails();
      if failed {
        return Err(Unavailable);
      }
      var created := NewRow(req, now);
      var ok := Commit(table[req.uuid := created]);
      if !ok {
        // The generation may be in the table; then its workflow must be started, so it is looked up.
        failed := Fails();
        return if !failed && req.uuid in table then Ok(table[req.uuid]) else Err(Unavailable);
      }
      return Ok(created);
    }

    /** The record is locked, updated in memory and saved field by field. */
    method UpdateDIP(id: string, p: UpdateParams, now: int) returns (r: Result<Row, StoreError>)
      modifies this
      ensures r == Err(NotFound) ==> id !in old(table)
      ensures r == Err(NotValid) ==> id in old(table) && DipRow.Commit(old(table)[id], p, now).None?
      ensures r == Err(Unavailable) ==> !reliable
      ensures r.Ok? ==>
                && id in old(table) && DipRow.Commit(old(table)[id], p, now).Some?
                && r.value == DipRow.Commit(old(table)[id], p, now).value && table == old(table)[id := r.value]
      // An error leaves the table alone, except that of a commit that took effect.
      ensures r.Err? ==>
                || table == old(table)
                || (&& r == Err(Unavailable) && id in old(table) && DipRow.Commit(old(table)[id], p, now).Some?
                    && table == old(table)[id := DipRow.Commit(old(table)[id], p, now).value])
    {
      var failed := Fails();
      if failed {
        return Err(Unavailable);
      }
      if id !in table {
        return Err(NotFound);
      }
      var d := table[id];
      hide Updated;
      var up := new DIP(d);
      var ok := up.Update(p, now);
      if !ok {
        return Err(NotValid);
      }
      var q := d.(status := up.status);
      if up.errorMessage != "" {
        q := q.(errorMessage := up.errorMessage);
      }
      if up.startedAt.Some? {
        q := q.(startedAt := up.startedAt);
      }
      if up.completedAt.Some? {
        q := q.(completedAt := up.completedAt);
      }
      if up.expiresAt.Some? && (d.expiresAt.None? || up.expiresAt.value > d.expiresAt.value) {
        q := q.(expiresAt := up.expiresAt);
      }
      if up.workflowId != "" {
        q := q.(workflowId := up.workflowId);
      }
      q := q.(objectKey := up.objectKey);
      assert q == Saved(d, up.Value());
      hide Saved;
      failed := Fails();
      if failed {
        return Err(Unavailable);
      }
      var saved := Commit(table[id := q]);
      return if saved then Ok(q) else Err(Unavailable);
    }
  }

  /** The two transactions as table transitions. `id` is the record a request was answered with. */
  datatype Transaction =
    | Reuse(req: Request, id: string, at: int)
    | Create(req: Request, at: int)
    | Change(id: string, p: UpdateParams, at: int)

  /** When RequestDIP and UpdateDIP commit the transaction. */
  ghost predicate Commits(t: Table, x: Transaction) {
    match x
    case Reuse(req, id, now) => Acceptable(req) && NewestUsable(t, req, now, id)
    case Create(req, now) => Acceptable(req) && req.uuid !in t && forall id :: !Usable(t, req, now, id)
    case Change(id, p, now) => id in t && Commit(t[id], p, now).Some?
  }

  function After(t: Table, x: Transaction): Table
    requires x.Reuse? ==> x.id in t && x.req.retention >= 0
    requires x.Change? ==> x.id in t && Commit(t[x.id], x.p, x.at).Some?
  {
    match x
    case Reuse(req, id, now) => t[id := Renewed(t[id], req.retention, now)]
    case Create(req, now) => t[req.uuid := NewRow(req, now)]
    case Change(id, p, now) => t[id := Commit(t[id], p, now).value]
  }

  /** A run of the service: every transaction commits in the table the previous ones left. */
  ghost predicate ServiceRun(t: Table, xs: seq<Transaction>, t': Table)
    decreases |xs|
  {
    if xs == [] then t' == t
    else Commits(t, xs[0]) && ServiceRun(After(t, xs[0]), xs[1..], t')
  }

  /** No document has two generations that are still to be completed. */
  predicate OnePendingPerDocument(t: Table) {
    forall a, b :: a in t && b in t && t[a].status.Pending() && t[b].status.Pending() && t[a].docKey == t[b].docKey ==> a == b
  }

  /**
    Whatever requests and updates arrive, with or without the cache, a document never gets a second
    pending generation, and no record disappears or changes its document.
  */
  lemma {:induction false} NeverTwoPendingGenerations(t: Table, xs: seq<Transaction>, t': Table)
    requires Keyed(t) && OnePendingPerDocument(t) && ServiceRun(t, xs, t')
    ensures Keyed(t') && OnePendingPerDocument(t')
    ensures forall id :: id in t ==> id in t' && t'[id].docKey == t[id].docKey && t'[id].createdAt == t[id].createdAt
    decreases |xs|
  {
    if xs != [] {
      var t1 := After(t, xs[0]);
      OneTransactionKeepsOnePending(t, xs[0]);
      NeverTwoPendingGenerations(t1, xs[1..], t');
    }
  }

  lemma OneTransactionKeepsOnePending(t: Table, x: Transaction)
    requires Keyed(t) && OnePendingPerDocument(t) && Commits(t, x)
    ensures Keyed(After(t, x)) && OnePendingPerDocument(After(t, x))
    ensures forall id :: id in t ==>
              id in After(t, x) && After(t, x)[id].docKey == t[id].docKey && After(t, x)[id].createdAt == t[id].createdAt
  {
    if x.Create? {
      forall id | id in t && t[id].docKey == x.req.docKey
        ensures !t[id].status.Pending()
      {
        assert !Usable(t, x.req, x.at, id);
      }
    }
  }

  /** A record in a service run only ever goes through updates and renewals. */
  lemma {:induction false} RecordsMoveByUpdateAndRenewal(t: Table, xs: seq<Transaction>, t': Table, id: string)
    returns (actions: seq<RowAction>)
    requires Keyed(t) && id in t && ServiceRun(t, xs, t')
    ensures id in t' && RowRun(t[id], actions) == t'[id]
    decreases |xs|
  {
    actions := [];
    if xs != [] {
      var x := xs[0];
      var rest := RecordsMoveByUpdateAndRenewal(After(t, x), xs[1..], t', id);
      if x.Reuse? && x.id == id {
        actions := [Renew(x.req.retention, x.at)] + rest;
      } else if x.Change? && x.id == id {
        actions := [Update(x.p, x.at)] + rest;
      } else {
        actions := rest;
      }
      if actions != rest {
        assert actions[1..] == rest;
      }
    }
  }
}
