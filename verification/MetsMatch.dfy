/**
  Finding the content files in the METS files of the AIPs (internal/dips/activities/parse_metadata.go):
  a shared, shrinking map of unmatched files, two early exits, first match wins.
*/
module MetsMatch {
  import opened Wrappers
  import opened Xml
  import opened Paths

  const PREMIS := "http://www.loc.gov/premis/v3"
  const TRANSFER := "%transferDirectory%"

  /** A METS file that cannot be opened is None; one that turns out malformed does not end in EOF. */
  datatype Mets = Mets(tokens: seq<Token>, eof: bool)

  datatype AIP = AIP(uuid: string, dirName: string, mets: Option<Mets>)

  /** datatypes.File: the source fields are filled in through pointers. */
  class DipEntry {
    const dateiId: string
    const dipPath: string
    var aipUuid: string
    var aipPath: string

    constructor (dateiId: string, dipPath: string)
      ensures this.dateiId == dateiId && this.dipPath == dipPath && aipUuid == "" && aipPath == ""
    {
      this.dateiId, this.dipPath, aipUuid, aipPath := dateiId, dipPath, "", "";
    }
  }

  datatype Identifier = Identifier(kind: string, value: string)

  datatype PremisObject = PremisObject(identifiers: seq<Identifier>, originalName: string)

  function DecodedIdentifiers(ns: seq<Node>): seq<Identifier> {
    if ns == [] then []
    else if ns[0].Elem? && ns[0].local == "objectIdentifier" then
      [Identifier(TextOf(ns[0].kids, "objectIdentifierType", ""), TextOf(ns[0].kids, "objectIdentifierValue", ""))]
      + DecodedIdentifiers(ns[1..])
    else DecodedIdentifiers(ns[1..])
  }

  function DecodedObject(kids: seq<Node>): PremisObject {
    PremisObject(DecodedIdentifiers(kids), TextOf(kids, "originalName", ""))
  }

  function TrimPrefix(s: string, prefix: string): string {
    if prefix <= s then s[|prefix|..] else s
  }

  // What can be found

  /** A local identifier of an object in an AIP, and where the object's file is. */
  datatype Hit = Hit(id: string, aipUuid: string, aipPath: string)

  function IdentifierHits(ids: seq<Identifier>, uuid: string, path: string): seq<Hit> {
    if ids == [] then []
    else (if ids[0].kind == "local" then [Hit(ids[0].value, uuid, path)] else []) + IdentifierHits(ids[1..], uuid, path)
  }

  /** Objects without a name are skipped. */
  function ObjectHits(o: PremisObject, aip: AIP): seq<Hit> {
    var name := TrimPrefix(o.originalName, TRANSFER);
    if name == "" then [] else IdentifierHits(o.identifiers, aip.uuid, Join([aip.dirName, name]))
  }

  predicate StartsObject(t: Token) {
    t.Start? && t.space == PREMIS && t.local == "object"
  }

  /** The hits in a stream before it ends, and whether it ends properly. */
  function StreamHits(ts: seq<Token>, eof: bool, aip: AIP): (seq<Hit>, bool)
    decreases |ts|
  {
    if ts == [] then ([], eof)
    else if StartsObject(ts[0]) then
      var taken := Taken(ts[1..]);
      if taken.None? then ([], false)
      else
        var rest := StreamHits(taken.value.1, eof, aip);
        (ObjectHits(DecodedObject(taken.value.0), aip) + rest.0, rest.1)
    else StreamHits(ts[1..], eof, aip)
  }

  function AipHits(aip: AIP): (seq<Hit>, bool) {
    if aip.mets.None? then ([], false) else StreamHits(aip.mets.value.tokens, aip.mets.value.eof, aip)
  }

  /** All hits in AIP order and document order, up to the first METS error. */
  function Hits(aips: seq<AIP>): seq<Hit> {
    if aips == [] then []
    else
      var first := AipHits(aips[0]);
      first.0 + (if first.1 then Hits(aips[1..]) else [])
  }

  predicate Unreadable(aips: seq<AIP>) {
    aips != [] && (!AipHits(aips[0]).1 || Unreadable(aips[1..]))
  }

  predicate Found(hits: seq<Hit>, id: string) {
    exists i :: 0 <= i < |hits| && hits[i].id == id
  }

  function FirstHit(hits: seq<Hit>, id: string): (h: Hit)
    requires Found(hits, id)
    ensures h.id == id && h in hits
  {
    if hits[0].id == id then hits[0]
    else
      assert exists i :: 0 <= i < |hits[1..]| && hits[1..][i] == hits[i + 1] && hits[i + 1].id == id by {
        var i :| 0 <= i < |hits| && hits[i].id == id;
        assert hits[1..][i - 1] == hits[i];
      }
      FirstHit(hits[1..], id)
  }

  /** Of a document, the hits are those of its outermost PREMIS objects, in document order. */
  function DocumentHits(ns: seq<Node>, aip: AIP): seq<Hit> {
    if ns == [] then [] else NodeHits(ns[0], aip) + DocumentHits(ns[1..], aip)
  }

  function NodeHits(n: Node, aip: AIP): seq<Hit> {
    match n
    case Elem(space, local, _, kids) =>
      if space == PREMIS && local == "object" then ObjectHits(DecodedObject(kids), aip) else DocumentHits(kids, aip)
    case _ => []
  }

  lemma {:induction false} StreamHitsOfDocument(ns: seq<Node>, rest: seq<Token>, eof: bool, aip: AIP)
    ensures StreamHits(Flat(ns) + rest, eof, aip) == (DocumentHits(ns, aip) + StreamHits(rest, eof, aip).0, StreamHits(rest, eof, aip).1)
    decreases ns
  {
    hide StreamHits, NodeHits;
    if ns == [] {
      assert Flat(ns) + rest == rest;
      assert [] + StreamHits(rest, eof, aip).0 == StreamHits(rest, eof, aip).0;
    } else {
      var tail := Flat(ns[1..]) + rest;
      assert Flat(ns) + rest == FlatNode(ns[0]) + tail;
      StreamHitsOfNode(ns[0], tail, eof, aip);
      StreamHitsOfDocument(ns[1..], rest, eof, aip);
      var first, others, last := NodeHits(ns[0], aip), DocumentHits(ns[1..], aip), StreamHits(rest, eof, aip).0;
      assert first + (others + last) == (first + others) + last;
    }
  }

  lemma {:induction false} StreamHitsOfNode(n: Node, tail: seq<Token>, eof: bool, aip: AIP)
    ensures StreamHits(FlatNode(n) + tail, eof, aip) == (NodeHits(n, aip) + StreamHits(tail, eof, aip).0, StreamHits(tail, eof, aip).1)
    decreases n
  {
    hide Flat, ObjectHits, DecodedObject, Taken;
    var ts := FlatNode(n) + tail;
    if n.Elem? {
      var after := [End(n.local)] + tail;
      assert ts[1..] == Flat(n.kids) + after && after[1..] == tail;
      if StartsObject(ts[0]) {
        TakenNodes(n.kids, n.local, tail);
      } else {
        StreamHitsOfDocument(n.kids, after, eof, aip);
      }
    } else {
      assert ts[1..] == tail;
      assert [] + StreamHits(tail, eof, aip).0 == StreamHits(tail, eof, aip).0;
    }
  }

  // The search

  lemma {:induction false} FirstHitConcat(a: seq<Hit>, b: seq<Hit>, id: string)
    ensures Found(a + b, id) <==> Found(a, id) || Found(b, id)
    ensures Found(a, id) ==> FirstHit(a + b, id) == FirstHit(a, id)
    ensures !Found(a, id) && Found(b, id) ==> FirstHit(a + b, id) == FirstHit(b, id)
    decreases |a|
  {
    if a == [] {
      assert a + b == b;
    } else {
      assert (a + b)[0] == a[0] && (a + b)[1..] == a[1..] + b;
      FirstHitConcat(a[1..], b, id);
      FoundCons(a, id);
      FoundCons(a + b, id);
    }
  }

  lemma FoundCons(a: seq<Hit>, id: string)
    requires a != []
    ensures Found(a, id) <==> a[0].id == id || Found(a[1..], id)
  {
    if Found(a, id) && a[0].id != id {
      var i :| 0 <= i < |a| && a[i].id == id;
      assert a[1..][i - 1] == a[i];
    }
    if Found(a[1..], id) {
      var i :| 0 <= i < |a[1..]| && a[1..][i].id == id;
      assert a[i + 1].id == id;
    }
  }

  lemma {:induction false} IdentifierHitsConcat(a: seq<Identifier>, b: seq<Identifier>, uuid: string, path: string)
    ensures IdentifierHits(a + b, uuid, path) == IdentifierHits(a, uuid, path) + IdentifierHits(b, uuid, path)
    decreases |a|
  {
    if a == [] {
      assert a + b == b;
    } else {
      assert (a + b)[0] == a[0] && (a + b)[1..] == a[1..] + b;
      IdentifierHitsConcat(a[1..], b, uuid, path);
    }
  }

  lemma WithNothing(hits: seq<Hit>)
    ensures hits + [] == hits
  {
  }

  lemma NothingBefore(hits: seq<Hit>)
    ensures [] + hits == hits
  {
  }

  lemma StartOf(a: seq<Hit>, b: seq<Hit>)
    ensures a <= a + b
  {
  }

  lemma HitsOfAip(aip: AIP)
    ensures AipHits(aip) == if aip.mets.None? then ([], false) else StreamHits(aip.mets.value.tokens, aip.mets.value.eof, aip)
    ensures forall eof :: StreamHits([], eof, aip) == ([], eof)
  {
  }

  lemma HitsOfToken(ts: seq<Token>, eof: bool, aip: AIP)
    requires ts != []
    ensures StreamHits(ts, eof, aip)
            == if !StartsObject(ts[0]) then StreamHits(ts[1..], eof, aip)
               else if Taken(ts[1..]).None? then ([], false)
               else
                 var taken := Taken(ts[1..]).value;
                 (ObjectHits(DecodedObject(taken.0), aip) + StreamHits(taken.1, eof, aip).0, StreamHits(taken.1, eof, aip).1)
  {
    hide StartsObject, ObjectHits, DecodedObject, Taken;
  }

  lemma HitsOfObject(o: PremisObject, aip: AIP)
    ensures var name := TrimPrefix(o.originalName, TRANSFER);
            ObjectHits(o, aip) == if name == "" then [] else IdentifierHits(o.identifiers, aip.uuid, Join([aip.dirName, name]))
    ensures forall path :: IdentifierHits([], aip.uuid, path) == []
  {
    hide TrimPrefix, Join;
  }

  lemma IdentifierHitsNext(ids: seq<Identifier>, k: nat, uuid: string, path: string)
    requires k < |ids|
    ensures IdentifierHits(ids[..k + 1], uuid, path)
            == IdentifierHits(ids[..k], uuid, path) + (if ids[k].kind == "local" then [Hit(ids[k].value, uuid, path)] else [])
  {
    IdentifierHitsConcat(ids[..k], ids[k..k + 1], uuid, path);
    assert ids[..k] + ids[k..k + 1] == ids[..k + 1] && ids[k..k + 1][1..] == [];
  }

  /** The two fields that the search fills in. */
  datatype Source = Source(aipUuid: string, aipPath: string)

  function SourceOf(f: DipEntry): Source
    reads f
  {
    Source(f.aipUuid, f.aipPath)
  }

  /** The source of a file after hits `hits`: the first hit of its identifier, or what it was before. */
  function SourceAfter(hits: seq<Hit>, id: string, before: Source): Source {
    if Found(hits, id) then Source(FirstHit(hits, id).aipUuid, FirstHit(hits, id).aipPath) else before
  }

  /** What the map still holds after `hits`. */
  function Remaining(all: map<string, DipEntry>, hits: seq<Hit>): map<string, DipEntry> {
    map id | id in all && !Found(hits, id) :: all[id]
  }

  /** Only the file that the map holds for an identifier is ever filled in. */
  function Expected(all: map<string, DipEntry>, before: Source, hits: seq<Hit>, f: DipEntry): Source {
    if f.dateiId in all && all[f.dateiId] == f then SourceAfter(hits, f.dateiId, before) else before
  }

  lemma RemainingStep(all: map<string, DipEntry>, hits: seq<Hit>, hit: Hit)
    ensures Remaining(all, hits + [hit]) == Remaining(all, hits) - {hit.id}
    ensures forall id :: id in Remaining(all, hits) ==> id in all && Remaining(all, hits)[id] == all[id]
  {
    forall id
      ensures Found(hits + [hit], id) <==> Found(hits, id) || hit.id == id
    {
      FirstHitConcat(hits, [hit], id);
      FoundCons([hit], id);
    }
  }

  lemma ExpectedStep(all: map<string, DipEntry>, before: Source, hits: seq<Hit>, hit: Hit, f: DipEntry)
    requires forall id :: id in all ==> all[id].dateiId == id
    ensures Expected(all, before, hits + [hit], f)
            == if hit.id in Remaining(all, hits) && f == all[hit.id] then Source(hit.aipUuid, hit.aipPath)
               else Expected(all, before, hits, f)
  {
    FirstHitConcat(hits, [hit], f.dateiId);
    FoundCons([hit], f.dateiId);
  }

  datatype SearchError =
    | Failed                               // a METS file cannot be read
    | Missing(ids: seq<(string, string)>)  // identifiers and paths of the files without a match
    | Cancelled                            // the activity was cancelled

  /** The context of an activity, which may be cancelled at any time. */
  class Context {
    /** Never cancelled. */
    const live: bool

    constructor (live: bool)
      ensures this.live == live
    {
      this.live := live;
    }

    /** ctx.Err() != nil. */
    method Err() returns (yes: bool)
      ensures live ==> !yes
    {
      yes := *;
      yes := yes && !live;
    }
  }

  class Search {
    var unmatched: map<string, DipEntry>

    constructor ()
      ensures unmatched == map[]
    {
      unmatched := map[];
    }

    /**
      The search has processed `hits`: of the files `all` to be found, by identifier, those with a hit have
      the source of their first hit and are no longer in the map; all others are as they were `before`.
    */
    ghost predicate Searched(all: map<string, DipEntry>, before: map<DipEntry, Source>, hits: seq<Hit>)
      reads this, before.Keys
    {
      && (forall id :: id in all ==> all[id] in before && all[id].dateiId == id)
      && unmatched == Remaining(all, hits)
      && (forall f :: f in before ==> SourceOf(f) == Expected(all, before[f], hits, f))
    }

    /** Once every file is matched, further hits change nothing: the early exits are harmless. */
    lemma EarlyExit(all: map<string, DipEntry>, before: map<DipEntry, Source>, hits: seq<Hit>, more: seq<Hit>)
      requires Searched(all, before, hits) && unmatched == map[]
      ensures Searched(all, before, hits + more)
    {
      forall id | id in all
        ensures Found(hits, id) && Found(hits + more, id) && FirstHit(hits + more, id) == FirstHit(hits, id)
      {
        assert id !in unmatched;
        FirstHitConcat(hits, more, id);
      }
      assert Remaining(all, hits + more) == map[];
    }

    /** One local identifier of a named object. */
    method TryMatch(hit: Hit, ghost all: map<string, DipEntry>, ghost before: map<DipEntry, Source>, ghost hits: seq<Hit>)
      requires Searched(all, before, hits)
      modifies this, before.Keys
      ensures Searched(all, before, hits + [hit])
    {
      hide Remaining, Expected;
      RemainingStep(all, hits, hit);
      forall f | f in before
        ensures Expected(all, before[f], hits + [hit], f)
                == if hit.id in unmatched && f == unmatched[hit.id] then Source(hit.aipUuid, hit.aipPath)
                   else Expected(all, before[f], hits, f)
      {
        ExpectedStep(all, before[f], hits, hit, f);
      }
      if hit.id in unmatched {
        var file := unmatched[hit.id];
        file.aipUuid := hit.aipUuid;
        file.aipPath := hit.aipPath;
        // Remove the ID so that later objects or AIPs cannot overwrite this match.
        unmatched := unmatched - {hit.id};
      }
    }

    /** The loop over the identifiers of an object; true when everything is matched. */
    method MatchObject(o: PremisObject, aip: AIP, ghost all: map<string, DipEntry>, ghost before: map<DipEntry, Source>, ghost hits: seq<Hit>)
      returns (finished: bool)
      requires Searched(all, before, hits) && unmatched != map[]
      modifies this, before.Keys
      ensures Searched(all, before, hits + ObjectHits(o, aip)) && finished == (unmatched == map[])
    {
      hide *;
      var name := TrimPrefix(o.originalName, TRANSFER);
      HitsOfObject(o, aip);
      assert hits + [] == hits;
      if name == "" {
        return false;
      }
      var ids := o.identifiers;
      var path := Join([aip.dirName, name]);
      ghost var found: seq<Hit> := [];
      for k := 0 to |ids|
        invariant found == IdentifierHits(ids[..k], aip.uuid, path)
        invariant Searched(all, before, hits + found) && unmatched != map[]
      {
        IdentifierHitsNext(ids, k, aip.uuid, path);
        if ids[k].kind != "local" {
          continue;
        }
        var hit := Hit(ids[k].value, aip.uuid, path);
        TryMatch(hit, all, before, hits + found);
        assert hits + found + [hit] == hits + (found + [hit]);
        found := found + [hit];
        if unmatched == map[] {
          assert ids[..k + 1] + ids[k + 1..] == ids;
          IdentifierHitsConcat(ids[..k + 1], ids[k + 1..], aip.uuid, path);
          ghost var rest := IdentifierHits(ids[k + 1..], aip.uuid, path);
          EarlyExit(all, before, hits + found, rest);
          assert hits + found + rest == hits + (found + rest);
          return true;
        }
      }
      assert ids[..|ids|] == ids;
      return false;
    }

    /**
      matchMETS: false when the METS file cannot be read to the end, and had to be, or when the activity is cancelled
      on the way; then only the hits `done` have been processed.
    */
    method MatchMETS(ctx: Context, aip: AIP, ghost all: map<string, DipEntry>, ghost before: map<DipEntry, Source>, ghost hits: seq<Hit>)
      returns (ok: bool, cancelled: bool, ghost done: seq<Hit>)
      requires Searched(all, before, hits) && unmatched != map[]
      modifies this, before.Keys
      ensures done <= AipHits(aip).0 && Searched(all, before, hits + done)
      ensures !cancelled ==> done == AipHits(aip).0 && (ok <==> AipHits(aip).1 || unmatched == map[])
      ensures cancelled ==> !ok && !ctx.live && unmatched != map[]
    {
      hide *;
      WithNothing(hits);
      HitsOfAip(aip);
      if aip.mets.None? {
        return false, false, [];
      }
      var ts, eof := aip.mets.value.tokens, aip.mets.value.eof;
      ghost var found: seq<Hit> := [];
      NothingBefore(StreamHits(ts, eof, aip).0);
      while ts != []
        invariant Searched(all, before, hits + found) && unmatched != map[]
        invariant AipHits(aip) == (found + StreamHits(ts, eof, aip).0, StreamHits(ts, eof, aip).1)
        decreases |ts|
      {
        cancelled := ctx.Err();
        if cancelled {
          StartOf(found, StreamHits(ts, eof, aip).0);
          return false, true, found;
        }
        HitsOfToken(ts, eof, aip);
        if !StartsObject(ts[0]) {
          ts := ts[1..];
          continue;
        }
        var taken := Taken(ts[1..]);
        if taken.None? {
          WithNothing(found);
          return false, false, found;
        }
        var premisObject := DecodedObject(taken.value.0);
        var finished := MatchObject(premisObject, aip, all, before, hits + found);
        ts := taken.value.1;
        ghost var here, rest := ObjectHits(premisObject, aip), StreamHits(ts, eof, aip).0;
        Assoc(found, here, rest);
        Assoc(hits, found, here);
        found := found + here;
        if finished {
          EarlyExit(all, before, hits + found, rest);
          Assoc(hits, found, rest);
          return true, false, found + rest;
        }
      }
      WithNothing(found);
      cancelled := ctx.Err();
      return eof && !cancelled, cancelled, found;
    }
  }
  // Execute

  /** The file that the map keeps for each identifier: the last one that has it. */
  function TableOf(files: seq<DipEntry>): map<string, DipEntry> {
    if files == [] then map[]
    else TableOf(files[..|files| - 1])[files[|files| - 1].dateiId := files[|files| - 1]]
  }

  predicate LastOfItsId(files: seq<DipEntry>, i: nat)
    requires i < |files|
  {
    forall j :: i < j < |files| ==> files[j].dateiId != files[i].dateiId
  }

  lemma LastOfLonger(files: seq<DipEntry>)
    requires files != []
    ensures var n := |files| - 1;
            && LastOfItsId(files, n)
            && forall i :: 0 <= i < n ==>
                 (LastOfItsId(files, i) <==> LastOfItsId(files[..n], i) && files[n].dateiId != files[i].dateiId)
  {
    var n := |files| - 1;
    forall i | 0 <= i < n
      ensures LastOfItsId(files, i) <==> LastOfItsId(files[..n], i) && files[n].dateiId != files[i].dateiId
    {
      assert forall j :: i < j < n ==> files[..n][j] == files[j];
    }
  }

  lemma {:induction false} TableHoldsTheLast(files: seq<DipEntry>)
    ensures forall i :: 0 <= i < |files| ==> files[i].dateiId in TableOf(files)
    ensures forall i :: 0 <= i < |files| && LastOfItsId(files, i) ==> TableOf(files)[files[i].dateiId] == files[i]
    ensures forall id :: id in TableOf(files) ==>
      exists i :: 0 <= i < |files| && LastOfItsId(files, i) && files[i].dateiId == id
    decreases |files|
  {
    if files != [] {
      var n := |files| - 1;
      var init := files[..n];
      TableHoldsTheLast(init);
      LastOfLonger(files);
      assert TableOf(files) == TableOf(init)[files[n].dateiId := files[n]];
      hide TableOf, LastOfItsId;
      forall i | 0 <= i < |files|
        ensures files[i].dateiId in TableOf(files)
        ensures LastOfItsId(files, i) ==> TableOf(files)[files[i].dateiId] == files[i]
      {
        assert i < n ==> init[i] == files[i];
      }
      forall id | id in TableOf(files)
        ensures exists i :: 0 <= i < |files| && LastOfItsId(files, i) && files[i].dateiId == id
      {
        if id == files[n].dateiId {
          assert LastOfItsId(files, n);
        } else {
          var i :| 0 <= i < n && LastOfItsId(init, i) && init[i].dateiId == id;
          assert LastOfItsId(files, i);
        }
      }
    }
  }

  /** The files without a hit, in content order. */
  function MissingFrom(files: seq<DipEntry>, hits: seq<Hit>): seq<(string, string)> {
    if files == [] then []
    else MissingFrom(files[..|files| - 1], hits)
         + (if Found(hits, files[|files| - 1].dateiId) then [] else [(files[|files| - 1].dateiId, files[|files| - 1].dipPath)])
  }

  /** The files that are listed are those without a hit, each with its identifier and its path. */
  lemma {:induction false} MissingMeans(files: seq<DipEntry>, hits: seq<Hit>, m: (string, string))
    ensures m in MissingFrom(files, hits)
            <==> exists i :: && 0 <= i < |files| && files[i].dateiId == m.0 && files[i].dipPath == m.1
                             && forall j :: 0 <= j < |hits| ==> hits[j].id != m.0
    decreases |files|
  {
    if files != [] {
      var init, last := files[..|files| - 1], files[|files| - 1];
      assert forall i :: 0 <= i < |init| ==> init[i] == files[i];
      MissingMeans(init, hits, m);
      if i :| 0 <= i < |files| && files[i].dateiId == m.0 && files[i].dipPath == m.1 && forall j :: 0 <= j < |hits| ==> hits[j].id != m.0 {
        assert i < |init| ==> init[i].dateiId == m.0;
      }
    }
  }

  predicate AllFound(files: seq<DipEntry>, hits: seq<Hit>) {
    forall i :: 0 <= i < |files| ==> Found(hits, files[i].dateiId)
  }

  /** The hits of a list of AIPs: those of a part, and of the rest unless a METS file of the part cannot be read. */
  lemma {:induction false} HitsSplit(aips: seq<AIP>, i: nat)
    requires i <= |aips|
    ensures Hits(aips) == Hits(aips[..i]) + (if Unreadable(aips[..i]) then [] else Hits(aips[i..]))
    ensures Unreadable(aips) <==> Unreadable(aips[..i]) || Unreadable(aips[i..])
    decreases i
  {
    hide AipHits;
    if i == 0 {
      assert aips[0..] == aips && aips[..0] == [];
      assert [] + Hits(aips) == Hits(aips);
    } else {
      var t, part := aips[1..], aips[..i];
      assert part[1..] == t[..i - 1] && t[i - 1..] == aips[i..] && part[0] == aips[0];
      HitsSplit(t, i - 1);
      var first := AipHits(aips[0]).0;
      assert (first + Hits(part[1..])) + Hits(aips[i..]) == first + (Hits(part[1..]) + Hits(aips[i..]));
    }
  }

  lemma HitsOfNext(aips: seq<AIP>, i: nat)
    requires i < |aips| && !Unreadable(aips[..i])
    ensures Hits(aips[..i + 1]) == Hits(aips[..i]) + AipHits(aips[i]).0
    ensures Unreadable(aips[..i + 1]) <==> !AipHits(aips[i]).1
  {
    hide AipHits;
    var next := aips[..i + 1];
    HitsSplit(next, i);
    assert next[..i] == aips[..i] && next[i..] == [aips[i]];
    assert [aips[i]][1..] == [];
  }

  lemma NothingRemains(files: seq<DipEntry>, hits: seq<Hit>)
    ensures AllFound(files, hits) <==> Remaining(TableOf(files), hits) == map[]
    ensures forall i :: 0 <= i < |files| ==>
      (files[i].dateiId in Remaining(TableOf(files), hits) <==> !Found(hits, files[i].dateiId))
  {
    hide Found;
    TableHoldsTheLast(files);
    if AllFound(files, hits) {
      assert forall id :: id in TableOf(files) ==> Found(hits, id);
    } else {
      var i :| 0 <= i < |files| && !Found(hits, files[i].dateiId);
      assert files[i].dateiId in Remaining(TableOf(files), hits);
    }
  }

  lemma WhoIsFilled(files: seq<DipEntry>, hits: seq<Hit>, i: nat, before: Source)
    requires forall i, j :: 0 <= i < j < |files| ==> files[i] != files[j]
    requires i < |files|
    ensures Expected(TableOf(files), before, hits, files[i])
            == if LastOfItsId(files, i) then SourceAfter(hits, files[i].dateiId, before) else before
  {
    TableHoldsTheLast(files);
  }

  /** Listing the missing files. */
  method ListMissing(files: seq<DipEntry>, unmatched: map<string, DipEntry>, ghost hits: seq<Hit>)
    returns (missing: seq<(string, string)>)
    requires unmatched == Remaining(TableOf(files), hits)
    ensures missing == MissingFrom(files, hits)
  {
    hide Found, Remaining;
    missing := [];
    NothingRemains(files, hits);
    for i := 0 to |files|
      invariant missing == MissingFrom(files[..i], hits)
    {
      assert files[..i + 1][..i] == files[..i];
      if files[i].dateiId in unmatched {
        missing := missing + [(files[i].dateiId, files[i].dipPath)];
      }
    }
    assert files[..|files|] == files;
  }

  /** The files still to be found, by identifier. */
  method Fill(files: seq<DipEntry>, ghost before: map<DipEntry, Source>) returns (search: Search)
    requires before == map f | f in files :: SourceOf(f)
    ensures fresh(search) && search.Searched(TableOf(files), before, [])
  {
    search := new Search();
    for i := 0 to |files|
      invariant search.unmatched == TableOf(files[..i])
    {
      TableOfNext(files, i);
      search.unmatched := search.unmatched[files[i].dateiId := files[i]];
    }
    assert files[..|files|] == files;
    TableHoldsTheLast(files);
    hide TableOf, LastOfItsId;
    assert Remaining(TableOf(files), []) == TableOf(files);
  }

  lemma TableOfNext(files: seq<DipEntry>, i: nat)
    requires i < |files|
    ensures TableOf(files[..i + 1]) == TableOf(files[..i])[files[i].dateiId := files[i]]
  {
    assert files[..i + 1][..i] == files[..i];
  }

  lemma Concluded(files: seq<DipEntry>, before: map<DipEntry, Source>, hits: seq<Hit>, search: Search)
    requires forall i, j :: 0 <= i < j < |files| ==> files[i] != files[j]
    requires before.Keys == set f | f in files
    requires search.Searched(TableOf(files), before, hits)
    ensures search.unmatched == Remaining(TableOf(files), hits)
    ensures AllFound(files, hits) <==> search.unmatched == map[]
    ensures forall i :: 0 <= i < |files| ==>
      SourceOf(files[i])
      == if LastOfItsId(files, i) then SourceAfter(hits, files[i].dateiId, before[files[i]]) else before[files[i]]
  {
    hide AllFound, Remaining, Expected, TableOf, LastOfItsId, SourceAfter;
    NothingRemains(files, hits);
    forall i | 0 <= i < |files|
      ensures SourceOf(files[i])
              == if LastOfItsId(files, i) then SourceAfter(hits, files[i].dateiId, before[files[i]]) else before[files[i]]
    {
      assert files[i] in before;
      WhoIsFilled(files, hits, i, before[files[i]]);
    }
  }

  /**
    The search for all content files. It succeeds exactly when every identifier has a hit, and then the last
    file with each identifier has the source of its first hit and every other file is as it was. It lists
    exactly the missing files, unless a METS file cannot be read and something is still missing. A search that is
    cancelled has processed the hits `done`, with something still missing.
  */
  method Execute(ctx: Context, files: seq<DipEntry>, aips: seq<AIP>) returns (r: Result<(), SearchError>, ghost done: seq<Hit>)
    requires forall i, j :: 0 <= i < j < |files| ==> files[i] != files[j]
    modifies set f | f in files
    ensures ctx.live ==> r != Err(Cancelled)
    ensures done <= Hits(aips) && (r != Err(Cancelled) ==> done == Hits(aips)) && (r == Err(Cancelled) ==> !AllFound(files, done))
    ensures r != Err(Cancelled) ==>
      && (r.Ok? <==> AllFound(files, Hits(aips)))
      && (r == Err(Failed) <==> !AllFound(files, Hits(aips)) && Unreadable(aips))
    ensures r.Err? && r.error.Missing? ==> r.error.ids == MissingFrom(files, Hits(aips))
    ensures forall i :: 0 <= i < |files| ==>
      SourceOf(files[i])
      == if LastOfItsId(files, i) then SourceAfter(done, files[i].dateiId, old(SourceOf(files[i])))
         else old(SourceOf(files[i]))
  {
    hide AipHits, AllFound, TableOf, Expected, Remaining, MissingFrom, LastOfItsId;
    ghost var before := map f | f in files :: SourceOf(f);
    var search := Fill(files, before);
    ghost var all := TableOf(files);
    ghost var hits: seq<Hit> := [];
    var i := 0;
    while i < |aips| && search.unmatched != map[]
      invariant i <= |aips| && hits == Hits(aips[..i])
      invariant Unreadable(aips[..i]) ==> search.unmatched == map[]
      invariant search.Searched(all, before, hits)
    {
      HitsOfNext(aips, i);
      HitsSplit(aips, i + 1);
      var ok, cancelled;
      ghost var here;
      ok, cancelled, here := search.MatchMETS(ctx, aips[i], all, before, hits);
      hits := hits + here;
      i := i + 1;
      if cancelled {
        PrefixOfSum(hits, Hits(aips[..i]), Hits(aips));
        Concluded(files, before, hits, search);
        return Err(Cancelled), hits;
      }
      if !ok {
        assert Hits(aips) == hits;
        Concluded(files, before, Hits(aips), search);
        return Err(Failed), hits;
      }
    }
    HitsSplit(aips, i);
    if search.unmatched == map[] {
      search.EarlyExit(all, before, hits, if Unreadable(aips[..i]) then [] else Hits(aips[i..]));
    } else {
      assert aips[..i] == aips;
    }
    Concluded(files, before, Hits(aips), search);
    if search.unmatched != map[] {
      var missing := ListMissing(files, search.unmatched, Hits(aips));
      return Err(Missing(missing)), Hits(aips);
    }
    return Ok(()), Hits(aips);
  }

  lemma PrefixOfSum(a: seq<Hit>, b: seq<Hit>, c: seq<Hit>)
    requires a <= b <= c
    ensures a <= c
  {
  }
}
