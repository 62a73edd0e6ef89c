/**
  The parse-metadata activity as a whole (internal/dips/activities/parse_metadata.go, Execute): the export says
  which files the DIP has, and the METS files of the AIPs say where the content files are.
*/
module ParseMetadata {
  import opened Wrappers
  import opened Xml
  import opened Export
  import opened MetsMatch

  /** A declared file: where it comes from, where it goes in the DIP, and its checksum. */
  datatype Declared = Declared(aipUuid: string, aipPath: string, dipPath: string, checksum: string, algorithm: string)

  datatype ParseError = Undecodable | Search(error: SearchError)

  function ContentOf(folders: seq<ExportFolder>): seq<DipFile> {
    Collected(folders, "content", [])
  }

  function HeaderOf(folders: seq<ExportFolder>): seq<DipFile> {
    Collected(folders, "header", [])
  }

  predicate AllPlaced(content: seq<DipFile>, hits: seq<Hit>) {
    forall i :: 0 <= i < |content| ==> Found(hits, content[i].dateiId)
  }

  predicate LastWithId(content: seq<DipFile>, i: nat)
    requires i < |content|
  {
    forall j :: i < j < |content| ==> content[j].dateiId != content[i].dateiId
  }

  const NOWHERE := Source("", "")

  function At(f: DipFile, s: Source): Declared {
    Declared(s.aipUuid, s.aipPath, f.dipPath, f.checksum, f.checksumAlgorithm)
  }

  /** The content files, each at the first hit of its identifier; of files with one identifier only the last. */
  function Placed(content: seq<DipFile>, hits: seq<Hit>): seq<Declared> {
    seq(|content|, i requires 0 <= i < |content| =>
      At(content[i], if LastWithId(content, i) then SourceAfter(hits, content[i].dateiId, NOWHERE) else NOWHERE))
  }

  function Unplaced(header: seq<DipFile>): seq<Declared> {
    seq(|header|, i requires 0 <= i < |header| => At(header[i], NOWHERE))
  }

  /** What the export and the METS files declare: content and header. None for an error. */
  function DeclaredBy(metadata: Option<seq<Node>>, aips: seq<AIP>): Option<(seq<Declared>, seq<Declared>)> {
    var folders := if metadata.None? then None else DecodedExport(metadata.value);
    if folders.None? || !AllPlaced(ContentOf(folders.value), Hits(aips)) then None
    else Some((Placed(ContentOf(folders.value), Hits(aips)), Unplaced(HeaderOf(folders.value))))
  }

  /** A file and what is declared of it have the same path, checksum and algorithm. */
  predicate SameFile(f: DipFile, d: Declared) {
    d.dipPath == f.dipPath && d.checksum == f.checksum && d.algorithm == f.checksumAlgorithm
  }

  /** The declared source is that of the first hit of the identifier. */
  predicate FromFirstHit(hits: seq<Hit>, id: string, d: Declared) {
    exists k :: && 0 <= k < |hits| && hits[k].id == id && d.aipUuid == hits[k].aipUuid && d.aipPath == hits[k].aipPath
                && forall j :: 0 <= j < k ==> hits[j].id != id
  }

  lemma {:induction false} FirstHitIsFirst(hits: seq<Hit>, id: string) returns (k: nat)
    requires Found(hits, id)
    ensures k < |hits| && hits[k].id == id && FirstHit(hits, id) == hits[k] && forall j :: 0 <= j < k ==> hits[j].id != id
    decreases |hits|
  {
    if hits[0].id == id {
      k := 0;
    } else {
      FoundCons(hits, id);
      k := FirstHitIsFirst(hits[1..], id);
      assert forall j :: 0 <= j < |hits[1..]| ==> hits[1..][j] == hits[j + 1];
      k := k + 1;
    }
  }

  /** What the activity takes over from the export and from the METS files. */
  lemma WhatIsDeclared(metadata: Option<seq<Node>>, aips: seq<AIP>)
    requires DeclaredBy(metadata, aips).Some?
    ensures metadata.Some? && DecodedExport(metadata.value).Some?
    ensures var content := Collected(DecodedExport(metadata.value).value, "content", []);
            var declared := DeclaredBy(metadata, aips).value.0;
            && |declared| == |content|
            && forall i :: 0 <= i < |content| ==>
                 && SameFile(content[i], declared[i])
                 && ((forall j :: i < j < |content| ==> content[j].dateiId != content[i].dateiId) ==>
                       FromFirstHit(Hits(aips), content[i].dateiId, declared[i]))
    ensures var header := Collected(DecodedExport(metadata.value).value, "header", []);
            var declared := DeclaredBy(metadata, aips).value.1;
            |declared| == |header| && forall i :: 0 <= i < |header| ==> SameFile(header[i], declared[i])
  {
    hide Collected, Hits, Found, DecodedExport;
    var content := Collected(DecodedExport(metadata.value).value, "content", []);
    var declared := DeclaredBy(metadata, aips).value.0;
    forall i | 0 <= i < |content| && forall j :: i < j < |content| ==> content[j].dateiId != content[i].dateiId
      ensures FromFirstHit(Hits(aips), content[i].dateiId, declared[i])
    {
      assert Found(Hits(aips), content[i].dateiId);
      var k := FirstHitIsFirst(Hits(aips), content[i].dateiId);
    }
  }

  /** The activity, on an export that may not be XML. */
  method Execute(ctx: Context, metadata: Option<seq<Node>>, aips: seq<AIP>)
    returns (r: Result<(seq<Declared>, seq<Declared>), ParseError>)
    ensures ctx.live ==> r != Err(Search(Cancelled))
    ensures r.Ok? ==> DeclaredBy(metadata, aips) == Some(r.value)
    ensures r.Err? && r != Err(Search(Cancelled)) ==> DeclaredBy(metadata, aips).None?
    // The files that are reported as missing are those of the content whose identifier is nowhere.
    ensures r.Err? && r.error.Search? && r.error.error.Missing? ==>
      && metadata.Some? && DecodedExport(metadata.value).Some?
      && forall m :: m in r.error.error.ids <==> MissingFile(Collected(DecodedExport(metadata.value).value, "content", []), Hits(aips), m)
    // In terms of the files of the export: their paths and checksums, and where their identifiers were found first.
    ensures r.Ok? ==> metadata.Some? && DecodedExport(metadata.value).Some?
    ensures r.Ok? ==>
      var content := Collected(DecodedExport(metadata.value).value, "content", []);
      && |r.value.0| == |content|
      && (forall i :: 0 <= i < |content| ==>
            && r.value.0[i].dipPath == content[i].dipPath
            && r.value.0[i].checksum == content[i].checksum && r.value.0[i].algorithm == content[i].checksumAlgorithm)
      && (forall i :: 0 <= i < |content| && (forall j :: i < j < |content| ==> content[j].dateiId != content[i].dateiId) ==>
            FromFirstHit(Hits(aips), content[i].dateiId, r.value.0[i]))
    ensures r.Ok? ==>
      var header := Collected(DecodedExport(metadata.value).value, "header", []);
      && |r.value.1| == |header|
      && (forall i :: 0 <= i < |header| ==>
            && r.value.1[i].dipPath == header[i].dipPath
            && r.value.1[i].checksum == header[i].checksum && r.value.1[i].algorithm == header[i].checksumAlgorithm)
  {
    hide Collected, Hits, Found, SourceAfter;
    if metadata.None? {
      return Err(Undecodable);
    }
    var parsed := ParseExport(metadata.value);
    if parsed.Err? {
      return Err(Undecodable);
    }
    var content, header := parsed.value.0, parsed.value.1;
    var entries := Entries(content);
    var found, done := MetsMatch.Execute(ctx, entries, aips);
    SameIdentifiers(content, entries, Hits(aips));
    if found.Err? {
      if found.error.Missing? {
        MissingFiles(content, entries, Hits(aips));
      }
      return Err(Search(found.error));
    }
    var placed := Sources(content, entries, Hits(aips));
    WhatIsDeclared(metadata, aips);
    hide FromFirstHit;
    return Ok((placed, Unplaced(header)));
  }

  /** A content file, by its identifier and path, whose identifier no hit has. */
  predicate MissingFile(content: seq<DipFile>, hits: seq<Hit>, m: (string, string)) {
    && (exists i :: 0 <= i < |content| && content[i].dateiId == m.0 && content[i].dipPath == m.1)
    && forall j :: 0 <= j < |hits| ==> hits[j].id != m.0
  }

  lemma MissingFiles(content: seq<DipFile>, entries: seq<DipEntry>, hits: seq<Hit>)
    requires |entries| == |content|
    requires forall i :: 0 <= i < |entries| ==> entries[i].dateiId == content[i].dateiId && entries[i].dipPath == content[i].dipPath
    ensures forall m :: m in MissingFrom(entries, hits) <==> MissingFile(content, hits, m)
  {
    hide MissingFrom;
    forall m
      ensures m in MissingFrom(entries, hits) <==> MissingFile(content, hits, m)
    {
      MissingMeans(entries, hits, m);
      if i :| 0 <= i < |content| && content[i].dateiId == m.0 && content[i].dipPath == m.1 {
        assert entries[i].dateiId == m.0 && entries[i].dipPath == m.1;
      }
    }
  }

  /** The files as the search wants them. */
  method Entries(content: seq<DipFile>) returns (entries: seq<DipEntry>)
    ensures |entries| == |content| && forall i :: 0 <= i < |entries| ==>
      && fresh(entries[i]) && entries[i].dateiId == content[i].dateiId && entries[i].dipPath == content[i].dipPath
      && SourceOf(entries[i]) == NOWHERE
    ensures forall i, j :: 0 <= i < j < |entries| ==> entries[i] != entries[j]
  {
    entries := [];
    for i := 0 to |content|
      invariant |entries| == i
      invariant forall j :: 0 <= j < i ==>
        && fresh(entries[j]) && entries[j].dateiId == content[j].dateiId && entries[j].dipPath == content[j].dipPath
        && SourceOf(entries[j]) == NOWHERE
      invariant forall j, k :: 0 <= j < k < i ==> entries[j] != entries[k]
    {
      var entry := new DipEntry(content[i].dateiId, content[i].dipPath);
      entries := entries + [entry];
    }
  }

  lemma SameIdentifiers(content: seq<DipFile>, entries: seq<DipEntry>, hits: seq<Hit>)
    requires |entries| == |content| && forall i :: 0 <= i < |entries| ==> entries[i].dateiId == content[i].dateiId
    ensures AllFound(entries, hits) <==> AllPlaced(content, hits)
    ensures forall i :: 0 <= i < |content| ==> (LastOfItsId(entries, i) <==> LastWithId(content, i))
  {
    hide Found;
    if AllPlaced(content, hits) {
      assert forall i :: 0 <= i < |entries| ==> Found(hits, content[i].dateiId);
    }
    if AllFound(entries, hits) {
      assert forall i :: 0 <= i < |entries| ==> Found(hits, entries[i].dateiId);
    }
  }

  /** What the search has written. */
  method Sources(content: seq<DipFile>, entries: seq<DipEntry>, ghost hits: seq<Hit>) returns (placed: seq<Declared>)
    requires |entries| == |content|
    requires forall i :: 0 <= i < |content| ==>
      SourceOf(entries[i]) == if LastWithId(content, i) then SourceAfter(hits, content[i].dateiId, NOWHERE) else NOWHERE
    ensures placed == Placed(content, hits)
  {
    hide LastWithId, SourceAfter;
    placed := [];
    for i := 0 to |content|
      invariant |placed| == i && forall j :: 0 <= j < i ==> placed[j] == Placed(content, hits)[j]
    {
      placed := placed + [At(content[i], SourceOf(entries[i]))];
    }
  }
}
