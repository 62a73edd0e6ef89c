/**
  The session that assembles a DIP in a working directory (internal/dips/workflows/create_dip.go, sessionHandler,
  fetchValidMetadata and fetchMetadata; internal/dips/activities/prepare_dip.go; internal/amss/fetch_aip_file.go).
  Activities run more than once, an attempt that fails leaves anything at its destination, and later attempts
  overwrite it.
*/
module Session {
  import opened Wrappers
  import opened Paths
  import opened Sorting
  import opened VerifyManifest
  import opened ParseMetadata
  import Xml
  import MetsMatch

  type Bytes = seq<bv8>

  /** An AIP that the session searches: its identifier and the name of its directory. */
  datatype Package = Package(uuid: string, dirName: string)

  /** What the session finds outside the working directory. */
  datatype Outside = Outside(
    aipFile: (string, string) -> Bytes,               // a file of an AIP
    schema: string -> Option<Bytes>,                  // a file of the schema directory
    completed: nat -> bool,                           // whether an export completes
    exported: nat -> Bytes,                           // the metadata of an export
    valid: Bytes -> bool,                             // validation against the schema
    document: Bytes -> Option<seq<Xml.Node>>,         // the XML decoder on an export
    tokens: Bytes -> MetsMatch.Mets,                  // and on a METS file
    digest: (Bytes, string) -> Option<string>         // GenerateHash; None for an unknown algorithm
  )

  const MAX_EXPORT_ATTEMPTS := 3

  /** The bytes have the declared checksum. */
  predicate Matches(o: Outside, bytes: Bytes, f: Declared) {
    o.digest(bytes, f.algorithm) == Some(Lower(f.checksum))
  }

  /** Content is checked only if both a checksum and an algorithm are declared. */
  predicate Acceptable(o: Outside, bytes: Bytes, f: Declared) {
    f.checksum != "" && f.algorithm != "" ==> Matches(o, bytes, f)
  }

  function Destination(dipPath: string, f: Declared): string {
    Join([dipPath, f.dipPath])
  }

  function Destinations(dipPath: string, fs: seq<Declared>): set<string> {
    set f | f in fs :: Destination(dipPath, f)
  }

  /** Only the named places may have changed. */
  ghost predicate SameExcept(places: set<string>, before: map<string, Bytes>, after: map<string, Bytes>) {
    forall q :: q !in places ==> (q in after <==> q in before) && (q in after ==> after[q] == before[q])
  }

  const SCHEMA_PREFIX := "header/xsd/"

  // When the operations can succeed

  predicate DifferentUuids(aips: seq<Package>) {
    forall i, j :: 0 <= i < j < |aips| ==> aips[i].uuid != aips[j].uuid
  }

  /** The METS files of the AIPs. */
  function MetsBytes(o: Outside, aips: seq<Package>): seq<Bytes> {
    seq(|aips|, i requires 0 <= i < |aips| => o.aipFile(aips[i].uuid, MetsFile(aips[i]).aipPath))
  }

  /** What an export and the METS files declare can be had: both lists have files, and each of them is as declared. */
  ghost predicate Obtainable(o: Outside, exportId: nat, aips: seq<Package>, dipPath: string) {
    var declared := DeclaredBy(o.document(o.exported(exportId)), AipsRead(o, aips, MetsBytes(o, aips)));
    && declared.Some? && declared.value.0 != [] && declared.value.1 != []
    && (forall i :: 0 <= i < |declared.value.1| ==> GoodSchema(o, declared.value.1[i]))
    && MetadataPlace(dipPath) !in Destinations(dipPath, declared.value.1)
    && (forall i :: 0 <= i < |declared.value.0| ==> GoodContent(o, declared.value.0[i]))
  }

  /** One of three exports is good, and what the first good one declares can be had. */
  ghost predicate Possible(o: Outside, exports: nat -> nat, aips: seq<Package>, dipPath: string) {
    exists k :: FirstGood(o, exports, k) && Obtainable(o, exports(k), aips, dipPath)
  }

  lemma PossibleIff(o: Outside, exports: nat -> nat, aips: seq<Package>, dipPath: string, k: nat)
    requires FirstGood(o, exports, k)
    ensures Possible(o, exports, aips, dipPath) <==> Obtainable(o, exports(k), aips, dipPath)
  {
    hide Obtainable, GoodExport;
    forall j | FirstGood(o, exports, j)
      ensures j == k
    {
    }
  }

  /** With different identifiers, each METS file that is seen is that of its AIP. */
  lemma SeenAreMets(o: Outside, aips: seq<Package>, seen: seq<Bytes>)
    requires DifferentUuids(aips) && |seen| == |aips|
    requires forall i :: 0 <= i < |aips| ==> MetsOfAip(o, aips, aips[i].uuid, seen[i])
    ensures seen == MetsBytes(o, aips)
  {
    hide MetsFile;
    forall i | 0 <= i < |aips|
      ensures seen[i] == o.aipFile(aips[i].uuid, MetsFile(aips[i]).aipPath)
    {
      var j :| 0 <= j < |aips| && aips[j].uuid == aips[i].uuid && seen[i] == o.aipFile(aips[i].uuid, MetsFile(aips[j]).aipPath);
      assert j == i;
    }
  }

  /** The place of the metadata in the DIP is free when the export and the METS files have been fetched. */
  lemma PlaceIsFree(root: Location, dipUuid: string, aips: seq<Package>, exported: map<string, Bytes>, files: map<string, Bytes>)
    requires root != [] && Names(root) && '/' !in dipUuid && forall a :: a in aips ==> '/' !in a.uuid
    requires SameExcept({MetadataExport(root)}, map[], exported) && SameExcept(MetsPlaces(root, aips), exported, files)
    ensures MetadataPlace(DipPath(root, dipUuid)) !in files
  {
    var place := MetadataPlace(DipPath(root, dipUuid));
    DifferentPlaces(root, dipUuid, aips);
    PlaceOfMetadata(root, dipUuid);
    hide MetadataPlace, MetadataExport, Path, MetsPlace;
    forall a | a in aips
      ensures place != MetsPlace(root, a.uuid)
    {
      MetsIsNotMetadata(root, dipUuid, a.uuid);
    }
  }

  lemma MetsIsNotMetadata(root: Location, dipUuid: string, uuid: string)
    requires root != []
    ensures MetsPlace(root, uuid) != Path(true, root) + "/" + ("DIP_" + dipUuid + "/" + ("header" + "/" + "metadata.xml"))
  {
    var n, m := "METS." + uuid + ".xml", "DIP_" + dipUuid + "/" + ("header" + "/" + "metadata.xml");
    PathSnoc(true, root, n);
    hide Path;
    var here := Path(true, root) + "/";
    assert (here + n)[|here|] == 'M' && (here + m)[|here|] == 'D';
  }

  /** The export completes and is valid. */
  predicate GoodExport(o: Outside, exportId: nat) {
    o.completed(exportId) && o.valid(o.exported(exportId))
  }

  predicate FirstGood(o: Outside, exports: nat -> nat, k: nat) {
    1 <= k <= 3 && GoodExport(o, exports(k)) && forall j :: 1 <= j < k ==> !GoodExport(o, exports(j))
  }

  /** There is a schema of the header file's name with the declared checksum. */
  predicate GoodSchema(o: Outside, f: Declared) {
    "header/xsd/" <= f.dipPath &&
    var schema := o.schema(f.dipPath[|"header/xsd/"|..]);
    schema.Some? && Matches(o, schema.value, f)
  }

  /** The AIP's file has the declared checksum. */
  predicate GoodContent(o: Outside, f: Declared) {
    Acceptable(o, o.aipFile(f.aipUuid, f.aipPath), f)
  }

  class WorkingDirectory {
    var files: map<string, Bytes>
    /** Nothing fails but for the reasons that the operations state. */
    const reliable: bool

    constructor (reliable: bool)
      ensures files == map[] && this.reliable == reliable
    {
      files := map[];
      this.reliable := reliable;
    }

    /** One attempt at downloading a file; it leaves anything at the destination if it fails. */
    method FetchAttempt(o: Outside, f: Declared, dst: string) returns (ok: bool)
      modifies this
      ensures SameExcept({dst}, old(files), files)
      ensures ok ==> dst in files && files[dst] == o.aipFile(f.aipUuid, f.aipPath) && Acceptable(o, files[dst], f)
      ensures reliable ==> (ok <==> Acceptable(o, o.aipFile(f.aipUuid, f.aipPath), f))
    {
      var reachable: bool := *;
      if !reachable && !reliable {
        return false;
      }
      var written: Bytes := *;
      files := files[dst := written];
      var copied: bool := *;
      if !copied && !reliable {
        return false;
      }
      files := files[dst := o.aipFile(f.aipUuid, f.aipPath)];
      if f.checksum != "" && f.algorithm != "" {
        var hash := o.digest(files[dst], f.algorithm);
        if hash.None? || hash.value != Lower(f.checksum) {
          return false;
        }
      }
      return true;
    }

    /** The download activity: as many attempts as the retry policy allows. */
    method Fetch(o: Outside, f: Declared, dst: string, attempts: nat) returns (ok: bool)
      modifies this
      ensures SameExcept({dst}, old(files), files)
      ensures ok ==> dst in files && files[dst] == o.aipFile(f.aipUuid, f.aipPath) && Acceptable(o, files[dst], f)
      ensures reliable && attempts > 0 ==> (ok <==> Acceptable(o, o.aipFile(f.aipUuid, f.aipPath), f))
    {
      ok := false;
      for i := 0 to attempts
        invariant SameExcept({dst}, old(files), files)
        invariant !ok && (reliable && i > 0 ==> !Acceptable(o, o.aipFile(f.aipUuid, f.aipPath), f))
      {
        ok := FetchAttempt(o, f, dst);
        if ok {
          return;
        }
      }
    }

    /** One export from request to validation. */
    method FetchMetadata(o: Outside, exportId: nat, dst: string, attempts: nat) returns (ok: bool)
      modifies this
      ensures SameExcept({dst}, old(files), files)
      ensures ok ==> dst in files && o.completed(exportId) && files[dst] == o.exported(exportId) && o.valid(files[dst])
      ensures reliable && attempts > 0 ==> (ok <==> GoodExport(o, exportId))
    {
      var requested: bool := *;
      if (!requested && !reliable) || !o.completed(exportId) {
        return false;
      }
      var downloaded := false;
      for i := 0 to attempts
        invariant SameExcept({dst}, old(files), files)
        invariant !downloaded && (reliable ==> i == 0)
      {
        var written: Bytes := *;
        files := files[dst := written];
        downloaded := *;
        downloaded := downloaded || reliable;
        if downloaded {
          files := files[dst := o.exported(exportId)];
          break;
        }
      }
      return downloaded && o.valid(files[dst]);
    }

    /** Export after export until one is valid; `tried` is how many were asked for. */
    method FetchValidMetadata(o: Outside, exports: nat -> nat, dst: string, attempts: nat)
      returns (ok: bool, ghost from: nat, ghost tried: nat)
      modifies this
      ensures SameExcept({dst}, old(files), files)
      ensures ok ==> dst in files && o.completed(from) && files[dst] == o.exported(from) && o.valid(files[dst])
      ensures if ok then 1 <= tried <= 3 && from == exports(tried) else tried == 3
      ensures reliable && attempts > 0 ==>
        (ok <==> exists k :: 1 <= k <= 3 && GoodExport(o, exports(k))) && (ok ==> FirstGood(o, exports, tried))
    {
      from, tried := 0, 0;
      for attempt := 1 to MAX_EXPORT_ATTEMPTS + 1
        invariant SameExcept({dst}, old(files), files)
        invariant tried == attempt - 1
        invariant reliable && attempts > 0 ==> forall j :: 1 <= j < attempt ==> !GoodExport(o, exports(j))
      {
        ok := FetchMetadata(o, exports(attempt), dst, attempts);
        tried := attempt;
        if ok {
          from := exports(attempt);
          return;
        }
      }
      return false, from, tried;
    }
  
    /** One header file: copied from the schemas and checked where it is now. */
    method CopySchema(o: Outside, f: Declared, dipPath: string) returns (ok: bool)
      modifies this
      ensures SameExcept({Destination(dipPath, f)}, old(files), files)
      ensures ok ==> IsSchema(o, f, dipPath, files)
      ensures reliable ==> (ok <==> GoodSchema(o, f))
    {
      if !(SCHEMA_PREFIX <= f.dipPath) {
        return false;
      }
      var source := o.schema(f.dipPath[|SCHEMA_PREFIX|..]);
      var dst := Destination(dipPath, f);
      if source.None? {
        return false;
      }
      var copied: bool := *;
      if !copied && !reliable {
        var written: Bytes := *;
        files := files[dst := written];
        return false;
      }
      files := files[dst := source.value];
      var hash := o.digest(files[dst], f.algorithm);
      return hash.Some? && hash.value == Lower(f.checksum);
    }

    /** All header files; a failure does not keep it from copying the next. */
    method CopySchemas(o: Outside, header: seq<Declared>, dipPath: string) returns (ok: bool)
      modifies this
      ensures SameExcept(Destinations(dipPath, header), old(files), files)
      ensures ok ==> SchemasIn(o, header, |header|, dipPath, files)
      ensures reliable ==> (ok <==> forall i :: 0 <= i < |header| ==> GoodSchema(o, header[i]))
    {
      hide IsSchema, SchemasIn, SameExcept, Destinations, GoodSchema;
      ok := true;
      NothingCopied(o, header, dipPath, files);
      for i := 0 to |header|
        invariant SameExcept(Destinations(dipPath, header[..i]), old(files), files)
        invariant ok ==> SchemasIn(o, header, i, dipPath, files)
        invariant reliable ==> (ok <==> forall j :: 0 <= j < i ==> GoodSchema(o, header[j]))
      {
        ghost var before := files;
        var copied := CopySchema(o, header[i], dipPath);
        if ok && copied {
          SchemasNext(o, header, i, dipPath, before, files);
        }
        OneMorePlace(dipPath, header, i, old(files), before, files);
        ok := ok && copied;
      }
      assert header[..|header|] == header;
    }

    /**
      prepare-dip: all header files, then the metadata is moved to its place, which must be free. What is moved is
      what stands there after copying: a header file, if one is declared for the place of the export.
    */
    method Prepare(o: Outside, header: seq<Declared>, dipPath: string, metadataPath: string) returns (ok: bool)
      requires metadataPath != MetadataPlace(dipPath)
      modifies this
      ensures SameExcept(Destinations(dipPath, header) + {metadataPath, MetadataPlace(dipPath)}, old(files), files)
      ensures ok ==>
        && SchemasBesides(o, header, {metadataPath}, dipPath, files)
        && MetadataPlace(dipPath) !in Destinations(dipPath, header)
        && Destinations(dipPath, header) - {metadataPath} <= files.Keys
        && metadataPath !in files && MetadataPlace(dipPath) in files
        && Delivered(o, header, dipPath, metadataPath, old(files), files[MetadataPlace(dipPath)])
      ensures reliable && metadataPath in old(files) && MetadataPlace(dipPath) !in old(files) ==>
        (ok <==> (forall i :: 0 <= i < |header| ==> GoodSchema(o, header[i])) && MetadataPlace(dipPath) !in Destinations(dipPath, header))
    {
      hide SchemasIn, SameExcept, Destinations, MetadataPlace, SchemasBesides, Delivered, GoodSchema;
      ok := CopySchemas(o, header, dipPath);
      MorePlaces(Destinations(dipPath, header), {metadataPath, MetadataPlace(dipPath)}, old(files), files);
      if !ok {
        return;
      }
      var place := MetadataPlace(dipPath);
      var fault: bool := *;
      DestinationsAreThere(o, header, dipPath, files);
      PlacesAfterCopying(Destinations(dipPath, header), old(files), files, metadataPath, place);
      if (fault && !reliable) || metadataPath !in files || place in files {
        return false;
      }
      ghost var before := files;
      files := files[place := files[metadataPath]] - {metadataPath};
      MovedAside(o, header, dipPath, old(files), before, files, metadataPath, place);
    }

    /** The METS file of each AIP; an error does not keep it from downloading the next. */
    method FetchMets(o: Outside, aips: seq<Package>, root: Location, attempts: nat) returns (ok: bool)
      requires root != []
      modifies this
      ensures SameExcept(MetsPlaces(root, aips), old(files), files)
      ensures ok ==> forall i :: 0 <= i < |aips| ==> HasMets(o, aips, i, root, files)
      ensures reliable && attempts > 0 ==> ok
    {
      hide MetsPlace, SameExcept, HasMets;
      ok := true;
      NothingChanged(files);
      assert MetsPlaces(root, aips[..0]) == {};
      for i := 0 to |aips|
        invariant SameExcept(MetsPlaces(root, aips[..i]), old(files), files)
        invariant ok ==> forall j :: 0 <= j < i ==> HasMets(o, aips, j, root, files)
        invariant reliable && attempts > 0 ==> ok
      {
        ghost var before := files;
        var fetched := Fetch(o, MetsFile(aips[i]), MetsPlace(root, aips[i].uuid), attempts);
        MoreMetsPlaces(root, aips, i);
        ExceptMore(MetsPlaces(root, aips[..i]), {MetsPlace(root, aips[i].uuid)}, old(files), before, files);
        ok := ok && fetched;
        if ok {
          MetsFetched(o, aips, i, root, before, files);
        }
      }
      assert aips[..|aips|] == aips;
    }

    /** The METS files as the parser finds them. */
    method ReadMets(o: Outside, aips: seq<Package>, root: Location) returns (read: seq<MetsMatch.AIP>)
      requires root != [] && MetsThere(aips, root, files)
      ensures read == AipsRead(o, aips, MetsSeen(aips, root, files))
    {
      hide MetsPlace;
      read := [];
      for i := 0 to |aips|
        invariant |read| == i
        invariant forall j :: 0 <= j < i ==> read[j] == AipRead(o, aips[j], files[MetsPlace(root, aips[j].uuid)])
      {
        read := read + [AipRead(o, aips[i], files[MetsPlace(root, aips[i].uuid)])];
      }
    }

    /** The content files, each directly to its place; the first failure ends it. */
    method FetchContent(o: Outside, content: seq<Declared>, dipPath: string, attempts: nat) returns (ok: bool)
      modifies this
      ensures SameExcept(Destinations(dipPath, content), old(files), files)
      ensures ok ==> ContentIn(o, content, |content|, dipPath, files)
      ensures reliable && attempts > 0 ==> (ok <==> forall i :: 0 <= i < |content| ==> GoodContent(o, content[i]))
    {
      hide Destination, Destinations, SameExcept, ContentIn, IsContent;
      NothingFetched(o, content, dipPath, files);
      for i := 0 to |content|
        invariant SameExcept(Destinations(dipPath, content[..i]), old(files), files)
        invariant ContentIn(o, content, i, dipPath, files)
        invariant reliable && attempts > 0 ==> forall j :: 0 <= j < i ==> GoodContent(o, content[j])
      {
        ghost var before := files;
        ok := Fetch(o, content[i], Destination(dipPath, content[i]), attempts);
        OneMorePlace(dipPath, content, i, old(files), before, files);
        if !ok {
          FewerPlaces(dipPath, content, i + 1, old(files), files);
          return;
        }
        ContentNext(o, content, i, dipPath, before, files);
      }
      assert content[..|content|] == content;
      return true;
    }

    /**
      A session in an empty working directory, up to the finished DIP. If it succeeds, the metadata is that of a
      single export that completed and is valid, and the DIP is assembled from what that export and the METS files
      of the AIPs declare.
    */
    method Assemble(o: Outside, exports: nat -> nat, aips: seq<Package>, root: Location, dipUuid: string, attempts: nat)
      returns (ok: bool, content: seq<Declared>, header: seq<Declared>, ghost from: nat, ghost seen: seq<Bytes>)
      requires files == map[] && root != [] && Names(root) && '/' !in dipUuid && forall a :: a in aips ==> '/' !in a.uuid
      modifies this
      ensures ok ==>
        && o.completed(from) && o.valid(o.exported(from))
        && |seen| == |aips| && (forall i :: 0 <= i < |aips| ==> MetsOfAip(o, aips, aips[i].uuid, seen[i]))
        && DeclaredBy(o.document(o.exported(from)), AipsRead(o, aips, seen)) == Some((content, header))
        && content != [] && header != []
      ensures ok ==>
        Assembled(o, files, DipPath(root, dipUuid), content, header, MetadataExport(root), o.exported(from), MetsPlaces(root, aips))
      // of the DIP's directory: exactly the declared files
      ensures ok ==> forall p :: p in files && DipPath(root, dipUuid) + "/" <= p ==>
        p in Declareds(DipPath(root, dipUuid), content, header, MetadataExport(root))
      // When nothing fails by chance, it succeeds exactly when it can.
      ensures reliable && attempts > 0 && DifferentUuids(aips) ==> (ok <==> Possible(o, exports, aips, DipPath(root, dipUuid)))
    {
      hide Destination, Destinations, SameExcept, SchemasIn, SchemasBesides, ContentIn, MetadataPlace, MetsPlaces, DipPath, MetadataExport,
           Assembled, Declareds, Delivered, HasMets, MetsOfAip, AipsRead, DeclaredBy, MetsThere,
           MetsSeen, GoodExport, GoodSchema, GoodContent, MetsBytes;
      content, header, from, seen := [], [], 0, [];
      var metadataPath, dipPath := MetadataExport(root), DipPath(root, dipUuid);
      DifferentPlaces(root, dipUuid, aips);
      ghost var tried;
      ok, from, tried := FetchValidMetadata(o, exports, metadataPath, attempts);
      if !ok {
        return;
      }
      ghost var able := reliable && attempts > 0 && DifferentUuids(aips);
      if able {
        PossibleIff(o, exports, aips, dipPath, tried);
      }
      ghost var exported := files;
      ok := FetchMets(o, aips, root, attempts);
      if !ok {
        return;
      }
      StillThere(MetsPlaces(root, aips), exported, files, metadataPath);
      MetsAreSeen(o, aips, root, files);
      seen := MetsSeen(aips, root, files);
      if able {
        SeenAreMets(o, aips, seen);
      }
      var read := ReadMets(o, aips, root);
      var live: bool := *;
      live := live || reliable;
      var ctx := new MetsMatch.Context(live);
      var declared := ParseMetadata.Execute(ctx, o.document(files[metadataPath]), read);
      if declared.Err? || declared.value.0 == [] || declared.value.1 == [] {
        ok := false;
        return;
      }
      content, header := declared.value.0, declared.value.1;
      ghost var downloaded := files;
      PlaceIsFree(root, dipUuid, aips, exported, files);
      ok := Prepare(o, header, dipPath, metadataPath);
      if !ok {
        return;
      }
      ghost var prepared := files;
      ok := FetchContent(o, content, dipPath, attempts);
      if ok {
        Finished(o, dipPath, metadataPath, content, header, MetsPlaces(root, aips), exported, downloaded, prepared, files);
        OnlyDeclaredInDip(o, root, dipUuid, aips, content, header, metadataPath, exported[metadataPath], files);
      }
    }
  }

  lemma PlacesAfterCopying(places: set<string>, before: map<string, Bytes>, after: map<string, Bytes>, metadataPath: string, place: string)
    requires SameExcept(places, before, after) && forall p :: p in places ==> p in after
    ensures metadataPath in before ==> metadataPath in after
    ensures place !in before ==> (place in after <==> place in places)
  {
  }

  predicate SchemasIn(o: Outside, header: seq<Declared>, n: nat, dipPath: string, files: map<string, Bytes>)
    requires n <= |header|
  {
    forall k :: 0 <= k < n && LastBefore(dipPath, header, k, n) ==> IsSchema(o, header[k], dipPath, files)
  }

  lemma NothingCopied(o: Outside, header: seq<Declared>, dipPath: string, files: map<string, Bytes>)
    ensures SchemasIn(o, header, 0, dipPath, files) && SameExcept(Destinations(dipPath, header[..0]), files, files)
  {
  }

  lemma SchemasNext(o: Outside, header: seq<Declared>, i: nat, dipPath: string, before: map<string, Bytes>, after: map<string, Bytes>)
    requires i < |header| && SchemasIn(o, header, i, dipPath, before)
    requires SameExcept({Destination(dipPath, header[i])}, before, after) && IsSchema(o, header[i], dipPath, after)
    ensures SchemasIn(o, header, i + 1, dipPath, after)
  {
    hide IsSchema, Destination, SameExcept;
    forall k | 0 <= k < i && LastBefore(dipPath, header, k, i + 1)
      ensures IsSchema(o, header[k], dipPath, after)
    {
      assert LastBefore(dipPath, header, k, i);
      SchemaElsewhere(o, header[k], dipPath, before, after, {Destination(dipPath, header[i])});
    }
  }

  lemma MorePlaces(places: set<string>, more: set<string>, before: map<string, Bytes>, after: map<string, Bytes>)
    requires SameExcept(places, before, after)
    ensures SameExcept(places + more, before, after)
  {
  }

  /** What arrives as the metadata: what stood there, or the last header file declared for that place. */
  ghost predicate Delivered(o: Outside, header: seq<Declared>, dipPath: string, metadataPath: string, before: map<string, Bytes>, bytes: Bytes) {
    if metadataPath !in Destinations(dipPath, header) then metadataPath in before && bytes == before[metadataPath]
    else exists k :: 0 <= k < |header| && Destination(dipPath, header[k]) == metadataPath && LastBefore(dipPath, header, k, |header|)
                     && SchemaBytes(o, header[k], bytes)
  }

  /** Moving the metadata to a free place disturbs no other header file. */
  lemma MovedAside(o: Outside, header: seq<Declared>, dipPath: string, start: map<string, Bytes>, before: map<string, Bytes>,
                   after: map<string, Bytes>, metadataPath: string, place: string)
    requires SameExcept(Destinations(dipPath, header), start, before) && SchemasIn(o, header, |header|, dipPath, before)
    requires metadataPath in before && place !in Destinations(dipPath, header) && metadataPath != place
    requires after == before[place := before[metadataPath]] - {metadataPath}
    ensures SameExcept(Destinations(dipPath, header) + {metadataPath, place}, start, after)
    ensures SchemasBesides(o, header, {metadataPath}, dipPath, after)
    ensures Delivered(o, header, dipPath, metadataPath, start, after[place])
  {
    hide SchemasIn, Destination, SchemasBesides, IsSchema, SchemaBytes;
    MoveFrame(Destinations(dipPath, header), start, before, after, metadataPath, place);
    SchemasStay(o, header, {metadataPath, place}, dipPath, before, after);
    assert {metadataPath} + {place} == {metadataPath, place};
    FewerExceptions(o, header, dipPath, after, {metadataPath}, place);
    if metadataPath in Destinations(dipPath, header) {
      var f :| f in header && Destination(dipPath, f) == metadataPath;
      var i :| 0 <= i < |header| && header[i] == f;
      var k := LastWith(dipPath, header, i);
      SchemaThere(o, header, k, dipPath, before);
    }
  }

  lemma FewerExceptions(o: Outside, header: seq<Declared>, dipPath: string, files: map<string, Bytes>, places: set<string>, place: string)
    requires SchemasBesides(o, header, places + {place}, dipPath, files) && place !in Destinations(dipPath, header)
    ensures SchemasBesides(o, header, places, dipPath, files)
  {
    hide IsSchema, Destination;
    assert forall k :: 0 <= k < |header| ==> header[k] in header && Destination(dipPath, header[k]) != place;
  }

  lemma SchemaThere(o: Outside, header: seq<Declared>, k: nat, dipPath: string, files: map<string, Bytes>)
    requires k < |header| && SchemasIn(o, header, |header|, dipPath, files) && LastBefore(dipPath, header, k, |header|)
    ensures var dst := Destination(dipPath, header[k]); dst in files && SchemaBytes(o, header[k], files[dst])
  {
    hide Destination;
  }

  lemma MoveFrame(places: set<string>, start: map<string, Bytes>, before: map<string, Bytes>, after: map<string, Bytes>,
                  src: string, dst: string)
    requires SameExcept(places, start, before) && src in before && src != dst && after == before[dst := before[src]] - {src}
    ensures SameExcept(places + {src, dst}, start, after) && SameExcept({src, dst}, before, after)
    ensures dst in after && after[dst] == before[src]
    ensures src !in places ==> src in start && after[dst] == start[src]
  {
  }

  lemma DestinationsAreThere(o: Outside, header: seq<Declared>, dipPath: string, files: map<string, Bytes>)
    requires SchemasIn(o, header, |header|, dipPath, files)
    ensures forall p :: p in Destinations(dipPath, header) ==> p in files
  {
    forall f | f in header
      ensures Destination(dipPath, f) in files
    {
      var i :| 0 <= i < |header| && header[i] == f;
      var k := LastWith(dipPath, header, i);
      assert IsSchema(o, header[k], dipPath, files);
    }
  }

  /** The last file with the same destination. */
  lemma LastWith(dipPath: string, fs: seq<Declared>, i: nat) returns (k: nat)
    requires i < |fs|
    ensures i <= k < |fs| && Destination(dipPath, fs[k]) == Destination(dipPath, fs[i]) && LastBefore(dipPath, fs, k, |fs|)
  {
    hide Destination;
    k := i;
    for j := i + 1 to |fs|
      invariant i <= k < j && Destination(dipPath, fs[k]) == Destination(dipPath, fs[i]) && LastBefore(dipPath, fs, k, j)
    {
      if Destination(dipPath, fs[j]) == Destination(dipPath, fs[i]) {
        k := j;
      }
    }
  }

  lemma OneMorePlace(dipPath: string, fs: seq<Declared>, i: nat, start: map<string, Bytes>, before: map<string, Bytes>, after: map<string, Bytes>)
    requires i < |fs| && SameExcept(Destinations(dipPath, fs[..i]), start, before)
    requires SameExcept({Destination(dipPath, fs[i])}, before, after)
    ensures SameExcept(Destinations(dipPath, fs[..i + 1]), start, after)
    ensures Destinations(dipPath, fs[..i + 1]) == Destinations(dipPath, fs[..i]) + {Destination(dipPath, fs[i])}
  {
    hide Destination;
    assert forall f :: f in fs[..i + 1] <==> f in fs[..i] || f == fs[i];
  }

  /** The DIP's place for the exported metadata. */
  function MetadataPlace(dipPath: string): string {
    Join([Join([dipPath, "header"]), "metadata.xml"])
  }

  /** The bytes are the schema of the header file's name and have the declared checksum. */
  predicate SchemaBytes(o: Outside, f: Declared, bytes: Bytes) {
    SCHEMA_PREFIX <= f.dipPath && o.schema(f.dipPath[|SCHEMA_PREFIX|..]) == Some(bytes) && Matches(o, bytes, f)
  }

  predicate IsSchema(o: Outside, f: Declared, dipPath: string, files: map<string, Bytes>) {
    var dst := Destination(dipPath, f);
    dst in files && SchemaBytes(o, f, files[dst])
  }

  predicate LastBefore(dipPath: string, fs: seq<Declared>, k: nat, n: nat)
    requires k < n <= |fs|
  {
    forall j :: k < j < n ==> Destination(dipPath, fs[j]) != Destination(dipPath, fs[k])
  }

  lemma SchemaElsewhere(o: Outside, f: Declared, dipPath: string, before: map<string, Bytes>, after: map<string, Bytes>, places: set<string>)
    requires SameExcept(places, before, after) && Destination(dipPath, f) !in places
    ensures IsSchema(o, f, dipPath, before) <==> IsSchema(o, f, dipPath, after)
  {
  }

  // Places in the working directory

  function MetadataExport(root: Location): string
    requires root != []
  {
    Path(true, root + ["metadata.xml"])
  }

  function DipPath(root: Location, dipUuid: string): string
    requires root != []
  {
    Path(true, root + ["DIP_" + dipUuid])
  }

  function MetsPlace(root: Location, uuid: string): string
    requires root != []
  {
    Path(true, root + ["METS." + uuid + ".xml"])
  }

  function MetsPlaces(root: Location, aips: seq<Package>): set<string>
    requires root != []
  {
    set a | a in aips :: MetsPlace(root, a.uuid)
  }

  /** The METS file of an AIP, as it is requested. */
  function MetsFile(a: Package): Declared {
    Declared(a.uuid, a.dirName + "/data/METS." + a.uuid + ".xml", "", "", "")
  }

  /** The bytes are the METS file of an AIP with the identifier. */
  ghost predicate MetsOfAip(o: Outside, aips: seq<Package>, uuid: string, bytes: Bytes) {
    exists j :: 0 <= j < |aips| && aips[j].uuid == uuid && bytes == o.aipFile(uuid, MetsFile(aips[j]).aipPath)
  }

  ghost predicate HasMets(o: Outside, aips: seq<Package>, i: nat, root: Location, files: map<string, Bytes>)
    requires i < |aips| && root != []
  {
    var p := MetsPlace(root, aips[i].uuid); p in files && MetsOfAip(o, aips, aips[i].uuid, files[p])
  }

  predicate MetsThere(aips: seq<Package>, root: Location, files: map<string, Bytes>)
    requires root != []
  {
    forall i :: 0 <= i < |aips| ==> MetsPlace(root, aips[i].uuid) in files
  }

  function MetsSeen(aips: seq<Package>, root: Location, files: map<string, Bytes>): seq<Bytes>
    requires root != [] && MetsThere(aips, root, files)
  {
    seq(|aips|, i requires 0 <= i < |aips| => files[MetsPlace(root, aips[i].uuid)])
  }

  lemma MetsAreSeen(o: Outside, aips: seq<Package>, root: Location, files: map<string, Bytes>)
    requires root != [] && forall i :: 0 <= i < |aips| ==> HasMets(o, aips, i, root, files)
    ensures MetsThere(aips, root, files) && |MetsSeen(aips, root, files)| == |aips|
    ensures forall i :: 0 <= i < |aips| ==> MetsOfAip(o, aips, aips[i].uuid, MetsSeen(aips, root, files)[i])
  {
    hide MetsPlace, MetsOfAip;
    forall i | 0 <= i < |aips|
      ensures MetsPlace(root, aips[i].uuid) in files
      ensures MetsOfAip(o, aips, aips[i].uuid, files[MetsPlace(root, aips[i].uuid)])
    {
      assert HasMets(o, aips, i, root, files);
    }
  }

  function AipRead(o: Outside, a: Package, bytes: Bytes): MetsMatch.AIP {
    MetsMatch.AIP(a.uuid, a.dirName, Some(o.tokens(bytes)))
  }

  function AipsRead(o: Outside, aips: seq<Package>, seen: seq<Bytes>): seq<MetsMatch.AIP>
    requires |seen| == |aips|
  {
    seq(|aips|, i requires 0 <= i < |aips| => AipRead(o, aips[i], seen[i]))
  }

  lemma NothingChanged(files: map<string, Bytes>)
    ensures SameExcept({}, files, files)
  {
  }

  lemma ExceptMore(places: set<string>, more: set<string>, start: map<string, Bytes>, before: map<string, Bytes>, after: map<string, Bytes>)
    requires SameExcept(places, start, before) && SameExcept(more, before, after)
    ensures SameExcept(places + more, start, after)
  {
  }

  lemma MoreMetsPlaces(root: Location, aips: seq<Package>, i: nat)
    requires root != [] && i < |aips|
    ensures MetsPlaces(root, aips[..i + 1]) == MetsPlaces(root, aips[..i]) + {MetsPlace(root, aips[i].uuid)}
  {
    hide MetsPlace;
    assert forall a :: a in aips[..i + 1] <==> a in aips[..i] || a == aips[i];
  }

  lemma MetsFetched(o: Outside, aips: seq<Package>, i: nat, root: Location, before: map<string, Bytes>, after: map<string, Bytes>)
    requires root != [] && i < |aips| && SameExcept({MetsPlace(root, aips[i].uuid)}, before, after)
    requires var p := MetsPlace(root, aips[i].uuid); p in after && after[p] == o.aipFile(aips[i].uuid, MetsFile(aips[i]).aipPath)
    requires forall j :: 0 <= j < i ==> HasMets(o, aips, j, root, before)
    ensures forall j :: 0 <= j <= i ==> HasMets(o, aips, j, root, after)
  {
    hide MetsPlace, MetsFile;
    assert MetsOfAip(o, aips, aips[i].uuid, after[MetsPlace(root, aips[i].uuid)]);
    hide MetsOfAip;
    forall j | 0 <= j <= i
      ensures HasMets(o, aips, j, root, after)
    {
      if j < i {
        assert HasMets(o, aips, j, root, before);
        SameMetsPlace(root, aips[j].uuid, aips[i].uuid);
      }
    }
  }

  lemma SameMetsPlace(root: Location, u: string, u': string)
    requires root != []
    ensures MetsPlace(root, u) == MetsPlace(root, u') ==> u == u'
  {
    var n, n' := "METS." + u + ".xml", "METS." + u' + ".xml";
    PathSnoc(true, root, n);
    PathSnoc(true, root, n');
    hide Path;
    SamePrefix(Path(true, root) + "/", n, n');
    assert n[5..|n| - 4] == u && n'[5..|n'| - 4] == u';
  }

  /** The METS files are not in the directory of the DIP. */
  lemma MetsIsElsewhere(root: Location, dipUuid: string, uuid: string)
    requires root != []
    ensures !(DipPath(root, dipUuid) + "/" <= MetsPlace(root, uuid))
  {
    var n, dip := "METS." + uuid + ".xml", "DIP_" + dipUuid;
    PathSnoc(true, root, n);
    PathSnoc(true, root, dip);
    hide Path;
    var here := Path(true, root) + "/";
    assert MetsPlace(root, uuid) == here + n && DipPath(root, dipUuid) + "/" == here + (dip + "/");
    assert (here + n)[|here|] == 'M' && (here + (dip + "/"))[|here|] == 'D';
  }

  lemma OnlyDeclaredInDip(o: Outside, root: Location, dipUuid: string, aips: seq<Package>, content: seq<Declared>, header: seq<Declared>,
                          metadataPath: string, metadata: Bytes, files: map<string, Bytes>)
    requires root != []
    requires Assembled(o, files, DipPath(root, dipUuid), content, header, metadataPath, metadata, MetsPlaces(root, aips))
    ensures forall p :: p in files && DipPath(root, dipUuid) + "/" <= p ==>
      p in Declareds(DipPath(root, dipUuid), content, header, metadataPath)
  {
    hide DipPath, MetsPlace, Declareds, ContentIn, SchemasBesides, DeliveredFrom, MetadataPlace, Destinations;
    forall p | p in MetsPlaces(root, aips)
      ensures !(DipPath(root, dipUuid) + "/" <= p)
    {
      var a :| a in aips && p == MetsPlace(root, a.uuid);
      MetsIsElsewhere(root, dipUuid, a.uuid);
    }
  }

  lemma DifferentPlaces(root: Location, dipUuid: string, aips: seq<Package>)
    requires root != [] && Names(root) && '/' !in dipUuid && forall a :: a in aips ==> '/' !in a.uuid
    ensures MetadataExport(root) !in MetsPlaces(root, aips)
    ensures MetadataExport(root) != MetadataPlace(DipPath(root, dipUuid))
  {
    var dip := "DIP_" + dipUuid;
    assert Name(dip) && Name("header") && Name("metadata.xml");
    NamesConcat(root, ["metadata.xml"]);
    forall a | a in aips
      ensures MetsPlace(root, a.uuid) != MetadataExport(root)
    {
      var n := "METS." + a.uuid + ".xml";
      assert n[0] == 'M' && n[|n| - 1] == 'l' && '/' !in n;
      NamesConcat(root, [n]);
      PathIsInjective(true, root + [n], root + ["metadata.xml"]);
      SamePrefix(root, [n], ["metadata.xml"]);
    }
    NamesConcat(root, [dip]);
    JoinPath(true, root + [dip], ["header"]);
    assert [Path(true, root + [dip])] + ["header"] == [Path(true, root + [dip]), "header"];
    var h := root + [dip] + ["header"];
    NamesConcat(root + [dip], ["header"]);
    JoinPath(true, h, ["metadata.xml"]);
    assert [Path(true, h)] + ["metadata.xml"] == [Path(true, h), "metadata.xml"];
    NamesConcat(h, ["metadata.xml"]);
    PathIsInjective(true, root + ["metadata.xml"], h + ["metadata.xml"]);
    assert |root + ["metadata.xml"]| != |h + ["metadata.xml"]|;
  }

  // What has been fetched

  /** The content file is at its place, as it is in the AIP and with its declared checksum. */
  predicate IsContent(o: Outside, f: Declared, dipPath: string, files: map<string, Bytes>) {
    var dst := Destination(dipPath, f);
    dst in files && files[dst] == o.aipFile(f.aipUuid, f.aipPath) && Acceptable(o, files[dst], f)
  }

  predicate ContentIn(o: Outside, content: seq<Declared>, n: nat, dipPath: string, files: map<string, Bytes>)
    requires n <= |content|
  {
    forall k :: 0 <= k < n && LastBefore(dipPath, content, k, n) ==> IsContent(o, content[k], dipPath, files)
  }

  lemma NothingFetched(o: Outside, content: seq<Declared>, dipPath: string, files: map<string, Bytes>)
    ensures ContentIn(o, content, 0, dipPath, files) && SameExcept(Destinations(dipPath, content[..0]), files, files)
  {
  }

  lemma ContentNext(o: Outside, content: seq<Declared>, i: nat, dipPath: string, before: map<string, Bytes>, after: map<string, Bytes>)
    requires i < |content| && ContentIn(o, content, i, dipPath, before)
    requires SameExcept({Destination(dipPath, content[i])}, before, after)
    requires var dst, f := Destination(dipPath, content[i]), content[i];
             dst in after && after[dst] == o.aipFile(f.aipUuid, f.aipPath) && Acceptable(o, after[dst], f)
    ensures ContentIn(o, content, i + 1, dipPath, after)
  {
    hide Destination, Acceptable;
    forall k | 0 <= k < i && LastBefore(dipPath, content, k, i + 1)
      ensures IsContent(o, content[k], dipPath, after)
    {
      assert LastBefore(dipPath, content, k, i);
      assert Destination(dipPath, content[i]) != Destination(dipPath, content[k]);
    }
  }

  lemma FewerPlaces(dipPath: string, fs: seq<Declared>, n: nat, before: map<string, Bytes>, after: map<string, Bytes>)
    requires n <= |fs| && SameExcept(Destinations(dipPath, fs[..n]), before, after)
    ensures SameExcept(Destinations(dipPath, fs), before, after)
  {
    hide Destination;
    assert forall f :: f in fs[..n] ==> f in fs;
    assert Destinations(dipPath, fs[..n]) <= Destinations(dipPath, fs);
  }

  lemma StillThere(places: set<string>, before: map<string, Bytes>, after: map<string, Bytes>, q: string)
    requires SameExcept(places, before, after) && q !in places && q in before
    ensures q in after && after[q] == before[q]
  {
  }

  /** The header files whose places are not among those given. */
  predicate SchemasBesides(o: Outside, header: seq<Declared>, places: set<string>, dipPath: string, files: map<string, Bytes>) {
    forall k | 0 <= k < |header| && LastBefore(dipPath, header, k, |header|) && Destination(dipPath, header[k]) !in places ::
      IsSchema(o, header[k], dipPath, files)
  }

  /** The places of the declared files and the metadata; a header file at the place of the export is moved away. */
  function Declareds(dipPath: string, content: seq<Declared>, header: seq<Declared>, metadataPath: string): set<string> {
    (Destinations(dipPath, header) - {metadataPath}) + Destinations(dipPath, content) + {MetadataPlace(dipPath)}
  }

  /** The metadata: the export, unless the last header file declared for its place has replaced it. */
  ghost predicate DeliveredFrom(o: Outside, header: seq<Declared>, dipPath: string, metadataPath: string, metadata: Bytes, bytes: Bytes) {
    Delivered(o, header, dipPath, metadataPath, map[metadataPath := metadata], bytes)
  }

  /**
    The working directory holds the declared files, the metadata and besides at most the METS files. Of files
    declared for the same place the last one is there, and content comes after the header.
  */
  ghost predicate Assembled(o: Outside, files: map<string, Bytes>, dipPath: string, content: seq<Declared>, header: seq<Declared>,
                            metadataPath: string, metadata: Bytes, others: set<string>) {
    var declared := Declareds(dipPath, content, header, metadataPath);
    && declared <= files.Keys <= declared + others
    && ContentIn(o, content, |content|, dipPath, files)
    && SchemasBesides(o, header, Destinations(dipPath, content) + {metadataPath}, dipPath, files)
    && (MetadataPlace(dipPath) !in Destinations(dipPath, content) ==>
          DeliveredFrom(o, header, dipPath, metadataPath, metadata, files[MetadataPlace(dipPath)]))
  }

  lemma ContentIsThere(o: Outside, content: seq<Declared>, dipPath: string, files: map<string, Bytes>)
    requires ContentIn(o, content, |content|, dipPath, files)
    ensures forall p :: p in Destinations(dipPath, content) ==> p in files
  {
    forall f | f in content
      ensures Destination(dipPath, f) in files
    {
      var i :| 0 <= i < |content| && content[i] == f;
      var k := LastWith(dipPath, content, i);
      assert IsContent(o, content[k], dipPath, files);
    }
  }

  lemma Finished(o: Outside, dipPath: string, metadataPath: string, content: seq<Declared>, header: seq<Declared>, others: set<string>,
                 exported: map<string, Bytes>, downloaded: map<string, Bytes>, prepared: map<string, Bytes>, files: map<string, Bytes>)
    requires SameExcept({metadataPath}, map[], exported) && SameExcept(others, exported, downloaded)
    requires metadataPath in exported && metadataPath !in others
    requires SameExcept(Destinations(dipPath, header) + {metadataPath, MetadataPlace(dipPath)}, downloaded, prepared)
    requires SchemasBesides(o, header, {metadataPath}, dipPath, prepared) && metadataPath !in prepared
    requires Destinations(dipPath, header) - {metadataPath} <= prepared.Keys && MetadataPlace(dipPath) in prepared
    requires Delivered(o, header, dipPath, metadataPath, downloaded, prepared[MetadataPlace(dipPath)])
    requires SameExcept(Destinations(dipPath, content), prepared, files) && ContentIn(o, content, |content|, dipPath, files)
    ensures Assembled(o, files, dipPath, content, header, metadataPath, exported[metadataPath], others)
  {
    ContentIsThere(o, content, dipPath, files);
    MoreSchemasStay(o, header, {metadataPath}, Destinations(dipPath, content), dipPath, prepared, files);
    hide Destination, MetadataPlace, ContentIn, SchemasBesides, Destinations, SameExcept;
    StillThere(others, exported, downloaded, metadataPath);
    assert {metadataPath} + Destinations(dipPath, content) == Destinations(dipPath, content) + {metadataPath};
    ExactPlaces(Destinations(dipPath, header), Destinations(dipPath, content), MetadataPlace(dipPath), metadataPath, others,
                exported, downloaded, prepared, files);
  }

  /** Which places hold a file in the end, given what each stage may have changed. */
  lemma ExactPlaces(h: set<string>, c: set<string>, place: string, metadataPath: string, others: set<string>,
                    exported: map<string, Bytes>, downloaded: map<string, Bytes>, prepared: map<string, Bytes>, files: map<string, Bytes>)
    requires SameExcept({metadataPath}, map[], exported) && SameExcept(others, exported, downloaded)
    requires SameExcept(h + {metadataPath, place}, downloaded, prepared) && SameExcept(c, prepared, files)
    requires h - {metadataPath} <= prepared.Keys && c <= files.Keys && place in prepared && metadataPath !in prepared
    ensures (h - {metadataPath}) + c + {place} <= files.Keys <= (h - {metadataPath}) + c + {place} + others
    ensures place !in c ==> files[place] == prepared[place]
  {
    forall q | q in files
      ensures q in (h - {metadataPath}) + c + {place} + others
    {
      if q !in c {
        assert q in prepared;
        if q !in h + {place} {
          assert q in downloaded;
          assert q !in others ==> q in exported;
        }
      }
    }
    forall q | q in (h - {metadataPath}) + c + {place}
      ensures q in files
    {
      assert q !in c ==> q in prepared;
    }
  }

  lemma MoreSchemasStay(o: Outside, header: seq<Declared>, gone: set<string>, places: set<string>, dipPath: string,
                        before: map<string, Bytes>, after: map<string, Bytes>)
    requires SchemasBesides(o, header, gone, dipPath, before) && SameExcept(places, before, after)
    ensures SchemasBesides(o, header, gone + places, dipPath, after)
  {
    hide Destination, IsSchema, SameExcept;
    forall k | 0 <= k < |header| && LastBefore(dipPath, header, k, |header|) && Destination(dipPath, header[k]) !in gone + places
      ensures IsSchema(o, header[k], dipPath, after)
    {
      SchemaElsewhere(o, header[k], dipPath, before, after, places);
    }
  }

  lemma SchemasStay(o: Outside, header: seq<Declared>, places: set<string>, dipPath: string, before: map<string, Bytes>, after: map<string, Bytes>)
    requires SchemasIn(o, header, |header|, dipPath, before) && SameExcept(places, before, after)
    ensures SchemasBesides(o, header, places, dipPath, after)
  {
    hide Destination, IsSchema, SameExcept;
    forall k | 0 <= k < |header| && LastBefore(dipPath, header, k, |header|) && Destination(dipPath, header[k]) !in places
      ensures IsSchema(o, header[k], dipPath, after)
    {
      SchemaElsewhere(o, header[k], dipPath, before, after, places);
    }
  }

  predicate DistinctPlaces(dipPath: string, fs: seq<Declared>) {
    forall i, j :: 0 <= i < j < |fs| ==> Destination(dipPath, fs[i]) != Destination(dipPath, fs[j])
  }

  /** When no two files are declared for the same place, every one is there as declared, and so is the metadata. */
  lemma DistinctPlacesAreIntact(o: Outside, files: map<string, Bytes>, dipPath: string, content: seq<Declared>, header: seq<Declared>,
                                metadataPath: string, metadata: Bytes, others: set<string>)
    requires Assembled(o, files, dipPath, content, header, metadataPath, metadata, others)
    requires DistinctPlaces(dipPath, content) && DistinctPlaces(dipPath, header)
    requires metadataPath !in Destinations(dipPath, header)
    requires Destinations(dipPath, content) !! Destinations(dipPath, header) + {MetadataPlace(dipPath)}
    ensures forall f :: f in content ==> IsContent(o, f, dipPath, files)
    ensures forall f :: f in header ==> IsSchema(o, f, dipPath, files)
    ensures MetadataPlace(dipPath) in files && files[MetadataPlace(dipPath)] == metadata
  {
    hide Destination, IsContent, IsSchema, MetadataPlace;
    forall f | f in content
      ensures IsContent(o, f, dipPath, files)
    {
      var i :| 0 <= i < |content| && content[i] == f;
      assert LastBefore(dipPath, content, i, |content|);
    }
    forall f | f in header
      ensures IsSchema(o, f, dipPath, files)
    {
      var i :| 0 <= i < |header| && header[i] == f;
      assert LastBefore(dipPath, header, i, |header|);
      assert Destination(dipPath, f) in Destinations(dipPath, header);
    }
  }

  // The places as paths

  /** A file of the DIP: its path below the DIP's directory, which is below the working directory. */
  predicate FileAt(root: Location, dipUuid: string, path: string, files: map<string, Bytes>, bytes: Bytes)
    requires root != []
  {
    var p := Path(true, root) + "/" + ("DIP_" + dipUuid + "/" + path);
    p in files && files[p] == bytes
  }

  lemma PlaceOfFile(root: Location, dipUuid: string, f: Declared, ns: Location)
    requires root != [] && Names(root) && '/' !in dipUuid && ns != [] && Names(ns) && f.dipPath == Slashed(ns)
    ensures Destination(DipPath(root, dipUuid), f) == Path(true, root) + "/" + ("DIP_" + dipUuid + "/" + f.dipPath)
  {
    var dip := "DIP_" + dipUuid;
    assert Name(dip) && Slashed([dip]) == dip && Names([dip]);
    NamesConcat(root, [dip]);
    NamesConcat([dip], ns);
    NamesConcat(root, [dip] + ns);
    hide Name, Names, Path, Slashed, Join;
    JoinBelowDip(root + [dip], ns);
    Assoc(root, [dip], ns);
    PathSplit(root, [dip] + ns);
    SlashedConcat([dip], ns);
  }

  lemma JoinBelowDip(cs: Location, ns: Location)
    requires cs != [] && ns != [] && Names(cs) && Names(ns)
    ensures Join([Path(true, cs), Slashed(ns)]) == Path(true, cs + ns)
  {
    JoinRelPath(true, cs, ns);
  }

  lemma PathSplit(root: Location, ns: Location)
    requires root != [] && ns != []
    ensures Path(true, root + ns) == Path(true, root) + "/" + Slashed(ns)
  {
    RootedIsSlashed(root);
    RootedIsSlashed(root + ns);
    Assoc([""], root, ns);
    SlashedConcat([""] + root, ns);
    hide Slashed;
  }

  lemma PlaceOfMetadata(root: Location, dipUuid: string)
    requires root != [] && Names(root) && '/' !in dipUuid
    ensures MetadataPlace(DipPath(root, dipUuid)) == Path(true, root) + "/" + ("DIP_" + dipUuid + "/" + ("header" + "/" + "metadata.xml"))
  {
    var dip, header, file := "DIP_" + dipUuid, "header", "metadata.xml";
    assert Name(dip) && Name(header) && Name(file) && Names([dip]) && Names([header]) && Names([file]);
    assert Slashed([header]) == header && Slashed([file]) == file && Slashed([dip]) == dip;
    NamesConcat(root, [dip]);
    NamesConcat(root + [dip], [header]);
    hide Name, Names, Path, Slashed, Join;
    JoinBelowDip(root + [dip], [header]);
    JoinBelowDip(root + [dip] + [header], [file]);
    Assoc(root + [dip], [header], [file]);
    Assoc(root, [dip], [header] + [file]);
    PathSplit(root, [dip] + ([header] + [file]));
    SlashedConcat([header], [file]);
    SlashedConcat([dip], [header] + [file]);
  }

  /** Every declared path is made of names. */
  ghost predicate NamedPaths(fs: seq<Declared>) {
    forall f :: f in fs ==> NamePath(f.dipPath)
  }

  /** The content file stands at its path with the AIP's bytes, which have the declared hash if one is declared. */
  predicate ContentAt(o: Outside, root: Location, dipUuid: string, f: Declared, files: map<string, Bytes>)
    requires root != []
  {
    var bytes := o.aipFile(f.aipUuid, f.aipPath);
    && FileAt(root, dipUuid, f.dipPath, files, bytes)
    && (f.checksum != "" && f.algorithm != "" ==> o.digest(bytes, f.algorithm) == Some(Lower(f.checksum)))
  }

  /** The header file stands at its path with the bytes of the schema, which have the declared hash. */
  ghost predicate SchemaAt(o: Outside, root: Location, dipUuid: string, f: Declared, files: map<string, Bytes>)
    requires root != []
  {
    exists name, bytes :: && f.dipPath == "header/xsd/" + name && o.schema(name) == Some(bytes)
                          && FileAt(root, dipUuid, f.dipPath, files, bytes)
                          && o.digest(bytes, f.algorithm) == Some(Lower(f.checksum))
  }

  lemma ContentByPath(o: Outside, root: Location, dipUuid: string, f: Declared, files: map<string, Bytes>)
    requires root != [] && Names(root) && '/' !in dipUuid && NamePath(f.dipPath)
    requires IsContent(o, f, DipPath(root, dipUuid), files)
    ensures ContentAt(o, root, dipUuid, f, files)
  {
    hide Destination, DipPath, Path, Lower, Slashed, Names;
    var ns :| ns != [] && Names(ns) && f.dipPath == Slashed(ns);
    PlaceOfFile(root, dipUuid, f, ns);
  }

  lemma SchemaByPath(o: Outside, root: Location, dipUuid: string, f: Declared, files: map<string, Bytes>)
    requires root != [] && Names(root) && '/' !in dipUuid && NamePath(f.dipPath)
    requires IsSchema(o, f, DipPath(root, dipUuid), files)
    ensures SchemaAt(o, root, dipUuid, f, files)
  {
    hide Destination, DipPath, Path, Lower, Slashed, Names;
    var ns :| ns != [] && Names(ns) && f.dipPath == Slashed(ns);
    PlaceOfFile(root, dipUuid, f, ns);
    var name, bytes := f.dipPath[|SCHEMA_PREFIX|..], files[Destination(DipPath(root, dipUuid), f)];
    assert f.dipPath == "header/xsd/" + name && o.schema(name) == Some(bytes);
  }

  /**
    The finished DIP by its paths: each content file as its AIP has it, with the declared hash if one is declared, each header
    file as the schema directory has it, with its hash, and the metadata that was exported.
  */
  lemma FilesOfTheDip(o: Outside, files: map<string, Bytes>, root: Location, dipUuid: string, content: seq<Declared>, header: seq<Declared>,
                      metadata: Bytes, others: set<string>)
    requires root != [] && Names(root) && '/' !in dipUuid && NamedPaths(content) && NamedPaths(header)
    requires Assembled(o, files, DipPath(root, dipUuid), content, header, MetadataExport(root), metadata, others)
    requires var dipPath := DipPath(root, dipUuid);
             && DistinctPlaces(dipPath, content) && DistinctPlaces(dipPath, header) && MetadataExport(root) !in Destinations(dipPath, header)
             && Destinations(dipPath, content) !! Destinations(dipPath, header) + {MetadataPlace(dipPath)}
    ensures forall f :: f in content ==> ContentAt(o, root, dipUuid, f, files)
    ensures forall f :: f in header ==> SchemaAt(o, root, dipUuid, f, files)
    ensures FileAt(root, dipUuid, "header" + "/" + "metadata.xml", files, metadata)
  {
    hide *;
    var dipPath := DipPath(root, dipUuid);
    DistinctPlacesAreIntact(o, files, dipPath, content, header, MetadataExport(root), metadata, others);
    forall f | f in content
      ensures ContentAt(o, root, dipUuid, f, files)
    {
      PathOfNamed(content, f);
      ContentByPath(o, root, dipUuid, f, files);
    }
    forall f | f in header
      ensures SchemaAt(o, root, dipUuid, f, files)
    {
      PathOfNamed(header, f);
      SchemaByPath(o, root, dipUuid, f, files);
    }
    PlaceOfMetadata(root, dipUuid);
    MetadataByPath(root, dipUuid, files, metadata);
  }

  lemma PathOfNamed(fs: seq<Declared>, f: Declared)
    requires NamedPaths(fs) && f in fs
    ensures NamePath(f.dipPath)
  {
  }

  lemma MetadataByPath(root: Location, dipUuid: string, files: map<string, Bytes>, metadata: Bytes)
    requires root != []
    requires var p := Path(true, root) + "/" + ("DIP_" + dipUuid + "/" + ("header" + "/" + "metadata.xml")); p in files && files[p] == metadata
    ensures FileAt(root, dipUuid, "header" + "/" + "metadata.xml", files, metadata)
  {
  }

  /** What the search reads: of each AIP its identifier, its directory and the METS file that is named after it. */
  lemma MetsOfTheAips(o: Outside, aips: seq<Package>, seen: seq<Bytes>, i: nat)
    requires |seen| == |aips| && i < |aips| && MetsOfAip(o, aips, aips[i].uuid, seen[i])
    ensures var read := AipsRead(o, aips, seen)[i];
            read.uuid == aips[i].uuid && read.dirName == aips[i].dirName && read.mets == Some(o.tokens(seen[i]))
    ensures exists j :: && 0 <= j < |aips| && aips[j].uuid == aips[i].uuid
                        && seen[i] == o.aipFile(aips[i].uuid, aips[j].dirName + "/data/METS." + aips[i].uuid + ".xml")
  {
  }
}
