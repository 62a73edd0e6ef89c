/**
  The write-identifier-file activity (internal/activities/write_identifier_file.go): the manifest is read from the
  restructured package, from where the package's new form says it is, and its files are listed.
*/
module WriteIdentifiers {
  import opened Wrappers
  import opened Paths
  import opened FileSystem
  import opened Sip
  import opened TransformSip
  import opened Identifiers
  import opened Sorting
  import opened PremisRun
  import opened PathAgreement
  import opened IdentifierFile
  import Xml
  import Manifest
  import VerifyManifest

  /** The XML decoder: the tokens of a file, and whether they end properly. */
  type Decoder = seq<bv8> -> (seq<Xml.Token>, bool)

  /** The manifest that the parser reads from a file; None if there is no file or it cannot be parsed. */
  function ManifestOnDisk(t: Tree, path: string, decode: Decoder): Option<Manifest.Manifest> {
    var at := Locate(path);
    if at in t && t[at].File? then VerifyManifest.ManifestOf(Some(decode(t[at].bytes))) else None
  }

  lemma ParsedPathsAreCleaned(t: Tree, path: string, decode: Decoder)
    ensures var m := ManifestOnDisk(t, path, decode); m.Some? ==> Manifest.CleanedKeys(m.value.files)
  {
    var at := Locate(path);
    if at in t && t[at].File? {
      var (tokens, eof) := decode(t[at].bytes);
      Manifest.PathsAreCleaned(tokens, eof, [], Manifest.FRESH);
    }
  }

  // The activity

  datatype WriteError = NoManifest | NoList(error: ListError)

  /** The list is that of the manifest's files. */
  ghost predicate ListOf(pip: PIP, m: Manifest.Manifest, list: seq<IdFile>) {
    exists ids :: Lists(ids, m.files) && Sorted(list, KeyOf) && multiset(list) == multiset(Converted(pip, ids))
  }

  /** What is written to the identifier file of the restructured package. */
  method Write(disk: Disk, pip: PIP, decode: Decoder) returns (r: Result<seq<IdFile>, WriteError>)
    ensures r == Err(NoManifest) <==> ManifestOnDisk(disk.tree, pip.manifestPath, decode).None?
    ensures var m := ManifestOnDisk(disk.tree, pip.manifestPath, decode);
            m.Some? ==>
              && (r.Ok? <==> m.value.files != map[] && forall p :: p in m.value.files ==> m.value.files[p].Some?)
              && (r.Ok? ==> ListOf(pip, m.value, r.value))
  {
    var m := ManifestOnDisk(disk.tree, pip.manifestPath, decode);
    if m.None? {
      return Err(NoManifest);
    }
    var ids := FromManifest(m.value.files);
    if ids.Err? {
      assert ids.error == NoFiles || ids == Err(NilDereference);
      return Err(NoList(ids.error));
    }
    var list := PipIdentifiers(pip, ids.value);
    return Ok(list);
  }

  // What the list says

  /** An entry of the list leads to where restructuring has put what was at the place. */
  ghost predicate Reached(kind: Kind, root: Location, list: seq<IdFile>, at: Location)
    requires root != []
  {
    exists y :: y in list && LeadsTo(kind, root, y, at)
  }

  ghost predicate ReachedAs(kind: Kind, root: Location, list: seq<IdFile>, at: Location, id: string)
    requires root != []
  {
    exists y :: y in list && y.id == id && LeadsTo(kind, root, y, at)
  }

  /** One entry does, with the identifier; it occurs once, and no other leads there or has its path. */
  ghost predicate IdentifiedAlone(kind: Kind, root: Location, list: seq<IdFile>, at: Location, id: string)
    requires root != []
  {
    exists y :: OnlyEntry(y, list) && y.id == id && LeadsTo(kind, root, y, at)
                && forall z :: z in list && LeadsTo(kind, root, z, at) ==> z == y
  }

  /**
    For every package type and every manifest that has been parsed: a content file without a special name is
    identified if and only if the manifest lists it under its own path, and then it has the identifier from there,
    in one entry only.
  */
  lemma ContentIsIdentifiedIffListed(kind: Kind, root: Location, m: Manifest.Manifest, list: seq<IdFile>, r: Location)
    requires Root(root) && Manifest.CleanedKeys(m.files) && ListOf(NewPip(Path(true, root), kind), m, list)
    requires ContentFile(r) && !Special(r[|r| - 1])
    ensures Reached(kind, root, list, ContentAt(kind) + r) <==> ManifestPath(r) in m.files
    ensures ManifestPath(r) in m.files ==>
      m.files[ManifestPath(r)].Some? && IdentifiedAlone(kind, root, list, ContentAt(kind) + r, m.files[ManifestPath(r)].value.id)
  {
    var pip := NewPip(Path(true, root), kind);
    assert root != [];
    hide NewPip, Path, Converted, Special, ManifestPath, LeadsTo, OnlyEntry, CleanedPath, ContentAt, Root, ContentFile, Sorted;
    var ids :| Lists(ids, m.files) && Sorted(list, KeyOf) && multiset(list) == multiset(Converted(pip, ids));
    assert CleanedPathsOnly(ids);
    ContentIsIdentifiedIff(kind, root, ids, list, r);
    if ManifestPath(r) in m.files {
      var x := IdFile(ManifestPath(r), m.files[ManifestPath(r)].value.id);
      assert x in ids;
      IdentifiersPointToFiles(kind, root, ids, list, x, r);
      EntryIsThere(ConvertedEntry(pip, x), list);
      assert ConvertedEntry(pip, x).id == x.id;
    }
  }

  // Which manifest that is

  /** The metadata file goes where most packages have their manifest afterwards. */
  lemma MetadataTarget(kind: Kind, root: Location)
    requires Root(root)
    ensures Target(kind, root, root + MetadataAt(kind)) == Some(root + MetadataTo(NameOf(root)))
  {
    var name, ns := NameOf(root), ListedMetadata(kind);
    MetadataNames(kind, name);
    assert NewPlace(name, ns) == Some(MetadataTo(name)) by {
      Words();
    }
    hide Destination, Target, NewPlace, InStep, PlaceOf, MetadataTo;
    if IsAIP(kind) {
      AipInStepIff(kind, name, ns);
    } else {
      SipInStepIff(kind, name, ns);
    }
    TargetOfPlace(kind, root, MetadataAt(kind));
  }

  lemma CarriedManifest(kind: Kind, root: Location, before: Tree, after: Tree, decode: Decoder, p: string, q: string)
    requires root != [] && Restructured(kind, root, before, after)
    requires Locate(p) in before && Target(kind, root, Locate(p)) == Some(Locate(q))
    ensures ManifestOnDisk(after, q, decode) == ManifestOnDisk(before, p, decode)
  {
    hide Target, Locate, VerifyManifest.ManifestOf;
  }

  /**
    After restructuring, the activity reads the manifest that was verified, except for born-digital AIPs, whose
    identifiers come from the old metadata file.
  */
  lemma WhichManifest(kind: Kind, root: Location, before: Tree, after: Tree, decode: Decoder)
    requires Root(root) && Restructured(kind, root, before, after)
    requires var sip := LaidOut(kind, Path(true, root)); Locate(sip.manifestPath) in before && Locate(sip.metadataPath) in before
    ensures var sip, pip := LaidOut(kind, Path(true, root)), NewPip(Path(true, root), kind);
            ManifestOnDisk(after, pip.manifestPath, decode)
            == ManifestOnDisk(before, if kind == BornDigitalAIP then sip.metadataPath else sip.manifestPath, decode)
  {
    var sip, pip := LaidOut(kind, Path(true, root)), NewPip(Path(true, root), kind);
    var p := if kind == BornDigitalAIP then sip.metadataPath else sip.manifestPath;
    ManifestIsFoundIff(kind, root);
    MetadataTarget(kind, root);
    NewManifestPlace(kind, root);
    MetadataPlace(kind, root);
    hide LaidOut, NewPip, Path, Locate, Target, Restructured, ManifestOnDisk, MetadataTo;
    CarriedManifest(kind, root, before, after, decode, p, pip.manifestPath);
  }

  lemma MetadataPlace(kind: Kind, root: Location)
    requires Root(root)
    ensures Locate(LaidOut(kind, Path(true, root)).metadataPath) == root + MetadataAt(kind)
  {
    LayoutOf(kind, root);
    LayoutNames(kind, NameOf(root));
    hide LaidOut, Path, Names, Locate, MetadataAt, Stands;
    LocateIn(LaidOut(kind, Path(true, root)).metadataPath, root, MetadataAt(kind));
  }
}
