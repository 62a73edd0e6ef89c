/**
  What the parser, the manifest check and the identifier file mean together: the paths of a package in the
  expected form, and the identifiers of a package that has been verified.
*/
module VerifiedPackages {
  import opened Wrappers
  import opened Paths
  import opened FileSystem
  import opened Sip
  import opened TransformSip
  import opened Identifiers
  import opened PremisRun
  import opened PathAgreement
  import opened IdentifierFile
  import opened WriteIdentifiers
  import opened Sorting
  import Xml
  import Manifest
  import Inventory
  import ReadersAgree
  import PackageTree
  import StructureReport
  import VerifyManifest
  import ValidatedPackages

  // What the parser makes of documents

  lemma {:induction false} EnteredPathsAreNames(files: map<string, Option<Manifest.File>>, ls: seq<Inventory.Listed>)
    requires VerifyManifest.NamePaths(files) && ReadersAgree.Below(ls, [])
    ensures VerifyManifest.NamePaths(Inventory.Entered(files, ls))
    decreases |ls|
  {
    if ls != [] {
      assert ls[0] in ls && forall l :: l in ls[1..] ==> l in ls;
      assert NamePath(Slashed(ls[0].names));
      hide NamePath;
      EnteredPathsAreNames(files[Slashed(ls[0].names) := Some(ls[0].file)], ls[1..]);
    }
  }

  /** The paths that the parser enters for a package in the expected form are made of names. */
  lemma PackagesHaveNamePaths(doc: seq<Xml.Node>)
    requires Inventory.Package(doc)
    ensures Manifest.ReadDocument(doc).Ok? && VerifyManifest.NamePaths(Manifest.ReadDocument(doc).value.files)
  {
    var inventory := Inventory.InventoryIn(Inventory.Root(doc).kids);
    Inventory.ReadPackage(doc);
    ReadersAgree.PackageFolders(doc);
    ReadersAgree.ListingIsBelow(inventory, true, []);
    EnteredPathsAreNames(map[], Inventory.Listing(inventory, []));
  }

  // The identifiers of a verified package

  /** A file of the package where a manifest can list it is listed there. */
  lemma FileIsListed(kind: Kind, tree: PackageTree.Node, listed: map<string, Option<Manifest.File>>, ns: Location)
    requires ns != [] && Names(ns) && VerifyManifest.IsFile(tree, PlaceOf(kind, ns)) && VerifyManifest.InScope(kind, PlaceOf(kind, ns))
    requires IsAIP(kind) ==> VerifyManifest.NamePaths(listed)
    requires exists files :: VerifyManifest.IsPrefixed(kind, listed, files) && SameFiles(kind, tree, files)
    ensures Slashed(ns) in listed
  {
    var files :| VerifyManifest.IsPrefixed(kind, listed, files) && SameFiles(kind, tree, files);
    PlaceOfNames(kind, ns);
    assert RelPath(PlaceOf(kind, ns)) in files;
    if IsAIP(kind) {
      var k :| k in listed && Join([CONTENT, k]) == Slashed(PlaceOf(kind, ns));
      PrefixedPath(kind, k, ns);
    }
  }

  lemma PlaceOfNames(kind: Kind, ns: Location)
    requires ns != [] && Names(ns)
    ensures PlaceOf(kind, ns) != [] && Names(PlaceOf(kind, ns))
    ensures RelPath(PlaceOf(kind, ns)) == Slashed(PlaceOf(kind, ns))
  {
    Words();
    NamesConcat([CONTENT], ns);
  }

  lemma PrefixedPath(kind: Kind, k: string, ns: Location)
    requires IsAIP(kind) && NamePath(k) && ns != [] && Names(ns) && Join([CONTENT, k]) == Slashed(PlaceOf(kind, ns))
    ensures k == Slashed(ns)
  {
    var cs :| cs != [] && Names(cs) && k == Slashed(cs);
    VerifyManifest.PrefixOfNames(cs);
    PlaceOfNames(kind, ns);
    hide Join, Slashed, Names;
    PathIsInjective(false, [CONTENT] + cs, PlaceOf(kind, ns));
    SamePrefix([CONTENT], cs, ns);
  }

  /** The manifest's files are the files of the package that are in scope. */
  ghost predicate SameFiles(kind: Kind, tree: PackageTree.Node, files: map<string, Option<Manifest.File>>) {
    && (forall at | Names(at) ::
          RelPath(at) in files <==> VerifyManifest.IsFile(tree, at) && VerifyManifest.InScope(kind, at))
    && (forall p :: p in files ==> exists at :: Names(at) && p == RelPath(at))
  }

  /** The manifest of an accepted package that has been verified: for an AIP, of one in the expected form. */
  ghost predicate VerifiedManifest(kind: Kind, tree: PackageTree.Node, m: Manifest.Manifest, digest: VerifyManifest.Digests) {
    && StructureReport.StructureOk(tree, kind)
    && (IsAIP(kind) ==> VerifyManifest.NamePaths(m.files))
    && exists files :: VerifyManifest.IsPrefixed(kind, m.files, files) && VerifyManifest.Verified(kind, tree, m.schemaVersion, files, digest)
  }

  lemma VerifiedListsTheFiles(kind: Kind, tree: PackageTree.Node, m: Manifest.Manifest, digest: VerifyManifest.Digests)
    requires VerifiedManifest(kind, tree, m, digest)
    ensures exists files :: VerifyManifest.IsPrefixed(kind, m.files, files) && SameFiles(kind, tree, files)
  {
    hide VerifyManifest.IsPrefixed, VerifyManifest.IsFile, VerifyManifest.InScope, RelPath, Names, StructureReport.StructureOk;
    var files :| VerifyManifest.IsPrefixed(kind, m.files, files) && VerifyManifest.Verified(kind, tree, m.schemaVersion, files, digest);
    assert SameFiles(kind, tree, files);
  }

  /** The file at `at` in the package is still there, with its bytes, at the place that an entry names. */
  ghost predicate KeptAt(root: Location, before: Tree, after: Tree, at: Location, y: IdFile) {
    && root + at in before && before[root + at].File?
    && Located(root, y.path) in after && after[Located(root, y.path)] == before[root + at]
  }

  lemma EntryHasItsFile(kind: Kind, root: Location, tree: PackageTree.Node, before: Tree, after: Tree, at: Location, y: IdFile)
    requires root != [] && Restructured(kind, root, before, after) && ValidatedPackages.OnDisk(before, root, tree)
    requires LeadsTo(kind, root, y, at) && VerifyManifest.IsFile(tree, at)
    ensures KeptAt(root, before, after, at, y)
  {
    hide PackageTree.NodeAt, Located, Target;
    assert StructureReport.Exists(tree, at) && !StructureReport.IsDir(tree, at);
    assert root + at in before && before[root + at].File?;
    assert Target(kind, root, root + at) == Some(Located(root, y.path));
  }

  /**
    The identifier file of an accepted and verified package on a disk that has it. It is made from the verified manifest, except for
    born-digital AIPs; and then each content file without a special name is identified where it is, by one entry only and
    by the identifier that the manifest has for it, and so is the metadata file of an AIP. For born-digital AIPs it is
    made from the old metadata file. Where an entry leads to from a file of the package, that file is found.
  */
  lemma VerifiedFilesAreIdentified(kind: Kind, root: Location, tree: PackageTree.Node, before: Tree, after: Tree, decode: Decoder,
                                   digest: VerifyManifest.Digests, m: Manifest.Manifest, m': Manifest.Manifest, list: seq<IdFile>)
    requires Root(root) && Restructured(kind, root, before, after) && ValidatedPackages.OnDisk(before, root, tree)
    requires var sip := LaidOut(kind, Path(true, root));
             && Locate(sip.manifestPath) in before && Locate(sip.metadataPath) in before
             && ManifestOnDisk(before, sip.manifestPath, decode) == Some(m) && VerifiedManifest(kind, tree, m, digest)
    requires var pip := NewPip(Path(true, root), kind);
             ManifestOnDisk(after, pip.manifestPath, decode) == Some(m') && ListOf(pip, m', list)
    ensures kind != BornDigitalAIP ==>
      && m' == m
      && (forall r :: ContentFile(r) && VerifyManifest.IsFile(tree, ContentAt(kind) + r) && !Special(r[|r| - 1]) ==>
            && ManifestPath(r) in m.files && m.files[ManifestPath(r)].Some?
            && IdentifiedAlone(kind, root, list, ContentAt(kind) + r, m.files[ManifestPath(r)].value.id))
      && (IsAIP(kind) && VerifyManifest.IsFile(tree, MetadataAt(kind)) ==>
            var p := Slashed(ListedMetadata(kind));
            p in m.files && m.files[p].Some? && ReachedAs(kind, root, list, MetadataAt(kind), m.files[p].value.id))
    ensures kind == BornDigitalAIP ==> ManifestOnDisk(before, LaidOut(kind, Path(true, root)).metadataPath, decode) == Some(m')
    ensures forall r :: ContentFile(r) && !Special(r[|r| - 1]) ==>
      (Reached(kind, root, list, ContentAt(kind) + r) <==> ManifestPath(r) in m'.files)
    ensures forall y, at :: y in list && VerifyManifest.IsFile(tree, at) && LeadsTo(kind, root, y, at) ==> KeptAt(root, before, after, at, y)
  {
    var sip, pip := LaidOut(kind, Path(true, root)), NewPip(Path(true, root), kind);
    assert root != [];
    hide Root, Restructured, Locate, ManifestOnDisk, VerifiedManifest, ListOf, VerifyManifest.IsFile, Special, IdentifiedAlone, Reached,
         Names, Name, ContentAt, MetadataAt, NewPip, LaidOut, Path, ManifestPath, Manifest.CleanedKeys, ValidatedPackages.OnDisk, LeadsTo,
         KeptAt;
    forall y, at | y in list && VerifyManifest.IsFile(tree, at) && LeadsTo(kind, root, y, at)
      ensures KeptAt(root, before, after, at, y)
    {
      EntryHasItsFile(kind, root, tree, before, after, at, y);
    }
    WhichManifest(kind, root, before, after, decode);
    ParsedPathsAreCleaned(after, pip.manifestPath, decode);
    forall r | ContentFile(r) && !Special(r[|r| - 1])
      ensures Reached(kind, root, list, ContentAt(kind) + r) <==> ManifestPath(r) in m'.files
      ensures kind != BornDigitalAIP && VerifyManifest.IsFile(tree, ContentAt(kind) + r) ==>
        && ManifestPath(r) in m.files && m.files[ManifestPath(r)].Some?
        && IdentifiedAlone(kind, root, list, ContentAt(kind) + r, m.files[ManifestPath(r)].value.id)
    {
      ContentIsIdentifiedIffListed(kind, root, m', list, r);
      if kind != BornDigitalAIP && VerifyManifest.IsFile(tree, ContentAt(kind) + r) {
        VerifiedContentIsListed(kind, tree, m, digest, r);
      }
    }
    if IsAIP(kind) && kind != BornDigitalAIP && VerifyManifest.IsFile(tree, MetadataAt(kind)) {
      VerifiedMetadataIsListed(kind, tree, m, digest);
      ListedMetadataIsReached(kind, root, m, list);
    }
  }

  lemma VerifiedContentIsListed(kind: Kind, tree: PackageTree.Node, m: Manifest.Manifest, digest: VerifyManifest.Digests, r: Location)
    requires VerifiedManifest(kind, tree, m, digest) && ContentFile(r) && VerifyManifest.IsFile(tree, ContentAt(kind) + r)
    ensures ManifestPath(r) in m.files
  {
    assert IsAIP(kind) ==> VerifyManifest.NamePaths(m.files);
    hide *;
    ContentPlace(kind, r);
    VerifiedListsTheFiles(kind, tree, m, digest);
    ContentName(r);
    FileIsListed(kind, tree, m.files, [CONTENT] + r);
  }

  lemma ContentName(r: Location)
    ensures [CONTENT] + r != []
  {
  }

  lemma ContentPlace(kind: Kind, r: Location)
    requires ContentFile(r)
    ensures PlaceOf(kind, [CONTENT] + r) == ContentAt(kind) + r && VerifyManifest.InScope(kind, ContentAt(kind) + r)
    ensures Names([CONTENT] + r) && Slashed([CONTENT] + r) == ManifestPath(r)
  {
    Words();
    assert Names([CONTENT]);
    hide CONTENT, HEADER, METADATA_FILE, Name, Slashed;
    NamesConcat([CONTENT], r);
    assert [CONTENT] + ([CONTENT] + r) == [CONTENT, CONTENT] + r;
    assert ([CONTENT] + r)[0] == CONTENT && ([CONTENT, CONTENT] + r)[0] == CONTENT;
  }

  lemma VerifiedMetadataIsListed(kind: Kind, tree: PackageTree.Node, m: Manifest.Manifest, digest: VerifyManifest.Digests)
    requires VerifiedManifest(kind, tree, m, digest) && IsAIP(kind) && VerifyManifest.IsFile(tree, MetadataAt(kind))
    ensures Slashed(ListedMetadata(kind)) in m.files
  {
    assert VerifyManifest.NamePaths(m.files);
    hide *;
    MetadataNames(kind, "");
    MetadataInScope(kind);
    VerifiedListsTheFiles(kind, tree, m, digest);
    FileIsListed(kind, tree, m.files, ListedMetadata(kind));
  }

  lemma MetadataInScope(kind: Kind)
    requires IsAIP(kind)
    ensures VerifyManifest.InScope(kind, MetadataAt(kind))
  {
  }

  lemma ListedMetadataIsReached(kind: Kind, root: Location, m: Manifest.Manifest, list: seq<IdFile>)
    requires Root(root) && ListOf(NewPip(Path(true, root), kind), m, list) && Slashed(ListedMetadata(kind)) in m.files
    ensures var p := Slashed(ListedMetadata(kind));
            m.files[p].Some? && ReachedAs(kind, root, list, MetadataAt(kind), m.files[p].value.id)
  {
    var pip, p := NewPip(Path(true, root), kind), Slashed(ListedMetadata(kind));
    assert root != [];
    hide NewPip, Path, Converted, ConvertSipPath, LeadsTo, MetadataAt, ListedMetadata, Slashed, Root, Sorted;
    var ids :| Lists(ids, m.files) && Sorted(list, KeyOf) && multiset(list) == multiset(Converted(pip, ids));
    var x := IdFile(p, m.files[p].value.id);
    assert x in ids;
    MetadataIsIdentified(kind, root, ids, list, x);
    assert ConvertedEntry(pip, x).id == x.id;
  }
}
