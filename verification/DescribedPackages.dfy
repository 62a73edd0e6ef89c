/**
  Describing an accepted package in premis.xml and then restructuring it (internal/workflows/preprocessing.go): the
  objects of premis.xml and the files below the objects directory are the same, whatever the files are called.
*/
module DescribedPackages {
  import opened Wrappers
  import opened Paths
  import opened FileSystem
  import opened Sip
  import opened PackageTree
  import opened PremisRun
  import opened TransformSip
  import opened ValidatedPackages
  import opened Premis
  import opened PremisDocument
  import PathAgreement
  import StructureReport
  import VerifyManifest

  // The files of the content directory

  function FilesOf(es: seq<PackageTree.Entry>): seq<Location> {
    if es == [] then [] else (if es[0].isDir then [] else [es[0].at]) + FilesOf(es[1..])
  }

  lemma {:induction false} FilesOfConcat(a: seq<PackageTree.Entry>, b: seq<PackageTree.Entry>)
    ensures FilesOf(a + b) == FilesOf(a) + FilesOf(b)
    decreases |a|
  {
    if a == [] {
      assert a + b == b;
    } else {
      assert (a + b)[0] == a[0] && (a + b)[1..] == a[1..] + b;
      FilesOfConcat(a[1..], b);
      var first := if a[0].isDir then [] else [a[0].at];
      assert first + (FilesOf(a[1..]) + FilesOf(b)) == (first + FilesOf(a[1..])) + FilesOf(b);
    }
  }

  /** The walk over the content directory, which remembers the files. */
  method FilesWithin(content: Node) returns (files: seq<Location>)
    ensures files == FilesOf(Walk(content, []))
  {
    var es := Walk(content, []);
    hide FilesOf, Walk;
    files := [];
    NoFiles();
    for i := 0 to |es|
      invariant files == FilesOf(es[..i])
    {
      OneMoreFile(es, i);
      if !es[i].isDir {
        files := files + [es[i].at];
      }
    }
    assert es[..|es|] == es;
  }

  lemma NoFiles()
    ensures FilesOf([]) == []
  {
  }

  lemma OneMoreFile(es: seq<PackageTree.Entry>, i: nat)
    requires i < |es|
    ensures FilesOf(es[..i + 1]) == if es[i].isDir then FilesOf(es[..i]) else FilesOf(es[..i]) + [es[i].at]
  {
    assert es[..i + 1] == es[..i] + [es[i]];
    assert [es[i]][1..] == [] && FilesOf([]) == [];
    assert FilesOf([es[i]]) == if es[i].isDir then [] else [es[i].at];
    FilesOfConcat(es[..i], [es[i]]);
  }

  lemma {:induction false} FilesOfMeans(es: seq<PackageTree.Entry>)
    ensures forall f :: f in FilesOf(es) <==> PackageTree.Entry(f, false) in es
    ensures PreOrder(es) ==> forall i, j :: 0 <= i < j < |FilesOf(es)| ==> FilesOf(es)[i] != FilesOf(es)[j]
    decreases |es|
  {
    if es != [] {
      var rest := es[1..];
      FilesOfMeans(rest);
      assert es == [es[0]] + rest;
      if PreOrder(es) {
        assert forall i :: 0 <= i < |rest| ==> rest[i] == es[i + 1];
        assert PreOrder(rest);
        forall k | 0 <= k < |rest|
          ensures rest[k].at != es[0].at
        {
          assert NotBefore(es[0], es[k + 1]);
        }
      }
    }
  }

  lemma ContentFiles(content: Node)
    requires WellNamed(content)
    ensures DistinctContentFiles(FilesOf(Walk(content, [])))
    ensures forall f :: f in FilesOf(Walk(content, [])) <==> VerifyManifest.IsFile(content, f)
  {
    var es := Walk(content, []);
    assert Names([]);
    hide Walk, WellNamed, FilesOf, NodeAt, Names;
    FilesOfMeans(es);
    WalkIsPreOrder(content, []);
    WalkNames(content, []);
    forall f
      ensures PackageTree.Entry(f, false) in es <==> VerifyManifest.IsFile(content, f)
      ensures PackageTree.Entry(f, false) in es ==> Names(f)
    {
      assert [] + f == f;
      WalkShowsNodes(content, [], f);
    }
  }

  // Objects and files

  /** The original name, without the payload directory of the bag, is the path in the package. */
  predicate NameIsPath(name: string, root: Location, at: Location) {
    Under(root, at) && at != root && name == "data/" + Slashed(at[|root|..])
  }

  predicate OnlyIn(report: seq<PremisDocument.Entry>, i: int, root: Location, at: Location) {
    0 <= i < |report| && forall j :: 0 <= j < |report| ==> (NameIsPath(report[j].name, root, at) <==> j == i)
  }

  /** The content file `r` is where it goes, with its bytes, and one object has that place as its name. */
  ghost predicate FoundByName(report: seq<PremisDocument.Entry>, kind: Kind, root: Location, before: Tree, after: Tree, r: Location)
    requires root != []
  {
    var from, to := root + (ContentAt(kind) + r), PathAgreement.Really(root, r);
    && from in before && before[from].File? && to in after && after[to] == before[from]
    && exists i :: OnlyIn(report, i, root, to)
  }

  ghost predicate OfContent(name: string, kind: Kind, root: Location, tree: Node)
    requires root != []
  {
    exists r :: VerifyManifest.IsFile(tree, ContentAt(kind) + r) && NameIsPath(name, root, PathAgreement.Really(root, r))
  }

  ghost predicate FromContent(kind: Kind, root: Location, tree: Node, q: Location)
    requires root != []
  {
    exists r :: VerifyManifest.IsFile(tree, ContentAt(kind) + r) && q == PathAgreement.Really(root, r)
  }

  /**
    Each content file is found under the name of one object, each object is of a content file, and there are no other
    files in the content directory below "objects".
  */
  ghost predicate DescribedInPlace(report: seq<PremisDocument.Entry>, kind: Kind, root: Location, tree: Node, before: Tree, after: Tree)
    requires root != []
  {
    && (forall r :: VerifyManifest.IsFile(tree, ContentAt(kind) + r) ==> FoundByName(report, kind, root, before, after, r))
    && (forall i :: 0 <= i < |report| ==> OfContent(report[i].name, kind, root, tree))
    && (forall q :: q in after && after[q].File? && Under(root + ContentTo(NameOf(root)), q) ==> FromContent(kind, root, tree, q))
  }

  /** The name of the object for a content file leads to where restructuring puts it, and to no other content file. */
  lemma NameLeadsToPlace(root: Location, f: Location, r: Location)
    requires Root(root) && Names(f) && Names(r)
    ensures NameIsPath(OriginalName(NameOf(root), RelPath(f)), root, PathAgreement.Really(root, r)) <==> f == r
  {
    var name, at := NameOf(root), PathAgreement.Really(root, r);
    var c := ContentTo(name);
    assert at == root + (c + r) && c != [];
    assert at[..|root|] == root && at[|root|..] == c + r;
    hide *;
    RootName(root);
    PathAgreement.DataDirectory(name);
    OriginalNameIsPath(name, f);
    OriginalNameIsPath(name, r);
    OriginalNameIsInjective(name, f, r);
    Assoc(["data"], c, r);
    SlashedConcat(["data"], c + r);
    WithoutPayload(OriginalName(name, RelPath(f)), Slashed(c + r), root, at);
    SlashAfter("data", Slashed(c + r));
  }

  lemma SlashAfter(a: string, b: string)
    requires a == "data"
    ensures a + "/" + b == "data/" + b
  {
    Assoc("data", "/", b);
    assert "data" + "/" == "data/";
  }

  lemma WithoutPayload(name: string, path: string, root: Location, at: Location)
    requires |at| > |root| && at[..|root|] == root && path == Slashed(at[|root|..])
    ensures NameIsPath(name, root, at) <==> name == "data/" + path
  {
    hide Slashed;
  }

  /** The objects of a described package: one for each content file, in the order of the walk. */
  predicate ObjectsOf(report: seq<PremisDocument.Entry>, name: string, files: seq<Location>) {
    |report| == |files| && forall i :: 0 <= i < |files| ==> report[i].name == OriginalName(name, RelPath(files[i]))
  }

  /** What the walk over the content directory finds, as files of the package. */
  ghost predicate AreContent(kind: Kind, tree: Node, files: seq<Location>) {
    DistinctContentFiles(files) && forall f :: f in files <==> VerifyManifest.IsFile(tree, ContentAt(kind) + f)
  }

  lemma ObjectOfFile(report: seq<PremisDocument.Entry>, root: Location, files: seq<Location>, i: nat)
    requires Root(root) && DistinctContentFiles(files) && ObjectsOf(report, NameOf(root), files) && i < |files|
    ensures OnlyIn(report, i, root, PathAgreement.Really(root, files[i]))
  {
    assert root != [];
    hide Root, NameIsPath, OriginalName, RelPath, PathAgreement.Really, Names;
    forall j | 0 <= j < |report|
      ensures NameIsPath(report[j].name, root, PathAgreement.Really(root, files[i])) <==> j == i
    {
      assert files[i] in files && files[j] in files;
      NameLeadsToPlace(root, files[j], files[i]);
    }
  }

  lemma ContentArrives(kind: Kind, root: Location, tree: Node, before: Tree, after: Tree, r: Location)
    requires Root(root) && OnDisk(before, root, tree) && Restructured(kind, root, before, after)
    requires VerifyManifest.IsFile(tree, ContentAt(kind) + r)
    ensures var from, to := root + (ContentAt(kind) + r), PathAgreement.Really(root, r);
            from in before && before[from].File? && to in after && after[to] == before[from]
  {
    var at := ContentAt(kind) + r;
    hide ContentAt, NodeAt, Target, PathAgreement.Really, Root;
    assert StructureReport.Exists(tree, at) && !StructureReport.IsDir(tree, at);
    assert root + at in before && before[root + at].File?;
    PathAgreement.RestructuringTakesItThere(kind, root, r);
  }

  /** Only the content goes to the content directory below "objects". */
  lemma OnlyContentArrives(kind: Kind, root: Location, tree: Node, before: Tree, after: Tree, q: Location)
    requires Root(root) && OnDisk(before, root, tree) && Restructured(kind, root, before, after) && StructureReport.StructureOk(tree, kind)
    requires q in after && after[q].File? && Under(root + ContentTo(NameOf(root)), q)
    ensures FromContent(kind, root, tree, q)
  {
    assert root != [];
    hide *;
    var p := Source(kind, root, before, after, q);
    SourceIsContent(kind, root, tree, before, p, q);
    var r := p[|root|..][|ContentAt(kind)|..];
    SplitTwice(root, ContentAt(kind), p);
    ContentIsNotPremis(kind, r);
    FileInTree(root, tree, before, ContentAt(kind) + r);
    PathAgreement.RestructuringTakesItThere(kind, root, r);
    ComesFrom(kind, root, tree, r);
  }

  lemma SplitTwice(root: Location, c: Location, p: Location)
    requires Under(root, p) && Under(c, p[|root|..])
    ensures p == root + (c + p[|root|..][|c|..])
  {
  }

  lemma FileInTree(root: Location, tree: Node, before: Tree, at: Location)
    requires OnDisk(before, root, tree) && root + at in before && before[root + at].File? && at != [METADATA, PREMIS_FILE]
    ensures VerifyManifest.IsFile(tree, at)
  {
    hide NodeAt, METADATA, PREMIS_FILE;
    assert StructureReport.Exists(tree, at) && !StructureReport.IsDir(tree, at);
  }

  lemma ComesFrom(kind: Kind, root: Location, tree: Node, r: Location)
    requires root != [] && VerifyManifest.IsFile(tree, ContentAt(kind) + r)
    ensures FromContent(kind, root, tree, PathAgreement.Really(root, r))
  {
    hide VerifyManifest.IsFile, PathAgreement.Really, ContentAt;
  }

  lemma ContentIsNotPremis(kind: Kind, r: Location)
    ensures ContentAt(kind) + r != [METADATA, PREMIS_FILE]
  {
    Words();
    var at, other := ContentAt(kind) + r, [METADATA, PREMIS_FILE];
    assert at[0] == CONTENT && other[0] == METADATA;
    assert at[0] != other[0];
  }

  lemma Source(kind: Kind, root: Location, before: Tree, after: Tree, q: Location) returns (p: Location)
    requires root != [] && Restructured(kind, root, before, after) && q in after && after[q].File?
    ensures p in before && Target(kind, root, p) == Some(q) && before[p].File?
  {
    hide Target, NewDirs;
    p :| p in before && Target(kind, root, p) == Some(q);
  }

  lemma SourceIsContent(kind: Kind, root: Location, tree: Node, before: Tree, p: Location, q: Location)
    requires Root(root) && OnDisk(before, root, tree) && StructureReport.StructureOk(tree, kind)
    requires p in before && Target(kind, root, p) == Some(q) && Under(root + ContentTo(NameOf(root)), q)
    ensures Under(root, p) && Under(ContentAt(kind), p[|root|..])
  {
    var name := NameOf(root);
    assert ContentTo(name) == [OBJECTS, name, CONTENT];
    BelowRoot(root, ContentTo(name), q);
    if !Under(root, p) {
      assert false;
    } else {
      var s := p[|root|..];
      assert p == root + s;
      var d := Destination(kind, name, s);
      assert q[|root|..] == d.value;
      DestinationInContent(kind, name, s, d.value);
      if !Under(ContentAt(kind), s) {
        NothingInObjects(kind, root, before, tree, s);
        assert false;
      }
    }
  }

  lemma BelowRoot(root: Location, c: Location, q: Location)
    requires Under(root + c, q)
    ensures Under(root, q) && Under(c, q[|root|..])
  {
    assert q[..|root|] == (root + c)[..|root|] == root;
    assert q[|root|..][..|c|] == (root + c)[|root|..] == c;
  }

  lemma DestinationInContent(kind: Kind, name: string, s: Location, d: Location)
    requires Destination(kind, name, s) == Some(d) && Under(ContentTo(name), d)
    ensures Under(ContentAt(kind), s) || (|s| > 1 && s[0] == OBJECTS)
  {
    Words();
    assert d[..3] == ContentTo(name) && d[0] == OBJECTS && d[2] == CONTENT;
    hide CONTENT, HEADER, ADDITIONAL, OBJECTS, METADATA, METADATA_FILE, UPDATED_FILE, OLD, SIP_DIR, Name, LogicalName;
  }

  /** Described and then restructured: the objects are the files in the content directory below "objects". */
  lemma ObjectsAreTheFiles(report: seq<PremisDocument.Entry>, kind: Kind, root: Location, tree: Node, files: seq<Location>,
                           before: Tree, after: Tree)
    requires Root(root) && OnDisk(before, root, tree) && Restructured(kind, root, before, after) && StructureReport.StructureOk(tree, kind)
    requires AreContent(kind, tree, files) && ObjectsOf(report, NameOf(root), files)
    ensures DescribedInPlace(report, kind, root, tree, before, after)
  {
    assert root != [];
    hide Root, OnDisk, Restructured, StructureReport.StructureOk, VerifyManifest.IsFile, ContentAt, ContentTo, PathAgreement.Really, NameIsPath,
         FromContent, Names, OriginalName, RelPath, Under, OnlyIn;
    forall r | VerifyManifest.IsFile(tree, ContentAt(kind) + r)
      ensures FoundByName(report, kind, root, before, after, r)
    {
      ContentArrives(kind, root, tree, before, after, r);
      var i :| 0 <= i < |files| && files[i] == r;
      ObjectOfFile(report, root, files, i);
    }
    forall i | 0 <= i < |report|
      ensures OfContent(report[i].name, kind, root, tree)
    {
      assert files[i] in files;
      NameLeadsToPlace(root, files[i], files[i]);
    }
    forall q | q in after && after[q].File? && Under(root + ContentTo(NameOf(root)), q)
      ensures FromContent(kind, root, tree, q)
    {
      OnlyContentArrives(kind, root, tree, before, after, q);
    }
  }

  lemma FilesOfContent(kind: Kind, tree: Node)
    requires WellNamed(tree) && StructureReport.StructureOk(tree, kind)
    ensures NodeAt(tree, ContentAt(kind)).Some? && AreContent(kind, tree, FilesOf(Walk(NodeAt(tree, ContentAt(kind)).value, [])))
  {
    var at := ContentAt(kind);
    assert StructureReport.Exists(tree, at);
    hide StructureReport.StructureOk, NodeAt, ContentAt, WellNamed, FilesOf, Walk, DistinctContentFiles;
    VerifyManifest.NodeIsWellNamed(tree, at);
    ContentFiles(NodeAt(tree, at).value);
    forall f
      ensures NodeAt(tree, at + f) == NodeAt(NodeAt(tree, at).value, f)
    {
      VerifyManifest.NodeFarBelow(tree, at, f);
    }
  }

  /** An accepted package on the disk, before premis.xml is written. */
  ghost predicate Accepted(kind: Kind, root: Location, tree: Node, t: Tree) {
    && ValidTree(t) && Root(root) && WellNamed(tree)
    && StructureReport.StructureOk(tree, kind) && AsValidated(t, root, tree)
  }

  /** The one object that has the place as its name has the story. */
  predicate HasStory(report: seq<PremisDocument.Entry>, root: Location, at: Location, story: seq<Told>) {
    exists i :: 0 <= i < |report| && OnlyIn(report, i, root, at) && report[i].story == story
  }

  /** Each content file has the full story of its validation under the name of its place. */
  ghost predicate StoriesInPlace(report: seq<PremisDocument.Entry>, kind: Kind, root: Location, tree: Node, typeName: string,
                                 formats: map<Location, string>, allowed: set<string>, validator: Agent)
    requires root != []
  {
    forall r :: VerifyManifest.IsFile(tree, ContentAt(kind) + r) ==>
      HasStory(report, root, PathAgreement.Really(root, r),
               FullStory(!IsAIP(kind), typeName, NameOf(root), Handled(r, formats, allowed), validator))
  }

  lemma StoriesAreThere(report: seq<PremisDocument.Entry>, kind: Kind, root: Location, tree: Node, files: seq<Location>, typeName: string,
                        formats: map<Location, string>, allowed: set<string>, validator: Agent)
    requires Root(root) && AreContent(kind, tree, files) && ObjectsOf(report, NameOf(root), files)
    requires forall i :: 0 <= i < |files| ==>
      report[i].story == FullStory(!IsAIP(kind), typeName, NameOf(root), Handled(files[i], formats, allowed), validator)
    ensures StoriesInPlace(report, kind, root, tree, typeName, formats, allowed, validator)
  {
    assert root != [];
    hide Root, VerifyManifest.IsFile, ContentAt, PathAgreement.Really, Names, OriginalName, RelPath, OnlyIn, FullStory;
    forall r | VerifyManifest.IsFile(tree, ContentAt(kind) + r)
      ensures HasStory(report, root, PathAgreement.Really(root, r),
                       FullStory(!IsAIP(kind), typeName, NameOf(root), Handled(r, formats, allowed), validator))
    {
      var i :| 0 <= i < |files| && files[i] == r;
      ObjectOfFile(report, root, files, i);
    }
  }

  function PremisPath(sipPath: string): string {
    Join([sipPath, METADATA, PREMIS_FILE])
  }

  lemma PremisDirectory(root: Location)
    requires Root(root)
    ensures Locate(Dir(PremisPath(Path(true, root)))) == root + [METADATA]
  {
    Words();
    assert Name(PREMIS_FILE) && Names([METADATA]);
    assert Names([METADATA, PREMIS_FILE]);
    NamesConcat(root, [METADATA]);
    assert [Path(true, root)] + [METADATA, PREMIS_FILE] == [Path(true, root), METADATA, PREMIS_FILE];
    assert root + [METADATA, PREMIS_FILE] == root + [METADATA] + [PREMIS_FILE];
    hide Join, Dir, Path, Locate, Names, Name, METADATA, PREMIS_FILE;
    JoinPath(true, root, [METADATA, PREMIS_FILE]);
    DirPath(true, root + [METADATA], PREMIS_FILE);
    LocatePath(root + [METADATA]);
  }

  /** Everything is still there. */
  predicate Extends(t: Tree, more: Tree) {
    forall p :: p in t ==> p in more && more[p] == t[p]
  }

  lemma OnlyAdded(kind: Kind, root: Location, t: Tree, more: Tree)
    requires Extends(t, more)
    ensures OthersUntouched(kind, root, t, more)
  {
  }

  lemma StillUntouched(kind: Kind, root: Location, t: Tree, more: Tree, after: Tree)
    requires Extends(t, more) && OthersUntouched(kind, root, more, after)
    ensures OthersUntouched(kind, root, t, after)
  {
  }

  lemma AsBeforePremis(report: seq<PremisDocument.Entry>, kind: Kind, root: Location, tree: Node, t: Tree, more: Tree, after: Tree)
    requires Accepted(kind, root, tree, t) && Extends(t, more) && DescribedInPlace(report, kind, root, tree, more, after)
    ensures DescribedInPlace(report, kind, root, tree, t, after)
  {
    assert root != [];
    hide Root, NodeAt, ContentAt, PathAgreement.Really, OnlyIn, OfContent, FromContent, StructureReport.StructureOk, WellNamed, ValidTree;
    forall r | VerifyManifest.IsFile(tree, ContentAt(kind) + r)
      ensures FoundByName(report, kind, root, t, after, r)
    {
      assert FoundByName(report, kind, root, more, after, r);
      assert StructureReport.Exists(tree, ContentAt(kind) + r);
    }
  }

  /** The package with premis.xml, and what is left of it unchanged. */
  lemma PremisWritten(kind: Kind, root: Location, tree: Node, t: Tree, premis: seq<bv8>)
    requires Accepted(kind, root, tree, t) && CanMakeDirs(t, root + [METADATA])
    ensures var after := WithPremis(t, root, premis); ValidTree(after) && OnDisk(after, root, tree)
    ensures WithPremis(t, root, premis) == WithDirs(t, root + [METADATA])[root + [METADATA, PREMIS_FILE] := File(premis)]
    ensures Extends(t, WithDirs(t, root + [METADATA])) && Extends(t, WithPremis(t, root, premis))
  {
    PremisPossibleIff(kind, root, t, tree);
    PremisIsOnDisk(kind, root, t, tree, premis);
    MetadataIsNoDirectory(kind, root, t, tree);
    hide *;
    PremisOnly(root, t, premis);
  }

  lemma PremisOnly(root: Location, t: Tree, premis: seq<bv8>)
    requires root + [METADATA, PREMIS_FILE] !in t
    ensures WithPremis(t, root, premis) == WithDirs(t, root + [METADATA])[root + [METADATA, PREMIS_FILE] := File(premis)]
    ensures Extends(t, WithDirs(t, root + [METADATA])) && Extends(t, WithPremis(t, root, premis))
  {
    hide METADATA, PREMIS_FILE;
  }

  lemma AcceptedMeans(kind: Kind, root: Location, tree: Node, t: Tree)
    requires Accepted(kind, root, tree, t)
    ensures AsValidated(t, root, tree) && ValidTree(t) && Root(root) && root != [] && Name(NameOf(root)) && WellNamed(tree) && StructureReport.StructureOk(tree, kind)
  {
  }

  lemma FormatsOfFiles(kind: Kind, tree: Node, files: seq<Location>, formats: map<Location, string>)
    requires AreContent(kind, tree, files) && forall f :: f in formats ==> VerifyManifest.IsFile(tree, ContentAt(kind) + f)
    ensures DistinctContentFiles(files) && forall f :: f in formats ==> f in files
  {
  }

  /** What a run of writePREMISFile leaves for each file, as it is known of the objects. */
  lemma ObjectsOfRun(report: seq<PremisDocument.Entry>, kind: Kind, root: Location, tree: Node, files: seq<Location>, typeName: string,
                     formats: map<Location, string>, allowed: set<string>, validator: Agent)
    requires Root(root) && AreContent(kind, tree, files) && |report| == |files|
    requires forall i :: 0 <= i < |files| ==>
      report[i] == PremisDocument.Entry(OriginalName(NameOf(root), RelPath(files[i])),
                                        FullStory(!IsAIP(kind), typeName, NameOf(root), Handled(files[i], formats, allowed), validator))
    ensures ObjectsOf(report, NameOf(root), files)
    ensures StoriesInPlace(report, kind, root, tree, typeName, formats, allowed, validator)
  {
    assert root != [];
    hide Root, AreContent, StoriesInPlace, FullStory, OriginalName, RelPath;
    StoriesAreThere(report, kind, root, tree, files, typeName, formats, allowed, validator);
  }

  /**
    The two steps of the preprocessing workflow for an accepted package: premis.xml is written, with any bytes on the
    disk, and then the package is restructured.
  */
  method DescribeAndRestructure(activities: Activities, disk: Disk, kind: Kind, root: Location, tree: Node, typeName: string,
                                formats: map<Location, string>, allowed: set<string>, validator: Agent, premis: seq<bv8>)
    returns (ok: bool)
    requires Accepted(kind, root, tree, disk.tree) && activities.file == Absent
    requires forall f :: f in formats ==> VerifyManifest.IsFile(tree, ContentAt(kind) + f)
    modifies activities, activities.uuids, disk`tree
    ensures disk.Valid() && activities.Good() && OthersUntouched(kind, root, old(disk.tree), disk.tree)
    ensures ok ==> activities.file.Written? && Restructured(kind, root, WithPremis(old(disk.tree), root, premis), disk.tree)
    ensures ok ==> DescribedInPlace(Report(activities.file.kids), kind, root, tree, old(disk.tree), disk.tree)
    ensures ok ==> StoriesInPlace(Report(activities.file.kids), kind, root, tree, typeName, formats, allowed, validator)
    // On reliable disks it succeeds exactly when neither of the two names is taken.
    ensures activities.reliable && disk.reliable && tree.name == NameOf(root) ==>
      (ok <==> !StructureReport.Exists(tree, [METADATA]) && !StructureReport.Exists(tree, [OBJECTS]))
  {
    hide Accepted, Root, ValidTree, WellNamed, AsValidated, OnDisk, WithDirs, WithPremis, OthersUntouched, Restructured, DescribedInPlace,
         StoriesInPlace, Consistent, Report, FullStory, OriginalName, RelPath, Join, Dir, Path, Locate, NewPip, VerifyManifest.IsFile,
         StructureReport.StructureOk, StructureReport.Exists, FilesOf, Walk, NodeAt, ContentAt, CanMakeDirs, AreContent, DistinctContentFiles, Handled, Name, Ready,
         Team, Agents, Events;
    ghost var t := disk.tree;
    AcceptedMeans(kind, root, tree, t);
    if tree.name == NameOf(root) {
      ValidatedPackagesAreReadyIff(kind, root, t, tree, premis);
    }
    FilesOfContent(kind, tree);
    var files := FilesWithin(NodeAt(tree, ContentAt(kind)).value);
    FormatsOfFiles(kind, tree, files, formats);
    PremisDirectory(root);
    OnlyAdded(kind, root, t, t);
    ok := disk.MkdirAll(Dir(PremisPath(Path(true, root))));
    if !ok {
      return;
    }
    PremisWritten(kind, root, tree, t, premis);
    OnlyAdded(kind, root, t, disk.tree);
    ok := activities.WritePremisFile(!IsAIP(kind), typeName, NameOf(root), files, formats, allowed, validator);
    if activities.file != Absent {
      disk.tree := disk.tree[root + [METADATA, PREMIS_FILE] := File(premis)];
      OnlyAdded(kind, root, t, disk.tree);
    }
    if !ok {
      return;
    }
    ghost var report, described := Report(activities.file.kids), disk.tree;
    ObjectsOfRun(report, kind, root, tree, files, typeName, formats, allowed, validator);
    var r := TransformSip.Execute(disk, kind, root);
    ok := r.Ok?;
    StillUntouched(kind, root, t, described, disk.tree);
    if ok {
      ObjectsAreTheFiles(report, kind, root, tree, files, described, disk.tree);
      AsBeforePremis(report, kind, root, tree, t, described, disk.tree);
    }
  }
}
