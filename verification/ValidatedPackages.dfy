/**
  What the structure validation of a package means for its restructuring: an accepted package, to which
  premis.xml has been added, has everything that the moves need.
*/
module ValidatedPackages {
  import opened Wrappers
  import opened Paths
  import opened Sip
  import opened FileSystem
  import opened TransformSip
  import PackageTree
  import StructureReport
  import ValidateStructure

  const PREMIS_FILE := "premis.xml"

  /** The package directory on disk: the validated tree, and metadata/premis.xml. */
  ghost predicate OnDisk(t: Tree, root: Location, tree: PackageTree.Node) {
    && (forall r :: root + r in t <==> StructureReport.Exists(tree, r) || r == [METADATA] || r == [METADATA, PREMIS_FILE])
    && (forall r :: StructureReport.Exists(tree, r) ==> (t[root + r].Directory? <==> StructureReport.IsDir(tree, r)))
    && IsDirectory(t, root + [METADATA])
  }

  lemma {:induction false} AncestorsAreDirectories(t: Tree, p: Location, i: nat)
    requires ValidTree(t) && p in t && i < |p|
    ensures IsDirectory(t, p[..i])
    decreases |p|
  {
    if i == |p| - 1 {
      assert p[..i] == Parent(p);
    } else {
      AncestorsAreDirectories(t, Parent(p), i);
      assert Parent(p)[..i] == p[..i];
    }
  }

  /** What stands below a top-level entry makes it a directory. */
  lemma TopLevelIsDir(tree: PackageTree.Node, r: Location)
    requires |r| > 1 && StructureReport.Exists(tree, r)
    ensures StructureReport.IsDir(tree, [r[0]])
  {
    FirstIsDir(tree.kids, r);
  }

  lemma {:induction false} FirstIsDir(ns: seq<PackageTree.Node>, r: Location)
    requires |r| > 1 && PackageTree.NodeIn(ns, r).Some?
    ensures PackageTree.NodeIn(ns, [r[0]]).Some? && PackageTree.NodeIn(ns, [r[0]]).value.DirNode?
    decreases ns
  {
    assert [r[0]][1..] == [];
    if ns[0].name != r[0] {
      FirstIsDir(ns[1..], r);
    }
  }

  /** In an accepted package there is nothing below a top-level entry that is not one of the two directories. */
  lemma NothingBelowOthers(tree: PackageTree.Node, kind: Kind, r: Location)
    requires StructureReport.StructureOk(tree, kind) && r != [] && r[0] !in TopLevel(kind)
    ensures !StructureReport.IsDir(tree, [r[0]])
    ensures |r| > 1 ==> !StructureReport.Exists(tree, r)
  {
    assert !StructureReport.IsUnexpected(tree, kind, r[0]);
    if |r| > 1 && StructureReport.Exists(tree, r) {
      TopLevelIsDir(tree, r);
    }
  }

  lemma OtherNames(name: string)
    requires Name(name)
    ensures UPDATED_FILE != PREMIS_FILE && LogicalName(name) != PREMIS_FILE
    ensures METADATA !in [CONTENT, ADDITIONAL, HEADER] && OBJECTS !in [CONTENT, ADDITIONAL, HEADER] && OBJECTS != METADATA
  {
    Words();
    assert LogicalName(name)[|LogicalName(name)| - 11] == '-';
    assert |LogicalName(name)| > |PREMIS_FILE|;
  }

  lemma TopLevelNamesOnly(kind: Kind)
    ensures METADATA !in TopLevel(kind) && OBJECTS !in TopLevel(kind)
  {
    Words();
  }

  lemma DirsPossible(t: Tree, root: Location, tree: PackageTree.Node, at: Location)
    requires ValidTree(t) && OnDisk(t, root, tree) && Root(root)
    requires forall i :: 1 < i <= |at| ==> root + at[..i] !in t
    ensures CanMakeDirs(t, root + at) <==> at == [] || root + [at[0]] !in t || t[root + [at[0]]].Directory?
  {
    assert root + [METADATA] in t;
    forall i | 0 <= i <= |root|
      ensures IsDirectory(t, (root + at)[..i])
    {
      AncestorsAreDirectories(t, root + [METADATA], i);
      assert (root + at)[..i] == (root + [METADATA])[..i];
    }
    forall i | |root| < i <= |root + at|
      ensures (root + at)[..i] == root + at[..i - |root|]
    {
    }
    if at != [] {
      assert at[..1] == [at[0]];
      assert (root + at)[..|root| + 1] == root + [at[0]];
    }
  }

  /** The first part is possible. */
  lemma AdditionalIsReady(kind: Kind, root: Location, t: Tree, tree: PackageTree.Node)
    requires ValidTree(t) && Root(root) && OnDisk(t, root, tree) && tree.name == NameOf(root)
    requires StructureReport.StructureOk(tree, kind) && IsAIP(kind)
    ensures AdditionalReady(root, t)
  {
    var name := NameOf(root);
    OtherNames(name);
    TopLevelNamesOnly(kind);
    var u, l := UpdatedMove(), LogicalMove(name);
    NothingBelowOthers(tree, kind, u.dst);
    NothingBelowOthers(tree, kind, l.dst);
    hide CONTENT, HEADER, ADDITIONAL, OBJECTS, METADATA, METADATA_FILE, UPDATED_FILE, PREMIS_FILE, LogicalName, Name, TopLevel;
    DirsPossible(t, root, tree, [METADATA]);
    assert root + u.src in t && root + l.src in t;
  }

  lemma NothingInObjects(kind: Kind, root: Location, t: Tree, tree: PackageTree.Node, r: Location)
    requires OnDisk(t, root, tree) && StructureReport.StructureOk(tree, kind) && |r| > 1 && r[0] == OBJECTS
    ensures root + r !in t
  {
    Words();
    TopLevelNamesOnly(kind);
    NothingBelowOthers(tree, kind, r);
  }

  /** The directories below "objects" can be made unless a file of that name is in the way. */
  lemma ObjectsPossibleIff(kind: Kind, root: Location, t: Tree, tree: PackageTree.Node, at: Location)
    requires ValidTree(t) && Root(root) && OnDisk(t, root, tree) && StructureReport.StructureOk(tree, kind)
    requires at != [] && at[0] == OBJECTS
    ensures CanMakeDirs(t, root + at) <==> !StructureReport.Exists(tree, [OBJECTS])
  {
    Words();
    TopLevelNamesOnly(kind);
    NothingBelowOthers(tree, kind, [OBJECTS]);
    assert root + [OBJECTS] in t <==> StructureReport.Exists(tree, [OBJECTS]);
    forall i | 1 < i <= |at|
      ensures root + at[..i] !in t
    {
      NothingInObjects(kind, root, t, tree, at[..i]);
    }
    DirsPossible(t, root, tree, at);
  }

  lemma ContentMovesPossible(kind: Kind, root: Location, t: Tree, tree: PackageTree.Node)
    requires Root(root) && OnDisk(t, root, tree) && StructureReport.StructureOk(tree, kind)
    ensures MovePossible(t, root, ContentMove(kind, NameOf(root))) && MovePossible(t, root, MetadataMove(kind, NameOf(root)))
  {
    var c, m := ContentMove(kind, NameOf(root)), MetadataMove(kind, NameOf(root));
    NothingInObjects(kind, root, t, tree, c.dst);
    NothingInObjects(kind, root, t, tree, m.dst);
    assert StructureReport.Exists(tree, c.src) && StructureReport.Exists(tree, m.src);
  }

  /** So is the second, unless a file is where the objects directory has to be. */
  lemma ContentIsReadyIff(kind: Kind, root: Location, t: Tree, tree: PackageTree.Node)
    requires ValidTree(t) && Root(root) && OnDisk(t, root, tree) && StructureReport.StructureOk(tree, kind)
    ensures ContentReady(kind, root, t) <==> !StructureReport.Exists(tree, [OBJECTS])
  {
    hide ValidTree, OnDisk, StructureReport.StructureOk, StructureReport.Exists, CanMakeDirs, MovePossible;
    ObjectsPossibleIff(kind, root, t, tree, [OBJECTS, NameOf(root)]);
    ObjectsPossibleIff(kind, root, t, tree, [OBJECTS, NameOf(root), HEADER]);
    ContentMovesPossible(kind, root, t, tree);
  }

  /** What the package needs in the end, given that premis.xml could be written. */
  lemma ReadyWithPremisIff(kind: Kind, root: Location, t: Tree, tree: PackageTree.Node)
    requires ValidTree(t) && Root(root) && OnDisk(t, root, tree) && tree.name == NameOf(root)
    requires StructureReport.StructureOk(tree, kind)
    ensures Ready(kind, root, t) <==> !StructureReport.Exists(tree, [OBJECTS])
  {
    hide AdditionalReady, ContentReady, ValidTree, OnDisk, StructureReport.StructureOk, StructureReport.Exists;
    ContentIsReadyIff(kind, root, t, tree);
    if IsAIP(kind) {
      AdditionalIsReady(kind, root, t, tree);
    }
  }

  // From the validated package to the restructured one

  /** The package directory on disk is the validated tree. */
  ghost predicate AsValidated(t: Tree, root: Location, tree: PackageTree.Node) {
    && (forall r :: root + r in t <==> StructureReport.Exists(tree, r))
    && (forall r :: StructureReport.Exists(tree, r) ==> (t[root + r].Directory? <==> StructureReport.IsDir(tree, r)))
  }

  /** The file system after premis.xml has been written for the first time. */
  function WithPremis(t: Tree, root: Location, premis: seq<bv8>): Tree {
    WithDirs(t, root + [METADATA])[root + [METADATA, PREMIS_FILE] := File(premis)]
  }

  /** The directory of premis.xml can be made unless a file of that name is in the way. */
  lemma PremisPossibleIff(kind: Kind, root: Location, t: Tree, tree: PackageTree.Node)
    requires ValidTree(t) && Root(root) && AsValidated(t, root, tree) && StructureReport.StructureOk(tree, kind)
    ensures CanMakeDirs(t, root + [METADATA]) <==> !StructureReport.Exists(tree, [METADATA])
  {
    hide *;
    AboveIsThere(kind, root, t, tree);
    MetadataIsNoDirectory(kind, root, t, tree);
    CanMakeOneDir(t, root, METADATA);
  }

  lemma AboveIsThere(kind: Kind, root: Location, t: Tree, tree: PackageTree.Node)
    requires ValidTree(t) && Root(root) && AsValidated(t, root, tree) && StructureReport.StructureOk(tree, kind)
    ensures forall i :: 0 <= i <= |root| ==> IsDirectory(t, root[..i])
  {
    RootIsDirectory(kind, root, t, tree);
    hide StructureReport.StructureOk, AsValidated, Root;
    assert root[..|root|] == root;
    forall i | 0 <= i < |root|
      ensures IsDirectory(t, root[..i])
    {
      AncestorsAreDirectories(t, root, i);
    }
  }

  lemma MetadataIsNoDirectory(kind: Kind, root: Location, t: Tree, tree: PackageTree.Node)
    requires AsValidated(t, root, tree) && StructureReport.StructureOk(tree, kind)
    ensures StructureReport.Exists(tree, [METADATA]) <==> root + [METADATA] in t
    ensures root + [METADATA] in t ==> t[root + [METADATA]] != Directory
    ensures root + [METADATA, PREMIS_FILE] !in t
  {
    TopLevelNamesOnly(kind);
    NothingBelowOthers(tree, kind, [METADATA]);
    NothingBelowOthers(tree, kind, [METADATA, PREMIS_FILE]);
    hide StructureReport.StructureOk, StructureReport.Exists, StructureReport.IsDir, METADATA, PREMIS_FILE;
  }

  lemma CanMakeOneDir(t: Tree, root: Location, n: string)
    requires forall i :: 0 <= i <= |root| ==> IsDirectory(t, root[..i])
    ensures CanMakeDirs(t, root + [n]) <==> (root + [n] in t ==> t[root + [n]] == Directory)
    ensures WithDirs(t, root + [n]).Keys == t.Keys + {root + [n]}
  {
    var at := root + [n];
    assert at[..|at|] == at;
    assert forall i :: 0 <= i <= |root| ==> at[..i] == root[..i];
    forall q
      ensures q in Prefixes(at) ==> q == at || q in t
    {
      if q in Prefixes(at) && q != at {
        var i :| 0 <= i <= |at| && q == at[..i];
        assert i <= |root| && q == root[..i];
      }
    }
    assert at in Prefixes(at);
  }

  lemma RootIsDirectory(kind: Kind, root: Location, t: Tree, tree: PackageTree.Node)
    requires AsValidated(t, root, tree) && StructureReport.Complete(tree, kind)
    ensures root in t && t[root].Directory?
  {
    assert StructureReport.Exists(tree, ContentAt(kind)) && ContentAt(kind) != [];
    assert StructureReport.IsDir(tree, []) && root + [] == root;
  }

  lemma PremisIsOnDisk(kind: Kind, root: Location, t: Tree, tree: PackageTree.Node, premis: seq<bv8>)
    requires ValidTree(t) && Root(root) && AsValidated(t, root, tree) && StructureReport.StructureOk(tree, kind)
    requires CanMakeDirs(t, root + [METADATA]) && !StructureReport.Exists(tree, [METADATA])
    ensures ValidTree(WithPremis(t, root, premis)) && OnDisk(WithPremis(t, root, premis), root, tree)
  {
    var dirs, after := WithDirs(t, root + [METADATA]), WithPremis(t, root, premis);
    hide *;
    AboveIsThere(kind, root, t, tree);
    MetadataIsNoDirectory(kind, root, t, tree);
    CanMakeOneDir(t, root, METADATA);
    WithDirsIsValid(t, root + [METADATA]);
    PremisAdded(t, root, premis);
    AddedIsOnDisk(t, root, tree, after);
  }

  lemma PremisAdded(t: Tree, root: Location, premis: seq<bv8>)
    requires ValidTree(t) && root + [METADATA] !in t && root + [METADATA, PREMIS_FILE] !in t
    requires CanMakeDirs(t, root + [METADATA]) && ValidTree(WithDirs(t, root + [METADATA]))
    requires WithDirs(t, root + [METADATA]).Keys == t.Keys + {root + [METADATA]}
    ensures var at, file, after := root + [METADATA], root + [METADATA, PREMIS_FILE], WithPremis(t, root, premis);
            && ValidTree(after) && after.Keys == t.Keys + {at, file}
            && IsDirectory(after, at) && forall q :: q in t ==> after[q] == t[q]
  {
    var at, file := root + [METADATA], root + [METADATA, PREMIS_FILE];
    var dirs, after := WithDirs(t, at), WithPremis(t, root, premis);
    assert Parent(file) == at && file != at;
    assert dirs[at] == Directory;
    hide METADATA, PREMIS_FILE;
    forall p | p in after && p != []
      ensures IsDirectory(after, Parent(p))
    {
      if p != file {
        assert p in dirs && IsDirectory(dirs, Parent(p));
        assert file !in dirs;
      }
    }
  }

  lemma AddedIsOnDisk(t: Tree, root: Location, tree: PackageTree.Node, after: Tree)
    requires AsValidated(t, root, tree) && IsDirectory(after, root + [METADATA])
    requires after.Keys == t.Keys + {root + [METADATA], root + [METADATA, PREMIS_FILE]}
    requires forall q :: q in t ==> after[q] == t[q]
    ensures OnDisk(after, root, tree)
  {
    hide StructureReport.Exists, StructureReport.IsDir, METADATA, PREMIS_FILE;
    forall r
      ensures root + r in after <==> StructureReport.Exists(tree, r) || r == [METADATA] || r == [METADATA, PREMIS_FILE]
    {
      SamePrefix(root, r, [METADATA]);
      SamePrefix(root, r, [METADATA, PREMIS_FILE]);
    }
  }

  /**
    An accepted package can be described in metadata/premis.xml and then restructured exactly when nothing at its
    top is called "metadata" or "objects". The validation refuses directories there, but not files.
  */
  lemma ValidatedPackagesAreReadyIff(kind: Kind, root: Location, t: Tree, tree: PackageTree.Node, premis: seq<bv8>)
    requires ValidTree(t) && Root(root) && AsValidated(t, root, tree) && tree.name == NameOf(root)
    requires StructureReport.StructureOk(tree, kind)
    ensures CanMakeDirs(t, root + [METADATA]) && Ready(kind, root, WithPremis(t, root, premis))
            <==> !StructureReport.Exists(tree, [METADATA]) && !StructureReport.Exists(tree, [OBJECTS])
  {
    hide *;
    PremisPossibleIff(kind, root, t, tree);
    if CanMakeDirs(t, root + [METADATA]) {
      PremisIsOnDisk(kind, root, t, tree, premis);
      ReadyWithPremisIff(kind, root, WithPremis(t, root, premis), tree);
    }
  }

  // Accepted packages that cannot be restructured

  function ADir(name: string, kids: seq<PackageTree.Node>): PackageTree.Node {
    PackageTree.DirNode(name, kids)
  }

  function AFile(name: string): PackageTree.Node {
    PackageTree.FileNode(name)
  }

  const SAMPLE := "sample"
  const NOTES := "notes.txt"

  /** What else may stand at the top of the sample. */
  predicate Extra(n: string) {
    n == OBJECTS || n == METADATA || n == NOTES
  }

  function SampleContent(): PackageTree.Node {
    ADir(CONTENT, [AFile("a")])
  }

  function SampleHeader(kind: Kind): PackageTree.Node {
    ADir(HEADER, [if IsAIP(kind) then ADir(OLD, [ADir(SIP_DIR, [AFile(METADATA_FILE)])]) else AFile(METADATA_FILE),
                 ADir(XSD, [AFile(SCHEMA_FILE)])])
  }

  function FirstOf(kind: Kind): PackageTree.Node {
    if IsAIP(kind) then ADir(CONTENT, [SampleContent(), SampleHeader(kind)]) else SampleContent()
  }

  function SecondOf(kind: Kind): PackageTree.Node {
    if IsAIP(kind) then ADir(ADDITIONAL, [AFile(UPDATED_FILE), AFile(LogicalName(SAMPLE))]) else SampleHeader(kind)
  }

  /** A small package of each kind, with one more file at its top. */
  function Sample(kind: Kind, extra: string): PackageTree.Node {
    ADir(SAMPLE, [FirstOf(kind), SecondOf(kind), AFile(extra)])
  }

  /** Proper names everywhere, and no empty directory. */
  predicate Sound(n: PackageTree.Node) {
    ValidateStructure.ValidName(n.name) && (n.DirNode? ==> n.kids != [] && SoundAll(n.kids))
  }

  predicate SoundAll(ns: seq<PackageTree.Node>) {
    ns == [] || (Sound(ns[0]) && SoundAll(ns[1..]))
  }

  lemma {:induction false} SoundAt(n: PackageTree.Node, at: Location)
    requires Sound(n) && PackageTree.NodeAt(n, at).Some?
    ensures Sound(PackageTree.NodeAt(n, at).value)
    decreases n, 0
  {
    if at != [] {
      SoundIn(n.kids, at);
    }
  }

  lemma {:induction false} SoundIn(ns: seq<PackageTree.Node>, at: Location)
    requires SoundAll(ns) && at != [] && PackageTree.NodeIn(ns, at).Some?
    ensures Sound(PackageTree.NodeIn(ns, at).value)
    decreases ns
  {
    if ns[0].name == at[0] {
      SoundAt(ns[0], at[1..]);
    } else {
      SoundIn(ns[1..], at);
    }
  }

  lemma ValidNames()
    ensures ValidateStructure.ValidName(CONTENT) && ValidateStructure.ValidName(HEADER) && ValidateStructure.ValidName(ADDITIONAL)
    ensures ValidateStructure.ValidName(OLD) && ValidateStructure.ValidName(SIP_DIR) && ValidateStructure.ValidName(XSD)
    ensures ValidateStructure.ValidName(OBJECTS) && ValidateStructure.ValidName(METADATA) && ValidateStructure.ValidName("a")
  {
  }

  lemma ValidFileNames()
    ensures ValidateStructure.ValidName(METADATA_FILE) && ValidateStructure.ValidName(UPDATED_FILE)
    ensures ValidateStructure.ValidName(SCHEMA_FILE)
  {
  }

  lemma ValidSampleNames()
    ensures ValidateStructure.ValidName(SAMPLE) && ValidateStructure.ValidName(LogicalName(SAMPLE)) && ValidateStructure.ValidName(NOTES)
  {
    assert ValidateStructure.ValidName("-premis.xml");
    assert LogicalName(SAMPLE) == SAMPLE + "-premis.xml";
  }

  // Looking up a place, one entry after the other

  lemma Found(name: string, k: PackageTree.Node, rest: seq<PackageTree.Node>, r: Location)
    ensures PackageTree.NodeAt(ADir(name, [k] + rest), [k.name] + r) == PackageTree.NodeAt(k, r)
  {
    var kids := [k] + rest;
    assert ([k.name] + r)[1..] == r && kids[0] == k;
  }

  lemma NotYet(name: string, k: PackageTree.Node, rest: seq<PackageTree.Node>, r: Location)
    requires r != [] && r[0] != k.name
    ensures PackageTree.NodeAt(ADir(name, [k] + rest), r) == PackageTree.NodeAt(ADir(name, rest), r)
  {
    var kids := [k] + rest;
    assert kids[0] == k && kids[1..] == rest;
  }

  lemma NotHere(name: string, r: Location)
    requires r != []
    ensures PackageTree.NodeAt(ADir(name, []), r).None?
  {
  }

  /** What stands in a directory of up to three entries with different names. */
  lemma InThree(name: string, a: PackageTree.Node, b: PackageTree.Node, c: PackageTree.Node, n: string, r: Location)
    requires a.name != b.name && a.name != c.name && b.name != c.name
    ensures PackageTree.NodeAt(ADir(name, [a, b, c]), [n] + r)
            == if n == a.name then PackageTree.NodeAt(a, r)
               else if n == b.name then PackageTree.NodeAt(b, r)
               else if n == c.name then PackageTree.NodeAt(c, r)
               else None
  {
    assert [a, b, c] == [a] + [b, c];
    if n == a.name {
      Found(name, a, [b, c], r);
    } else {
      NotYet(name, a, [b, c], [n] + r);
      InTwo(name, b, c, n, r);
    }
  }

  lemma InTwo(name: string, a: PackageTree.Node, b: PackageTree.Node, n: string, r: Location)
    requires a.name != b.name
    ensures PackageTree.NodeAt(ADir(name, [a, b]), [n] + r)
            == if n == a.name then PackageTree.NodeAt(a, r) else if n == b.name then PackageTree.NodeAt(b, r) else None
  {
    assert [a, b] == [a] + [b];
    if n == a.name {
      Found(name, a, [b], r);
    } else {
      NotYet(name, a, [b], [n] + r);
      InOne(name, b, n, r);
    }
  }

  lemma InOne(name: string, a: PackageTree.Node, n: string, r: Location)
    ensures PackageTree.NodeAt(ADir(name, [a]), [n] + r) == if n == a.name then PackageTree.NodeAt(a, r) else None
  {
    assert [a] == [a] + [];
    if n == a.name {
      Found(name, a, [], r);
    } else {
      NotYet(name, a, [], [n] + r);
      NotHere(name, [n] + r);
    }
  }

  lemma SoundThree(a: PackageTree.Node, b: PackageTree.Node, c: PackageTree.Node)
    requires Sound(a) && Sound(b)
    ensures SoundAll([a]) && SoundAll([a, b]) && (Sound(c) ==> SoundAll([a, b, c]))
  {
    hide Sound;
    assert [a, b, c][1..] == [b, c] && [b, c][1..] == [c] && [c][1..] == [] && [a, b][1..] == [b] && [b][1..] == [] && [a][1..] == [];
    assert SoundAll([]);
    assert SoundAll([a]) && SoundAll([b]) && (Sound(c) ==> SoundAll([c]));
    assert Sound(c) ==> SoundAll([b, c]);
  }

  lemma SoundDir(name: string, kids: seq<PackageTree.Node>)
    requires ValidateStructure.ValidName(name) && kids != [] && SoundAll(kids)
    ensures Sound(ADir(name, kids))
  {
    hide ValidateStructure.ValidName;
  }

  lemma SoundFile(name: string)
    requires ValidateStructure.ValidName(name)
    ensures Sound(AFile(name))
  {
    hide ValidateStructure.ValidName;
  }

  lemma OneSound(a: PackageTree.Node, name: string)
    requires Sound(a) && ValidateStructure.ValidName(name)
    ensures Sound(ADir(name, [a]))
  {
    SoundThree(a, a, a);
    SoundDir(name, [a]);
  }

  lemma TwoSound(a: PackageTree.Node, b: PackageTree.Node, name: string)
    requires Sound(a) && Sound(b) && ValidateStructure.ValidName(name)
    ensures Sound(ADir(name, [a, b]))
  {
    SoundThree(a, b, a);
    SoundDir(name, [a, b]);
  }

  lemma PartsAreSound(kind: Kind)
    ensures Sound(FirstOf(kind)) && Sound(SecondOf(kind))
  {
    hide ValidateStructure.ValidName, Sound, SoundAll, ADir, AFile, LogicalName, CONTENT, HEADER, ADDITIONAL, OLD, SIP_DIR, XSD;
    ValidNames();
    ValidFileNames();
    ValidSampleNames();
    SoundFile(SCHEMA_FILE);
    SoundFile(METADATA_FILE);
    SoundFile("a");
    SoundFile(UPDATED_FILE);
    SoundFile(LogicalName(SAMPLE));
    OneSound(AFile(SCHEMA_FILE), XSD);
    OneSound(AFile("a"), CONTENT);
    OneSound(AFile(METADATA_FILE), SIP_DIR);
    OneSound(ADir(SIP_DIR, [AFile(METADATA_FILE)]), OLD);
    TwoSound(if IsAIP(kind) then ADir(OLD, [ADir(SIP_DIR, [AFile(METADATA_FILE)])]) else AFile(METADATA_FILE),
             ADir(XSD, [AFile(SCHEMA_FILE)]), HEADER);
    TwoSound(SampleContent(), SampleHeader(kind), CONTENT);
    TwoSound(AFile(UPDATED_FILE), AFile(LogicalName(SAMPLE)), ADDITIONAL);
  }

  lemma SampleIsSound(kind: Kind, extra: string)
    requires Extra(extra)
    ensures Sound(Sample(kind, extra))
  {
    PartsAreSound(kind);
    hide ValidateStructure.ValidName, Sound, SoundAll, ADir, AFile, FirstOf, SecondOf;
    ValidNames();
    ValidSampleNames();
    SoundFile(extra);
    SoundThree(FirstOf(kind), SecondOf(kind), AFile(extra));
    SoundDir(SAMPLE, [FirstOf(kind), SecondOf(kind), AFile(extra)]);
  }

  lemma NamesOfParts(kind: Kind, extra: string)
    requires Extra(extra)
    ensures FirstOf(kind).name == TopLevel(kind)[0] && SecondOf(kind).name == TopLevel(kind)[1] && |TopLevel(kind)| == 2
    ensures FirstOf(kind).DirNode? && SecondOf(kind).DirNode? && AFile(extra).name == extra && AFile(extra).FileNode?
    ensures TopLevel(kind)[0] != TopLevel(kind)[1] && TopLevel(kind)[0] != extra && TopLevel(kind)[1] != extra
  {
    Words();
    NotesIsDifferent();
    hide CONTENT, HEADER, ADDITIONAL, OBJECTS, METADATA, NOTES;
  }

  lemma NotesIsDifferent()
    ensures NOTES !in [CONTENT, HEADER, ADDITIONAL, OBJECTS, METADATA] && Name(NOTES)
  {
  }

  /** What stands where in the sample. */
  lemma SampleAt(kind: Kind, extra: string, n: string, r: Location)
    requires Extra(extra)
    ensures PackageTree.NodeAt(Sample(kind, extra), [n] + r)
            == if n == TopLevel(kind)[0] then PackageTree.NodeAt(FirstOf(kind), r)
               else if n == TopLevel(kind)[1] then PackageTree.NodeAt(SecondOf(kind), r)
               else if n == extra then PackageTree.NodeAt(AFile(extra), r)
               else None
  {
    NamesOfParts(kind, extra);
    hide FirstOf, SecondOf, AFile, TopLevel, PackageTree.NodeAt;
    InThree(SAMPLE, FirstOf(kind), SecondOf(kind), AFile(extra), n, r);
  }

  lemma HeaderAt(kind: Kind)
    ensures PackageTree.NodeAt(SampleHeader(kind), [XSD, SCHEMA_FILE]).Some?
    ensures PackageTree.NodeAt(SampleHeader(kind), if IsAIP(kind) then [OLD, SIP_DIR, METADATA_FILE] else [METADATA_FILE]).Some?
  {
    var schemas := ADir(XSD, [AFile(SCHEMA_FILE)]);
    var first := if IsAIP(kind) then ADir(OLD, [ADir(SIP_DIR, [AFile(METADATA_FILE)])]) else AFile(METADATA_FILE);
    assert first.name == (if IsAIP(kind) then OLD else METADATA_FILE) && schemas.name == XSD && first.name != XSD;
    assert SampleHeader(kind) == ADir(HEADER, [first, schemas]);
    var rest := if IsAIP(kind) then [SIP_DIR, METADATA_FILE] else [];
    assert [XSD] + [SCHEMA_FILE] == [XSD, SCHEMA_FILE];
    assert [first.name] + rest == if IsAIP(kind) then [OLD, SIP_DIR, METADATA_FILE] else [METADATA_FILE];
    InTwo(HEADER, first, schemas, XSD, [SCHEMA_FILE]);
    InTwo(HEADER, first, schemas, first.name, rest);
    assert [SCHEMA_FILE] + [] == [SCHEMA_FILE];
    InOne(XSD, AFile(SCHEMA_FILE), SCHEMA_FILE, []);
    assert [SIP_DIR] + [METADATA_FILE] == [SIP_DIR, METADATA_FILE];
    InOne(OLD, ADir(SIP_DIR, [AFile(METADATA_FILE)]), SIP_DIR, [METADATA_FILE]);
    assert [METADATA_FILE] + [] == [METADATA_FILE];
    InOne(SIP_DIR, AFile(METADATA_FILE), METADATA_FILE, []);
  }

  lemma SampleContentAt(kind: Kind, extra: string, r: Location)
    requires Extra(extra)
    ensures PackageTree.NodeAt(Sample(kind, extra), ContentAt(kind) + r) == PackageTree.NodeAt(SampleContent(), r)
  {
    Words();
    assert SampleContent().name == CONTENT && SampleHeader(kind).name == HEADER && TopLevel(kind)[0] == CONTENT;
    assert FirstOf(kind) == if IsAIP(kind) then ADir(CONTENT, [SampleContent(), SampleHeader(kind)]) else SampleContent();
    hide Sample, FirstOf, SecondOf, SampleContent, SampleHeader, PackageTree.NodeAt, CONTENT, HEADER, OBJECTS, METADATA, Name;
    if IsAIP(kind) {
      assert ContentAt(kind) + r == [CONTENT] + ([CONTENT] + r);
      SampleAt(kind, extra, CONTENT, [CONTENT] + r);
      InTwo(CONTENT, SampleContent(), SampleHeader(kind), CONTENT, r);
    } else {
      SampleAt(kind, extra, CONTENT, r);
    }
  }

  function HeaderPlace(kind: Kind): Location {
    if IsAIP(kind) then [CONTENT, HEADER] else [HEADER]
  }

  lemma SampleHeaderAt(kind: Kind, extra: string, r: Location)
    requires Extra(extra)
    ensures PackageTree.NodeAt(Sample(kind, extra), HeaderPlace(kind) + r) == PackageTree.NodeAt(SampleHeader(kind), r)
  {
    Words();
    assert SampleContent().name == CONTENT && SampleHeader(kind).name == HEADER && TopLevel(kind)[0] == CONTENT;
    assert FirstOf(kind) == if IsAIP(kind) then ADir(CONTENT, [SampleContent(), SampleHeader(kind)]) else SampleContent();
    assert !IsAIP(kind) ==> SecondOf(kind) == SampleHeader(kind) && TopLevel(kind)[1] == HEADER;
    hide Sample, FirstOf, SecondOf, SampleContent, SampleHeader, PackageTree.NodeAt, CONTENT, HEADER, OBJECTS, METADATA, Name;
    if IsAIP(kind) {
      assert HeaderPlace(kind) + r == [CONTENT] + ([HEADER] + r);
      SampleAt(kind, extra, CONTENT, [HEADER] + r);
      InTwo(CONTENT, SampleContent(), SampleHeader(kind), HEADER, r);
    } else {
      SampleAt(kind, extra, HEADER, r);
    }
  }

  lemma SampleAdditional(kind: Kind, extra: string)
    requires IsAIP(kind) && Extra(extra)
    ensures StructureReport.Exists(Sample(kind, extra), UPDATED) && StructureReport.Exists(Sample(kind, extra), LogicalAt(SAMPLE))
  {
    Words();
    DifferentFiles();
    var u, l := AFile(UPDATED_FILE), AFile(LogicalName(SAMPLE));
    assert u.name == UPDATED_FILE && l.name == LogicalName(SAMPLE);
    assert SecondOf(kind) == ADir(ADDITIONAL, [u, l]) && TopLevel(kind)[1] == ADDITIONAL && TopLevel(kind)[0] == CONTENT;
    assert UPDATED == [ADDITIONAL] + [UPDATED_FILE] && LogicalAt(SAMPLE) == [ADDITIONAL] + [LogicalName(SAMPLE)];
    hide Sample, FirstOf, SecondOf, AFile, LogicalName, CONTENT, ADDITIONAL, UPDATED_FILE, OBJECTS, METADATA, Name;
    SampleAt(kind, extra, ADDITIONAL, [UPDATED_FILE]);
    SampleAt(kind, extra, ADDITIONAL, [LogicalName(SAMPLE)]);
    assert [UPDATED_FILE] + [] == [UPDATED_FILE] && [LogicalName(SAMPLE)] + [] == [LogicalName(SAMPLE)];
    InTwo(ADDITIONAL, u, l, UPDATED_FILE, []);
    InTwo(ADDITIONAL, u, l, LogicalName(SAMPLE), []);
  }

  lemma DifferentFiles()
    ensures LogicalName(SAMPLE) != UPDATED_FILE
  {
    PremisName(SAMPLE);
  }

  lemma SampleIsComplete(kind: Kind, extra: string)
    requires Extra(extra)
    ensures StructureReport.Complete(Sample(kind, extra), kind)
  {
    var rest := if IsAIP(kind) then [OLD, SIP_DIR, METADATA_FILE] else [METADATA_FILE];
    assert ContentAt(kind) + [] == ContentAt(kind);
    assert HeaderPlace(kind) + rest == MetadataAt(kind) && HeaderPlace(kind) + [XSD, SCHEMA_FILE] == XsdAt(kind);
    assert Sample(kind, extra).name == SAMPLE;
    SampleContentAt(kind, extra, []);
    HeaderAt(kind);
    SampleHeaderAt(kind, extra, rest);
    SampleHeaderAt(kind, extra, [XSD, SCHEMA_FILE]);
    if IsAIP(kind) {
      SampleAdditional(kind, extra);
    }
    hide Sample, SampleHeader, CONTENT, HEADER, OLD, SIP_DIR, METADATA_FILE, XSD, SCHEMA_FILE, UPDATED, LogicalAt;
  }

  lemma NothingUnexpected(kind: Kind, extra: string, n: string)
    requires Extra(extra)
    ensures !StructureReport.IsUnexpected(Sample(kind, extra), kind, n)
    ensures n == extra ==> StructureReport.Exists(Sample(kind, extra), [n])
  {
    NamesOfParts(kind, extra);
    assert [n] + [] == [n];
    hide Sample, FirstOf, SecondOf, AFile, OBJECTS, METADATA;
    SampleAt(kind, extra, n, []);
    assert PackageTree.NodeAt(AFile(extra), []) == Some(AFile(extra));
    assert TopLevel(kind) == [TopLevel(kind)[0], TopLevel(kind)[1]];
    hide TopLevel;
  }

  lemma NoDossier(kind: Kind, extra: string, a: string)
    requires Extra(extra)
    ensures !StructureReport.IsDir(Sample(kind, extra), ContentAt(kind) + [a])
  {
    SampleContentAt(kind, extra, [a]);
    assert [a] + [] == [a];
    InOne(CONTENT, AFile("a"), a, []);
    hide Sample, ContentAt;
  }

  lemma WellNamedThree(a: PackageTree.Node, b: PackageTree.Node, c: PackageTree.Node)
    requires PackageTree.WellNamed(a) && PackageTree.WellNamed(b) && Name(a.name) && Name(b.name) && a.name != b.name
    ensures PackageTree.WellNamedAll([a]) && PackageTree.WellNamedAll([a, b])
    ensures PackageTree.WellNamed(c) && Name(c.name) && c.name != a.name && c.name != b.name ==> PackageTree.WellNamedAll([a, b, c])
  {
    hide PackageTree.WellNamed, Name;
    assert [a, b, c][1..] == [b, c] && [b, c][1..] == [c] && [c][1..] == [] && [a, b][1..] == [b] && [b][1..] == [] && [a][1..] == [];
    assert PackageTree.WellNamedAll([]);
    assert PackageTree.WellNamedAll([a]) && PackageTree.WellNamedAll([b]);
    if PackageTree.WellNamed(c) && Name(c.name) && c.name != a.name && c.name != b.name {
      assert PackageTree.WellNamedAll([c]);
      assert PackageTree.WellNamedAll([b, c]);
    }
  }

  lemma WellNamedDir(name: string, kids: seq<PackageTree.Node>)
    requires PackageTree.WellNamedAll(kids)
    ensures PackageTree.WellNamed(ADir(name, kids)) && ADir(name, kids).name == name
  {
  }

  lemma WellNamedFile(name: string)
    ensures PackageTree.WellNamed(AFile(name)) && AFile(name).name == name
  {
  }

  lemma WellNamedOne(a: PackageTree.Node, name: string)
    requires PackageTree.WellNamed(a) && Name(a.name)
    ensures PackageTree.WellNamed(ADir(name, [a])) && ADir(name, [a]).name == name
  {
    assert [a][1..] == [] && PackageTree.WellNamedAll([a][1..]);
    WellNamedDir(name, [a]);
  }

  lemma WellNamedTwo(a: PackageTree.Node, b: PackageTree.Node, name: string)
    requires PackageTree.WellNamed(a) && PackageTree.WellNamed(b) && Name(a.name) && Name(b.name) && a.name != b.name
    ensures PackageTree.WellNamed(ADir(name, [a, b])) && ADir(name, [a, b]).name == name
  {
    WellNamedThree(a, b, a);
    WellNamedDir(name, [a, b]);
  }

  lemma SampleNames()
    ensures Name("a") && Name(SAMPLE) && Name(LogicalName(SAMPLE)) && LogicalName(SAMPLE) != UPDATED_FILE && OLD != XSD && METADATA_FILE != XSD
  {
    PremisName(SAMPLE);
  }

  lemma PartsAreWellNamed(kind: Kind)
    ensures PackageTree.WellNamed(FirstOf(kind)) && PackageTree.WellNamed(SecondOf(kind))
  {
    hide PackageTree.WellNamed, ADir, AFile, LogicalName;
    Words();
    SampleNames();
    hide Name, SAMPLE, CONTENT, HEADER, ADDITIONAL, METADATA_FILE, UPDATED_FILE, OLD, SIP_DIR, XSD, SCHEMA_FILE;
    WellNamedFile(SCHEMA_FILE);
    WellNamedFile(METADATA_FILE);
    WellNamedFile("a");
    WellNamedFile(UPDATED_FILE);
    WellNamedFile(LogicalName(SAMPLE));
    WellNamedOne(AFile(SCHEMA_FILE), XSD);
    WellNamedOne(AFile("a"), CONTENT);
    WellNamedOne(AFile(METADATA_FILE), SIP_DIR);
    WellNamedOne(ADir(SIP_DIR, [AFile(METADATA_FILE)]), OLD);
    WellNamedTwo(if IsAIP(kind) then ADir(OLD, [ADir(SIP_DIR, [AFile(METADATA_FILE)])]) else AFile(METADATA_FILE),
                 ADir(XSD, [AFile(SCHEMA_FILE)]), HEADER);
    WellNamedTwo(SampleContent(), SampleHeader(kind), CONTENT);
    WellNamedTwo(AFile(UPDATED_FILE), AFile(LogicalName(SAMPLE)), ADDITIONAL);
  }

  lemma SampleIsWellNamed(kind: Kind, extra: string)
    requires Extra(extra)
    ensures PackageTree.WellNamed(Sample(kind, extra))
  {
    Words();
    NotesIsDifferent();
    PartsAreWellNamed(kind);
    NamesOfParts(kind, extra);
    WellNamedFile(extra);
    assert Name(TopLevel(kind)[0]) && Name(TopLevel(kind)[1]) && Name(extra);
    hide PackageTree.WellNamed, ADir, AFile, FirstOf, SecondOf, TopLevel, Name, OBJECTS, METADATA;
    WellNamedThree(FirstOf(kind), SecondOf(kind), AFile(extra));
    WellNamedDir(SAMPLE, [FirstOf(kind), SecondOf(kind), AFile(extra)]);
  }

  /**
    A file at the top that is called "metadata" or "objects" passes the structure validation: for every kind there
    is such a package, and it is accepted.
  */
  lemma ObstructedPackagesAreAccepted(kind: Kind, extra: string)
    requires extra == OBJECTS || extra == METADATA
    ensures PackageTree.WellNamed(Sample(kind, extra))
    ensures StructureReport.StructureOk(Sample(kind, extra), kind) && StructureReport.Exists(Sample(kind, extra), [extra])
  {
    hide *;
    IsExtra(extra);
    SampleIsAccepted(kind, extra);
  }

  lemma IsExtra(extra: string)
    ensures extra == OBJECTS || extra == METADATA || extra == NOTES ==> Extra(extra)
  {
  }

  lemma SampleIsAccepted(kind: Kind, extra: string)
    requires Extra(extra)
    ensures PackageTree.WellNamed(Sample(kind, extra))
    ensures StructureReport.StructureOk(Sample(kind, extra), kind) && StructureReport.Exists(Sample(kind, extra), [extra])
  {
    var tree := Sample(kind, extra);
    SampleIsWellNamed(kind, extra);
    SampleIsSound(kind, extra);
    SampleIsComplete(kind, extra);
    NothingUnexpected(kind, extra, extra);
    hide Sample, PackageTree.NodeAt, PackageTree.WellNamed, StructureReport.Complete, StructureReport.IsUnexpected, ContentAt, ValidateStructure.ValidName, OBJECTS, METADATA;
    forall at
      ensures !StructureReport.IsEmptyDir(tree, at) && !StructureReport.HasInvalidName(tree, at)
    {
      if PackageTree.NodeAt(tree, at).Some? {
        SoundAt(tree, at);
      }
    }
    forall n
      ensures !StructureReport.IsUnexpected(tree, kind, n)
    {
      NothingUnexpected(kind, extra, n);
    }
    forall a
      ensures !StructureReport.IsDir(tree, ContentAt(kind) + [a])
    {
      NoDossier(kind, extra, a);
    }
  }
}
