/**
  A born-digital AIP that is accepted, verified and restructured, and whose identifier file has no entry for one of
  its content files: the list is made from the old metadata file, which nothing compares with the package.
*/
module BornDigitalGap {
  import opened Wrappers
  import opened Paths
  import opened FileSystem
  import opened Sip
  import opened TransformSip
  import opened Identifiers
  import opened PathAgreement
  import opened IdentifierFile
  import opened WriteIdentifiers
  import opened ValidatedPackages
  import Xml
  import Manifest
  import Inventory
  import InventoryPrinter
  import PackageTree
  import PremisRun
  import StructureReport
  import VerifyManifest
  import VerifiedPackages

  // A tree on a disk of its own

  function PlacesOf(tree: PackageTree.Node): set<Location> {
    {[]} + set e | e in PackageTree.Walk(tree, [tree.name]) :: e.at
  }

  /** The package directory stands at the top; `bytes` are the contents of its files. */
  function OnFreshDisk(tree: PackageTree.Node, bytes: Location -> seq<bv8>): Tree {
    map p | p in PlacesOf(tree) :: if p == [] || StructureReport.IsDir(tree, p[1..]) then Directory else File(bytes(p[1..]))
  }

  lemma PlaceIsThere(tree: PackageTree.Node, r: Location)
    requires PackageTree.WellNamed(tree)
    ensures [tree.name] + r in PlacesOf(tree) <==> StructureReport.Exists(tree, r)
  {
    var at := [tree.name];
    PackageTree.WalkShowsNodes(tree, at, r);
    hide PackageTree.Walk, PackageTree.NodeAt, PackageTree.WellNamed;
    var dir, file := PackageTree.Entry(at + r, true), PackageTree.Entry(at + r, false);
    assert forall e: PackageTree.Entry :: e.at == at + r ==> e == dir || e == file;
    assert dir.at == at + r && file.at == at + r;
  }

  lemma {:induction false} ParentIsDir(tree: PackageTree.Node, r: Location)
    requires r != [] && StructureReport.Exists(tree, r)
    ensures StructureReport.IsDir(tree, r[..|r| - 1])
    decreases tree, 0
  {
    ParentInIsDir(tree.kids, r);
    if |r| > 1 {
      assert r[..|r| - 1] != [];
    }
  }

  lemma {:induction false} ParentInIsDir(ns: seq<PackageTree.Node>, r: Location)
    requires r != [] && PackageTree.NodeIn(ns, r).Some?
    ensures |r| > 1 ==> PackageTree.NodeIn(ns, r[..|r| - 1]).Some? && PackageTree.NodeIn(ns, r[..|r| - 1]).value.DirNode?
    decreases ns
  {
    if |r| > 1 {
      assert r[..|r| - 1][0] == r[0] && r[..|r| - 1][1..] == r[1..][..|r[1..]| - 1];
      if ns[0].name == r[0] {
        ParentIsDir(ns[0], r[1..]);
      } else {
        ParentInIsDir(ns[1..], r);
      }
    }
  }

  lemma EntryOnFreshDisk(tree: PackageTree.Node, bytes: Location -> seq<bv8>, r: Location)
    requires PackageTree.WellNamed(tree)
    ensures var t := OnFreshDisk(tree, bytes);
            && ([tree.name] + r in t <==> StructureReport.Exists(tree, r))
            && (StructureReport.Exists(tree, r) ==>
                  t[[tree.name] + r] == if StructureReport.IsDir(tree, r) then Directory else File(bytes(r)))
  {
    PlaceIsThere(tree, r);
    assert ([tree.name] + r)[1..] == r;
    hide PlacesOf, PackageTree.NodeAt;
  }

  lemma FreshDiskIsValid(tree: PackageTree.Node, bytes: Location -> seq<bv8>)
    requires PackageTree.WellNamed(tree)
    ensures ValidTree(OnFreshDisk(tree, bytes))
  {
    var t, top := OnFreshDisk(tree, bytes), [tree.name];
    TopIsDirectory(tree, bytes);
    hide OnFreshDisk, StructureReport.Exists, StructureReport.IsDir, PackageTree.WellNamed;
    forall p | p in t && p != []
      ensures IsDirectory(t, Parent(p))
    {
      StartsAtTop(tree, bytes, p);
      var r := p[1..];
      assert p == top + r;
      EntryOnFreshDisk(tree, bytes, r);
      if r == [] {
        assert Parent(p) == [];
      } else {
        ParentIsDir(tree, r);
        DirsExist(tree, r[..|r| - 1]);
        EntryOnFreshDisk(tree, bytes, r[..|r| - 1]);
        assert Parent(p) == top + r[..|r| - 1];
      }
    }
  }

  lemma DirsExist(tree: PackageTree.Node, r: Location)
    requires StructureReport.IsDir(tree, r)
    ensures StructureReport.Exists(tree, r)
  {
  }

  lemma TopIsDirectory(tree: PackageTree.Node, bytes: Location -> seq<bv8>)
    ensures IsDirectory(OnFreshDisk(tree, bytes), [])
  {
  }

  lemma FreshDiskHasPackage(tree: PackageTree.Node, bytes: Location -> seq<bv8>)
    requires PackageTree.WellNamed(tree)
    ensures ValidTree(OnFreshDisk(tree, bytes)) && AsValidated(OnFreshDisk(tree, bytes), [tree.name], tree)
  {
    FreshDiskIsValid(tree, bytes);
    hide OnFreshDisk, StructureReport.Exists, StructureReport.IsDir, PackageTree.WellNamed, ValidTree;
    forall r
      ensures [tree.name] + r in OnFreshDisk(tree, bytes) <==> StructureReport.Exists(tree, r)
      ensures StructureReport.Exists(tree, r) ==> (OnFreshDisk(tree, bytes)[[tree.name] + r].Directory? <==> StructureReport.IsDir(tree, r))
    {
      EntryOnFreshDisk(tree, bytes, r);
    }
  }

  lemma StartsAtTop(tree: PackageTree.Node, bytes: Location -> seq<bv8>, p: Location)
    requires p in OnFreshDisk(tree, bytes) && p != []
    ensures p[0] == tree.name
  {
    PackageTree.WalkStays(tree, [tree.name]);
    var e :| e in PackageTree.Walk(tree, [tree.name]) && e.at == p;
    assert p[..1][0] == p[0];
  }

  // The package: that of the samples, with nothing in the way

  const KIND := BornDigitalAIP
  const PLAIN_FILE: Manifest.File := Manifest.File("id", "", "")

  function Package(): PackageTree.Node {
    Sample(KIND, NOTES)
  }

  lemma FilesOfOne(name: string, k: PackageTree.Node, r: Location)
    ensures VerifyManifest.IsFile(ADir(name, [k]), r) <==> r != [] && r[0] == k.name && VerifyManifest.IsFile(k, r[1..])
  {
    if r != [] {
      assert r == [r[0]] + r[1..];
      InOne(name, k, r[0], r[1..]);
    }
  }

  lemma FilesOfTwo(name: string, a: PackageTree.Node, b: PackageTree.Node, r: Location)
    requires a.name != b.name
    ensures VerifyManifest.IsFile(ADir(name, [a, b]), r)
            <==> r != [] && ((r[0] == a.name && VerifyManifest.IsFile(a, r[1..])) || (r[0] == b.name && VerifyManifest.IsFile(b, r[1..])))
  {
    if r != [] {
      assert r == [r[0]] + r[1..];
      InTwo(name, a, b, r[0], r[1..]);
    }
  }

  lemma OneFile(name: string, file: string, r: Location)
    ensures VerifyManifest.IsFile(ADir(name, [AFile(file)]), r) <==> r == [file]
  {
    FilesOfOne(name, AFile(file), r);
    assert r != [] && r[1..] == [] ==> r == [r[0]];
  }

  /** The files that a manifest of the package has to list, as it lists them. */
  const LISTED: seq<Location> := [[CONTENT, "a"], [HEADER, OLD, SIP_DIR, METADATA_FILE], [HEADER, XSD, SCHEMA_FILE]]

  lemma FilesOfHeader(r: Location)
    ensures VerifyManifest.IsFile(SampleHeader(KIND), r) <==> r == [OLD, SIP_DIR, METADATA_FILE] || r == [XSD, SCHEMA_FILE]
  {
    var sipDir, schemas := ADir(SIP_DIR, [AFile(METADATA_FILE)]), ADir(XSD, [AFile(SCHEMA_FILE)]);
    var old' := ADir(OLD, [sipDir]);
    assert old'.name == OLD && schemas.name == XSD && sipDir.name == SIP_DIR;
    SampleNames();
    assert SampleHeader(KIND) == ADir(HEADER, [old', schemas]);
    hide ADir, AFile, SampleHeader, VerifyManifest.IsFile, OLD, SIP_DIR, METADATA_FILE, XSD, SCHEMA_FILE, HEADER;
    FilesOfTwo(HEADER, old', schemas, r);
    if r != [] {
      OneFile(XSD, SCHEMA_FILE, r[1..]);
      FilesOfOne(OLD, sipDir, r[1..]);
      assert r == [r[0]] + r[1..];
      if |r| > 1 {
        OneFile(SIP_DIR, METADATA_FILE, r[1..][1..]);
        assert r == [r[0], r[1]] + r[1..][1..];
      }
    }
  }

  lemma InListed(r: Location)
    ensures r in LISTED <==> r != [] && ((r[0] == CONTENT && r[1..] == ["a"])
                                         || (r[0] == HEADER && (r[1..] == [OLD, SIP_DIR, METADATA_FILE] || r[1..] == [XSD, SCHEMA_FILE])))
  {
    hide CONTENT, HEADER, OLD, SIP_DIR, METADATA_FILE, XSD, SCHEMA_FILE;
    if r != [] {
      assert r == [r[0]] + r[1..];
      assert [CONTENT] + ["a"] == [CONTENT, "a"] && [HEADER] + [XSD, SCHEMA_FILE] == [HEADER, XSD, SCHEMA_FILE];
      assert [HEADER] + [OLD, SIP_DIR, METADATA_FILE] == [HEADER, OLD, SIP_DIR, METADATA_FILE];
    }
  }

  /** The files in the package's scope are the listed ones. */
  lemma FilesInScope(at: Location)
    ensures VerifyManifest.IsFile(Package(), at) && VerifyManifest.InScope(KIND, at) <==> exists ns :: ns in LISTED && at == [CONTENT] + ns
  {
    if at != [] && at[0] == CONTENT {
      var r := at[1..];
      assert at == [CONTENT] + r;
      FilesOfContent(r);
      assert forall ns :: [CONTENT] + ns == at <==> ns == r;
    }
  }

  lemma FilesOfContent(r: Location)
    ensures VerifyManifest.IsFile(Package(), [CONTENT] + r) <==> r in LISTED
  {
    var content, header := SampleContent(), SampleHeader(KIND);
    Words();
    assert content.name == CONTENT && header.name == HEADER && content == ADir(CONTENT, [AFile("a")]);
    assert FirstOf(KIND) == ADir(CONTENT, [content, header]) && TopLevel(KIND)[0] == CONTENT;
    hide Sample, FirstOf, SampleContent, SampleHeader, ADir, PackageTree.NodeAt, CONTENT, HEADER, OLD, SIP_DIR, METADATA_FILE, XSD, SCHEMA_FILE,
         Name;
    InListed(r);
    SampleAt(KIND, NOTES, CONTENT, r);
    FilesOfTwo(CONTENT, content, header, r);
    hide VerifyManifest.IsFile, LISTED;
    if r != [] {
      assert r == [r[0]] + r[1..];
      OneFile(CONTENT, "a", r[1..]);
      FilesOfHeader(r[1..]);
    }
  }

  // Its two manifests

  /** What UpdatedAreldaMetadata.xml lists: the package. */
  function UpdatedItems(): seq<InventoryPrinter.Item> {
    [InventoryPrinter.Folder(CONTENT, [InventoryPrinter.Document("a", PLAIN_FILE)]),
     InventoryPrinter.Folder(HEADER, [
       InventoryPrinter.Folder(OLD, [InventoryPrinter.Folder(SIP_DIR, [InventoryPrinter.Document(METADATA_FILE, PLAIN_FILE)])]),
       InventoryPrinter.Folder(XSD, [InventoryPrinter.Document(SCHEMA_FILE, PLAIN_FILE)])])]
  }

  /** What the old metadata.xml lists: some other file. */
  function OldItems(): seq<InventoryPrinter.Item> {
    [InventoryPrinter.Folder(CONTENT, [InventoryPrinter.Document("b", PLAIN_FILE)])]
  }

  const OLD_LISTED: seq<Location> := [[CONTENT, "b"]]

  function Plainly(ns: seq<Location>): seq<Inventory.Listed> {
    seq(|ns|, i requires 0 <= i < |ns| => Inventory.Listed(ns[i], PLAIN_FILE))
  }

  function ManifestOf(items: seq<InventoryPrinter.Item>): Manifest.Manifest {
    Manifest.Manifest("5.0", Inventory.Entered(map[], InventoryPrinter.Files(items, [])))
  }

  /** The decoder gives the two documents: the old one for empty bytes. */
  function Decode(bytes: seq<bv8>): (seq<Xml.Token>, bool) {
    (Xml.Flat(InventoryPrinter.PrintedPackage("5.0", if bytes == [] then OldItems() else UpdatedItems())), true)
  }

  function BytesAt(r: Location): seq<bv8> {
    if r == UPDATED then [0] else []
  }

  lemma Decoded(bytes: seq<bv8>)
    ensures VerifyManifest.ManifestOf(Some(Decode(bytes))) == Some(ManifestOf(if bytes == [] then OldItems() else UpdatedItems()))
  {
    var items := if bytes == [] then OldItems() else UpdatedItems();
    ItemsAreProper();
    InventoryPrinter.ReadingUndoesPrinting("5.0", items);
    hide Xml.Flat, InventoryPrinter.PrintedPackage, Manifest.ReadTokens, UpdatedItems, OldItems;
  }

  lemma ItemsAreProper()
    ensures InventoryPrinter.ProperNames(UpdatedItems()) && InventoryPrinter.ProperNames(OldItems())
  {
    Words();
    assert Name("a") && Name("b");
    hide CONTENT, HEADER, OLD, SIP_DIR, METADATA_FILE, XSD, SCHEMA_FILE, Name;
    var a, o, m, x := InventoryPrinter.Document("a", PLAIN_FILE), InventoryPrinter.Document("b", PLAIN_FILE),
                      InventoryPrinter.Document(METADATA_FILE, PLAIN_FILE), InventoryPrinter.Document(SCHEMA_FILE, PLAIN_FILE);
    OneProper(a);
    OneProper(o);
    OneProper(m);
    OneProper(x);
    var s, xs := InventoryPrinter.Folder(SIP_DIR, [m]), InventoryPrinter.Folder(XSD, [x]);
    OneProper(s);
    var os := InventoryPrinter.Folder(OLD, [s]);
    TwoProper(os, xs);
    OneProper(InventoryPrinter.Folder(CONTENT, [o]));
    TwoProper(InventoryPrinter.Folder(CONTENT, [a]), InventoryPrinter.Folder(HEADER, [os, xs]));
  }

  lemma OneProper(i: InventoryPrinter.Item)
    requires InventoryPrinter.ProperName(i)
    ensures InventoryPrinter.ProperNames([i])
  {
    assert [i][1..] == [];
  }

  lemma TwoProper(i: InventoryPrinter.Item, j: InventoryPrinter.Item)
    requires InventoryPrinter.ProperName(i) && InventoryPrinter.ProperName(j)
    ensures InventoryPrinter.ProperNames([i, j])
  {
    hide InventoryPrinter.ProperName;
    assert [i, j][1..] == [j];
    OneProper(j);
  }

  lemma FilesOfOneItem(i: InventoryPrinter.Item, at: Location)
    ensures InventoryPrinter.Files([i], at) == InventoryPrinter.FilesOf(i, at)
  {
    assert [i][1..] == [] && InventoryPrinter.Files([], at) == [];
  }

  lemma FilesOfTwoItems(i: InventoryPrinter.Item, j: InventoryPrinter.Item, at: Location)
    ensures InventoryPrinter.Files([i, j], at) == InventoryPrinter.FilesOf(i, at) + InventoryPrinter.FilesOf(j, at)
  {
    assert [i, j][1..] == [j];
    FilesOfOneItem(j, at);
  }

  /** A folder with one file lists the file. */
  lemma FilesOfFolder(name: string, file: string, at: Location)
    ensures InventoryPrinter.FilesOf(InventoryPrinter.Folder(name, [InventoryPrinter.Document(file, PLAIN_FILE)]), at)
            == [Inventory.Listed(at + [name, file], PLAIN_FILE)]
  {
    FilesOfOneItem(InventoryPrinter.Document(file, PLAIN_FILE), at + [name]);
    assert at + [name] + [file] == at + [name, file];
  }

  lemma ListedItems()
    ensures InventoryPrinter.Files(UpdatedItems(), []) == Plainly(LISTED)
    ensures InventoryPrinter.Files(OldItems(), []) == Plainly(OLD_LISTED)
  {
    var a, m, x := InventoryPrinter.Document("a", PLAIN_FILE), InventoryPrinter.Document(METADATA_FILE, PLAIN_FILE),
                   InventoryPrinter.Document(SCHEMA_FILE, PLAIN_FILE);
    var s, xs := InventoryPrinter.Folder(SIP_DIR, [m]), InventoryPrinter.Folder(XSD, [x]);
    var os := InventoryPrinter.Folder(OLD, [s]);
    hide CONTENT, HEADER, OLD, SIP_DIR, METADATA_FILE, XSD, SCHEMA_FILE;
    FilesOfFolder(CONTENT, "a", []);
    FilesOfFolder(CONTENT, "b", []);
    FilesOfOneItem(InventoryPrinter.Folder(CONTENT, [InventoryPrinter.Document("b", PLAIN_FILE)]), []);
    FilesOfFolder(SIP_DIR, METADATA_FILE, [HEADER, OLD]);
    FilesOfOneItem(s, [HEADER, OLD]);
    FilesOfFolder(XSD, SCHEMA_FILE, [HEADER]);
    FilesOfTwoItems(os, xs, [HEADER]);
    FilesOfTwoItems(InventoryPrinter.Folder(CONTENT, [a]), InventoryPrinter.Folder(HEADER, [os, xs]), []);
    assert [] + [HEADER] == [HEADER] && [HEADER] + [OLD] == [HEADER, OLD];
    assert [] + [CONTENT, "a"] == [CONTENT, "a"] && [] + [CONTENT, "b"] == [CONTENT, "b"];
    assert [HEADER, OLD] + [SIP_DIR, METADATA_FILE] == [HEADER, OLD, SIP_DIR, METADATA_FILE];
    assert [HEADER] + [XSD, SCHEMA_FILE] == [HEADER, XSD, SCHEMA_FILE];
    assert |Plainly(LISTED)| == 3 && |Plainly(OLD_LISTED)| == 1;
  }

  lemma {:induction false} EnteredPlainly(files: map<string, Option<Manifest.File>>, ns: seq<Location>)
    ensures var out := Inventory.Entered(files, Plainly(ns));
            && (forall p :: p in out <==> p in files || exists i :: 0 <= i < |ns| && p == Slashed(ns[i]))
            && (forall p :: p in out ==> (p in files && out[p] == files[p]) || out[p] == Some(PLAIN_FILE))
    decreases |ns|
  {
    hide Slashed;
    if ns != [] {
      assert Plainly(ns)[1..] == Plainly(ns[1..]);
      EnteredPlainly(files[Slashed(ns[0]) := Some(PLAIN_FILE)], ns[1..]);
      var out := Inventory.Entered(files, Plainly(ns));
      assert Plainly(ns)[0] == Inventory.Listed(ns[0], PLAIN_FILE);
      assert out == Inventory.Entered(files[Slashed(ns[0]) := Some(PLAIN_FILE)], Plainly(ns[1..]));
      forall i | 0 <= i < |ns|
        ensures Slashed(ns[i]) in out
      {
        assert i > 0 ==> ns[i] == ns[1..][i - 1];
      }
      forall p | p in out && p !in files
        ensures exists i :: 0 <= i < |ns| && p == Slashed(ns[i])
      {
        if p != Slashed(ns[0]) {
          var i :| 0 <= i < |ns[1..]| && p == Slashed(ns[1..][i]);
          assert ns[i + 1] == ns[1..][i];
        }
      }
    }
  }

  /** What a manifest that lists these places has. */
  lemma ManifestLists(items: seq<InventoryPrinter.Item>, ns: seq<Location>)
    requires InventoryPrinter.Files(items, []) == Plainly(ns)
    ensures forall p :: p in ManifestOf(items).files <==> exists at :: at in ns && p == Slashed(at)
    ensures forall p :: p in ManifestOf(items).files ==> ManifestOf(items).files[p] == Some(PLAIN_FILE)
  {
    EnteredPlainly(map[], ns);
    hide Slashed, Plainly, Inventory.Entered;
    forall p | p in ManifestOf(items).files
      ensures exists at :: at in ns && p == Slashed(at)
    {
      var i :| 0 <= i < |ns| && p == Slashed(ns[i]);
      assert ns[i] in ns;
    }
    forall at | at in ns
      ensures Slashed(at) in ManifestOf(items).files
    {
      var i :| 0 <= i < |ns| && ns[i] == at;
    }
  }

  // The package verifies

  const SAME_HASH: VerifyManifest.Digests := (path, algorithm) => Some("")

  /** The manifest's files under their paths in the package. */
  function Prefixed(): map<string, Option<Manifest.File>> {
    map p | p in PrefixedPaths() :: Some(PLAIN_FILE)
  }

  function PrefixedPaths(): set<string> {
    set ns | ns in LISTED :: Slashed([CONTENT] + ns)
  }

  lemma ListedNames()
    ensures forall ns :: ns in LISTED ==> ns != [] && Names(ns) && Names([CONTENT] + ns)
  {
    Words();
    assert Name("a");
    hide CONTENT, HEADER, OLD, SIP_DIR, METADATA_FILE, XSD, SCHEMA_FILE, Name;
    forall ns | ns in LISTED
      ensures ns != [] && Names(ns) && Names([CONTENT] + ns)
    {
      assert Names([CONTENT]);
      NamesConcat([CONTENT], ns);
    }
  }

  lemma PrefixedIsPrefixed(files: map<string, Option<Manifest.File>>)
    requires forall p :: p in files <==> exists ns :: ns in LISTED && p == Slashed(ns)
    requires forall p :: p in files ==> files[p] == Some(PLAIN_FILE)
    ensures VerifyManifest.IsPrefixed(KIND, files, Prefixed()) && VerifyManifest.NamePaths(files)
  {
    hide *;
    ListedNames();
    forall k | k in files
      ensures Join([CONTENT, k]) in Prefixed() && NamePath(k)
    {
      var ns :| ns in LISTED && k == Slashed(ns);
      PrefixedPathOf(ns);
      InPrefixed(Join([CONTENT, k]));
    }
    forall q | q in Prefixed()
      ensures exists k :: k in files && Join([CONTENT, k]) == q && Prefixed()[q] == files[k]
    {
      InPrefixed(q);
      var ns :| ns in LISTED && q == Slashed([CONTENT] + ns);
      PrefixedPathOf(ns);
      assert Slashed(ns) in files;
    }
    MakesPrefixed(files, Prefixed());
  }

  lemma InPrefixed(q: string)
    ensures q in Prefixed() <==> exists ns :: ns in LISTED && q == Slashed([CONTENT] + ns)
    ensures q in Prefixed() ==> Prefixed()[q] == Some(PLAIN_FILE)
  {
    hide Slashed, LISTED;
  }

  lemma MakesPrefixed(files: map<string, Option<Manifest.File>>, out: map<string, Option<Manifest.File>>)
    requires forall k :: k in files ==> Join([CONTENT, k]) in out && NamePath(k)
    requires forall q :: q in out ==> exists k :: k in files && Join([CONTENT, k]) == q && out[q] == files[k]
    ensures VerifyManifest.IsPrefixed(KIND, files, out) && VerifyManifest.NamePaths(files)
  {
    hide Join, NamePath;
  }

  lemma PrefixedPathOf(ns: Location)
    requires ns != [] && Names(ns)
    ensures Join([CONTENT, Slashed(ns)]) == Slashed([CONTENT] + ns) && NamePath(Slashed(ns))
  {
    VerifyManifest.PrefixOfNames(ns);
    hide Join, Slashed, Names;
  }

  lemma PackageVerifies()
    ensures VerifyManifest.Verified(KIND, Package(), "5.0", Prefixed(), SAME_HASH)
  {
    ListedNames();
    NoHash();
    hide LISTED, Names, Slashed, CONTENT, Package, VerifyManifest.IsFile, VerifyManifest.InScope, RelPath, VerifyManifest.Lower;
    forall at | Names(at)
      ensures RelPath(at) in Prefixed() <==> VerifyManifest.IsFile(Package(), at) && VerifyManifest.InScope(KIND, at)
    {
      FilesInScope(at);
      forall ns | ns in LISTED
        ensures RelPath(at) == Slashed([CONTENT] + ns) <==> at == [CONTENT] + ns
      {
        RelPathOf([CONTENT] + ns);
        RelPathIsInjective(at, [CONTENT] + ns);
      }
    }
    forall p | p in Prefixed()
      ensures exists at :: Names(at) && p == RelPath(at)
    {
      var ns :| ns in LISTED && p == Slashed([CONTENT] + ns);
      RelPathOf([CONTENT] + ns);
    }
  }

  lemma RelPathOf(at: Location)
    ensures at != [] ==> RelPath(at) == Slashed(at)
  {
  }

  lemma NoHash()
    ensures VerifyManifest.Lower(PLAIN_FILE.hash) == "" && "5.0" in VerifyManifest.ALLOWED
  {
  }

  lemma PackageIsVerified()
    ensures VerifiedPackages.VerifiedManifest(KIND, Package(), ManifestOf(UpdatedItems()), SAME_HASH)
    ensures PackageTree.WellNamed(Package())
  {
    var m := ManifestOf(UpdatedItems());
    assert m.schemaVersion == "5.0";
    assert Package() == Sample(KIND, NOTES);
    hide *;
    IsExtra(NOTES);
    SampleIsAccepted(KIND, NOTES);
    ListedItems();
    ManifestLists(UpdatedItems(), LISTED);
    PrefixedIsPrefixed(m.files);
    PackageVerifies();
    IsVerifiedManifest(Package(), m, Prefixed());
  }

  lemma IsVerifiedManifest(tree: PackageTree.Node, m: Manifest.Manifest, files: map<string, Option<Manifest.File>>)
    requires StructureReport.StructureOk(tree, KIND) && VerifyManifest.NamePaths(m.files) && VerifyManifest.IsPrefixed(KIND, m.files, files)
    requires VerifyManifest.Verified(KIND, tree, m.schemaVersion, files, SAME_HASH)
    ensures VerifiedPackages.VerifiedManifest(KIND, tree, m, SAME_HASH)
  {
    hide StructureReport.StructureOk, VerifyManifest.NamePaths, VerifyManifest.IsPrefixed, VerifyManifest.Verified;
  }

  // And its identifier file has a gap

  const ROOT: Location := [SAMPLE]

  /** The file system with the package as it was validated, and with premis.xml. */
  function Validated(): Tree {
    OnFreshDisk(Package(), BytesAt)
  }

  function Described(premis: seq<bv8>): Tree {
    WithPremis(Validated(), ROOT, premis)
  }

  lemma UpdatedIsFile()
    ensures VerifyManifest.IsFile(Package(), UPDATED)
  {
    DifferentFiles();
    Words();
    var u, l := AFile(UPDATED_FILE), AFile(LogicalName(SAMPLE));
    assert SecondOf(KIND) == ADir(ADDITIONAL, [u, l]) && TopLevel(KIND)[1] == ADDITIONAL && TopLevel(KIND)[0] == CONTENT;
    assert u.name == UPDATED_FILE && l.name == LogicalName(SAMPLE) && VerifyManifest.IsFile(u, []);
    assert UPDATED == [ADDITIONAL] + [UPDATED_FILE] && [UPDATED_FILE][1..] == [];
    hide Sample, SecondOf, AFile, ADir, LogicalName, CONTENT, ADDITIONAL, UPDATED_FILE, Name, PackageTree.NodeAt;
    SampleAt(KIND, NOTES, ADDITIONAL, [UPDATED_FILE]);
    FilesOfTwo(ADDITIONAL, u, l, [UPDATED_FILE]);
  }

  lemma OldIsFile()
    ensures VerifyManifest.IsFile(Package(), MetadataAt(KIND)) && VerifyManifest.IsFile(Package(), ContentAt(KIND) + ["a"])
  {
    hide VerifyManifest.IsFile, Package, CONTENT, HEADER, OLD, SIP_DIR, METADATA_FILE, XSD, SCHEMA_FILE;
    assert [HEADER, OLD, SIP_DIR, METADATA_FILE] in LISTED && [CONTENT, "a"] in LISTED;
    FilesOfContent([HEADER, OLD, SIP_DIR, METADATA_FILE]);
    FilesOfContent([CONTENT, "a"]);
    assert [CONTENT] + [HEADER, OLD, SIP_DIR, METADATA_FILE] == MetadataAt(KIND);
    assert [CONTENT] + [CONTENT, "a"] == ContentAt(KIND) + ["a"];
  }

  /** A file of the package is on the disk, with premis.xml or without. */
  lemma FileOnDisk(premis: seq<bv8>, r: Location)
    requires VerifyManifest.IsFile(Package(), r) && r != [METADATA, PREMIS_FILE] && PackageTree.WellNamed(Package())
    ensures var t := Described(premis); ROOT + r in t && t[ROOT + r] == File(BytesAt(r))
  {
    assert Package().name == SAMPLE;
    EntryOnFreshDisk(Package(), BytesAt, r);
    hide OnFreshDisk, PackageTree.NodeAt, PackageTree.WellNamed, Package, BytesAt, METADATA, PREMIS_FILE;
    SamePrefix(ROOT, r, [METADATA, PREMIS_FILE]);
  }

  lemma RootOfSample()
    ensures Root(ROOT) && NameOf(ROOT) == SAMPLE
  {
    SampleNames();
  }

  /** The manifest that is read at a path, from the file on the disk. */
  lemma ReadOnDisk(premis: seq<bv8>, path: string, r: Location, items: seq<InventoryPrinter.Item>)
    requires Locate(path) == ROOT + r && VerifyManifest.IsFile(Package(), r) && r != [METADATA, PREMIS_FILE]
    requires PackageTree.WellNamed(Package()) && items == if BytesAt(r) == [] then OldItems() else UpdatedItems()
    ensures Locate(path) in Described(premis) && ManifestOnDisk(Described(premis), path, Decode) == Some(ManifestOf(items))
  {
    FileOnDisk(premis, r);
    Decoded(BytesAt(r));
    hide Locate, Described, Decode, ManifestOf, OldItems, UpdatedItems, VerifyManifest.ManifestOf, Package, PackageTree.WellNamed;
  }

  lemma TwoManifests(premis: seq<bv8>)
    ensures var sip, t := LaidOut(KIND, Path(true, ROOT)), Described(premis);
            && Locate(sip.manifestPath) in t && Locate(sip.metadataPath) in t
            && ManifestOnDisk(t, sip.manifestPath, Decode) == Some(ManifestOf(UpdatedItems()))
            && ManifestOnDisk(t, sip.metadataPath, Decode) == Some(ManifestOf(OldItems()))
  {
    var sip := LaidOut(KIND, Path(true, ROOT));
    hide *;
    RootOfSample();
    PackageIsVerified();
    ManifestPlaces(KIND, ROOT);
    MetadataPlace(KIND, ROOT);
    UpdatedIsFile();
    OldIsFile();
    OtherPlaces();
    ReadOnDisk(premis, sip.manifestPath, UPDATED, UpdatedItems());
    ReadOnDisk(premis, sip.metadataPath, MetadataAt(KIND), OldItems());
  }

  lemma OtherPlaces()
    ensures UPDATED != [METADATA, PREMIS_FILE] && MetadataAt(KIND) != [METADATA, PREMIS_FILE] && MetadataAt(KIND) != UPDATED
    ensures Sip.ManifestAt(KIND) == UPDATED && BytesAt(UPDATED) == [0] && BytesAt(MetadataAt(KIND)) == []
  {
    Words();
    assert UPDATED[0] == ADDITIONAL && |MetadataAt(KIND)| == 5;
  }

  lemma NothingInTheWay()
    ensures !StructureReport.Exists(Package(), [METADATA]) && !StructureReport.Exists(Package(), [OBJECTS])
  {
    Words();
    NotesIsDifferent();
    assert [METADATA] + [] == [METADATA] && [OBJECTS] + [] == [OBJECTS] && TopLevel(KIND) == [CONTENT, ADDITIONAL];
    hide Sample, CONTENT, ADDITIONAL, METADATA, OBJECTS, NOTES, PackageTree.NodeAt, Name;
    SampleAt(KIND, NOTES, METADATA, []);
    SampleAt(KIND, NOTES, OBJECTS, []);
  }

  lemma OldListsSomethingElse()
    ensures ManifestPath(["a"]) !in ManifestOf(OldItems()).files && ManifestOf(OldItems()).files != map[]
    ensures PremisRun.ContentFile(["a"]) && !Special("a")
  {
    ListedItems();
    ManifestLists(OldItems(), OLD_LISTED);
    Words();
    assert Name("a") && Name("b") && Names([CONTENT, "a"]) && Names([CONTENT, "b"]);
    assert [CONTENT] + ["a"] == [CONTENT, "a"];
    assert [CONTENT, "b"] in OLD_LISTED && [CONTENT, "a"] != [CONTENT, "b"];
    assert Slashed([CONTENT, "b"]) in ManifestOf(OldItems()).files;
    hide ManifestOf, OldItems, Slashed, CONTENT, Name;
    SameSlashed([CONTENT, "a"], [CONTENT, "b"]);
  }

  /** The old manifest is read, and if the list is made from it, no entry leads to the content file. */
  ghost predicate Gap(after: Tree, list: seq<IdFile>) {
    var pip := NewPip(Path(true, ROOT), KIND);
    && ManifestOnDisk(after, pip.manifestPath, Decode) == Some(ManifestOf(OldItems()))
    && (ListOf(pip, ManifestOf(OldItems()), list) ==> !Reached(KIND, ROOT, list, ContentAt(KIND) + ["a"]))
  }

  /**
    The package is accepted, its manifest verifies, and nothing keeps it from being restructured. But however it is
    restructured, the manifest that is then read is the old one, and the list that is made from it has no entry
    that leads to the content file.
  */
  lemma ContentFileIsNotIdentified(premis: seq<bv8>)
    ensures VerifiedPackages.VerifiedManifest(KIND, Package(), ManifestOf(UpdatedItems()), SAME_HASH)
    ensures VerifyManifest.IsFile(Package(), ContentAt(KIND) + ["a"])
    ensures AsValidated(Validated(), ROOT, Package()) && Root(ROOT)
    ensures ManifestOnDisk(Described(premis), LaidOut(KIND, Path(true, ROOT)).manifestPath, Decode) == Some(ManifestOf(UpdatedItems()))
    ensures Ready(KIND, ROOT, Described(premis))
    ensures forall after, list :: Restructured(KIND, ROOT, Described(premis), after) ==> Gap(after, list)
  {
    hide *;
    RootOfSample();
    TopOfPackage();
    PackageIsVerified();
    OldIsFile();
    TwoManifests(premis);
    FreshDiskHasPackage(Package(), BytesAt);
    ValidatedIs(premis);
    NothingInTheWay();
    AcceptedPackage();
    ValidatedPackagesAreReadyIff(KIND, ROOT, Validated(), Package(), premis);
    forall after, list | Restructured(KIND, ROOT, Described(premis), after)
      ensures Gap(after, list)
    {
      GapAfterwards(premis, after, list);
    }
  }

  lemma GapAfterwards(premis: seq<bv8>, after: Tree, list: seq<IdFile>)
    requires Root(ROOT) && Restructured(KIND, ROOT, Described(premis), after)
    ensures Gap(after, list)
  {
    var pip := NewPip(Path(true, ROOT), KIND);
    hide *;
    TopOfPackage();
    TwoManifests(premis);
    OldListsSomethingElse();
    WhichManifest(KIND, ROOT, Described(premis), after, Decode);
    ParsedPathsAreCleaned(after, pip.manifestPath, Decode);
    if ListOf(pip, ManifestOf(OldItems()), list) {
      ContentIsIdentifiedIffListed(KIND, ROOT, ManifestOf(OldItems()), list, ["a"]);
    }
    IsGap(after, list);
  }

  lemma IsGap(after: Tree, list: seq<IdFile>)
    requires var pip := NewPip(Path(true, ROOT), KIND);
             && ManifestOnDisk(after, pip.manifestPath, Decode) == Some(ManifestOf(OldItems()))
             && (ListOf(pip, ManifestOf(OldItems()), list) ==> !Reached(KIND, ROOT, list, ContentAt(KIND) + ["a"]))
    ensures Gap(after, list)
  {
    hide NewPip, Path, ManifestOnDisk, ListOf, Reached;
  }

  lemma TopOfPackage()
    ensures [Package().name] == ROOT && Package().name == SAMPLE && ROOT != [] && KIND == BornDigitalAIP
  {
  }

  lemma ValidatedIs(premis: seq<bv8>)
    ensures Validated() == OnFreshDisk(Package(), BytesAt)
    ensures Described(premis) == WithPremis(Validated(), ROOT, premis)
  {
    hide OnFreshDisk, WithPremis;
  }

  lemma AcceptedPackage()
    ensures StructureReport.StructureOk(Package(), KIND)
  {
    PackageIsVerified();
    hide StructureReport.StructureOk, Package;
  }
}
