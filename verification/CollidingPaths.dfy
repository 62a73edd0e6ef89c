/**
  Two documents whose paths collide in the manifest check: one with a folder called "..", for which the report depends
  on the order in which the map of its files is read, and one with two nameless files, for which it never does.
*/
module CollidingPaths {
  import opened Wrappers
  import opened Xml
  import opened Paths
  import opened Manifest
  import opened Inventory
  import opened Sip
  import MapOrder
  import ValidatedPackages
  import VerifyManifest
  import StructureReport
  import PackageTree

  function FolderOf(name: string, kid: Node): Node {
    Elem("", "ordner", [], [NameIn([Chars(name)]), kid])
  }

  function FileWith(name: string, hash: string): Node {
    Elem("", "datei", [], [NameIn([Chars(name)]), Elem("", "pruefsumme", [], [Chars(hash)])])
  }

  const FIRST: Location := [CONTENT, "a"]
  const SECOND: Location := ["..", CONTENT, CONTENT, "a"]

  function FirstFolder(hash: string): Node {
    FolderOf(CONTENT, FileWith("a", hash))
  }

  function SecondFolder(hash: string): Node {
    FolderOf("..", FolderOf(CONTENT, FolderOf(CONTENT, FileWith("a", hash))))
  }

  /** One file below "content", and one that goes up and comes down to it. */
  function Upwards(hash: string, hash': string): seq<Node> {
    [Elem("", "paket", [], [Elem("", "inhaltsverzeichnis", [], [FirstFolder(hash), SecondFolder(hash')])])]
  }

  // Paths that go up

  lemma UpwardsIsClean(ns: Location)
    requires Names(ns)
    ensures Clean(Slashed([".."] + ns)) == Slashed([".."] + ns)
  {
    var cs := [".."] + ns;
    SplitSlashed(cs);
    assert cs[0] == ".." && cs[1..] == ns;
    assert [] + [".."] == [".."];
    ReduceNames(ns, false, [".."]);
    assert Reduce(cs, false, []) == cs;
    assert Slashed(cs) != "" && Slashed(cs)[0] == '.';
    hide Split, Reduce, Slashed;
  }

  lemma JoinUpwards(ns: Location, n: string)
    requires Names(ns) && Name(n)
    ensures Join([Slashed([".."] + ns), n]) == Slashed([".."] + ns + [n])
  {
    var p := Slashed([".."] + ns);
    assert p != "";
    assert Names(ns + [n]);
    Assoc([".."], ns, [n]);
    SlashedConcat([".."] + ns, [n]);
    assert [p, n][1..] == [n] && Slashed([n]) == n;
    assert Slashed([p, n]) == p + "/" + n;
    hide Slashed, Clean, Names, Name;
    UpwardsIsClean(ns + [n]);
  }

  lemma GoUp()
    ensures Join([".", ".."]) == ".."
  {
    var cs := [".", ".."];
    SplitSlashed(cs);
    assert cs[1..] == [".."] && [".."][1..] == [];
    assert Reduce(cs, false, []) == [".."] && Slashed(cs)[0] == '.';
    assert Slashed([".."]) == "..";
  }

  /** Below "content", going up comes back. */
  lemma PrefixOfUpwards(ns: Location)
    requires Names(ns) && ns != []
    ensures Join([CONTENT, Slashed([".."] + ns)]) == Slashed(ns)
  {
    Words();
    var p := Slashed([".."] + ns);
    var cs := [CONTENT, ".."] + ns;
    assert [CONTENT] + ([".."] + ns) == cs;
    SlashedConcat([CONTENT], [".."] + ns);
    assert [CONTENT, p][1..] == [p] && Slashed([p]) == p && Slashed([CONTENT]) == CONTENT;
    assert Slashed([CONTENT, p]) == Slashed(cs);
    SplitSlashed(cs);
    ReduceNames(ns, false, []);
    assert cs[1..] == [".."] + ns && cs[1..][1..] == ns;
    assert [] + [CONTENT] == [CONTENT] && [CONTENT][..0] == [] && [] + ns == ns;
    assert Reduce(cs[1..], false, [CONTENT]) == ns;
    assert Reduce(cs, false, []) == ns;
    assert Slashed(cs)[0] == CONTENT[0] && CONTENT != "";
    hide Split, Reduce, Slashed, Names;
  }

  // Reading

  /** A file is entered under its name, below the path so far. */
  lemma ReadFileWith(name: string, hash: string, top: string, r: Reader)
    ensures var p := Join([r.path, name]);
            ReadNode(FileWith(name, hash), Some(top), r)
            == Going(r.(path := Dir(p), file := None, files := r.files[p := Some(File("", "", hash))]))
  {
    var start := Opened(r, "datei", []);
    assert start == r.(file := Some(File("", "", "")));
    var named := start.(path := Join([r.path, name]));
    var hashed := named.(file := Some(File("", "", hash)));
    var sum := Elem("", "pruefsumme", [], [Chars(hash)]);
    hide Join, Dir;
    ReadChunk(name, start);
    ReadTwo(Chars(name), Chars(name), Some("name"), start);
    ReadNameAndFile([Chars(name)], "datei", start, "");
    assert ReadNode(Chars(hash), Some("pruefsumme"), named) == Going(hashed);
    ReadTwo(Chars(hash), Chars(hash), Some("pruefsumme"), named);
    assert ReadNode(sum, Some("datei"), named) == Going(hashed);
    hide ReadNodes;
    ReadTwo(NameIn([Chars(name)]), sum, Some("datei"), start);
  }

  /** A folder's content is read below its name. */
  lemma ReadFolderOf(name: string, kid: Node, top: string, r: Reader)
    ensures ReadNode(FolderOf(name, kid), Some(top), r)
            == Left(ReadNode(kid, Some("ordner"), r.(path := Join([r.path, name]))), "ordner")
  {
    hide Join, Dir;
    ReadChunk(name, r);
    ReadTwo(Chars(name), Chars(name), Some("name"), r);
    ReadNameAndFile([Chars(name)], "ordner", r, "");
    ReadFolder([NameIn([Chars(name)]), kid], top, r);
    hide ReadNodes, ReadNode;
    ReadTwo(NameIn([Chars(name)]), kid, Some("ordner"), r);
  }

  lemma ReadFirstFolder(hash: string, top: string, r: Reader)
    requires r.path == ""
    ensures ReadNode(FirstFolder(hash), Some(top), r)
            == Going(r.(path := ".", file := None, files := r.files[Slashed(FIRST) := Some(File("", "", hash))]))
  {
    Words();
    var file, inner := FileWith("a", hash), r.(path := CONTENT);
    var p := Slashed(FIRST);
    assert Name("a") && Names([CONTENT]) && Path(false, [CONTENT]) == CONTENT && Path(false, [CONTENT] + ["a"]) == p;
    assert Path(false, [] + ["a"]) == "a";
    assert [CONTENT, "a"] == [CONTENT] + ["a"];
    hide Join, Dir, Name, Names, Path, Slashed, ReadNode, CONTENT, FileWith;
    JoinToNothing(CONTENT);
    ReadFolderOf(CONTENT, file, top, r);
    ReadFileWith("a", hash, "ordner", inner);
    JoinPath(false, [CONTENT], ["a"]);
    DirPath(false, [CONTENT], "a");
    DirPath(false, [], CONTENT);
  }

  lemma PathsUp()
    ensures var up := Slashed([".."] + [CONTENT]);
            && Join(["..", CONTENT]) == up
            && Join([up, CONTENT]) == Slashed([".."] + [CONTENT, CONTENT])
            && Join([Slashed([".."] + [CONTENT, CONTENT]), "a"]) == Slashed(SECOND)
  {
    Words();
    assert Name("a") && Names([]) && Names([CONTENT]) && Names([CONTENT, CONTENT]);
    assert Slashed([".."] + []) == "..";
    assert [".."] + [] + [CONTENT] == [".."] + [CONTENT];
    assert [".."] + [CONTENT] + [CONTENT] == [".."] + [CONTENT, CONTENT];
    assert [".."] + [CONTENT, CONTENT] + ["a"] == SECOND;
    hide Join, Slashed, Names, Name, CONTENT, SECOND;
    JoinUpwards([], CONTENT);
    JoinUpwards([CONTENT], CONTENT);
    JoinUpwards([CONTENT, CONTENT], "a");
  }

  /** The closing tags of folders change the path only. */
  lemma LeavesFolder(r: Reader)
    ensures Left(Going(r), "ordner").Going? && Left(Going(r), "ordner").reader.files == r.files
    ensures Left(Going(r), "ordner").reader.version == r.version && Left(Going(r), "ordner").reader.file == r.file
  {
    hide Dir;
  }

  lemma ReadSecondFolder(hash: string, top: string, r: Reader)
    requires r.path == "."
    ensures var p := ReadNode(SecondFolder(hash), Some(top), r);
            p.Going? && p.reader.files == r.files[Slashed(SECOND) := Some(File("", "", hash))] && p.reader.version == r.version
  {
    var file := FileWith("a", hash);
    var inner := FolderOf(CONTENT, file);
    var outer := FolderOf(CONTENT, inner);
    hide Join, Dir, Slashed, ReadNode, CONTENT, FileWith, FolderOf, Left, SECOND;
    GoUp();
    PathsUp();
    var r1 := r.(path := "..");
    var r2 := r.(path := Slashed([".."] + [CONTENT]));
    var r3 := r.(path := Slashed([".."] + [CONTENT, CONTENT]));
    ReadFolderOf("..", outer, top, r);
    ReadFolderOf(CONTENT, inner, "ordner", r1);
    ReadFolderOf(CONTENT, file, "ordner", r2);
    ReadFileWith("a", hash, "ordner", r3);
    var read := ReadNode(file, Some("ordner"), r3).reader;
    LeavesFolder(read);
    var left := Left(Going(read), "ordner").reader;
    LeavesFolder(left);
    LeavesFolder(Left(Going(left), "ordner").reader);
  }

  function Entries(hash: string, hash': string): map<string, Option<File>> {
    map[Slashed(FIRST) := Some(File("", "", hash)), Slashed(SECOND) := Some(File("", "", hash'))]
  }

  /** The parser enters the one file under "content/a", and the other under "../content/content/a". */
  lemma UpwardsIsRead(hash: string, hash': string)
    ensures ReadDocument(Upwards(hash, hash')) == Ok(Manifest("", Entries(hash, hash')))
  {
    var a, b, top := FirstFolder(hash), SecondFolder(hash'), "inhaltsverzeichnis";
    hide FirstFolder, SecondFolder, Slashed, Join, Dir, FIRST, SECOND;
    ReadFirstFolder(hash, top, FRESH);
    var r := ReadNode(a, Some(top), FRESH).reader;
    ReadSecondFolder(hash', top, r);
    var r' := ReadNode(b, Some(top), r).reader;
    ReadTwo(a, b, Some(top), FRESH);
    assert r'.files == Entries(hash, hash');
    var inventory := Elem("", "inhaltsverzeichnis", [], [a, b]);
    hide ReadNodes;
    assert ReadNode(inventory, Some("paket"), FRESH) == Stopped(Manifest("", r'.files));
    ReadInventory(inventory, Manifest("", r'.files));
  }

  lemma ReadInventory(inventory: Node, m: Manifest)
    requires ReadNode(inventory, Some("paket"), FRESH) == Stopped(m)
    ensures ReadDocument([Elem("", "paket", [], [inventory])]) == Ok(m)
  {
    var package := Elem("", "paket", [], [inventory]);
    assert ReadNodes([inventory], Some("paket"), FRESH) == Stopped(m);
    assert Opened(FRESH, "paket", []) == FRESH;
    assert ReadNode(package, None, FRESH) == Stopped(m);
    assert ReadNodes([package], None, FRESH) == Stopped(m);
  }

  // Checking

  const PLACE: Location := [CONTENT, CONTENT, "a"]

  lemma BothGetThePlace()
    ensures Names(PLACE) && PLACE != [] && Slashed(FIRST) != Slashed(SECOND) && FIRST != [] && Names(FIRST)
    ensures Join([CONTENT, Slashed(FIRST)]) == Slashed(PLACE) && Join([CONTENT, Slashed(SECOND)]) == Slashed(PLACE)
  {
    Words();
    assert Name("a") && [CONTENT] + FIRST == PLACE && [".."] + PLACE == SECOND;
    assert Path(false, PLACE) == Slashed(PLACE);
    assert CONTENT[0] == 'c' && Slashed(FIRST)[0] == 'c' && Slashed(SECOND)[0] == '.';
    hide Join, Slashed, Path, Name, CONTENT;
    VerifyManifest.PrefixOfNames(FIRST);
    PrefixOfUpwards(PLACE);
  }

  lemma ContentIsThere(kind: Kind, tree: PackageTree.Node)
    requires IsAIP(kind) && VerifyManifest.IsFile(tree, PLACE)
    ensures VerifyManifest.WalkRoot(kind, tree).Some?
  {
    hide PackageTree.Walk, CONTENT, PackageTree.NodeIn;
    VerifyManifest.FirstNameIsThere(tree.kids, PLACE);
  }

  /** Two entries of an AIP's manifest get the same path, of a file with the hash of one of them. */
  lemma TwoEntriesDecide(kind: Kind, base: string, tree: PackageTree.Node, m: Manifest, q: string, f: Option<File>, g: Option<File>,
                         digest: VerifyManifest.Digests)
    requires VerifyManifest.WalkRoot(kind, tree).Some? && q in VerifyManifest.FilesFound(kind, VerifyManifest.WalkRoot(kind, tree).value)
    requires MapOrder.Candidate(kind, m.files, q, f) && MapOrder.Candidate(kind, m.files, q, g)
    requires MapOrder.PrefixedPaths(kind, m.files) == {q}
    requires MapOrder.VerdictOn(q, f, digest) == MapOrder.Fine && MapOrder.VerdictOn(q, g, digest).Bad?
    ensures MapOrder.ReportsDiffer(kind, base, tree, m, digest)
  {
    hide VerifyManifest.FilesFound, VerifyManifest.WalkRoot, MapOrder.VerdictOn, MapOrder.ReportsDiffer, MapOrder.Candidate,
         MapOrder.PrefixedPaths;
    var found := VerifyManifest.FilesFound(kind, VerifyManifest.WalkRoot(kind, tree).value);
    assert MapOrder.HasVerdict(kind, m.files, digest, q);
    assert MapOrder.EachCheckable(kind, found, m.files, digest);
    assert MapOrder.Ambiguous(kind, found, m.files, digest, q, f, g);
    assert MapOrder.WithVerdicts(digest, q, f, g);
    MapOrder.OrderDecidesIff(kind, base, tree, m, digest);
  }

  lemma EntriesOfPlace(kind: Kind, hash: string, hash': string)
    requires IsAIP(kind)
    ensures MapOrder.PrefixedPaths(kind, Entries(hash, hash')) == {Slashed(PLACE)}
    ensures MapOrder.Candidate(kind, Entries(hash, hash'), Slashed(PLACE), Some(File("", "", hash)))
    ensures MapOrder.Candidate(kind, Entries(hash, hash'), Slashed(PLACE), Some(File("", "", hash')))
  {
    BothGetThePlace();
    var files := Entries(hash, hash');
    assert files.Keys == {Slashed(FIRST), Slashed(SECOND)};
    assert Slashed(FIRST) in files && Slashed(SECOND) in files;
    hide Slashed, FIRST, SECOND, PLACE, CONTENT, Names, Join;
  }

  lemma PlaceIsFound(kind: Kind, tree: PackageTree.Node)
    requires IsAIP(kind) && PackageTree.WellNamed(tree) && VerifyManifest.IsFile(tree, PLACE)
    ensures VerifyManifest.WalkRoot(kind, tree).Some?
    ensures Slashed(PLACE) in VerifyManifest.FilesFound(kind, VerifyManifest.WalkRoot(kind, tree).value)
  {
    assert VerifyManifest.InScope(kind, PLACE) && RelPath(PLACE) == Slashed(PLACE);
    hide *;
    BothGetThePlace();
    ContentIsThere(kind, tree);
    VerifyManifest.ScopeOfWalk(kind, tree, PLACE);
  }

  lemma HashesTell(p: string, hash: string, hash': string)
    requires VerifyManifest.Lower(hash) != VerifyManifest.Lower(hash')
    ensures var digest: VerifyManifest.Digests := HasHash(hash);
            && MapOrder.VerdictOn(p, Some(File("", "", hash)), digest) == MapOrder.Fine
            && MapOrder.VerdictOn(p, Some(File("", "", hash')), digest).Bad?
  {
  }

  /** Every file has the hash. */
  function HasHash(hash: string): VerifyManifest.Digests {
    (path, algorithm) => Some(VerifyManifest.Lower(hash))
  }

  /**
    An AIP with the file content/content/a, and the document that enters it twice, with two hashes: whether a
    mismatch is reported depends on the order of the map when the file has one of them.
  */
  lemma OrderDecidesForADocument(kind: Kind, base: string, tree: PackageTree.Node, hash: string, hash': string)
    requires IsAIP(kind) && PackageTree.WellNamed(tree) && VerifyManifest.IsFile(tree, [CONTENT, CONTENT, "a"])
    requires VerifyManifest.Lower(hash) != VerifyManifest.Lower(hash')
    ensures var m := ReadDocument(Upwards(hash, hash'));
            m.Ok? && MapOrder.ReportsDiffer(kind, base, tree, m.value, HasHash(hash))
  {
    assert PLACE == [CONTENT, CONTENT, "a"];
    hide *;
    UpwardsIsRead(hash, hash');
    var m := Manifest("", Entries(hash, hash'));
    EntriesOfPlace(kind, hash, hash');
    PlaceIsFound(kind, tree);
    HashesTell(Slashed(PLACE), hash, hash');
    TwoEntriesDecide(kind, base, tree, m, Slashed(PLACE), Some(File("", "", hash)), Some(File("", "", hash')), HasHash(hash));
  }

  lemma TheSampleHasTheFile(kind: Kind)
    requires IsAIP(kind)
    ensures VerifyManifest.IsFile(ValidatedPackages.Sample(kind, ValidatedPackages.NOTES), [CONTENT, CONTENT, "a"])
  {
    assert ContentAt(kind) + ["a"] == [CONTENT, CONTENT, "a"];
    var kid := ValidatedPackages.AFile("a");
    assert ValidatedPackages.SampleContent() == ValidatedPackages.ADir(CONTENT, [kid]);
    assert PackageTree.NodeAt(kid, []) == Some(kid) && kid.FileNode? && kid.name == "a" && ["a"] + [] == ["a"];
    assert ValidatedPackages.Extra(ValidatedPackages.NOTES);
    hide PackageTree.NodeAt, CONTENT, ValidatedPackages.SampleContent, ValidatedPackages.Sample, ValidatedPackages.AFile,
         ValidatedPackages.ADir, ValidatedPackages.Extra;
    ValidatedPackages.SampleContentAt(kind, ValidatedPackages.NOTES, ["a"]);
    ValidatedPackages.InOne(CONTENT, kid, "a", []);
  }

  /** There are accepted AIPs with that file, and so with two reports. */
  lemma AcceptedPackageHasTwoReports(kind: Kind, hash: string, hash': string) returns (tree: PackageTree.Node)
    requires IsAIP(kind) && VerifyManifest.Lower(hash) != VerifyManifest.Lower(hash')
    ensures StructureReport.StructureOk(tree, kind) && PackageTree.WellNamed(tree)
    ensures var m := ReadDocument(Upwards(hash, hash'));
            m.Ok? && forall base :: MapOrder.ReportsDiffer(kind, base, tree, m.value, HasHash(hash))
  {
    assert ValidatedPackages.Extra(ValidatedPackages.NOTES);
    hide *;
    tree := ValidatedPackages.Sample(kind, ValidatedPackages.NOTES);
    ValidatedPackages.SampleIsAccepted(kind, ValidatedPackages.NOTES);
    TheSampleHasTheFile(kind);
    UpwardsIsRead(hash, hash');
    forall base
      ensures MapOrder.ReportsDiffer(kind, base, tree, Manifest("", Entries(hash, hash')), HasHash(hash))
    {
      OrderDecidesForADocument(kind, base, tree, hash, hash');
    }
  }

  // Two files without names

  function Nameless(id: string): Node {
    Elem("", "datei", [Attr("id", id)], [])
  }

  /** A document that lists two files without names at the top of its inventory. */
  function NamelessDocument(id: string, id': string): seq<Node> {
    [Elem("", "paket", [], [Elem("", "inhaltsverzeichnis", [], [Nameless(id), Nameless(id')])])]
  }

  lemma NamelessIsRead(id: string, r: Reader)
    ensures ReadNode(Nameless(id), Some("inhaltsverzeichnis"), r)
            == Going(r.(files := r.files[r.path := Some(File(id, "", ""))], file := None, path := Dir(r.path)))
  {
  }

  lemma DirOfNothing()
    ensures Dir("") == "."
  {
  }

  /** The parser enters them under the empty path and under ".". */
  lemma NamelessFilesAreRead(id: string, id': string)
    ensures ReadDocument(NamelessDocument(id, id'))
            == Ok(Manifest("", map["" := Some(File(id, "", "")), "." := Some(File(id', "", ""))]))
  {
    var a, b, start := Nameless(id), Nameless(id'), FRESH;
    var r := start.(files := map["" := Some(File(id, "", ""))], path := ".");
    var r' := r.(files := r.files["." := Some(File(id', "", ""))], path := Dir("."));
    NamelessIsRead(id, start);
    DirOfNothing();
    NamelessIsRead(id', r);
    hide Dir, Join;
    var top := Some("inhaltsverzeichnis");
    assert ReadNodes([], top, r') == Going(r');
    assert [a, b][1..] == [b] && [b][1..] == [];
    assert ReadNodes([b], top, r) == Going(r');
    assert ReadNodes([a, b], top, start) == Going(r');
    var inventory := Elem("", "inhaltsverzeichnis", [], [a, b]);
    assert ReadNode(inventory, Some("paket"), start) == Stopped(Manifest("", r'.files));
    assert ReadNodes([inventory], Some("paket"), start) == Stopped(Manifest("", r'.files));
    assert Opened(start, "paket", []) == start;
    var package := Elem("", "paket", [], [inventory]);
    assert ReadNode(package, None, start) == Stopped(Manifest("", r'.files));
    assert NamelessDocument(id, id') == [package];
  }

  /**
    They get the same path in the package, so that which of them is kept depends on the order; but they differ in
    nothing that the check looks at, and nothing that it reports ever depends on the order.
  */
  lemma NamelessFilesNeverDecide(kind: Kind, id: string, id': string)
    ensures var m := ReadDocument(NamelessDocument(id, id'));
            && m.Ok? && (IsAIP(kind) && id != id' ==> VerifyManifest.OrderMatters(kind, m.value.files))
            && forall base, tree, digest :: PackageTree.WellNamed(tree) ==> !MapOrder.OutcomesDiffer(kind, base, tree, m.value, digest)
  {
    hide *;
    var a, b := Some(File(id, "", "")), Some(File(id', "", ""));
    var m := Manifest("", map["" := a, "." := b]);
    NamelessFilesAreRead(id, id');
    if IsAIP(kind) && id != id' {
      VerifyManifest.NamelessFilesCollide(a, b);
      VerifyManifest.CollisionsMatter(kind, m.files, "", ".");
    }
    OnlyIdentifiers(id, id');
    SameChecked(m.files);
    MapOrder.OrderCanDecideIff(kind, m);
  }

  lemma OnlyIdentifiers(id: string, id': string)
    ensures MapOrder.Checked(Some(File(id, "", ""))) == MapOrder.Checked(Some(File(id', "", "")))
  {
  }

  lemma SameChecked(files: map<string, Option<File>>)
    requires forall k, l :: k in files && l in files ==> MapOrder.Checked(files[k]) == MapOrder.Checked(files[l])
    ensures !MapOrder.SomeCollision(files)
  {
    hide MapOrder.Checked, Join, Slashed, Names;
  }
}
