/**
  The streaming reader (module Manifest) and the recursive reader (module Export) find the same files in a
  package: the recursive lists are rearrangements of the document-order listing that the streaming reader
  enters into its map.
*/
module ReadersAgree {
  import opened Wrappers
  import opened Xml
  import opened Manifest
  import opened Inventory
  import opened Export
  import opened Paths

  /** No two attributes have the local name. */
  predicate AtMostOne(attrs: seq<Attr>, local: string) {
    forall i, j :: 0 <= i < j < |attrs| ==> !(attrs[i].local == local && attrs[j].local == local)
  }

  /** Then both readers take the value of the one attribute that has it, or the empty text if none has. */
  lemma {:induction false} OnlyAttr(attrs: seq<Attr>, local: string, value: string)
    requires AtMostOne(attrs, local)
    ensures forall a :: a in attrs && a.local == local ==> LastAttr(attrs, local, value) == a.value && FirstAttr(attrs, local) == a.value
    ensures (forall a :: a in attrs ==> a.local != local) ==> LastAttr(attrs, local, value) == value && FirstAttr(attrs, local) == ""
    decreases |attrs|
  {
    if attrs != [] {
      var first, rest := attrs[0], attrs[1..];
      assert attrs == [first] + rest;
      assert forall i :: 0 <= i < |rest| ==> rest[i] == attrs[i + 1];
      OnlyAttr(rest, local, if first.local == local then first.value else value);
    }
  }

  /** Of several attributes, the streaming reader takes the first and the recursive reader the last. */
  lemma {:induction false} FirstAndLastAttr(attrs: seq<Attr>, local: string, value: string, k: nat)
    requires k < |attrs| && attrs[k].local == local
    ensures (forall i :: 0 <= i < k ==> attrs[i].local != local) ==> FirstAttr(attrs, local) == attrs[k].value
    ensures (forall i :: k < i < |attrs| ==> attrs[i].local != local) ==> LastAttr(attrs, local, value) == attrs[k].value
    decreases |attrs|
  {
    var first, rest := attrs[0], attrs[1..];
    assert forall i :: 0 <= i < |rest| ==> rest[i] == attrs[i + 1];
    var next := if first.local == local then first.value else value;
    if k > 0 {
      FirstAndLastAttr(rest, local, next, k - 1);
    } else if forall i :: 0 < i < |attrs| ==> attrs[i].local != local {
      OnlyAttr(rest, local, next);
    }
  }

  /** Every `datei` has at most one identifier. */
  predicate SingleIds(ns: seq<Node>) {
    ns == [] || (SingleId(ns[0]) && SingleIds(ns[1..]))
  }

  predicate SingleId(n: Node) {
    match n
    case Elem(_, local, attrs, kids) => (local == "datei" ==> AtMostOne(attrs, "id")) && SingleIds(kids)
    case _ => true
  }

  function AsDipFile(l: Listed): DipFile {
    DipFile(l.file.id, Slashed(l.names), l.file.hash, l.file.algorithm)
  }

  function AsDipFiles(ls: seq<Listed>): seq<DipFile> {
    if ls == [] then [] else [AsDipFile(ls[0])] + AsDipFiles(ls[1..])
  }

  lemma {:induction false} AsDipFilesConcat(a: seq<Listed>, b: seq<Listed>)
    ensures AsDipFiles(a + b) == AsDipFiles(a) + AsDipFiles(b)
    decreases |a|
  {
    if a == [] {
      assert a + b == b;
    } else {
      assert (a + b)[1..] == a[1..] + b;
      AsDipFilesConcat(a[1..], b);
    }
  }

  lemma PathBelow(at: seq<string>, name: string)
    requires Names(at) && Name(name)
    ensures Join([Slashed(at), name]) == Slashed(at + [name])
  {
    if at == [] {
      JoinToNothing(name);
      assert at + [name] == [name];
    } else {
      JoinPath(false, at, [name]);
      assert [Path(false, at)] + [name] == [Slashed(at), name];
    }
  }

  /** The accumulator only collects. */
  lemma {:induction false} AppendFoldersAppends(files: seq<DipFile>, folders: seq<ExportFolder>, parent: string)
    ensures AppendFolders(files, folders, parent) == files + AppendFolders([], folders, parent)
    decreases folders
  {
    hide AppendExportFiles;
    if folders != [] {
      var first := AppendExportFiles([], folders[0], parent);
      AppendExportFilesAppends(files, folders[0], parent);
      AppendFoldersAppends(files + first, folders[1..], parent);
      AppendFoldersAppends(first, folders[1..], parent);
      assert files + first + AppendFolders([], folders[1..], parent) == files + (first + AppendFolders([], folders[1..], parent));
    }
  }

  lemma {:induction false} AppendExportFilesAppends(files: seq<DipFile>, folder: ExportFolder, parent: string)
    ensures AppendExportFiles(files, folder, parent) == files + AppendExportFiles([], folder, parent)
    decreases folder
  {
    hide AppendFolders, Join, FilesAt;
    var folderPath := Join([parent, folder.name]);
    var own := FilesAt(folder.files, folderPath);
    AppendFoldersAppends(files + own, folder.folders, folderPath);
    AppendFoldersAppends([] + own, folder.folders, folderPath);
    assert files + own + AppendFolders([], folder.folders, folderPath) == files + ([] + own + AppendFolders([], folder.folders, folderPath));
  }

  /** What the recursive reader collects for nodes in a folder: first from its folders, then its own files. */
  function Gathered(ns: seq<Node>, at: seq<string>): seq<DipFile> {
    AppendFolders([], DecodedFolders(ns), Slashed(at)) + FilesAt(DecodedFiles(ns), Slashed(at))
  }

  /** The same for a folder itself. */
  function GatheredOf(n: Node, at: seq<string>): seq<DipFile>
    requires n.Elem?
  {
    AppendExportFiles([], ExportFolder(NameOf(n), DecodedFolders(n.kids), DecodedFiles(n.kids)), Slashed(at))
  }

  /** One more folder. */
  lemma GatherFolder(n: Node, rest: seq<Node>, at: seq<string>)
    requires n.Elem? && n.local == "ordner"
    ensures multiset(Gathered([n] + rest, at)) == multiset(GatheredOf(n, at)) + multiset(Gathered(rest, at))
  {
    var ns := [n] + rest;
    assert ns[1..] == rest;
    var folder := ExportFolder(NameOf(n), DecodedFolders(n.kids), DecodedFiles(n.kids));
    var folders := DecodedFolders(rest);
    assert DecodedFolders(ns) == [folder] + folders && ([folder] + folders)[1..] == folders;
    AppendFoldersAppends(GatheredOf(n, at), folders, Slashed(at));
    assert Gathered(ns, at) == GatheredOf(n, at) + Gathered(rest, at);
  }

  /** One more file. */
  lemma GatherFile(n: Node, rest: seq<Node>, at: seq<string>)
    requires n.Elem? && n.local == "datei"
    ensures multiset(Gathered([n] + rest, at)) == multiset(FilesAt([DecodedFile(n)], Slashed(at))) + multiset(Gathered(rest, at))
  {
    var ns := [n] + rest;
    assert ns[1..] == rest;
    var files := DecodedFiles(rest);
    assert DecodedFiles(ns) == [DecodedFile(n)] + files && ([DecodedFile(n)] + files)[1..] == files;
    assert [DecodedFile(n)][1..] == [];
    var one := FilesAt([DecodedFile(n)], Slashed(at));
    assert FilesAt([], Slashed(at)) == [] && |one| == 1;
    assert FilesAt([DecodedFile(n)] + files, Slashed(at)) == [one[0]] + FilesAt(files, Slashed(at));
    assert FilesAt(DecodedFiles(ns), Slashed(at)) == one + FilesAt(files, Slashed(at));
  }

  /**
    The files directly in a folder and the files below its folders are together the files of the listing,
    each as often.
  */
  lemma {:induction false} FolderIsRearranged(ns: seq<Node>, named: bool, at: seq<string>)
    requires FolderContent(ns, named) && Names(at) && SingleIds(ns)
    ensures multiset(Gathered(ns, at)) == multiset(AsDipFiles(Listing(ns, at)))
    decreases ns
  {
    if ns == [] {
      return;
    }
    var n, rest := ns[0], ns[1..];
    assert ns == [n] + rest;
    AsDipFilesConcat(ListingOf(n, at), Listing(rest, at));
    FolderIsRearranged(rest, named || IsRelevant(n), at);
    if n.Elem? && n.local == "ordner" {
      EntryIsRearranged(n, at);
      GatherFolder(n, rest, at);
    } else if n.Elem? && n.local == "datei" {
      FileIsListed(n, at);
      GatherFile(n, rest, at);
    } else {
      assert ListingOf(n, at) == [];
    }
  }

  lemma {:induction false} EntryIsRearranged(n: Node, at: seq<string>)
    requires n.Elem? && n.local == "ordner" && Entry(n) && Names(at) && SingleId(n)
    ensures multiset(GatheredOf(n, at)) == multiset(AsDipFiles(ListingOf(n, at)))
    decreases n
  {
    var name := NameOf(n);
    FolderHasAName(n.kids);
    PathBelow(at, name);
    FolderIsRearranged(n.kids, false, at + [name]);
    var folderPath := Slashed(at + [name]);
    var own := FilesAt(DecodedFiles(n.kids), folderPath);
    AppendFoldersAppends([] + own, DecodedFolders(n.kids), folderPath);
    assert [] + own == own;
  }

  lemma FileIsListed(n: Node, at: seq<string>)
    requires n.Elem? && n.local == "datei" && Entry(n) && Names(at) && SingleId(n)
    ensures FilesAt([DecodedFile(n)], Slashed(at)) == AsDipFiles(ListingOf(n, at))
  {
    OnlyAttr(n.attrs, "id", "");
    ReadFileContent(n.kids, {}, Opened(FRESH, "datei", n.attrs), File(FirstAttr(n.attrs, "id"), "", ""));
    PathBelow(at, NameOf(n));
    assert [DecodedFile(n)][1..] == [] && ListingOf(n, at)[1..] == [];
  }

  // The top folders "content" and "header"

  /** A file below the top folder `top`. */
  predicate Within(names: seq<string>, top: string) {
    |names| > 1 && names[0] == top
  }

  /** The files of a listing that are below the top folder `top`. */
  function Only(ls: seq<Listed>, top: string): seq<Listed> {
    if ls == [] then []
    else (if Within(ls[0].names, top) then [ls[0]] else []) + Only(ls[1..], top)
  }

  lemma {:induction false} OnlyConcat(a: seq<Listed>, b: seq<Listed>, top: string)
    ensures Only(a + b, top) == Only(a, top) + Only(b, top)
    decreases |a|
  {
    if a == [] {
      assert a + b == b;
    } else {
      assert (a + b)[0] == a[0] && (a + b)[1..] == a[1..] + b;
      OnlyConcat(a[1..], b, top);
      var first := if Within(a[0].names, top) then [a[0]] else [];
      assert first + (Only(a[1..], top) + Only(b, top)) == (first + Only(a[1..], top)) + Only(b, top);
    }
  }

  /** Listed files stand below their folder, under proper names. */
  predicate Below(ls: seq<Listed>, at: seq<string>) {
    forall l :: l in ls ==> at < l.names && Names(l.names)
  }

  lemma {:induction false} ListingIsBelow(ns: seq<Node>, named: bool, at: seq<string>)
    requires FolderContent(ns, named) && Names(at)
    ensures Below(Listing(ns, at), at)
    decreases ns
  {
    if ns != [] {
      ListingIsBelow(ns[1..], named || IsRelevant(ns[0]), at);
      if IsRelevant(ns[0]) && ns[0].local in ["ordner", "datei"] {
        ListingOfIsBelow(ns[0], at);
      } else {
        assert ListingOf(ns[0], at) == [];
      }
    }
  }

  lemma {:induction false} ListingOfIsBelow(n: Node, at: seq<string>)
    requires n.Elem? && Entry(n) && Names(at)
    ensures Name(NameOf(n)) && Below(ListingOf(n, at), at)
    ensures forall l :: l in ListingOf(n, at) ==> at + [NameOf(n)] <= l.names
    ensures n.local == "ordner" ==> forall l :: l in ListingOf(n, at) ==> at + [NameOf(n)] < l.names
    decreases n
  {
    if n.local == "ordner" {
      FolderHasAName(n.kids);
      ListingIsBelow(n.kids, false, at + [NameOf(n)]);
      forall l | l in ListingOf(n, at)
        ensures at < l.names
      {
        assert at + [NameOf(n)] < l.names;
        assert l.names[..|at|] == (at + [NameOf(n)])[..|at|] == at;
      }
    } else {
      ReadFileContent(n.kids, {}, Opened(FRESH, "datei", n.attrs), File(FirstAttr(n.attrs, "id"), "", ""));
    }
  }

  lemma {:induction false} OnlyAllOrNone(ls: seq<Listed>, top: string)
    ensures (forall l :: l in ls ==> Within(l.names, top)) ==> Only(ls, top) == ls
    ensures (forall l :: l in ls ==> !Within(l.names, top)) ==> Only(ls, top) == []
    decreases |ls|
  {
    if ls != [] {
      assert ls == [ls[0]] + ls[1..];
      OnlyAllOrNone(ls[1..], top);
    }
  }

  lemma {:induction false} CollectedAppends(folders: seq<ExportFolder>, top: string, files: seq<DipFile>)
    ensures Collected(folders, top, files) == files + Collected(folders, top, [])
    decreases |folders|
  {
    if folders != [] {
      var first := AppendExportFiles([], folders[0], "");
      AppendExportFilesAppends(files, folders[0], "");
      if folders[0].name == top {
        CollectedAppends(folders[1..], top, files + first);
        CollectedAppends(folders[1..], top, first);
      } else {
        CollectedAppends(folders[1..], top, files);
      }
    }
  }

  /** The list of a top folder is a rearrangement of the listed files below it. */
  lemma {:induction false} TopFolderIsRearranged(ns: seq<Node>, top: string)
    requires FolderContent(ns, true) && SingleIds(ns)
    ensures multiset(Collected(DecodedFolders(ns), top, [])) == multiset(AsDipFiles(Only(Listing(ns, []), top)))
    decreases |ns|
  {
    if ns == [] {
      return;
    }
    hide AppendExportFiles, AppendFolders, Entry, ListingOf, Only, Collected, AsDipFiles;
    var n, rest := ns[0], ns[1..];
    var mine, others := Only(ListingOf(n, []), top), Only(Listing(rest, []), top);
    OnlyConcat(ListingOf(n, []), Listing(rest, []), top);
    AsDipFilesConcat(mine, others);
    TopFolderIsRearranged(rest, top);
    if n.Elem? && n.local == "ordner" {
      TopEntry(n, top);
      CollectFolder(n, rest, top);
      assert ns == [n] + rest;
    } else {
      NothingBelowAFile(n, top);
    }
  }

  lemma NothingBelowAFile(n: Node, top: string)
    requires !(n.Elem? && n.local == "ordner")
    ensures AsDipFiles(Only(ListingOf(n, []), top)) == []
  {
    assert |ListingOf(n, [])| <= 1 && forall l :: l in ListingOf(n, []) ==> !Within(l.names, top);
    OnlyAllOrNone(ListingOf(n, []), top);
  }

  lemma CollectFolder(n: Node, rest: seq<Node>, top: string)
    requires n.Elem? && n.local == "ordner"
    ensures multiset(Collected(DecodedFolders([n] + rest), top, []))
            == multiset(if NameOf(n) == top then GatheredOf(n, []) else []) + multiset(Collected(DecodedFolders(rest), top, []))
  {
    hide AppendExportFiles;
    var folder := ExportFolder(NameOf(n), DecodedFolders(n.kids), DecodedFiles(n.kids));
    assert ([n] + rest)[1..] == rest;
    assert DecodedFolders([n] + rest) == [folder] + DecodedFolders(rest);
    assert ([folder] + DecodedFolders(rest))[1..] == DecodedFolders(rest);
    CollectedAppends(DecodedFolders(rest), top, GatheredOf(n, []));
  }

  lemma TopEntry(n: Node, top: string)
    requires n.Elem? && n.local == "ordner" && Entry(n) && SingleId(n)
    ensures multiset(if NameOf(n) == top then GatheredOf(n, []) else []) == multiset(AsDipFiles(Only(ListingOf(n, []), top)))
  {
    ListingOfIsBelow(n, []);
    EntryIsRearranged(n, []);
    assert forall l :: l in ListingOf(n, []) ==> [NameOf(n)] < l.names && l.names[0] == NameOf(n);
    OnlyAllOrNone(ListingOf(n, []), top);
  }

  /** The inventory of a package is where the decoder looks for folders. */
  lemma {:induction false} PackageFolders(doc: seq<Node>)
    requires Package(doc)
    ensures DecodedExport(doc) == Some(DecodedFolders(InventoryIn(Root(doc).kids)))
    ensures FolderContent(InventoryIn(Root(doc).kids), true)
    decreases |doc|
  {
    if doc[0].Elem? {
      InventoryFolders(doc[0].kids);
    } else {
      PackageFolders(doc[1..]);
    }
  }

  lemma {:induction false} InventoryFolders(ns: seq<Node>)
    requires PackageContent(ns)
    ensures TopFolders(ns) == DecodedFolders(InventoryIn(ns)) && FolderContent(InventoryIn(ns), true)
    decreases |ns|
  {
    if IsRelevant(ns[0]) {
      NoTopFolders(ns[1..]);
    } else {
      InventoryFolders(ns[1..]);
    }
  }

  lemma {:induction false} NoTopFolders(ns: seq<Node>)
    requires NoneRelevant(ns)
    ensures TopFolders(ns) == []
    decreases |ns|
  {
    if ns != [] {
      assert ns[0] in ns && NoneRelevant(ns[1..]);
      NoTopFolders(ns[1..]);
    }
  }

  // Distinct names

  /** No two entries of a folder have the same name. */
  predicate DistinctNames(ns: seq<Node>) {
    && (forall i, j :: 0 <= i < j < |ns| && IsEntry(ns[i]) && IsEntry(ns[j]) ==> NameOf(ns[i]) != NameOf(ns[j]))
    && (forall n :: n in ns && n.Elem? && n.local == "ordner" ==> DistinctNames(n.kids))
  }

  predicate IsEntry(n: Node) {
    n.Elem? && (n.local == "ordner" || n.local == "datei")
  }

  predicate DistinctPaths(ls: seq<Listed>) {
    forall i, j :: 0 <= i < j < |ls| ==> ls[i].names != ls[j].names
  }

  /** The entry of `ns` that a listed file comes from. */
  lemma {:induction false} ListedUnderAnEntry(ns: seq<Node>, named: bool, at: seq<string>, l: Listed) returns (k: nat)
    requires FolderContent(ns, named) && Names(at) && l in Listing(ns, at)
    ensures k < |ns| && IsEntry(ns[k]) && Entry(ns[k]) && at + [NameOf(ns[k])] <= l.names
    decreases |ns|
  {
    if l in ListingOf(ns[0], at) {
      k := 0;
      ListingOfIsBelow(ns[0], at);
    } else {
      k := ListedUnderAnEntry(ns[1..], named || IsRelevant(ns[0]), at, l);
      k := k + 1;
    }
  }

  lemma {:induction false} DistinctNamesGiveDistinctPaths(ns: seq<Node>, named: bool, at: seq<string>)
    requires FolderContent(ns, named) && Names(at) && DistinctNames(ns)
    ensures DistinctPaths(Listing(ns, at))
    decreases ns
  {
    if ns == [] {
      return;
    }
    var n, rest := ns[0], ns[1..];
    var a, b := ListingOf(n, at), Listing(rest, at);
    assert n in ns && forall m :: m in rest ==> m in ns;
    DistinctNamesGiveDistinctPaths(rest, named || IsRelevant(n), at);
    if IsEntry(n) {
      ListingOfIsBelow(n, at);
      if n.local == "ordner" {
        DistinctNamesGiveDistinctPaths(n.kids, false, at + [NameOf(n)]);
      }
      forall x, y | x in a && y in b
        ensures x.names != y.names
      {
        var k := ListedUnderAnEntry(rest, named || IsRelevant(n), at, y);
        assert rest[k] == ns[k + 1];
        assert x.names[|at|] == (at + [NameOf(n)])[|at|] && y.names[|at|] == (at + [NameOf(rest[k])])[|at|];
      }
    } else {
      assert a == [];
    }
    var ls := a + b;
    forall i, j | 0 <= i < j < |ls|
      ensures ls[i].names != ls[j].names
    {
      if i < |a| <= j {
        assert ls[i] in a && ls[j] in b;
      }
    }
  }

  // The map and the lists

  /** With distinct paths, the map holds every listed file, and nothing else. */
  lemma {:induction false} EnteredHolds(files: map<string, Option<File>>, ls: seq<Listed>, at: seq<string>)
    requires DistinctPaths(ls) && Below(ls, at)
    ensures forall l :: l in ls ==> Slashed(l.names) in Entered(files, ls) && Entered(files, ls)[Slashed(l.names)] == Some(l.file)
    ensures forall p :: p in Entered(files, ls) && p !in files ==> exists l :: l in ls && p == Slashed(l.names)
    ensures forall p :: p in files && (forall l :: l in ls ==> p != Slashed(l.names)) ==>
              p in Entered(files, ls) && Entered(files, ls)[p] == files[p]
    decreases |ls|
  {
    if ls != [] {
      var first := Slashed(ls[0].names);
      EnteredHolds(files[first := Some(ls[0].file)], ls[1..], at);
      forall l | l in ls[1..]
        ensures Slashed(l.names) != first
      {
        assert Path(false, l.names) == Slashed(l.names) && Path(false, ls[0].names) == first;
        PathIsInjective(false, l.names, ls[0].names);
      }
    }
  }

  /** A path below the top folder `top`. */
  predicate IsBelow(path: string, top: string) {
    top + "/" <= path
  }

  lemma UnderIsWithin(names: seq<string>, top: string)
    requires names != [] && Names(names) && '/' !in top
    ensures IsBelow(Slashed(names), top) <==> Within(names, top)
  {
    var path := Slashed(names);
    SplitSlashed(names);
    if IsBelow(path, top) {
      var rest := path[|top| + 1..];
      assert path == top + "/" + rest;
      SplitAtSlash(top, rest);
    }
  }

  lemma {:induction false} CountInDistinct(fs: seq<DipFile>, f: DipFile)
    requires forall i, j :: 0 <= i < j < |fs| ==> fs[i] != fs[j]
    ensures multiset(fs)[f] <= 1
    decreases |fs|
  {
    if fs != [] {
      assert fs == [fs[0]] + fs[1..];
      CountInDistinct(fs[1..], f);
    }
  }

  lemma {:induction false} AsDipFilesAt(ls: seq<Listed>)
    ensures |AsDipFiles(ls)| == |ls| && forall i :: 0 <= i < |ls| ==> AsDipFiles(ls)[i] == AsDipFile(ls[i])
    decreases |ls|
  {
    if ls != [] {
      AsDipFilesAt(ls[1..]);
    }
  }

  lemma {:induction false} OnlyMembers(ls: seq<Listed>, top: string)
    ensures forall l :: l in Only(ls, top) <==> l in ls && Within(l.names, top)
    ensures DistinctPaths(ls) ==> DistinctPaths(Only(ls, top))
    decreases |ls|
  {
    if ls != [] {
      OnlyMembers(ls[1..], top);
      var rest := Only(ls[1..], top);
      if Within(ls[0].names, top) && DistinctPaths(ls) {
        forall j | 0 <= j < |rest|
          ensures rest[j].names != ls[0].names
        {
          assert rest[j] in ls[1..];
        }
      }
    }
  }

  /** A rearrangement has the same members, and each file once if the original has. */
  lemma Rearrangement(fs: seq<DipFile>, ls: seq<Listed>)
    requires multiset(fs) == multiset(AsDipFiles(ls)) && DistinctPaths(ls) && forall l :: l in ls ==> l.names != [] && Names(l.names)
    ensures forall f :: f in fs <==> exists l :: l in ls && f == AsDipFile(l)
    ensures forall i, j :: 0 <= i < j < |fs| ==> fs[i].dipPath != fs[j].dipPath
  {
    AsDipFilesAt(ls);
    SameMembers(fs, AsDipFiles(ls));
    DistinctDipPaths(ls);
    NoRepeats(fs, AsDipFiles(ls));
  }

  lemma SameMembers(fs: seq<DipFile>, ds: seq<DipFile>)
    requires multiset(fs) == multiset(ds)
    ensures forall f :: f in fs <==> f in ds
  {
    forall f
      ensures f in fs <==> f in ds
    {
      assert f in fs <==> f in multiset(fs);
      assert f in ds <==> f in multiset(ds);
    }
  }

  lemma DistinctDipPaths(ls: seq<Listed>)
    requires DistinctPaths(ls) && forall l :: l in ls ==> l.names != [] && Names(l.names)
    ensures forall l :: l in ls ==> AsDipFile(l) in AsDipFiles(ls)
    ensures forall d :: d in AsDipFiles(ls) ==> exists l :: l in ls && d == AsDipFile(l)
    ensures var ds := AsDipFiles(ls); forall i, j :: 0 <= i < j < |ds| ==> ds[i].dipPath != ds[j].dipPath
  {
    var ds := AsDipFiles(ls);
    AsDipFilesAt(ls);
    forall l | l in ls
      ensures AsDipFile(l) in ds
    {
      var i :| 0 <= i < |ls| && ls[i] == l;
      assert ds[i] == AsDipFile(l);
    }
    forall i, j | 0 <= i < j < |ds|
      ensures ds[i].dipPath != ds[j].dipPath
    {
      assert ls[i] in ls && ls[j] in ls;
      assert Path(false, ls[i].names) == Slashed(ls[i].names) && Path(false, ls[j].names) == Slashed(ls[j].names);
      PathIsInjective(false, ls[i].names, ls[j].names);
    }
  }

  lemma NoRepeats(fs: seq<DipFile>, ds: seq<DipFile>)
    requires multiset(fs) == multiset(ds) && forall i, j :: 0 <= i < j < |ds| ==> ds[i].dipPath != ds[j].dipPath
    ensures forall i, j :: 0 <= i < j < |fs| ==> fs[i].dipPath != fs[j].dipPath
  {
    SameMembers(fs, ds);
    forall i, j | 0 <= i < j < |fs|
      ensures fs[i].dipPath != fs[j].dipPath
    {
      CountInDistinct(ds, fs[i]);
      Twice(fs, i, j);
      assert fs[i] in ds && fs[j] in ds;
    }
  }

  lemma Twice(fs: seq<DipFile>, i: nat, j: nat)
    requires i < j < |fs|
    ensures fs[i] == fs[j] ==> multiset(fs)[fs[i]] >= 2
  {
    assert fs == fs[..i] + [fs[i]] + fs[i + 1..j] + [fs[j]] + fs[j + 1..];
  }

  /**
    The two readers agree. For a package in which no folder has two entries of the same name, the list that
    the recursive reader returns for "content" or "header" has one entry for each file that the streaming
    reader enters below that folder, with the same path, identifier and checksum, and no other entries.
  */
  lemma ReadersAgree(doc: seq<Node>, top: string)
    requires Package(doc) && SingleIds(InventoryIn(Root(doc).kids)) && DistinctNames(InventoryIn(Root(doc).kids))
    requires '/' !in top
    ensures ReadTokens(Flat(doc), true, [], FRESH).Ok? && DecodedExport(doc).Some?
    ensures var files := ReadTokens(Flat(doc), true, [], FRESH).value.files;
            var list := Collected(DecodedExport(doc).value, top, []);
            && (forall f :: f in list ==>
                  IsBelow(f.dipPath, top) && f.dipPath in files
                  && files[f.dipPath] == Some(File(f.dateiId, f.checksumAlgorithm, f.checksum)))
            && (forall p :: p in files && IsBelow(p, top) ==> exists f :: f in list && f.dipPath == p)
            && (forall i, j :: 0 <= i < j < |list| ==> list[i].dipPath != list[j].dipPath)
  {
    var ns := InventoryIn(Root(doc).kids);
    var ls := Listing(ns, []);
    ParsingReadsTheDocument(doc);
    ReadPackage(doc);
    PackageFolders(doc);
    ListingIsBelow(ns, true, []);
    DistinctNamesGiveDistinctPaths(ns, true, []);
    EnteredHolds(map[], ls, []);
    TopFolderIsRearranged(ns, top);
    OnlyMembers(ls, top);
    var list := Collected(DecodedExport(doc).value, top, []);
    Rearrangement(list, Only(ls, top));
    MapAndList(ls, top, list);
  }

  /** The members of the list and the entries of the map below `top` are the same listed files. */
  lemma MapAndList(ls: seq<Listed>, top: string, list: seq<DipFile>)
    requires Below(ls, []) && '/' !in top
    requires forall f :: f in list <==> exists l :: l in ls && Within(l.names, top) && f == AsDipFile(l)
    requires forall l :: l in ls ==> Slashed(l.names) in Entered(map[], ls) && Entered(map[], ls)[Slashed(l.names)] == Some(l.file)
    requires forall p :: p in Entered(map[], ls) ==> exists l :: l in ls && p == Slashed(l.names)
    ensures var files := Entered(map[], ls);
            && (forall f :: f in list ==>
                  IsBelow(f.dipPath, top) && f.dipPath in files
                  && files[f.dipPath] == Some(File(f.dateiId, f.checksumAlgorithm, f.checksum)))
            && (forall p :: p in files && IsBelow(p, top) ==> exists f :: f in list && f.dipPath == p)
  {
    var files := Entered(map[], ls);
    forall f | f in list
      ensures IsBelow(f.dipPath, top) && f.dipPath in files
      ensures files[f.dipPath] == Some(File(f.dateiId, f.checksumAlgorithm, f.checksum))
    {
      var l :| l in ls && Within(l.names, top) && f == AsDipFile(l);
      UnderIsWithin(l.names, top);
    }
    forall p | p in files && IsBelow(p, top)
      ensures exists f :: f in list && f.dipPath == p
    {
      var l :| l in ls && p == Slashed(l.names);
      UnderIsWithin(l.names, top);
      assert AsDipFile(l) in list;
    }
  }
}
