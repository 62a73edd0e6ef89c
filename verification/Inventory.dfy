/**
  The `inhaltsverzeichnis` of an Arelda package: folders (`ordner`) and files (`datei`), each with a name.
  Shows what the streaming reader of module Manifest makes of a package in the expected form, and that it
  undoes a printer.
*/
module Inventory {
  import opened Wrappers
  import opened Xml
  import opened Manifest
  import opened Paths

  predicate IsRelevant(n: Node) {
    n.Elem? && Relevant(n.local)
  }

  predicate NoneRelevant(ns: seq<Node>) {
    forall n :: n in ns ==> !IsRelevant(n)
  }

  function NameOf(n: Node): string
    requires n.Elem?
  {
    TextOf(n.kids, "name", "")
  }

  // The expected form

  /** A name element: one chunk of text, which is a proper name. */
  predicate NameElement(n: Node) {
    n.Elem? && n.local == "name" && NoneRelevant(n.kids) && |Chunks(n.kids)| == 1 && Name(Chunks(n.kids)[0])
  }

  predicate ChecksumElement(n: Node) {
    n.Elem? && n.local in ["pruefalgorithmus", "pruefsumme"] && NoneRelevant(n.kids) && |Chunks(n.kids)| <= 1
  }

  /** The content of a file: one name, at most one algorithm and one checksum, in any order, and noise. */
  predicate FileContent(ns: seq<Node>, seen: set<string>) {
    if ns == [] then "name" in seen
    else if IsRelevant(ns[0]) then
      && (NameElement(ns[0]) || ChecksumElement(ns[0]))
      && ns[0].local !in seen
      && FileContent(ns[1..], seen + {ns[0].local})
    else FileContent(ns[1..], seen)
  }

  /** The content of a folder: its name, unless `named` already, then files and folders, and noise. */
  predicate FolderContent(ns: seq<Node>, named: bool) {
    if ns == [] then named
    else if !IsRelevant(ns[0]) then FolderContent(ns[1..], named)
    else if !named then NameElement(ns[0]) && FolderContent(ns[1..], true)
    else Entry(ns[0]) && FolderContent(ns[1..], true)
  }

  predicate Entry(n: Node) {
    match n
    case Elem(_, local, attrs, kids) =>
      (local == "ordner" && FolderContent(kids, false)) || (local == "datei" && FileContent(kids, {}))
    case _ => false
  }

  /** The content of the package element: one inventory, and noise. */
  predicate PackageContent(ns: seq<Node>) {
    ns != [] &&
    if IsRelevant(ns[0]) then
      ns[0].local == "inhaltsverzeichnis" && FolderContent(ns[0].kids, true) && NoneRelevant(ns[1..])
    else PackageContent(ns[1..])
  }

  /** A document with a package element as its only element. */
  predicate Package(doc: seq<Node>) {
    doc != [] &&
    if doc[0].Elem? then
      doc[0].local == "paket" && PackageContent(doc[0].kids) && forall n :: n in doc[1..] ==> !n.Elem?
    else Package(doc[1..])
  }

  function Root(doc: seq<Node>): (n: Node)
    requires Package(doc)
    ensures n.Elem? && n.local == "paket" && PackageContent(n.kids)
  {
    if doc[0].Elem? then doc[0] else Root(doc[1..])
  }

  /** The nodes inside the inventory. */
  function InventoryIn(ns: seq<Node>): seq<Node>
    requires PackageContent(ns)
  {
    if IsRelevant(ns[0]) then ns[0].kids else InventoryIn(ns[1..])
  }

  // The files of an inventory

  /** A file and the names that lead to it from the top. */
  datatype Listed = Listed(names: seq<string>, file: File)

  function FileOf(n: Node): File
    requires n.Elem?
  {
    File(FirstAttr(n.attrs, "id"), TextOf(n.kids, "pruefalgorithmus", ""), TextOf(n.kids, "pruefsumme", ""))
  }

  /** The files below a folder, in document order; `at` are the names of the folder. */
  function Listing(ns: seq<Node>, at: seq<string>): seq<Listed> {
    if ns == [] then [] else ListingOf(ns[0], at) + Listing(ns[1..], at)
  }

  function ListingOf(n: Node, at: seq<string>): seq<Listed> {
    match n
    case Elem(_, local, _, kids) =>
      if local == "ordner" then Listing(kids, at + [TextOf(kids, "name", "")])
      else if local == "datei" then [Listed(at + [TextOf(kids, "name", "")], FileOf(n))]
      else []
    case _ => []
  }

  /** Enters files under their paths; a later file replaces an earlier one with the same path. */
  function Entered(files: map<string, Option<File>>, ls: seq<Listed>): map<string, Option<File>>
    decreases |ls|
  {
    if ls == [] then files
    else Entered(files[Slashed(ls[0].names) := Some(ls[0].file)], ls[1..])
  }

  lemma {:induction false} EnteredConcat(files: map<string, Option<File>>, a: seq<Listed>, b: seq<Listed>)
    ensures Entered(files, a + b) == Entered(Entered(files, a), b)
    decreases |a|
  {
    if a == [] {
      assert a + b == b;
    } else {
      assert (a + b)[1..] == a[1..] + b;
      EnteredConcat(files[Slashed(a[0].names) := Some(a[0].file)], a[1..], b);
    }
  }

  // What the reader makes of it

  /** The reader's path stands at a folder; at the top it is empty, or "." after a first entry. */
  predicate At(path: string, at: seq<string>) {
    Names(at) && if at == [] then path == "" || path == "." else path == Slashed(at)
  }

  lemma PathOfEntry(path: string, at: seq<string>, name: string)
    requires At(path, at) && Name(name)
    ensures Join([path, name]) == Slashed(at + [name]) && At(Join([path, name]), at + [name])
    ensures At(Dir(Slashed(at + [name])), at)
  {
    DirPath(false, at, name);
    if at == [] {
      JoinToNothing(name);
      assert [] + [name] == [name];
    } else {
      JoinPath(false, at, [name]);
      assert [Path(false, at)] + [name] == [path, name];
    }
  }

  /** Elements without relevant content only contribute their chunks. */
  lemma {:induction false} ReadText(ns: seq<Node>, top: string, r: Reader)
    requires NoneRelevant(ns) && |Chunks(ns)| <= 1
    requires top in ["name", "pruefalgorithmus", "pruefsumme"] && (top != "name" ==> r.file.Some?)
    ensures ReadNodes(ns, Some(top), r) == Going(if Chunks(ns) == [] then r else Noted(r, top, Chunks(ns)[0]).value)
    decreases |ns|
  {
    if ns != [] {
      assert ns[0] in ns && NoneRelevant(ns[1..]);
      if ns[0].Chars? {
        ReadText(ns[1..], top, Noted(r, top, ns[0].chars).value);
      } else {
        ReadText(ns[1..], top, r);
      }
    }
  }

  lemma ChunkText(ns: seq<Node>)
    requires |Chunks(ns)| <= 1
    ensures Concat(Chunks(ns)) == if Chunks(ns) == [] then "" else Chunks(ns)[0]
  {
    if Chunks(ns) != [] {
      assert Chunks(ns)[1..] == [];
    }
  }

  /** Elements that have been seen do not occur again. */
  lemma {:induction false} TextIsFinal(ns: seq<Node>, seen: set<string>, local: string, text: string)
    requires FileContent(ns, seen) && local in seen && Relevant(local)
    ensures TextOf(ns, local, text) == text
    decreases |ns|
  {
    if ns != [] {
      TextIsFinal(ns[1..], if IsRelevant(ns[0]) then seen + {ns[0].local} else seen, local, text);
    }
  }

  /** The reader collects a file's name, algorithm and checksum, in whatever order they come. */
  lemma {:induction false} ReadFileContent(ns: seq<Node>, seen: set<string>, r: Reader, f: File)
    requires FileContent(ns, seen) && r.file == Some(f)
    requires "pruefalgorithmus" !in seen ==> f.algorithm == ""
    requires "pruefsumme" !in seen ==> f.hash == ""
    ensures ReadNodes(ns, Some("datei"), r)
            == Going(r.(path := if "name" in seen then r.path else Join([r.path, TextOf(ns, "name", "")]),
                        file := Some(File(f.id, TextOf(ns, "pruefalgorithmus", f.algorithm), TextOf(ns, "pruefsumme", f.hash)))))
    ensures "name" !in seen ==> Name(TextOf(ns, "name", ""))
    decreases |ns|
  {
    if ns == [] {
      return;
    }
    if !IsRelevant(ns[0]) {
      assert ReadNode(ns[0], Some("datei"), r) == Going(r);
      ReadFileContent(ns[1..], seen, r, f);
      return;
    }
    var n := ns[0];
    var seen' := seen + {n.local};
    ReadText(n.kids, n.local, r);
    ChunkText(n.kids);
    TextIsFinal(ns[1..], seen', n.local, Concat(Chunks(n.kids)));
    var r' := ReadNode(n, Some("datei"), r).reader;
    ReadFileContent(ns[1..], seen', r', r'.file.value);
  }

  /** The reader enters a file under its path and leaves everything else as it was. */
  lemma ReadFile(n: Node, top: string, at: seq<string>, r: Reader)
    requires n.Elem? && n.local == "datei" && Entry(n) && At(r.path, at)
    ensures var p := ReadNode(n, Some(top), r);
            && p.Going? && At(p.reader.path, at)
            && p.reader == Reader(p.reader.path, None, Entered(r.files, ListingOf(n, at)), r.version)
  {
    var f := File(FirstAttr(n.attrs, "id"), "", "");
    ReadFileContent(n.kids, {}, Opened(r, "datei", n.attrs), f);
    PathOfEntry(r.path, at, NameOf(n));
    assert ListingOf(n, at)[1..] == [];
  }

  /** After the name, no further name follows in a folder. */
  lemma {:induction false} FolderNameIsFinal(ns: seq<Node>, text: string)
    requires FolderContent(ns, true)
    ensures TextOf(ns, "name", text) == text
    decreases |ns|
  {
    if ns != [] {
      FolderNameIsFinal(ns[1..], text);
    }
  }

  /** The path at which the entries of a folder with content `ns` stand. */
  predicate Reaches(ns: seq<Node>, named: bool, path: string, at: seq<string>) {
    if named then At(path, at)
    else at != [] && at[|at| - 1] == TextOf(ns, "name", "") && At(path, at[..|at| - 1])
  }

  lemma ReadFolderName(ns: seq<Node>, top: string, at: seq<string>, r: Reader)
    requires ns != [] && NameElement(ns[0]) && FolderContent(ns[1..], true) && Reaches(ns, false, r.path, at)
    ensures var p := ReadNode(ns[0], Some(top), r);
            p.Going? && At(p.reader.path, at) && p.reader == r.(path := p.reader.path)
  {
    var n := ns[0];
    ReadText(n.kids, "name", r);
    ChunkText(n.kids);
    FolderNameIsFinal(ns[1..], Concat(Chunks(n.kids)));
    var parent := at[..|at| - 1];
    assert parent + [at[|at| - 1]] == at;
    PathOfEntry(r.path, parent, at[|at| - 1]);
  }

  /** The reader enters every file of a folder's content under its path. */
  lemma {:induction false} ReadFolderContent(ns: seq<Node>, named: bool, top: string, at: seq<string>, r: Reader)
    requires FolderContent(ns, named) && Reaches(ns, named, r.path, at) && r.file.None?
    requires top == "ordner" || top == "inhaltsverzeichnis"
    ensures var p := ReadNodes(ns, Some(top), r);
            && p.Going? && At(p.reader.path, at)
            && p.reader == Reader(p.reader.path, None, Entered(r.files, Listing(ns, at)), r.version)
    decreases ns
  {
    if ns == [] {
      return;
    }
    var n := ns[0];
    EnteredConcat(r.files, ListingOf(n, at), Listing(ns[1..], at));
    if !IsRelevant(n) {
      assert ReadNode(n, Some(top), r) == Going(r);
      assert ListingOf(n, at) == [];
      assert [] + Listing(ns[1..], at) == Listing(ns[1..], at);
      ReadFolderContent(ns[1..], named, top, at, r);
    } else if !named {
      assert n.local == "name" && ListingOf(n, at) == [];
      assert [] + Listing(ns[1..], at) == Listing(ns[1..], at);
      ReadFolderName(ns, top, at, r);
      ReadFolderContent(ns[1..], true, top, at, ReadNode(n, Some(top), r).reader);
    } else {
      ReadEntry(n, top, at, r);
      ReadFolderContent(ns[1..], true, top, at, ReadNode(n, Some(top), r).reader);
    }
  }

  lemma {:induction false} ReadEntry(n: Node, top: string, at: seq<string>, r: Reader)
    requires Entry(n) && At(r.path, at) && r.file.None?
    ensures var p := ReadNode(n, Some(top), r);
            && p.Going? && At(p.reader.path, at)
            && p.reader == Reader(p.reader.path, None, Entered(r.files, ListingOf(n, at)), r.version)
    decreases n
  {
    if n.local == "datei" {
      ReadFile(n, top, at, r);
    } else {
      var name := NameOf(n);
      FolderHasAName(n.kids);
      assert (at + [name])[..|at|] == at;
      ReadFolderContent(n.kids, false, "ordner", at + [name], r);
      PathOfEntry(r.path, at, name);
    }
  }

  lemma {:induction false} FolderHasAName(ns: seq<Node>)
    requires FolderContent(ns, false)
    ensures Name(TextOf(ns, "name", ""))
    decreases |ns|
  {
    if IsRelevant(ns[0]) {
      ChunkText(ns[0].kids);
      FolderNameIsFinal(ns[1..], Concat(Chunks(ns[0].kids)));
    } else {
      FolderHasAName(ns[1..]);
    }
  }

  lemma {:induction false} ReadPackageContent(ns: seq<Node>, r: Reader)
    requires PackageContent(ns) && r.path == "" && r.file.None?
    ensures ReadNodes(ns, Some("paket"), r)
            == Stopped(Manifest(r.version, Entered(r.files, Listing(InventoryIn(ns), []))))
    decreases |ns|
  {
    var n := ns[0];
    if IsRelevant(n) {
      ReadFolderContent(n.kids, true, "inhaltsverzeichnis", [], r);
    } else {
      assert ReadNode(n, Some("paket"), r) == Going(r);
      ReadPackageContent(ns[1..], r);
    }
  }

  /**
    The streaming reader returns exactly the listing of the package: every file under the path of the names
    that lead to it, with the identifier and checksum it declares.
  */
  lemma {:induction false} ReadPackage(doc: seq<Node>)
    requires Package(doc)
    ensures ReadDocument(doc)
            == Ok(Manifest(FirstAttr(Root(doc).attrs, "schemaVersion"), Entered(map[], Listing(InventoryIn(Root(doc).kids), []))))
    decreases |doc|
  {
    var n := doc[0];
    if n.Elem? {
      if !HasAttr(n.attrs, "schemaVersion") {
        NoAttr(n.attrs, "schemaVersion");
      }
      var r := Opened(FRESH, "paket", n.attrs);
      assert r == FRESH.(version := FirstAttr(n.attrs, "schemaVersion"));
      ReadPackageContent(n.kids, r);
      assert ReadNode(n, None, FRESH) == ReadNodes(n.kids, Some("paket"), r);
    } else {
      assert ReadNode(n, None, FRESH) == Going(FRESH);
      ReadPackage(doc[1..]);
    }
  }

  // Why the expected form asks for one chunk, and for the name first

  function NameIn(chunks: seq<Node>): Node {
    Elem("", "name", [], chunks)
  }

  function NamedFile(id: string, chunks: seq<Node>): Node {
    Elem("", "datei", [Attr("id", id)], [NameIn(chunks)])
  }

  lemma ReadTwo(n: Node, m: Node, top: Option<string>, r: Reader)
    requires ReadNode(n, top, r).Going?
    ensures ReadNodes([n], top, r) == ReadNode(n, top, r)
    ensures ReadNodes([n, m], top, r) == ReadNode(m, top, ReadNode(n, top, r).reader)
  {
    hide ReadNode;
    assert [n][1..] == [] && [n, m][1..] == [m] && [m][1..] == [];
    assert forall r' :: ReadNodes([], top, r') == Going(r');
    var r' := ReadNode(n, top, r).reader;
    assert ReadNodes([m], top, r') == ReadNode(m, top, r');
  }

  lemma ReadChunk(chars: string, r: Reader)
    ensures ReadNode(Chars(chars), Some("name"), r) == Going(r.(path := Join([r.path, chars])))
  {
    hide Join;
  }

  /** A name element only does what its chunks do; a file element opens, reads its content and is entered. */
  lemma ReadNameAndFile(kids: seq<Node>, top: string, r: Reader, id: string)
    ensures ReadNodes(kids, Some("name"), r).Going? ==> ReadNode(NameIn(kids), Some(top), r) == ReadNodes(kids, Some("name"), r)
    ensures var start := r.(file := Some(File(id, "", "")));
            ReadNode(NamedFile(id, kids), Some(top), r) == Left(ReadNodes([NameIn(kids)], Some("datei"), start), "datei")
  {
    hide ReadNodes, Dir;
  }

  /** A name that a comment splits is read as two names, and the first of them stays in the path after the file. */
  lemma SplitNameIsTwoNames(id: string, a: string, b: string, top: string, at: seq<string>, r: Reader)
    requires Name(a) && Name(b) && At(r.path, at)
    ensures var p := ReadNode(NamedFile(id, [Chars(a), Misc, Chars(b)]), Some(top), r);
            && p.Going? && At(p.reader.path, at + [a])
            && p.reader.files == r.files[Slashed(at + [a] + [b]) := Some(File(id, "", ""))]
  {
    var kids := [Chars(a), Misc, Chars(b)];
    var start := r.(file := Some(File(id, "", "")));
    PathOfEntry(r.path, at, a);
    PathOfEntry(Slashed(at + [a]), at + [a], b);
    hide Slashed, Join, Dir, Name, ReadNode, ReadNodes, NamedFile, NameIn;
    ReadSplitName(a, b, start);
    ReadNameAndFile(kids, "datei", start, id);
    ReadTwo(NameIn(kids), NameIn(kids), Some("datei"), start);
    ReadNameAndFile(kids, top, r, id);
  }

  lemma ReadSplitName(a: string, b: string, r: Reader)
    ensures ReadNodes([Chars(a), Misc, Chars(b)], Some("name"), r) == Going(r.(path := Join([Join([r.path, a]), b])))
  {
    var first := r.(path := Join([r.path, a]));
    var kids := [Chars(a), Misc, Chars(b)];
    ReadChunk(a, r);
    ReadChunk(b, first);
    assert kids[1..] == [Misc, Chars(b)];
    assert ReadNode(Misc, Some("name"), first) == Going(first);
    hide Join, ReadNode;
    ReadTwo(Misc, Chars(b), Some("name"), first);
  }

  /** A folder whose name comes after a file: the file is entered as if it stood outside the folder. */
  lemma LateNameComesTooLate(id: string, file: string, folder: string, top: string, at: seq<string>, r: Reader)
    requires Name(file) && Name(folder) && At(r.path, at) && r.file.None?
    ensures var n := Elem("", "ordner", [], [NamedFile(id, [Chars(file)]), NameIn([Chars(folder)])]);
            var p := ReadNode(n, Some(top), r);
            && p.Going? && At(p.reader.path, at)
            && p.reader.files == r.files[Slashed(at + [file]) := Some(File(id, "", ""))]
  {
    var f, name := NamedFile(id, [Chars(file)]), NameIn([Chars(folder)]);
    EntryOfOneFile(f, id, file);
    ReadFile(f, "ordner", at, r);
    ListedOnce(f, at, r.files);
    var p := ReadNode(f, Some("ordner"), r).reader;
    PathOfEntry(p.path, at, folder);
    ReadFolder([f, name], top, r);
    hide Slashed, Join, Dir, Name, ReadNode, ReadNodes, NamedFile, NameIn, ListingOf, Entered;
    ReadChunk(folder, p);
    ReadTwo(Chars(folder), Chars(folder), Some("name"), p);
    ReadNameAndFile([Chars(folder)], "ordner", p, id);
    ReadTwo(f, name, Some("ordner"), r);
  }

  lemma ReadFolder(kids: seq<Node>, top: string, r: Reader)
    ensures ReadNode(Elem("", "ordner", [], kids), Some(top), r) == Left(ReadNodes(kids, Some("ordner"), r), "ordner")
  {
    hide ReadNodes, Dir;
  }

  lemma ListedOnce(f: Node, at: seq<string>, files: map<string, Option<File>>)
    requires f.Elem? && f.local == "datei"
    ensures Entered(files, ListingOf(f, at)) == files[Slashed(at + [NameOf(f)]) := Some(FileOf(f))]
  {
    assert ListingOf(f, at)[1..] == [];
    hide Slashed;
  }

  lemma EntryOfOneFile(f: Node, id: string, file: string)
    requires Name(file) && f == NamedFile(id, [Chars(file)])
    ensures Entry(f) && NameOf(f) == file && FileOf(f) == File(id, "", "")
  {
    var kids := f.kids;
    assert kids[1..] == [] && [Chars(file)][1..] == [];
    assert Chunks([Chars(file)]) == [file];
    assert Concat([file]) == file by {
      assert [file][1..] == [];
    }
    assert FileContent([], {"name"});
    assert {} + {"name"} == {"name"};
    assert TextOf([], "name", file) == file;
    assert TextOf([], "pruefalgorithmus", "") == "" && TextOf([], "pruefsumme", "") == "";
    assert TextOf(kids, "pruefalgorithmus", "") == "" && TextOf(kids, "pruefsumme", "") == "";
    assert f.attrs == [Attr("id", id)] && FirstAttr(f.attrs, "id") == id;
  }

  /**
    Text around an irrelevant element, and the same text in one piece, as it stands without the element: read alike
    where text is ignored; for a checksum or an algorithm, of which the last piece counts, exactly when there is no
    first piece or no file; and for names never.
  */
  lemma TextAroundAnElement(a: string, n: Node, b: string, top: string, at: seq<string>, r: Reader)
    requires n.Elem? && !Relevant(n.local) && At(r.path, at)
    ensures var apart, merged := ReadNodes([Chars(a), n, Chars(b)], Some(top), r), ReadNodes([Chars(a + b)], Some(top), r);
            && (top !in ["name", "pruefalgorithmus", "pruefsumme"] ==> apart == merged)
            && (top in ["pruefalgorithmus", "pruefsumme"] ==> (apart == merged <==> r.file.None? || a == ""))
            && (top == "name" && Name(a) && Name(b) ==> apart != merged)
  {
    var kids := [Chars(a), n, Chars(b)];
    assert kids[1..] == [n, Chars(b)];
    assert b == a + b <==> a == "" by {
      assert |a + b| == |a| + |b|;
    }
    hide Join;
    if ReadNode(Chars(a + b), Some(top), r).Going? {
      ReadTwo(Chars(a + b), Chars(a + b), Some(top), r);
    }
    var p := ReadNode(Chars(a), Some(top), r);
    if p.Going? {
      assert ReadNode(n, Some(top), p.reader) == p;
      ReadTwo(n, Chars(b), Some(top), p.reader);
    }
    if top == "name" && Name(a) && Name(b) {
      NamesRunTogether(r.path, at, a, b);
    }
  }

  lemma NamesRunTogether(path: string, at: seq<string>, a: string, b: string)
    requires At(path, at) && Name(a) && Name(b)
    ensures Join([Join([path, a]), b]) != Join([path, a + b])
  {
    assert Name(a + b) by {
      assert (a + b)[..|a|] == a && |a| > 0 && |b| > 0 && ".."[..1] == ".";
    }
    PathOfEntry(path, at, a);
    PathOfEntry(Slashed(at + [a]), at + [a], b);
    PathOfEntry(path, at, a + b);
    NamesConcat(at, [a]);
    NamesConcat(at + [a], [b]);
    NamesConcat(at, [a + b]);
    hide Slashed, Join, Name;
    assert |at + [a] + [b]| != |at + [a + b]|;
    PathIsInjective(false, at + [a] + [b], at + [a + b]);
  }
}
