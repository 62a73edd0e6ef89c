/**
  The recursive reader undoes the printer of module InventoryPrinter: the files of the top folders, in the order in which
  the activity goes on with them.
*/
module PrintedExport {
  import opened Wrappers
  import opened Xml
  import opened Paths
  import opened Manifest
  import opened Inventory
  import opened InventoryPrinter
  import opened Export
  import ReadersAgree

  /** The files of a folder in their order, and then those of its folders. */
  function FilesFirst(items: seq<Item>, at: seq<string>): seq<DipFile>
    decreases items, 1
  {
    OwnFiles(items, at) + FilesBelow(items, at)
  }

  function OwnFiles(items: seq<Item>, at: seq<string>): seq<DipFile> {
    if items == [] then []
    else
      match items[0]
      case Document(name, f) => [DipFile(f.id, Slashed(at + [name]), f.hash, f.algorithm)] + OwnFiles(items[1..], at)
      case Folder(_, _) => OwnFiles(items[1..], at)
  }

  function FilesBelow(items: seq<Item>, at: seq<string>): seq<DipFile>
    decreases items, 0
  {
    if items == [] then []
    else
      match items[0]
      case Document(_, _) => FilesBelow(items[1..], at)
      case Folder(name, inner) => FilesFirst(inner, at + [name]) + FilesBelow(items[1..], at)
  }

  /** The top folders of that name. */
  function BelowTop(items: seq<Item>, top: string): seq<DipFile> {
    if items == [] then []
    else if items[0].Folder? && items[0].name == top then FilesFirst(items[0].items, [top]) + BelowTop(items[1..], top)
    else BelowTop(items[1..], top)
  }

  lemma DecodedNext(n: Node, rest: seq<Node>)
    requires n.Elem?
    ensures n.local == "datei" ==>
      DecodedFiles([n] + rest) == [DecodedFile(n)] + DecodedFiles(rest) && DecodedFolders([n] + rest) == DecodedFolders(rest)
    ensures n.local == "ordner" ==>
      && DecodedFiles([n] + rest) == DecodedFiles(rest)
      && DecodedFolders([n] + rest)
         == [ExportFolder(TextOf(n.kids, "name", ""), DecodedFolders(n.kids), DecodedFiles(n.kids))] + DecodedFolders(rest)
    ensures n.local != "ordner" && n.local != "datei" ==>
      DecodedFiles([n] + rest) == DecodedFiles(rest) && DecodedFolders([n] + rest) == DecodedFolders(rest)
  {
    assert ([n] + rest)[0] == n && ([n] + rest)[1..] == rest;
    hide TextOf, DecodedFile;
  }

  lemma DecodedNamed(name: string, rest: seq<Node>)
    ensures DecodedFiles(Named(name, rest)) == DecodedFiles(rest) && DecodedFolders(Named(name, rest)) == DecodedFolders(rest)
  {
    var b := [TextElement("originalName", name)] + rest;
    var a := [TextElement("name", name)] + b;
    DecodedNext(TextElement("originalName", name), rest);
    DecodedNext(TextElement("name", name), b);
    assert ([Chars("\n")] + a)[0] == Chars("\n") && ([Chars("\n")] + a)[1..] == a;
  }

  lemma DecodedDocument(name: string, f: File)
    requires Name(name)
    ensures DecodedFile(Printed(Document(name, f))) == ExportFile(f.id, name, f.hash, f.algorithm)
  {
    var n := Printed(Document(name, f));
    PrintedDocument(name, f);
    assert n.attrs == [Attr("id", f.id)];
    ReadersAgree.OnlyAttr(n.attrs, "id", "");
    assert n.attrs[0] in n.attrs;
    hide TextOf, Printed;
  }

  lemma FilesAtNext(f: ExportFile, rest: seq<ExportFile>, folderPath: string)
    ensures FilesAt([f] + rest, folderPath)
            == [DipFile(f.id, Join([folderPath, f.name]), f.checksum, f.checksumAlgorithm)] + FilesAt(rest, folderPath)
  {
    assert ([f] + rest)[1..] == rest;
  }

  /** A folder's own files. */
  lemma {:induction false} PrintedFiles(items: seq<Item>, at: seq<string>)
    requires ProperNames(items) && Names(at)
    ensures FilesAt(DecodedFiles(PrintedAll(items)), Slashed(at)) == OwnFiles(items, at)
    decreases |items|
  {
    hide Join, Slashed, DecodedFile, FilesAt, Names, Name, DecodedFiles, DecodedFolders;
    if items == [] {
      NothingDecoded(at);
    } else {
      var n, rest := Printed(items[0]), PrintedAll(items[1..]);
      assert PrintedAll(items) == [n] + rest;
      DecodedNext(n, rest);
      PrintedFiles(items[1..], at);
      match items[0] {
        case Document(name, f) =>
          DecodedDocument(name, f);
          FilesAtNext(DecodedFile(n), DecodedFiles(rest), Slashed(at));
          ReadersAgree.PathBelow(at, name);
        case Folder(_, _) =>
      }
    }
  }

  lemma NothingDecoded(at: seq<string>)
    ensures FilesAt(DecodedFiles([]), Slashed(at)) == [] && DecodedFolders([]) == []
    ensures forall parent :: AppendFolders([], [], parent) == []
  {
  }

  lemma FolderOfPrinted(name: string, items: seq<Item>)
    requires Name(name) && ProperNames(items)
    ensures var n := Printed(Folder(name, items));
            && n.Elem? && n.local == "ordner" && TextOf(n.kids, "name", "") == name
            && DecodedFiles(n.kids) == DecodedFiles(PrintedAll(items)) && DecodedFolders(n.kids) == DecodedFolders(PrintedAll(items))
  {
    PrintedItems(items, []);
    PrintedFolder(name, PrintedAll(items), []);
    DecodedNamed(name, PrintedAll(items));
    hide TextOf, DecodedFiles, DecodedFolders;
  }

  lemma AppendNext(folder: ExportFolder, rest: seq<ExportFolder>, parent: string)
    ensures AppendFolders([], [folder] + rest, parent) == AppendExportFiles([], folder, parent) + AppendFolders([], rest, parent)
  {
    assert ([folder] + rest)[0] == folder && ([folder] + rest)[1..] == rest;
    hide AppendExportFiles;
    ReadersAgree.AppendFoldersAppends(AppendExportFiles([], folder, parent), rest, parent);
  }

  /** The folders below a folder. */
  lemma {:induction false} PrintedFolders(items: seq<Item>, at: seq<string>)
    requires ProperNames(items) && Names(at)
    ensures AppendFolders([], DecodedFolders(PrintedAll(items)), Slashed(at)) == FilesBelow(items, at)
    decreases items, 0
  {
    hide Join, Slashed, DecodedFiles, DecodedFolders, AppendFolders, AppendExportFiles, FilesFirst;
    if items == [] {
      NothingDecoded(at);
    } else {
      var n, rest := Printed(items[0]), PrintedAll(items[1..]);
      assert PrintedAll(items) == [n] + rest;
      DecodedNext(n, rest);
      PrintedFolders(items[1..], at);
      match items[0] {
        case Document(_, _) =>
        case Folder(name, inner) =>
          FolderOfPrinted(name, inner);
          PrintedWhole(name, inner, at);
          AppendNext(ExportFolder(name, DecodedFolders(n.kids), DecodedFiles(n.kids)), DecodedFolders(rest), Slashed(at));
      }
    }
  }

  /** A folder with everything in it. */
  lemma {:induction false} PrintedWhole(name: string, items: seq<Item>, at: seq<string>)
    requires Name(name) && ProperNames(items) && Names(at)
    ensures var ns := PrintedAll(items);
            AppendExportFiles([], ExportFolder(name, DecodedFolders(ns), DecodedFiles(ns)), Slashed(at)) == FilesFirst(items, at + [name])
    decreases items, 1
  {
    var ns, inner := PrintedAll(items), at + [name];
    NamesConcat(at, [name]);
    hide Join, Slashed, DecodedFiles, DecodedFolders, AppendFolders;
    PrintedFiles(items, inner);
    PrintedFolders(items, inner);
    ReadersAgree.PathBelow(at, name);
    var own := FilesAt(DecodedFiles(ns), Slashed(inner));
    assert [] + own == own;
    ReadersAgree.AppendFoldersAppends(own, DecodedFolders(ns), Slashed(inner));
  }

  lemma CollectedNext(folder: ExportFolder, rest: seq<ExportFolder>, top: string)
    ensures Collected([folder] + rest, top, [])
            == (if folder.name == top then AppendExportFiles([], folder, "") else []) + Collected(rest, top, [])
  {
    assert ([folder] + rest)[0] == folder && ([folder] + rest)[1..] == rest;
    hide AppendExportFiles;
    var first := if folder.name == top then AppendExportFiles([], folder, "") else [];
    CollectedAppends(first, rest, top);
  }

  lemma {:induction false} CollectedAppends(files: seq<DipFile>, folders: seq<ExportFolder>, top: string)
    ensures Collected(folders, top, files) == files + Collected(folders, top, [])
    decreases |folders|
  {
    hide AppendExportFiles;
    if folders != [] && folders[0].name == top {
      var own := AppendExportFiles([], folders[0], "");
      ReadersAgree.AppendExportFilesAppends(files, folders[0], "");
      CollectedAppends(files + own, folders[1..], top);
      CollectedAppends(own, folders[1..], top);
      assert files + own + Collected(folders[1..], top, []) == files + (own + Collected(folders[1..], top, []));
    } else if folders != [] {
      CollectedAppends(files, folders[1..], top);
    }
  }

  lemma {:induction false} PrintedTops(items: seq<Item>, top: string)
    requires ProperNames(items)
    ensures Collected(DecodedFolders(PrintedAll(items)), top, []) == BelowTop(items, top)
    decreases |items|
  {
    hide Join, Slashed, DecodedFiles, DecodedFolders, Collected, AppendExportFiles, FilesFirst, AppendFolders;
    if items == [] {
      NothingCollected(top);
    } else {
      var n, rest := Printed(items[0]), PrintedAll(items[1..]);
      assert PrintedAll(items) == [n] + rest;
      DecodedNext(n, rest);
      PrintedTops(items[1..], top);
      match items[0] {
        case Document(_, _) =>
        case Folder(name, inner) =>
          FolderOfPrinted(name, inner);
          PrintedWhole(name, inner, []);
          assert [] + [name] == [name];
          NothingSlashed();
          CollectedNext(ExportFolder(name, DecodedFolders(n.kids), DecodedFiles(n.kids)), DecodedFolders(rest), top);
      }
    }
  }

  lemma NothingCollected(top: string)
    ensures Collected(DecodedFolders([]), top, []) == []
  {
  }

  lemma NothingSlashed()
    ensures Slashed([]) == ""
  {
  }

  /** Reading undoes printing: the files of the top folders of that name, each folder's own files first. */
  lemma ExportUndoesPrinting(version: string, items: seq<Item>, top: string)
    requires ProperNames(items)
    ensures var doc := PrintedPackage(version, items);
            DecodedExport(doc).Some? && Collected(DecodedExport(doc).value, top, []) == BelowTop(items, top)
  {
    var doc := PrintedPackage(version, items);
    var root := doc[1];
    var inventory := Elem("", "inhaltsverzeichnis", [], PrintedAll(items));
    assert doc[1..] == [root] && root.kids == [inventory] && [inventory][1..] == [];
    hide DecodedFolders, PrintedAll, Collected;
    assert TopFolders([]) == [];
    assert DecodedFolders(PrintedAll(items)) + [] == DecodedFolders(PrintedAll(items));
    assert TopFolders(root.kids) == DecodedFolders(PrintedAll(items));
    PrintedTops(items, top);
  }

  // Printed packages are in the expected form

  /** Different names in each folder. */
  predicate UniqueNames(items: seq<Item>) {
    items == [] || (UniqueName(items[0]) && (forall i :: i in items[1..] ==> i.name != items[0].name) && UniqueNames(items[1..]))
  }

  predicate UniqueName(i: Item) {
    i.Folder? ==> UniqueNames(i.items)
  }

  lemma PrintedName(i: Item)
    requires ProperName(i)
    ensures var n := Printed(i); n.Elem? && NameOf(n) == i.name && (n.local == if i.Folder? then "ordner" else "datei")
  {
    if i.Folder? {
      FolderOfPrinted(i.name, i.items);
    } else {
      PrintedDocument(i.name, i.file);
    }
    hide TextOf;
  }

  lemma {:induction false} PrintedMembers(items: seq<Item>, n: Node)
    requires n in PrintedAll(items)
    ensures exists i :: i in items && n == Printed(i)
    decreases |items|
  {
    hide Printed;
    if n != Printed(items[0]) {
      PrintedMembers(items[1..], n);
    } else {
      assert items[0] in items;
    }
  }

  lemma TextHasNoId(local: string, text: string)
    requires local != "datei"
    ensures ReadersAgree.SingleId(TextElement(local, text))
  {
    var ns := [Chars(text)];
    assert ns[0] == Chars(text) && ns[1..] == [] && ReadersAgree.SingleIds([]) && ReadersAgree.SingleId(Chars(text));
    assert ReadersAgree.SingleIds(ns);
  }

  /** What surrounds a folder's entries adds no entry. */
  lemma SurroundedByText(name: string, ns: seq<Node>)
    requires ReadersAgree.SingleIds(ns) && ReadersAgree.DistinctNames(ns)
    ensures ReadersAgree.SingleIds(Named(name, ns)) && ReadersAgree.DistinctNames(Named(name, ns))
  {
    var a, b, c := Chars("\n"), TextElement("name", name), TextElement("originalName", name);
    assert Named(name, ns) == [a] + ([b] + ([c] + ns));
    TextHasNoId("name", name);
    TextHasNoId("originalName", name);
    AnotherText(c, ns);
    AnotherText(b, [c] + ns);
    AnotherText(a, [b] + ([c] + ns));
  }

  lemma AnotherText(n: Node, ns: seq<Node>)
    requires ReadersAgree.SingleIds(ns) && ReadersAgree.DistinctNames(ns) && ReadersAgree.SingleId(n)
    requires !ReadersAgree.IsEntry(n)
    ensures ReadersAgree.SingleIds([n] + ns) && ReadersAgree.DistinctNames([n] + ns)
  {
    var more := [n] + ns;
    assert more[0] == n && more[1..] == ns && forall i :: 0 < i < |more| ==> more[i] == ns[i - 1];
    hide TextOf;
  }

  lemma {:induction false} PrintedIsExpected(items: seq<Item>)
    requires ProperNames(items) && UniqueNames(items)
    ensures ReadersAgree.SingleIds(PrintedAll(items)) && ReadersAgree.DistinctNames(PrintedAll(items))
    decreases items
  {
    if items != [] {
      var n, rest := Printed(items[0]), PrintedAll(items[1..]);
      assert PrintedAll(items) == [n] + rest;
      PrintedIsExpected(items[1..]);
      PrintedName(items[0]);
      match items[0] {
        case Folder(name, inner) =>
          PrintedIsExpected(inner);
          SurroundedByText(name, PrintedAll(inner));
        case Document(name, f) =>
          DocumentHasOneId(name, f);
      }
      forall m | m in rest && ReadersAgree.IsEntry(m)
        ensures NameOf(m) != NameOf(n)
      {
        PrintedMembers(items[1..], m);
        var i :| i in items[1..] && m == Printed(i);
        ProperMember(items[1..], i);
        PrintedName(i);
      }
      hide TextOf, Printed, PrintedAll, ProperNames, UniqueNames;
      AnotherEntry(n, rest);
    }
  }

  lemma DocumentHasOneId(name: string, f: File)
    ensures ReadersAgree.SingleId(Printed(Document(name, f)))
  {
    var n := Printed(Document(name, f));
    var last := TextElement("pruefsumme", f.hash);
    var a := TextElement("pruefalgorithmus", f.algorithm);
    TextHasNoId("pruefsumme", f.hash);
    TextHasNoId("pruefalgorithmus", f.algorithm);
    assert [last] + [] == [last];
    AnotherText(last, []);
    AnotherText(a, [last]);
    SurroundedByText(name, [a] + [last]);
  }

  lemma {:induction false} ProperMember(items: seq<Item>, i: Item)
    requires ProperNames(items) && i in items
    ensures ProperName(i)
    decreases |items|
  {
    if i != items[0] {
      ProperMember(items[1..], i);
    }
  }

  lemma AnotherEntry(n: Node, rest: seq<Node>)
    requires ReadersAgree.SingleIds(rest) && ReadersAgree.DistinctNames(rest) && ReadersAgree.SingleId(n) && n.Elem?
    requires n.local == "ordner" ==> ReadersAgree.DistinctNames(n.kids)
    requires forall m :: m in rest && ReadersAgree.IsEntry(m) ==> NameOf(m) != NameOf(n)
    ensures ReadersAgree.SingleIds([n] + rest) && ReadersAgree.DistinctNames([n] + rest)
  {
    var more := [n] + rest;
    assert more[0] == n && more[1..] == rest && forall i :: 0 < i < |more| ==> more[i] == rest[i - 1] && more[i] in rest;
    hide TextOf;
  }

  /** Every printed tree with proper names that differ in each folder is a package on which the two readers agree. */
  lemma PrintedPackageIsExpected(version: string, items: seq<Item>)
    requires ProperNames(items) && UniqueNames(items)
    ensures var doc := PrintedPackage(version, items);
            && Package(doc) && InventoryIn(Root(doc).kids) == PrintedAll(items)
            && ReadersAgree.SingleIds(PrintedAll(items)) && ReadersAgree.DistinctNames(PrintedAll(items))
  {
    var doc := PrintedPackage(version, items);
    PrintedItems(items, []);
    PrintedIsExpected(items);
    var root := doc[1];
    assert doc[1..] == [root] && [root][1..] == [] && root.kids[1..] == [];
  }

  /** Of several inventories in a document, the folders of the first come first. */
  lemma {:induction false} InventoriesInOrder(ns: seq<Node>, ms: seq<Node>)
    ensures TopFolders(ns + ms) == TopFolders(ns) + TopFolders(ms)
    decreases |ns|
  {
    hide DecodedFolders;
    if ns == [] {
      assert ns + ms == ms;
    } else {
      assert (ns + ms)[0] == ns[0] && (ns + ms)[1..] == ns[1..] + ms;
      InventoriesInOrder(ns[1..], ms);
    }
  }
}
