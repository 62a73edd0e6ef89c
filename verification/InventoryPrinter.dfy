/** Prints trees of folders and files as Arelda packages, and shows that reading undoes printing. */
module InventoryPrinter {
  import opened Wrappers
  import opened Xml
  import opened Manifest
  import opened Paths
  import opened Inventory

  datatype Item =
    | Folder(name: string, items: seq<Item>)
    | Document(name: string, file: File)

  function TextElement(local: string, text: string): Node {
    Elem("", local, [], [Chars(text)])
  }

  /** A line break and an original name, which readers are to ignore, surround every name. */
  function Named(name: string, rest: seq<Node>): seq<Node> {
    [Chars("\n")] + ([TextElement("name", name)] + ([TextElement("originalName", name)] + rest))
  }

  function Printed(i: Item): Node {
    match i
    case Folder(name, items) => Elem("", "ordner", [], Named(name, PrintedAll(items)))
    case Document(name, f) =>
      Elem("", "datei", [Attr("id", f.id)],
           Named(name, [TextElement("pruefalgorithmus", f.algorithm)] + ([TextElement("pruefsumme", f.hash)] + [])))
  }

  function PrintedAll(items: seq<Item>): seq<Node> {
    if items == [] then [] else [Printed(items[0])] + PrintedAll(items[1..])
  }

  function PrintedPackage(version: string, items: seq<Item>): seq<Node> {
    [Misc, Elem("", "paket", [Attr("schemaVersion", version)], [Elem("", "inhaltsverzeichnis", [], PrintedAll(items))])]
  }

  predicate ProperNames(items: seq<Item>) {
    items == [] || (ProperName(items[0]) && ProperNames(items[1..]))
  }

  predicate ProperName(i: Item) {
    Name(i.name) && (i.Folder? ==> ProperNames(i.items))
  }

  /** The files of the items, by the names that lead to them. */
  function Files(items: seq<Item>, at: seq<string>): seq<Listed> {
    if items == [] then [] else FilesOf(items[0], at) + Files(items[1..], at)
  }

  function FilesOf(i: Item, at: seq<string>): seq<Listed> {
    match i
    case Folder(name, items) => Files(items, at + [name])
    case Document(name, f) => [Listed(at + [name], f)]
  }

  /** One more node at the front. */
  lemma OneMore(n: Node, rest: seq<Node>, named: bool, seen: set<string>, at: seq<string>)
    requires !IsRelevant(n)
    ensures FolderContent([n] + rest, named) == FolderContent(rest, named)
    ensures FileContent([n] + rest, seen) == FileContent(rest, seen)
    ensures Listing([n] + rest, at) == Listing(rest, at)
    ensures forall local, text :: Relevant(local) ==> TextOf([n] + rest, local, text) == TextOf(rest, local, text)
  {
    assert ([n] + rest)[1..] == rest;
    assert ListingOf(n, at) == [];
    assert [] + Listing(rest, at) == Listing(rest, at);
  }

  lemma OneText(local: string, text: string)
    ensures var n := TextElement(local, text); Chunks(n.kids) == [text] && Concat(Chunks(n.kids)) == text && NoneRelevant(n.kids)
  {
    assert [Chars(text)][1..] == [] && [text][1..] == [];
    assert text + "" == text;
  }

  /** A file's content with one more text element at the front. */
  lemma OneMoreText(local: string, text: string, rest: seq<Node>, seen: set<string>)
    requires local in ["pruefalgorithmus", "pruefsumme"] || (local == "name" && Name(text))
    requires local !in seen && FileContent(rest, seen + {local})
    ensures var ns := [TextElement(local, text)] + rest;
            && FileContent(ns, seen)
            && TextOf(ns, local, "") == text
            && forall other, t :: other != local ==> TextOf(ns, other, t) == TextOf(rest, other, t)
  {
    var ns := [TextElement(local, text)] + rest;
    assert ns[1..] == rest;
    OneText(local, text);
    TextIsFinal(rest, seen + {local}, local, text);
  }

  lemma PrintedDocument(name: string, f: File)
    requires Name(name)
    ensures var n := Printed(Document(name, f)); Entry(n) && NameOf(n) == name && FileOf(n) == f
  {
    hide FileContent, TextOf;
    var n := Printed(Document(name, f));
    assert FileContent([], {"name", "pruefalgorithmus", "pruefsumme"}) by {
      NothingMore();
    }
    assert {"name", "pruefalgorithmus"} + {"pruefsumme"} == {"name", "pruefalgorithmus", "pruefsumme"};
    OneMoreText("pruefsumme", f.hash, [], {"name", "pruefalgorithmus"});
    var ns1 := [TextElement("pruefsumme", f.hash)] + [];
    assert {"name"} + {"pruefalgorithmus"} == {"name", "pruefalgorithmus"};
    OneMoreText("pruefalgorithmus", f.algorithm, ns1, {"name"});
    var ns2 := [TextElement("pruefalgorithmus", f.algorithm)] + ns1;
    OneMore(TextElement("originalName", name), ns2, true, {"name"}, []);
    var ns3 := [TextElement("originalName", name)] + ns2;
    assert {} + {"name"} == {"name"};
    OneMoreText("name", name, ns3, {});
    var ns4 := [TextElement("name", name)] + ns3;
    OneMore(Chars("\n"), ns4, true, {}, []);
    assert n.kids == [Chars("\n")] + ns4;
    assert FirstAttr(n.attrs, "id") == f.id;
  }

  lemma NothingMore()
    ensures FileContent([], {"name", "pruefalgorithmus", "pruefsumme"})
  {
  }

  lemma {:induction false} PrintedItems(items: seq<Item>, at: seq<string>)
    requires ProperNames(items)
    ensures FolderContent(PrintedAll(items), true) && Listing(PrintedAll(items), at) == Files(items, at)
    decreases items
  {
    if items != [] {
      PrintedItem(items[0], at);
      PrintedItems(items[1..], at);
      var ns := PrintedAll(items);
      assert ns[0] == Printed(items[0]) && ns[1..] == PrintedAll(items[1..]);
    }
  }

  lemma {:induction false} PrintedItem(i: Item, at: seq<string>)
    requires ProperName(i)
    ensures IsRelevant(Printed(i)) && Entry(Printed(i)) && ListingOf(Printed(i), at) == FilesOf(i, at)
    decreases i
  {
    if i.Document? {
      PrintedDocument(i.name, i.file);
    } else {
      PrintedItems(i.items, at + [i.name]);
      PrintedFolder(i.name, PrintedAll(i.items), at + [i.name]);
    }
  }

  /** A folder's content with its name in front. */
  lemma PrintedFolder(name: string, rest: seq<Node>, at: seq<string>)
    requires Name(name) && FolderContent(rest, true)
    ensures FolderContent(Named(name, rest), false) && TextOf(Named(name, rest), "name", "") == name
    ensures Listing(Named(name, rest), at) == Listing(rest, at)
  {
    var orig := [TextElement("originalName", name)] + rest;
    var ns := [TextElement("name", name)] + orig;
    OneMore(TextElement("originalName", name), rest, true, {}, at);
    OneMore(Chars("\n"), ns, false, {}, at);
    OneText("name", name);
    FolderNameIsFinal(orig, name);
    assert ns[0] == TextElement("name", name) && ns[1..] == orig;
    assert ListingOf(ns[0], at) == [] && [] + Listing(orig, at) == Listing(orig, at);
  }

  /** Reading undoes printing, for every tree of folders and files with proper names. */
  lemma ReadingUndoesPrinting(version: string, items: seq<Item>)
    requires ProperNames(items)
    ensures ReadTokens(Flat(PrintedPackage(version, items)), true, [], FRESH)
            == Ok(Manifest(version, Entered(map[], Files(items, []))))
  {
    var doc := PrintedPackage(version, items);
    PrintedItems(items, []);
    ParsingReadsTheDocument(doc);
    var root := doc[1];
    assert doc[1..] == [root] && [root][1..] == [] && root.kids[1..] == [];
    assert FirstAttr(root.attrs, "schemaVersion") == version;
    ReadPackage(doc);
  }
}
