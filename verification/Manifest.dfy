/**
  The streaming manifest reader (internal/manifest/manifest.go): one pass over the tokens with a stack of
  open elements and a path that is edited in place.
*/
module Manifest {
  import opened Wrappers
  import opened Xml
  import Paths

  datatype File = File(id: string, algorithm: string, hash: string)

  /** A missing file stands for the nil pointer that a nested `datei` would leave in the map. */
  datatype Manifest = Manifest(schemaVersion: string, files: map<string, Option<File>>)

  datatype Failure =
    | Malformed        // the decoder reports an error
    | NoOpenElement    // an end tag with an empty stack: index out of range
    | NoFile           // a checksum outside a file: nil pointer

  predicate Relevant(local: string) {
    local in ["paket", "inhaltsverzeichnis", "ordner", "datei", "name", "pruefalgorithmus", "pruefsumme"]
  }

  /** The reader's variables, apart from the stack. */
  datatype Reader = Reader(path: string, file: Option<File>, files: map<string, Option<File>>, version: string)

  const FRESH := Reader("", None, map[], "")

  predicate HasAttr(attrs: seq<Attr>, local: string) {
    exists i :: 0 <= i < |attrs| && attrs[i].local == local
  }

  /** The start tag of a relevant element. */
  function Opened(r: Reader, local: string, attrs: seq<Attr>): Reader {
    if local == "paket" then
      if HasAttr(attrs, "schemaVersion") then r.(version := FirstAttr(attrs, "schemaVersion")) else r
    else if local == "datei" then r.(file := Some(File(FirstAttr(attrs, "id"), "", "")))
    else r
  }

  /** The end tag of a relevant element, other than `inhaltsverzeichnis`. */
  function Closed(r: Reader, local: string): Reader {
    if local == "datei" then r.(files := r.files[r.path := r.file], file := None, path := Paths.Dir(r.path))
    else if local == "ordner" then r.(path := Paths.Dir(r.path))
    else r
  }

  /** Character data directly inside element `top`. */
  function Noted(r: Reader, top: string, chars: string): Result<Reader, Failure> {
    if top == "name" then Ok(r.(path := Paths.Join([r.path, chars])))
    else if top == "pruefalgorithmus" || top == "pruefsumme" then
      if r.file.None? then Err(NoFile)
      else if top == "pruefalgorithmus" then Ok(r.(file := Some(r.file.value.(algorithm := chars))))
      else Ok(r.(file := Some(r.file.value.(hash := chars))))
    else Ok(r)
  }

  /**
    What is read from tokens `ts` with the given stack. `eof` tells whether the input ends properly after
    them or in a decoder error.
  */
  function ReadTokens(ts: seq<Token>, eof: bool, open: seq<string>, r: Reader): Result<Manifest, Failure>
    decreases |ts|
  {
    if ts == [] then
      if eof then Ok(Manifest(r.version, r.files)) else Err(Malformed)
    else match ts[0]
      case Start(_, local, attrs) =>
        if Relevant(local) then ReadTokens(ts[1..], eof, open + [local], Opened(r, local, attrs))
        else
          var rest := Skipped(ts[1..], 1);
          SkippedIsShorter(ts[1..], 1);
          if rest.None? then Err(Malformed) else ReadTokens(rest.value, eof, open, r)
      case End(local) =>
        if open == [] then Err(NoOpenElement)
        else if local != open[|open| - 1] then ReadTokens(ts[1..], eof, open, r)
        else if local == "inhaltsverzeichnis" then Ok(Manifest(r.version, r.files))
        else ReadTokens(ts[1..], eof, open[..|open| - 1], Closed(r, local))
      case Text(chars) =>
        if open == [] then ReadTokens(ts[1..], eof, open, r)
        else
          var noted := Noted(r, open[|open| - 1], chars);
          if noted.Err? then Err(noted.error) else ReadTokens(ts[1..], eof, open, noted.value)
      case Other => ReadTokens(ts[1..], eof, open, r)
  }

  /** The first attribute with the local name, by the loop that both start tags use. */
  method FindAttr(attrs: seq<Attr>, local: string) returns (value: Option<string>)
    ensures value == if HasAttr(attrs, local) then Some(FirstAttr(attrs, local)) else None
  {
    for i := 0 to |attrs|
      invariant forall j :: 0 <= j < i ==> attrs[j].local != local
      invariant FirstAttr(attrs, local) == FirstAttr(attrs[i..], local)
    {
      if attrs[i].local == local {
        return Some(attrs[i].value);
      }
      assert attrs[i..][1..] == attrs[i + 1..];
    }
    return None;
  }

  lemma {:induction false} NoAttr(attrs: seq<Attr>, local: string)
    requires !HasAttr(attrs, local)
    ensures FirstAttr(attrs, local) == ""
    decreases |attrs|
  {
    if attrs != [] {
      assert forall i :: 0 <= i < |attrs[1..]| ==> attrs[1..][i] == attrs[i + 1];
      NoAttr(attrs[1..], local);
    }
  }

  /** The loop itself. */
  method Parse(ts: seq<Token>, eof: bool) returns (m: Result<Manifest, Failure>)
    ensures m == ReadTokens(ts, eof, [], FRESH)
  {
    var file: Option<File> := None;
    var path := "";
    var openElems: seq<string> := [];
    var files: map<string, Option<File>> := map[];
    var version := "";
    var i := 0;
    while i < |ts|
      invariant i <= |ts|
      invariant ReadTokens(ts, eof, [], FRESH) == ReadTokens(ts[i..], eof, openElems, Reader(path, file, files, version))
      invariant TagsMatch(ts, []) ==> TagsMatch(ts[i..], openElems)
      decreases |ts| - i
    {
      assert ts[i..][0] == ts[i] && ts[i..][1..] == ts[i + 1..];
      match ts[i] {
        case Start(_, local, attrs) =>
          if Relevant(local) {
            if local == "paket" {
              var value := FindAttr(attrs, "schemaVersion");
              if value.Some? {
                version := value.value;
              }
            } else if local == "datei" {
              var id := FindAttr(attrs, "id");
              if id.None? {
                NoAttr(attrs, "id");
              }
              file := Some(File(if id.Some? then id.value else "", "", ""));
            }
            openElems := openElems + [local];
            i := i + 1;
          } else {
            var j, ok := Skip(ts, i + 1);
            if !ok {
              return Err(Malformed);
            }
            i := j;
          }
        case End(local) =>
          assert TagsMatch(ts, []) ==> openElems != [] && local == openElems[|openElems| - 1];
          if openElems == [] {
            return Err(NoOpenElement);
          }
          if local == openElems[|openElems| - 1] {
            if local == "datei" {
              files := files[path := file];
              file := None;
              path := Paths.Dir(path);
            } else if local == "ordner" {
              path := Paths.Dir(path);
            } else if local == "inhaltsverzeichnis" {
              return Ok(Manifest(version, files));
            }
            openElems := openElems[..|openElems| - 1];
          }
          i := i + 1;
        case Text(chars) =>
          if openElems != [] {
            var top := openElems[|openElems| - 1];
            if top == "name" {
              path := Paths.Join([path, chars]);
            } else if top == "pruefalgorithmus" {
              if file.None? {
                return Err(NoFile);
              }
              file := Some(file.value.(algorithm := chars));
            } else if top == "pruefsumme" {
              if file.None? {
                return Err(NoFile);
              }
              file := Some(file.value.(hash := chars));
            }
          }
          i := i + 1;
        case Other =>
          i := i + 1;
      }
    }
    return if eof then Ok(Manifest(version, files)) else Err(Malformed);
  }

  // What the stream means: reading the document tree

  /** Reading is under way, has stopped at the end of `inhaltsverzeichnis`, or has failed. */
  datatype Progress = Going(reader: Reader) | Stopped(manifest: Manifest) | Lost

  /** Element `local` ends. */
  function Left(p: Progress, local: string): Progress {
    if !p.Going? then p
    else if local == "inhaltsverzeichnis" then Stopped(Manifest(p.reader.version, p.reader.files))
    else Going(Closed(p.reader, local))
  }

  /** Reads nodes that stand directly inside element `top`. */
  function ReadNodes(ns: seq<Node>, top: Option<string>, r: Reader): Progress {
    if ns == [] then Going(r)
    else
      var p := ReadNode(ns[0], top, r);
      if p.Going? then ReadNodes(ns[1..], top, p.reader) else p
  }

  function ReadNode(n: Node, top: Option<string>, r: Reader): Progress {
    match n
    case Elem(_, local, attrs, kids) =>
      if Relevant(local) then Left(ReadNodes(kids, Some(local), Opened(r, local, attrs)), local) else Going(r)
    case Chars(chars) =>
      if top.None? then Going(r)
      else
        var noted := Noted(r, top.value, chars);
        if noted.Ok? then Going(noted.value) else Lost
    case Misc => Going(r)
  }

  function Top(open: seq<string>): Option<string> {
    if open == [] then None else Some(open[|open| - 1])
  }

  /** The result of the whole stream, given how far the nodes at its front were read. */
  function Resumed(p: Progress, rest: seq<Token>, eof: bool, open: seq<string>): Result<Manifest, Failure> {
    match p
    case Going(r) => ReadTokens(rest, eof, open, r)
    case Stopped(m) => Ok(m)
    case Lost => Err(NoFile)
  }

  /** The pushdown reader reads exactly the tree, whatever elements it is made of. */
  lemma {:induction false} StreamIsTree(ns: seq<Node>, rest: seq<Token>, eof: bool, open: seq<string>, r: Reader)
    ensures ReadTokens(Flat(ns) + rest, eof, open, r) == Resumed(ReadNodes(ns, Top(open), r), rest, eof, open)
    decreases ns
  {
    hide ReadTokens, ReadNode;
    if ns == [] {
      assert Flat(ns) + rest == rest;
    } else {
      var tail := Flat(ns[1..]) + rest;
      assert Flat(ns) + rest == FlatNode(ns[0]) + tail;
      StreamOfNode(ns[0], tail, eof, open, r);
      var p := ReadNode(ns[0], Top(open), r);
      if p.Going? {
        StreamIsTree(ns[1..], rest, eof, open, p.reader);
      }
    }
  }

  lemma {:induction false} StreamOfNode(n: Node, rest: seq<Token>, eof: bool, open: seq<string>, r: Reader)
    ensures ReadTokens(FlatNode(n) + rest, eof, open, r) == Resumed(ReadNode(n, Top(open), r), rest, eof, open)
    decreases n
  {
    var ts := FlatNode(n) + rest;
    if n.Elem? {
      var after := [End(n.local)] + rest;
      assert ts[1..] == Flat(n.kids) + after;
      if Relevant(n.local) {
        StreamIsTree(n.kids, after, eof, open + [n.local], Opened(r, n.local, n.attrs));
        assert (open + [n.local])[..|open|] == open;
        assert after[1..] == rest;
      } else {
        SkipElement(n.kids, n.local, rest);
      }
    } else {
      assert ts[1..] == rest;
    }
  }

  /** What a document makes of the reader. */
  function ReadDocument(doc: seq<Node>): Result<Manifest, Failure> {
    match ReadNodes(doc, None, FRESH)
    case Going(r) => Ok(Manifest(r.version, r.files))
    case Stopped(m) => Ok(m)
    case Lost => Err(NoFile)
  }

  lemma ParsingReadsTheDocument(doc: seq<Node>)
    ensures ReadTokens(Flat(doc), true, [], FRESH) == ReadDocument(doc)
  {
    StreamIsTree(doc, [], true, [], FRESH);
    assert Flat(doc) + [] == Flat(doc);
  }

  // The paths

  ghost predicate CleanedKeys(files: map<string, Option<File>>) {
    forall p :: p in files ==> Paths.CleanedPath(p)
  }

  /** Whatever tokens are read, files are entered under cleaned paths. */
  lemma {:induction false} PathsAreCleaned(ts: seq<Token>, eof: bool, open: seq<string>, r: Reader)
    requires Paths.CleanedPath(r.path) && CleanedKeys(r.files)
    ensures ReadTokens(ts, eof, open, r).Ok? ==> CleanedKeys(ReadTokens(ts, eof, open, r).value.files)
    decreases |ts|
  {
    hide Paths.Join, Paths.Dir, Paths.CleanedPath;
    if ts != [] {
      match ts[0] {
        case Start(_, local, attrs) =>
          if Relevant(local) {
            PathsAreCleaned(ts[1..], eof, open + [local], Opened(r, local, attrs));
          } else if Skipped(ts[1..], 1).Some? {
            SkippedIsShorter(ts[1..], 1);
            PathsAreCleaned(Skipped(ts[1..], 1).value, eof, open, r);
          }
        case End(local) =>
          if open != [] {
            if local != open[|open| - 1] {
              PathsAreCleaned(ts[1..], eof, open, r);
            } else {
              DirIsCleaned(r.path);
              PathsAreCleaned(ts[1..], eof, open[..|open| - 1], Closed(r, local));
            }
          }
        case Text(chars) =>
          if open == [] {
            PathsAreCleaned(ts[1..], eof, open, r);
          } else if Noted(r, open[|open| - 1], chars).Ok? {
            Paths.JoinIsCleaned([r.path, chars]);
            PathsAreCleaned(ts[1..], eof, open, Noted(r, open[|open| - 1], chars).value);
          }
        case Other =>
          PathsAreCleaned(ts[1..], eof, open, r);
      }
    }
  }

  lemma DirIsCleaned(p: string)
    ensures Paths.CleanedPath(Paths.Dir(p))
  {
  }

  // The stack

  /**
    Every end tag that the loop gets to finds its own element on top of the stack. The stack changes as in
    `ReadTokens`, whatever is read.
  */
  predicate TagsMatch(ts: seq<Token>, open: seq<string>)
    decreases |ts|
  {
    ts == [] ||
    match ts[0]
    case Start(_, local, _) =>
      if Relevant(local) then TagsMatch(ts[1..], open + [local])
      else
        var rest := Skipped(ts[1..], 1);
        SkippedIsShorter(ts[1..], 1);
        rest.None? || TagsMatch(rest.value, open)
    case End(local) => open != [] && local == open[|open| - 1] && TagsMatch(ts[1..], open[..|open| - 1])
    case _ => TagsMatch(ts[1..], open)
  }

  /** With matching tags, no end tag meets an empty stack. */
  lemma {:induction false} MatchingTagsAreInRange(ts: seq<Token>, eof: bool, open: seq<string>, r: Reader)
    requires TagsMatch(ts, open)
    ensures ReadTokens(ts, eof, open, r) != Err(NoOpenElement)
    decreases |ts|
  {
    if ts != [] {
      match ts[0] {
        case Start(_, local, attrs) =>
          if Relevant(local) {
            MatchingTagsAreInRange(ts[1..], eof, open + [local], Opened(r, local, attrs));
          } else if Skipped(ts[1..], 1).Some? {
            SkippedIsShorter(ts[1..], 1);
            MatchingTagsAreInRange(Skipped(ts[1..], 1).value, eof, open, r);
          }
        case End(local) =>
          MatchingTagsAreInRange(ts[1..], eof, open[..|open| - 1], Closed(r, local));
        case Text(chars) =>
          if open == [] {
            MatchingTagsAreInRange(ts[1..], eof, open, r);
          } else if Noted(r, open[|open| - 1], chars).Ok? {
            MatchingTagsAreInRange(ts[1..], eof, open, Noted(r, open[|open| - 1], chars).value);
          }
        case Other =>
          MatchingTagsAreInRange(ts[1..], eof, open, r);
      }
    }
  }

  /** A complete node leaves the stack as it found it. */
  lemma {:induction false} NodesMatch(ns: seq<Node>, rest: seq<Token>, open: seq<string>)
    ensures TagsMatch(Flat(ns) + rest, open) <==> TagsMatch(rest, open)
    decreases ns
  {
    hide TagsMatch;
    if ns == [] {
      assert Flat(ns) + rest == rest;
    } else {
      assert Flat(ns) + rest == FlatNode(ns[0]) + (Flat(ns[1..]) + rest);
      NodeMatches(ns[0], Flat(ns[1..]) + rest, open);
      NodesMatch(ns[1..], rest, open);
    }
  }

  lemma {:induction false} NodeMatches(n: Node, rest: seq<Token>, open: seq<string>)
    ensures TagsMatch(FlatNode(n) + rest, open) <==> TagsMatch(rest, open)
    decreases n
  {
    var ts := FlatNode(n) + rest;
    if n.Elem? {
      var after := [End(n.local)] + rest;
      assert ts[1..] == Flat(n.kids) + after;
      if Relevant(n.local) {
        NodesMatch(n.kids, after, open + [n.local]);
        assert (open + [n.local])[..|open|] == open;
        assert after[1..] == rest;
      } else {
        SkipElement(n.kids, n.local, rest);
      }
    } else {
      assert ts[1..] == rest;
    }
  }

  /** The tags of a stream that is cut off match if those of the whole stream do. */
  lemma {:induction false} CutOffMatches(ts: seq<Token>, more: seq<Token>, open: seq<string>)
    requires TagsMatch(ts + more, open)
    ensures TagsMatch(ts, open)
    decreases |ts|
  {
    if ts != [] {
      var all := ts + more;
      assert all[0] == ts[0] && all[1..] == ts[1..] + more;
      match ts[0] {
        case Start(_, local, _) =>
          if Relevant(local) {
            CutOffMatches(ts[1..], more, open + [local]);
          } else if Skipped(ts[1..], 1).Some? {
            SkippedIsShorter(ts[1..], 1);
            SkippedInLonger(ts[1..], more, 1);
            CutOffMatches(Skipped(ts[1..], 1).value, more, open);
          }
        case End(_) =>
          CutOffMatches(ts[1..], more, open[..|open| - 1]);
        case _ =>
          CutOffMatches(ts[1..], more, open);
      }
    }
  }

  lemma {:induction false} SkippedInLonger(ts: seq<Token>, more: seq<Token>, depth: nat)
    ensures Skipped(ts, depth).Some? ==> Skipped(ts + more, depth) == Some(Skipped(ts, depth).value + more)
    decreases |ts|
  {
    if depth > 0 && ts != [] {
      assert (ts + more)[0] == ts[0] && (ts + more)[1..] == ts[1..] + more;
      match ts[0] {
        case Start(_, _, _) => SkippedInLonger(ts[1..], more, depth + 1);
        case End(_) => SkippedInLonger(ts[1..], more, depth - 1);
        case _ => SkippedInLonger(ts[1..], more, depth);
      }
    }
  }

  /** On a document, complete or cut off anywhere, an end tag always finds its own element on top of the stack. */
  lemma EndTagsFindTheirElement(doc: seq<Node>, ts: seq<Token>, eof: bool)
    requires ts <= Flat(doc)
    ensures TagsMatch(ts, [])
    ensures ReadTokens(ts, eof, [], FRESH) != Err(NoOpenElement)
  {
    var more := Flat(doc)[|ts|..];
    assert ts + more == Flat(doc) && Flat(doc) + [] == Flat(doc);
    NodesMatch(doc, [], []);
    CutOffMatches(ts, more, []);
    MatchingTagsAreInRange(ts, eof, [], FRESH);
  }

  /** A document without its irrelevant elements. */
  function Pruned(ns: seq<Node>): seq<Node> {
    if ns == [] then []
    else match ns[0]
      case Elem(space, local, attrs, kids) =>
        if Relevant(local) then [Elem(space, local, attrs, Pruned(kids))] + Pruned(ns[1..]) else Pruned(ns[1..])
      case n => [n] + Pruned(ns[1..])
  }

  /** Irrelevant elements, at any depth and whatever they contain, do not change the result. */
  lemma {:induction false} IrrelevantElementsDoNotMatter(ns: seq<Node>, top: Option<string>, r: Reader)
    ensures ReadNodes(Pruned(ns), top, r) == ReadNodes(ns, top, r)
    decreases ns
  {
    if ns != [] {
      var tail := Pruned(ns[1..]);
      match ns[0] {
        case Elem(space, local, attrs, kids) =>
          if Relevant(local) {
            IrrelevantElementsDoNotMatter(kids, Some(local), Opened(r, local, attrs));
            var p := ReadNodes(kids, Some(local), Opened(r, local, attrs));
            assert Pruned(ns)[1..] == tail;
            if p.Going? && local != "inhaltsverzeichnis" {
              IrrelevantElementsDoNotMatter(ns[1..], top, Closed(p.reader, local));
            }
          } else {
            IrrelevantElementsDoNotMatter(ns[1..], top, r);
          }
        case Chars(chars) =>
          assert Pruned(ns)[1..] == tail;
          if ReadNode(ns[0], top, r).Going? {
            IrrelevantElementsDoNotMatter(ns[1..], top, ReadNode(ns[0], top, r).reader);
          }
        case Misc =>
          assert Pruned(ns)[1..] == tail;
          IrrelevantElementsDoNotMatter(ns[1..], top, r);
      }
    }
  }
}
