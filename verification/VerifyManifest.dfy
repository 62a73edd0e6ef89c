/**
  Verifying a package against its manifest (internal/activities/verify_manifest.go): maps and sets are built
  and compared in whatever order they are iterated, and the findings are sorted.
*/
module VerifyManifest {
  import opened Wrappers
  import opened Paths
  import opened Sorting
  import Xml
  import opened Manifest
  import opened Sip
  import opened PackageTree
  import opened ValidateStructure

  /** GenerateHash of a file, given its path in the package and the algorithm; None for an unknown algorithm. */
  type Digests = (string, string) -> Option<string>

  datatype VerifyError =
    | BadManifest  // the manifest cannot be opened or parsed
    | Unreadable   // the files of the package cannot be listed
    | HashFailed   // no hash for a file that is there

  datatype Findings = Findings(checksums: seq<string>, manifest: seq<string>, missing: seq<string>, unexpected: seq<string>)

  function Same(s: string): string {
    s
  }

  function LowerChar(c: char): char {
    if 'A' <= c <= 'Z' then c - 'A' + 'a' else c
  }

  function Lower(s: string): string {
    seq(|s|, i requires 0 <= i < |s| => LowerChar(s[i]))
  }

  // The manifest

  /** The manifest's files under their paths in the package: those of AIPs get a prefix. */
  ghost predicate IsPrefixed(kind: Kind, files: map<string, Option<File>>, out: map<string, Option<File>>) {
    if IsAIP(kind) then
      && (forall k :: k in files ==> Join([CONTENT, k]) in out)
      && (forall q :: q in out ==> exists k :: k in files && Join([CONTENT, k]) == q && out[q] == files[k])
    else out == files
  }

  method PrefixedFiles(kind: Kind, files: map<string, Option<File>>) returns (out: map<string, Option<File>>)
    ensures IsPrefixed(kind, files, out)
  {
    hide Join;
    if !IsAIP(kind) {
      return files;
    }
    out := map[];
    var todo := files.Keys;
    while todo != {}
      invariant todo <= files.Keys
      invariant forall k :: k in files && k !in todo ==> Join([CONTENT, k]) in out
      invariant forall q :: q in out ==> exists k :: k in files && Join([CONTENT, k]) == q && out[q] == files[k]
      decreases todo
    {
      var k :| k in todo;
      todo := todo - {k};
      out := out[Join([CONTENT, k]) := files[k]];
    }
  }

  /** Paths of names, as the reader makes them from a package in the expected form. */
  ghost predicate NamePaths(files: map<string, Option<File>>) {
    forall k :: k in files ==> NamePath(k)
  }

  /** Two entries that the prefix makes one. */
  predicate Collide(files: map<string, Option<File>>, k: string, l: string) {
    k in files && l in files && Join([CONTENT, k]) == Join([CONTENT, l]) && files[k] != files[l]
  }

  ghost predicate OrderMatters(kind: Kind, files: map<string, Option<File>>) {
    exists a, b :: IsPrefixed(kind, files, a) && IsPrefixed(kind, files, b) && a != b
  }

  lemma CollisionsMatter(kind: Kind, files: map<string, Option<File>>, k: string, l: string)
    requires IsAIP(kind) && Collide(files, k, l)
    ensures OrderMatters(kind, files)
  {
    hide Join;
    var c := SomePrefixed(kind, files);
    var q := Join([CONTENT, k]);
    var a, b := c[q := files[k]], c[q := files[l]];
    assert a[q] != b[q];
    assert IsPrefixed(kind, files, a);
    assert IsPrefixed(kind, files, b);
  }

  lemma OnlyCollisionsMatter(kind: Kind, files: map<string, Option<File>>, a: map<string, Option<File>>, b: map<string, Option<File>>)
    requires IsPrefixed(kind, files, a) && IsPrefixed(kind, files, b) && a != b
    ensures IsAIP(kind) && exists k, l :: Collide(files, k, l)
  {
    hide Join;
    assert a.Keys == b.Keys;
    var q :| q in a && a[q] != b[q];
    var k :| k in files && Join([CONTENT, k]) == q && a[q] == files[k];
    var l :| l in files && Join([CONTENT, l]) == q && b[q] == files[l];
    assert Collide(files, k, l);
  }

  /** The order in which the loop reads the map matters exactly when two entries of an AIP's manifest collide. */
  lemma OrderMattersIff(kind: Kind, files: map<string, Option<File>>)
    ensures OrderMatters(kind, files) <==> IsAIP(kind) && exists k, l :: Collide(files, k, l)
  {
    hide Join, Collide, IsPrefixed;
    if OrderMatters(kind, files) {
      var a, b :| IsPrefixed(kind, files, a) && IsPrefixed(kind, files, b) && a != b;
      OnlyCollisionsMatter(kind, files, a, b);
    }
    if IsAIP(kind) {
      if k, l :| Collide(files, k, l) {
        CollisionsMatter(kind, files, k, l);
      }
    }
  }

  lemma SomePrefixed(kind: Kind, files: map<string, Option<File>>) returns (out: map<string, Option<File>>)
    requires IsAIP(kind)
    ensures IsPrefixed(kind, files, out)
  {
    hide Join;
    out := map q | q in (set k | k in files :: Join([CONTENT, k])) :: files[KeyFor(files, q)];
  }

  ghost function KeyFor(files: map<string, Option<File>>, q: string): (k: string)
    requires exists k :: k in files && Join([CONTENT, k]) == q
    ensures k in files && Join([CONTENT, k]) == q
  {
    var k :| k in files && Join([CONTENT, k]) == q;
    k
  }

  /** Two nameless files at the top of an AIP's inventory collide: the reader enters them as "" and ".". */
  lemma NamelessFilesCollide(a: Option<File>, b: Option<File>)
    requires a != b
    ensures Collide(map["" := a, "." := b], "", ".")
  {
    Words();
    assert Names([CONTENT]) && Path(false, [CONTENT]) == CONTENT;
    JoinDot(false, [CONTENT]);
    CleanTrailingSlash(false, [CONTENT]);
    assert Slashed([CONTENT, ""]) == CONTENT + "/" by {
      assert [CONTENT, ""][1..] == [""] && Slashed([""]) == "";
    }
    assert CONTENT != "";
  }

  /** Paths of names do not collide. */
  lemma NamePathsDoNotCollide(kind: Kind, files: map<string, Option<File>>)
    requires NamePaths(files)
    ensures !OrderMatters(kind, files)
  {
    OrderMattersIff(kind, files);
    forall k, l | k in files && l in files
      ensures !Collide(files, k, l)
    {
      PrefixIsInjective(files, k, l);
    }
    hide Join, NamePaths;
  }

  lemma PrefixIsInjective(files: map<string, Option<File>>, k: string, l: string)
    requires NamePaths(files) && k in files && l in files
    ensures Join([CONTENT, k]) == Join([CONTENT, l]) ==> k == l
  {
    var cs :| cs != [] && Names(cs) && k == Slashed(cs);
    var ds :| ds != [] && Names(ds) && l == Slashed(ds);
    PrefixOfNames(cs);
    PrefixOfNames(ds);
    hide Join, Slashed, Names;
    PathIsInjective(false, [CONTENT] + cs, [CONTENT] + ds);
    SamePrefix([CONTENT], cs, ds);
  }

  lemma PrefixOfNames(cs: seq<string>)
    requires cs != [] && Names(cs)
    ensures Names([CONTENT] + cs) && Join([CONTENT, Slashed(cs)]) == Path(false, [CONTENT] + cs)
  {
    Words();
    assert Names([CONTENT]);
    NamesConcat([CONTENT], cs);
    SlashedConcat([CONTENT], cs);
    assert Slashed([CONTENT]) == CONTENT && Slashed([CONTENT, Slashed(cs)]) == CONTENT + "/" + Slashed(cs);
    assert CONTENT != "";
    CleanPath(false, [CONTENT] + cs);
  }

  // The files of the package

  /** Files that the manifest should list: all but a SIP's own metadata file; of an AIP, those of its content. */
  predicate InScope(kind: Kind, at: Location) {
    if IsAIP(kind) then at != [] && at[0] == CONTENT else at != [HEADER, METADATA_FILE]
  }

  predicate IsFile(tree: Node, at: Location) {
    NodeAt(tree, at).Some? && NodeAt(tree, at).value.FileNode?
  }

  /** Where the walk starts: None if there is nothing. */
  function WalkRoot(kind: Kind, tree: Node): Option<seq<Entry>> {
    if IsAIP(kind) then
      var sub := NodeAt(tree, [CONTENT]);
      if sub.None? then None else Some(Walk(sub.value, [CONTENT]))
    else Some(Walk(tree, []))
  }

  /** The paths of the files that the walk finds and that count. */
  function FilesFound(kind: Kind, es: seq<Entry>): set<string> {
    set e | e in es && !e.isDir && (IsAIP(kind) || RelPath(e.at) != "header/metadata.xml") :: RelPath(e.at)
  }

  method SipFiles(kind: Kind, tree: Node) returns (paths: Option<set<string>>)
    ensures paths == if WalkRoot(kind, tree).None? then None else Some(FilesFound(kind, WalkRoot(kind, tree).value))
  {
    hide *;
    var entries := WalkRoot(kind, tree);
    if entries.None? {
      return None;
    }
    var es := entries.value;
    var found: set<string> := {};
    NothingFound(kind);
    for i := 0 to |es|
      invariant found == FilesFound(kind, es[..i])
    {
      var p := RelPath(es[i].at);
      FoundNext(kind, es, i);
      if !es[i].isDir && (IsAIP(kind) || p != "header/metadata.xml") {
        found := found + {p};
      }
    }
    assert es[..|es|] == es;
    return Some(found);
  }

  lemma NothingFound(kind: Kind)
    ensures FilesFound(kind, []) == {}
  {
  }

  lemma FoundNext(kind: Kind, es: seq<Entry>, i: nat)
    requires i < |es|
    ensures FilesFound(kind, es[..i + 1])
            == FilesFound(kind, es[..i])
               + if !es[i].isDir && (IsAIP(kind) || RelPath(es[i].at) != "header/metadata.xml") then {RelPath(es[i].at)} else {}
  {
    hide RelPath;
    assert forall e :: e in es[..i + 1] <==> e in es[..i] || e == es[i];
  }

  lemma ExemptPath(at: Location)
    requires Names(at)
    ensures RelPath(at) == "header/metadata.xml" <==> at == [HEADER, METADATA_FILE]
  {
    Words();
    var exempt := [HEADER, METADATA_FILE];
    assert exempt[1..] == [METADATA_FILE] && Slashed([METADATA_FILE]) == METADATA_FILE;
    assert Slashed(exempt) == HEADER + "/" + METADATA_FILE;
    assert HEADER + "/" + METADATA_FILE == "header/metadata.xml";
    RelPathIsInjective(at, exempt);
  }

  /** The entries of the walk that count are the files of the package that are in scope. */
  lemma ScopeOfWalk(kind: Kind, tree: Node, at: Location)
    requires WellNamed(tree) && WalkRoot(kind, tree).Some? && Names(at)
    ensures RelPath(at) in FilesFound(kind, WalkRoot(kind, tree).value) <==> IsFile(tree, at) && InScope(kind, at)
  {
    var es := WalkRoot(kind, tree).value;
    ExemptPath(at);
    WalkRootNames(kind, tree);
    FileOfWalk(kind, tree, at);
    hide Walk, WalkRoot, NodeAt, RelPath, WellNamed, Names;
    forall e | e in es
      ensures RelPath(e.at) == RelPath(at) <==> e.at == at
    {
      RelPathIsInjective(e.at, at);
    }
    assert forall e :: e in es && !e.isDir && e.at == at ==> e == Entry(at, false);
    if Entry(at, false) in es {
      assert RelPath(Entry(at, false).at) == RelPath(at);
    }
  }

  lemma WalkRootNames(kind: Kind, tree: Node)
    requires WellNamed(tree) && WalkRoot(kind, tree).Some?
    ensures forall e :: e in WalkRoot(kind, tree).value ==> Names(e.at)
  {
    if IsAIP(kind) {
      Words();
      NodeIsWellNamed(tree, [CONTENT]);
      WalkNames(NodeAt(tree, [CONTENT]).value, [CONTENT]);
    } else {
      WalkNames(tree, []);
    }
  }

  lemma FileOfWalk(kind: Kind, tree: Node, at: Location)
    requires WellNamed(tree) && WalkRoot(kind, tree).Some?
    ensures Entry(at, false) in WalkRoot(kind, tree).value
            <==> IsFile(tree, at) && (IsAIP(kind) ==> at != [] && at[0] == CONTENT)
  {
    if IsAIP(kind) {
      var sub := NodeAt(tree, [CONTENT]).value;
      NodeIsWellNamed(tree, [CONTENT]);
      if at != [] && at[0] == CONTENT {
        assert at == [CONTENT] + at[1..];
        WalkShowsNodes(sub, [CONTENT], at[1..]);
        NodeBelow(tree, at);
      } else {
        WalkStays(sub, [CONTENT]);
        UnderStarts(at, [], CONTENT);
        assert [] + [CONTENT] == [CONTENT];
      }
    } else {
      assert [] + at == at;
      WalkShowsNodes(tree, [], at);
    }
  }

  lemma {:induction false} NodeIsWellNamed(n: Node, r: Location)
    requires WellNamed(n) && NodeAt(n, r).Some?
    ensures WellNamed(NodeAt(n, r).value)
    decreases n, 0
  {
    if r != [] {
      NodeInIsWellNamed(n.kids, r);
    }
  }

  lemma {:induction false} NodeInIsWellNamed(ns: seq<Node>, r: Location)
    requires r != [] && WellNamedAll(ns) && NodeIn(ns, r).Some?
    ensures WellNamed(NodeIn(ns, r).value)
    decreases ns
  {
    if ns[0].name == r[0] {
      NodeIsWellNamed(ns[0], r[1..]);
    } else {
      NodeInIsWellNamed(ns[1..], r);
    }
  }

  /** A location is looked up name by name. */
  lemma NodeBelow(n: Node, at: Location)
    requires at != [] && NodeAt(n, [at[0]]).Some?
    ensures NodeAt(n, at) == NodeAt(NodeAt(n, [at[0]]).value, at[1..])
  {
    NodeInBelow(n.kids, at);
  }

  lemma {:induction false} FirstNameIsThere(ns: seq<Node>, r: Location)
    requires r != [] && NodeIn(ns, r).Some?
    ensures NodeIn(ns, [r[0]]).Some?
    decreases |ns|
  {
    if ns[0].name != r[0] {
      FirstNameIsThere(ns[1..], r);
    }
  }

  /** Also below a location of several names. */
  lemma {:induction false} NodeFarBelow(n: Node, at: Location, r: Location)
    requires NodeAt(n, at).Some?
    ensures NodeAt(n, at + r) == NodeAt(NodeAt(n, at).value, r)
    decreases |at|
  {
    if at == [] {
      assert at + r == r;
    } else {
      assert (at + r)[0] == at[0] && (at + r)[1..] == at[1..] + r;
      FirstNameIsThere(n.kids, at);
      NodeBelow(n, at);
      NodeBelow(n, at + r);
      NodeFarBelow(NodeAt(n, [at[0]]).value, at[1..], r);
    }
  }

  lemma {:induction false} NodeInBelow(ns: seq<Node>, at: Location)
    requires at != [] && NodeIn(ns, [at[0]]).Some?
    ensures NodeIn(ns, at) == NodeAt(NodeIn(ns, [at[0]]).value, at[1..])
    decreases ns
  {
    assert [at[0]][1..] == [];
    if ns[0].name != at[0] {
      NodeInBelow(ns[1..], at);
    }
  }

  // The comparison

  /** The file is there and listed, but its hash is not the declared one. */
  predicate Mismatch(files: map<string, Option<File>>, found: set<string>, digest: Digests, p: string) {
    && p in files && p in found && files[p].Some?
    && digest(p, files[p].value.algorithm).Some? && digest(p, files[p].value.algorithm).value != Lower(files[p].value.hash)
  }

  /** No hash can be computed for the file, or there is nothing to compare it with. */
  predicate Uncheckable(files: map<string, Option<File>>, found: set<string>, digest: Digests, p: string) {
    p in files && p in found && (files[p].None? || digest(p, files[p].value.algorithm).None?)
  }

  /** There is nothing to compare the file with: a nil pointer. */
  predicate NilEntry(files: map<string, Option<File>>, found: set<string>, p: string) {
    p in files && p in found && files[p].None?
  }

  predicate Unhashable(files: map<string, Option<File>>, found: set<string>, digest: Digests, p: string) {
    p in files && p in found && files[p].Some? && digest(p, files[p].value.algorithm).None?
  }

  datatype ChecksumError = NoHash | NoEntry

  function MismatchMessage(files: map<string, Option<File>>, digest: Digests, p: string): string {
    if p in files && files[p].Some? && digest(p, files[p].value.algorithm).Some? then
      "Checksum mismatch for " + p + " (expected: " + files[p].value.hash + ", got: " + digest(p, files[p].value.algorithm).value + ")"
    else ""
  }

  function Mismatches(files: map<string, Option<File>>, found: set<string>, digest: Digests): set<string> {
    set p | p in files && Mismatch(files, found, digest, p)
  }

  /** One message for each path, in the order of the paths. */
  ghost predicate ListsSorted(out: seq<string>, s: set<string>, message: string -> string) {
    exists ps :: NoRepeats(ps) && Sorted(ps, Same) && (forall p :: p in ps <==> p in s) && out == Mapped(ps, message)
  }

  /** One message for each path, in the order of the messages. */
  ghost predicate ListsMessages(out: seq<string>, s: set<string>, message: string -> string) {
    exists ps :: NoRepeats(ps) && (forall p :: p in ps <==> p in s) && Sorted(out, Same) && multiset(out) == multiset(Mapped(ps, message))
  }

  method VerifyChecksums(files: map<string, Option<File>>, found: set<string>, digest: Digests)
    returns (r: Result<seq<string>, ChecksumError>)
    ensures r.Err? <==> exists p :: Uncheckable(files, found, digest, p)
    ensures r == Err(NoEntry) ==> exists p :: NilEntry(files, found, p)
    ensures r == Err(NoHash) ==> exists p :: Unhashable(files, found, digest, p)
    ensures r.Ok? ==> ListsMessages(r.value, Mismatches(files, found, digest), p => MismatchMessage(files, digest, p))
  {
    hide Lower, MismatchMessage;
    ghost var message := p => MismatchMessage(files, digest, p);
    ghost var bad: seq<string> := [];
    var failures: seq<string> := [];
    var todo := files.Keys;
    while todo != {}
      invariant todo <= files.Keys
      invariant forall p :: p in files && p !in todo ==> !Uncheckable(files, found, digest, p)
      invariant NoRepeats(bad) && forall p :: p in bad <==> p !in todo && Mismatch(files, found, digest, p)
      invariant failures == Mapped(bad, message)
      decreases todo
    {
      var p :| p in todo;
      todo := todo - {p};
      if p !in found {
        continue;
      }
      if files[p].None? {
        assert Uncheckable(files, found, digest, p) && NilEntry(files, found, p);
        return Err(NoEntry);
      }
      var hashResult := digest(p, files[p].value.algorithm);
      if hashResult.None? {
        assert Uncheckable(files, found, digest, p) && Unhashable(files, found, digest, p);
        return Err(NoHash);
      }
      if hashResult.value != Lower(files[p].value.hash) {
        MappedSnoc(bad, p, message);
        bad := bad + [p];
        failures := failures + [MismatchMessage(files, digest, p)];
      }
    }
    var sorted := Sort(failures, Same);
    assert forall p :: p in bad <==> p in Mismatches(files, found, digest);
    assert ListsMessages(sorted, Mismatches(files, found, digest), message);
    return Ok(sorted);
  }

  /** A set as a slice, in any order, then sorted. */
  method SortedSlice(s: set<string>) returns (ps: seq<string>)
    ensures NoRepeats(ps) && Sorted(ps, Same) && forall p :: p in ps <==> p in s
  {
    var slice: seq<string> := [];
    var todo := s;
    while todo != {}
      invariant todo <= s && NoRepeats(slice) && forall p :: p in slice <==> p in s && p !in todo
      decreases todo
    {
      var p :| p in todo;
      todo := todo - {p};
      slice := slice + [p];
    }
    ps := Sort(slice, Same);
    RearrangedHasNoRepeats(slice, ps);
    SameElements(slice, ps);
  }

  function MissingMessage(base: string, p: string): string {
    "Missing file: " + Join([base, p])
  }

  function UnexpectedMessage(base: string, p: string): string {
    "Unexpected file: " + Join([base, p])
  }

  /** missingFiles and unexpectedFiles: the difference of two sets, sorted, as messages. */
  method Difference(a: set<string>, b: set<string>, message: string -> string) returns (out: seq<string>)
    ensures ListsSorted(out, a - b, message)
  {
    var s := SortedSlice(a - b);
    out := [];
    for i := 0 to |s|
      invariant out == Mapped(s[..i], message)
    {
      assert s[..i + 1] == s[..i] + [s[i]];
      MappedSnoc(s[..i], s[i], message);
      out := out + [message(s[i])];
    }
    assert s[..|s|] == s;
  }

  // What the lists say

  /** The lists do not depend on the order in which maps and sets were read. */
  lemma ListsAreDetermined(a: seq<string>, b: seq<string>, s: set<string>, message: string -> string)
    ensures ListsSorted(a, s, message) && ListsSorted(b, s, message) ==> a == b
    ensures ListsMessages(a, s, message) && ListsMessages(b, s, message) ==> a == b
  {
    if ListsSorted(a, s, message) && ListsSorted(b, s, message) {
      var ps :| NoRepeats(ps) && Sorted(ps, Same) && (forall p :: p in ps <==> p in s) && a == Mapped(ps, message);
      var qs :| NoRepeats(qs) && Sorted(qs, Same) && (forall p :: p in qs <==> p in s) && b == Mapped(qs, message);
      SameSetSameMultiset(ps, qs);
      SortedIsUnique(ps, qs, Same);
    }
    if ListsMessages(a, s, message) && ListsMessages(b, s, message) {
      var ps :| NoRepeats(ps) && (forall p :: p in ps <==> p in s) && Sorted(a, Same) && multiset(a) == multiset(Mapped(ps, message));
      var qs :| NoRepeats(qs) && (forall p :: p in qs <==> p in s) && Sorted(b, Same) && multiset(b) == multiset(Mapped(qs, message));
      SameSetSameMultiset(ps, qs);
      MappedRearranged(ps, qs, message);
      SortedIsUnique(a, b, Same);
    }
  }

  lemma EmptyLists(out: seq<string>, s: set<string>, message: string -> string)
    ensures ListsSorted(out, s, message) ==> (out == [] <==> s == {})
    ensures ListsMessages(out, s, message) ==> (out == [] <==> s == {})
  {
    if ListsSorted(out, s, message) {
      var ps :| NoRepeats(ps) && Sorted(ps, Same) && (forall p :: p in ps <==> p in s) && out == Mapped(ps, message);
      assert |out| == |ps|;
      assert ps != [] ==> ps[0] in s;
    }
    if ListsMessages(out, s, message) {
      var ps :| NoRepeats(ps) && (forall p :: p in ps <==> p in s) && Sorted(out, Same) && multiset(out) == multiset(Mapped(ps, message));
      SameElements(out, Mapped(ps, message));
      assert ps != [] ==> ps[0] in s;
    }
  }

  // The activity

  const ALLOWED := ["4.0", "5.0"]

  /** What a run reports about the manifest's files and the files found. */
  ghost predicate Reports(f: Findings, base: string, version: string, files: map<string, Option<File>>, found: set<string>, digest: Digests) {
    && ListsMessages(f.checksums, Mismatches(files, found, digest), p => MismatchMessage(files, digest, p))
    && ListsSorted(f.missing, files.Keys - found, p => MissingMessage(base, p))
    && ListsSorted(f.unexpected, found - files.Keys, p => UnexpectedMessage(base, p))
    && f.manifest == if version in ALLOWED then [] else ["Unsupported schema version: " + version]
  }

  /** What a caller of the activity sees: a report, an error, or the crash of its worker. */
  datatype Outcome = Reported(findings: Findings) | Failed(error: VerifyError) | Crashed

  /** A run on the manifest's files under their paths in the package. */
  ghost predicate RunsOn(r: Outcome, kind: Kind, base: string, tree: Node, version: string, files: map<string, Option<File>>, digest: Digests) {
    var walked := WalkRoot(kind, tree);
    if walked.None? then r == Failed(Unreadable)
    else
      var found := FilesFound(kind, walked.value);
      && (r.Reported? <==> forall p :: !Uncheckable(files, found, digest, p))
      && (r.Reported? ==> Reports(r.findings, base, version, files, found, digest))
      && (r.Failed? ==> r.error == HashFailed && exists p :: Unhashable(files, found, digest, p))
      && (r.Crashed? ==> exists p :: NilEntry(files, found, p))
  }

  /** The manifest file: None if it cannot be opened, else its tokens and whether they end properly. */
  type ManifestFile = Option<(seq<Xml.Token>, bool)>

  /** The manifest as the parser reads it. */
  function ManifestOf(file: ManifestFile): Option<Manifest> {
    if file.None? then None
    else
      var m := ReadTokens(file.value.0, file.value.1, [], FRESH);
      if m.Ok? then Some(m.value) else None
  }

  /** The parser dereferences a nil file, or indexes an empty stack. */
  predicate ParserCrashes(file: ManifestFile) {
    file.Some? &&
    var m := ReadTokens(file.value.0, file.value.1, [], FRESH);
    m == Err(NoFile) || m == Err(NoOpenElement)
  }

  /** getManifest, up to the prefix. */
  method ParseManifest(file: ManifestFile) returns (m: Option<Manifest>, crashed: bool)
    ensures m == ManifestOf(file) && crashed == ParserCrashes(file)
  {
    if file.None? {
      return None, false;
    }
    var parsed := Parse(file.value.0, file.value.1);
    return if parsed.Ok? then Some(parsed.value) else None, parsed.Err? && parsed.error != Malformed;
  }

  /** What the activity may do. */
  ghost predicate MayReturn(r: Outcome, kind: Kind, base: string, tree: Node, file: ManifestFile, digest: Digests) {
    if ParserCrashes(file) then r == Crashed
    else if ManifestOf(file).None? then r == Failed(BadManifest)
    else
      var m := ManifestOf(file).value;
      exists files :: IsPrefixed(kind, m.files, files) && RunsOn(r, kind, base, tree, m.schemaVersion, files, digest)
  }

  /** The verify-manifest activity. */
  method Execute(kind: Kind, base: string, tree: Node, file: ManifestFile, digest: Digests) returns (r: Outcome)
    ensures MayReturn(r, kind, base, tree, file, digest)
  {
    hide ManifestOf, ParserCrashes, RunsOn, IsPrefixed;
    var parsed, crashed := ParseManifest(file);
    if crashed {
      return Crashed;
    }
    if parsed.None? {
      return Failed(BadManifest);
    }
    r := Verify(kind, base, tree, parsed.value, digest);
  }

  /** The rest of it, on a parsed manifest. */
  method Verify(kind: Kind, base: string, tree: Node, m: Manifest, digest: Digests) returns (r: Outcome)
    ensures exists files :: IsPrefixed(kind, m.files, files) && RunsOn(r, kind, base, tree, m.schemaVersion, files, digest)
  {
    hide WalkRoot, FilesFound, IsPrefixed, Uncheckable, NilEntry, Unhashable, MismatchMessage, MissingMessage, UnexpectedMessage,
         ListsSorted, ListsMessages, Mismatches;
    var files := PrefixedFiles(kind, m.files);
    var sipFiles := SipFiles(kind, tree);
    if sipFiles.None? {
      r := Failed(Unreadable);
      assert RunsOn(r, kind, base, tree, m.schemaVersion, files, digest);
      return;
    }
    var found := sipFiles.value;
    var checksums := VerifyChecksums(files, found, digest);
    if checksums.Err? {
      r := if checksums.error == NoEntry then Crashed else Failed(HashFailed);
      assert checksums == Err(NoEntry) || checksums == Err(NoHash);
      assert RunsOn(r, kind, base, tree, m.schemaVersion, files, digest);
      return;
    }
    var missing := Difference(files.Keys, found, p => MissingMessage(base, p));
    var unexpected := Difference(found, files.Keys, p => UnexpectedMessage(base, p));
    var failures := if m.schemaVersion in ALLOWED then [] else ["Unsupported schema version: " + m.schemaVersion];
    r := Reported(Findings(checksums.value, failures, missing, unexpected));
    assert RunsOn(r, kind, base, tree, m.schemaVersion, files, digest);
  }

  /**
    Whatever order the maps and sets are read in, two runs on the same input that report, report the same, unless
    entries of the manifest collide.
  */
  lemma ReportIsDetermined(a: Outcome, b: Outcome, kind: Kind, base: string, tree: Node, file: ManifestFile, digest: Digests)
    requires MayReturn(a, kind, base, tree, file, digest) && MayReturn(b, kind, base, tree, file, digest)
    requires ManifestOf(file).Some? ==> !OrderMatters(kind, ManifestOf(file).value.files)
    ensures a.Reported? <==> b.Reported?
    ensures a.Reported? ==> a == b
  {
    hide ManifestOf, ParserCrashes, RunsOn, IsPrefixed;
    if !ParserCrashes(file) && ManifestOf(file).Some? {
      var m := ManifestOf(file).value;
      var files :| IsPrefixed(kind, m.files, files) && RunsOn(a, kind, base, tree, m.schemaVersion, files, digest);
      var files' :| IsPrefixed(kind, m.files, files') && RunsOn(b, kind, base, tree, m.schemaVersion, files', digest);
      assert files == files';
      SameReport(a, b, kind, base, tree, m.schemaVersion, files, digest);
    }
  }

  lemma SameReport(a: Outcome, b: Outcome, kind: Kind, base: string, tree: Node, version: string, files: map<string, Option<File>>, digest: Digests)
    requires RunsOn(a, kind, base, tree, version, files, digest) && RunsOn(b, kind, base, tree, version, files, digest)
    ensures a.Reported? <==> b.Reported?
    ensures a.Reported? ==> a == b
  {
    hide FilesFound, WalkRoot, Uncheckable, ListsSorted, ListsMessages, MismatchMessage, MissingMessage, UnexpectedMessage, Mismatches, ALLOWED,
         NilEntry, Unhashable;
    if a.Reported? {
      var found := FilesFound(kind, WalkRoot(kind, tree).value);
      var f, g := a.findings, b.findings;
      ListsAreDetermined(f.checksums, g.checksums, Mismatches(files, found, digest), p => MismatchMessage(files, digest, p));
      ListsAreDetermined(f.missing, g.missing, files.Keys - found, p => MissingMessage(base, p));
      ListsAreDetermined(f.unexpected, g.unexpected, found - files.Keys, p => UnexpectedMessage(base, p));
    }
  }

  /** So do all runs on a manifest whose paths are made of names, as those of a package in the expected form are. */
  lemma NamePathsAreReportedOnce(a: Outcome, b: Outcome, kind: Kind, base: string, tree: Node, file: ManifestFile, digest: Digests)
    requires MayReturn(a, kind, base, tree, file, digest) && MayReturn(b, kind, base, tree, file, digest)
    requires ManifestOf(file).Some? ==> NamePaths(ManifestOf(file).value.files)
    ensures a.Reported? <==> b.Reported?
    ensures a.Reported? ==> a == b
  {
    hide MayReturn, ManifestOf, NamePaths, OrderMatters;
    if ManifestOf(file).Some? {
      NamePathsDoNotCollide(kind, ManifestOf(file).value.files);
    }
    ReportIsDetermined(a, b, kind, base, tree, file, digest);
  }

  /** The package is what the manifest says: the same files, each with its declared hash, in a known version. */
  ghost predicate Verified(kind: Kind, tree: Node, version: string, files: map<string, Option<File>>, digest: Digests) {
    && version in ALLOWED
    && (forall at | Names(at) :: RelPath(at) in files <==> IsFile(tree, at) && InScope(kind, at))
    && (forall p :: p in files ==> exists at :: Names(at) && p == RelPath(at))
    && (forall p :: p in files && files[p].Some? ==> digest(p, files[p].value.algorithm) == Some(Lower(files[p].value.hash)))
  }

  lemma SameFilesIff(kind: Kind, tree: Node, files: map<string, Option<File>>)
    requires WellNamed(tree) && WalkRoot(kind, tree).Some?
    ensures files.Keys == FilesFound(kind, WalkRoot(kind, tree).value)
            <==> (forall at | Names(at) :: RelPath(at) in files <==> IsFile(tree, at) && InScope(kind, at))
                 && (forall p :: p in files ==> exists at :: Names(at) && p == RelPath(at))
  {
    var found := FilesFound(kind, WalkRoot(kind, tree).value);
    FoundArePaths(kind, tree);
    forall at | Names(at)
      ensures RelPath(at) in found <==> IsFile(tree, at) && InScope(kind, at)
    {
      ScopeOfWalk(kind, tree, at);
    }
    hide FilesFound, WalkRoot, RelPath, IsFile, InScope, Names, WellNamed;
    if (forall at | Names(at) :: RelPath(at) in files <==> IsFile(tree, at) && InScope(kind, at))
       && (forall p :: p in files ==> exists at :: Names(at) && p == RelPath(at)) {
      forall p
        ensures p in files <==> p in found
      {
        if p in files {
          var at :| Names(at) && p == RelPath(at);
        }
        if p in found {
          var at :| Names(at) && p == RelPath(at);
        }
      }
    }
  }

  lemma NoMismatchesIff(files: map<string, Option<File>>, digest: Digests)
    requires forall p :: !Uncheckable(files, files.Keys, digest, p)
    ensures Mismatches(files, files.Keys, digest) == {}
            <==> forall p :: p in files && files[p].Some? ==> digest(p, files[p].value.algorithm) == Some(Lower(files[p].value.hash))
  {
    hide Lower;
    forall p | p in files
      ensures files[p].Some?
      ensures Mismatch(files, files.Keys, digest, p) <==> digest(p, files[p].value.algorithm) != Some(Lower(files[p].value.hash))
    {
      assert !Uncheckable(files, files.Keys, digest, p);
    }
    hide Uncheckable;
    assert forall p :: p in Mismatches(files, files.Keys, digest) <==> Mismatch(files, files.Keys, digest, p);
    hide Mismatch;
  }

  /** A run without findings means exactly that. */
  lemma NoFindingsIff(f: Findings, kind: Kind, base: string, tree: Node, version: string, files: map<string, Option<File>>, digest: Digests)
    requires WellNamed(tree) && WalkRoot(kind, tree).Some?
    requires Reports(f, base, version, files, FilesFound(kind, WalkRoot(kind, tree).value), digest)
    requires forall p :: !Uncheckable(files, FilesFound(kind, WalkRoot(kind, tree).value), digest, p)
    ensures f == Findings([], [], [], []) <==> Verified(kind, tree, version, files, digest)
  {
    hide FilesFound, WalkRoot, ListsSorted, ListsMessages, MismatchMessage, MissingMessage, UnexpectedMessage, RelPath, IsFile, InScope,
         Names, WellNamed, Lower, Mismatches, Uncheckable, ALLOWED;
    var found := FilesFound(kind, WalkRoot(kind, tree).value);
    EmptyLists(f.checksums, Mismatches(files, found, digest), p => MismatchMessage(files, digest, p));
    EmptyLists(f.missing, files.Keys - found, p => MissingMessage(base, p));
    EmptyLists(f.unexpected, found - files.Keys, p => UnexpectedMessage(base, p));
    SameFilesIff(kind, tree, files);
    assert files.Keys - found == {} && found - files.Keys == {} <==> files.Keys == found;
    if files.Keys == found {
      NoMismatchesIff(files, digest);
    }
  }

  lemma FoundArePaths(kind: Kind, tree: Node)
    requires WellNamed(tree) && WalkRoot(kind, tree).Some?
    ensures forall p :: p in FilesFound(kind, WalkRoot(kind, tree).value) ==> exists at :: Names(at) && p == RelPath(at)
  {
    WalkRootNames(kind, tree);
    forall p | p in FilesFound(kind, WalkRoot(kind, tree).value)
      ensures exists at :: Names(at) && p == RelPath(at)
    {
      var e :| e in WalkRoot(kind, tree).value && RelPath(e.at) == p;
      assert Names(e.at);
    }
  }
}
