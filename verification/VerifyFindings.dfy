/**
  What the findings of the manifest check say of the package: which files they name, and in which words.
*/
module VerifyFindings {
  import opened Wrappers
  import opened Paths
  import opened Sorting
  import opened Manifest
  import opened Sip
  import opened PackageTree
  import opened VerifyManifest

  /** Letters of the alphabet from A to Z are changed, and nothing else. */
  lemma LowerMeans(s: string)
    ensures |Lower(s)| == |s|
    ensures forall i :: 0 <= i < |s| ==>
      if s[i] in "ABCDEFGHIJKLMNOPQRSTUVWXYZ" then Lower(s)[i] == s[i] + 32 as char else Lower(s)[i] == s[i]
    ensures Lower(Lower(s)) == Lower(s)
  {
    forall i | 0 <= i < |s|
      ensures s[i] in "ABCDEFGHIJKLMNOPQRSTUVWXYZ" <==> 'A' <= s[i] <= 'Z'
    {
      Letters(s[i]);
    }
  }

  lemma Letters(c: char)
    ensures c in "ABCDEFGHIJKLMNOPQRSTUVWXYZ" <==> 'A' <= c <= 'Z'
  {
    var letters := "ABCDEFGHIJKLMNOPQRSTUVWXYZ";
    assert |letters| == 26 && forall i :: 0 <= i < 26 ==> letters[i] as int == 65 + i;
    if 'A' <= c <= 'Z' {
      assert letters[c as int - 65] == c;
    }
  }

  /** A file of the package that the check looks at: below "content" in an AIP, and all but the metadata file in a SIP. */
  predicate Checked(kind: Kind, tree: Node, at: Location) {
    && Names(at) && NodeAt(tree, at).Some? && NodeAt(tree, at).value.FileNode?
    && (kind == DigitizedAIP || kind == BornDigitalAIP ==> at != [] && at[0] == "content")
    && (kind == DigitizedSIP || kind == BornDigitalSIP ==> at != ["header", "metadata.xml"])
  }

  lemma CheckedIsFound(kind: Kind, tree: Node, at: Location)
    requires WellNamed(tree) && WalkRoot(kind, tree).Some? && Names(at)
    ensures Checked(kind, tree, at) <==> RelPath(at) in FilesFound(kind, WalkRoot(kind, tree).value)
  {
    ScopeOfWalk(kind, tree, at);
    assert CONTENT == "content" && HEADER == "header" && METADATA_FILE == "metadata.xml";
    hide FilesFound, WalkRoot, NodeAt, WellNamed;
  }

  lemma SortedNames(out: seq<string>, s: set<string>, message: string -> string, m: string)
    requires ListsSorted(out, s, message)
    ensures |out| == |s| && (m in out <==> exists p :: p in s && m == message(p))
  {
    var ps :| NoRepeats(ps) && Sorted(ps, Same) && (forall p :: p in ps <==> p in s) && out == Mapped(ps, message);
    hide Sorted, NoRepeats;
    Counted(ps, s);
    forall i | 0 <= i < |out|
      ensures out[i] == message(ps[i]) && ps[i] in s
    {
      assert ps[i] in ps;
    }
    if p :| p in s && m == message(p) {
      var i :| 0 <= i < |ps| && ps[i] == p;
      assert out[i] == m;
    }
  }

  lemma {:induction false} Counted(ps: seq<string>, s: set<string>)
    requires NoRepeats(ps) && forall p :: p in ps <==> p in s
    ensures |ps| == |s|
    decreases |ps|
  {
    if ps == [] {
      assert s == {};
    } else {
      var init, last := ps[..|ps| - 1], ps[|ps| - 1];
      assert last in ps;
      forall p
        ensures p in init <==> p in s - {last}
      {
        if p in init {
          assert p in ps;
        }
        if p in s - {last} {
          assert p in ps;
        }
      }
      Counted(init, s - {last});
    }
  }

  lemma MessagesName(out: seq<string>, s: set<string>, message: string -> string, m: string)
    requires ListsMessages(out, s, message)
    ensures |out| == |s| && (m in out <==> exists p :: p in s && m == message(p))
  {
    var ps :| NoRepeats(ps) && (forall p :: p in ps <==> p in s) && Sorted(out, Same) && multiset(out) == multiset(Mapped(ps, message));
    hide Sorted;
    var mapped := Mapped(ps, message);
    SameElements(out, mapped);
    assert |out| == |multiset(out)| == |multiset(mapped)| == |ps|;
    Counted(ps, s);
    hide NoRepeats;
    forall i | 0 <= i < |mapped|
      ensures mapped[i] == message(ps[i]) && ps[i] in s
    {
      assert ps[i] in ps;
    }
    if p :| p in s && m == message(p) {
      var i :| 0 <= i < |ps| && ps[i] == p;
      assert mapped[i] == m;
    }
  }

  /** A listed file that the package does not have. */
  ghost predicate IsMissing(kind: Kind, tree: Node, files: map<string, Option<File>>, p: string) {
    p in files && forall at :: Checked(kind, tree, at) ==> p != RelPath(at)
  }

  /** A file of the package that is not listed. */
  ghost predicate IsUnexpected(kind: Kind, tree: Node, files: map<string, Option<File>>, p: string) {
    p !in files && exists at :: Checked(kind, tree, at) && p == RelPath(at)
  }

  /** A listed file of the package whose hash is not the declared one in lower case. */
  ghost predicate HasWrongHash(kind: Kind, tree: Node, files: map<string, Option<File>>, digest: Digests, p: string, message: string) {
    && (exists at :: Checked(kind, tree, at) && p == RelPath(at))
    && p in files && files[p].Some?
    && exists got :: && digest(p, files[p].value.algorithm) == Some(got) && got != Lower(files[p].value.hash)
                     && message == "Checksum mismatch for " + p + " (expected: " + files[p].value.hash + ", got: " + got + ")"
  }

  lemma FoundIff(kind: Kind, tree: Node, p: string)
    requires WellNamed(tree) && WalkRoot(kind, tree).Some?
    ensures p in FilesFound(kind, WalkRoot(kind, tree).value) <==> exists at :: Checked(kind, tree, at) && p == RelPath(at)
  {
    hide FilesFound, WalkRoot, WellNamed, NodeAt, RelPath;
    FoundArePaths(kind, tree);
    if p in FilesFound(kind, WalkRoot(kind, tree).value) {
      var at :| Names(at) && p == RelPath(at);
      CheckedIsFound(kind, tree, at);
    }
    if at :| Checked(kind, tree, at) && p == RelPath(at) {
      CheckedIsFound(kind, tree, at);
    }
  }

  lemma WrongHashIff(kind: Kind, tree: Node, files: map<string, Option<File>>, digest: Digests, p: string, m: string)
    requires WellNamed(tree) && WalkRoot(kind, tree).Some?
    ensures p in Mismatches(files, FilesFound(kind, WalkRoot(kind, tree).value), digest) && m == MismatchMessage(files, digest, p)
            <==> HasWrongHash(kind, tree, files, digest, p, m)
  {
    FoundIff(kind, tree, p);
    hide FilesFound, WalkRoot, WellNamed, Checked, Lower;
  }

  /** The three lists name exactly the files that are missing, not listed, or have another hash. */
  lemma FindingsMean(f: Findings, kind: Kind, base: string, tree: Node, version: string, files: map<string, Option<File>>, digest: Digests)
    requires WellNamed(tree) && RunsOn(Reported(f), kind, base, tree, version, files, digest)
    ensures forall m :: m in f.missing <==> exists p :: IsMissing(kind, tree, files, p) && m == "Missing file: " + Join([base, p])
    ensures forall m :: m in f.unexpected <==> exists p :: IsUnexpected(kind, tree, files, p) && m == "Unexpected file: " + Join([base, p])
    ensures forall m :: m in f.checksums <==> exists p :: HasWrongHash(kind, tree, files, digest, p, m)
    ensures f.manifest == if version == "4.0" || version == "5.0" then [] else ["Unsupported schema version: " + version]
  {
    hide FilesFound, WalkRoot, WellNamed, Uncheckable, ListsSorted, ListsMessages, Checked, Mismatches, MismatchMessage, Join;
    var found := FilesFound(kind, WalkRoot(kind, tree).value);
    forall p
      ensures p in files.Keys - found <==> IsMissing(kind, tree, files, p)
      ensures p in found - files.Keys <==> IsUnexpected(kind, tree, files, p)
    {
      FoundIff(kind, tree, p);
    }
    hide IsMissing, IsUnexpected, HasWrongHash;
    forall m
      ensures m in f.missing <==> exists p :: IsMissing(kind, tree, files, p) && m == "Missing file: " + Join([base, p])
    {
      SortedNames(f.missing, files.Keys - found, p => MissingMessage(base, p), m);
    }
    forall m
      ensures m in f.unexpected <==> exists p :: IsUnexpected(kind, tree, files, p) && m == "Unexpected file: " + Join([base, p])
    {
      SortedNames(f.unexpected, found - files.Keys, p => UnexpectedMessage(base, p), m);
    }
    forall m
      ensures m in f.checksums <==> exists p :: HasWrongHash(kind, tree, files, digest, p, m)
    {
      MessagesName(f.checksums, Mismatches(files, found, digest), p => MismatchMessage(files, digest, p), m);
      forall p
        ensures p in Mismatches(files, found, digest) && m == MismatchMessage(files, digest, p) <==> HasWrongHash(kind, tree, files, digest, p, m)
      {
        WrongHashIff(kind, tree, files, digest, p, m);
      }
    }
  }
}
