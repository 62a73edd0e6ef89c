/**
  When the report of the manifest check depends on the order in which a map is read
  (internal/activities/verify_manifest.go, getManifest): exactly, for a package and its hashes, and for any.
*/
module MapOrder {
  import opened Wrappers
  import opened Paths
  import opened Sorting
  import opened Manifest
  import opened Sip
  import opened PackageTree
  import opened ValidateStructure
  import opened VerifyManifest

  // What the check makes of one file

  datatype Verdict = Fine | Bad(message: string) | NoVerdict

  function VerdictOn(p: string, f: Option<File>, digest: Digests): Verdict {
    if f.None? then NoVerdict
    else
      var got := digest(p, f.value.algorithm);
      if got.None? then NoVerdict
      else if got.value == Lower(f.value.hash) then Fine
      else Bad(MismatchMessage(map[p := f], digest, p))
  }

  lemma VerdictMeans(files: map<string, Option<File>>, found: set<string>, digest: Digests, p: string)
    requires p in files && p in found
    ensures Uncheckable(files, found, digest, p) <==> VerdictOn(p, files[p], digest) == NoVerdict
    ensures Mismatch(files, found, digest, p) <==> VerdictOn(p, files[p], digest).Bad?
    ensures VerdictOn(p, files[p], digest).Bad? ==> MismatchMessage(files, digest, p) == VerdictOn(p, files[p], digest).message
  {
    hide Lower;
  }

  // What the prefix loop may make of a path

  /** Some entry of the manifest gets the path, and has the file. */
  predicate Candidate(kind: Kind, files: map<string, Option<File>>, q: string, f: Option<File>) {
    if IsAIP(kind) then exists k :: k in files && Join([CONTENT, k]) == q && files[k] == f else q in files && files[q] == f
  }

  function PrefixedPaths(kind: Kind, files: map<string, Option<File>>): set<string> {
    if IsAIP(kind) then set k | k in files :: Join([CONTENT, k]) else files.Keys
  }

  lemma PrefixedIff(kind: Kind, files: map<string, Option<File>>, out: map<string, Option<File>>)
    ensures IsPrefixed(kind, files, out)
            <==> out.Keys == PrefixedPaths(kind, files) && forall q :: q in out ==> Candidate(kind, files, q, out[q])
  {
    hide Join;
    if IsAIP(kind) {
      if IsPrefixed(kind, files, out) {
        forall q | q in out
          ensures q in PrefixedPaths(kind, files) && Candidate(kind, files, q, out[q])
        {
          var k :| k in files && Join([CONTENT, k]) == q && out[q] == files[k];
        }
      }
      if out.Keys == PrefixedPaths(kind, files) && forall q :: q in out ==> Candidate(kind, files, q, out[q]) {
        forall q | q in out
          ensures exists k :: k in files && Join([CONTENT, k]) == q && out[q] == files[k]
        {
          assert Candidate(kind, files, q, out[q]);
        }
      }
    } else {
      if out.Keys == files.Keys && forall q :: q in out ==> Candidate(kind, files, q, out[q]) {
        assert out == files;
      }
    }
  }

  lemma HasCandidate(kind: Kind, files: map<string, Option<File>>, q: string)
    requires q in PrefixedPaths(kind, files)
    ensures exists f :: Candidate(kind, files, q, f)
  {
    hide Join;
    if IsAIP(kind) {
      var k :| k in files && Join([CONTENT, k]) == q;
      assert Candidate(kind, files, q, files[k]);
    } else {
      assert Candidate(kind, files, q, files[q]);
    }
  }

  lemma CandidatesAreListed(kind: Kind, files: map<string, Option<File>>, q: string, f: Option<File>)
    requires Candidate(kind, files, q, f)
    ensures q in PrefixedPaths(kind, files)
  {
    hide Join;
  }

  // Runs

  /** What a run on the manifest may end in. */
  ghost predicate Run(r: Outcome, kind: Kind, base: string, tree: Node, m: Manifest, digest: Digests) {
    exists files :: IsPrefixed(kind, m.files, files) && RunsOn(r, kind, base, tree, m.schemaVersion, files, digest)
  }

  /** One run reports, and another one ends differently. */
  ghost predicate OutcomesDiffer(kind: Kind, base: string, tree: Node, m: Manifest, digest: Digests) {
    exists a, b :: Run(a, kind, base, tree, m, digest) && Run(b, kind, base, tree, m, digest) && a.Reported? && a != b
  }

  /** Two runs report, and their reports differ. */
  ghost predicate ReportsDiffer(kind: Kind, base: string, tree: Node, m: Manifest, digest: Digests) {
    exists a, b :: Run(a, kind, base, tree, m, digest) && Run(b, kind, base, tree, m, digest) && a.Reported? && b.Reported? && a != b
  }

  /** Some run reports: each file that is found and listed has an entry to compare it with. */
  ghost predicate EachCheckable(kind: Kind, found: set<string>, files: map<string, Option<File>>, digest: Digests) {
    forall q :: q in found && q in PrefixedPaths(kind, files) ==> HasVerdict(kind, files, digest, q)
  }

  ghost predicate HasVerdict(kind: Kind, files: map<string, Option<File>>, digest: Digests, q: string) {
    exists f :: Candidate(kind, files, q, f) && VerdictOn(q, f, digest) != NoVerdict
  }

  /** Two entries that get the path of a file that is found, with different verdicts. */
  ghost predicate Ambiguous(kind: Kind, found: set<string>, files: map<string, Option<File>>, digest: Digests,
                            q: string, f: Option<File>, g: Option<File>) {
    && q in found && Candidate(kind, files, q, f) && Candidate(kind, files, q, g)
    && VerdictOn(q, f, digest) != VerdictOn(q, g, digest)
  }

  // Every prefixed map has a run

  lemma {:induction false} AsList(s: set<string>) returns (ps: seq<string>)
    ensures NoRepeats(ps) && forall p :: p in ps <==> p in s
    decreases s
  {
    if s == {} {
      ps := [];
    } else {
      var p :| p in s;
      var rest := AsList(s - {p});
      ps := [p] + rest;
    }
  }

  lemma {:induction false} SortedList(xs: seq<string>) returns (ys: seq<string>)
    ensures Sorted(ys, Same) && multiset(ys) == multiset(xs)
    decreases |xs|
  {
    if xs == [] {
      ys := [];
    } else {
      var rest := SortedList(xs[1..]);
      ys := Inserted(xs[0], rest, Same);
      assert xs == [xs[0]] + xs[1..];
    }
  }

  lemma SomeSorted(s: set<string>, message: string -> string) returns (out: seq<string>)
    ensures ListsSorted(out, s, message)
  {
    var ps := AsList(s);
    var qs := SortedList(ps);
    SameElements(ps, qs);
    RearrangedHasNoRepeats(ps, qs);
    out := Mapped(qs, message);
  }

  lemma SomeMessages(s: set<string>, message: string -> string) returns (out: seq<string>)
    ensures ListsMessages(out, s, message)
  {
    var ps := AsList(s);
    out := SortedList(Mapped(ps, message));
  }

  lemma SomeReport(base: string, version: string, files: map<string, Option<File>>, found: set<string>, digest: Digests) returns (f: Findings)
    ensures Reports(f, base, version, files, found, digest)
  {
    hide ListsSorted, ListsMessages, Mismatches, MismatchMessage, MissingMessage, UnexpectedMessage, ALLOWED;
    var checksums := SomeMessages(Mismatches(files, found, digest), p => MismatchMessage(files, digest, p));
    var missing := SomeSorted(files.Keys - found, p => MissingMessage(base, p));
    var unexpected := SomeSorted(found - files.Keys, p => UnexpectedMessage(base, p));
    f := Findings(checksums, if version in ALLOWED then [] else ["Unsupported schema version: " + version], missing, unexpected);
  }

  lemma SomeOutcome(kind: Kind, base: string, tree: Node, version: string, files: map<string, Option<File>>, digest: Digests) returns (r: Outcome)
    ensures RunsOn(r, kind, base, tree, version, files, digest)
  {
    hide FilesFound, WalkRoot, Reports;
    if WalkRoot(kind, tree).None? {
      r := Failed(Unreadable);
    } else {
      var found := FilesFound(kind, WalkRoot(kind, tree).value);
      if p :| NilEntry(files, found, p) {
        assert Uncheckable(files, found, digest, p);
        r := Crashed;
      } else if p :| Unhashable(files, found, digest, p) {
        assert Uncheckable(files, found, digest, p);
        r := Failed(HashFailed);
      } else {
        var f := SomeReport(base, version, files, found, digest);
        assert forall p :: Uncheckable(files, found, digest, p) ==> NilEntry(files, found, p) || Unhashable(files, found, digest, p);
        r := Reported(f);
      }
    }
  }

  // Runs without an ambiguous path end alike

  lemma SameMapped(ps: seq<string>, a: string -> string, b: string -> string)
    requires forall p :: p in ps ==> a(p) == b(p)
    ensures Mapped(ps, a) == Mapped(ps, b)
  {
    assert forall i :: 0 <= i < |ps| ==> ps[i] in ps;
  }

  lemma OtherMessages(out: seq<string>, s: set<string>, a: string -> string, b: string -> string)
    requires ListsMessages(out, s, a) && forall p :: p in s ==> a(p) == b(p)
    ensures ListsMessages(out, s, b)
  {
    var ps :| NoRepeats(ps) && (forall p :: p in ps <==> p in s) && Sorted(out, Same) && multiset(out) == multiset(Mapped(ps, a));
    SameMapped(ps, a, b);
  }

  /** The verdicts on the files found decide the report. */
  lemma SameVerdicts(a: Outcome, b: Outcome, kind: Kind, base: string, tree: Node, version: string,
                     files: map<string, Option<File>>, other: map<string, Option<File>>, digest: Digests)
    requires WalkRoot(kind, tree).Some? && files.Keys == other.Keys
    requires RunsOn(a, kind, base, tree, version, files, digest) && RunsOn(b, kind, base, tree, version, other, digest) && a.Reported?
    requires forall q :: q in FilesFound(kind, WalkRoot(kind, tree).value) && q in files ==>
      VerdictOn(q, files[q], digest) == VerdictOn(q, other[q], digest)
    ensures a == b
  {
    var found := FilesFound(kind, WalkRoot(kind, tree).value);
    forall p | p in files && p in found
      ensures Uncheckable(files, found, digest, p) <==> Uncheckable(other, found, digest, p)
      ensures Mismatch(files, found, digest, p) <==> Mismatch(other, found, digest, p)
      ensures Mismatch(files, found, digest, p) ==> MismatchMessage(files, digest, p) == MismatchMessage(other, digest, p)
    {
      VerdictMeans(files, found, digest, p);
      VerdictMeans(other, found, digest, p);
    }
    assert forall p :: Uncheckable(other, found, digest, p) ==> Uncheckable(files, found, digest, p);
    assert b.Reported?;
    assert Mismatches(files, found, digest) == Mismatches(other, found, digest);
    var s := Mismatches(files, found, digest);
    var f, g := a.findings, b.findings;
    var m, m' := p => MismatchMessage(files, digest, p), p => MismatchMessage(other, digest, p);
    hide FilesFound, WalkRoot, Uncheckable, ListsSorted, ListsMessages, MismatchMessage, MissingMessage, UnexpectedMessage, Mismatches, ALLOWED,
         VerdictOn;
    OtherMessages(g.checksums, s, m', m);
    ListsAreDetermined(f.checksums, g.checksums, s, m);
    ListsAreDetermined(f.missing, g.missing, files.Keys - found, p => MissingMessage(base, p));
    ListsAreDetermined(f.unexpected, g.unexpected, found - files.Keys, p => UnexpectedMessage(base, p));
  }

  // Runs with one do not

  ghost function Picked(kind: Kind, files: map<string, Option<File>>, digest: Digests, q: string): (f: Option<File>)
    requires q in PrefixedPaths(kind, files)
    ensures Candidate(kind, files, q, f)
    ensures HasVerdict(kind, files, digest, q) ==> VerdictOn(q, f, digest) != NoVerdict
  {
    HasCandidate(kind, files, q);
    if HasVerdict(kind, files, digest, q) then
      var f :| Candidate(kind, files, q, f) && VerdictOn(q, f, digest) != NoVerdict; f
    else
      var f :| Candidate(kind, files, q, f); f
  }

  ghost function PickedMap(kind: Kind, files: map<string, Option<File>>, digest: Digests): map<string, Option<File>> {
    map q | q in PrefixedPaths(kind, files) :: Picked(kind, files, digest, q)
  }

  /** A prefixed map with a given entry at one path, and checkable entries elsewhere. */
  lemma PickedIsPrefixed(kind: Kind, files: map<string, Option<File>>, digest: Digests, q: string, f: Option<File>)
    requires Candidate(kind, files, q, f)
    ensures IsPrefixed(kind, files, PickedMap(kind, files, digest)[q := f])
  {
    CandidatesAreListed(kind, files, q, f);
    PrefixedIff(kind, files, PickedMap(kind, files, digest)[q := f]);
    hide Candidate, PrefixedPaths, IsPrefixed, VerdictOn, HasVerdict;
  }

  /** The messages of a list, apart from that of one path. */
  lemma WithoutOne(out: seq<string>, s: set<string>, message: string -> string, q: string) returns (ps: seq<string>)
    requires ListsMessages(out, s, message)
    ensures NoRepeats(ps) && forall p :: p in ps <==> p in s - {q}
    ensures multiset(out) == multiset(Mapped(ps, message)) + if q in s then multiset{message(q)} else multiset{}
  {
    ps :| NoRepeats(ps) && (forall p :: p in ps <==> p in s) && Sorted(out, Same) && multiset(out) == multiset(Mapped(ps, message));
    if q in s {
      var i :| 0 <= i < |ps| && ps[i] == q;
      MappedAround(ps, i, message);
      RemovedOnce(ps, i);
      ps := RemovedAt(ps, i);
    }
  }

  lemma RemovedOnce(ps: seq<string>, i: nat)
    requires NoRepeats(ps) && i < |ps|
    ensures NoRepeats(RemovedAt(ps, i)) && forall p :: p in RemovedAt(ps, i) <==> p in ps && p != ps[i]
  {
    var rest := RemovedAt(ps, i);
    assert forall j :: 0 <= j < |rest| ==> rest[j] == ps[if j < i then j else j + 1];
    forall p | p in ps && p != ps[i]
      ensures p in rest
    {
      var j :| 0 <= j < |ps| && ps[j] == p;
      assert rest[if j < i then j else j - 1] == p;
    }
  }

  /** Lists of messages that differ for one path only are different. */
  lemma ListsDiffer(out: seq<string>, out': seq<string>, s: set<string>, s': set<string>, a: string -> string, b: string -> string, q: string)
    requires ListsMessages(out, s, a) && ListsMessages(out', s', b)
    requires s - {q} == s' - {q} && forall p :: p in s - {q} ==> a(p) == b(p)
    requires (q in s && q !in s') || (q !in s && q in s') || (q in s && q in s' && a(q) != b(q))
    ensures out != out'
  {
    hide ListsMessages, Mapped, NoRepeats;
    var ps := WithoutOne(out, s, a, q);
    var qs := WithoutOne(out', s', b, q);
    SameSetSameMultiset(ps, qs);
    MappedRearranged(ps, qs, a);
    SameMapped(qs, a, b);
    Apart(multiset(Mapped(qs, b)), a(q), b(q));
  }

  lemma Apart(m: multiset<string>, x: string, y: string)
    ensures m + multiset{x} != m + multiset{} && (x != y ==> m + multiset{x} != m + multiset{y})
  {
    assert (m + multiset{x})[x] == m[x] + 1 && (m + multiset{})[x] == m[x];
    assert x != y ==> (m + multiset{y})[x] == m[x];
  }

  /** The verdicts of a prefixed map made from checkable entries, with `f` at `q`. */
  lemma PickedVerdicts(kind: Kind, files: map<string, Option<File>>, found: set<string>, digest: Digests, q: string, f: Option<File>)
    requires EachCheckable(kind, found, files, digest) && Candidate(kind, files, q, f) && q in found
    ensures var out := PickedMap(kind, files, digest)[q := f];
            && out.Keys == PrefixedPaths(kind, files) && out[q] == f
            && (forall p :: Uncheckable(out, found, digest, p) ==> p == q && VerdictOn(q, f, digest) == NoVerdict)
            && (VerdictOn(q, f, digest) == NoVerdict ==> Uncheckable(out, found, digest, q))
  {
    CandidatesAreListed(kind, files, q, f);
    var out := PickedMap(kind, files, digest)[q := f];
    hide Candidate, PrefixedPaths, VerdictOn, HasVerdict;
    forall p | p in out && p in found
      ensures Uncheckable(out, found, digest, p) <==> VerdictOn(p, out[p], digest) == NoVerdict
      ensures p != q ==> VerdictOn(p, out[p], digest) != NoVerdict
    {
      VerdictMeans(out, found, digest, p);
      if p != q {
        assert HasVerdict(kind, files, digest, p);
      }
    }
  }

  lemma MessagesDiffer(files: map<string, Option<File>>, found: set<string>, digest: Digests, q: string, f: Option<File>, g: Option<File>,
                       out: seq<string>, out': seq<string>)
    requires q in found && VerdictOn(q, f, digest) != NoVerdict && VerdictOn(q, g, digest) != NoVerdict
    requires VerdictOn(q, f, digest) != VerdictOn(q, g, digest)
    requires var a := files[q := f]; ListsMessages(out, Mismatches(a, found, digest), p => MismatchMessage(a, digest, p))
    requires var b := files[q := g]; ListsMessages(out', Mismatches(b, found, digest), p => MismatchMessage(b, digest, p))
    ensures out != out'
  {
    var a, b := files[q := f], files[q := g];
    VerdictMeans(a, found, digest, q);
    VerdictMeans(b, found, digest, q);
    var s, s' := Mismatches(a, found, digest), Mismatches(b, found, digest);
    assert s - {q} == s' - {q};
    assert forall p :: p in s - {q} ==> MismatchMessage(a, digest, p) == MismatchMessage(b, digest, p);
    assert q in s <==> VerdictOn(q, f, digest).Bad?;
    assert q in s' <==> VerdictOn(q, g, digest).Bad?;
    hide Mismatches, MismatchMessage, VerdictOn, ListsMessages;
    ListsDiffer(out, out', s, s', p => MismatchMessage(a, digest, p), p => MismatchMessage(b, digest, p), q);
  }

  lemma DifferAt(kind: Kind, base: string, tree: Node, m: Manifest, digest: Digests, q: string, f: Option<File>, g: Option<File>)
    returns (a: Outcome, b: Outcome)
    requires WalkRoot(kind, tree).Some?
    requires var found := FilesFound(kind, WalkRoot(kind, tree).value);
             EachCheckable(kind, found, m.files, digest) && Ambiguous(kind, found, m.files, digest, q, f, g)
    requires VerdictOn(q, f, digest) != NoVerdict
    ensures Run(a, kind, base, tree, m, digest) && Run(b, kind, base, tree, m, digest) && a.Reported? && a != b
    ensures VerdictOn(q, g, digest) != NoVerdict ==> b.Reported?
  {
    var found, version := FilesFound(kind, WalkRoot(kind, tree).value), m.schemaVersion;
    var picked := PickedMap(kind, m.files, digest);
    var A, B := picked[q := f], picked[q := g];
    hide FilesFound, WalkRoot, Candidate, PrefixedPaths, VerdictOn, IsPrefixed, PickedMap, EachCheckable, Uncheckable, MismatchMessage,
         Mismatches, ListsMessages, ListsSorted;
    PickedIsPrefixed(kind, m.files, digest, q, f);
    PickedIsPrefixed(kind, m.files, digest, q, g);
    PickedVerdicts(kind, m.files, found, digest, q, f);
    PickedVerdicts(kind, m.files, found, digest, q, g);
    a := SomeOutcome(kind, base, tree, version, A, digest);
    b := SomeOutcome(kind, base, tree, version, B, digest);
    assert a.Reported?;
    if VerdictOn(q, g, digest) != NoVerdict {
      assert b.Reported?;
      MessagesDiffer(picked, found, digest, q, f, g, a.findings.checksums, b.findings.checksums);
    }
  }

  /** A run that reports has a verdict on each file. */
  lemma ReportedHasVerdicts(r: Outcome, kind: Kind, base: string, tree: Node, version: string, files: map<string, Option<File>>, digest: Digests)
    requires RunsOn(r, kind, base, tree, version, files, digest) && r.Reported?
    ensures WalkRoot(kind, tree).Some?
    ensures forall p :: p in files && p in FilesFound(kind, WalkRoot(kind, tree).value) ==> VerdictOn(p, files[p], digest) != NoVerdict
  {
    hide FilesFound, WalkRoot, VerdictOn, Uncheckable, Reports;
    var found := FilesFound(kind, WalkRoot(kind, tree).value);
    forall p | p in files && p in found
      ensures VerdictOn(p, files[p], digest) != NoVerdict
    {
      VerdictMeans(files, found, digest, p);
    }
  }

  lemma VerdictsEverywhere(kind: Kind, found: set<string>, files: map<string, Option<File>>, out: map<string, Option<File>>, digest: Digests)
    requires out.Keys == PrefixedPaths(kind, files) && forall q :: q in out ==> Candidate(kind, files, q, out[q])
    requires forall p :: p in out && p in found ==> VerdictOn(p, out[p], digest) != NoVerdict
    ensures EachCheckable(kind, found, files, digest)
  {
    hide Candidate, PrefixedPaths, VerdictOn;
    forall p | p in found && p in PrefixedPaths(kind, files)
      ensures HasVerdict(kind, files, digest, p)
    {
      assert Candidate(kind, files, p, out[p]);
    }
  }

  lemma IsAmbiguous(kind: Kind, found: set<string>, files: map<string, Option<File>>, digest: Digests, q: string, f: Option<File>, g: Option<File>)
    requires q in found && Candidate(kind, files, q, f) && Candidate(kind, files, q, g) && VerdictOn(q, f, digest) != VerdictOn(q, g, digest)
    ensures Ambiguous(kind, found, files, digest, q, f, g)
  {
    hide Candidate, VerdictOn;
  }

  lemma MapOfRun(r: Outcome, kind: Kind, base: string, tree: Node, m: Manifest, digest: Digests) returns (files: map<string, Option<File>>)
    requires Run(r, kind, base, tree, m, digest)
    ensures IsPrefixed(kind, m.files, files) && RunsOn(r, kind, base, tree, m.schemaVersion, files, digest)
  {
    hide IsPrefixed, RunsOn;
    files :| IsPrefixed(kind, m.files, files) && RunsOn(r, kind, base, tree, m.schemaVersion, files, digest);
  }

  /** Two prefixed maps whose runs differ have different verdicts somewhere. */
  lemma DifferSomewhere(a: Outcome, b: Outcome, kind: Kind, base: string, tree: Node, m: Manifest, digest: Digests)
    returns (q: string, f: Option<File>, g: Option<File>)
    requires Run(a, kind, base, tree, m, digest) && Run(b, kind, base, tree, m, digest) && a.Reported? && a != b
    ensures WalkRoot(kind, tree).Some?
    ensures var found := FilesFound(kind, WalkRoot(kind, tree).value);
            EachCheckable(kind, found, m.files, digest) && Ambiguous(kind, found, m.files, digest, q, f, g)
    ensures VerdictOn(q, f, digest) != NoVerdict && (b.Reported? ==> VerdictOn(q, g, digest) != NoVerdict)
  {
    hide *;
    var version := m.schemaVersion;
    var A := MapOfRun(a, kind, base, tree, m, digest);
    var B := MapOfRun(b, kind, base, tree, m, digest);
    PrefixedIff(kind, m.files, A);
    PrefixedIff(kind, m.files, B);
    ReportedHasVerdicts(a, kind, base, tree, version, A, digest);
    var found := FilesFound(kind, WalkRoot(kind, tree).value);
    VerdictsEverywhere(kind, found, m.files, A, digest);
    if b.Reported? {
      ReportedHasVerdicts(b, kind, base, tree, version, B, digest);
    }
    if forall p :: p in found && p in A ==> VerdictOn(p, A[p], digest) == VerdictOn(p, B[p], digest) {
      SameVerdicts(a, b, kind, base, tree, version, A, B, digest);
      assert false;
    } else {
      q :| q in found && q in A && VerdictOn(q, A[q], digest) != VerdictOn(q, B[q], digest);
      f, g := A[q], B[q];
      IsAmbiguous(kind, found, m.files, digest, q, f, g);
    }
  }

  /** Somewhere, entries with different verdicts get the path of a file that is found. */
  ghost predicate SomeAmbiguous(kind: Kind, found: set<string>, files: map<string, Option<File>>, digest: Digests) {
    exists q, f, g :: Ambiguous(kind, found, files, digest, q, f, g)
  }

  ghost predicate WithVerdicts(digest: Digests, q: string, f: Option<File>, g: Option<File>) {
    VerdictOn(q, f, digest) != NoVerdict && VerdictOn(q, g, digest) != NoVerdict
  }

  /** And neither of them is missing or cannot be hashed. */
  ghost predicate SomeDisagreement(kind: Kind, found: set<string>, files: map<string, Option<File>>, digest: Digests) {
    exists q, f, g :: Ambiguous(kind, found, files, digest, q, f, g) && WithVerdicts(digest, q, f, g)
  }

  lemma SomeDiffer(kind: Kind, base: string, tree: Node, m: Manifest, digest: Digests)
    requires WalkRoot(kind, tree).Some?
    requires var found := FilesFound(kind, WalkRoot(kind, tree).value);
             EachCheckable(kind, found, m.files, digest) && SomeAmbiguous(kind, found, m.files, digest)
    ensures OutcomesDiffer(kind, base, tree, m, digest)
    ensures SomeDisagreement(kind, FilesFound(kind, WalkRoot(kind, tree).value), m.files, digest) ==> ReportsDiffer(kind, base, tree, m, digest)
  {
    hide FilesFound, WalkRoot, Candidate, VerdictOn, EachCheckable, Run;
    var found := FilesFound(kind, WalkRoot(kind, tree).value);
    var q, f, g :| Ambiguous(kind, found, m.files, digest, q, f, g);
    if VerdictOn(q, f, digest) != NoVerdict {
      var a, b := DifferAt(kind, base, tree, m, digest, q, f, g);
    } else {
      var a, b := DifferAt(kind, base, tree, m, digest, q, g, f);
    }
    if q, f, g :| Ambiguous(kind, found, m.files, digest, q, f, g) && WithVerdicts(digest, q, f, g) {
      var a, b := DifferAt(kind, base, tree, m, digest, q, f, g);
    }
  }

  lemma IfTheyDiffer(a: Outcome, b: Outcome, kind: Kind, base: string, tree: Node, m: Manifest, digest: Digests)
    requires Run(a, kind, base, tree, m, digest) && Run(b, kind, base, tree, m, digest) && a.Reported? && a != b
    ensures WalkRoot(kind, tree).Some?
    ensures var found := FilesFound(kind, WalkRoot(kind, tree).value);
            && EachCheckable(kind, found, m.files, digest) && SomeAmbiguous(kind, found, m.files, digest)
            && (b.Reported? ==> SomeDisagreement(kind, found, m.files, digest))
  {
    hide FilesFound, WalkRoot, Ambiguous, VerdictOn, EachCheckable, Run;
    var q, f, g := DifferSomewhere(a, b, kind, base, tree, m, digest);
    if b.Reported? {
      assert WithVerdicts(digest, q, f, g);
    }
  }

  /**
    For a package, a manifest and hashes: whether a run that reports could have ended differently, with another order
    of the map, and whether it could have reported something else.
  */
  lemma OrderDecidesIff(kind: Kind, base: string, tree: Node, m: Manifest, digest: Digests)
    ensures OutcomesDiffer(kind, base, tree, m, digest)
            <==> WalkRoot(kind, tree).Some? &&
                 var found := FilesFound(kind, WalkRoot(kind, tree).value);
                 EachCheckable(kind, found, m.files, digest) && SomeAmbiguous(kind, found, m.files, digest)
    ensures ReportsDiffer(kind, base, tree, m, digest)
            <==> WalkRoot(kind, tree).Some? &&
                 var found := FilesFound(kind, WalkRoot(kind, tree).value);
                 EachCheckable(kind, found, m.files, digest) && SomeDisagreement(kind, found, m.files, digest)
  {
    hide FilesFound, WalkRoot, Ambiguous, WithVerdicts, EachCheckable, Run;
    if a, b :| Run(a, kind, base, tree, m, digest) && Run(b, kind, base, tree, m, digest) && a.Reported? && a != b {
      IfTheyDiffer(a, b, kind, base, tree, m, digest);
    }
    if a, b :| Run(a, kind, base, tree, m, digest) && Run(b, kind, base, tree, m, digest) && a.Reported? && b.Reported? && a != b {
      IfTheyDiffer(a, b, kind, base, tree, m, digest);
    }
    if WalkRoot(kind, tree).Some? {
      var found := FilesFound(kind, WalkRoot(kind, tree).value);
      if EachCheckable(kind, found, m.files, digest) && SomeAmbiguous(kind, found, m.files, digest) {
        SomeDiffer(kind, base, tree, m, digest);
      }
    }
  }

  // For any package and any hashes

  /** What the check looks at: the algorithm and the hash, but not the identifier. */
  function Checked(f: Option<File>): Option<(string, string)> {
    if f.None? then None else Some((f.value.algorithm, f.value.hash))
  }

  /** Two entries get the same path, and it is one that a file below "content" can have. */
  ghost predicate CollideAt(files: map<string, Option<File>>, k: string, l: string, at: Location) {
    && k in files && l in files && Join([CONTENT, k]) == Slashed(at) && Join([CONTENT, l]) == Slashed(at)
    && at != [] && at[0] == CONTENT && Names(at)
  }

  ghost predicate SomeCollision(files: map<string, Option<File>>) {
    exists k, l, at :: CollideAt(files, k, l, at) && Checked(files[k]) != Checked(files[l])
  }

  ghost predicate SomeFullCollision(files: map<string, Option<File>>) {
    exists k, l, at :: CollideAt(files, k, l, at) && Checked(files[k]) != Checked(files[l]) && files[k].Some? && files[l].Some?
  }

  lemma VerdictIsOnChecked(p: string, f: Option<File>, g: Option<File>, digest: Digests)
    requires Checked(f) == Checked(g)
    ensures VerdictOn(p, f, digest) == VerdictOn(p, g, digest)
  {
    hide Lower;
  }

  /** Where an ambiguous path is, and whose entries those are. */
  lemma AmbiguousCollides(kind: Kind, tree: Node, files: map<string, Option<File>>, digest: Digests, q: string, f: Option<File>, g: Option<File>)
    requires WellNamed(tree) && WalkRoot(kind, tree).Some?
    requires Ambiguous(kind, FilesFound(kind, WalkRoot(kind, tree).value), files, digest, q, f, g)
    ensures IsAIP(kind) && SomeCollision(files)
    ensures f.Some? && g.Some? ==> SomeFullCollision(files)
  {
    if Checked(f) == Checked(g) {
      VerdictIsOnChecked(q, f, g, digest);
      assert false;
    }
    FoundArePaths(kind, tree);
    var at :| Names(at) && q == RelPath(at);
    ScopeOfWalk(kind, tree, at);
    hide FilesFound, WalkRoot, WellNamed, VerdictOn, Join, Names, Slashed, IsFile;
    if IsAIP(kind) {
      var k :| k in files && Join([CONTENT, k]) == q && files[k] == f;
      var l :| l in files && Join([CONTENT, l]) == q && files[l] == g;
      assert CollideAt(files, k, l, at);
    }
  }

  // A package with one file, and hashes that tell two entries apart

  function Chain(at: Location): Node
    requires at != []
  {
    if |at| == 1 then FileNode(at[0]) else DirNode(at[0], [Chain(at[1..])])
  }

  function OneFile(at: Location): Node
    requires at != []
  {
    DirNode("", [Chain(at)])
  }

  lemma {:induction false} ChainIsWellNamed(at: Location)
    requires at != [] && Names(at)
    ensures WellNamed(Chain(at)) && Chain(at).name == at[0]
    decreases |at|
  {
    if |at| > 1 {
      ChainIsWellNamed(at[1..]);
      assert [Chain(at[1..])][1..] == [];
    }
  }

  lemma {:induction false} FilesOfChain(at: Location, r: Location)
    requires at != []
    ensures IsFile(Chain(at), r) <==> r == at[1..]
    decreases |at|
  {
    if |at| > 1 && r != [] {
      InOnly(at[0], Chain(at[1..]), r);
      FilesOfChain(at[1..], r[1..]);
      assert r == [r[0]] + r[1..] && at[1..] == [at[1]] + at[1..][1..];
    }
  }

  lemma InOnly(name: string, n: Node, r: Location)
    requires r != []
    ensures NodeAt(DirNode(name, [n]), r) == if n.name == r[0] then NodeAt(n, r[1..]) else None
  {
    assert [n][1..] == [] && NodeIn([], r).None?;
    assert NodeIn([n], r) == if n.name == r[0] then NodeAt(n, r[1..]) else None;
  }

  lemma OneFileIsFound(kind: Kind, at: Location)
    requires IsAIP(kind) && at != [] && Names(at) && at[0] == CONTENT
    ensures WellNamed(OneFile(at)) && WalkRoot(kind, OneFile(at)).Some?
    ensures forall q :: q in FilesFound(kind, WalkRoot(kind, OneFile(at)).value) <==> q == Slashed(at)
  {
    var tree := OneFile(at);
    ChainIsWellNamed(at);
    assert [Chain(at)][1..] == [];
    InOnly("", Chain(at), [CONTENT]);
    assert [CONTENT][1..] == [];
    forall r
      ensures IsFile(tree, r) <==> r == at
    {
      if r != [] {
        InOnly("", Chain(at), r);
        FilesOfChain(at, r[1..]);
        assert r == [r[0]] + r[1..] && at == [at[0]] + at[1..];
      }
    }
    FoundArePaths(kind, tree);
    ScopeOfWalk(kind, tree, at);
    hide FilesFound, WalkRoot, WellNamed, Names, Slashed, OneFile, IsFile, CONTENT;
    forall q | q in FilesFound(kind, WalkRoot(kind, tree).value)
      ensures q == Slashed(at)
    {
      var at' :| Names(at') && q == RelPath(at');
      ScopeOfWalk(kind, tree, at');
    }
  }

  lemma DifferentMessages(a: string, b: string, h: string, h': string)
    requires h != h'
    ensures a + h + b != a + h' + b
  {
    if |h| == |h'| {
      assert (a + h + b)[|a|..|a| + |h|] == h && (a + h' + b)[|a|..|a| + |h'|] == h';
    } else {
      assert |a + h + b| != |a + h' + b|;
    }
  }

  /** Hashes for which two entries at a path get different verdicts. */
  lemma TellingHashes(p: string, f: Option<File>, g: Option<File>) returns (digest: Digests)
    requires Checked(f) != Checked(g)
    ensures VerdictOn(p, f, digest) != VerdictOn(p, g, digest)
    ensures f.Some? <==> VerdictOn(p, f, digest) != NoVerdict
    ensures g.Some? <==> VerdictOn(p, g, digest) != NoVerdict
  {
    if f.None? || g.None? {
      digest := (path, algorithm) => Some("");
    } else if f.value.hash == g.value.hash {
      digest := (path, algorithm) => if algorithm == f.value.algorithm then Some(Lower(f.value.hash)) else Some("*" + f.value.hash);
      assert |"*" + f.value.hash| != |Lower(g.value.hash)|;
    } else {
      var got := "*" + f.value.hash + g.value.hash;
      digest := (path, algorithm) => Some(got);
      assert |got| != |Lower(f.value.hash)| && |got| != |Lower(g.value.hash)|;
      DifferentMessages("Checksum mismatch for " + p + " (expected: ", ", got: " + got + ")", f.value.hash, g.value.hash);
      MessageParts(p, f, digest);
      MessageParts(p, g, digest);
    }
  }

  lemma MessageParts(p: string, f: Option<File>, digest: Digests)
    requires f.Some? && digest(p, f.value.algorithm).Some?
    ensures MismatchMessage(map[p := f], digest, p)
            == "Checksum mismatch for " + p + " (expected: " + f.value.hash + (", got: " + digest(p, f.value.algorithm).value + ")")
  {
    var a, b, c, d := "Checksum mismatch for " + p + " (expected: " + f.value.hash, ", got: ", digest(p, f.value.algorithm).value, ")";
    Assoc(a, b, c);
    Assoc(a, b + c, d);
  }

  lemma CollisionDecides(kind: Kind, m: Manifest, k: string, l: string, at: Location)
    returns (tree: Node, digest: Digests)
    requires IsAIP(kind) && CollideAt(m.files, k, l, at) && Checked(m.files[k]) != Checked(m.files[l])
    ensures WellNamed(tree) && OutcomesDiffer(kind, "", tree, m, digest)
    ensures m.files[k].Some? && m.files[l].Some? ==> ReportsDiffer(kind, "", tree, m, digest)
  {
    var q, f, g := Slashed(at), m.files[k], m.files[l];
    tree := OneFile(at);
    OneFileIsFound(kind, at);
    digest := TellingHashes(q, f, g);
    hide FilesFound, WalkRoot, WellNamed, VerdictOn, Names, Slashed, OneFile, Join, OutcomesDiffer, ReportsDiffer;
    var found := FilesFound(kind, WalkRoot(kind, tree).value);
    assert Candidate(kind, m.files, q, f) && Candidate(kind, m.files, q, g);
    assert EachCheckable(kind, found, m.files, digest);
    assert Ambiguous(kind, found, m.files, digest, q, f, g);
    if f.Some? && g.Some? {
      assert WithVerdicts(digest, q, f, g);
    }
    OrderDecidesIff(kind, "", tree, m, digest);
  }

  /**
    For a manifest: the order of the map can decide what a run ends in, for some package and some hashes, if and only if
    the package is an AIP and two entries with different algorithms or hashes, or one with a file and one without,
    get the path of a file that can be below "content"; and it can decide what is reported if and only if two
    entries with files do.
  */
  lemma OrderCanDecideIff(kind: Kind, m: Manifest)
    ensures (exists base, tree, digest :: WellNamed(tree) && OutcomesDiffer(kind, base, tree, m, digest)) <==> IsAIP(kind) && SomeCollision(m.files)
    ensures (exists base, tree, digest :: WellNamed(tree) && ReportsDiffer(kind, base, tree, m, digest)) <==> IsAIP(kind) && SomeFullCollision(m.files)
  {
    hide FilesFound, WalkRoot, WellNamed, EachCheckable, Ambiguous, OutcomesDiffer, ReportsDiffer, Join, Slashed, Names,
         Checked, VerdictOn;
    if base, tree, digest :| WellNamed(tree) && OutcomesDiffer(kind, base, tree, m, digest) {
      OrderDecidesIff(kind, base, tree, m, digest);
      var q, f, g :| Ambiguous(kind, FilesFound(kind, WalkRoot(kind, tree).value), m.files, digest, q, f, g);
      AmbiguousCollides(kind, tree, m.files, digest, q, f, g);
    }
    if base, tree, digest :| WellNamed(tree) && ReportsDiffer(kind, base, tree, m, digest) {
      OrderDecidesIff(kind, base, tree, m, digest);
      var q, f, g :| Ambiguous(kind, FilesFound(kind, WalkRoot(kind, tree).value), m.files, digest, q, f, g) && WithVerdicts(digest, q, f, g);
      VerdictsNeedFiles(digest, q, f, g);
      AmbiguousCollides(kind, tree, m.files, digest, q, f, g);
    }
    if IsAIP(kind) {
      if k, l, at :| CollideAt(m.files, k, l, at) && Checked(m.files[k]) != Checked(m.files[l]) {
        var tree, digest := CollisionDecides(kind, m, k, l, at);
      }
      if k, l, at :| CollideAt(m.files, k, l, at) && Checked(m.files[k]) != Checked(m.files[l]) && m.files[k].Some? && m.files[l].Some? {
        var tree, digest := CollisionDecides(kind, m, k, l, at);
      }
    }
  }

  lemma VerdictsNeedFiles(digest: Digests, q: string, f: Option<File>, g: Option<File>)
    requires WithVerdicts(digest, q, f, g)
    ensures f.Some? && g.Some?
  {
    hide Lower;
  }
}
