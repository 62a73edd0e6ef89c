/**
  Slash-separated paths as Go's path and path/filepath packages treat them: Clean, Join, Dir and Base on
  strings, and what they come to on clean paths, seen as sequences of names.
*/
module Paths {

  /** The names that lead to an entry from the root, or from some directory. */
  type Location = seq<string>

  predicate Under(dir: Location, p: Location) {
    |dir| <= |p| && p[..|dir|] == dir
  }

  /** A name that a directory entry can have. */
  predicate Name(n: string) {
    n != "" && '/' !in n && n != "." && n != ".."
  }

  predicate Names(cs: seq<string>) {
    forall i :: 0 <= i < |cs| ==> Name(cs[i])
  }

  /** The elements between the slashes; always at least one, possibly empty. */
  function Split(s: string): (cs: seq<string>)
    ensures |cs| >= 1
  {
    if s == "" then [""]
    else
      var r := Split(s[1..]);
      if s[0] == '/' then [""] + r else [[s[0]] + r[0]] + r[1..]
  }

  function Slashed(cs: seq<string>): string {
    if cs == [] then ""
    else if |cs| == 1 then cs[0]
    else cs[0] + "/" + Slashed(cs[1..])
  }

  /** Drops empty and "." elements and resolves ".." against what precedes it. */
  function Reduce(cs: seq<string>, rooted: bool, acc: seq<string>): seq<string>
    decreases |cs|
  {
    if cs == [] then acc
    else if cs[0] == "" || cs[0] == "." then Reduce(cs[1..], rooted, acc)
    else if cs[0] != ".." then Reduce(cs[1..], rooted, acc + [cs[0]])
    else if acc != [] && acc[|acc| - 1] != ".." then Reduce(cs[1..], rooted, acc[..|acc| - 1])
    else if rooted then Reduce(cs[1..], rooted, acc)
    else Reduce(cs[1..], rooted, acc + [".."])
  }

  function Clean(path: string): string {
    var rooted := path != "" && path[0] == '/';
    var cs := Reduce(Split(path), rooted, []);
    if rooted then "/" + Slashed(cs)
    else if cs == [] then "."
    else Slashed(cs)
  }

  function Join(parts: seq<string>): string {
    if parts == [] then ""
    else if parts[0] == "" then Join(parts[1..])
    else Clean(Slashed(parts))
  }

  function UpToLastSlash(path: string): string {
    if path == "" || path[|path| - 1] == '/' then path else UpToLastSlash(path[..|path| - 1])
  }

  function AfterLastSlash(path: string): string {
    if path == "" || path[|path| - 1] == '/' then "" else AfterLastSlash(path[..|path| - 1]) + [path[|path| - 1]]
  }

  function WithoutTrailingSlashes(path: string): string {
    if path != "" && path[|path| - 1] == '/' then WithoutTrailingSlashes(path[..|path| - 1]) else path
  }

  function Dir(path: string): string {
    Clean(UpToLastSlash(path))
  }

  function Base(path: string): string {
    if path == "" then "."
    else
      var p := WithoutTrailingSlashes(path);
      if p == "" then "/" else AfterLastSlash(p)
  }

  /** A clean path, relative or from the root. */
  function Path(rooted: bool, cs: seq<string>): string {
    if rooted then "/" + Slashed(cs) else Slashed(cs)
  }

  // Sequences, for proofs in which the solver should not take them apart

  lemma Assoc<T>(a: seq<T>, b: seq<T>, c: seq<T>)
    ensures (a + b) + c == a + (b + c)
  {
  }

  lemma FirstAndRest<T>(a: seq<T>, b: seq<T>)
    requires b != []
    ensures a + b == (a + [b[0]]) + b[1..]
  {
  }

  lemma SamePrefix<T>(a: seq<T>, b: seq<T>, c: seq<T>)
    ensures a + b == a + c <==> b == c
  {
    assert (a + b)[|a|..] == b && (a + c)[|a|..] == c;
  }

  lemma OneByOne<T>(a: T, b: T)
    ensures [] + [a] == [a] && [a] + [b] == [a, b]
  {
  }

  lemma NamesConcat(a: seq<string>, b: seq<string>)
    ensures Names(a + b) <==> Names(a) && Names(b)
  {
    assert Names(a + b) ==> (forall i :: 0 <= i < |a| ==> (a + b)[i] == a[i]) && forall i :: 0 <= i < |b| ==> (a + b)[|a| + i] == b[i];
  }

  // Clean paths are sequences of names

  lemma {:induction false} SplitWord(w: string)
    requires '/' !in w
    ensures Split(w) == [w]
    decreases |w|
  {
    if w != "" {
      SplitWord(w[1..]);
      assert [w[0]] + w[1..] == w;
    }
  }

  lemma {:induction false} SplitAtSlash(w: string, rest: string)
    requires '/' !in w
    ensures Split(w + "/" + rest) == [w] + Split(rest)
    decreases |w|
  {
    var s := w + "/" + rest;
    if w == "" {
      assert s[1..] == rest;
    } else {
      assert s[1..] == w[1..] + "/" + rest;
      SplitAtSlash(w[1..], rest);
      assert s[0] == w[0] && [w[0]] + w[1..] == w;
    }
  }

  lemma {:induction false} SplitSlashed(cs: seq<string>)
    requires cs != [] && forall i :: 0 <= i < |cs| ==> '/' !in cs[i]
    ensures Split(Slashed(cs)) == cs
    decreases |cs|
  {
    if |cs| == 1 {
      SplitWord(cs[0]);
    } else {
      SplitAtSlash(cs[0], Slashed(cs[1..]));
      SplitSlashed(cs[1..]);
    }
  }

  lemma {:induction false} ReduceNames(cs: seq<string>, rooted: bool, acc: seq<string>)
    requires Names(cs)
    ensures Reduce(cs, rooted, acc) == acc + cs
    decreases |cs|
  {
    if cs != [] {
      ReduceNames(cs[1..], rooted, acc + [cs[0]]);
      assert acc + [cs[0]] + cs[1..] == acc + cs;
    }
  }

  /** A relative path of names starts with a character of its first name. */
  lemma SlashedStart(cs: seq<string>)
    requires cs != [] && Names(cs)
    ensures Slashed(cs) != "" && Slashed(cs)[0] == cs[0][0] && Slashed(cs)[0] != '/'
  {
    assert cs[0][0] in cs[0];
  }

  lemma RootedIsSlashed(cs: seq<string>)
    requires cs != []
    ensures "/" + Slashed(cs) == Slashed([""] + cs)
  {
    assert ([""] + cs)[1..] == cs;
  }

  /** Cleaning a path of elements without slashes, the first of which is a name, reduces the elements. */
  lemma CleanElements(rooted: bool, ds: seq<string>, cs: seq<string>)
    requires ds != [] && Name(ds[0]) && (forall i :: 0 <= i < |ds| ==> '/' !in ds[i])
    requires cs != [] && Reduce(ds, rooted, []) == cs
    ensures Clean(Path(rooted, ds)) == Path(rooted, cs)
  {
    assert Slashed(ds) != "" && Slashed(ds)[0] == ds[0][0] && ds[0][0] in ds[0];
    if rooted {
      RootedIsSlashed(ds);
      SplitSlashed([""] + ds);
      assert ([""] + ds)[1..] == ds;
    } else {
      SplitSlashed(ds);
    }
    hide Split, Slashed, Name;
  }

  lemma CleanPath(rooted: bool, cs: seq<string>)
    requires cs != [] && Names(cs)
    ensures Clean(Path(rooted, cs)) == Path(rooted, cs)
  {
    ReduceNames(cs, rooted, []);
    assert [] + cs == cs;
    CleanElements(rooted, cs, cs);
  }

  lemma SlashedCons(cs: seq<string>)
    requires |cs| > 1
    ensures Slashed(cs) == cs[0] + "/" + Slashed(cs[1..])
  {
  }

  lemma {:induction false} SlashedConcat(a: seq<string>, b: seq<string>)
    requires a != [] && b != []
    ensures Slashed(a + b) == Slashed(a) + "/" + Slashed(b)
    decreases |a|
  {
    if |a| > 1 {
      var c := a[1..];
      SlashedConcat(c, b);
      assert (a + b)[1..] == c + b && (a + b)[0] == a[0];
      SlashedCons(a);
      SlashedCons(a + b);
      assert a[0] + "/" + (Slashed(c) + "/" + Slashed(b)) == (a[0] + "/" + Slashed(c)) + "/" + Slashed(b);
    } else {
      assert a == [a[0]] && (a + b)[1..] == b;
    }
  }

  lemma SlashedPathFirst(rooted: bool, cs: seq<string>, ns: seq<string>)
    requires cs != [] && ns != []
    ensures Slashed([Path(rooted, cs)] + ns) == Path(rooted, cs + ns)
  {
    SlashedConcat([Path(rooted, cs)], ns);
    SlashedConcat(cs, ns);
  }

  /** Joining names to a clean path appends them. */
  lemma JoinPath(rooted: bool, cs: seq<string>, ns: seq<string>)
    requires cs != [] && Names(cs) && Names(ns)
    ensures Join([Path(rooted, cs)] + ns) == Path(rooted, cs + ns)
  {
    SlashedStart(cs);
    if ns == [] {
      assert [Path(rooted, cs)] + ns == [Path(rooted, cs)] && cs + ns == cs;
    } else {
      SlashedPathFirst(rooted, cs, ns);
    }
    CleanPath(rooted, cs + ns);
  }

  /** Joining a name to the empty path or to "." leaves the name. */
  lemma JoinToNothing(n: string)
    requires Name(n)
    ensures Join(["", n]) == n && Join([".", n]) == n
  {
    assert Slashed([n]) == n && Path(false, [n]) == n;
    CleanPath(false, [n]);
    assert Join(["", n]) == Join([n]);
    var s := Slashed([".", n]);
    assert s == "." + "/" + n;
    SplitSlashed([".", n]);
    ReduceNames([n], false, []);
    assert [".", n][1..] == [n];
    assert Reduce([".", n], false, []) == [n];
  }

  lemma {:induction false} LastSlash(p: string, n: string)
    requires '/' !in n
    ensures UpToLastSlash(p + "/" + n) == p + "/" && AfterLastSlash(p + "/" + n) == n
    decreases |n|
  {
    var s := p + "/" + n;
    if n != "" {
      var m := n[..|n| - 1];
      assert s[..|s| - 1] == p + "/" + m;
      LastSlash(p, m);
      assert m + [n[|n| - 1]] == n;
    }
  }

  lemma {:induction false} NoSlash(n: string)
    requires '/' !in n
    ensures UpToLastSlash(n) == "" && AfterLastSlash(n) == n
    decreases |n|
  {
    if n != "" {
      NoSlash(n[..|n| - 1]);
    }
  }

  /** The directory of a clean path drops its last name; of a single name it is ".". */
  lemma DirPath(rooted: bool, cs: seq<string>, n: string)
    requires Names(cs) && Name(n)
    ensures cs != [] ==> Dir(Path(rooted, cs + [n])) == Path(rooted, cs)
    ensures Dir(n) == "." && Dir(".") == "."
  {
    NoSlash(n);
    NoSlash(".");
    assert Clean("") == ".";
    if cs != [] {
      DirOfLonger(rooted, cs, n);
    }
  }

  lemma DirOfLonger(rooted: bool, cs: seq<string>, n: string)
    requires cs != [] && Names(cs) && Name(n)
    ensures Dir(Path(rooted, cs + [n])) == Path(rooted, cs)
  {
    PathSnoc(rooted, cs, n);
    var p := Path(rooted, cs);
    hide Clean, Slashed, Path;
    LastSlash(p, n);
    CleanTrailingSlash(rooted, cs);
  }

  lemma PathSnoc(rooted: bool, cs: seq<string>, n: string)
    requires cs != []
    ensures Path(rooted, cs + [n]) == Path(rooted, cs) + "/" + n
  {
    SlashedConcat(cs, [n]);
    assert Slashed([n]) == n;
    hide Slashed;
  }

  lemma CleanTrailingSlash(rooted: bool, cs: seq<string>)
    requires cs != [] && Names(cs)
    ensures Clean(Path(rooted, cs) + "/") == Path(rooted, cs)
  {
    PathSnoc(rooted, cs, "");
    ReduceTrailing(cs, rooted, []);
    assert [] + cs == cs && Path(rooted, cs) + "/" + "" == Path(rooted, cs) + "/";
    CleanElements(rooted, cs + [""], cs);
  }

  lemma {:induction false} ReduceTrailing(cs: seq<string>, rooted: bool, acc: seq<string>)
    requires Names(cs)
    ensures Reduce(cs + [""], rooted, acc) == acc + cs
    decreases |cs|
  {
    if cs == [] {
      assert (cs + [""])[1..] == [];
    } else {
      assert (cs + [""])[1..] == cs[1..] + [""];
      ReduceTrailing(cs[1..], rooted, acc + [cs[0]]);
      assert acc + [cs[0]] + cs[1..] == acc + cs;
    }
  }

  /** The base of a clean path is its last name. */
  lemma BasePath(rooted: bool, cs: seq<string>, n: string)
    requires Names(cs) && Name(n)
    ensures Base(Path(rooted, cs + [n])) == n
  {
    var p := Path(rooted, cs + [n]);
    assert n[|n| - 1] in n;
    if cs == [] {
      assert cs + [n] == [n];
      if rooted {
        assert p == "" + "/" + n;
        LastSlash("", n);
      } else {
        NoSlash(n);
      }
    } else {
      PathSnoc(rooted, cs, n);
      LastSlash(Path(rooted, cs), n);
    }
    assert p[|p| - 1] == n[|n| - 1];
  }

  /** Different sequences of names are different paths. */
  lemma PathIsInjective(rooted: bool, a: seq<string>, b: seq<string>)
    requires a != [] && b != [] && Names(a) && Names(b)
    ensures Path(rooted, a) == Path(rooted, b) ==> a == b
  {
    SplitSlashed(a);
    SplitSlashed(b);
    if rooted {
      assert Path(rooted, a)[1..] == Slashed(a) && Path(rooted, b)[1..] == Slashed(b);
    }
  }

  /** A relative path made of names. */
  ghost predicate NamePath(p: string) {
    exists cs :: cs != [] && Names(cs) && p == Slashed(cs)
  }

  /** What Join and Dir return. */
  ghost predicate CleanedPath(p: string) {
    p == "" || exists q :: p == Clean(q)
  }

  lemma {:induction false} JoinIsCleaned(parts: seq<string>)
    ensures CleanedPath(Join(parts))
    decreases |parts|
  {
    if parts != [] && parts[0] == "" {
      JoinIsCleaned(parts[1..]);
    }
  }

  lemma {:induction false} SplitHasNoSlash(s: string)
    ensures forall i :: 0 <= i < |Split(s)| ==> '/' !in Split(s)[i]
    decreases |s|
  {
    if s != "" {
      SplitHasNoSlash(s[1..]);
    }
  }

  /** Elements of a reduced path: names, after any number of "..". */
  predicate Reduced(cs: seq<string>) {
    && (forall i :: 0 <= i < |cs| ==> Name(cs[i]) || cs[i] == "..")
    && (forall i :: 0 < i < |cs| && cs[i] == ".." ==> cs[i - 1] == "..")
  }

  lemma {:induction false} ReduceReduces(cs: seq<string>, rooted: bool, acc: seq<string>)
    requires Reduced(acc) && forall i :: 0 <= i < |cs| ==> '/' !in cs[i]
    ensures Reduced(Reduce(cs, rooted, acc))
    decreases |cs|
  {
    if cs != [] {
      var rest := cs[1..];
      if cs[0] == "" || cs[0] == "." {
        ReduceReduces(rest, rooted, acc);
      } else if cs[0] != ".." {
        ReduceReduces(rest, rooted, acc + [cs[0]]);
      } else if acc != [] && acc[|acc| - 1] != ".." {
        ReduceReduces(rest, rooted, acc[..|acc| - 1]);
      } else if rooted {
        ReduceReduces(rest, rooted, acc);
      } else {
        ReduceReduces(rest, rooted, acc + [".."]);
      }
    }
  }

  lemma {:induction false} ReducedNames(cs: seq<string>, n: nat)
    requires Reduced(cs) && cs != [] && cs[0] != ".." && n <= |cs|
    ensures Names(cs[..n])
    decreases n
  {
    if n > 0 {
      ReducedNames(cs, n - 1);
      assert n > 1 ==> cs[n - 2] == cs[..n - 1][n - 2];
    }
  }

  /** A cleaned path is made of names unless it starts with a slash or a dot. */
  lemma CleanedNames(p: string)
    requires CleanedPath(p) && p != "" && p[0] != '/' && p[0] != '.'
    ensures NamePath(p)
  {
    var q :| p == Clean(q);
    var rooted := q != "" && q[0] == '/';
    var cs := Reduce(Split(q), rooted, []);
    SplitHasNoSlash(q);
    ReduceReduces(Split(q), rooted, []);
    hide Split, Reduce, Reduced;
    assert !rooted && cs != [] && p == Slashed(cs);
    FirstOfSlashed(cs);
    ReducedNames(cs, |cs|);
    assert cs[..|cs|] == cs;
  }

  lemma FirstOfSlashed(cs: seq<string>)
    requires cs != []
    ensures cs[0] == ".." ==> Slashed(cs) != "" && Slashed(cs)[0] == '.'
  {
  }

  /** Joining "." to a clean path leaves it. */
  lemma JoinDot(rooted: bool, cs: seq<string>)
    requires cs != [] && Names(cs)
    ensures Join([Path(rooted, cs), "."]) == Path(rooted, cs)
  {
    SlashedStart(cs);
    SlashedPathFirst(rooted, cs, ["."]);
    assert [Path(rooted, cs)] + ["."] == [Path(rooted, cs), "."];
    ReduceDot(cs, rooted, []);
    assert [] + cs == cs;
    CleanElements(rooted, cs + ["."], cs);
  }

  lemma {:induction false} ReduceDot(cs: seq<string>, rooted: bool, acc: seq<string>)
    requires Names(cs)
    ensures Reduce(cs + ["."], rooted, acc) == acc + cs
    decreases |cs|
  {
    if cs == [] {
      assert (cs + ["."])[1..] == [];
    } else {
      assert (cs + ["."])[1..] == cs[1..] + ["."];
      ReduceDot(cs[1..], rooted, acc + [cs[0]]);
      assert acc + [cs[0]] + cs[1..] == acc + cs;
    }
  }

  // The path of an entry relative to a directory above it

  function RelPath(at: seq<string>): string {
    if at == [] then "." else Slashed(at)
  }

  lemma RelPathIsInjective(a: seq<string>, b: seq<string>)
    requires Names(a) && Names(b)
    ensures RelPath(a) == RelPath(b) ==> a == b
  {
    SplitWord(".");
    if a != [] {
      SplitSlashed(a);
    }
    if b != [] {
      SplitSlashed(b);
    }
  }

  /** Joining it to a path of names appends the names. */
  lemma JoinRelPath(rooted: bool, cs: seq<string>, at: seq<string>)
    requires cs != [] && Names(cs) && Names(at)
    ensures Names(cs + at) && Join([Path(rooted, cs), RelPath(at)]) == Path(rooted, cs + at)
  {
    NamesConcat(cs, at);
    if at == [] {
      assert cs + at == cs;
      JoinDot(rooted, cs);
    } else {
      SlashedStart(cs);
      var p := Path(rooted, cs);
      SlashedPathFirst(rooted, cs, at);
      SlashedConcat([p], at);
      SlashedConcat([p], [Slashed(at)]);
      assert [p] + [Slashed(at)] == [p, Slashed(at)] && Slashed([Slashed(at)]) == Slashed(at);
      CleanPath(rooted, cs + at);
    }
  }

  /** Where there is nothing to join, to drop or to go up from. */
  lemma EdgeCases()
    ensures Clean("") == "." && Clean("/") == "/" && Clean("/..") == "/" && Join([]) == "" && Join([""]) == ""
    ensures Base("") == "." && Base("/") == "/" && Dir("") == "." && Dir("/") == "/"
  {
    assert Split("/") == ["", ""] && ["", ""][1..] == [""] && [""][1..] == [];
    assert Split("..") == [".."] by {
      SplitWord("..");
    }
    var cs := Split("/..");
    assert "/.."[1..] == ".." && cs == [""] + [".."] && cs[1..] == [".."] && [".."][1..] == [];
    assert Reduce([".."], true, []) == [];
    assert Reduce(cs, true, []) == [];
    assert "/"[..0] == "";
  }
}
