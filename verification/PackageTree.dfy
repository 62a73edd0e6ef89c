/**
  A directory tree and the order in which filepath.WalkDir visits it: a directory before its entries, each
  entry with everything below it before the next.
*/
module PackageTree {
  import opened Wrappers
  import opened Paths

  datatype Node = FileNode(name: string) | DirNode(name: string, kids: seq<Node>)

  /** What the walk shows of a node: where it is, relative to where the walk began, and its type. */
  datatype Entry = Entry(at: Location, isDir: bool)

  function Walk(n: Node, at: Location): seq<Entry> {
    match n
    case FileNode(_) => [Entry(at, false)]
    case DirNode(_, kids) => [Entry(at, true)] + WalkAll(kids, at)
  }

  function WalkAll(ns: seq<Node>, at: Location): seq<Entry> {
    if ns == [] then [] else Walk(ns[0], at + [ns[0].name]) + WalkAll(ns[1..], at)
  }

  /** The node at a location. */
  function NodeAt(n: Node, r: Location): Option<Node>
    decreases n, 0
  {
    if r == [] then Some(n)
    else match n
      case FileNode(_) => None
      case DirNode(_, kids) => NodeIn(kids, r)
  }

  function NodeIn(ns: seq<Node>, r: Location): Option<Node>
    requires r != []
    decreases ns
  {
    if ns == [] then None
    else if ns[0].name == r[0] then NodeAt(ns[0], r[1..])
    else NodeIn(ns[1..], r)
  }

  predicate Named(ns: seq<Node>, name: string) {
    exists i :: 0 <= i < |ns| && ns[i].name == name
  }

  /** Names are proper, and no two entries of a directory have the same. */
  predicate WellNamed(n: Node) {
    match n
    case FileNode(_) => true
    case DirNode(_, kids) => WellNamedAll(kids)
  }

  predicate WellNamedAll(ns: seq<Node>) {
    ns == [] || (Name(ns[0].name) && WellNamed(ns[0]) && !Named(ns[1..], ns[0].name) && WellNamedAll(ns[1..]))
  }

  predicate ChildOf(p: Location, at: Location) {
    p != [] && p[..|p| - 1] == at
  }

  /** The number of entries directly in a directory. */
  function Count(es: seq<Entry>, at: Location): nat {
    if es == [] then 0 else Count(es[1..], at) + if ChildOf(es[0].at, at) then 1 else 0
  }

  lemma {:induction false} CountConcat(a: seq<Entry>, b: seq<Entry>, at: Location)
    ensures Count(a + b, at) == Count(a, at) + Count(b, at)
    decreases |a|
  {
    if a == [] {
      assert a + b == b;
    } else {
      assert (a + b)[0] == a[0] && (a + b)[1..] == a[1..] + b;
      CountConcat(a[1..], b, at);
    }
  }

  lemma {:induction false} CountNone(es: seq<Entry>, at: Location)
    requires forall e :: e in es ==> !ChildOf(e.at, at)
    ensures Count(es, at) == 0
    decreases |es|
  {
    if es != [] {
      assert es[0] in es;
      CountNone(es[1..], at);
    }
  }

  lemma ChildStarts(p: Location, at: Location, r: Location)
    requires r != []
    ensures ChildOf(p, at + r) ==> |p| > |at| && p[|at|] == r[0]
  {
    if p != [] && |p| > |at| + 1 {
      assert p[..|p| - 1][|at|] == p[|at|];
    }
    assert (at + r)[|at|] == r[0];
  }

  lemma UnderStarts(p: Location, at: Location, n: string)
    ensures Under(at + [n], p) ==> |p| > |at| && p[|at|] == n
  {
    if |p| > |at| {
      assert p[..|at| + 1][|at|] == p[|at|];
    }
    assert (at + [n])[|at|] == n;
  }

  // Where the entries of a walk are

  lemma {:induction false} WalkStays(n: Node, at: Location)
    ensures forall e :: e in Walk(n, at) ==> Under(at, e.at)
    decreases n
  {
    match n {
      case FileNode(_) =>
      case DirNode(_, kids) => WalkAllStays(kids, at);
    }
  }

  lemma {:induction false} WalkAllStays(ns: seq<Node>, at: Location)
    ensures forall e :: e in WalkAll(ns, at) ==> Under(at, e.at) && |e.at| > |at| && Named(ns, e.at[|at|])
    decreases ns
  {
    if ns != [] {
      var sub := at + [ns[0].name];
      WalkStays(ns[0], sub);
      WalkAllStays(ns[1..], at);
      forall e | e in WalkAll(ns, at)
        ensures Under(at, e.at) && |e.at| > |at| && Named(ns, e.at[|at|])
      {
        if e in Walk(ns[0], sub) {
          assert e.at[..|sub|][..|at|] == e.at[..|at|] && e.at[..|sub|][|at|] == e.at[|at|];
          assert sub[..|at|] == at;
        } else {
          var i :| 0 <= i < |ns[1..]| && ns[1..][i].name == e.at[|at|];
          assert ns[i + 1].name == e.at[|at|];
        }
      }
    }
  }

  /** The walk shows exactly the nodes of the tree. */
  lemma {:induction false} WalkShowsNodes(n: Node, at: Location, r: Location)
    requires WellNamed(n)
    ensures Entry(at + r, true) in Walk(n, at) <==> NodeAt(n, r).Some? && NodeAt(n, r).value.DirNode?
    ensures Entry(at + r, false) in Walk(n, at) <==> NodeAt(n, r).Some? && NodeAt(n, r).value.FileNode?
    decreases n, 0
  {
    if r == [] {
      assert at + r == at;
      if n.DirNode? {
        WalkAllStays(n.kids, at);
      }
    } else {
      assert at + r != at by {
        assert |at + r| > |at|;
      }
      if n.DirNode? {
        WalkAllShowsNodes(n.kids, at, r);
      }
    }
  }

  lemma {:induction false} WalkAllShowsNodes(ns: seq<Node>, at: Location, r: Location)
    requires WellNamedAll(ns) && r != []
    ensures Entry(at + r, true) in WalkAll(ns, at) <==> NodeIn(ns, r).Some? && NodeIn(ns, r).value.DirNode?
    ensures Entry(at + r, false) in WalkAll(ns, at) <==> NodeIn(ns, r).Some? && NodeIn(ns, r).value.FileNode?
    decreases ns
  {
    if ns != [] {
      var sub := at + [ns[0].name];
      WalkAllShowsNodes(ns[1..], at, r);
      WalkAllStays(ns[1..], at);
      WalkStays(ns[0], sub);
      assert (at + r)[|at|] == r[0];
      if r[0] == ns[0].name {
        FirstAndRest(at, r);
        WalkShowsNodes(ns[0], sub, r[1..]);
      } else {
        UnderStarts(at + r, at, ns[0].name);
      }
    }
  }

  /** In a walk, the number of entries counted for a directory is the number of its entries in the tree. */
  lemma {:induction false} CountIsKids(n: Node, at: Location, r: Location)
    requires WellNamed(n) && NodeAt(n, r).Some? && NodeAt(n, r).value.DirNode?
    ensures Count(Walk(n, at), at + r) == |NodeAt(n, r).value.kids|
    decreases n, 0
  {
    var kids := n.kids;
    var all := WalkAll(kids, at);
    CountConcat([Entry(at, true)], all, at + r);
    assert [Entry(at, true)][1..] == [];
    assert !ChildOf(at, at + r) by {
      assert |at[..|at|]| < |at + r| + 1;
    }
    if r == [] {
      assert at + r == at;
      CountDirect(kids, at);
    } else {
      CountBelow(kids, at, r);
    }
  }

  lemma {:induction false} CountDirect(ns: seq<Node>, at: Location)
    ensures Count(WalkAll(ns, at), at) == |ns|
    decreases ns
  {
    if ns != [] {
      var sub := at + [ns[0].name];
      CountDirect(ns[1..], at);
      CountConcat(Walk(ns[0], sub), WalkAll(ns[1..], at), at);
      var first := Walk(ns[0], sub);
      assert first[0].at == sub && ChildOf(sub, at);
      assert Count(first[1..], at) == 0 by {
        forall e | e in first[1..]
          ensures !ChildOf(e.at, at)
        {
          WalkAllStays(ns[0].kids, sub);
          assert first[1..] == WalkAll(ns[0].kids, sub);
        }
        CountNone(first[1..], at);
      }
    }
  }

  lemma {:induction false} CountBelow(ns: seq<Node>, at: Location, r: Location)
    requires WellNamedAll(ns) && r != [] && NodeIn(ns, r).Some? && NodeIn(ns, r).value.DirNode?
    ensures Count(WalkAll(ns, at), at + r) == |NodeIn(ns, r).value.kids|
    decreases ns
  {
    var sub := at + [ns[0].name];
    CountConcat(Walk(ns[0], sub), WalkAll(ns[1..], at), at + r);
    if r[0] == ns[0].name {
      FirstAndRest(at, r);
      CountIsKids(ns[0], sub, r[1..]);
      NoneBelowOthers(ns[1..], at, r);
    } else {
      CountBelow(ns[1..], at, r);
      NoneBelowOther(ns[0], at, r);
    }
  }

  lemma NoneBelowOthers(ns: seq<Node>, at: Location, r: Location)
    requires r != [] && !Named(ns, r[0])
    ensures Count(WalkAll(ns, at), at + r) == 0
  {
    WalkAllStays(ns, at);
    forall e | e in WalkAll(ns, at)
      ensures !ChildOf(e.at, at + r)
    {
      ChildStarts(e.at, at, r);
    }
    CountNone(WalkAll(ns, at), at + r);
  }

  lemma NoneBelowOther(n: Node, at: Location, r: Location)
    requires r != [] && r[0] != n.name
    ensures Count(Walk(n, at + [n.name]), at + r) == 0
  {
    var sub := at + [n.name];
    WalkStays(n, sub);
    forall e | e in Walk(n, sub)
      ensures !ChildOf(e.at, at + r)
    {
      ChildStarts(e.at, at, r);
      UnderStarts(e.at, at, n.name);
    }
    CountNone(Walk(n, sub), at + r);
  }

  // The order of a walk

  predicate NotBefore(x: Entry, y: Entry) {
    x.at != y.at && !ChildOf(x.at, y.at)
  }

  /** Nothing is visited twice, and no directory after one of its entries. */
  predicate PreOrder(es: seq<Entry>) {
    forall i, j :: 0 <= i < j < |es| ==> NotBefore(es[i], es[j])
  }

  lemma PreOrderConcat(a: seq<Entry>, b: seq<Entry>)
    requires PreOrder(a) && PreOrder(b) && forall x, y :: x in a && y in b ==> NotBefore(x, y)
    ensures PreOrder(a + b)
  {
    forall i, j | 0 <= i < j < |a + b|
      ensures NotBefore((a + b)[i], (a + b)[j])
    {
      if i < |a| <= j {
        assert (a + b)[i] in a && (a + b)[j] in b;
      }
    }
  }

  lemma {:induction false} WalkIsPreOrder(n: Node, at: Location)
    requires WellNamed(n)
    ensures PreOrder(Walk(n, at))
    decreases n
  {
    match n {
      case FileNode(_) =>
      case DirNode(_, kids) =>
        WalkAllIsPreOrder(kids, at);
        WalkAllStays(kids, at);
        PreOrderConcat([Entry(at, true)], WalkAll(kids, at));
    }
  }

  lemma {:induction false} WalkAllIsPreOrder(ns: seq<Node>, at: Location)
    requires WellNamedAll(ns)
    ensures PreOrder(WalkAll(ns, at))
    decreases ns
  {
    if ns != [] {
      var sub := at + [ns[0].name];
      WalkIsPreOrder(ns[0], sub);
      WalkAllIsPreOrder(ns[1..], at);
      WalkStays(ns[0], sub);
      WalkAllStays(ns[1..], at);
      forall x, y | x in Walk(ns[0], sub) && y in WalkAll(ns[1..], at)
        ensures NotBefore(x, y)
      {
        UnderStarts(x.at, at, ns[0].name);
        assert y.at == at + y.at[|at|..];
        ChildStarts(x.at, at, y.at[|at|..]);
      }
      PreOrderConcat(Walk(ns[0], sub), WalkAll(ns[1..], at));
    }
  }

  lemma {:induction false} WalkNames(n: Node, at: Location)
    requires WellNamed(n) && Names(at)
    ensures forall e :: e in Walk(n, at) ==> Names(e.at)
    decreases n
  {
    match n {
      case FileNode(_) =>
      case DirNode(_, kids) => WalkAllNames(kids, at);
    }
  }

  lemma {:induction false} WalkAllNames(ns: seq<Node>, at: Location)
    requires WellNamedAll(ns) && Names(at)
    ensures forall e :: e in WalkAll(ns, at) ==> Names(e.at)
    decreases ns
  {
    if ns != [] {
      WalkNames(ns[0], at + [ns[0].name]);
      WalkAllNames(ns[1..], at);
    }
  }

  /** A node below the top is called by the last name of its location. */
  lemma {:induction false} NameAt(n: Node, r: Location)
    requires NodeAt(n, r).Some? && r != []
    ensures NodeAt(n, r).value.name == r[|r| - 1]
    decreases n, 0
  {
    NameIn(n.kids, r);
  }

  lemma {:induction false} NameIn(ns: seq<Node>, r: Location)
    requires r != [] && NodeIn(ns, r).Some?
    ensures NodeIn(ns, r).value.name == r[|r| - 1]
    decreases ns
  {
    if ns[0].name == r[0] {
      if |r| > 1 {
        NameAt(ns[0], r[1..]);
      }
    } else {
      NameIn(ns[1..], r);
    }
  }
}
