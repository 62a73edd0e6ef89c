/**
  A file system: what making directories, moving and removing do to it, and where each entry is after a
  sequence of moves. A location is the sequence of names that leads to an entry from the root.
*/
module FileSystem {
  import opened Paths

  datatype Entry = Directory | File(bytes: seq<bv8>)

  type Tree = map<Location, Entry>

  function Parent(p: Location): Location
    requires p != []
  {
    p[..|p| - 1]
  }

  predicate IsDirectory(t: Tree, p: Location) {
    p in t && t[p].Directory?
  }

  /** Every entry is in a directory. */
  predicate ValidTree(t: Tree) {
    IsDirectory(t, []) && forall p :: p in t && p != [] ==> IsDirectory(t, Parent(p))
  }

  /** The location that a clean absolute path names. */
  function Locate(path: string): Location {
    Reduce(Split(path), true, [])
  }

  lemma LocatePath(cs: Location)
    requires cs != [] && Names(cs)
    ensures Locate(Path(true, cs)) == cs
  {
    RootedIsSlashed(cs);
    SplitSlashed([""] + cs);
    assert ([""] + cs)[1..] == cs;
    ReduceNames(cs, true, []);
    assert [] + cs == cs;
  }

  // The operations on trees

  function Prefixes(p: Location): set<Location> {
    set i | 0 <= i <= |p| :: p[..i]
  }

  predicate CanMakeDirs(t: Tree, p: Location) {
    forall i :: 0 <= i <= |p| && p[..i] in t ==> t[p[..i]].Directory?
  }

  function WithDirs(t: Tree, p: Location): Tree {
    map q | q in t.Keys + Prefixes(p) :: if q in t then t[q] else Directory
  }

  predicate CanMove(t: Tree, src: Location, dst: Location) {
    src in t && dst !in t && dst != [] && IsDirectory(t, Parent(dst)) && !Under(src, dst)
  }

  /** Where an entry is after a move. */
  function Carried(p: Location, src: Location, dst: Location): Location {
    if Under(src, p) then dst + p[|src|..] else p
  }

  function CameFrom(q: Location, src: Location, dst: Location): Location {
    if Under(dst, q) then src + q[|dst|..] else q
  }

  function Moved(t: Tree, src: Location, dst: Location): Tree {
    map q | q in (set p | p in t :: Carried(p, src, dst)) && CameFrom(q, src, dst) in t :: t[CameFrom(q, src, dst)]
  }

  function Without(t: Tree, dir: Location): Tree {
    map q | q in t && !Under(dir, q) :: t[q]
  }

  lemma {:induction false} NothingBelow(t: Tree, d: Location, p: Location)
    requires ValidTree(t) && d !in t && Under(d, p)
    ensures p !in t
    decreases |p|
  {
    if p in t {
      if p == d {
        assert false;
      } else {
        assert Under(d, Parent(p));
        NothingBelow(t, d, Parent(p));
      }
    }
  }

  /** A move takes every entry to its new location and makes no other. */
  lemma MovedAt(t: Tree, src: Location, dst: Location)
    requires ValidTree(t) && CanMove(t, src, dst)
    ensures forall p :: p in t ==> !Under(dst, p) && CameFrom(Carried(p, src, dst), src, dst) == p
    ensures forall p :: p in t ==> Carried(p, src, dst) in Moved(t, src, dst) && Moved(t, src, dst)[Carried(p, src, dst)] == t[p]
    ensures forall q :: q in Moved(t, src, dst) ==>
      var p := CameFrom(q, src, dst); p in t && Carried(p, src, dst) == q && Moved(t, src, dst)[q] == t[p]
  {
    forall p | p in t
      ensures !Under(dst, p) && CameFrom(Carried(p, src, dst), src, dst) == p
    {
      if Under(dst, p) {
        NothingBelow(t, dst, p);
      }
      if Under(src, p) {
        assert (dst + p[|src|..])[..|dst|] == dst && (dst + p[|src|..])[|dst|..] == p[|src|..];
        assert src + p[|src|..] == p;
      }
    }
  }

  lemma MovedIsValid(t: Tree, src: Location, dst: Location)
    requires ValidTree(t) && CanMove(t, src, dst) && src != []
    ensures ValidTree(Moved(t, src, dst))
  {
    var m := Moved(t, src, dst);
    MovedAt(t, src, dst);
    assert Carried([], src, dst) == [];
    forall q | q in m && q != []
      ensures IsDirectory(m, Parent(q))
    {
      var p := CameFrom(q, src, dst);
      if p == src {
        assert q == dst && Carried(Parent(dst), src, dst) == Parent(dst);
      } else {
        ParentCarried(p, src, dst);
        assert p != [] && IsDirectory(t, Parent(p));
      }
    }
  }

  lemma ParentCarried(p: Location, src: Location, dst: Location)
    requires p != src && Carried(p, src, dst) != []
    ensures p != [] || src == []
    ensures p != [] ==> Carried(Parent(p), src, dst) == Parent(Carried(p, src, dst))
  {
    if Under(src, p) {
      assert p[..|src|] == src && |p| > |src|;
      assert Parent(p)[..|src|] == src;
      assert Parent(dst + p[|src|..]) == dst + Parent(p)[|src|..];
    }
  }

  lemma WithDirsIsValid(t: Tree, p: Location)
    requires ValidTree(t) && CanMakeDirs(t, p)
    ensures ValidTree(WithDirs(t, p))
    ensures forall i :: 0 <= i <= |p| ==> IsDirectory(WithDirs(t, p), p[..i])
  {
    var w := WithDirs(t, p);
    forall i | 0 <= i <= |p|
      ensures IsDirectory(w, p[..i])
    {
      assert p[..i] in Prefixes(p);
    }
    forall q | q in w && q != []
      ensures IsDirectory(w, Parent(q))
    {
      if q !in t {
        var i :| 0 <= i <= |p| && q == p[..i];
        assert Parent(q) == p[..i - 1];
      }
    }
  }

  lemma WithoutIsValid(t: Tree, dir: Location)
    requires ValidTree(t) && dir != []
    ensures ValidTree(Without(t, dir))
  {
    forall q | q in Without(t, dir) && q != []
      ensures IsDirectory(Without(t, dir), Parent(q))
    {
      assert Under(dir, Parent(q)) ==> Under(dir, q) by {
        assert |dir| < |q| ==> Parent(q)[..|dir|] == q[..|dir|];
      }
    }
  }

  // A sequence of moves

  datatype Move = Move(src: Location, dst: Location)

  /** Where an entry is after the moves. */
  function After(moves: seq<Move>, p: Location): Location {
    if moves == [] then p
    else
      var m := moves[|moves| - 1];
      Carried(After(moves[..|moves| - 1], p), m.src, m.dst)
  }

  /**
    Tree `t` came from tree `t0` by the moves: every entry of `t0` is at its new location, no two at the same,
    and there is nothing else but new directories.
  */
  ghost predicate Tracked(t0: Tree, moves: seq<Move>, dirs: set<Location>, t: Tree) {
    && (forall p :: p in t0 ==> After(moves, p) in t && t[After(moves, p)] == t0[p])
    && (forall p, p' :: p in t0 && p' in t0 && After(moves, p) == After(moves, p') ==> p == p')
    && (forall q :: q in t ==> (exists p :: p in t0 && After(moves, p) == q) || (q in dirs && t[q] == Directory))
  }

  lemma TrackNothing(t: Tree)
    ensures Tracked(t, [], {}, t)
  {
    assert forall p :: p in t ==> After([], p) == p;
  }

  lemma TrackDirs(t0: Tree, moves: seq<Move>, dirs: set<Location>, t: Tree, p: Location)
    requires Tracked(t0, moves, dirs, t)
    ensures Tracked(t0, moves, dirs + Prefixes(p), WithDirs(t, p))
  {
  }

  lemma AfterOneMore(moves: seq<Move>, m: Move, p: Location)
    ensures After(moves + [m], p) == Carried(After(moves, p), m.src, m.dst)
  {
    assert (moves + [m])[..|moves|] == moves;
  }

  lemma TrackMove(t0: Tree, moves: seq<Move>, dirs: set<Location>, t: Tree, src: Location, dst: Location)
    requires Tracked(t0, moves, dirs, t) && ValidTree(t) && CanMove(t, src, dst)
    requires forall d :: d in dirs ==> !Under(src, d)
    ensures Tracked(t0, moves + [Move(src, dst)], dirs, Moved(t, src, dst))
  {
    var more, m := moves + [Move(src, dst)], Moved(t, src, dst);
    MovedAt(t, src, dst);
    hide After, Moved, Carried, CameFrom, Under, CanMove, ValidTree;
    forall p | p in t0
      ensures After(more, p) in m && m[After(more, p)] == t0[p] && CameFrom(After(more, p), src, dst) == After(moves, p)
    {
      AfterOneMore(moves, Move(src, dst), p);
    }
    forall q | q in m
      ensures (exists p :: p in t0 && After(more, p) == q) || (q in dirs && m[q] == Directory)
    {
      OriginOfMoved(t0, moves, dirs, t, src, dst, q);
    }
  }

  lemma OriginOfMoved(t0: Tree, moves: seq<Move>, dirs: set<Location>, t: Tree, src: Location, dst: Location, q: Location)
    requires Tracked(t0, moves, dirs, t) && ValidTree(t) && CanMove(t, src, dst)
    requires (forall d :: d in dirs ==> !Under(src, d)) && q in Moved(t, src, dst)
    ensures (exists p :: p in t0 && After(moves + [Move(src, dst)], p) == q) || (q in dirs && Moved(t, src, dst)[q] == Directory)
  {
    MovedAt(t, src, dst);
    var q0 := CameFrom(q, src, dst);
    hide After, Moved, CameFrom, CanMove, ValidTree;
    if q0 in dirs && t[q0] == Directory {
      NotCarried(q0, src, dst);
    } else {
      var p :| p in t0 && After(moves, p) == q0;
      AfterOneMore(moves, Move(src, dst), p);
      assert After(moves + [Move(src, dst)], p) == q;
    }
  }

  lemma NotCarried(p: Location, src: Location, dst: Location)
    requires !Under(src, p)
    ensures Carried(p, src, dst) == p
  {
  }

  /** No move takes anything from below a location or to below it. */
  predicate Apart(moves: seq<Move>, q: Location) {
    forall i :: 0 <= i < |moves| ==> !Under(moves[i].src, q) && !Under(moves[i].dst, q)
  }

  lemma {:induction false} StaysPut(moves: seq<Move>, q: Location)
    requires Apart(moves, q)
    ensures After(moves, q) == q
    decreases |moves|
  {
    if moves != [] {
      StaysPut(moves[..|moves| - 1], q);
    }
  }

  lemma {:induction false} LandsUnderATarget(moves: seq<Move>, p: Location)
    ensures After(moves, p) == p || exists i :: 0 <= i < |moves| && Under(moves[i].dst, After(moves, p))
    decreases |moves|
  {
    if moves != [] {
      var n := |moves| - 1;
      var init, m := moves[..n], moves[n];
      LandsUnderATarget(init, p);
      if Under(m.src, After(init, p)) {
        assert Under(m.dst, After(moves, p));
      } else if After(init, p) != p {
        var i :| 0 <= i < n && Under(init[i].dst, After(init, p));
        assert Under(moves[i].dst, After(moves, p));
      }
    }
  }

  /** At a location apart from all moves, a tree differs from the one it came from at most by a new directory. */
  lemma ApartIsAsBefore(t0: Tree, moves: seq<Move>, dirs: set<Location>, t: Tree, q: Location)
    requires Tracked(t0, moves, dirs, t) && Apart(moves, q)
    ensures q in t0 ==> q in t && t[q] == t0[q]
    ensures q in t ==> (q in t0 && t[q] == t0[q]) || (q in dirs && t[q] == Directory)
  {
    StaysPut(moves, q);
    if q in t {
      if p :| p in t0 && After(moves, p) == q {
        LandsUnderATarget(moves, p);
      }
    }
  }

  /** Inside a directory, moves work on relative locations. */
  lemma CarriedWithin(root: Location, p: Location, src: Location, dst: Location)
    ensures Carried(root + p, root + src, root + dst) == root + Carried(p, src, dst)
  {
    UnderWithin(root, src, p);
    if Under(src, p) {
      assert (root + p)[|root + src|..] == p[|src|..];
      assert (root + dst) + p[|src|..] == root + (dst + p[|src|..]);
    }
  }

  lemma UnderWithin(root: Location, dir: Location, p: Location)
    ensures Under(root + dir, root + p) <==> Under(dir, p)
  {
    if |dir| <= |p| {
      assert (root + p)[..|root + dir|] == root + p[..|dir|];
      assert (root + dir)[|root|..] == dir && (root + p[..|dir|])[|root|..] == p[..|dir|];
    }
  }

  // The file system

  class Disk {
    var tree: Tree
    /** A reliable disk fails only for the reasons that the operations state. */
    const reliable: bool

    ghost predicate Valid()
      reads this
    {
      ValidTree(tree)
    }

    method MkdirAll(path: string) returns (ok: bool)
      requires Valid()
      modifies this`tree
      ensures Valid()
      ensures ok ==> CanMakeDirs(old(tree), Locate(path)) && tree == WithDirs(old(tree), Locate(path))
      ensures !ok ==> tree == old(tree) && (reliable ==> !CanMakeDirs(tree, Locate(path)))
    {
      var p := Locate(path);
      var fault: bool := *;
      if !CanMakeDirs(tree, p) || (!reliable && fault) {
        return false;
      }
      WithDirsIsValid(tree, p);
      tree := WithDirs(tree, p);
      return true;
    }

    /** Renames to a free target. */
    method MoveEntry(src: string, dst: string) returns (ok: bool)
      requires Valid() && Locate(src) != []
      modifies this`tree
      ensures Valid()
      ensures ok ==> CanMove(old(tree), Locate(src), Locate(dst)) && tree == Moved(old(tree), Locate(src), Locate(dst))
      ensures !ok ==> tree == old(tree) && (reliable ==> !CanMove(tree, Locate(src), Locate(dst)))
    {
      var s, d := Locate(src), Locate(dst);
      var fault: bool := *;
      if !CanMove(tree, s, d) || (!reliable && fault) {
        return false;
      }
      MovedIsValid(tree, s, d);
      tree := Moved(tree, s, d);
      return true;
    }

    /** Sets the modes of everything below a path; modes are not part of the tree. */
    method SetModes(path: string) returns (ok: bool)
      ensures reliable ==> ok
    {
      var fault: bool := *;
      return reliable || !fault;
    }

    /** Removes what is below a path; if that fails, some of it may be left. */
    method RemoveAll(path: string) returns (ok: bool)
      requires Valid() && Locate(path) != []
      modifies this`tree
      ensures Valid()
      ensures ok ==> tree == Without(old(tree), Locate(path))
      ensures !ok ==> !reliable
      ensures forall q :: q in tree ==> q in old(tree) && tree[q] == old(tree)[q]
      ensures forall q :: q in old(tree) && !Under(Locate(path), q) ==> q in tree
    {
      var p := Locate(path);
      WithoutIsValid(tree, p);
      var fault: bool := *;
      if !reliable && fault {
        return false;
      }
      tree := Without(tree, p);
      return true;
    }
  }
}
