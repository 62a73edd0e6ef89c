/**
  Sorting by a string key, as slices.Sort and slices.SortFunc with strings.Compare do it.
*/
module Sorting {

  /** strings.Compare is not positive. */
  predicate Leq(a: string, b: string) {
    a == "" || (b != "" && (a[0] < b[0] || (a[0] == b[0] && Leq(a[1..], b[1..]))))
  }

  /** The order of a dictionary: one text starts the other, or they first differ where it has the smaller character. */
  predicate Precedes(a: string, b: string) {
    a <= b || exists k :: 0 <= k < |a| && k < |b| && a[..k] == b[..k] && a[k] < b[k]
  }

  /** The same character in front. */
  lemma PrecedesNext(c: char, a: string, b: string)
    ensures Precedes([c] + a, [c] + b) <==> Precedes(a, b)
  {
    var x, y := [c] + a, [c] + b;
    assert x[1..] == a && y[1..] == b && x[0] == y[0] == c;
    assert x <= y <==> a <= b;
    if k :| 0 <= k < |a| && k < |b| && a[..k] == b[..k] && a[k] < b[k] {
      assert x[..k + 1] == [c] + a[..k] && y[..k + 1] == [c] + b[..k] && x[k + 1] == a[k] && y[k + 1] == b[k];
    }
    if k :| 0 <= k < |x| && k < |y| && x[..k] == y[..k] && x[k] < y[k] {
      assert a[..k - 1] == x[..k][1..] && b[..k - 1] == y[..k][1..] && x[k] == a[k - 1] && y[k] == b[k - 1];
    }
  }

  /** Different characters in front. */
  lemma PrecedesByFirst(a: string, b: string)
    requires a != "" && b != "" && a[0] != b[0]
    ensures Precedes(a, b) <==> a[0] < b[0]
  {
    assert a[..0] == b[..0];
    forall k | 0 < k < |a| && k < |b|
      ensures a[..k] != b[..k]
    {
      assert a[..k][0] == a[0] && b[..k][0] == b[0];
    }
  }

  lemma {:induction false} LeqIsDictionaryOrder(a: string, b: string)
    ensures Leq(a, b) <==> Precedes(a, b)
    decreases |a|
  {
    if a != "" && b != "" {
      if a[0] == b[0] {
        LeqIsDictionaryOrder(a[1..], b[1..]);
        PrecedesNext(a[0], a[1..], b[1..]);
        assert a == [a[0]] + a[1..] && b == [a[0]] + b[1..];
      } else {
        PrecedesByFirst(a, b);
      }
      hide Precedes;
    }
  }

  lemma {:induction false} LeqTotal(a: string, b: string)
    ensures Leq(a, b) || Leq(b, a)
    ensures Leq(a, b) && Leq(b, a) ==> a == b
    decreases |a|
  {
    if a != "" && b != "" {
      LeqTotal(a[1..], b[1..]);
      assert a == [a[0]] + a[1..] && b == [b[0]] + b[1..];
    }
  }

  lemma {:induction false} LeqTransitive(a: string, b: string, c: string)
    requires Leq(a, b) && Leq(b, c)
    ensures Leq(a, c)
    decreases |a|
  {
    if a != "" && a[0] == b[0] == c[0] {
      LeqTransitive(a[1..], b[1..], c[1..]);
    }
  }

  predicate Sorted<T>(xs: seq<T>, key: T -> string) {
    forall i, j :: 0 <= i < j < |xs| ==> Leq(key(xs[i]), key(xs[j]))
  }

  /** The sorting functions of the library; any sorted rearrangement would do. */
  method Sort<T>(xs: seq<T>, key: T -> string) returns (ys: seq<T>)
    ensures Sorted(ys, key) && multiset(ys) == multiset(xs)
  {
    ys := [];
    for i := 0 to |xs|
      invariant Sorted(ys, key) && multiset(ys) == multiset(xs[..i])
    {
      assert xs[..i + 1] == xs[..i] + [xs[i]];
      ys := Inserted(xs[i], ys, key);
    }
    assert xs[..|xs|] == xs;
  }

  function Inserted<T>(x: T, ys: seq<T>, key: T -> string): (zs: seq<T>)
    requires Sorted(ys, key)
    ensures Sorted(zs, key) && multiset(zs) == multiset(ys) + multiset{x}
    decreases |ys|
  {
    if ys == [] then [x]
    else if Leq(key(x), key(ys[0])) then
      BeforeAll(x, ys, key);
      [x] + ys
    else
      var rest := Inserted(x, ys[1..], key);
      AfterFirst(x, ys, rest, key);
      [ys[0]] + rest
  }

  lemma BeforeAll<T>(x: T, ys: seq<T>, key: T -> string)
    requires Sorted(ys, key) && ys != [] && Leq(key(x), key(ys[0]))
    ensures Sorted([x] + ys, key)
  {
    hide Leq;
    forall j | 0 <= j < |ys|
      ensures Leq(key(x), key(ys[j]))
    {
      if j > 0 {
        LeqTransitive(key(x), key(ys[0]), key(ys[j]));
      }
    }
  }

  lemma AfterFirst<T>(x: T, ys: seq<T>, rest: seq<T>, key: T -> string)
    requires Sorted(ys, key) && ys != [] && !Leq(key(x), key(ys[0]))
    requires Sorted(rest, key) && multiset(rest) == multiset(ys[1..]) + multiset{x}
    ensures Sorted([ys[0]] + rest, key) && multiset([ys[0]] + rest) == multiset(ys) + multiset{x}
  {
    hide Leq;
    assert ys == [ys[0]] + ys[1..];
    LeqTotal(key(x), key(ys[0]));
    forall j | 0 <= j < |rest|
      ensures Leq(key(ys[0]), key(rest[j]))
    {
      assert rest[j] in multiset(rest);
      assert rest[j] == x || rest[j] in ys[1..];
    }
  }

  /** The key tells the elements apart. */
  ghost predicate KeyIdentifies<T(!new)>(xs: seq<T>, key: T -> string) {
    forall x, y :: x in xs && y in xs && key(x) == key(y) ==> x == y
  }

  lemma SameFirst<T(!new)>(xs: seq<T>, ys: seq<T>, key: T -> string)
    requires Sorted(xs, key) && Sorted(ys, key) && multiset(xs) == multiset(ys) && KeyIdentifies(xs, key) && xs != []
    ensures ys != [] && xs[0] == ys[0]
  {
    hide Leq;
    assert xs[0] in multiset(ys);
    assert ys[0] in multiset(xs);
    var i :| 0 <= i < |xs| && xs[i] == ys[0];
    var j :| 0 <= j < |ys| && ys[j] == xs[0];
    LeqTotal(key(xs[0]), key(ys[0]));
  }

  lemma WithoutFirst<T(!new)>(xs: seq<T>, key: T -> string)
    requires xs != []
    ensures multiset(xs[1..]) == multiset(xs) - multiset{xs[0]} && xs == [xs[0]] + xs[1..]
    ensures Sorted(xs, key) ==> Sorted(xs[1..], key)
    ensures KeyIdentifies(xs, key) ==> KeyIdentifies(xs[1..], key)
  {
    hide Leq;
    assert xs == [xs[0]] + xs[1..];
  }

  /** A sorted list whose elements are told apart by the key is determined by what is in it. */
  lemma {:induction false} SortedIsUnique<T(!new)>(xs: seq<T>, ys: seq<T>, key: T -> string)
    requires Sorted(xs, key) && Sorted(ys, key) && multiset(xs) == multiset(ys) && KeyIdentifies(xs, key)
    ensures xs == ys
    decreases |xs|
  {
    hide Sorted, KeyIdentifies;
    if xs == [] {
      assert |multiset(ys)| == 0;
    } else {
      SameFirst(xs, ys, key);
      WithoutFirst(xs, key);
      WithoutFirst(ys, key);
      SortedIsUnique(xs[1..], ys[1..], key);
    }
  }

  /** Rearranging keeps the elements. */
  lemma SameElements<T>(xs: seq<T>, ys: seq<T>)
    requires multiset(xs) == multiset(ys)
    ensures |xs| == |ys|
    ensures forall x :: x in xs <==> x in ys
  {
    assert |multiset(xs)| == |xs| && |multiset(ys)| == |ys|;
    assert forall x :: x in xs <==> x in multiset(xs);
    assert forall x :: x in ys <==> x in multiset(ys);
  }

  predicate NoRepeats<T(==)>(xs: seq<T>) {
    forall i, j :: 0 <= i < j < |xs| ==> xs[i] != xs[j]
  }

  lemma {:induction false} OnceEach<T>(xs: seq<T>, x: T)
    requires NoRepeats(xs)
    ensures multiset(xs)[x] == if x in xs then 1 else 0
    decreases |xs|
  {
    if xs != [] {
      assert xs == [xs[0]] + xs[1..];
      OnceEach(xs[1..], x);
      if xs[0] == x {
        assert x !in xs[1..];
      }
    }
  }

  /** Lists without repetition that have the same elements are rearrangements of each other. */
  lemma SameSetSameMultiset<T(!new)>(xs: seq<T>, ys: seq<T>)
    requires NoRepeats(xs) && NoRepeats(ys) && forall x :: x in xs <==> x in ys
    ensures multiset(xs) == multiset(ys)
  {
    forall x
      ensures multiset(xs)[x] == multiset(ys)[x]
    {
      OnceEach(xs, x);
      OnceEach(ys, x);
    }
  }

  /** And a rearrangement of a list without repetition has none. */
  lemma RearrangedHasNoRepeats<T>(xs: seq<T>, ys: seq<T>)
    requires NoRepeats(xs) && multiset(xs) == multiset(ys)
    ensures NoRepeats(ys)
  {
    forall i, j | 0 <= i < j < |ys|
      ensures ys[i] != ys[j]
    {
      OnceEach(xs, ys[i]);
      TwicePlaced(ys, i, j);
    }
  }

  lemma TwicePlaced<T>(ys: seq<T>, i: nat, j: nat)
    requires i < j < |ys|
    ensures ys[i] == ys[j] ==> multiset(ys)[ys[i]] >= 2
  {
    assert ys == ys[..i] + [ys[i]] + ys[i + 1..j] + [ys[j]] + ys[j + 1..];
  }

  function Mapped<S, T>(xs: seq<S>, f: S -> T): seq<T> {
    seq(|xs|, i requires 0 <= i < |xs| => f(xs[i]))
  }

  lemma MappedSnoc<S, T>(xs: seq<S>, x: S, f: S -> T)
    ensures Mapped(xs + [x], f) == Mapped(xs, f) + [f(x)]
  {
  }

  function RemovedAt<S>(xs: seq<S>, i: nat): (rest: seq<S>)
    requires i < |xs|
    ensures |rest| == |xs| - 1
  {
    xs[..i] + xs[i + 1..]
  }

  lemma MappedAround<S, T>(xs: seq<S>, i: nat, f: S -> T)
    requires i < |xs|
    ensures multiset(xs) == multiset(RemovedAt(xs, i)) + multiset{xs[i]}
    ensures multiset(Mapped(xs, f)) == multiset(Mapped(RemovedAt(xs, i), f)) + multiset{f(xs[i])}
  {
    var a, b := xs[..i], xs[i + 1..];
    assert xs == a + [xs[i]] + b;
    assert Mapped(xs, f) == Mapped(a, f) + [f(xs[i])] + Mapped(b, f);
    assert Mapped(a + b, f) == Mapped(a, f) + Mapped(b, f);
  }

  /** Mapping a rearrangement rearranges what the list maps to. */
  lemma {:induction false} MappedRearranged<S, T>(xs: seq<S>, ys: seq<S>, f: S -> T)
    requires multiset(xs) == multiset(ys)
    ensures multiset(Mapped(xs, f)) == multiset(Mapped(ys, f))
    decreases |xs|
  {
    if xs == [] {
      assert |multiset(ys)| == 0;
    } else {
      hide Mapped, RemovedAt;
      assert xs[0] in multiset(ys);
      var i :| 0 <= i < |ys| && ys[i] == xs[0];
      MappedAround(xs, 0, f);
      MappedAround(ys, i, f);
      assert multiset(RemovedAt(xs, 0)) == multiset(xs) - multiset{xs[0]};
      assert multiset(RemovedAt(ys, i)) == multiset(ys) - multiset{xs[0]};
      MappedRearranged(RemovedAt(xs, 0), RemovedAt(ys, i), f);
    }
  }
}
