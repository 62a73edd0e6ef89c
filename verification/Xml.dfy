/**
  XML as Go's encoding/xml decoder delivers it: a stream of tokens in which every start tag is followed by
  its end tag. A stream that ends early, or badly, ends in an error instead of EOF.
*/
module Xml {
  import opened Wrappers

  datatype Attr = Attr(local: string, value: string)

  datatype Token =
    | Start(space: string, local: string, attrs: seq<Attr>)
    | End(local: string)
    | Text(chars: string)
    | Other   // comments, directives and processing instructions

  datatype Node =
    | Elem(space: string, local: string, attrs: seq<Attr>, kids: seq<Node>)
    | Chars(chars: string)
    | Misc

  /** The tokens of a sequence of nodes. */
  function Flat(ns: seq<Node>): seq<Token> {
    if ns == [] then [] else FlatNode(ns[0]) + Flat(ns[1..])
  }

  function FlatNode(n: Node): seq<Token> {
    match n
    case Elem(space, local, attrs, kids) => [Start(space, local, attrs)] + Flat(kids) + [End(local)]
    case Chars(chars) => [Text(chars)]
    case Misc => [Other]
  }

  /** The value of the first attribute with a local name; empty if there is none. */
  function FirstAttr(attrs: seq<Attr>, local: string): string {
    if attrs == [] then ""
    else if attrs[0].local == local then attrs[0].value
    else FirstAttr(attrs[1..], local)
  }

  /** The chunks of character data that stand directly among the nodes. */
  function Chunks(ns: seq<Node>): seq<string> {
    if ns == [] then []
    else if ns[0].Chars? then [ns[0].chars] + Chunks(ns[1..])
    else Chunks(ns[1..])
  }

  function Concat(chunks: seq<string>): string {
    if chunks == [] then "" else chunks[0] + Concat(chunks[1..])
  }

  /** The text of the last element `local` among the nodes, or `text` if there is none. */
  function TextOf(ns: seq<Node>, local: string, text: string): string {
    if ns == [] then text
    else if ns[0].Elem? && ns[0].local == local then TextOf(ns[1..], local, Concat(Chunks(ns[0].kids)))
    else TextOf(ns[1..], local, text)
  }

  /** What is left after the end tag that closes the `depth` innermost open elements; None at the end of input. */
  function Skipped(ts: seq<Token>, depth: nat): Option<seq<Token>>
    decreases |ts|
  {
    if depth == 0 then Some(ts)
    else if ts == [] then None
    else match ts[0]
      case Start(_, _, _) => Skipped(ts[1..], depth + 1)
      case End(_) => Skipped(ts[1..], depth - 1)
      case _ => Skipped(ts[1..], depth)
  }

  /** Skipping passes over complete nodes. */
  lemma {:induction false} SkipNodes(ns: seq<Node>, rest: seq<Token>, depth: nat)
    requires depth > 0
    ensures Skipped(Flat(ns) + rest, depth) == Skipped(rest, depth)
    decreases ns
  {
    hide Skipped, FlatNode;
    if ns == [] {
      assert Flat(ns) + rest == rest;
    } else {
      var tail := Flat(ns[1..]) + rest;
      assert Flat(ns) + rest == FlatNode(ns[0]) + tail;
      SkipNode(ns[0], tail, depth);
      SkipNodes(ns[1..], rest, depth);
    }
  }

  lemma {:induction false} SkipNode(n: Node, tail: seq<Token>, depth: nat)
    requires depth > 0
    ensures Skipped(FlatNode(n) + tail, depth) == Skipped(tail, depth)
    decreases n
  {
    hide Flat;
    var ts := FlatNode(n) + tail;
    if n.Elem? {
      var after := [End(n.local)] + tail;
      assert ts[1..] == Flat(n.kids) + after && after[1..] == tail;
      SkipNodes(n.kids, after, depth + 1);
    } else {
      assert ts[1..] == tail;
    }
  }

  /** Skipping an element, its start tag read, ends behind its end tag. */
  lemma SkipElement(kids: seq<Node>, local: string, rest: seq<Token>)
    ensures Skipped(Flat(kids) + ([End(local)] + rest), 1) == Some(rest)
  {
    SkipNodes(kids, [End(local)] + rest, 1);
    assert ([End(local)] + rest)[1..] == rest;
  }

  /** Skipping shortens the input. */
  lemma {:induction false} SkippedIsShorter(ts: seq<Token>, depth: nat)
    ensures var r := Skipped(ts, depth); r.Some? ==> |r.value| <= |ts| && r.value == ts[|ts| - |r.value|..]
    decreases |ts|
  {
    if depth > 0 && ts != [] {
      match ts[0] {
        case Start(_, _, _) => SkippedIsShorter(ts[1..], depth + 1);
        case End(_) => SkippedIsShorter(ts[1..], depth - 1);
        case _ => SkippedIsShorter(ts[1..], depth);
      }
    }
  }

  /** Decoder.Skip: from position `i`, the position behind the end tag, or an error at the end of input. */
  method Skip(ts: seq<Token>, i: nat) returns (j: nat, ok: bool)
    requires i <= |ts|
    ensures ok == Skipped(ts[i..], 1).Some?
    ensures ok ==> i <= j <= |ts| && Skipped(ts[i..], 1) == Some(ts[j..])
  {
    j := i;
    var depth := 1;
    while depth > 0
      invariant i <= j <= |ts|
      invariant Skipped(ts[i..], 1) == Skipped(ts[j..], depth)
      decreases |ts| - j
    {
      if j == |ts| {
        return j, false;
      }
      assert ts[j..][1..] == ts[j + 1..];
      match ts[j] {
        case Start(_, _, _) => depth := depth + 1;
        case End(_) => depth := depth - 1;
        case _ =>
      }
      j := j + 1;
    }
    return j, true;
  }

  /** The nodes up to the end tag that closes the current element, and what follows it. */
  function Taken(ts: seq<Token>): (r: Option<(seq<Node>, seq<Token>)>)
    ensures r.Some? ==> |r.value.1| < |ts|
    decreases |ts|
  {
    if ts == [] then None
    else match ts[0]
      case End(_) => Some(([], ts[1..]))
      case Start(space, local, attrs) =>
        var inner := Taken(ts[1..]);
        if inner.None? then None
        else
          var after := Taken(inner.value.1);
          if after.None? then None
          else Some(([Elem(space, local, attrs, inner.value.0)] + after.value.0, after.value.1))
      case Text(chars) =>
        var after := Taken(ts[1..]);
        if after.None? then None else Some(([Chars(chars)] + after.value.0, after.value.1))
      case Other =>
        var after := Taken(ts[1..]);
        if after.None? then None else Some(([Misc] + after.value.0, after.value.1))
  }

  /** Decoding an element gives back the nodes that it was made of. */
  lemma {:induction false} TakenNodes(ns: seq<Node>, local: string, rest: seq<Token>)
    ensures Taken(Flat(ns) + ([End(local)] + rest)) == Some((ns, rest))
    decreases ns
  {
    hide FlatNode;
    var after := [End(local)] + rest;
    if ns == [] {
      assert Flat(ns) + after == after && after[1..] == rest;
    } else {
      var tail := Flat(ns[1..]) + after;
      assert Flat(ns) + after == FlatNode(ns[0]) + tail;
      TakenNodes(ns[1..], local, rest);
      TakenNode(ns[0], tail);
      assert ns == [ns[0]] + ns[1..];
    }
  }

  lemma {:induction false} TakenNode(n: Node, tail: seq<Token>)
    requires Taken(tail).Some?
    ensures Taken(FlatNode(n) + tail) == Some(([n] + Taken(tail).value.0, Taken(tail).value.1))
    decreases n
  {
    hide Flat;
    var ts := FlatNode(n) + tail;
    if n.Elem? {
      assert ts[1..] == Flat(n.kids) + ([End(n.local)] + tail);
      TakenNodes(n.kids, n.local, tail);
    } else {
      assert ts[1..] == tail;
    }
  }

  /** The text among nodes is that of their chunks of characters, one after the other. */
  lemma {:induction false} TextInOrder(a: seq<Node>, b: seq<Node>)
    ensures Concat(Chunks(a + b)) == Concat(Chunks(a)) + Concat(Chunks(b))
    decreases |a|
  {
    if a == [] {
      assert a + b == b;
    } else {
      assert (a + b)[0] == a[0] && (a + b)[1..] == a[1..] + b;
      TextInOrder(a[1..], b);
      if a[0].Chars? {
        ConcatNext(a[0].chars, Chunks(a[1..]));
        ConcatNext(a[0].chars, Chunks(a[1..] + b));
        assert a[0].chars + (Concat(Chunks(a[1..])) + Concat(Chunks(b))) == (a[0].chars + Concat(Chunks(a[1..]))) + Concat(Chunks(b));
      }
    }
  }

  lemma ConcatNext(chars: string, chunks: seq<string>)
    ensures Concat([chars] + chunks) == chars + Concat(chunks)
  {
    assert ([chars] + chunks)[1..] == chunks;
  }

  lemma TextOfOne(n: Node)
    ensures Concat(Chunks([n])) == if n.Chars? then n.chars else ""
  {
    assert [n][1..] == [];
    if n.Chars? {
      assert [n.chars][1..] == [] && Chunks([n]) == [n.chars];
      assert n.chars + "" == n.chars;
    }
  }
}
