/**
  What the flags of the METS automaton mean for a document: which elements are open around a token, and for divs which
  have ended before. A file group, a file and a structure map are not expected inside another of their kind.
*/
module MetsTree {
  import opened Wrappers
  import opened Xml
  import opened MetsPaths

  /** The start tags of the elements that are open after the tokens, outermost first. */
  function OpenTags(ts: seq<Token>): seq<Token> {
    if ts == [] then []
    else
      var before, t := OpenTags(ts[..|ts| - 1]), ts[|ts| - 1];
      match t
      case Start(_, _, _) => before + [t]
      case End(_) => if before == [] then [] else before[..|before| - 1]
      case _ => before
  }

  lemma OpenOneMore(ts: seq<Token>, t: Token)
    ensures var before := OpenTags(ts);
            OpenTags(ts + [t])
            == if t.Start? then before + [t] else if t.End? && before != [] then before[..|before| - 1] else before
  {
    assert (ts + [t])[..|ts|] == ts;
  }

  /** An end tag closes the innermost open element. */
  predicate Matches(before: seq<Token>, t: Token) {
    t.End? ==> before != [] && before[|before| - 1].Start? && before[|before| - 1].local == t.local
  }

  predicate Balanced(ts: seq<Token>) {
    forall j :: 0 <= j < |ts| ==> Matches(OpenTags(ts[..j]), ts[j])
  }

  /** No element `local` is opened inside another one. */
  predicate NotNested(ts: seq<Token>, local: string) {
    forall j :: 0 <= j < |ts| && Starts(ts[j], local) ==> NoneOpen(OpenTags(ts[..j]), local)
  }

  predicate NoneOpen(open: seq<Token>, local: string) {
    forall i :: 0 <= i < |open| ==> !Starts(open[i], local)
  }

  lemma BalancedOneMore(ts: seq<Token>, t: Token)
    ensures Balanced(ts + [t]) <==> Balanced(ts) && Matches(OpenTags(ts), t)
  {
    var more := ts + [t];
    assert more[..|ts|] == ts && more[|ts|] == t;
    assert forall j :: 0 <= j < |ts| ==> more[..j] == ts[..j] && more[j] == ts[j];
    hide OpenTags, Matches;
    if Balanced(more) {
      forall j | 0 <= j < |ts|
        ensures Matches(OpenTags(ts[..j]), ts[j])
      {
        assert Matches(OpenTags(more[..j]), more[j]);
      }
    }
  }

  lemma NotNestedBefore(ts: seq<Token>, t: Token, local: string)
    requires NotNested(ts + [t], local)
    ensures NotNested(ts, local) && (Starts(t, local) ==> NoneOpen(OpenTags(ts), local))
  {
    var more := ts + [t];
    assert more[..|ts|] == ts && more[|ts|] == t;
    assert forall j :: 0 <= j < |ts| ==> more[..j] == ts[..j] && more[j] == ts[j];
    hide OpenTags, NoneOpen;
  }

  // Documents

  /** Nodes open and close their own elements, and no other. */
  lemma {:induction false} NodesBalance(before: seq<Token>, ns: seq<Node>)
    requires Balanced(before)
    ensures Balanced(before + Flat(ns)) && OpenTags(before + Flat(ns)) == OpenTags(before)
    decreases ns
  {
    hide OpenTags, Balanced;
    if ns == [] {
      assert before + Flat(ns) == before;
    } else {
      NodeBalances(before, ns[0]);
      NodesBalance(before + FlatNode(ns[0]), ns[1..]);
      assert before + Flat(ns) == before + FlatNode(ns[0]) + Flat(ns[1..]);
    }
  }

  lemma {:induction false} NodeBalances(before: seq<Token>, n: Node)
    requires Balanced(before)
    ensures Balanced(before + FlatNode(n)) && OpenTags(before + FlatNode(n)) == OpenTags(before)
    decreases n
  {
    hide OpenTags, Balanced;
    match n {
      case Elem(space, local, attrs, kids) =>
        var start, end := Start(space, local, attrs), End(local);
        BalancedOneMore(before, start);
        OpenOneMore(before, start);
        var inside := before + [start];
        NodesBalance(inside, kids);
        BalancedOneMore(inside + Flat(kids), end);
        OpenOneMore(inside + Flat(kids), end);
        var open := OpenTags(before);
        assert (open + [start])[..|open|] == open;
        assert before + FlatNode(n) == inside + Flat(kids) + [end];
      case Chars(chars) =>
        BalancedOneMore(before, Text(chars));
        OpenOneMore(before, Text(chars));
      case Misc =>
        BalancedOneMore(before, Other);
        OpenOneMore(before, Other);
    }
  }

  /** In a document, cut off anywhere or complete, every end tag closes its element. */
  lemma DocumentsAreBalanced(doc: seq<Node>, ts: seq<Token>)
    requires ts <= Flat(doc)
    ensures Balanced(ts)
  {
    hide OpenTags, Matches, Flat;
    NodesBalance([], doc);
    assert [] + Flat(doc) == Flat(doc);
    forall j | 0 <= j < |ts|
      ensures Matches(OpenTags(ts[..j]), ts[j])
    {
      assert Flat(doc)[..j] == ts[..j] && Flat(doc)[j] == ts[j];
      assert Matches(OpenTags(Flat(doc)[..j]), Flat(doc)[j]);
    }
  }

  /** Without nesting, when an element is about to be closed, no other of its kind is open. */
  lemma {:induction false} OnlyOneOpen(ts: seq<Token>, local: string)
    requires Balanced(ts) && NotNested(ts, local)
    ensures forall i, j :: 0 <= i < j < |OpenTags(ts)| ==> !(Starts(OpenTags(ts)[i], local) && Starts(OpenTags(ts)[j], local))
    decreases |ts|
  {
    hide OpenTags, Balanced, NotNested;
    if ts == [] {
      NothingOpen();
    } else {
      var init, t := ts[..|ts| - 1], ts[|ts| - 1];
      assert ts == init + [t];
      BalancedOneMore(init, t);
      NotNestedBefore(init, t, local);
      OpenOneMore(init, t);
      OnlyOneOpen(init, local);
    }
  }

  lemma NothingOpen()
    ensures OpenTags([]) == []
  {
  }

  // File groups and structure maps

  /** An open element that `opens` says starts the flag. */
  predicate SomeOpen(open: seq<Token>, opens: Token -> bool) {
    exists i :: 0 <= i < |open| && opens(open[i])
  }

  const RELEVANT_GROUP: Token -> bool := t => OpensGroup([], t)
  const PHYSICAL_MAP: Token -> bool := t => OpensMap([], t)

  /** What an end tag does to the open elements of interest: it closes one of its own kind, or none. */
  lemma ClosedOne(open: seq<Token>, t: Token, local: string, opens: Token -> bool)
    requires t.End? && Matches(open, t) && forall s :: opens(s) ==> Starts(s, local)
    requires forall i, j :: 0 <= i < j < |open| ==> !(Starts(open[i], local) && Starts(open[j], local))
    ensures SomeOpen(open[..|open| - 1], opens) <==> SomeOpen(open, opens) && t.local != local
  {
    var last := |open| - 1;
    if i :| 0 <= i < |open| && opens(open[i]) && t.local != local {
      assert open[..last][i] == open[i];
    }
    if i :| 0 <= i < last && opens(open[..last][i]) {
      assert open[..last][i] == open[i];
    }
  }

  lemma OpenedOne(open: seq<Token>, t: Token, opens: Token -> bool)
    ensures SomeOpen(open + [t], opens) <==> SomeOpen(open, opens) || opens(t)
  {
    if i :| 0 <= i < |open| && opens(open[i]) {
      assert (open + [t])[i] == open[i];
    }
    if opens(t) {
      assert (open + [t])[|open|] == t;
    }
  }

  /** Inside a file group for metadata or original files: such an element is open. */
  lemma {:induction false} GroupIsAround(ts: seq<Token>)
    requires Balanced(ts) && NotNested(ts, FILE_GRP)
    ensures InGroup(ts) <==> SomeOpen(OpenTags(ts), RELEVANT_GROUP)
    decreases |ts|
  {
    hide OpenTags, Balanced, NotNested, Since, AttrOf, FILE_GRP, METADATA, ORIGINAL, SomeOpen, Matches;
    if ts == [] {
      NothingOpen();
      NoneOpenAtStart(RELEVANT_GROUP);
      NotSinceStart(OpensGroup, ClosesGroup);
    } else {
      var init, t := ts[..|ts| - 1], ts[|ts| - 1];
      assert ts == init + [t];
      BalancedOneMore(init, t);
      NotNestedBefore(init, t, FILE_GRP);
      GroupIsAround(init);
      OpenOneMore(init, t);
      SinceNext(init, t, OpensGroup, ClosesGroup);
      if t.Start? {
        OpenedOne(OpenTags(init), t, RELEVANT_GROUP);
      } else if t.End? {
        OnlyOneOpen(init, FILE_GRP);
        MatchesSome(OpenTags(init), t);
        ClosedOne(OpenTags(init), t, FILE_GRP, RELEVANT_GROUP);
      }
    }
  }

  lemma NoneOpenAtStart(opens: Token -> bool)
    ensures !SomeOpen([], opens)
  {
  }

  lemma MatchesSome(open: seq<Token>, t: Token)
    requires Matches(open, t) && t.End?
    ensures open != []
  {
  }

  /** Inside the physical structure map: it is open. */
  lemma {:induction false} MapIsAround(ts: seq<Token>)
    requires Balanced(ts) && NotNested(ts, STRUCT_MAP)
    ensures InPhysicalMap(ts) <==> SomeOpen(OpenTags(ts), PHYSICAL_MAP)
    decreases |ts|
  {
    hide OpenTags, Balanced, NotNested, Since, AttrOf, STRUCT_MAP, PHYSICAL, SomeOpen, Matches;
    if ts == [] {
      NothingOpen();
      NoneOpenAtStart(PHYSICAL_MAP);
      NotSinceStart(OpensMap, ClosesMap);
    } else {
      var init, t := ts[..|ts| - 1], ts[|ts| - 1];
      assert ts == init + [t];
      BalancedOneMore(init, t);
      NotNestedBefore(init, t, STRUCT_MAP);
      MapIsAround(init);
      OpenOneMore(init, t);
      SinceNext(init, t, OpensMap, ClosesMap);
      if t.Start? {
        OpenedOne(OpenTags(init), t, PHYSICAL_MAP);
      } else if t.End? {
        OnlyOneOpen(init, STRUCT_MAP);
        MatchesSome(OpenTags(init), t);
        ClosedOne(OpenTags(init), t, STRUCT_MAP, PHYSICAL_MAP);
      }
    }
  }

  // Files

  /** A file with the identifier is open inside a relevant group that is open. */
  predicate FileAround(open: seq<Token>, id: string) {
    exists g, f :: 0 <= g < f < |open| && RELEVANT_GROUP(open[g]) && Starts(open[f], FILE) && AttrOf(open[f], ID) == id
  }

  lemma FileOpened(open: seq<Token>, t: Token, id: string)
    ensures FileAround(open + [t], id)
            <==> FileAround(open, id) || (SomeOpen(open, RELEVANT_GROUP) && Starts(t, FILE) && AttrOf(t, ID) == id)
  {
    hide RELEVANT_GROUP, AttrOf, FILE, ID;
    var more := open + [t];
    assert more[|open|] == t && forall i :: 0 <= i < |open| ==> more[i] == open[i];
    if g, f :| 0 <= g < f < |more| && RELEVANT_GROUP(more[g]) && Starts(more[f], FILE) && AttrOf(more[f], ID) == id {
      assert RELEVANT_GROUP(open[g]);
    }
    if SomeOpen(open, RELEVANT_GROUP) && Starts(t, FILE) && AttrOf(t, ID) == id {
      var g :| 0 <= g < |open| && RELEVANT_GROUP(open[g]);
      assert RELEVANT_GROUP(more[g]);
    }
    if g, f :| 0 <= g < f < |open| && RELEVANT_GROUP(open[g]) && Starts(open[f], FILE) && AttrOf(open[f], ID) == id {
      assert RELEVANT_GROUP(more[g]) && Starts(more[f], FILE);
    }
  }

  lemma FileClosed(open: seq<Token>, t: Token, id: string)
    requires t.End? && Matches(open, t)
    requires forall i, j :: 0 <= i < j < |open| ==> !(Starts(open[i], FILE) && Starts(open[j], FILE))
    ensures FileAround(open[..|open| - 1], id) <==> FileAround(open, id) && t.local != FILE
  {
    hide RELEVANT_GROUP, AttrOf, FILE, ID;
    var last := |open| - 1;
    var less := open[..last];
    assert forall i :: 0 <= i < last ==> less[i] == open[i];
    if g, f :| 0 <= g < f < |open| && RELEVANT_GROUP(open[g]) && Starts(open[f], FILE) && AttrOf(open[f], ID) == id && t.local != FILE {
      assert f < last && RELEVANT_GROUP(less[g]) && Starts(less[f], FILE);
    }
    if g, f :| 0 <= g < f < last && RELEVANT_GROUP(less[g]) && Starts(less[f], FILE) && AttrOf(less[f], ID) == id {
      assert RELEVANT_GROUP(open[g]) && Starts(open[f], FILE);
    }
  }

  lemma NoFileAround(open: seq<Token>, id: string)
    requires NoneOpen(open, FILE)
    ensures !FileAround(open, id)
  {
    hide RELEVANT_GROUP, AttrOf, FILE, ID;
  }

  /** Inside a file of such a group: the file is open, and the group around it. */
  lemma {:induction false} FileIsAround(ts: seq<Token>, id: string)
    requires Balanced(ts) && NotNested(ts, FILE_GRP) && NotNested(ts, FILE)
    ensures InFile(ts, id) <==> FileAround(OpenTags(ts), id)
    decreases |ts|
  {
    hide OpenTags, Balanced, NotNested, NoneOpen, Since, AttrOf, FILE_GRP, FILE, ID, SomeOpen, Matches, FileAround, InGroup;
    if ts == [] {
      NothingOpen();
      NoneOpenIn([]);
      NoFileAround([], id);
      NotSinceStart(OpensFileWith(id), LeavesFile);
    } else {
      var init, t := ts[..|ts| - 1], ts[|ts| - 1];
      assert ts == init + [t];
      BalancedOneMore(init, t);
      NotNestedBefore(init, t, FILE_GRP);
      NotNestedBefore(init, t, FILE);
      GroupIsAround(init);
      FileIsAround(init, id);
      OpenOneMore(init, t);
      SinceNext(init, t, OpensFileWith(id), LeavesFile);
      if t.Start? {
        FileOpened(OpenTags(init), t, id);
        if Starts(t, FILE) {
          NoFileAround(OpenTags(init), id);
        }
      } else if t.End? {
        OnlyOneOpen(init, FILE);
        MatchesSome(OpenTags(init), t);
        FileClosed(OpenTags(init), t, id);
      }
    }
  }

  lemma NoneOpenIn(open: seq<Token>)
    requires open == []
    ensures NoneOpen(open, FILE)
  {
  }

  // Open elements by position

  /** The element that starts at position `j` has not been closed again: never since are as few elements open as before it. */
  predicate IsOpen(ts: seq<Token>, j: int) {
    && 0 <= j < |ts| && ts[j].Start?
    && forall k :: j < k <= |ts| ==> |OpenTags(ts[..k])| > |OpenTags(ts[..j])|
  }

  lemma OpenBefore(ts: seq<Token>, n: nat, j: int)
    requires n <= |ts| && j < n
    ensures IsOpen(ts, j) ==> IsOpen(ts[..n], j)
    ensures IsOpen(ts[..n], j) && IsOpen(ts, n) ==> IsOpen(ts, j)
  {
    assert 0 <= j ==> ts[..n][j] == ts[j];
    assert forall k :: 0 <= k <= n ==> ts[..n][..k] == ts[..k];
    hide OpenTags;
    if IsOpen(ts[..n], j) && IsOpen(ts, n) {
      assert |OpenTags(ts[..n][..n])| > |OpenTags(ts[..n][..j])|;
      forall k | j < k <= |ts|
        ensures |OpenTags(ts[..k])| > |OpenTags(ts[..j])|
      {
        if k <= n {
          assert |OpenTags(ts[..n][..k])| > |OpenTags(ts[..n][..j])|;
        }
      }
    }
    if IsOpen(ts, j) {
      forall k | j < k <= n
        ensures |OpenTags(ts[..n][..k])| > |OpenTags(ts[..n][..j])|
      {
        assert |OpenTags(ts[..k])| > |OpenTags(ts[..j])|;
      }
    }
  }

  lemma OpenOneLonger(ts: seq<Token>, t: Token, j: int)
    requires 0 <= j < |ts|
    ensures IsOpen(ts + [t], j) <==> IsOpen(ts, j) && |OpenTags(ts + [t])| > |OpenTags(ts[..j])|
  {
    var more := ts + [t];
    assert more[j] == ts[j] && more[..|more|] == more && more[..j] == ts[..j];
    hide OpenTags;
    if IsOpen(more, j) {
      assert |OpenTags(more[..|more|])| > |OpenTags(more[..j])|;
      forall k | j < k <= |ts|
        ensures |OpenTags(ts[..k])| > |OpenTags(ts[..j])|
      {
        assert more[..k] == ts[..k];
        assert |OpenTags(more[..k])| > |OpenTags(more[..j])|;
      }
    }
    if IsOpen(ts, j) && |OpenTags(more)| > |OpenTags(ts[..j])| {
      forall k | j < k <= |more|
        ensures |OpenTags(more[..k])| > |OpenTags(more[..j])|
      {
        if k <= |ts| {
          assert more[..k] == ts[..k];
          assert |OpenTags(ts[..k])| > |OpenTags(ts[..j])|;
        }
      }
    }
  }

  /** An open element is among the open ones, above those around it. */
  lemma {:induction false} OpenIsThere(ts: seq<Token>, j: int)
    requires IsOpen(ts, j)
    ensures var d := |OpenTags(ts[..j])|; d < |OpenTags(ts)| && OpenTags(ts)[d] == ts[j]
    decreases |ts|
  {
    var init, t := ts[..|ts| - 1], ts[|ts| - 1];
    assert ts == init + [t];
    OpenOneMore(init, t);
    hide OpenTags, IsOpen;
    if j < |init| {
      OpenOneLonger(init, t, j);
      assert init[..j] == ts[..j] && init[j] == ts[j];
      OpenIsThere(init, j);
    } else {
      StartsAt(ts, j);
      assert ts[..j] == init;
    }
  }

  lemma StartsAt(ts: seq<Token>, j: int)
    requires IsOpen(ts, j)
    ensures 0 <= j < |ts| && ts[j].Start?
  {
  }

  /** And each of the open ones starts somewhere. */
  lemma {:induction false} StartOf(ts: seq<Token>, i: nat) returns (j: nat)
    requires i < |OpenTags(ts)|
    ensures IsOpen(ts, j) && ts[j] == OpenTags(ts)[i] && |OpenTags(ts[..j])| == i
    decreases |ts|
  {
    if ts == [] {
      NothingOpen();
      assert false;
    }
    var init, t := ts[..|ts| - 1], ts[|ts| - 1];
    assert ts == init + [t];
    OpenOneMore(init, t);
    if t.Start? && i == |OpenTags(init)| {
      j := |init|;
      assert ts[..j] == init && ts[..|ts|] == ts;
    } else {
      hide OpenTags, IsOpen;
      j := StartOf(init, i);
      StartsAt(init, j);
      assert init[..j] == ts[..j] && init[j] == ts[j];
      OpenOneLonger(init, t, j);
    }
  }

  lemma SomeOpenIff(ts: seq<Token>, opens: Token -> bool)
    ensures SomeOpen(OpenTags(ts), opens) <==> exists j :: IsOpen(ts, j) && opens(ts[j])
  {
    hide OpenTags, IsOpen;
    forall j: int | IsOpen(ts, j)
      ensures 0 <= j < |ts|
    {
      StartsAt(ts, j);
    }
    if SomeOpen(OpenTags(ts), opens) {
      var i: nat :| i < |OpenTags(ts)| && opens(OpenTags(ts)[i]);
      var j := StartOf(ts, i);
      assert IsOpen(ts, j) && opens(ts[j]);
    }
    if j :| IsOpen(ts, j) && opens(ts[j]) {
      OpenIsThere(ts, j);
    }
  }

  // Divs

  predicate IsDiv(t: Token, name: string) {
    Starts(t, DIV) && AttrOf(t, LABEL) == name
  }

  predicate NoDivEnds(ts: seq<Token>, j: int) {
    forall k :: 0 <= j < k < |ts| ==> !Ends(ts[k], DIV)
  }

  /** The physical structure map is open around the element at position `j`. */
  predicate MapAround(ts: seq<Token>, j: int) {
    exists m :: 0 <= m < j && IsOpen(ts, m) && PHYSICAL_MAP(ts[m])
  }

  /** A div of that name is open inside the physical structure map, and since it started no div has ended. */
  predicate DivSince(ts: seq<Token>, h: int, name: string) {
    IsOpen(ts, h) && IsDiv(ts[h], name) && MapAround(ts, h) && NoDivEnds(ts, h)
  }

  /** A metadata div is open in a header div, and no div has ended since the header div started. */
  predicate MetadataSince(ts: seq<Token>, h: int, d: int) {
    h < d && DivSince(ts, h, HEADER) && IsOpen(ts, d) && IsDiv(ts[d], METADATA_FILE)
  }

  lemma StaysOpenOver(open: seq<Token>, more: seq<Token>, t: Token, d: nat)
    requires d < |open| && Starts(open[d], DIV) && Matches(open, t) && !Ends(t, DIV)
    requires more == if t.Start? then open + [t] else if t.End? && open != [] then open[..|open| - 1] else open
    ensures |more| > d
  {
    hide DIV;
  }

  lemma JustOpened(init: seq<Token>, t: Token)
    requires t.Start?
    ensures IsOpen(init + [t], |init|)
  {
    var ts := init + [t];
    OpenOneMore(init, t);
    assert ts[..|init|] == init && ts[..|ts|] == ts;
    hide OpenTags;
  }

  /** What is known of a div before the last token. */
  lemma OneShorter(init: seq<Token>, t: Token, j: int)
    requires 0 <= j < |init| && NoDivEnds(init + [t], j)
    ensures (init + [t])[j] == init[j] && NoDivEnds(init, j) && !Ends(t, DIV)
  {
    var ts := init + [t];
    assert ts[|init|] == t && forall k :: 0 <= k < |init| ==> ts[k] == init[k];
    hide DIV;
  }

  lemma LastToken(ts: seq<Token>)
    requires ts != []
    ensures ts == ts[..|ts| - 1] + [ts[|ts| - 1]]
  {
  }

  /** As long as no div ends, the div stays open. */
  lemma {:induction false} StaysOpen(ts: seq<Token>, j: int)
    requires Balanced(ts) && 0 <= j < |ts| && Starts(ts[j], DIV) && NoDivEnds(ts, j)
    ensures IsOpen(ts, j)
    decreases |ts|
  {
    assert ts[j].Start?;
    hide *;
    var init, t := ts[..|ts| - 1], ts[|ts| - 1];
    LastToken(ts);
    if j < |init| {
      OneShorter(init, t, j);
      BalancedOneMore(init, t);
      OpenOneMore(init, t);
      StaysOpen(init, j);
      OpenIsThere(init, j);
      StaysOpenOver(OpenTags(init), OpenTags(ts), t, |OpenTags(init[..j])|);
      OpenOneLonger(init, t, j);
    } else {
      JustOpened(init, t);
    }
  }

  /** Where a div starts, the physical structure map is around exactly when the parser takes itself to be in it. */
  lemma MapAroundDiv(ts: seq<Token>, j: int)
    requires Balanced(ts) && NotNested(ts, STRUCT_MAP) && IsOpen(ts, j)
    ensures MapAround(ts, j) <==> InPhysicalMap(ts[..j])
  {
    StartsAt(ts, j);
    var before := ts[..j];
    Earlier(ts, j);
    hide Balanced, NotNested, InPhysicalMap, SomeOpen, OpenTags, IsOpen, PHYSICAL_MAP;
    MapIsAround(before);
    SomeOpenIff(before, PHYSICAL_MAP);
    if m :| 0 <= m < j && IsOpen(ts, m) && PHYSICAL_MAP(ts[m]) {
      OpenBefore(ts, j, m);
      StartsAt(ts, m);
      assert before[m] == ts[m];
    }
    if m :| IsOpen(before, m) && PHYSICAL_MAP(before[m]) {
      StartsAt(before, m);
      OpenBefore(ts, j, m);
      assert before[m] == ts[m];
    }
  }

  lemma Earlier(ts: seq<Token>, n: nat)
    requires n <= |ts|
    ensures Balanced(ts) ==> Balanced(ts[..n])
    ensures forall local :: NotNested(ts, local) ==> NotNested(ts[..n], local)
  {
    var less := ts[..n];
    assert forall j :: 0 <= j < n ==> less[..j] == ts[..j] && less[j] == ts[j];
    hide OpenTags, Matches, NoneOpen;
    if Balanced(ts) {
      forall j | 0 <= j < n
        ensures Matches(OpenTags(less[..j]), less[j])
      {
        assert Matches(OpenTags(ts[..j]), ts[j]);
      }
    }
    forall local, j | NotNested(ts, local) && 0 <= j < n && Starts(less[j], local)
      ensures NoneOpen(OpenTags(less[..j]), local)
    {
      assert NoneOpen(OpenTags(ts[..j]), local);
    }
  }

  /** A div has opened and none has ended since: that div is open. */
  lemma DivIsAround(ts: seq<Token>, name: string)
    requires Balanced(ts) && NotNested(ts, STRUCT_MAP)
    ensures Since(ts, OpensDiv(name), ClosesDiv) <==> exists h :: DivSince(ts, h, name)
  {
    hide Balanced, NotNested, IsOpen, InPhysicalMap, MapAround, AttrOf, DIV, LABEL, STRUCT_MAP;
    if Since(ts, OpensDiv(name), ClosesDiv) {
      var h :| 0 <= h < |ts| && OpensDiv(name)(ts[..h], ts[h]) && forall k :: h < k < |ts| ==> !ClosesDiv(ts[..k], ts[k]);
      assert forall k :: h < k < |ts| ==> !ClosesDiv(ts[..k], ts[k]) && !Ends(ts[k], DIV);
      StaysOpen(ts, h);
      MapAroundDiv(ts, h);
      assert DivSince(ts, h, name);
    }
    if h :| DivSince(ts, h, name) {
      StartsAt(ts, h);
      MapAroundDiv(ts, h);
      assert OpensDiv(name)(ts[..h], ts[h]);
    }
  }

  lemma MapAroundBefore(ts: seq<Token>, h: int, n: nat)
    requires 0 <= h < n <= |ts|
    ensures MapAround(ts, h) ==> MapAround(ts[..n], h)
    ensures MapAround(ts[..n], h) && IsOpen(ts, n) ==> MapAround(ts, h)
  {
    hide IsOpen, PHYSICAL_MAP;
    if MapAround(ts, h) {
      var m :| 0 <= m < h && IsOpen(ts, m) && PHYSICAL_MAP(ts[m]);
      OpenBefore(ts, n, m);
      assert ts[..n][m] == ts[m];
    }
    if MapAround(ts[..n], h) && IsOpen(ts, n) {
      var m :| 0 <= m < h && IsOpen(ts[..n], m) && PHYSICAL_MAP(ts[..n][m]);
      OpenBefore(ts, n, m);
      assert ts[..n][m] == ts[m];
    }
  }

  lemma NoDivEndsBefore(ts: seq<Token>, h: int, n: nat)
    requires 0 <= h < n <= |ts|
    ensures NoDivEnds(ts, h) ==> NoDivEnds(ts[..n], h)
    ensures NoDivEnds(ts[..n], h) && NoDivEnds(ts, n) && (n < |ts| ==> !Ends(ts[n], DIV)) ==> NoDivEnds(ts, h)
  {
    assert forall k :: 0 <= k < n ==> ts[..n][k] == ts[k];
    hide DIV;
  }

  lemma DivSinceBefore(ts: seq<Token>, h: int, n: nat, name: string)
    requires 0 <= h < n <= |ts|
    ensures DivSince(ts, h, name) ==> DivSince(ts[..n], h, name)
    ensures DivSince(ts[..n], h, name) && IsOpen(ts, n) && NoDivEnds(ts, n) ==> DivSince(ts, h, name)
  {
    hide IsOpen, IsDiv, MapAround, NoDivEnds;
    assert ts[..n][h] == ts[h];
    OpenBefore(ts, n, h);
    MapAroundBefore(ts, h, n);
    NoDivEndsBefore(ts, h, n);
    if IsOpen(ts, n) {
      StartsAt(ts, n);
    }
  }

  lemma MetadataIsAround(ts: seq<Token>)
    requires Balanced(ts) && NotNested(ts, STRUCT_MAP)
    ensures InMetadataDiv(ts) <==> exists h, d :: MetadataSince(ts, h, d)
  {
    hide Balanced, NotNested, IsOpen, InPhysicalMap, InHeader, DivSince, AttrOf, DIV, LABEL, STRUCT_MAP, HEADER, METADATA_FILE;
    if InMetadataDiv(ts) {
      var d :| 0 <= d < |ts| && OpensMetadataDiv(ts[..d], ts[d]) && forall k :: d < k < |ts| ==> !ClosesDiv(ts[..k], ts[k]);
      assert forall k :: d < k < |ts| ==> !ClosesDiv(ts[..k], ts[k]) && !Ends(ts[k], DIV);
      StaysOpen(ts, d);
      Earlier(ts, d);
      HeaderIsAround(ts[..d]);
      var h :| DivSince(ts[..d], h, HEADER);
      DivSinceIsEarlier(ts[..d], h, HEADER);
      DivSinceBefore(ts, h, d, HEADER);
      assert MetadataSince(ts, h, d);
    }
    if h, d :| MetadataSince(ts, h, d) {
      StartsAt(ts, d);
      Earlier(ts, d);
      MapOfHeader(ts, h, d);
      DivSinceBefore(ts, h, d, HEADER);
      HeaderIsAround(ts[..d]);
      MapAroundDiv(ts, d);
      assert OpensMetadataDiv(ts[..d], ts[d]);
    }
  }

  lemma HeaderIsAround(ts: seq<Token>)
    requires Balanced(ts) && NotNested(ts, STRUCT_MAP)
    ensures InHeader(ts) <==> exists h :: DivSince(ts, h, HEADER)
  {
    hide Balanced, NotNested, Since, DivSince;
    DivIsAround(ts, HEADER);
  }

  lemma DivSinceIsEarlier(ts: seq<Token>, h: int, name: string)
    requires DivSince(ts, h, name)
    ensures 0 <= h < |ts|
  {
  }

  lemma MapOfHeader(ts: seq<Token>, h: int, d: int)
    requires MetadataSince(ts, h, d)
    ensures MapAround(ts, d) && 0 <= h && forall k :: d < k < |ts| ==> !Ends(ts[k], DIV)
  {
    hide IsDiv, PHYSICAL_MAP, DIV, OpenTags;
  }

  /**
    At every point of a METS document without such nesting: the parser takes itself to be inside a relevant file
    group, inside a file, or inside the physical structure map exactly when it is; and it takes itself to be in a div
    for one of the metadata files exactly when that div is open in the map, for metadata.xml in a header div that is
    open, and no div has ended since the start of that div or that header div.
  */
  lemma FlagsOfADocument(doc: seq<Node>, ts: seq<Token>)
    requires ts <= Flat(doc) && NotNested(ts, FILE_GRP) && NotNested(ts, FILE) && NotNested(ts, STRUCT_MAP)
    ensures FilesRun(ts).inFileGrp <==> SomeOpen(OpenTags(ts), RELEVANT_GROUP)
    ensures forall id :: id != "" ==> (FilesRun(ts).currentFileID == id <==> FileAround(OpenTags(ts), id))
    ensures DivsRun(ts).inStructMap <==> SomeOpen(OpenTags(ts), PHYSICAL_MAP)
    ensures DivsRun(ts).inHeaderDiv <==> exists h :: DivSince(ts, h, HEADER)
    ensures DivsRun(ts).inMdDiv <==> exists h, d :: MetadataSince(ts, h, d)
    ensures DivsRun(ts).inUAMdDiv <==> exists d :: DivSince(ts, d, UPDATED_FILE)
  {
    hide *;
    DocumentsAreBalanced(doc, ts);
    GroupMeans(ts);
    GroupIsAround(ts);
    forall id | id != ""
      ensures FilesRun(ts).currentFileID == id <==> FileAround(OpenTags(ts), id)
    {
      FileMeans(ts, id);
      FileIsAround(ts, id);
    }
    MapMeans(ts);
    MapIsAround(ts);
    HeaderMeans(ts);
    HeaderIsAround(ts);
    MetadataDivMeans(ts);
    MetadataIsAround(ts);
    UpdatedDivMeans(ts);
    UpdatedIsAround(ts);
  }

  lemma UpdatedIsAround(ts: seq<Token>)
    requires Balanced(ts) && NotNested(ts, STRUCT_MAP)
    ensures InUpdatedDiv(ts) <==> exists d :: DivSince(ts, d, UPDATED_FILE)
  {
    hide Balanced, NotNested, Since, DivSince;
    DivIsAround(ts, UPDATED_FILE);
  }

  // A document in which the div is missed

  lemma ElementTokens(before: seq<Token>, n: Node)
    requires n.Elem?
    ensures before + FlatNode(n) == before + [Start(n.space, n.local, n.attrs)] + Flat(n.kids) + [End(n.local)]
  {
    hide Flat;
    var start, kids, end := [Start(n.space, n.local, n.attrs)], Flat(n.kids), [End(n.local)];
    assert FlatNode(n) == start + kids + end;
    assert before + (start + kids + end) == before + start + kids + end;
  }

  /** What the two halves make of an element. */
  lemma RunElement(before: seq<Token>, n: Node)
    requires n.Elem?
    ensures var start, inside := Start(n.space, n.local, n.attrs), before + [Start(n.space, n.local, n.attrs)];
            && FilesRun(inside) == FilesStep(FilesRun(before), start) && DivsRun(inside) == DivsStep(DivsRun(before), start)
            && FilesRun(before + FlatNode(n)) == FilesStep(FilesRun(inside + Flat(n.kids)), End(n.local))
            && DivsRun(before + FlatNode(n)) == DivsStep(DivsRun(inside + Flat(n.kids)), End(n.local))
  {
    hide *;
    var start, end := Start(n.space, n.local, n.attrs), End(n.local);
    ElementTokens(before, n);
    RunOneMore(before, start);
    RunOneMore(before + [start] + Flat(n.kids), end);
  }

  lemma FlatOfOne(before: seq<Token>, n: Node)
    ensures before + Flat([n]) == before + FlatNode(n)
  {
    assert [n][1..] == [];
  }

  lemma FlatOfTwo(before: seq<Token>, n: Node, m: Node)
    ensures before + Flat([n, m]) == before + FlatNode(n) + FlatNode(m)
  {
    hide FlatNode;
    var a, b := FlatNode(n), FlatNode(m);
    assert [n, m][1..] == [m] && [m][1..] == [];
    assert Flat([]) == [];
    assert Flat([m]) == b;
    assert Flat([n, m]) == a + b;
  }

  function DivOf(name: string, kids: seq<Node>): Node {
    Elem("mets", "div", [Attr("LABEL", name)], kids)
  }

  function Pointer(id: string): Node {
    Elem("mets", "fptr", [Attr("FILEID", id)], [])
  }

  /** A file with its group, identifier and path. */
  datatype GroupFile = GroupFile(use: string, id: string, path: string)

  /** One file in the file section. */
  function FileSection(f: GroupFile): Node {
    Elem("mets", "fileGrp", [Attr("USE", f.use)], [Elem("mets", "file", [Attr("ID", f.id)], [Elem("mets", "FLocat", [Attr("href", f.path)], [])])])
  }

  function HeaderKids(id: string, earlier: bool): seq<Node> {
    var metadata := DivOf("metadata.xml", [Pointer(id)]);
    if earlier then [DivOf("xsd", []), metadata] else [metadata]
  }

  /** The physical structure map: a header div and in it, maybe after another div, that of metadata.xml; then the other file. */
  function PhysicalMap(id: string, id': string, earlier: bool): Node {
    Elem("mets", "structMap", [Attr("TYPE", "physical")],
         [DivOf("header", HeaderKids(id, earlier)), DivOf("UpdatedAreldaMetadata.xml", [Pointer(id')])])
  }

  function MetsDocument(f: GroupFile, g: GroupFile, earlier: bool): seq<Node> {
    [FileSection(f), FileSection(g), PhysicalMap(f.id, g.id, earlier)]
  }

  lemma OneAttr(local: string, name: string, value: string)
    ensures AttrOf(Start("mets", local, [Attr(name, value)]), name) == value
  {
  }

  lemma StepsOfGroup(f: Files, d: Divs, group: Token, file: Token, located: Token)
    requires Starts(group, FILE_GRP) && (AttrOf(group, USE) == METADATA || AttrOf(group, USE) == ORIGINAL)
    requires Starts(file, FILE) && AttrOf(file, ID) != "" && Starts(located, FLOCAT)
    ensures FilesStep(FilesStep(FilesStep(f, group), file), located)
            == Files(true, AttrOf(file, ID), f.paths[AttrOf(file, ID) := AttrOf(located, HREF)])
    ensures DivsStep(DivsStep(DivsStep(d, group), file), located) == d
  {
    DifferentWords();
    hide AttrOf, FILE_GRP, FILE, FLOCAT, STRUCT_MAP, DIV, FPTR, USE, ID, HREF, METADATA, ORIGINAL;
  }

  lemma EndsOfGroup(d: Divs, f: Files)
    ensures FilesStep(FilesStep(FilesStep(f, End(FLOCAT)), End(FILE)), End(FILE_GRP)) == Files(false, "", f.paths)
    ensures DivsStep(DivsStep(DivsStep(d, End(FLOCAT)), End(FILE)), End(FILE_GRP)) == d
  {
    DifferentWords();
    hide FILE_GRP, FILE, FLOCAT, STRUCT_MAP, DIV, FPTR;
  }

  lemma FlatOfNone(before: seq<Token>)
    ensures before + Flat([]) == before
  {
  }

  /** The file is recorded under its identifier. */
  lemma RunFileSection(before: seq<Token>, f: GroupFile)
    requires f.id != "" && (f.use == "metadata" || f.use == "original")
    ensures FilesRun(before + FlatNode(FileSection(f))) == Files(false, "", FilesRun(before).paths[f.id := f.path])
    ensures DivsRun(before + FlatNode(FileSection(f))) == DivsRun(before)
  {
    var located := Elem("mets", FLOCAT, [Attr(HREF, f.path)], []);
    var file := Elem("mets", FILE, [Attr(ID, f.id)], [located]);
    var group := FileSection(f);
    assert group == Elem("mets", FILE_GRP, [Attr(USE, f.use)], [file]);
    var start, start', start'' := Start("mets", FILE_GRP, [Attr(USE, f.use)]), Start("mets", FILE, [Attr(ID, f.id)]),
                                  Start("mets", FLOCAT, [Attr(HREF, f.path)]);
    assert Starts(start, FILE_GRP) && Starts(start', FILE) && Starts(start'', FLOCAT);
    assert METADATA == "metadata" && ORIGINAL == "original";
    hide *;
    var inGroup := before + [start];
    var inFile := inGroup + [start'];
    var inLocated := inFile + [start''];
    OneAttr(FILE_GRP, USE, f.use);
    OneAttr(FILE, ID, f.id);
    OneAttr(FLOCAT, HREF, f.path);
    StepsOfGroup(FilesRun(before), DivsRun(before), start, start', start'');
    EndsOfGroup(DivsRun(before), FilesRun(inLocated));
    RunElement(before, group);
    FlatOfOne(inGroup, file);
    RunElement(inGroup, file);
    FlatOfOne(inFile, located);
    RunElement(inFile, located);
    FlatOfNone(inLocated);
  }

  /** Inside the map, a div without a pointer changes nothing but takes down the flags. */
  lemma RunEmptyDiv(before: seq<Token>, name: string)
    requires name != HEADER && name != METADATA_FILE && name != UPDATED_FILE
    ensures DivsRun(before + FlatNode(DivOf(name, [])))
            == DivsRun(before).(inHeaderDiv := false, inUAMdDiv := false, inMdDiv := false)
    ensures FilesRun(before + FlatNode(DivOf(name, []))) == FilesRun(before)
  {
    var n := DivOf(name, []);
    var inside := before + [Start("mets", DIV, [Attr(LABEL, name)])];
    assert inside + Flat([]) == inside;
    assert n == Elem("mets", DIV, [Attr(LABEL, name)], []);
    DifferentWords();
    OneAttr(DIV, LABEL, name);
    hide FilesRun, DivsRun, AttrOf, FILE_GRP, FILE, FLOCAT, STRUCT_MAP, DIV, FPTR, LABEL, HEADER, METADATA_FILE, UPDATED_FILE, FlatNode, Flat;
    RunElement(before, n);
  }

  lemma StepsOfDiv(d: Divs, f: Files, div: Token, pointer: Token)
    requires Starts(div, DIV) && (AttrOf(div, LABEL) == METADATA_FILE || AttrOf(div, LABEL) == UPDATED_FILE) && Starts(pointer, FPTR)
    requires d.inStructMap && !d.inMdDiv && !d.inUAMdDiv
    ensures var updated, id := AttrOf(div, LABEL) == UPDATED_FILE, AttrOf(pointer, FILEID);
            DivsStep(DivsStep(DivsStep(DivsStep(d, div), pointer), End(FPTR)), End(DIV))
            == d.(inHeaderDiv := false, mdFileID := if !updated && d.inHeaderDiv then id else d.mdFileID,
                  uamdFileID := if updated then id else d.uamdFileID)
    ensures FilesStep(FilesStep(FilesStep(FilesStep(f, div), pointer), End(FPTR)), End(DIV)) == f
  {
    DifferentWords();
    hide AttrOf, FILE_GRP, FILE, FLOCAT, STRUCT_MAP, DIV, FPTR, LABEL, FILEID, HEADER, METADATA_FILE, UPDATED_FILE;
  }

  /** A pointer in the div of one of the two files: for metadata.xml it counts only when the flag of the header is up. */
  lemma RunFileDiv(before: seq<Token>, name: string, id: string)
    requires name == METADATA_FILE || name == UPDATED_FILE
    requires DivsRun(before).inStructMap && !DivsRun(before).inMdDiv && !DivsRun(before).inUAMdDiv
    ensures var d := DivsRun(before);
            DivsRun(before + FlatNode(DivOf(name, [Pointer(id)])))
            == d.(inHeaderDiv := false, mdFileID := if name == METADATA_FILE && d.inHeaderDiv then id else d.mdFileID,
                  uamdFileID := if name == UPDATED_FILE then id else d.uamdFileID)
    ensures FilesRun(before + FlatNode(DivOf(name, [Pointer(id)]))) == FilesRun(before)
  {
    var n, pointer := DivOf(name, [Pointer(id)]), Pointer(id);
    var start, start' := Start("mets", DIV, [Attr(LABEL, name)]), Start("mets", FPTR, [Attr(FILEID, id)]);
    assert Starts(start, DIV) && Starts(start', FPTR);
    assert n == Elem("mets", DIV, [Attr(LABEL, name)], [pointer]) && pointer == Elem("mets", FPTR, [Attr(FILEID, id)], []);
    DifferentWords();
    hide *;
    var inside := before + [start];
    var inPointer := inside + [start'];
    OneAttr(DIV, LABEL, name);
    OneAttr(FPTR, FILEID, id);
    StepsOfDiv(DivsRun(before), FilesRun(before), start, start');
    RunElement(before, n);
    FlatOfOne(inside, pointer);
    RunElement(inside, pointer);
    FlatOfNone(inPointer);
  }

  lemma RunHeader(before: seq<Token>, id: string, earlier: bool)
    requires DivsRun(before) == NO_DIVS.(inStructMap := true, inHeaderDiv := true)
    ensures var after := before + Flat(HeaderKids(id, earlier));
            && DivsRun(after) == NO_DIVS.(inStructMap := true, mdFileID := if earlier then "" else id)
            && FilesRun(after) == FilesRun(before)
  {
    var md, other := DivOf(METADATA_FILE, [Pointer(id)]), DivOf("xsd", []);
    assert HeaderKids(id, earlier) == if earlier then [other, md] else [md];
    assert "xsd" != HEADER && "xsd" != METADATA_FILE && "xsd" != UPDATED_FILE;
    NoDivsAreDown();
    DifferentWords();
    hide *;
    if earlier {
      FlatOfTwo(before, other, md);
      RunEmptyDiv(before, "xsd");
      RunFileDiv(before + FlatNode(other), METADATA_FILE, id);
    } else {
      FlatOfOne(before, md);
      RunFileDiv(before, METADATA_FILE, id);
    }
  }

  lemma StepsOfMap(d: Divs, f: Files, start: Token, header: Token)
    requires start.Start? && start.local == STRUCT_MAP && AttrOf(start, TYPE) == PHYSICAL
    requires header.Start? && header.local == DIV && AttrOf(header, LABEL) == HEADER
    ensures DivsStep(DivsStep(NO_DIVS, start), header) == NO_DIVS.(inStructMap := true, inHeaderDiv := true)
    ensures FilesStep(FilesStep(f, start), header) == f && FilesStep(f, End(DIV)) == f && FilesStep(f, End(STRUCT_MAP)) == f
    ensures DivsStep(d, End(DIV)) == d.(inHeaderDiv := false, inUAMdDiv := false, inMdDiv := false)
    ensures DivsStep(d, End(STRUCT_MAP)) == d.(inStructMap := false)
  {
    DifferentWords();
    hide AttrOf, FILE_GRP, FILE, FLOCAT, STRUCT_MAP, DIV, FPTR, TYPE, PHYSICAL, LABEL, HEADER, METADATA_FILE, UPDATED_FILE;
  }

  lemma RunPhysicalMap(before: seq<Token>, id: string, id': string, earlier: bool)
    requires DivsRun(before) == NO_DIVS
    ensures var after := before + FlatNode(PhysicalMap(id, id', earlier));
            && DivsRun(after).mdFileID == (if earlier then "" else id) && DivsRun(after).uamdFileID == id'
            && FilesRun(after) == FilesRun(before)
  {
    var n, header, other := PhysicalMap(id, id', earlier), DivOf(HEADER, HeaderKids(id, earlier)), DivOf(UPDATED_FILE, [Pointer(id')]);
    assert n == Elem("mets", STRUCT_MAP, [Attr(TYPE, PHYSICAL)], [header, other]);
    assert header == Elem("mets", DIV, [Attr(LABEL, HEADER)], HeaderKids(id, earlier));
    NoDivsAreDown();
    DifferentWords();
    hide *;
    var start, start' := Start("mets", STRUCT_MAP, [Attr(TYPE, PHYSICAL)]), Start("mets", DIV, [Attr(LABEL, HEADER)]);
    var inMap := before + [start];
    var inHeader := inMap + [start'];
    OneAttr(STRUCT_MAP, TYPE, PHYSICAL);
    OneAttr(DIV, LABEL, HEADER);
    var end := inHeader + Flat(header.kids);
    StepsOfMap(DivsRun(end), FilesRun(before), start, start');
    RunElement(before, n);
    FlatOfTwo(inMap, header, other);
    RunElement(inMap, header);
    RunHeader(inHeader, id, earlier);
    RunFileDiv(inMap + FlatNode(header), UPDATED_FILE, id');
    StepsOfMap(DivsRun(inMap + Flat(n.kids)), FilesRun(before), start, start');
  }

  lemma NoDivsAreDown()
    ensures !NO_DIVS.inMdDiv && !NO_DIVS.inUAMdDiv && NO_DIVS.mdFileID == "" && !NO_DIVS.inHeaderDiv && NO_FILES.paths == map[]
  {
  }

  lemma FlatOfThree(a: Node, b: Node, c: Node)
    ensures Flat([a, b, c]) == FlatNode(a) + FlatNode(b) + FlatNode(c)
  {
    hide FlatNode;
    assert [a, b, c][1..] == [b, c];
    FlatOfTwo(FlatNode(a), b, c);
  }

  /**
    Both files are found, in groups of either kind; but metadata.xml only if its div comes first in the header div, and
    not if another div comes before it.
  */
  lemma MetadataAfterAnotherDiv(f: GroupFile, g: GroupFile, earlier: bool)
    requires f.id != "" && g.id != "" && f.id != g.id
    requires (f.use == "metadata" || f.use == "original") && (g.use == "metadata" || g.use == "original")
    ensures var ts := Flat(MetsDocument(f, g, earlier));
            && PathOf(FilesRun(ts).paths, DivsRun(ts).mdFileID) == (if earlier then "" else f.path)
            && PathOf(FilesRun(ts).paths, DivsRun(ts).uamdFileID) == g.path
  {
    assert MetsDocument(f, g, earlier) == [FileSection(f), FileSection(g), PhysicalMap(f.id, g.id, earlier)];
    hide *;
    var a, b, c := FileSection(f), FileSection(g), PhysicalMap(f.id, g.id, earlier);
    FlatOfThree(a, b, c);
    NothingRun();
    NoDivsAreDown();
    FromNothing(FlatNode(a));
    RunFileSection([], f);
    RunFileSection(FlatNode(a), g);
    RunPhysicalMap(FlatNode(a) + FlatNode(b), f.id, g.id, earlier);
    TwoPaths(f.id, f.path, g.id, g.path);
  }

  lemma FromNothing(ts: seq<Token>)
    ensures [] + ts == ts
  {
  }

  lemma TwoPaths(id: string, path: string, id': string, path': string)
    requires id != "" && id' != "" && id != id'
    ensures var paths := map[][id := path][id' := path'];
            PathOf(paths, id) == path && PathOf(paths, id') == path' && PathOf(paths, "") == ""
  {
  }
}
