/**
  The restart loop of find_leaf, for one key: a measure that every structural change lowers,
  level by level from the leaves up.
*/
module BzTreeRestart {
  import opened BzKeys
  import opened BzSmo
  import opened BzTree
  import opened BzTreeInv
  import opened BzTreeSmo
  import opened BzTreeSteps
  import opened BzTreeTraverse
  import opened BzTreeLookups
  import opened BzTreeLost

  /** The node on the path of k at level l; the leaves are level 0. */
  function PathNode(t: Tree, h: nat, k: Str, l: nat): Tree
    requires Shaped(t)
    decreases t
  {
    if t.L? || h <= l + 1 then t else PathNode(t.entries[Route(t.entries, k)].child, h - 1, k, l)
  }

  /** The number of nodes at level l. */
  function Count(t: Tree, h: nat, l: nat): nat
    decreases h, 0
  {
    if t.L? || h <= l + 1 then 1 else CountAll(t.entries, h - 1, l)
  }

  function CountAll(es: seq<Entry>, h: nat, l: nat): nat
    decreases h, 1 + |es|
  {
    if es == [] then 0 else Count(es[0].child, h, l) + CountAll(es[1..], h, l)
  }

  lemma {:induction false} CountAppend(a: seq<Entry>, b: seq<Entry>, h: nat, l: nat)
    ensures CountAll(a + b, h, l) == CountAll(a, h, l) + CountAll(b, h, l)
    decreases |a|
  {
    if a == [] {
      assert a + b == b;
    } else {
      assert (a + b)[1..] == a[1..] + b;
      CountAppend(a[1..], b, h, l);
    }
  }

  lemma {:induction false} CountParts(es: seq<Entry>, a: seq<Entry>, b: seq<Entry>, c: seq<Entry>, h: nat, l: nat)
    requires es == a + b + c
    ensures CountAll(es, h, l) == CountAll(a, h, l) + CountAll(b, h, l) + CountAll(c, h, l)
  {
    CountAppend(a + b, c, h, l);
    CountAppend(a, b, h, l);
  }

  lemma {:induction false} CountOne(e: Entry, h: nat, l: nat)
    ensures CountAll([e], h, l) == Count(e.child, h, l)
  {
    assert [e][1..] == [];
  }

  lemma {:induction false} CountTwo(a: Entry, b: Entry, h: nat, l: nat)
    ensures CountAll([a, b], h, l) == Count(a.child, h, l) + Count(b.child, h, l)
  {
    assert [a, b][1..] == [b];
    CountOne(b, h, l);
  }

  // ---- The measure ----

  function Excess(t: Tree): nat { if TreeUsed(t) > BODY - MIN_FREE then TreeUsed(t) - (BODY - MIN_FREE) else 0 }

  /** What is wrong at level l: deleted bytes and overfull bytes of the node on the path, and the number of nodes. */
  datatype Level = Level(deleted: nat, excess: nat, nodes: nat)

  function LevelOf(t: Tree, h: nat, k: Str, l: nat): Level
    requires Shaped(t)
  {
    var n := PathNode(t, h, k, l);
    Level(Deleted(n), Excess(n), Count(t, h, l))
  }

  predicate Lower(a: Level, b: Level) {
    a.deleted < b.deleted || (a.deleted == b.deleted && (a.excess < b.excess || (a.excess == b.excess && a.nodes < b.nodes)))
  }

  function Weight(v: Level): nat { v.deleted + v.excess + v.nodes }

  /** From t to t' level l gets lower, and not heavier; below it neither the path nor the number of nodes changes. */
  predicate Better(t: Tree, h: nat, t': Tree, h': nat, k: Str, l: nat) {
    && Shaped(t) && Shaped(t') && l < h <= h'
    && Lower(LevelOf(t', h', k, l), LevelOf(t, h, k, l)) && Weight(LevelOf(t', h', k, l)) <= Weight(LevelOf(t, h, k, l))
    && forall j | 0 <= j < l :: PathNode(t', h', k, j) == PathNode(t, h, k, j) && Count(t', h', j) == Count(t, h, j)
  }

  // ---- Halves and joined nodes, below their own level ----

  lemma {:induction false} HalfPath(c: Tree, h: nat, k: Str, l: nat)
    requires c.N? && Shaped(c) && Halves(c).Some? && Increasing(Seps(c.entries)) && l + 1 < h
    ensures var (a, b) := Halves(c).value;
            && Shaped(a.child) && Shaped(b.child)
            && PathNode(if Less(a.sep, k) then b.child else a.child, h, k, l) == PathNode(c, h, k, l)
            && Count(a.child, h, l) + Count(b.child, h, l) == Count(c, h, l)
  {
    HalvesShaped(c);
    var es, m := c.entries, Pivot(EntrySizes(c.entries)).value;
    SplitRoute(es, m, k);
    assert es == es[..m] + es[m..];
    CountAppend(es[..m], es[m..], h - 1, l);
  }

  lemma {:induction false} JoinPath(a: Tree, b: Tree, h: nat, k: Str, l: nat)
    requires a.N? && b.N? && Shaped(a) && Shaped(b) && Shaped(Joined(a, b)) && Increasing(Seps(a.entries)) && l + 1 < h
    ensures PathNode(Joined(a, b), h, k, l) == PathNode(if Strays(a, k) then b else a, h, k, l)
    ensures Count(Joined(a, b), h, l) == Count(a, h, l) + Count(b, h, l)
  {
    JoinRoute(a.entries, b.entries, k);
    CountAppend(a.entries, b.entries, h - 1, l);
    var es, r := a.entries + b.entries, Route(a.entries + b.entries, k);
    assert es[r] == if r < |a.entries| then a.entries[r] else b.entries[r - |a.entries|];
  }

  // ---- One child replaced ----

  lemma {:induction false} SetCount(es: seq<Entry>, i: nat, c: Tree, h: nat, l: nat)
    requires i < |es|
    ensures CountAll(es[i := Entry(es[i].sep, c)], h, l) + Count(es[i].child, h, l) == CountAll(es, h, l) + Count(c, h, l)
  {
    var e := Entry(es[i].sep, c);
    assert es == es[..i] + [es[i]] + es[i + 1..] && es[i := e] == es[..i] + [e] + es[i + 1..];
    CountParts(es, es[..i], [es[i]], es[i + 1..], h, l);
    CountParts(es[i := e], es[..i], [e], es[i + 1..], h, l);
    CountOne(es[i], h, l);
    CountOne(e, h, l);
  }

  /** What gets better in the child on the path gets better in the tree. */
  lemma {:induction false} SetBetter(es: seq<Entry>, c: Tree, h: nat, k: Str, l: nat)
    requires Shaped(N(es)) && h > 1 && Better(es[Route(es, k)].child, h - 1, c, h - 1, k, l)
    ensures var i := Route(es, k); Better(N(es), h, N(es[i := Entry(es[i].sep, c)]), h, k, l)
  {
    var i := Route(es, k);
    var es' := es[i := Entry(es[i].sep, c)];
    SetShaped(es, i, c);
    SetRoute(es, i, c, k);
    forall j | 0 <= j <= l
      ensures PathNode(N(es'), h, k, j) == PathNode(c, h - 1, k, j)
      ensures Count(N(es'), h, j) + Count(es[i].child, h - 1, j) == Count(N(es), h, j) + Count(c, h - 1, j)
    {
      SetCount(es, i, c, h - 1, j);
    }
  }

  lemma CompactBetter(c: Tree, k: Str)
    requires c.L? && Deleted(c) > 0 && Distinct(c.leaf.recs)
    ensures Better(c, 1, Compact(c), 1, k, 0)
  {
    SortFacts(c.leaf.recs);
  }

  // ---- A split ----

  lemma {:induction false} LivePositive(recs: seq<Rec>)
    requires recs != []
    ensures Live(recs) > 0
  {
  }

  lemma {:induction false} UsedPositive(es: seq<Entry>)
    requires es != []
    ensures InnerUsed(es) > 0
  {
  }

  /** Either half is smaller than the node, and nothing in it is deleted. */
  lemma HalfSmaller(c: Tree)
    requires Halves(c).Some? && (c.L? ==> Distinct(c.leaf.recs))
    ensures var (a, b) := Halves(c).value;
            && TreeUsed(a.child) < TreeUsed(c) && TreeUsed(b.child) < TreeUsed(c)
            && Deleted(a.child) == 0 && Deleted(b.child) == 0
  {
    match c
    case L(l) =>
      SortFacts(l.recs);
      var sorted, m := Sort(l.recs), Pivot(KeySizes(Sort(l.recs))).value;
      assert sorted == sorted[..m] + sorted[m..];
      LiveAppend(sorted[..m], sorted[m..]);
      LivePositive(sorted[..m]);
      LivePositive(sorted[m..]);
    case N(es) =>
      var m := Pivot(EntrySizes(es)).value;
      assert es == es[..m] + es[m..];
      UsedAppend(es[..m], es[m..]);
      UsedPositive(es[..m]);
      UsedPositive(es[m..]);
  }

  lemma {:induction false} SplitCount(es: seq<Entry>, i: nat, a: Entry, b: Entry, h: nat, l: nat)
    requires i < |es|
    ensures CountAll(SplitAt(es, i, (a, b)), h, l) + Count(es[i].child, h, l)
            == CountAll(es, h, l) + Count(a.child, h, l) + Count(b.child, h, l)
  {
    assert es == es[..i] + [es[i]] + es[i + 1..];
    CountParts(es, es[..i], [es[i]], es[i + 1..], h, l);
    CountParts(SplitAt(es, i, (a, b)), es[..i], [a, b], es[i + 1..], h, l);
    CountOne(es[i], h, l);
    CountTwo(a, b, h, l);
  }

  lemma HalfOnPath(es: seq<Entry>, k: Str, h: nat, lo: Bound, hi: Bound)
    requires Inv(N(es), h, lo, hi, true) && Shaped(N(es)) && Halves(es[Route(es, k)].child).Some?
    ensures var i := Route(es, k);
            var (a, b) := Halves(es[i].child).value;
            Route(SplitAt(es, i, (a, b)), k) == if Less(a.sep, k) then i + 1 else i
  {
    var i := Route(es, k);
    var lo1, hi1 := LoOf(Seps(es), i, lo), HiOf(Seps(es), i, hi);
    assert Inv(Kid(es, i), h - 1, lo1, hi1, true);
    var (a, b) := Halves(Kid(es, i)).value;
    HalvesKeep(Kid(es, i), h - 1, lo1, hi1, true);
    ChildrenOK(es, h, lo, hi, true);
    RouteBounds(es, k);
    RouteInside(es, i, a, b, k);
  }

  /** After the split the path leads into the half that admits the key. */
  lemma SplitPath(es: seq<Entry>, k: Str, h: nat, lo: Bound, hi: Bound)
    requires Inv(N(es), h, lo, hi, true) && Shaped(N(es)) && Halves(es[Route(es, k)].child).Some?
    ensures var i := Route(es, k);
            var (a, b) := Halves(es[i].child).value;
            var es' := SplitAt(es, i, (a, b));
            && Shaped(N(es')) && es'[Route(es', k)].child == if Less(a.sep, k) then b.child else a.child
  {
    var i := Route(es, k);
    var (a, b) := Halves(es[i].child).value;
    HalfOnPath(es, k, h, lo, hi);
    HalvesShaped(es[i].child);
    SplitShaped(es, i, a, b);
    SplitEntry(es, i, a, b, Route(SplitAt(es, i, (a, b)), k));
  }

  /** Below the level of the two halves nothing changes. */
  lemma {:induction false} HalvesBelow(c: Tree, h: nat, k: Str, j: nat)
    requires Shaped(c) && Halves(c).Some? && (c.N? ==> Increasing(Seps(c.entries))) && (c.L? ==> h == 1) && j + 1 < h
    ensures var (a, b) := Halves(c).value;
            && Shaped(a.child) && Shaped(b.child)
            && PathNode(if Less(a.sep, k) then b.child else a.child, h, k, j) == PathNode(c, h, k, j)
            && Count(a.child, h, j) + Count(b.child, h, j) == Count(c, h, j)
  {
    HalfPath(c, h, k, j);
  }

  lemma {:induction false} PathTop(es: seq<Entry>, h: nat, k: Str)
    requires Shaped(N(es)) && h >= 2
    ensures PathNode(N(es), h, k, h - 2) == es[Route(es, k)].child
  {
    var c := es[Route(es, k)].child;
    assert PathNode(c, h - 1, k, h - 2) == c;
  }

  lemma {:induction false} SplitBetterAt(es: seq<Entry>, k: Str, g: nat, a: Entry, b: Entry, half: Tree)
    requires Shaped(N(es)) && g >= 1
    requires var es' := SplitAt(es, Route(es, k), (a, b));
             Shaped(N(es')) && es'[Route(es', k)].child == half && Shaped(half) && Shaped(es[Route(es, k)].child)
    requires var c := es[Route(es, k)].child;
             && Deleted(half) == 0 && TreeUsed(half) < TreeUsed(c) && TreeUsed(c) > BODY - MIN_FREE
             && (forall j | 0 <= j < g - 1 ::
                   PathNode(half, g, k, j) == PathNode(c, g, k, j) && Count(a.child, g, j) + Count(b.child, g, j) == Count(c, g, j))
    ensures Better(N(es), g + 1, N(SplitAt(es, Route(es, k), (a, b))), g + 1, k, g - 1)
  {
    var i := Route(es, k);
    var es', h := SplitAt(es, i, (a, b)), g + 1;
    forall j | 0 <= j < g - 1
      ensures PathNode(N(es'), h, k, j) == PathNode(N(es), h, k, j) && Count(N(es'), h, j) == Count(N(es), h, j)
    {
      SplitCount(es, i, a, b, g, j);
      assert PathNode(half, g, k, j) == PathNode(es[i].child, g, k, j);
    }
    PathTop(es, g + 1, k);
    PathTop(es', g + 1, k);
    SplitCount(es, i, a, b, g, g - 1);
  }

  lemma SplitBetter(es: seq<Entry>, k: Str, h: nat, lo: Bound, hi: Bound)
    requires Inv(N(es), h, lo, hi, true) && Shaped(N(es)) && Between(k, lo, hi)
    requires Halves(es[Route(es, k)].child).Some? && Free(es[Route(es, k)].child) < MIN_FREE
    ensures h >= 2 && Better(N(es), h, N(SplitAt(es, Route(es, k), Halves(es[Route(es, k)].child).value)), h, k, h - 2)
  {
    var i := Route(es, k);
    var c := Kid(es, i);
    assert Inv(c, h - 1, LoOf(Seps(es), i, lo), HiOf(Seps(es), i, hi), true);
    var (a, b) := Halves(c).value;
    SplitPath(es, k, h, lo, hi);
    HalvesInOrder(c, h - 1, LoOf(Seps(es), i, lo), HiOf(Seps(es), i, hi), true);
    HalfSmaller(c);
    HalvesShaped(c);
    var half := if Less(a.sep, k) then b.child else a.child;
    var g := h - 1;
    forall j | 0 <= j < g - 1
      ensures PathNode(half, g, k, j) == PathNode(c, g, k, j) && Count(a.child, g, j) + Count(b.child, g, j) == Count(c, g, j)
    {
      HalvesBelow(c, g, k, j);
    }
    SplitBetterAt(es, k, g, a, b, half);
  }

  // ---- A merge ----

  lemma {:induction false} MergeCount(es: seq<Entry>, i: nat, c: Tree, h: nat, l: nat)
    requires i + 1 < |es|
    ensures CountAll(Merged(es, i, c), h, l) + Count(es[i].child, h, l) + Count(es[i + 1].child, h, l)
            == CountAll(es, h, l) + Count(c, h, l)
  {
    var e := Entry(es[i + 1].sep, c);
    assert es == es[..i] + [es[i], es[i + 1]] + es[i + 2..];
    CountParts(es, es[..i], [es[i], es[i + 1]], es[i + 2..], h, l);
    CountParts(Merged(es, i, c), es[..i], [e], es[i + 2..], h, l);
    CountTwo(es[i], es[i + 1], h, l);
    CountOne(e, h, l);
  }

  lemma {:induction false} MergeBetterAt(es: seq<Entry>, k: Str, g: nat, i: nat, c: Tree)
    requires Shaped(N(es)) && g >= 1 && i + 1 < |es| && Route(es, k) in {i, i + 1}
    requires var es' := Merged(es, i, c);
             Shaped(N(es')) && Route(es', k) == i && Shaped(c) && Shaped(es[Route(es, k)].child)
    requires Deleted(c) == 0 && Excess(c) == 0
    requires var n := es[Route(es, k)].child;
             forall j | 0 <= j < g - 1 ::
               PathNode(c, g, k, j) == PathNode(n, g, k, j) && Count(c, g, j) == Count(es[i].child, g, j) + Count(es[i + 1].child, g, j)
    ensures Better(N(es), g + 1, N(Merged(es, i, c)), g + 1, k, g - 1)
  {
    var es', n, h := Merged(es, i, c), es[Route(es, k)].child, g + 1;
    MergedEntry(es, i, c, i);
    forall j | 0 <= j < g - 1
      ensures PathNode(N(es'), h, k, j) == PathNode(N(es), h, k, j) && Count(N(es'), h, j) == Count(N(es), h, j)
    {
      MergeCount(es, i, c, g, j);
      assert PathNode(c, g, k, j) == PathNode(n, g, k, j);
    }
    MergeCount(es, i, c, g, g - 1);
    PathTop(es, g + 1, k);
    PathTop(es', g + 1, k);
  }

  /** In a tight tree the key strays from the left node exactly if it belongs to the right one. */
  lemma StraysRight(a: Tree, mid: Str, k: Str, h: nat, lo: Bound)
    requires a.N? && Inv(a, h, lo, Some(mid), true)
    ensures Strays(a, k) <==> Less(mid, k)
  {
    ChildrenOK(a.entries, h, lo, Some(mid), true);
  }

  lemma MergeBetter(es: seq<Entry>, k: Str, h: nat, i: nat, lo: Bound, hi: Bound)
    requires Inv(N(es), h, lo, hi, true) && Shaped(N(es)) && i < |es| && Mergeable(es, i) && Route(es, k) in {i, i + 1}
    ensures h >= 2 && Better(N(es), h, N(MergeAt(es, i)), h, k, h - 2)
  {
    var a, b := Kid(es, i), Kid(es, i + 1);
    var lo1, mid, hi1 := LoOf(Seps(es), i, lo), Seps(es)[i], HiOf(Seps(es), i + 1, hi);
    assert Inv(a, h - 1, lo1, Some(mid), true) && Inv(b, h - 1, Some(mid), hi1, true);
    ChildrenOK(es, h, lo, hi, true);
    JoinRoomFor(a, b, h - 1, lo1, mid, hi1, true);
    InvShaped(a, h - 1, lo1, Some(mid), true);
    InvShaped(b, h - 1, Some(mid), hi1, true);
    JoinedShaped(a, b);
    var c := Joined(a, b);
    MergedShaped(es, i, c);
    RouteAfterMerge(es, i, c, k);
    RouteBounds(es, k);
    var g, n := h - 1, es[Route(es, k)].child;
    forall j | 0 <= j < g - 1
      ensures PathNode(c, g, k, j) == PathNode(n, g, k, j) && Count(c, g, j) == Count(a, g, j) + Count(b, g, j)
    {
      StraysRight(a, mid, k, g, lo1);
      ChildrenOK(a.entries, g, lo1, Some(mid), true);
      JoinPath(a, b, g, k, j);
    }
    MergeBetterAt(es, k, g, i, c);
  }

  // ---- Whole traversals ----

  lemma HalvesOfLeaf(l: Leaf)
    ensures Halves(L(l)).Some? <==> Splittable(KeySizes(Sort(l.recs)))
  {
    PivotExists(KeySizes(Sort(l.recs)));
  }

  /** The child on the path is left as it is, and the traversal goes on below it. */
  predicate Passes(es: seq<Entry>, k: Str)
    requires Shaped(N(es))
  {
    var i := Route(es, k);
    var c := es[i].child;
    Deleted(c) <= MAX_DELETED && Free(c) >= MIN_FREE && !(i > 0 && Mergeable(es, i - 1)) && !Mergeable(es, i)
  }

  lemma CompactHere(es: seq<Entry>, k: Str, h: nat, lo: Bound, hi: Bound)
    requires Inv(N(es), h, lo, hi, true) && Shaped(N(es)) && Deleted(es[Route(es, k)].child) > MAX_DELETED
    ensures h == 2 && Below(es, k).Changed? && Better(N(es), h, Below(es, k).t, h, k, 0)
  {
    var i := Route(es, k);
    var c := Kid(es, i);
    assert Inv(c, h - 1, LoOf(Seps(es), i, lo), HiOf(Seps(es), i, hi), true);
    CompactBetter(c, k);
    SetBetter(es, Compact(c), h, k, 0);
  }

  lemma ChangeHere(es: seq<Entry>, k: Str, h: nat, lo: Bound, hi: Bound)
    requires Inv(N(es), h, lo, hi, true) && Shaped(N(es)) && Between(k, lo, hi) && Below(es, k).Changed?
    requires Deleted(es[Route(es, k)].child) <= MAX_DELETED && !Passes(es, k)
    ensures h >= 2 && Better(N(es), h, Below(es, k).t, h, k, h - 2)
  {
    var i := Route(es, k);
    if Free(es[i].child) < MIN_FREE {
      SplitBetter(es, k, h, lo, hi);
    } else if i > 0 && Mergeable(es, i - 1) {
      MergeBetter(es, k, h, i - 1, lo, hi);
    } else {
      MergeBetter(es, k, h, i, lo, hi);
    }
  }

  /** Every change below a node lowers some level. */
  lemma {:induction false} BelowBetter(es: seq<Entry>, k: Str, h: nat, lo: Bound, hi: Bound) returns (l: nat)
    requires Inv(N(es), h, lo, hi, true) && Shaped(N(es)) && Between(k, lo, hi) && Below(es, k).Changed?
    ensures l + 1 < h && Better(N(es), h, Below(es, k).t, h, k, l)
    decreases N(es), 1
  {
    var i := Route(es, k);
    if Deleted(es[i].child) > MAX_DELETED {
      CompactHere(es, k, h, lo, hi);
      l := 0;
    } else if !Passes(es, k) {
      ChangeHere(es, k, h, lo, hi);
      l := h - 2;
    } else {
      l := DeeperBetter(es, k, h, lo, hi);
    }
  }

  lemma DeeperBetter(es: seq<Entry>, k: Str, h: nat, lo: Bound, hi: Bound) returns (l: nat)
    requires Inv(N(es), h, lo, hi, true) && Shaped(N(es)) && Between(k, lo, hi) && Below(es, k).Changed? && Passes(es, k)
    ensures l + 1 < h && Better(N(es), h, Below(es, k).t, h, k, l)
    decreases N(es), 0
  {
    var i := Route(es, k);
    var c := Kid(es, i);
    var lo1, hi1 := LoOf(Seps(es), i, lo), HiOf(Seps(es), i, hi);
    assert Inv(c, h - 1, lo1, hi1, true);
    RouteWithin(es, k, lo, hi);
    l := BelowBetter(c.entries, k, h - 1, lo1, hi1);
    SetBetter(es, Below(c.entries, k).t, h, k, l);
  }

  lemma {:induction false} RootBelow(t: Tree, h: nat, k: Str, j: nat, a: Entry, b: Entry)
    requires Shaped(t) && Halves(t) == Some((a, b)) && (t.N? ==> Increasing(Seps(t.entries))) && (t.L? ==> h == 1) && j + 1 < h
    ensures Shaped(N([a, b])) && PathNode(N([a, b]), h + 1, k, j) == PathNode(t, h, k, j)
    ensures Count(N([a, b]), h + 1, j) == Count(t, h, j)
  {
    HalvesBelow(t, h, k, j);
    CountTwo(a, b, h, j);
    RouteIs([a, b], k, if Less(a.sep, k) then 1 else 0);
  }

  /** The root's own level, given what holds of the levels below and of the half that takes the key. */
  lemma {:induction false} RootBetterAt(t: Tree, k: Str, h: nat, a: Entry, b: Entry, half: Tree)
    requires Shaped(t) && h >= 1 && Shaped(N([a, b])) && half == [a, b][Route([a, b], k)].child
    requires Deleted(half) == 0 && TreeUsed(half) < TreeUsed(t) && TreeUsed(t) > BODY - MIN_FREE
    requires forall j | 0 <= j < h - 1 ::
               PathNode(N([a, b]), h + 1, k, j) == PathNode(t, h, k, j) && Count(N([a, b]), h + 1, j) == Count(t, h, j)
    ensures Better(t, h, N([a, b]), h + 1, k, h - 1)
  {
    PathTop([a, b], h + 1, k);
    CountTwo(a, b, h, h - 1);
    assert PathNode(t, h, k, h - 1) == t;
  }

  /** The half of a split root that takes the key is smaller than the root. */
  lemma RootHalf(t: Tree, k: Str, a: Entry, b: Entry)
    requires Halves(t) == Some((a, b)) && (t.L? ==> Distinct(t.leaf.recs))
    ensures var half := [a, b][Route([a, b], k)].child; Deleted(half) == 0 && TreeUsed(half) < TreeUsed(t)
  {
    HalfSmaller(t);
    RouteIs([a, b], k, if Less(a.sep, k) then 1 else 0);
  }

  lemma {:induction false} RootLevels(t: Tree, k: Str, h: nat, a: Entry, b: Entry)
    requires Shaped(t) && h >= 1 && Halves(t) == Some((a, b)) && (t.N? ==> Increasing(Seps(t.entries))) && (t.L? ==> h == 1)
    requires Shaped(N([a, b])) && (t.L? ==> Distinct(t.leaf.recs)) && Free(t) < MIN_FREE
    ensures Better(t, h, N([a, b]), h + 1, k, h - 1)
  {
    forall j | 0 <= j < h - 1
      ensures PathNode(N([a, b]), h + 1, k, j) == PathNode(t, h, k, j) && Count(N([a, b]), h + 1, j) == Count(t, h, j)
    {
      RootBelow(t, h, k, j, a, b);
    }
    RootHalf(t, k, a, b);
    RootBetterAt(t, k, h, a, b, [a, b][Route([a, b], k)].child);
  }

  lemma RootInOrder(t: Tree, h: nat, a: Entry, b: Entry)
    requires Inv(t, h, None, None, true) && Halves(t) == Some((a, b))
    ensures h >= 1 && (t.N? ==> Increasing(Seps(t.entries))) && (t.L? ==> h == 1 && Distinct(t.leaf.recs))
  {
  }

  /** The root is split: its own level gets lower, and a level is added above. */
  lemma RootBetter(t: Tree, k: Str, h: nat)
    requires Inv(t, h, None, None, true) && Shaped(t) && Halves(t).Some? && Free(t) < MIN_FREE
    ensures h >= 1 && Better(t, h, N([Halves(t).value.0, Halves(t).value.1]), h + 1, k, h - 1)
  {
    var (a, b) := Halves(t).value;
    RootInOrder(t, h, a, b);
    HalvesShaped(t);
    RootLevels(t, k, h, a, b);
  }

  /**
    Every traversal that changes the structure lowers a level of the measure and leaves those
    below as they are.
  */
  lemma RestartLowers(t: Tree, k: Str, h: nat) returns (l: nat)
    requires Inv(t, h, None, None, true) && Shaped(t) && KeyOK(k) && Traverse(t, k).Changed?
    ensures l < h && Better(t, h, Traverse(t, k).t, HeightAfter(t, h), k, l)
  {
    if Deleted(t) > MAX_DELETED {
      CompactBetter(t, k);
      l := 0;
    } else if Free(t) < MIN_FREE {
      RootBetter(t, k, h);
      l := h - 1;
    } else {
      l := BelowBetter(t.entries, k, h, None, None);
    }
  }

  lemma {:induction false} PathEndsAtLeaf(t: Tree, k: Str, h: nat, lo: Bound, hi: Bound, tight: bool)
    requires Inv(t, h, lo, hi, tight) && Shaped(t)
    ensures PathNode(t, h, k, 0) == L(LeafFor(t, k))
    decreases t
  {
    if t.N? {
      var i := Route(t.entries, k);
      var lo1, hi1 := LoOf(Seps(t.entries), i, lo), HiOf(Seps(t.entries), i, hi);
      assert Inv(Kid(t.entries, i), h - 1, lo1, hi1, tight);
      PathEndsAtLeaf(Kid(t.entries, i), k, h - 1, lo1, hi1, tight);
    }
  }

  /** The trees of successive restarts for the key k. */
  predicate Restarts(ts: seq<Tree>, k: Str) {
    && (forall i | 0 <= i < |ts| :: Shaped(ts[i]))
    && (forall i | 0 <= i < |ts| - 1 :: Restart(ts[i], ts[i + 1], k))
  }

  predicate Restart(t: Tree, t': Tree, k: Str) { Shaped(t) && Traverse(t, k) == Changed(t') }

  // ---- Restarts come to an end unless the height grows without bound ----

  function Flat(v: Level): seq<nat> { [v.deleted, v.excess, v.nodes] }

  /** The levels as one sequence of length 3 * top, the leaf level first. */
  function Rank(t: Tree, h: nat, k: Str, top: nat): (r: seq<nat>)
    requires Shaped(t)
    ensures |r| == 3 * top
  {
    if top == 0 then [] else Rank(t, h, k, top - 1) + Padded(t, h, k, top - 1)
  }

  function Padded(t: Tree, h: nat, k: Str, l: nat): (r: seq<nat>)
    requires Shaped(t)
    ensures |r| == 3
  {
    if l < h then Flat(LevelOf(t, h, k, l)) else [0, 0, 0]
  }

  predicate LexLess(a: seq<nat>, b: seq<nat>) {
    |a| == |b| && exists p :: 0 <= p < |a| && a[p] < b[p] && a[..p] == b[..p]
  }

  lemma {:induction false} SameRank(t: Tree, h: nat, t': Tree, h': nat, k: Str, top: nat)
    requires Shaped(t) && Shaped(t') && top <= h <= h'
    requires forall j | 0 <= j < top :: PathNode(t', h', k, j) == PathNode(t, h, k, j) && Count(t', h', j) == Count(t, h, j)
    ensures Rank(t', h', k, top) == Rank(t, h, k, top)
  {
    if top > 0 {
      SameRank(t, h, t', h', k, top - 1);
      assert PathNode(t', h', k, top - 1) == PathNode(t, h, k, top - 1);
    }
  }

  lemma LexHere(a: seq<nat>, u: seq<nat>, v: seq<nat>)
    requires LexLess(u, v)
    ensures LexLess(a + u, a + v)
  {
    var p :| 0 <= p < |u| && u[p] < v[p] && u[..p] == v[..p];
    assert (a + u)[..|a| + p] == a + u[..p] && (a + v)[..|a| + p] == a + v[..p];
    assert (a + u)[|a| + p] < (a + v)[|a| + p];
  }

  lemma LexMore(a: seq<nat>, b: seq<nat>, u: seq<nat>, v: seq<nat>)
    requires LexLess(a, b) && |u| == |v|
    ensures LexLess(a + u, b + v)
  {
    var p :| 0 <= p < |a| && a[p] < b[p] && a[..p] == b[..p];
    assert (a + u)[..p] == a[..p] && (b + v)[..p] == b[..p] && (a + u)[p] < (b + v)[p];
  }

  lemma FlatLower(a: Level, b: Level)
    requires Lower(a, b)
    ensures LexLess(Flat(a), Flat(b))
  {
    var p := if a.deleted < b.deleted then 0 else if a.excess < b.excess then 1 else 2;
    assert Flat(a)[..p] == Flat(b)[..p] && Flat(a)[p] < Flat(b)[p];
  }

  lemma {:induction false} RankHere(t: Tree, h: nat, t': Tree, h': nat, k: Str, l: nat)
    requires Better(t, h, t', h', k, l)
    ensures LexLess(Rank(t', h', k, l + 1), Rank(t, h, k, l + 1))
  {
    SameRank(t, h, t', h', k, l);
    FlatLower(LevelOf(t', h', k, l), LevelOf(t, h, k, l));
    LexHere(Rank(t, h, k, l), Padded(t', h', k, l), Padded(t, h, k, l));
  }

  lemma {:induction false} BetterRank(t: Tree, h: nat, t': Tree, h': nat, k: Str, l: nat, top: nat)
    requires Better(t, h, t', h', k, l) && l < top
    ensures LexLess(Rank(t', h', k, top), Rank(t, h, k, top))
    decreases top
  {
    if l == top - 1 {
      RankHere(t, h, t', h', k, l);
    } else {
      BetterRank(t, h, t', h', k, l, top - 1);
      LexMore(Rank(t', h', k, top - 1), Rank(t, h, k, top - 1), Padded(t', h', k, top - 1), Padded(t, h, k, top - 1));
    }
  }

  /** A sequence of naturals that never rises is constant from some point on. */
  lemma {:induction false} Settles(g: nat -> nat, from: nat) returns (c: nat)
    requires forall i: nat :: g(i + 1) <= g(i)
    ensures c >= from && forall i: nat | i >= c :: g(i) == g(c)
    decreases g(from)
  {
    if i: nat :| i >= from && g(i) < g(from) {
      c := Settles(g, i);
    } else {
      c := from;
      forall i: nat | i >= c ensures g(i) == g(c) { NeverRises(g, c, i); }
    }
  }

  lemma {:induction false} NeverRises(g: nat -> nat, a: nat, b: nat)
    requires a <= b && forall i: nat :: g(i + 1) <= g(i)
    ensures g(b) <= g(a)
  {
    if a < b { NeverRises(g, a, b - 1); assert g(b - 1 + 1) <= g(b - 1); }
  }

  ghost predicate Descends(f: nat -> seq<nat>, n: nat) {
    forall i: nat :: |f(i)| == n && LexLess(f(i + 1), f(i))
  }

  lemma LexTail(a: seq<nat>, b: seq<nat>)
    requires LexLess(a, b) && a != [] && a[0] == b[0]
    ensures LexLess(a[1..], b[1..])
  {
    var p :| 0 <= p < |a| && a[p] < b[p] && a[..p] == b[..p];
    assert a[1..][..p - 1] == a[..p][1..] && b[1..][..p - 1] == b[..p][1..];
    assert a[1..][p - 1] < b[1..][p - 1];
  }

  lemma LexHead(a: seq<nat>, b: seq<nat>)
    requires LexLess(a, b)
    ensures a != [] && a[0] <= b[0]
  {
    var p :| 0 <= p < |a| && a[p] < b[p] && a[..p] == b[..p];
    if p > 0 { assert a[0] == a[..p][0] && b[0] == b[..p][0]; }
  }

  function Heads(f: nat -> seq<nat>): nat -> nat { (i: nat) => if f(i) == [] then 0 else f(i)[0] }

  function Tails(f: nat -> seq<nat>, c: nat): nat -> seq<nat> { (i: nat) => if f(c + i) == [] then [] else f(c + i)[1..] }

  lemma TailFalls(a: seq<nat>, b: seq<nat>, f: nat -> seq<nat>, c: nat, i: nat)
    requires b == f(c + i) && a == f(c + (i + 1)) && LexLess(a, b) && a != [] && a[0] == b[0]
    ensures |Tails(f, c)(i)| == |b| - 1 && LexLess(Tails(f, c)(i + 1), Tails(f, c)(i))
  {
    LexTail(a, b);
  }

  lemma HeadFalls(f: nat -> seq<nat>, n: nat, i: nat)
    requires Descends(f, n)
    ensures n > 0 && Heads(f)(i + 1) <= Heads(f)(i)
  {
    assert LexLess(f(i + 1), f(i));
    LexHead(f(i + 1), f(i));
  }

  /** Sequences of a fixed length cannot get lexicographically smaller for ever. */
  lemma {:induction false} NoDescent(f: nat -> seq<nat>, n: nat)
    ensures !Descends(f, n)
    decreases n
  {
    if Descends(f, n) {
      HeadFalls(f, n, 0);
      var heads := Heads(f);
      forall i: nat ensures heads(i + 1) <= heads(i) { HeadFalls(f, n, i); }
      var c := Settles(heads, 0);
      forall i: nat
        ensures |Tails(f, c)(i)| == n - 1 && LexLess(Tails(f, c)(i + 1), Tails(f, c)(i))
      {
        assert c + (i + 1) == c + i + 1;
        assert heads(c + i) == heads(c) && heads(c + i + 1) == heads(c);
        assert |f(c + i)| == n && LexLess(f(c + i + 1), f(c + i));
        TailFalls(f(c + i + 1), f(c + i), f, c, i);
      }
      NoDescent(Tails(f, c), n - 1);
    }
  }

  /** An endless sequence of restarts for k; hs are the heights of the trees. */
  ghost predicate Endless(f: nat -> Tree, hs: nat -> nat, k: Str) {
    && Inv(f(0), hs(0), None, None, true)
    && forall i: nat :: Restart(f(i), f(i + 1), k) && hs(i + 1) == HeightAfter(f(i), hs(i))
  }

  lemma {:induction false} EndlessInv(f: nat -> Tree, hs: nat -> nat, k: Str, i: nat)
    requires Endless(f, hs, k) && KeyOK(k)
    ensures Shaped(f(i)) && Inv(f(i), hs(i), None, None, true)
  {
    assert Restart(f(i), f(i + 1), k);
    if i > 0 {
      EndlessInv(f, hs, k, i - 1);
      assert Restart(f(i - 1), f(i - 1 + 1), k) && hs(i - 1 + 1) == HeightAfter(f(i - 1), hs(i - 1));
      TraverseKeeps(f(i - 1), k, hs(i - 1), true);
    }
  }

  /** Restarts for one key can only go on for ever if the tree grows higher than any bound. */
  lemma EndlessRestartsGrow(f: nat -> Tree, hs: nat -> nat, k: Str, top: nat)
    requires Endless(f, hs, k) && KeyOK(k)
    ensures exists i: nat :: hs(i) > top
  {
    if forall i: nat :: hs(i) <= top {
      var ranks := (i: nat) => if Shaped(f(i)) then Rank(f(i), hs(i), k, top) else [];
      forall i: nat
        ensures |ranks(i)| == 3 * top && LexLess(ranks(i + 1), ranks(i))
      {
        EndlessInv(f, hs, k, i);
        EndlessInv(f, hs, k, i + 1);
        assert Restart(f(i), f(i + 1), k) && hs(i + 1) == HeightAfter(f(i), hs(i));
        var l := RestartLowers(f(i), k, hs(i));
        BetterRank(f(i), hs(i), f(i + 1), hs(i + 1), k, l, top);
      }
      NoDescent(ranks, 3 * top);
    }
  }
}
