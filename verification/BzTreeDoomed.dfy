/**
  Which writes fail. A write starts over until its leaf has room; each split on the way keeps only the
  half for its key, and that half may again be overfull. Whether the last of these splits asserts is
  settled by the leaf alone, before the first traversal.
*/
module BzTreeDoomed {
  import opened BzKeys
  import opened BzSmo
  import opened BzTree
  import opened BzTreeInv
  import opened BzTreeSmo
  import opened BzTreeSteps
  import opened BzTreeTraverse
  import opened BzTreeLookups
  import opened BzTreeLost
  import opened BzTreeRestart

  /** Due for a split. */
  predicate Overfull(l: Leaf) { Used(l) > BODY - MIN_FREE && l.deleted <= MAX_DELETED }

  lemma {:induction false} InsertLength(r: Rec, recs: seq<Rec>)
    ensures |Insert(r, recs)| == |recs| + 1
  {
    if recs != [] { InsertLength(r, recs[1..]); }
  }

  lemma {:induction false} SortLength(recs: seq<Rec>)
    ensures |Sort(recs)| == |recs|
  {
    if recs != [] {
      SortLength(recs[..|recs| - 1]);
      InsertLength(recs[|recs| - 1], Sort(recs[..|recs| - 1]));
    }
  }

  /** The half of a leaf that takes the key k. */
  function HalfFor(l: Leaf, k: Str): (half: Leaf)
    requires Halves(L(l)).Some?
    ensures |half.recs| < |l.recs| && half.deleted == 0
  {
    SortLength(l.recs);
    var (a, b) := Halves(L(l)).value;
    if Less(a.sep, k) then b.child.leaf else a.child.leaf
  }

  /** The leaf, or the half of it that takes k, or the half of that half, and so on, cannot be split though it is overfull. */
  predicate Doomed(l: Leaf, k: Str)
    decreases |l.recs|
  {
    Overfull(l) && (Halves(L(l)) == None || Doomed(HalfFor(l, k), k))
  }

  // ---- What one traversal does to the leaf ----

  /** A leaf that is not overfull is replaced by another such leaf; an overfull one stays, or is halved. */
  predicate Moves(l: Leaf, l': Leaf, k: Str) {
    || l' == l
    || (Overfull(l) && Halves(L(l)).Some? && l' == HalfFor(l, k))
    || (!Overfull(l) && !Overfull(l'))
  }

  lemma MovesKeepDoom(l: Leaf, l': Leaf, k: Str)
    requires Moves(l, l', k)
    ensures Doomed(l', k) <==> Doomed(l, k)
  {
  }

  lemma CompactMoves(l: Leaf, k: Str)
    requires LeafOK(l) && l.deleted > MAX_DELETED
    ensures Moves(l, Compact(L(l)).leaf, k)
  {
    SortFacts(l.recs);
  }

  lemma {:induction false} SplitMoves(es: seq<Entry>, k: Str, h: nat, lo: Bound, hi: Bound)
    requires Inv(N(es), h, lo, hi, true) && Shaped(N(es)) && h == 2
    requires Halves(es[Route(es, k)].child).Some? && Free(es[Route(es, k)].child) < MIN_FREE
    requires Deleted(es[Route(es, k)].child) <= MAX_DELETED
    ensures var t' := N(SplitAt(es, Route(es, k), Halves(es[Route(es, k)].child).value));
            Shaped(t') && Moves(LeafFor(N(es), k), LeafFor(t', k), k)
  {
    var i := Route(es, k);
    assert Inv(Kid(es, i), h - 1, LoOf(Seps(es), i, lo), HiOf(Seps(es), i, hi), true);
    SplitPath(es, k, h, lo, hi);
  }

  lemma {:induction false} MergeMoves(es: seq<Entry>, k: Str, h: nat, i: nat, lo: Bound, hi: Bound)
    requires Inv(N(es), h, lo, hi, true) && Shaped(N(es)) && h == 2 && i < |es| && Mergeable(es, i) && Route(es, k) in {i, i + 1}
    requires Free(es[Route(es, k)].child) >= MIN_FREE
    ensures Shaped(N(MergeAt(es, i))) && Moves(LeafFor(N(es), k), LeafFor(N(MergeAt(es, i)), k), k)
  {
    var a, b := Kid(es, i), Kid(es, i + 1);
    var lo1, mid, hi1 := LoOf(Seps(es), i, lo), Seps(es)[i], HiOf(Seps(es), i + 1, hi);
    assert Inv(a, h - 1, lo1, Some(mid), true) && Inv(b, h - 1, Some(mid), hi1, true);
    ChildrenOK(es, h, lo, hi, true);
    JoinRoomFor(a, b, h - 1, lo1, mid, hi1, true);
    JoinedShaped(a, b);
    var c := Joined(a, b);
    MergedShaped(es, i, c);
    RouteAfterMerge(es, i, c, k);
    RouteBounds(es, k);
    MergedEntry(es, i, c, i);
  }

  lemma LeavesMove(es: seq<Entry>, k: Str, h: nat, lo: Bound, hi: Bound)
    requires Inv(N(es), h, lo, hi, true) && Shaped(N(es)) && h == 2 && Below(es, k).Changed?
    ensures Shaped(Below(es, k).t) && Moves(LeafFor(N(es), k), LeafFor(Below(es, k).t, k), k)
  {
    var i := Route(es, k);
    var c := Kid(es, i);
    assert Inv(c, h - 1, LoOf(Seps(es), i, lo), HiOf(Seps(es), i, hi), true);
    if Deleted(c) > MAX_DELETED {
      CompactMoves(c.leaf, k);
      SetShaped(es, i, Compact(c));
      SetRoute(es, i, Compact(c), k);
    } else if Free(c) < MIN_FREE {
      SplitMoves(es, k, h, lo, hi);
    } else if i > 0 && Mergeable(es, i - 1) {
      MergeMoves(es, k, h, i - 1, lo, hi);
    } else {
      MergeMoves(es, k, h, i, lo, hi);
    }
  }

  /** The same at any height: changes of inner nodes leave the leaf for the key as it is. */
  lemma {:induction false} BelowMoves(es: seq<Entry>, k: Str, h: nat, lo: Bound, hi: Bound)
    requires Inv(N(es), h, lo, hi, true) && Shaped(N(es)) && Between(k, lo, hi) && Free(N(es)) >= MIN_FREE && Below(es, k).Changed?
    ensures Shaped(Below(es, k).t) && Moves(LeafFor(N(es), k), LeafFor(Below(es, k).t, k), k)
    decreases N(es), 1
  {
    var i := Route(es, k);
    assert Inv(Kid(es, i), h - 1, LoOf(Seps(es), i, lo), HiOf(Seps(es), i, hi), true);
    if h == 2 {
      LeavesMove(es, k, h, lo, hi);
    } else if Passes(es, k) {
      DeeperMoves(es, k, h, lo, hi);
    } else {
      InnerMoves(es, k, h, lo, hi);
    }
  }

  /** If a level above the leaves gets lower, the leaf for the key stays. */
  lemma SameLeaf(t: Tree, h: nat, t': Tree, h': nat, k: Str, l: nat, lo: Bound, hi: Bound)
    requires Better(t, h, t', h', k, l) && l > 0 && Inv(t, h, lo, hi, true) && Inv(t', h', lo, hi, true)
    ensures LeafFor(t', k) == LeafFor(t, k)
  {
    PathEndsAtLeaf(t, k, h, lo, hi, true);
    PathEndsAtLeaf(t', k, h', lo, hi, true);
    assert PathNode(t', h', k, 0) == PathNode(t, h, k, 0);
  }

  lemma InnerMoves(es: seq<Entry>, k: Str, h: nat, lo: Bound, hi: Bound)
    requires Inv(N(es), h, lo, hi, true) && Shaped(N(es)) && Between(k, lo, hi) && Free(N(es)) >= MIN_FREE && Below(es, k).Changed?
    requires h > 2 && !Passes(es, k)
    ensures Shaped(Below(es, k).t) && LeafFor(Below(es, k).t, k) == LeafFor(N(es), k)
  {
    var i := Route(es, k);
    assert Inv(Kid(es, i), h - 1, LoOf(Seps(es), i, lo), HiOf(Seps(es), i, hi), true);
    ChangeHere(es, k, h, lo, hi);
    BelowKeeps(es, k, h, lo, hi, true);
    SameLeaf(N(es), h, Below(es, k).t, h, k, h - 2, lo, hi);
  }

  lemma {:induction false} DeeperMoves(es: seq<Entry>, k: Str, h: nat, lo: Bound, hi: Bound)
    requires Inv(N(es), h, lo, hi, true) && Shaped(N(es)) && Between(k, lo, hi) && Free(N(es)) >= MIN_FREE && Below(es, k).Changed?
    requires h > 2 && Passes(es, k)
    ensures Shaped(Below(es, k).t) && Moves(LeafFor(N(es), k), LeafFor(Below(es, k).t, k), k)
    decreases N(es), 0
  {
    var i := Route(es, k);
    var c := Kid(es, i);
    var lo1, hi1 := LoOf(Seps(es), i, lo), HiOf(Seps(es), i, hi);
    assert Inv(c, h - 1, lo1, hi1, true);
    RouteWithin(es, k, lo, hi);
    BelowMoves(c.entries, k, h - 1, lo1, hi1);
    SetShaped(es, i, Below(c.entries, k).t);
    SetRoute(es, i, Below(c.entries, k).t, k);
  }

  lemma RootMoves(t: Tree, k: Str, h: nat)
    requires Inv(t, h, None, None, true) && Shaped(t) && Deleted(t) <= MAX_DELETED && Free(t) < MIN_FREE && Halves(t).Some?
    ensures Shaped(Traverse(t, k).t) && Moves(LeafFor(t, k), LeafFor(Traverse(t, k).t, k), k)
  {
    var (a, b) := Halves(t).value;
    HalvesShaped(t);
    InvShaped(t, h, None, None, true);
    RootBetter(t, k, h);
    if t.N? {
      TraverseKeeps(t, k, h, true);
      SameLeaf(t, h, Traverse(t, k).t, h + 1, k, h - 1, None, None);
    } else {
      RouteIs([a, b], k, if Less(a.sep, k) then 1 else 0);
    }
  }

  lemma TraverseMoves(t: Tree, k: Str, h: nat)
    requires Inv(t, h, None, None, true) && Shaped(t) && KeyOK(k) && Traverse(t, k).Changed?
    ensures Shaped(Traverse(t, k).t) && Moves(LeafFor(t, k), LeafFor(Traverse(t, k).t, k), k)
  {
    if Deleted(t) > MAX_DELETED {
      CompactMoves(t.leaf, k);
    } else if Free(t) < MIN_FREE {
      RootMoves(t, k, h);
    } else {
      BelowMoves(t.entries, k, h, None, None);
    }
  }

  /** Every restart keeps the leaf's doom, whichever way it is. */
  lemma RestartKeepsDoom(t: Tree, k: Str, h: nat)
    requires Inv(t, h, None, None, true) && Shaped(t) && KeyOK(k) && Traverse(t, k).Changed?
    ensures Shaped(Traverse(t, k).t) && (Doomed(LeafFor(Traverse(t, k).t, k), k) <==> Doomed(LeafFor(t, k), k))
  {
    TraverseMoves(t, k, h);
    MovesKeepDoom(LeafFor(t, k), LeafFor(Traverse(t, k).t, k), k);
  }

  /** A traversal that changes nothing fails exactly if the leaf is doomed. */
  lemma StopsByDoom(t: Tree, k: Str, h: nat)
    requires Inv(t, h, None, None, true) && Shaped(t) && !Traverse(t, k).Changed?
    ensures Traverse(t, k).Abort? <==> Doomed(LeafFor(t, k), k)
  {
    if Traverse(t, k).Found? {
      Room(t, k);
    } else {
      TraverseFails(t, k, h, true);
      HalvesOfLeaf(LeafFor(t, k));
    }
  }

  lemma {:induction false} RestartsKeepDoom(ts: seq<Tree>, k: Str, h: nat, i: nat) returns (g: nat)
    requires i < |ts| && Restarts(ts, k) && KeyOK(k) && Inv(ts[0], h, None, None, true)
    ensures Inv(ts[i], g, None, None, true) && (Doomed(LeafFor(ts[i], k), k) <==> Doomed(LeafFor(ts[0], k), k))
  {
    if i == 0 {
      g := h;
    } else {
      var g0 := RestartsKeepDoom(ts, k, h, i - 1);
      assert Restart(ts[i - 1], ts[i - 1 + 1], k);
      RestartKeepsDoom(ts[i - 1], k, g0);
      TraverseKeeps(ts[i - 1], k, g0, true);
      g := HeightAfter(ts[i - 1], g0);
    }
  }

  /** However often a write starts over: with a doomed leaf it never gets through, without one it never fails. */
  lemma DoomedForEver(ts: seq<Tree>, k: Str, h: nat)
    requires ts != [] && Restarts(ts, k) && KeyOK(k) && Inv(ts[0], h, None, None, true)
    ensures if Doomed(LeafFor(ts[0], k), k) then !Traverse(ts[|ts| - 1], k).Found? else !Traverse(ts[|ts| - 1], k).Abort?
  {
    var g := RestartsKeepDoom(ts, k, h, |ts| - 1);
    if !Traverse(ts[|ts| - 1], k).Changed? { StopsByDoom(ts[|ts| - 1], k, g); }
  }
}
