/**
  Which structural change a traversal makes: the one that is due at the topmost node on the path of
  the key at which any is due, sizes written out.
*/
module BzTreeTopmost {
  import opened BzKeys
  import opened BzSmo
  import opened BzTree
  import opened BzTreeInv
  import opened BzTreeLookups
  import opened BzTreeRestart

  datatype Due = Nothing | ToCompact | ToSplit | ToMerge(left: nat)

  /** Two neighbours of together at most 176 bytes leave the merged node 64 bytes. */
  predicate FitTogether(es: seq<Entry>, i: nat) {
    i + 1 < |es| && TreeUsed(es[i].child) + TreeUsed(es[i + 1].child) <= 176
  }

  /** What is due at the node on the path at level l: compaction first, then a split, then a merge, with the left neighbour first. */
  function DueAt(t: Tree, h: nat, k: Str, l: nat): Due
    requires Shaped(t) && l < h
  {
    var n := PathNode(t, h, k, l);
    if Deleted(n) > 100 then ToCompact
    else if TreeUsed(n) > 192 then ToSplit
    else if l + 1 == h || PathNode(t, h, k, l + 1).L? then Nothing
    else
      InnerShaped(t, h, k, l + 1);
      var es := PathNode(t, h, k, l + 1).entries;
      var i := Route(es, k);
      if i > 0 && FitTogether(es, i - 1) then ToMerge(i - 1)
      else if FitTogether(es, i) then ToMerge(i)
      else Nothing
  }

  /** The tree with the node on the path at level l replaced. */
  function Graft(t: Tree, h: nat, k: Str, l: nat, n: Tree): Tree
    requires Shaped(t)
    decreases t
  {
    if t.L? || h <= l + 1 then n
    else
      var i := Route(t.entries, k);
      N(t.entries[i := Entry(t.entries[i].sep, Graft(t.entries[i].child, h - 1, k, l, n))])
  }

  /** The node has what the change needs: a leaf to compact, siblings of one kind to merge. */
  predicate CanRepair(t: Tree, h: nat, k: Str, l: nat)
    requires Shaped(t) && l < h
  {
    && (DueAt(t, h, k, l).ToCompact? ==> PathNode(t, h, k, l).L?)
    && (l + 1 < h ==> PathNode(t, h, k, l + 1).N?)
    && (DueAt(t, h, k, l).ToMerge? ==>
          l + 1 < h && var es, i := PathNode(t, h, k, l + 1).entries, DueAt(t, h, k, l).left;
                       i + 1 < |es| && (es[i].child.L? <==> es[i + 1].child.L?))
  }

  /** The change due at level l. */
  function Repaired(t: Tree, h: nat, k: Str, l: nat): Outcome
    requires Shaped(t) && l < h && CanRepair(t, h, k, l)
  {
    match DueAt(t, h, k, l)
    case Nothing => Found
    case ToCompact => Changed(Graft(t, h, k, l, Compact(PathNode(t, h, k, l))))
    case ToSplit =>
      (match Halves(PathNode(t, h, k, l))
       case None => Abort
       case Some(halves) =>
         if l + 1 == h then Changed(N([halves.0, halves.1]))
         else
           var es := PathNode(t, h, k, l + 1).entries;
           InnerShaped(t, h, k, l + 1);
           Changed(Graft(t, h, k, l + 1, N(SplitAt(es, Route(es, k), halves)))))
    case ToMerge(i) =>
      Changed(Graft(t, h, k, l + 1, N(MergeAt(PathNode(t, h, k, l + 1).entries, i))))
  }

  lemma {:induction false} InnerShaped(t: Tree, h: nat, k: Str, l: nat)
    requires Shaped(t)
    ensures Shaped(PathNode(t, h, k, l))
    decreases t
  {
    if t.N? && h > l + 1 { InnerShaped(t.entries[Route(t.entries, k)].child, h - 1, k, l); }
  }

  // ---- Below a node ----

  /** What is due further down is due in the child on the path. */
  lemma DueInChild(es: seq<Entry>, h: nat, k: Str, l: nat)
    requires Shaped(N(es)) && l + 2 < h
    ensures var c := es[Route(es, k)].child;
            && PathNode(N(es), h, k, l) == PathNode(c, h - 1, k, l) && PathNode(N(es), h, k, l + 1) == PathNode(c, h - 1, k, l + 1)
            && DueAt(N(es), h, k, l) == DueAt(c, h - 1, k, l)
  {
  }

  /** The child itself, with its siblings. */
  lemma DueHere(es: seq<Entry>, h: nat, k: Str)
    requires Shaped(N(es)) && h >= 2
    ensures PathNode(N(es), h, k, h - 2) == es[Route(es, k)].child && PathNode(N(es), h, k, h - 1) == N(es)
    ensures DueAt(es[Route(es, k)].child, h - 1, k, h - 2) != Nothing ==> DueAt(N(es), h, k, h - 2) != Nothing
  {
    var c := es[Route(es, k)].child;
    assert PathNode(c, h - 1, k, h - 2) == c;
  }

  /** Nodes at one level are all leaves or all inner nodes. */
  lemma SameKind(es: seq<Entry>, h: nat, lo: Bound, hi: Bound, tight: bool, i: nat)
    requires Inv(N(es), h, lo, hi, tight) && i < |es|
    ensures h >= 2 && (es[i].child.L? <==> h == 2) && (es[i].child.N? ==> Deleted(es[i].child) == 0)
  {
    assert Inv(Kid(es, i), h - 1, LoOf(Seps(es), i, lo), HiOf(Seps(es), i, hi), tight);
  }

  predicate Topmost(t: Tree, h: nat, k: Str, l: nat)
    requires Shaped(t)
  {
    l < h && DueAt(t, h, k, l) != Nothing && forall j | l < j < h :: DueAt(t, h, k, j) == Nothing
  }

  /** The same among the levels below the node itself. */
  predicate TopmostBelow(es: seq<Entry>, h: nat, k: Str, l: nat)
    requires Shaped(N(es))
  {
    l + 1 < h && DueAt(N(es), h, k, l) != Nothing && forall j | l < j < h - 1 :: DueAt(N(es), h, k, j) == Nothing
  }

  lemma {:induction false} RepairMakesSense(t: Tree, h: nat, k: Str, l: nat, lo: Bound, hi: Bound, tight: bool)
    requires Inv(t, h, lo, hi, tight) && Shaped(t) && l < h
    ensures CanRepair(t, h, k, l)
    decreases t
  {
    if t.N? && l + 1 < h {
      var es := t.entries;
      var i := Route(es, k);
      assert Inv(Kid(es, i), h - 1, LoOf(Seps(es), i, lo), HiOf(Seps(es), i, hi), tight);
      if l + 2 == h {
        DueHere(es, h, k);
        forall j | 0 <= j < |es| ensures es[j].child.L? <==> h == 2 { SameKind(es, h, lo, hi, tight, j); }
      } else {
        RepairMakesSense(Kid(es, i), h - 1, k, l, LoOf(Seps(es), i, lo), HiOf(Seps(es), i, hi), tight);
        DueInChild(es, h, k, l);
      }
    }
  }

  lemma RepairsChild(es: seq<Entry>, h: nat, k: Str)
    requires Shaped(N(es)) && h >= 2 && CanRepair(N(es), h, k, h - 2)
    requires forall j | 0 <= j < |es| :: es[j].child.L? <==> es[Route(es, k)].child.L?
    ensures DueAt(N(es), h, k, h - 2) != Nothing ==> Below(es, k) == Repaired(N(es), h, k, h - 2)
    ensures DueAt(N(es), h, k, h - 2) == Nothing ==> Passes(es, k)
  {
    DueHere(es, h, k);
    GraftHere(es, h, k, Route(es, k));
  }

  /** The change is due at the child itself. */
  lemma RepairsHere(es: seq<Entry>, h: nat, k: Str, lo: Bound, hi: Bound, tight: bool)
    requires Inv(N(es), h, lo, hi, tight) && Shaped(N(es)) && h >= 2
    ensures CanRepair(N(es), h, k, h - 2)
    ensures DueAt(N(es), h, k, h - 2) != Nothing ==> Below(es, k) == Repaired(N(es), h, k, h - 2)
    ensures DueAt(N(es), h, k, h - 2) == Nothing ==> Passes(es, k)
  {
    RepairMakesSense(N(es), h, k, h - 2, lo, hi, tight);
    forall j | 0 <= j < |es| ensures es[j].child.L? <==> h == 2 { SameKind(es, h, lo, hi, tight, j); }
    RepairsChild(es, h, k);
  }

  lemma GraftHere(es: seq<Entry>, h: nat, k: Str, i: nat)
    requires Shaped(N(es)) && h >= 2 && i == Route(es, k)
    ensures forall n :: Graft(N(es), h, k, h - 2, n) == N(es[i := Entry(es[i].sep, n)])
  {
    forall n
      ensures Graft(N(es), h, k, h - 2, n) == N(es[i := Entry(es[i].sep, n)])
    {
      assert Graft(es[i].child, h - 1, k, h - 2, n) == n;
    }
  }

  lemma GraftInChild(es: seq<Entry>, h: nat, k: Str, l: nat, n: Tree)
    requires Shaped(N(es)) && l + 1 < h
    ensures var i := Route(es, k);
            Graft(N(es), h, k, l, n) == N(es[i := Entry(es[i].sep, Graft(es[i].child, h - 1, k, l, n))])
  {
  }

  lemma RepairsInChild(es: seq<Entry>, h: nat, k: Str, l: nat, lo: Bound, hi: Bound, tight: bool)
    requires Inv(N(es), h, lo, hi, tight) && Shaped(N(es)) && l + 2 < h && DueAt(N(es), h, k, l) != Nothing
    requires CanRepair(N(es), h, k, l) && CanRepair(es[Route(es, k)].child, h - 1, k, l)
    ensures var i := Route(es, k);
            Repaired(N(es), h, k, l) ==
              match Repaired(es[i].child, h - 1, k, l)
              case Found => Found
              case Abort => Abort
              case Changed(c) => Changed(N(es[i := Entry(es[i].sep, c)]))
  {
    DueInChild(es, h, k, l);
  }

  lemma TopmostInChild(es: seq<Entry>, h: nat, k: Str, l: nat)
    requires Shaped(N(es)) && TopmostBelow(es, h, k, l) && l + 2 < h && es[Route(es, k)].child.N?
    ensures TopmostBelow(es[Route(es, k)].child.entries, h - 1, k, l)
  {
    var c, g := es[Route(es, k)].child, h - 1;
    DueInChild(es, h, k, l);
    forall j | l < j < h - 2 ensures DueAt(c, g, k, j) == Nothing { DueInChild(es, h, k, j); }
  }

  lemma {:induction false} BelowTopmost(es: seq<Entry>, h: nat, k: Str, l: nat, lo: Bound, hi: Bound, tight: bool)
    requires Inv(N(es), h, lo, hi, tight) && Shaped(N(es)) && TopmostBelow(es, h, k, l)
    ensures CanRepair(N(es), h, k, l) && Below(es, k) == Repaired(N(es), h, k, l)
    decreases N(es)
  {
    RepairsHere(es, h, k, lo, hi, tight);
    if l + 2 < h {
      var i := Route(es, k);
      var lo1, hi1 := LoOf(Seps(es), i, lo), HiOf(Seps(es), i, hi);
      assert Inv(Kid(es, i), h - 1, lo1, hi1, tight);
      SameKind(es, h, lo, hi, tight, i);
      TopmostInChild(es, h, k, l);
      BelowTopmost(es[i].child.entries, h - 1, k, l, lo1, hi1, tight);
      RepairMakesSense(N(es), h, k, l, lo, hi, tight);
      RepairsInChild(es, h, k, l, lo, hi, tight);
    }
  }

  lemma {:induction false} BelowQuiet(es: seq<Entry>, h: nat, k: Str, lo: Bound, hi: Bound, tight: bool)
    requires Inv(N(es), h, lo, hi, tight) && Shaped(N(es)) && forall j | 0 <= j < h - 1 :: DueAt(N(es), h, k, j) == Nothing
    ensures Below(es, k) == Found
    decreases N(es)
  {
    RepairsHere(es, h, k, lo, hi, tight);
    if h > 2 {
      var i := Route(es, k);
      var lo1, hi1 := LoOf(Seps(es), i, lo), HiOf(Seps(es), i, hi);
      assert Inv(Kid(es, i), h - 1, lo1, hi1, tight);
      SameKind(es, h, lo, hi, tight, i);
      var c, g := es[i].child, h - 1;
      forall j | 0 <= j < h - 2 ensures DueAt(c, g, k, j) == Nothing { DueInChild(es, h, k, j); }
      BelowQuiet(es[i].child.entries, h - 1, k, lo1, hi1, tight);
    } else {
      SameKind(es, h, lo, hi, tight, Route(es, k));
    }
  }

  /**
    A traversal reaches the leaf if and only if nothing is due anywhere on the path of the key;
    otherwise it makes the change due at the topmost level at which one is, and no other.
  */
  lemma TraverseTopmost(t: Tree, h: nat, k: Str, l: nat, tight: bool)
    requires Inv(t, h, None, None, tight) && Shaped(t)
    ensures Traverse(t, k).Found? <==> forall j | 0 <= j < h :: DueAt(t, h, k, j) == Nothing
    ensures Topmost(t, h, k, l) ==> CanRepair(t, h, k, l) && Traverse(t, k) == Repaired(t, h, k, l)
  {
    RootDue(t, h, k, tight);
    if DueAt(t, h, k, h - 1) == Nothing && t.N? { RootPasses(t.entries, h, k, l, tight); }
  }

  lemma RootPasses(es: seq<Entry>, h: nat, k: Str, l: nat, tight: bool)
    requires Inv(N(es), h, None, None, tight) && Shaped(N(es)) && DueAt(N(es), h, k, h - 1) == Nothing
    ensures Below(es, k).Found? <==> forall j | 0 <= j < h :: DueAt(N(es), h, k, j) == Nothing
    ensures Topmost(N(es), h, k, l) ==> CanRepair(N(es), h, k, l) && Below(es, k) == Repaired(N(es), h, k, l)
  {
    if forall j | 0 <= j < h - 1 :: DueAt(N(es), h, k, j) == Nothing {
      BelowQuiet(es, h, k, None, None, tight);
    } else {
      var m := HighestDue(es, h, k, h - 1);
      BelowTopmost(es, h, k, m, None, None, tight);
    }
  }

  lemma RootDue(t: Tree, h: nat, k: Str, tight: bool)
    requires Inv(t, h, None, None, tight) && Shaped(t)
    ensures h >= 1 && (t.L? ==> h == 1) && PathNode(t, h, k, h - 1) == t && CanRepair(t, h, k, h - 1)
    ensures DueAt(t, h, k, h - 1) != Nothing ==> Traverse(t, k) == Repaired(t, h, k, h - 1)
    ensures DueAt(t, h, k, h - 1) == Nothing ==> Traverse(t, k) == if t.L? then Found else Below(t.entries, k)
  {
  }

  lemma {:induction false} HighestDue(es: seq<Entry>, h: nat, k: Str, n: nat) returns (l: nat)
    requires Shaped(N(es)) && n + 1 <= h && exists j :: 0 <= j < n && DueAt(N(es), h, k, j) != Nothing
    ensures l < n && DueAt(N(es), h, k, l) != Nothing && forall j | l < j < n :: DueAt(N(es), h, k, j) == Nothing
  {
    if DueAt(N(es), h, k, n - 1) != Nothing { l := n - 1; } else { l := HighestDue(es, h, k, n - 1); }
  }
}
