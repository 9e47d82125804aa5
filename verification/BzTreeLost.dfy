/**
  Which structural changes lose keys. Splits and merges of inner nodes go by a node's own last
  separator, although that stands for infinity inside the node; records below the node that
  exceed it can no longer be found afterwards. Without erase there are none (tight trees).
*/
module BzTreeLost {
  import opened BzKeys
  import opened BzSmo
  import opened BzTree
  import opened BzTreeInv
  import opened BzTreeSmo
  import opened BzTreeSteps
  import opened BzTreeLookups

  /** No record below c exceeds its own last separator. */
  ghost predicate WithinLast(c: Tree) {
    c.N? && c.entries != [] ==> forall r | Has(c, r) :: !Less(c.entries[|c.entries| - 1].sep, r.key)
  }

  ghost predicate SameLookups(t: Tree, t': Tree) {
    Shaped(t) && Shaped(t') && forall k :: Lookup(t', k) == Lookup(t, k)
  }

  /** A record of t that a lookup in t' does not find. */
  ghost predicate Lost(t: Tree, t': Tree, r: Rec) {
    Shaped(t) && Shaped(t') && Has(t, r) && Lookup(t, r.key) == Some(r.val) && Lookup(t', r.key) == None
  }

  /** A record below child i is looked for there. */
  lemma RoutedTo(es: seq<Entry>, i: nat, r: Rec, h: nat, lo: Bound, hi: Bound, tight: bool)
    requires Inv(N(es), h, lo, hi, tight) && Shaped(N(es)) && i < |es| && Has(es[i].child, r)
    ensures Route(es, r.key) == i && Has(N(es), r) && Lookup(N(es), r.key) == Some(r.val)
  {
    var lo1, hi1 := LoOf(Seps(es), i, lo), HiOf(Seps(es), i, hi);
    assert Inv(Kid(es, i), h - 1, lo1, hi1, tight);
    WithinBounds(Kid(es, i), h - 1, lo1, hi1, tight, r);
    ChildrenOK(es, h, lo, hi, tight);
    RouteUnique(es, r.key, i, lo, hi);
    assert Has(N(es), r);
    LookupFinds(N(es), h, lo, hi, tight, r.key, r.val);
  }

  lemma FoundInChild(es: seq<Entry>, k: Str, h: nat, lo: Bound, hi: Bound, tight: bool) returns (r: Rec)
    requires Inv(N(es), h, lo, hi, tight) && Shaped(N(es)) && Lookup(N(es), k).Some?
    ensures r == Rec(k, Lookup(N(es), k).value) && Has(es[Route(es, k)].child, r)
  {
    var i := Route(es, k);
    r := Rec(k, Lookup(N(es), k).value);
    assert Inv(Kid(es, i), h - 1, LoOf(Seps(es), i, lo), HiOf(Seps(es), i, hi), tight);
    LookupFinds(Kid(es, i), h - 1, LoOf(Seps(es), i, lo), HiOf(Seps(es), i, hi), tight, k, r.val);
  }

  // ---- Splits ----

  lemma LastIsLargest(sorted: seq<Rec>, r: Rec)
    requires Sorted(sorted) && r in sorted
    ensures !Less(sorted[|sorted| - 1].key, r.key)
  {
    var n := |sorted|;
    var j :| 0 <= j < n && sorted[j] == r;
    if j < n - 1 { LessTransitiveNot(sorted[j].key, sorted[n - 1].key); }
    LessIrreflexive(r.key);
  }

  lemma LeafWithinLast(l: Leaf, r: Rec)
    requires Halves(L(l)).Some? && Distinct(l.recs) && r in l.recs
    ensures !Less(Halves(L(l)).value.1.sep, r.key)
  {
    SortFacts(l.recs);
    LastIsLargest(Sort(l.recs), r);
  }

  /**
    At any height: splitting child i keeps every lookup if and only if the child is a leaf, or
    the last child, or no record below it exceeds its own last separator. Otherwise exactly the
    records that do are lost.
  */
  lemma SplitKeepsLookups(es: seq<Entry>, i: nat, h: nat, lo: Bound, hi: Bound, tight: bool)
    requires Inv(N(es), h, lo, hi, tight) && Shaped(N(es)) && i < |es| && Halves(es[i].child).Some?
    ensures var t, t' := N(es), N(SplitAt(es, i, Halves(es[i].child).value));
            && (SameLookups(t, t') <==> i == |es| - 1 || WithinLast(es[i].child))
            && (SameLookups(t, t') || exists r :: Lost(t, t', r))
  {
    var c := es[i].child;
    var (a, b) := Halves(c).value;
    var t, t' := N(es), N(SplitAt(es, i, (a, b)));
    LookupAfterSplit(es, i, [], h, lo, hi, tight);
    if i == |es| - 1 || WithinLast(c) {
      forall k
        ensures Lookup(t', k) == Lookup(t, k)
      {
        LookupAfterSplit(es, i, k, h, lo, hi, tight);
        if Overshoots(es, i, b, k) && Lookup(t, k).Some? {
          var r := FoundInChild(es, k, h, lo, hi, tight);
          assert Inv(Kid(es, i), h - 1, LoOf(Seps(es), i, lo), HiOf(Seps(es), i, hi), tight);
          if c.L? { LeafWithinLast(c.leaf, r); }
        }
      }
    } else {
      var r :| Has(c, r) && Less(c.entries[|c.entries| - 1].sep, r.key);
      RoutedTo(es, i, r, h, lo, hi, tight);
      LookupAfterSplit(es, i, r.key, h, lo, hi, tight);
      assert Lost(t, t', r);
    }
  }

  // ---- Merges ----

  /**
    At any height: merging children i and i + 1 keeps every lookup if and only if no record below
    the left one exceeds its own last separator.
  */
  lemma MergeKeepsLookups(es: seq<Entry>, i: nat, h: nat, lo: Bound, hi: Bound, tight: bool)
    requires Inv(N(es), h, lo, hi, tight) && Shaped(N(es)) && i + 1 < |es| && (es[i].child.L? <==> es[i + 1].child.L?)
    ensures var t, t' := N(es), N(MergeAt(es, i));
            && (SameLookups(t, t') <==> WithinLast(es[i].child))
            && (SameLookups(t, t') || exists r :: Lost(t, t', r))
  {
    var a := es[i].child;
    var t, t' := N(es), N(MergeAt(es, i));
    LookupAfterMerge(es, i, [], h, lo, hi, tight);
    if WithinLast(a) {
      forall k
        ensures Lookup(t', k) == Lookup(t, k)
      {
        LookupAfterMerge(es, i, k, h, lo, hi, tight);
        if Route(es, k) == i && Strays(a, k) && Lookup(t, k).Some? {
          var r := FoundInChild(es, k, h, lo, hi, tight);
        }
      }
    } else {
      var r :| Has(a, r) && Less(a.entries[|a.entries| - 1].sep, r.key);
      RoutedTo(es, i, r, h, lo, hi, tight);
      LookupAfterMerge(es, i, r.key, h, lo, hi, tight);
      assert Lost(t, t', r);
    }
  }

  // ---- Whole traversals ----

  /** The change that a traversal towards k makes below the node loses nothing. */
  ghost predicate Harmless(es: seq<Entry>, k: Str)
    requires Shaped(N(es))
    decreases N(es)
  {
    var i := Route(es, k);
    var c := es[i].child;
    if Deleted(c) > MAX_DELETED then true
    else if Free(c) < MIN_FREE then i == |es| - 1 || WithinLast(c)
    else if i > 0 && Mergeable(es, i - 1) then WithinLast(es[i - 1].child)
    else if Mergeable(es, i) then WithinLast(c)
    else c.L? || Harmless(c.entries, k)
  }

  lemma SetShaped(es: seq<Entry>, i: nat, c: Tree)
    requires Shaped(N(es)) && i < |es| && Shaped(c)
    ensures Shaped(N(es[i := Entry(es[i].sep, c)]))
  {
  }

  lemma {:induction false} SetRoute(es: seq<Entry>, i: nat, c: Tree, k: Str)
    requires i < |es|
    ensures Route(es[i := Entry(es[i].sep, c)], k) == Route(es, k)
  {
    var es' := es[i := Entry(es[i].sep, c)];
    RouteBounds(es, k);
    forall j | 0 <= j < |es| ensures es'[j].sep == es[j].sep { }
    RouteIs(es', k, Route(es, k));
  }

  /** Replacing a child changes lookups just as much as the child's. */
  lemma SetLookup(es: seq<Entry>, i: nat, c: Tree, k: Str)
    requires Shaped(N(es)) && i < |es| && Shaped(c)
    ensures Shaped(N(es[i := Entry(es[i].sep, c)]))
    ensures Lookup(N(es[i := Entry(es[i].sep, c)]), k) == if Route(es, k) == i then Lookup(c, k) else Lookup(N(es), k)
  {
    SetShaped(es, i, c);
    SetRoute(es, i, c, k);
  }

  lemma SetSame(es: seq<Entry>, i: nat, c: Tree)
    requires Shaped(N(es)) && i < |es| && SameLookups(es[i].child, c)
    ensures SameLookups(N(es), N(es[i := Entry(es[i].sep, c)]))
  {
    SetShaped(es, i, c);
    forall k ensures Lookup(N(es[i := Entry(es[i].sep, c)]), k) == Lookup(N(es), k) { SetLookup(es, i, c, k); }
  }

  lemma SetLost(es: seq<Entry>, i: nat, c: Tree, r: Rec, h: nat, lo: Bound, hi: Bound, tight: bool)
    requires Inv(N(es), h, lo, hi, tight) && Shaped(N(es)) && i < |es| && Lost(es[i].child, c, r)
    ensures Lost(N(es), N(es[i := Entry(es[i].sep, c)]), r)
  {
    RoutedTo(es, i, r, h, lo, hi, tight);
    SetLookup(es, i, c, r.key);
  }

  lemma CompactLookups(c: Tree)
    requires c.L? && Distinct(c.leaf.recs)
    ensures SameLookups(c, Compact(c))
  {
    SortFacts(c.leaf.recs);
    SortedDistinct(Sort(c.leaf.recs));
    forall k ensures Lookup(Compact(c), k) == Lookup(c, k) { SameFind(c.leaf.recs, Sort(c.leaf.recs), k); }
  }

  /** A change below a node, at any height: it keeps every lookup, or it is not harmless and a record is lost. */
  lemma {:induction false} BelowLookups(es: seq<Entry>, k: Str, h: nat, lo: Bound, hi: Bound, tight: bool)
    requires Inv(N(es), h, lo, hi, tight) && Shaped(N(es)) && Below(es, k).Changed?
    ensures SameLookups(N(es), Below(es, k).t) <==> Harmless(es, k)
    ensures SameLookups(N(es), Below(es, k).t) || exists r :: Lost(N(es), Below(es, k).t, r)
    decreases N(es), 1
  {
    var i := Route(es, k);
    var c := Kid(es, i);
    assert Inv(c, h - 1, LoOf(Seps(es), i, lo), HiOf(Seps(es), i, hi), tight);
    if Deleted(c) > MAX_DELETED {
      CompactLookups(c);
      SetSame(es, i, Compact(c));
    } else if Free(c) < MIN_FREE {
      SplitKeepsLookups(es, i, h, lo, hi, tight);
    } else if i > 0 && Mergeable(es, i - 1) {
      MergeKeepsLookups(es, i - 1, h, lo, hi, tight);
    } else if Mergeable(es, i) {
      MergeKeepsLookups(es, i, h, lo, hi, tight);
    } else {
      DeeperLookups(es, k, h, lo, hi, tight);
    }
  }

  lemma DeeperLookups(es: seq<Entry>, k: Str, h: nat, lo: Bound, hi: Bound, tight: bool)
    requires Inv(N(es), h, lo, hi, tight) && Shaped(N(es))
    requires es[Route(es, k)].child.N? && Below(es[Route(es, k)].child.entries, k).Changed?
    ensures var i := Route(es, k);
            var c := es[i].child;
            var t' := N(es[i := Entry(es[i].sep, Below(c.entries, k).t)]);
            && (SameLookups(N(es), t') <==> Harmless(c.entries, k))
            && (SameLookups(N(es), t') || exists r :: Lost(N(es), t', r))
    decreases N(es), 0
  {
    var i := Route(es, k);
    var c := Kid(es, i);
    assert Inv(c, h - 1, LoOf(Seps(es), i, lo), HiOf(Seps(es), i, hi), tight);
    BelowLookups(c.entries, k, h - 1, LoOf(Seps(es), i, lo), HiOf(Seps(es), i, hi), tight);
    var c' := Below(c.entries, k).t;
    if Harmless(c.entries, k) {
      SetSame(es, i, c');
    } else {
      var r :| Lost(c, c', r);
      SetLost(es, i, c', r, h, lo, hi, tight);
    }
  }

  ghost predicate Safe(t: Tree, k: Str)
    requires Shaped(t)
  {
    t.L? || Free(t) < MIN_FREE || Harmless(t.entries, k)
  }

  lemma NewRootLookups(t: Tree, h: nat, tight: bool)
    requires Inv(t, h, None, None, tight) && Shaped(t) && Halves(t).Some?
    ensures SameLookups(t, N([Halves(t).value.0, Halves(t).value.1]))
  {
    var (a, b) := Halves(t).value;
    HalvesInOrder(t, h, None, None, tight);
    HalvesShaped(t);
    forall k
      ensures Lookup(N([a, b]), k) == Lookup(t, k)
    {
      HalfLookup(t, k);
      RouteIs([a, b], k, if Less(a.sep, k) then 1 else 0);
    }
  }

  /** The change a traversal makes, at any height: it keeps every lookup exactly if it is safe; otherwise a record is lost. */
  lemma TraverseLookups(t: Tree, k: Str, h: nat, tight: bool)
    requires Inv(t, h, None, None, tight) && Shaped(t) && Traverse(t, k).Changed?
    ensures SameLookups(t, Traverse(t, k).t) <==> Safe(t, k)
    ensures SameLookups(t, Traverse(t, k).t) || exists r :: Lost(t, Traverse(t, k).t, r)
  {
    if Deleted(t) > MAX_DELETED {
      CompactLookups(t);
    } else if Free(t) < MIN_FREE {
      NewRootLookups(t, h, tight);
    } else {
      BelowLookups(t.entries, k, h, None, None, tight);
    }
  }
}
