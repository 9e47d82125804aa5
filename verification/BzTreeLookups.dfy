/**
  What a structural change does to every single lookup, by comparing the routes of a key before
  and after. In order or not afterwards, a tree whose lookups are all the same has lost nothing.
*/
module BzTreeLookups {
  import opened BzKeys
  import opened BzSmo
  import opened BzTree
  import opened BzTreeInv
  import opened BzTreeSmo
  import opened BzTreeSteps

  // ---- Routes ----

  /** The route is determined by the separators before it and at it. */
  lemma RouteIs(es: seq<Entry>, k: Str, i: nat)
    requires i < |es| && (forall j | 0 <= j < i :: Less(es[j].sep, k)) && (i < |es| - 1 ==> !Less(es[i].sep, k))
    ensures Route(es, k) == i
  {
    RouteBounds(es, k);
  }

  /** A key beyond one separator is beyond all before it. */
  lemma BeyondAll(es: seq<Entry>, i: nat, k: Str)
    requires Increasing(Seps(es)) && i < |es| && Less(es[i].sep, k)
    ensures forall j | 0 <= j <= i :: Less(es[j].sep, k)
  {
    var seps := Seps(es);
    forall j | 0 <= j <= i
      ensures Less(es[j].sep, k)
    {
      if j < i { LessTransitive(seps[j], seps[i], k); }
    }
  }

  lemma SplitRoute(cs: seq<Entry>, m: nat, k: Str)
    requires 0 < m < |cs| && Increasing(Seps(cs))
    ensures !Less(cs[m - 1].sep, k) ==> Route(cs, k) < m && Route(cs[..m], k) == Route(cs, k)
    ensures Less(cs[m - 1].sep, k) ==> Route(cs, k) >= m && Route(cs[m..], k) == Route(cs, k) - m
  {
    RouteBounds(cs, k);
    var r := Route(cs, k);
    if Less(cs[m - 1].sep, k) {
      BeyondAll(cs, m - 1, k);
      assert r >= m;
      assert forall j | 0 <= j < |cs| - m :: cs[m..][j] == cs[m + j];
      RouteIs(cs[m..], k, r - m);
    } else {
      assert r < m;
      RouteIs(cs[..m], k, r);
    }
  }

  // ---- The two halves of a node ----

  lemma SortedHalf(sorted: seq<Rec>, m: nat, k: Str, v: Str)
    requires Sorted(sorted) && 0 < m < |sorted|
    ensures !Less(sorted[m - 1].key, k) ==> (Rec(k, v) in sorted <==> Rec(k, v) in sorted[..m])
    ensures Less(sorted[m - 1].key, k) ==> (Rec(k, v) in sorted <==> Rec(k, v) in sorted[m..])
  {
    assert sorted == sorted[..m] + sorted[m..];
    if j :| 0 <= j < |sorted| && sorted[j] == Rec(k, v) {
      if j < m - 1 { LessTransitiveNot(sorted[j].key, sorted[m - 1].key); }
      LessIrreflexive(k);
    }
  }

  lemma SameFind(a: seq<Rec>, b: seq<Rec>, k: Str)
    requires Distinct(a) && Distinct(b) && forall v :: Rec(k, v) in a <==> Rec(k, v) in b
    ensures Find(a, k) == Find(b, k)
  {
    if Find(a, k).Some? {
      FindHas(a, k, Find(a, k).value);
      FindHas(b, k, Find(a, k).value);
    } else if Find(b, k).Some? {
      FindHas(a, k, Find(b, k).value);
      FindHas(b, k, Find(b, k).value);
    }
  }

  lemma LeafHalfLookup(l: Leaf, m: nat, k: Str)
    requires Distinct(l.recs) && 0 < m < |l.recs|
    ensures var sorted := Sort(l.recs);
            |sorted| == |l.recs| && Find(l.recs, k) == Find(if Less(sorted[m - 1].key, k) then sorted[m..] else sorted[..m], k)
  {
    var sorted := Sort(l.recs);
    SortFacts(l.recs);
    SortedDistinct(sorted);
    SortedDistinct(sorted[m..]);
    SortedDistinct(sorted[..m]);
    forall v
      ensures !Less(sorted[m - 1].key, k) ==> (Rec(k, v) in sorted <==> Rec(k, v) in sorted[..m])
      ensures Less(sorted[m - 1].key, k) ==> (Rec(k, v) in sorted <==> Rec(k, v) in sorted[m..])
    {
      SortedHalf(sorted, m, k, v);
    }
    SameFind(l.recs, if Less(sorted[m - 1].key, k) then sorted[m..] else sorted[..m], k);
  }

  lemma HalvesShaped(c: Tree)
    requires Shaped(c) && Halves(c).Some?
    ensures Shaped(Halves(c).value.0.child) && Shaped(Halves(c).value.1.child)
  {
    if c.N? {
      var m := Pivot(EntrySizes(c.entries)).value;
      assert forall j | 0 <= j < m :: c.entries[..m][j] == c.entries[j];
      assert forall j | 0 <= j < |c.entries| - m :: c.entries[m..][j] == c.entries[m + j];
    }
  }

  /** A key up to the left half's separator is found in it as in the node, any other in the right half. */
  lemma HalfLookup(c: Tree, k: Str)
    requires Shaped(c) && Halves(c).Some?
    requires (c.L? ==> Distinct(c.leaf.recs)) && (c.N? ==> Increasing(Seps(c.entries)))
    ensures var (a, b) := Halves(c).value;
            && Shaped(a.child) && Shaped(b.child)
            && Lookup(c, k) == if Less(a.sep, k) then Lookup(b.child, k) else Lookup(a.child, k)
  {
    HalvesShaped(c);
    if c.L? { LeafHalves(c.leaf, k); } else { InnerHalves(c.entries, k); }
  }

  lemma LeafHalves(l: Leaf, k: Str)
    requires Halves(L(l)).Some? && Distinct(l.recs)
    ensures var (a, b) := Halves(L(l)).value;
            a.child.L? && b.child.L? &&
            Find(l.recs, k) == if Less(a.sep, k) then Find(b.child.leaf.recs, k) else Find(a.child.leaf.recs, k)
  {
    SortFacts(l.recs);
    LeafHalfLookup(l, Pivot(KeySizes(Sort(l.recs))).value, k);
  }

  lemma InnerHalves(es: seq<Entry>, k: Str)
    requires Halves(N(es)).Some? && Increasing(Seps(es)) && Shaped(N(es))
    requires Shaped(Halves(N(es)).value.0.child) && Shaped(Halves(N(es)).value.1.child)
    ensures var (a, b) := Halves(N(es)).value;
            Lookup(N(es), k) == if Less(a.sep, k) then Lookup(b.child, k) else Lookup(a.child, k)
  {
    SplitRoute(es, Pivot(EntrySizes(es)).value, k);
  }

  // ---- A child is split ----

  /** The keys that the new separators send past the right half. */
  predicate Overshoots(es: seq<Entry>, i: nat, b: Entry, k: Str)
    requires es != []
  {
    Route(es, k) == i && i < |es| - 1 && Less(b.sep, k)
  }

  /** The separators around child i, in the order the split needs them. */
  predicate Ordered(es: seq<Entry>, i: nat, a: Entry, b: Entry) {
    && i < |es| && Increasing(Seps(es)) && Less(a.sep, b.sep)
    && (i > 0 ==> Less(es[i - 1].sep, a.sep))
    && (i < |es| - 1 ==> !Less(es[i].sep, b.sep))
  }

  lemma SplitEntry(es: seq<Entry>, i: nat, a: Entry, b: Entry, j: nat)
    requires i < |es| && j <= |es|
    ensures |SplitAt(es, i, (a, b))| == |es| + 1
    ensures SplitAt(es, i, (a, b))[j] == if j < i then es[j] else if j == i then a else if j == i + 1 then b else es[j - 1]
  {
  }

  lemma RouteElsewhere(es: seq<Entry>, i: nat, a: Entry, b: Entry, k: Str)
    requires Ordered(es, i, a, b) && Route(es, k) != i
    ensures var r := Route(es, k); Route(SplitAt(es, i, (a, b)), k) == if r < i then r else r + 1
  {
    var es', r := SplitAt(es, i, (a, b)), Route(es, k);
    RouteBounds(es, k);
    if r > i {
      NotBelowBelow(b.sep, es[i].sep, k);
      LessTransitive(a.sep, b.sep, k);
    }
    var r' := if r < i then r else r + 1;
    SplitEntry(es, i, a, b, r');
    forall j | 0 <= j < r' ensures Less(es'[j].sep, k) { SplitEntry(es, i, a, b, j); }
    RouteIs(es', k, r');
  }

  lemma RouteInside(es: seq<Entry>, i: nat, a: Entry, b: Entry, k: Str)
    requires Ordered(es, i, a, b) && Route(es, k) == i
    ensures Route(SplitAt(es, i, (a, b)), k) ==
            if !Less(a.sep, k) then i else if !Overshoots(es, i, b, k) then i + 1 else i + 2
  {
    var es' := SplitAt(es, i, (a, b));
    RouteBounds(es, k);
    if Overshoots(es, i, b, k) {
      LessTransitive(a.sep, b.sep, k);
      BeforeNext(es, i, k);
    }
    var r' := if !Less(a.sep, k) then i else if !Overshoots(es, i, b, k) then i + 1 else i + 2;
    SplitEntry(es, i, a, b, r');
    forall j | 0 <= j < r' ensures Less(es'[j].sep, k) { SplitEntry(es, i, a, b, j); }
    RouteIs(es', k, r');
  }

  lemma BeforeNext(es: seq<Entry>, i: nat, k: Str)
    requires i < |es| - 1 && Increasing(Seps(es)) && !Less(es[i].sep, k)
    ensures !Less(es[i + 1].sep, k)
  {
    var seps := Seps(es);
    if Less(es[i + 1].sep, k) { LessTransitive(seps[i], seps[i + 1], k); }
  }

  /** Nothing is found under a key at most the upper bound of the child before. */
  lemma NotInNext(es: seq<Entry>, i: nat, k: Str, h: nat, lo: Bound, hi: Bound, tight: bool)
    requires Inv(N(es), h, lo, hi, tight) && i < |es| - 1 && !Less(es[i].sep, k) && Shaped(es[i + 1].child)
    ensures Lookup(es[i + 1].child, k) == None
  {
    var c := Kid(es, i + 1);
    var lo1, hi1 := LoOf(Seps(es), i + 1, lo), HiOf(Seps(es), i + 1, hi);
    assert Inv(c, h - 1, lo1, hi1, tight);
    NothingBelow(c, k, h - 1, lo1, hi1, tight);
  }

  lemma NothingBelow(c: Tree, k: Str, h: nat, lo: Bound, hi: Bound, tight: bool)
    requires Inv(c, h, lo, hi, tight) && Shaped(c) && !Above(k, lo)
    ensures Lookup(c, k) == None
  {
    if Lookup(c, k).Some? {
      LookupFinds(c, h, lo, hi, tight, k, Lookup(c, k).value);
      WithinBounds(c, h, lo, hi, tight, Rec(k, Lookup(c, k).value));
    }
  }

  lemma SplitShaped(es: seq<Entry>, i: nat, a: Entry, b: Entry)
    requires Shaped(N(es)) && i < |es| && Shaped(a.child) && Shaped(b.child)
    ensures Shaped(N(SplitAt(es, i, (a, b))))
  {
    var es' := SplitAt(es, i, (a, b));
    forall j | 0 <= j < |es'| ensures Shaped(es'[j].child) { SplitEntry(es, i, a, b, j); }
  }

  /** Every lookup after the split of child i: as before, except that overshooting keys are not found. */
  lemma LookupAfterSplit(es: seq<Entry>, i: nat, k: Str, h: nat, lo: Bound, hi: Bound, tight: bool)
    requires Inv(N(es), h, lo, hi, tight) && Shaped(N(es)) && i < |es| && Halves(es[i].child).Some?
    ensures var (a, b) := Halves(es[i].child).value;
            && Shaped(N(SplitAt(es, i, (a, b))))
            && Lookup(N(SplitAt(es, i, (a, b))), k) == if Overshoots(es, i, b, k) then None else Lookup(N(es), k)
  {
    var c, lo1, hi1 := Kid(es, i), LoOf(Seps(es), i, lo), HiOf(Seps(es), i, hi);
    assert Inv(c, h - 1, lo1, hi1, tight);
    var (a, b) := Halves(c).value;
    HalvesInOrder(c, h - 1, lo1, hi1, tight);
    HalfLookup(c, k);
    SplitShaped(es, i, a, b);
    ChildrenOK(es, h, lo, hi, tight);
    SplitLookup(es, i, a, b, k);
    if Overshoots(es, i, b, k) {
      RouteBounds(es, k);
      NotInNext(es, i, k, h, lo, hi, tight);
    }
  }

  lemma HalvesInOrder(c: Tree, h: nat, lo: Bound, hi: Bound, tight: bool)
    requires Inv(c, h, lo, hi, tight) && Halves(c).Some?
    ensures var (a, b) := Halves(c).value;
            Between(a.sep, lo, hi) && Between(b.sep, lo, hi) && Less(a.sep, b.sep)
    ensures (c.L? ==> Distinct(c.leaf.recs)) && (c.N? ==> Increasing(Seps(c.entries)))
  {
    if c.L? { SplitLeafKeeps(c, lo, hi, tight); } else { SplitInnerKeeps(c, h, lo, hi, tight); }
  }

  lemma SplitLookup(es: seq<Entry>, i: nat, a: Entry, b: Entry, k: Str)
    requires Ordered(es, i, a, b) && Shaped(N(es)) && Shaped(N(SplitAt(es, i, (a, b)))) && Shaped(a.child) && Shaped(b.child)
    requires Lookup(es[i].child, k) == if Less(a.sep, k) then Lookup(b.child, k) else Lookup(a.child, k)
    ensures Lookup(N(SplitAt(es, i, (a, b))), k) ==
            if Overshoots(es, i, b, k) then Lookup(es[i + 1].child, k) else Lookup(N(es), k)
  {
    if Route(es, k) == i {
      RouteInside(es, i, a, b, k);
      if Overshoots(es, i, b, k) { LessTransitive(a.sep, b.sep, k); }
    } else {
      RouteElsewhere(es, i, a, b, k);
    }
    SplitEntry(es, i, a, b, Route(SplitAt(es, i, (a, b)), k));
  }

  // ---- Siblings are merged ----

  lemma MergedEntry(es: seq<Entry>, i: nat, c: Tree, j: nat)
    requires i + 1 < |es| && j < |es| - 1
    ensures |Merged(es, i, c)| == |es| - 1
    ensures Merged(es, i, c)[j] == if j < i then es[j] else if j == i then Entry(es[i + 1].sep, c) else es[j + 1]
  {
  }

  lemma RouteAfterMerge(es: seq<Entry>, i: nat, c: Tree, k: Str)
    requires i + 1 < |es| && Increasing(Seps(es))
    ensures var r := Route(es, k); Route(Merged(es, i, c), k) == if r <= i then r else r - 1
  {
    var es', r := Merged(es, i, c), Route(es, k);
    RouteBounds(es, k);
    if r == i { BeforeNext(es, i, k); }
    var r' := if r <= i then r else r - 1;
    MergedEntry(es, i, c, r');
    forall j | 0 <= j < r' ensures Less(es'[j].sep, k) { MergedEntry(es, i, c, j); }
    RouteIs(es', k, r');
  }

  lemma MergedShaped(es: seq<Entry>, i: nat, c: Tree)
    requires Shaped(N(es)) && i + 1 < |es| && Shaped(c)
    ensures Shaped(N(Merged(es, i, c)))
  {
    var es' := Merged(es, i, c);
    forall j | 0 <= j < |es'| ensures Shaped(es'[j].child) { MergedEntry(es, i, c, j); }
  }

  lemma MergedLookup(es: seq<Entry>, i: nat, c: Tree, k: Str)
    requires i + 1 < |es| && Increasing(Seps(es)) && Shaped(N(es)) && Shaped(c) && Shaped(N(Merged(es, i, c)))
    ensures Lookup(N(Merged(es, i, c)), k) == if Route(es, k) in {i, i + 1} then Lookup(c, k) else Lookup(N(es), k)
  {
    RouteAfterMerge(es, i, c, k);
    MergedEntry(es, i, c, Route(Merged(es, i, c), k));
  }

  /** The keys that a merge of inner nodes takes away from the last child of the left one. */
  predicate Strays(a: Tree, k: Str) { a.N? && a.entries != [] && Less(a.entries[|a.entries| - 1].sep, k) }

  lemma JoinRoute(as_: seq<Entry>, bs: seq<Entry>, k: Str)
    requires as_ != [] && bs != [] && Increasing(Seps(as_))
    ensures var last := as_[|as_| - 1].sep;
            && (!Less(last, k) ==> Route(as_ + bs, k) == Route(as_, k))
            && (Less(last, k) ==> Route(as_ + bs, k) == |as_| + Route(bs, k))
  {
    var es, n := as_ + bs, |as_|;
    if Less(as_[n - 1].sep, k) {
      BeyondAll(as_, n - 1, k);
      RouteBounds(bs, k);
      assert forall j | 0 <= j < |bs| :: es[n + j] == bs[j];
      RouteIs(es, k, n + Route(bs, k));
    } else {
      RouteBounds(as_, k);
      RouteIs(es, k, Route(as_, k));
    }
  }

  lemma JoinedShaped(a: Tree, b: Tree)
    requires Shaped(a) && Shaped(b) && (a.L? <==> b.L?)
    ensures Shaped(Joined(a, b))
  {
    if a.N? {
      var es := a.entries + b.entries;
      forall j | 0 <= j < |es|
        ensures Shaped(es[j].child)
      {
        assert es[j] == if j < |a.entries| then a.entries[j] else b.entries[j - |a.entries|];
      }
    }
  }

  lemma JoinInnerLookup(a: Tree, b: Tree, k: Str)
    requires a.N? && b.N? && Shaped(a) && Shaped(b) && Shaped(Joined(a, b)) && Increasing(Seps(a.entries))
    ensures Lookup(Joined(a, b), k) == if Strays(a, k) then Lookup(b, k) else Lookup(a, k)
  {
    JoinRoute(a.entries, b.entries, k);
    var es, r := a.entries + b.entries, Route(a.entries + b.entries, k);
    assert es[r] == if r < |a.entries| then a.entries[r] else b.entries[r - |a.entries|];
  }

  /** In the merged leaf a key is found as in the leaf whose bounds admit it. */
  lemma JoinLeafLookup(a: Leaf, b: Leaf, mid: Str, lo: Bound, hi: Bound, tight: bool, k: Str)
    requires Inv(L(a), 1, lo, Some(mid), tight) && Inv(L(b), 1, Some(mid), hi, tight)
    ensures Lookup(Joined(L(a), L(b)), k) == if Less(mid, k) then Find(b.recs, k) else Find(a.recs, k)
  {
    var x, y := Sort(a.recs), Sort(b.recs);
    SortFacts(a.recs);
    SortFacts(b.recs);
    forall r | r in a.recs ensures !Less(mid, r.key) { WithinBounds(L(a), 1, lo, Some(mid), tight, r); }
    forall r | r in b.recs ensures Less(mid, r.key) { WithinBounds(L(b), 1, Some(mid), hi, tight, r); }
    forall i | 0 <= i < |x| ensures !Less(mid, x[i].key) { assert x[i] in a.recs; }
    forall i | 0 <= i < |y| ensures Less(mid, y[i].key) { assert y[i] in b.recs; }
    SortedJoin(x, y, mid);
    SortedDistinct(x + y);
    if Less(mid, k) { SameFind(x + y, b.recs, k); } else { SameFind(x + y, a.recs, k); }
  }

  /** Every lookup after the merge of children i and i + 1: as before, except that strays are not found. */
  lemma LookupAfterMerge(es: seq<Entry>, i: nat, k: Str, h: nat, lo: Bound, hi: Bound, tight: bool)
    requires Inv(N(es), h, lo, hi, tight) && Shaped(N(es)) && i + 1 < |es| && (es[i].child.L? <==> es[i + 1].child.L?)
    ensures Shaped(N(MergeAt(es, i)))
    ensures Lookup(N(MergeAt(es, i)), k) == if Route(es, k) == i && Strays(es[i].child, k) then None else Lookup(N(es), k)
  {
    var a, b := Kid(es, i), Kid(es, i + 1);
    var lo1, mid, hi1 := LoOf(Seps(es), i, lo), Seps(es)[i], HiOf(Seps(es), i + 1, hi);
    assert Inv(a, h - 1, lo1, Some(mid), tight) && Inv(b, h - 1, Some(mid), hi1, tight);
    ChildrenOK(es, h, lo, hi, tight);
    JoinedShaped(a, b);
    MergedShaped(es, i, Joined(a, b));
    MergedLookup(es, i, Joined(a, b), k);
    if Route(es, k) in {i, i + 1} {
      RouteBounds(es, k);
      assert Less(mid, k) <==> Route(es, k) == i + 1;
      PairLookup(a, b, mid, k, h - 1, lo1, hi1, tight);
    }
  }

  lemma PairLookup(a: Tree, b: Tree, mid: Str, k: Str, h: nat, lo: Bound, hi: Bound, tight: bool)
    requires Inv(a, h, lo, Some(mid), tight) && Inv(b, h, Some(mid), hi, tight)
    requires Shaped(a) && Shaped(b) && (a.L? <==> b.L?) && Shaped(Joined(a, b))
    ensures Lookup(Joined(a, b), k) ==
            if Less(mid, k) then Lookup(b, k) else if Strays(a, k) then None else Lookup(a, k)
  {
    if a.L? {
      JoinLeafLookup(a.leaf, b.leaf, mid, lo, hi, tight, k);
    } else {
      JoinInnerLookup(a, b, k);
      if Less(mid, k) {
        LastBelowMid(a.entries, mid, k, h, lo, tight);
      } else if Strays(a, k) {
        NothingBelow(b, k, h, Some(mid), hi, tight);
      }
    }
  }

  lemma LastBelowMid(es: seq<Entry>, mid: Str, k: Str, h: nat, lo: Bound, tight: bool)
    requires Inv(N(es), h, lo, Some(mid), tight) && Less(mid, k)
    ensures Strays(N(es), k)
  {
    ChildrenOK(es, h, lo, Some(mid), tight);
    var last := Seps(es)[|es| - 1];
    assert Between(last, lo, Some(mid));
    NotBelowBelow(last, mid, k);
  }
}
