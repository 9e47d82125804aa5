/**
  Structural changes keep the tree in order and lose, add or change no record.
*/
module BzTreeSmo {
  import opened BzKeys
  import opened BzSmo
  import opened BzTree
  import opened BzTreeInv

  ghost predicate SameRecords(t: Tree, t': Tree) { forall r :: Has(t', r) <==> Has(t, r) }

  lemma {:induction false} UsedAppend(a: seq<Entry>, b: seq<Entry>)
    ensures InnerUsed(a + b) == InnerUsed(a) + InnerUsed(b)
  {
    if b == [] {
      assert a + b == a;
    } else {
      assert (a + b)[..|a + b| - 1] == a + b[..|b| - 1];
      UsedAppend(a, b[..|b| - 1]);
    }
  }

  lemma UsedSplice(es: seq<Entry>, i: nat, j: nat, mid: seq<Entry>)
    requires i <= j <= |es|
    ensures InnerUsed(es[..i] + mid + es[j..]) == InnerUsed(es) - InnerUsed(es[i..j]) + InnerUsed(mid)
  {
    Parts(es, i, j);
    UsedThree(es, es[..i], es[i..j], es[j..]);
    UsedThree(es[..i] + mid + es[j..], es[..i], mid, es[j..]);
  }

  lemma Parts(es: seq<Entry>, i: nat, j: nat)
    requires i <= j <= |es|
    ensures es == es[..i] + es[i..j] + es[j..]
  {
  }

  lemma UsedThree(es: seq<Entry>, a: seq<Entry>, b: seq<Entry>, c: seq<Entry>)
    requires es == a + b + c
    ensures InnerUsed(es) == InnerUsed(a) + InnerUsed(b) + InnerUsed(c)
  {
    UsedAppend(a + b, c);
    UsedAppend(a, b);
  }

  lemma UsedOne(e: Entry)
    ensures InnerUsed([e]) == EntrySize(e)
  {
    assert [e][..0] == [];
  }

  lemma UsedTwo(a: Entry, b: Entry)
    ensures InnerUsed([a, b]) == EntrySize(a) + EntrySize(b)
  {
    UsedOne(a);
    UsedOne(b);
    UsedAppend([a], [b]);
    assert [a] + [b] == [a, b];
  }

  lemma LowerBetween(k: Str, lo: Bound, lo': Bound, hi: Bound)
    requires Between(k, lo, hi) && (lo'.Some? ==> lo.Some? && !Less(lo.value, lo'.value))
    ensures Between(k, lo', hi)
  {
    if lo'.Some? {
      LessTotal(lo.value, lo'.value);
      if lo.value != lo'.value { LessTransitive(lo'.value, lo.value, k); }
    }
  }

  lemma LowerSeps(seps: seq<Str>, lo: Bound, lo': Bound, hi: Bound, tight: bool)
    requires SepsOK(seps, lo, hi, tight) && (lo'.Some? ==> lo.Some? && !Less(lo.value, lo'.value))
    ensures SepsOK(seps, lo', hi, tight)
  {
    forall i | 0 <= i < |seps|
      ensures Between(seps[i], lo', hi)
    {
      LowerBetween(seps[i], lo, lo', hi);
    }
  }

  lemma LowerLeaf(l: Leaf, lo: Bound, lo': Bound, hi: Bound)
    requires (forall i | 0 <= i < |l.recs| :: Between(l.recs[i].key, lo, hi))
    requires lo'.Some? ==> lo.Some? && !Less(lo.value, lo'.value)
    ensures forall i | 0 <= i < |l.recs| :: Between(l.recs[i].key, lo', hi)
  {
    forall i | 0 <= i < |l.recs|
      ensures Between(l.recs[i].key, lo', hi)
    {
      LowerBetween(l.recs[i].key, lo, lo', hi);
    }
  }

  /** A lower bound may be lowered. */
  lemma {:induction false} LowerLo(t: Tree, h: nat, lo: Bound, lo': Bound, hi: Bound, tight: bool)
    requires Inv(t, h, lo, hi, tight) && (lo'.Some? ==> lo.Some? && !Less(lo.value, lo'.value))
    ensures Inv(t, h, lo', hi, tight)
    decreases t
  {
    if t.L? {
      LowerLeaf(t.leaf, lo, lo', hi);
    } else {
      var es := t.entries;
      LowerSeps(Seps(es), lo, lo', hi, tight);
      LowerLo(Kid(es, 0), h - 1, lo, lo', HiOf(Seps(es), 0, hi), tight);
    }
  }

  // ---- Replacing children ----

  /** A child is replaced by one with the same bounds. */
  lemma SetChild(es: seq<Entry>, i: nat, c: Tree, h: nat, lo: Bound, hi: Bound, tight: bool)
    requires i < |es| && Inv(N(es), h, lo, hi, tight)
    requires Inv(c, h - 1, LoOf(Seps(es), i, lo), HiOf(Seps(es), i, hi), tight)
    ensures Inv(N(es[i := Entry(es[i].sep, c)]), h, lo, hi, tight)
    ensures InnerUsed(es[i := Entry(es[i].sep, c)]) == InnerUsed(es)
  {
    var es' := es[i := Entry(es[i].sep, c)];
    SetChildUsed(es, i, c);
    assert Seps(es') == Seps(es);
    forall j | 0 <= j < |es|
      ensures Inv(Kid(es', j), h - 1, LoOf(Seps(es), j, lo), HiOf(Seps(es), j, hi), tight)
    {
      assert Kid(es', j) == if j == i then c else Kid(es, j);
    }
  }

  lemma SetChildUsed(es: seq<Entry>, i: nat, c: Tree)
    requires i < |es|
    ensures InnerUsed(es[i := Entry(es[i].sep, c)]) == InnerUsed(es)
  {
    var e := Entry(es[i].sep, c);
    assert es[i := e] == es[..i] + [e] + es[i + 1..];
    assert es[i..i + 1] == [es[i]];
    UsedSplice(es, i, i + 1, [e]);
    UsedOne(es[i]);
    UsedOne(e);
  }

  lemma SetChildHas(es: seq<Entry>, i: nat, c: Tree, r: Rec)
    requires i < |es|
    ensures Has(N(es[i := Entry(es[i].sep, c)]), r) <==> Has(c, r) || exists j :: 0 <= j < |es| && j != i && Has(es[j].child, r)
  {
    var es' := es[i := Entry(es[i].sep, c)];
    if Has(c, r) { assert Has(es'[i].child, r); }
    if j :| 0 <= j < |es| && j != i && Has(es[j].child, r) { assert Has(es'[j].child, r); }
  }

  lemma SetChildSame(es: seq<Entry>, i: nat, c: Tree)
    requires i < |es| && SameRecords(es[i].child, c)
    ensures SameRecords(N(es), N(es[i := Entry(es[i].sep, c)]))
  {
    forall r
      ensures Has(N(es[i := Entry(es[i].sep, c)]), r) <==> Has(N(es), r)
    {
      SetChildHas(es, i, c, r);
    }
  }

  // ---- Compaction ----

  lemma CompactKeeps(t: Tree, h: nat, lo: Bound, hi: Bound, tight: bool)
    requires t.L? && Inv(t, h, lo, hi, tight)
    ensures Inv(Compact(t), h, lo, hi, tight) && SameRecords(t, Compact(t))
    ensures Deleted(Compact(t)) == 0
  {
    var recs, sorted := t.leaf.recs, Sort(t.leaf.recs);
    SortFacts(recs);
    SortedDistinct(sorted);
    forall i | 0 <= i < |sorted|
      ensures Clean(sorted[i].val) && Between(sorted[i].key, lo, hi)
    {
      assert sorted[i] in recs;
    }
    if tight && hi.Some? {
      var j :| 0 <= j < |recs| && recs[j].key == hi.value;
      assert recs[j] in sorted;
    }
  }

  // ---- Splitting ----

  /** What the halves of a node with the given bounds look like. */
  ghost predicate GoodHalves(a: Entry, b: Entry, h: nat, lo: Bound, hi: Bound, tight: bool) {
    && Between(a.sep, lo, hi) && Between(b.sep, lo, hi) && Less(a.sep, b.sep)
    && (tight && hi.Some? ==> b.sep == hi.value)
    && Inv(a.child, h, lo, Some(a.sep), tight) && Inv(b.child, h, Some(a.sep), hi, tight)
  }

  lemma StretchFits(all: seq<Rec>, from: nat, to: nat)
    requires from < to <= |all| && LeafOK(Leaf(all, 0))
    ensures LeafOK(Leaf(all[from..to], 0))
  {
    var half := all[from..to];
    assert all == all[..from] + half + all[to..];
    LiveThree(all, all[..from], half, all[to..]);
    forall i | 0 <= i < |half| ensures half[i] == all[from + i] { }
  }

  /** A stretch of a sorted leaf. */
  lemma StretchOK(all: seq<Rec>, from: nat, to: nat, lo: Bound, hi: Bound, tight: bool)
    requires from < to <= |all| && LeafOK(Leaf(all, 0))
    requires forall i | from <= i < to :: Between(all[i].key, lo, hi)
    requires tight && hi.Some? ==> all[to - 1].key == hi.value
    ensures Inv(L(Leaf(all[from..to], 0)), 1, lo, hi, tight)
  {
    var half := all[from..to];
    StretchFits(all, from, to);
    assert forall i | 0 <= i < |half| :: half[i] == all[from + i];
    assert half[|half| - 1] == all[to - 1];
  }

  lemma NarrowSorted(all: seq<Rec>, from: nat, to: nat, lo: Bound, hi: Bound)
    requires from < to <= |all| && Sorted(all)
    requires forall i | 0 <= i < |all| :: Between(all[i].key, lo, hi)
    ensures forall i | from <= i < to ::
              Between(all[i].key, if from == 0 then lo else Some(all[from - 1].key), Some(all[to - 1].key))
  {
    forall i | from <= i < to
      ensures Between(all[i].key, if from == 0 then lo else Some(all[from - 1].key), Some(all[to - 1].key))
    {
      LessIrreflexive(all[i].key);
      if i < to - 1 && Less(all[to - 1].key, all[i].key) { LessTransitive(all[i].key, all[to - 1].key, all[i].key); }
    }
  }

  lemma TightIsLast(all: seq<Rec>, j: nat, hi: Bound)
    requires j < |all| && Sorted(all) && hi == Some(all[j].key) && AtMost(all[|all| - 1].key, hi)
    ensures j == |all| - 1
  {
  }

  lemma SplitLeafKeeps(t: Tree, lo: Bound, hi: Bound, tight: bool)
    requires t.L? && Inv(t, 1, lo, hi, tight) && Halves(t).Some?
    ensures var (a, b) := Halves(t).value;
            GoodHalves(a, b, 1, lo, hi, tight) && Inv(b.child, 1, Some(a.sep), Some(b.sep), tight)
  {
    CompactKeeps(t, 1, lo, hi, tight);
    SortFacts(t.leaf.recs);
    var sorted := Sort(t.leaf.recs);
    LastIsHi(sorted, lo, hi, tight);
    SplitSorted(sorted, Pivot(KeySizes(sorted)).value, lo, hi, tight);
  }

  lemma LastIsHi(sorted: seq<Rec>, lo: Bound, hi: Bound, tight: bool)
    requires Inv(L(Leaf(sorted, 0)), 1, lo, hi, tight) && Sorted(sorted)
    ensures forall i | 0 <= i < |sorted| :: Between(sorted[i].key, lo, hi)
    ensures tight && hi.Some? ==> sorted != [] && sorted[|sorted| - 1].key == hi.value
  {
    if tight && hi.Some? {
      var j :| 0 <= j < |sorted| && sorted[j].key == hi.value;
      TightIsLast(sorted, j, hi);
    }
  }

  lemma SplitSorted(sorted: seq<Rec>, m: nat, lo: Bound, hi: Bound, tight: bool)
    requires 0 < m < |sorted| && Sorted(sorted) && LeafOK(Leaf(sorted, 0))
    requires forall i | 0 <= i < |sorted| :: Between(sorted[i].key, lo, hi)
    requires tight && hi.Some? ==> sorted[|sorted| - 1].key == hi.value
    ensures var a := Entry(sorted[m - 1].key, L(Leaf(sorted[..m], 0)));
            var b := Entry(sorted[|sorted| - 1].key, L(Leaf(sorted[m..], 0)));
            GoodHalves(a, b, 1, lo, hi, tight) && Inv(b.child, 1, Some(a.sep), Some(b.sep), tight)
  {
    var n := |sorted|;
    NarrowSorted(sorted, 0, m, lo, hi);
    NarrowSorted(sorted, m, n, lo, hi);
    assert sorted[0..m] == sorted[..m] && sorted[m..n] == sorted[m..];
    StretchOK(sorted, 0, m, lo, Some(sorted[m - 1].key), tight);
    StretchOK(sorted, m, n, Some(sorted[m - 1].key), hi, tight);
    StretchOK(sorted, m, n, Some(sorted[m - 1].key), Some(sorted[n - 1].key), tight);
  }

  // ---- Separators ----

  lemma {:induction false} FromNeighbours(s: seq<Str>, i: nat, j: nat)
    requires i < j < |s| && forall k | 0 <= k < |s| - 1 :: Less(s[k], s[k + 1])
    ensures Less(s[i], s[j])
  {
    if i + 1 < j {
      FromNeighbours(s, i, j - 1);
      LessTransitive(s[i], s[j - 1], s[j]);
    }
  }

  lemma NeighboursIncrease(s: seq<Str>)
    requires forall k | 0 <= k < |s| - 1 :: Less(s[k], s[k + 1])
    ensures Increasing(s)
  {
    forall i, j | 0 <= i < j < |s| ensures Less(s[i], s[j]) { FromNeighbours(s, i, j); }
  }

  lemma NotBelowBelow(y: Str, a: Str, b: Str)
    requires !Less(a, y) && Less(a, b)
    ensures Less(y, b)
  {
    LessTotal(a, y);
    if a != y { LessTransitive(y, a, b); }
  }

  lemma NotAbove(a: Str, mid: Str, b: Str)
    requires !Less(mid, a) && !Less(b, mid)
    ensures !Less(b, a)
  {
    LessTotal(mid, a);
    if Less(b, a) && mid != a { LessTransitive(b, a, mid); }
  }

  lemma SliceSeps(seps: seq<Str>, from: nat, to: nat, lo: Bound, hi: Bound, tight: bool)
    requires SepsOK(seps, lo, hi, tight) && from < to <= |seps|
    ensures SepsOK(seps[from..to], LoOf(seps, from, lo), HiOf(seps, to - 1, hi), tight)
  {
    var s := seps[from..to];
    forall i | 0 <= i < |s|
      ensures Between(s[i], LoOf(seps, from, lo), HiOf(seps, to - 1, hi))
    {
      assert Between(seps[from + i], lo, hi);
      if from + i < to - 1 { LessTransitiveNot(seps[from + i], seps[to - 1]); }
      LessIrreflexive(seps[to - 1]);
    }
  }

  lemma LessTransitiveNot(a: Str, b: Str)
    requires Less(a, b)
    ensures !Less(b, a)
  {
    if Less(b, a) {
      LessTransitive(a, b, a);
      LessIrreflexive(a);
    }
  }

  /** One separator is replaced by two. */
  function Widened(seps: seq<Str>, i: nat, x: Str, y: Str): seq<Str>
    requires i < |seps|
  {
    seps[..i] + [x, y] + seps[i + 1..]
  }

  lemma WidenSeps(seps: seq<Str>, i: nat, x: Str, y: Str, lo: Bound, hi: Bound, tight: bool)
    requires SepsOK(seps, lo, hi, tight) && i < |seps| && Less(x, y)
    requires Between(x, LoOf(seps, i, lo), HiOf(seps, i, hi)) && Between(y, LoOf(seps, i, lo), HiOf(seps, i, hi))
    requires i == |seps| - 1 && tight && hi.Some? ==> y == hi.value
    ensures SepsOK(Widened(seps, i, x, y), lo, hi, tight)
  {
    var s := Widened(seps, i, x, y);
    WiderBounds(x, seps, i, lo, hi, tight);
    WiderBounds(y, seps, i, lo, hi, tight);
    forall k | 0 <= k < |s| - 1
      ensures Less(s[k], s[k + 1])
    {
      if k < i - 1 {
        assert Less(seps[k], seps[k + 1]);
      } else if k > i + 1 {
        assert Less(seps[k - 1], seps[k]);
      } else if k == i + 1 {
        NotBelowBelow(y, seps[i], seps[i + 1]);
      }
    }
    NeighboursIncrease(s);
    forall k | 0 <= k < |s|
      ensures Between(s[k], lo, hi)
    {
      assert k < i ==> Between(seps[k], lo, hi);
      assert k > i + 1 ==> Between(seps[k - 1], lo, hi);
    }
  }

  /** One separator, not the last, is dropped. */
  lemma DropSep(seps: seq<Str>, i: nat, lo: Bound, hi: Bound, tight: bool)
    requires SepsOK(seps, lo, hi, tight) && i < |seps| - 1
    ensures SepsOK(seps[..i] + seps[i + 1..], lo, hi, tight)
  {
    var s := seps[..i] + seps[i + 1..];
    forall k | 0 <= k < |s|
      ensures s[k] == seps[if k < i then k else k + 1] && Between(s[k], lo, hi)
    {
      assert Between(seps[if k < i then k else k + 1], lo, hi);
    }
  }

  lemma JoinSeps(a: seq<Str>, b: seq<Str>, lo: Bound, mid: Str, hi: Bound, tight: bool)
    requires SepsOK(a, lo, Some(mid), tight) && SepsOK(b, Some(mid), hi, tight) && Above(mid, lo) && AtMost(mid, hi)
    ensures SepsOK(a + b, lo, hi, tight)
  {
    var s := a + b;
    forall k | 0 <= k < |s|
      ensures Between(s[k], lo, hi)
    {
      if k < |a| {
        assert Between(a[k], lo, Some(mid));
        if hi.Some? { NotAbove(a[k], mid, hi.value); }
      } else {
        assert Between(b[k - |a|], Some(mid), hi);
        if lo.Some? { LessTransitive(lo.value, mid, s[k]); }
      }
    }
    forall k | 0 <= k < |s| - 1
      ensures Less(s[k], s[k + 1])
    {
      if k + 1 < |a| {
        assert Less(a[k], a[k + 1]);
      } else if k >= |a| {
        assert Less(b[k - |a|], b[k + 1 - |a|]);
      } else {
        assert Between(a[k], lo, Some(mid)) && Between(b[0], Some(mid), hi);
        NotBelowBelow(a[k], mid, b[0]);
      }
    }
    NeighboursIncrease(s);
  }
}
