/** Splits, merges and whole traversals keep the tree in order and keep its records. */
module BzTreeSteps {
  import opened BzKeys
  import opened BzSmo
  import opened BzTree
  import opened BzTreeInv
  import opened BzTreeSmo

  /** A node is put together from separators and children that fit them. */
  lemma BuildInner(es: seq<Entry>, h: nat, lo: Bound, hi: Bound, tight: bool)
    requires h > 1 && InnerUsed(es) <= BODY && SepsOK(Seps(es), lo, hi, tight)
    requires forall i {:trigger Kid(es, i)} | 0 <= i < |es| :: ChildOK(Kid(es, i), h, LoOf(Seps(es), i, lo), HiOf(Seps(es), i, hi), tight)
    ensures Inv(N(es), h, lo, hi, tight)
  {
    forall i | 0 <= i < |es|
      ensures Inv(Kid(es, i), h - 1, LoOf(Seps(es), i, lo), HiOf(Seps(es), i, hi), tight)
    {
      assert ChildOK(Kid(es, i), h, LoOf(Seps(es), i, lo), HiOf(Seps(es), i, hi), tight);
    }
  }

  /** Inv of a child, by another name. */
  ghost predicate ChildOK(c: Tree, h: nat, lo: Bound, hi: Bound, tight: bool) { h > 1 && Inv(c, h - 1, lo, hi, tight) }

  lemma ChildrenOK(es: seq<Entry>, h: nat, lo: Bound, hi: Bound, tight: bool)
    requires Inv(N(es), h, lo, hi, tight)
    ensures h > 1 && InnerUsed(es) <= BODY && SepsOK(Seps(es), lo, hi, tight)
    ensures forall i {:trigger Kid(es, i)} | 0 <= i < |es| :: ChildOK(Kid(es, i), h, LoOf(Seps(es), i, lo), HiOf(Seps(es), i, hi), tight)
  {
  }

  // ---- Halves of a node ----

  lemma UsedSlice(es: seq<Entry>, from: nat, to: nat)
    requires from <= to <= |es|
    ensures InnerUsed(es[from..to]) <= InnerUsed(es)
  {
    Parts(es, from, to);
    UsedThree(es, es[..from], es[from..to], es[to..]);
  }

  lemma SliceBounds(seps: seq<Str>, from: nat, to: nat, i: nat, lo: Bound, hi: Bound)
    requires from < to <= |seps| && i < to - from
    ensures LoOf(seps[from..to], i, LoOf(seps, from, lo)) == LoOf(seps, from + i, lo)
    ensures HiOf(seps[from..to], i, HiOf(seps, to - 1, hi)) == HiOf(seps, from + i, hi)
  {
  }

  /** A run of neighbouring entries is a node of its own. */
  lemma SliceInner(es: seq<Entry>, from: nat, to: nat, h: nat, lo: Bound, hi: Bound, tight: bool)
    requires Inv(N(es), h, lo, hi, tight) && from < to <= |es|
    ensures Inv(N(es[from..to]), h, LoOf(Seps(es), from, lo), HiOf(Seps(es), to - 1, hi), tight)
  {
    var part := es[from..to];
    var lo', hi' := LoOf(Seps(es), from, lo), HiOf(Seps(es), to - 1, hi);
    assert Seps(part) == Seps(es)[from..to];
    ChildrenOK(es, h, lo, hi, tight);
    SliceSeps(Seps(es), from, to, lo, hi, tight);
    UsedSlice(es, from, to);
    forall i | 0 <= i < |part|
      ensures ChildOK(Kid(part, i), h, LoOf(Seps(part), i, lo'), HiOf(Seps(part), i, hi'), tight)
    {
      SliceBounds(Seps(es), from, to, i, lo, hi);
      assert Kid(part, i) == Kid(es, from + i);
    }
    BuildInner(part, h, lo', hi', tight);
  }

  lemma SplitInnerKeeps(t: Tree, h: nat, lo: Bound, hi: Bound, tight: bool)
    requires t.N? && Inv(t, h, lo, hi, tight) && Halves(t).Some?
    ensures GoodHalves(Halves(t).value.0, Halves(t).value.1, h, lo, hi, tight)
  {
    SplitEntries(t.entries, Pivot(EntrySizes(t.entries)).value, h, lo, hi, tight);
  }

  lemma SplitEntries(es: seq<Entry>, m: nat, h: nat, lo: Bound, hi: Bound, tight: bool)
    requires Inv(N(es), h, lo, hi, tight) && 0 < m < |es|
    ensures GoodHalves(Entry(es[m - 1].sep, N(es[..m])), Entry(es[|es| - 1].sep, N(es[m..])), h, lo, hi, tight)
  {
    var n, seps := |es|, Seps(es);
    ChildrenOK(es, h, lo, hi, tight);
    PivotSeps(seps, m, lo, hi, tight);
    FrontOf(es, m, h, lo, hi, tight);
    BackOf(es, m, h, lo, hi, tight);
    assert seps[m - 1] == es[m - 1].sep && seps[n - 1] == es[n - 1].sep;
  }

  lemma FrontOf(es: seq<Entry>, m: nat, h: nat, lo: Bound, hi: Bound, tight: bool)
    requires Inv(N(es), h, lo, hi, tight) && 0 < m < |es|
    ensures Inv(N(es[..m]), h, lo, Some(es[m - 1].sep), tight)
  {
    SliceInner(es, 0, m, h, lo, hi, tight);
    assert es[0..m] == es[..m];
  }

  lemma BackOf(es: seq<Entry>, m: nat, h: nat, lo: Bound, hi: Bound, tight: bool)
    requires Inv(N(es), h, lo, hi, tight) && 0 < m < |es|
    ensures Inv(N(es[m..]), h, Some(es[m - 1].sep), hi, tight)
  {
    SliceInner(es, m, |es|, h, lo, hi, tight);
    assert es[m..|es|] == es[m..];
  }

  lemma PivotSeps(seps: seq<Str>, m: nat, lo: Bound, hi: Bound, tight: bool)
    requires SepsOK(seps, lo, hi, tight) && 0 < m < |seps|
    ensures Between(seps[m - 1], lo, hi) && Between(seps[|seps| - 1], lo, hi) && Less(seps[m - 1], seps[|seps| - 1])
    ensures LoOf(seps, 0, lo) == lo && HiOf(seps, |seps| - 1, hi) == hi
    ensures LoOf(seps, m, lo) == HiOf(seps, m - 1, hi) == Some(seps[m - 1])
  {
  }

  lemma SliceHas(es: seq<Entry>, m: nat, r: Rec)
    requires m <= |es|
    ensures Has(N(es), r) <==> Has(N(es[..m]), r) || Has(N(es[m..]), r)
  {
    if i :| 0 <= i < |es| && Has(es[i].child, r) {
      if i < m { assert Has(es[..m][i].child, r); } else { assert Has(es[m..][i - m].child, r); }
    }
    if i :| 0 <= i < m && Has(es[..m][i].child, r) { assert Has(es[i].child, r); }
    if i :| 0 <= i < |es| - m && Has(es[m..][i].child, r) { assert Has(es[m + i].child, r); }
  }

  /** The two halves hold exactly the records of the node. */
  lemma HalvesHave(t: Tree, r: Rec)
    requires Halves(t).Some? && (t.L? ==> Distinct(t.leaf.recs))
    ensures Has(t, r) <==> Has(Halves(t).value.0.child, r) || Has(Halves(t).value.1.child, r)
  {
    match t
    case L(l) =>
      SortFacts(l.recs);
      var sorted, m := Sort(l.recs), Pivot(KeySizes(Sort(l.recs))).value;
      assert sorted == sorted[..m] + sorted[m..];
    case N(es) => SliceHas(es, Pivot(EntrySizes(es)).value, r);
  }

  // ---- A child is split ----

  lemma WidenBounds(seps: seq<Str>, i: nat, x: Str, y: Str, j: nat, lo: Bound, hi: Bound)
    requires i < |seps| && j < |seps| + 1
    ensures var s := Widened(seps, i, x, y);
            && (j < i ==> LoOf(s, j, lo) == LoOf(seps, j, lo) && HiOf(s, j, hi) == HiOf(seps, j, hi))
            && (j == i ==> LoOf(s, j, lo) == LoOf(seps, i, lo) && HiOf(s, j, hi) == Some(x))
            && (j == i + 1 ==> LoOf(s, j, lo) == Some(x) && HiOf(s, j, hi) == if i == |seps| - 1 then hi else Some(y))
            && (j == i + 2 ==> LoOf(s, j, lo) == Some(y) && HiOf(s, j, hi) == HiOf(seps, j - 1, hi))
            && (j > i + 2 ==> LoOf(s, j, lo) == LoOf(seps, j - 1, lo) && HiOf(s, j, hi) == HiOf(seps, j - 1, hi))
  {
  }

  lemma SplitChildAt(es: seq<Entry>, i: nat, a: Entry, b: Entry, h: nat, lo: Bound, hi: Bound, tight: bool, j: nat)
    requires i < |es| && j < |es| + 1 && h > 1
    requires forall k {:trigger Kid(es, k)} | 0 <= k < |es| :: ChildOK(Kid(es, k), h, LoOf(Seps(es), k, lo), HiOf(Seps(es), k, hi), tight)
    requires ChildOK(a.child, h, LoOf(Seps(es), i, lo), Some(a.sep), tight)
    requires ChildOK(b.child, h, Some(a.sep), if i == |es| - 1 then hi else Some(b.sep), tight)
    requires i < |es| - 1 ==> !Less(es[i].sep, b.sep)
    ensures var s := Widened(Seps(es), i, a.sep, b.sep);
            ChildOK(Kid(SplitAt(es, i, (a, b)), j), h, LoOf(s, j, lo), HiOf(s, j, hi), tight)
  {
    WidenBounds(Seps(es), i, a.sep, b.sep, j, lo, hi);
    assert j < i ==> Kid(SplitAt(es, i, (a, b)), j) == Kid(es, j);
    assert j > i + 1 ==> Kid(SplitAt(es, i, (a, b)), j) == Kid(es, j - 1);
    if j == i + 2 {
      LowerLo(Kid(es, i + 1), h - 1, Some(es[i].sep), Some(b.sep), HiOf(Seps(es), i + 1, hi), tight);
    }
  }

  /** The node with child i replaced by two halves, which grows by at most 47 bytes. */
  lemma SplitChildKeeps(es: seq<Entry>, i: nat, a: Entry, b: Entry, h: nat, lo: Bound, hi: Bound, tight: bool)
    requires i < |es| && Inv(N(es), h, lo, hi, tight) && Free(N(es)) >= MIN_FREE
    requires GoodHalves(a, b, h - 1, LoOf(Seps(es), i, lo), HiOf(Seps(es), i, hi), tight)
    requires i < |es| - 1 ==> Inv(b.child, h - 1, Some(a.sep), Some(b.sep), tight)
    ensures Inv(N(SplitAt(es, i, (a, b))), h, lo, hi, tight)
  {
    var es' := SplitAt(es, i, (a, b));
    ChildrenOK(es, h, lo, hi, tight);
    assert Seps(es') == Widened(Seps(es), i, a.sep, b.sep);
    WidenSeps(Seps(es), i, a.sep, b.sep, lo, hi, tight);
    SplitUsed(es, i, a, b);
    forall j | 0 <= j < |es'|
      ensures ChildOK(Kid(es', j), h, LoOf(Seps(es'), j, lo), HiOf(Seps(es'), j, hi), tight)
    {
      SplitChildAt(es, i, a, b, h, lo, hi, tight, j);
    }
    BuildInner(es', h, lo, hi, tight);
  }

  lemma SplitUsed(es: seq<Entry>, i: nat, a: Entry, b: Entry)
    requires i < |es| && |a.sep| <= MAX_KEY && |b.sep| <= MAX_KEY
    ensures InnerUsed(SplitAt(es, i, (a, b))) <= InnerUsed(es) + 47
  {
    assert es[i..i + 1] == [es[i]];
    UsedSplice(es, i, i + 1, [a, b]);
    UsedTwo(a, b);
    UsedOne(es[i]);
  }

  lemma SplitAtHas(es: seq<Entry>, i: nat, a: Entry, b: Entry, r: Rec)
    requires i < |es| && (Has(es[i].child, r) <==> Has(a.child, r) || Has(b.child, r))
    ensures Has(N(SplitAt(es, i, (a, b))), r) <==> Has(N(es), r)
  {
    var es' := SplitAt(es, i, (a, b));
    if j :| 0 <= j < |es| && Has(es[j].child, r) {
      if j < i { assert Has(es'[j].child, r); }
      else if j > i { assert Has(es'[j + 1].child, r); }
      else if Has(a.child, r) { assert Has(es'[i].child, r); }
      else { assert Has(es'[i + 1].child, r); }
    }
    if j :| 0 <= j < |es'| && Has(es'[j].child, r) {
      assert Has(es[if j <= i then j else j - 1].child, r);
    }
  }

  // ---- Siblings are merged ----

  lemma JoinBetween(x: Str, mid: Str, lo: Bound, hi: Bound)
    requires Above(mid, lo) && AtMost(mid, hi) && (Between(x, lo, Some(mid)) || Between(x, Some(mid), hi))
    ensures Between(x, lo, hi)
  {
    if Between(x, lo, Some(mid)) {
      if hi.Some? { NotAbove(x, mid, hi.value); }
    } else {
      if lo.Some? { LessTransitive(lo.value, mid, x); }
    }
  }

  lemma JoinLeaves(a: Leaf, b: Leaf, lo: Bound, mid: Str, hi: Bound, tight: bool)
    requires Inv(L(a), 1, lo, Some(mid), tight) && Inv(L(b), 1, Some(mid), hi, tight)
    requires Above(mid, lo) && AtMost(mid, hi) && Used(a) + Used(b) <= BODY
    ensures Inv(Joined(L(a), L(b)), 1, lo, hi, tight)
  {
    CompactKeeps(L(a), 1, lo, Some(mid), tight);
    CompactKeeps(L(b), 1, Some(mid), hi, tight);
    SortFacts(a.recs);
    SortFacts(b.recs);
    JoinSorted(Sort(a.recs), Sort(b.recs), lo, mid, hi, tight);
  }

  lemma JoinSorted(x: seq<Rec>, y: seq<Rec>, lo: Bound, mid: Str, hi: Bound, tight: bool)
    requires Sorted(x) && Sorted(y) && LeafOK(Leaf(x, 0)) && LeafOK(Leaf(y, 0))
    requires forall i | 0 <= i < |x| :: Between(x[i].key, lo, Some(mid))
    requires forall i | 0 <= i < |y| :: Between(y[i].key, Some(mid), hi)
    requires tight && hi.Some? ==> HasKey(y, hi.value)
    requires Above(mid, lo) && AtMost(mid, hi) && Live(x) + Live(y) <= BODY
    ensures Inv(L(Leaf(x + y, 0)), 1, lo, hi, tight) && Sorted(x + y)
  {
    var all := x + y;
    LiveAppend(x, y);
    SortedJoin(x, y, mid);
    SortedDistinct(all);
    forall i | 0 <= i < |all|
      ensures Clean(all[i].val) && Between(all[i].key, lo, hi)
    {
      assert all[i] == if i < |x| then x[i] else y[i - |x|];
      JoinBetween(all[i].key, mid, lo, hi);
    }
    if tight && hi.Some? {
      var k :| 0 <= k < |y| && y[k].key == hi.value;
      assert all[|x| + k].key == hi.value;
    }
  }

  lemma SortedJoin(x: seq<Rec>, y: seq<Rec>, mid: Str)
    requires Sorted(x) && Sorted(y)
    requires (forall i | 0 <= i < |x| :: !Less(mid, x[i].key)) && (forall j | 0 <= j < |y| :: Less(mid, y[j].key))
    ensures Sorted(x + y)
  {
    forall i, j | 0 <= i < |x| && 0 <= j < |y|
      ensures Less(x[i].key, y[j].key)
    {
      NotBelowBelow(x[i].key, mid, y[j].key);
    }
  }

  lemma JoinInner(a: seq<Entry>, b: seq<Entry>, h: nat, lo: Bound, mid: Str, hi: Bound)
    requires Inv(N(a), h, lo, Some(mid), true) && Inv(N(b), h, Some(mid), hi, true)
    requires Above(mid, lo) && AtMost(mid, hi) && InnerUsed(a) + InnerUsed(b) <= BODY
    ensures Inv(N(a + b), h, lo, hi, true)
  {
    var es := a + b;
    ChildrenOK(a, h, lo, Some(mid), true);
    ChildrenOK(b, h, Some(mid), hi, true);
    JoinedSeps(a, b);
    JoinSeps(Seps(a), Seps(b), lo, mid, hi, true);
    UsedAppend(a, b);
    forall j | 0 <= j < |es|
      ensures ChildOK(Kid(es, j), h, LoOf(Seps(es), j, lo), HiOf(Seps(es), j, hi), true)
    {
      JoinBounds(Seps(a), Seps(b), j, lo, mid, hi);
      JoinKid(a, b, j);
    }
    BuildInner(es, h, lo, hi, true);
  }

  lemma JoinedSeps(a: seq<Entry>, b: seq<Entry>)
    ensures Seps(a + b) == Seps(a) + Seps(b)
  {
  }

  lemma JoinKid(a: seq<Entry>, b: seq<Entry>, j: nat)
    requires j < |a| + |b|
    ensures Kid(a + b, j) == if j < |a| then Kid(a, j) else Kid(b, j - |a|)
  {
  }

  lemma JoinBounds(a: seq<Str>, b: seq<Str>, j: nat, lo: Bound, mid: Str, hi: Bound)
    requires a != [] && b != [] && j < |a| + |b| && a[|a| - 1] == mid
    ensures j < |a| ==> LoOf(a + b, j, lo) == LoOf(a, j, lo) && HiOf(a + b, j, hi) == HiOf(a, j, Some(mid))
    ensures j >= |a| ==> LoOf(a + b, j, lo) == LoOf(b, j - |a|, Some(mid)) && HiOf(a + b, j, hi) == HiOf(b, j - |a|, hi)
  {
  }

  lemma JoinHas(a: Tree, b: Tree, r: Rec)
    requires a.L? <==> b.L?
    requires a.L? ==> Distinct(a.leaf.recs) && Distinct(b.leaf.recs)
    ensures Has(Joined(a, b), r) <==> Has(a, r) || Has(b, r)
  {
    if a.L? {
      SortFacts(a.leaf.recs);
      SortFacts(b.leaf.recs);
    } else {
      SliceHas(a.entries + b.entries, |a.entries|, r);
      assert (a.entries + b.entries)[..|a.entries|] == a.entries;
      assert (a.entries + b.entries)[|a.entries|..] == b.entries;
    }
  }

  /** A merged node has at least 64 bytes free. */
  lemma JoinRoom(a: Tree, b: Tree)
    requires (a.L? <==> b.L?) && Free(a) + Free(b) >= MIN_FREE + NODE
    requires a.L? ==> Distinct(a.leaf.recs) && Distinct(b.leaf.recs)
    ensures Free(Joined(a, b)) >= 64 && TreeUsed(a) + TreeUsed(b) <= BODY
  {
    if a.L? {
      SortFacts(a.leaf.recs);
      SortFacts(b.leaf.recs);
      LiveAppend(Sort(a.leaf.recs), Sort(b.leaf.recs));
    } else {
      UsedAppend(a.entries, b.entries);
    }
  }

  lemma MergeChildrenKeep(es: seq<Entry>, i: nat, h: nat, lo: Bound, hi: Bound, tight: bool)
    requires Inv(N(es), h, lo, hi, tight) && i < |es| && Mergeable(es, i) && (tight || h == 2)
    ensures Inv(N(MergeAt(es, i)), h, lo, hi, tight)
  {
    var es', seps := MergeAt(es, i), Seps(es);
    var a, b := es[i].child, es[i + 1].child;
    var lo1, mid, hi1 := LoOf(seps, i, lo), seps[i], HiOf(seps, i + 1, hi);
    assert Kid(es, i) == a && Kid(es, i + 1) == b;
    assert Inv(a, h - 1, lo1, Some(mid), tight) && Inv(b, h - 1, Some(mid), hi1, tight);
    JoinRoomFor(a, b, h - 1, lo1, mid, hi1, tight);
    assert Between(mid, lo, hi);
    if i + 1 < |es| - 1 { LessTransitiveNot(seps[i], seps[i + 1]); }
    if a.L? { JoinLeaves(a.leaf, b.leaf, lo1, mid, hi1, tight); } else { JoinInner(a.entries, b.entries, h - 1, lo1, mid, hi1); }
    MergedNode(es, i, Joined(a, b), h, lo, hi, tight);
  }

  lemma JoinRoomFor(a: Tree, b: Tree, h: nat, lo: Bound, mid: Str, hi: Bound, tight: bool)
    requires Inv(a, h, lo, Some(mid), tight) && Inv(b, h, Some(mid), hi, tight)
    requires Free(a) + Free(b) >= MIN_FREE + NODE
    ensures (a.L? <==> b.L?) && Free(Joined(a, b)) >= 64 && TreeUsed(a) + TreeUsed(b) <= BODY
  {
    JoinRoom(a, b);
  }

  function Merged(es: seq<Entry>, i: nat, c: Tree): seq<Entry>
    requires i + 1 < |es|
  {
    es[..i] + [Entry(es[i + 1].sep, c)] + es[i + 2..]
  }

  lemma MergedUsed(es: seq<Entry>, i: nat, c: Tree)
    requires i + 1 < |es|
    ensures InnerUsed(Merged(es, i, c)) <= InnerUsed(es)
  {
    var e := Entry(es[i + 1].sep, c);
    UsedSplice(es, i, i + 2, [e]);
    assert es[i..i + 2] == [es[i], es[i + 1]];
    UsedTwo(es[i], es[i + 1]);
    UsedOne(e);
  }

  lemma MergedSeps(es: seq<Entry>, i: nat, c: Tree)
    requires i + 1 < |es|
    ensures Seps(Merged(es, i, c)) == Seps(es)[..i] + Seps(es)[i + 1..]
  {
  }

  lemma MergedKid(es: seq<Entry>, i: nat, c: Tree, j: nat)
    requires i + 1 < |es| && j < |es| - 1
    ensures Kid(Merged(es, i, c), j) == if j < i then Kid(es, j) else if j == i then c else Kid(es, j + 1)
  {
  }

  /** Entries i and i+1 give way to one with the separator of the second. */
  lemma MergedNode(es: seq<Entry>, i: nat, c: Tree, h: nat, lo: Bound, hi: Bound, tight: bool)
    requires Inv(N(es), h, lo, hi, tight) && i + 1 < |es|
    requires Inv(c, h - 1, LoOf(Seps(es), i, lo), HiOf(Seps(es), i + 1, hi), tight)
    ensures Inv(N(Merged(es, i, c)), h, lo, hi, tight)
  {
    var es', seps := Merged(es, i, c), Seps(es);
    ChildrenOK(es, h, lo, hi, tight);
    MergedSeps(es, i, c);
    DropSep(seps, i, lo, hi, tight);
    MergedUsed(es, i, c);
    forall j | 0 <= j < |es'|
      ensures ChildOK(Kid(es', j), h, LoOf(Seps(es'), j, lo), HiOf(Seps(es'), j, hi), tight)
    {
      DropBounds(seps, i, j, lo, hi);
      MergedKid(es, i, c, j);
    }
    BuildInner(es', h, lo, hi, tight);
  }

  lemma DropBounds(seps: seq<Str>, i: nat, j: nat, lo: Bound, hi: Bound)
    requires i < |seps| - 1 && j < |seps| - 1
    ensures var s := seps[..i] + seps[i + 1..];
            && (j < i ==> LoOf(s, j, lo) == LoOf(seps, j, lo) && HiOf(s, j, hi) == HiOf(seps, j, hi))
            && (j == i ==> LoOf(s, j, lo) == LoOf(seps, i, lo) && HiOf(s, j, hi) == HiOf(seps, i + 1, hi))
            && (j > i ==> LoOf(s, j, lo) == LoOf(seps, j + 1, lo) && HiOf(s, j, hi) == HiOf(seps, j + 1, hi))
  {
  }

  lemma MergeAtHas(es: seq<Entry>, i: nat, c: Tree, r: Rec)
    requires i + 1 < |es| && (Has(c, r) <==> Has(es[i].child, r) || Has(es[i + 1].child, r))
    ensures Has(N(Merged(es, i, c)), r) <==> Has(N(es), r)
  {
    var es' := Merged(es, i, c);
    if j :| 0 <= j < |es| && Has(es[j].child, r) {
      assert Has(es'[if j <= i then j else j - 1].child, r);
    }
    if j :| 0 <= j < |es'| && Has(es'[j].child, r) {
      if j < i { assert Has(es[j].child, r); }
      else if j > i { assert Has(es[j + 1].child, r); }
    }
  }
}
