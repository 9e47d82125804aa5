/** A whole traversal: what it keeps, the room it guarantees, and when it fails. */
module BzTreeTraverse {
  import opened BzKeys
  import opened BzSmo
  import opened BzTree
  import opened BzTreeInv
  import opened BzTreeSmo
  import opened BzTreeSteps

  lemma HalvesKeep(t: Tree, h: nat, lo: Bound, hi: Bound, tight: bool)
    requires Inv(t, h, lo, hi, tight) && Halves(t).Some?
    ensures GoodHalves(Halves(t).value.0, Halves(t).value.1, h, lo, hi, tight)
    ensures (h == 1 || tight) && hi.Some? ==>
              var (a, b) := Halves(t).value; Inv(b.child, h, Some(a.sep), Some(b.sep), tight)
  {
    if t.L? { SplitLeafKeeps(t, lo, hi, tight); } else { SplitInnerKeeps(t, h, lo, hi, tight); }
  }

  lemma SplitStep(es: seq<Entry>, i: nat, h: nat, lo: Bound, hi: Bound, tight: bool)
    requires i < |es| && Inv(N(es), h, lo, hi, tight) && (tight || h <= 2) && Free(N(es)) >= MIN_FREE
    requires Halves(es[i].child).Some?
    ensures var t' := N(SplitAt(es, i, Halves(es[i].child).value));
            Inv(t', h, lo, hi, tight) && SameRecords(N(es), t')
  {
    var c, lo1, hi1 := Kid(es, i), LoOf(Seps(es), i, lo), HiOf(Seps(es), i, hi);
    assert Inv(c, h - 1, lo1, hi1, tight);
    var (a, b) := Halves(c).value;
    HalvesKeep(c, h - 1, lo1, hi1, tight);
    SplitChildKeeps(es, i, a, b, h, lo, hi, tight);
    forall r
      ensures Has(N(SplitAt(es, i, (a, b))), r) <==> Has(N(es), r)
    {
      HalvesHave(c, r);
      SplitAtHas(es, i, a, b, r);
    }
  }

  lemma MergeStep(es: seq<Entry>, i: nat, h: nat, lo: Bound, hi: Bound, tight: bool)
    requires i < |es| && Inv(N(es), h, lo, hi, tight) && (tight || h <= 2) && Mergeable(es, i)
    ensures Inv(N(MergeAt(es, i)), h, lo, hi, tight) && SameRecords(N(es), N(MergeAt(es, i)))
  {
    MergeChildrenKeep(es, i, h, lo, hi, tight);
    var a, b := Kid(es, i), Kid(es, i + 1);
    assert Inv(a, h - 1, LoOf(Seps(es), i, lo), HiOf(Seps(es), i, hi), tight);
    assert Inv(b, h - 1, LoOf(Seps(es), i + 1, lo), HiOf(Seps(es), i + 1, hi), tight);
    forall r
      ensures Has(N(MergeAt(es, i)), r) <==> Has(N(es), r)
    {
      JoinHas(a, b, r);
      MergeAtHas(es, i, Joined(a, b), r);
    }
  }

  lemma ReplaceStep(es: seq<Entry>, i: nat, c: Tree, h: nat, lo: Bound, hi: Bound, tight: bool)
    requires i < |es| && Inv(N(es), h, lo, hi, tight)
    requires Inv(c, h - 1, LoOf(Seps(es), i, lo), HiOf(Seps(es), i, hi), tight) && SameRecords(Kid(es, i), c)
    ensures var t' := N(es[i := Entry(es[i].sep, c)]); Inv(t', h, lo, hi, tight) && SameRecords(N(es), t')
  {
    SetChild(es, i, c, h, lo, hi, tight);
    SetChildSame(es, i, c);
  }

  /** Every structural change below an inner node keeps the tree in order and its records. */
  lemma {:induction false} BelowKeeps(es: seq<Entry>, k: Str, h: nat, lo: Bound, hi: Bound, tight: bool)
    requires Inv(N(es), h, lo, hi, tight) && Shaped(N(es)) && (tight || h <= 2) && Free(N(es)) >= MIN_FREE
    requires Below(es, k).Changed?
    ensures Inv(Below(es, k).t, h, lo, hi, tight) && SameRecords(N(es), Below(es, k).t)
    decreases N(es)
  {
    var i := Route(es, k);
    var c, lo1, hi1 := Kid(es, i), LoOf(Seps(es), i, lo), HiOf(Seps(es), i, hi);
    assert Inv(c, h - 1, lo1, hi1, tight);
    if Deleted(c) > MAX_DELETED {
      CompactKeeps(c, h - 1, lo1, hi1, tight);
      ReplaceStep(es, i, Compact(c), h, lo, hi, tight);
    } else if Free(c) < MIN_FREE {
      SplitStep(es, i, h, lo, hi, tight);
    } else if i > 0 && Mergeable(es, i - 1) {
      MergeStep(es, i - 1, h, lo, hi, tight);
    } else if Mergeable(es, i) {
      MergeStep(es, i, h, lo, hi, tight);
    } else {
      BelowKeeps(c.entries, k, h - 1, lo1, hi1, tight);
      ReplaceStep(es, i, Below(c.entries, k).t, h, lo, hi, tight);
    }
  }

  lemma NewRoot(a: Entry, b: Entry, h: nat, tight: bool)
    requires h >= 1 && GoodHalves(a, b, h, None, None, tight)
    ensures Inv(N([a, b]), h + 1, None, None, tight)
  {
    var es := [a, b];
    UsedTwo(a, b);
    assert Seps(es) == [a.sep, b.sep];
    forall i | 0 <= i < |es|
      ensures ChildOK(Kid(es, i), h + 1, LoOf(Seps(es), i, None), HiOf(Seps(es), i, None), tight)
    {
      assert Kid(es, i) == if i == 0 then a.child else b.child;
    }
    BuildInner(es, h + 1, None, None, tight);
  }

  /** The height after a change of the structure: it grows exactly when the root is split. */
  function HeightAfter(t: Tree, h: nat): nat {
    if Deleted(t) <= MAX_DELETED && Free(t) < MIN_FREE then h + 1 else h
  }

  lemma NewRootHas(t: Tree, r: Rec)
    requires Halves(t).Some? && (t.L? ==> Distinct(t.leaf.recs))
    ensures Has(N([Halves(t).value.0, Halves(t).value.1]), r) <==> Has(t, r)
  {
    var (a, b) := Halves(t).value;
    HalvesHave(t, r);
    if Has(a.child, r) { assert Has([a, b][0].child, r); }
    if Has(b.child, r) { assert Has([a, b][1].child, r); }
  }

  /**
    find_leaf_parent_smo: any structural change, the split of the root included, keeps the tree
    in order and its records; for any height if no key was ever erased (tight), and up to
    height 2 otherwise.
  */
  lemma TraverseKeeps(t: Tree, k: Str, h: nat, tight: bool)
    requires Inv(t, h, None, None, tight) && Shaped(t) && (tight || h <= 2) && Traverse(t, k).Changed?
    ensures Inv(Traverse(t, k).t, HeightAfter(t, h), None, None, tight) && SameRecords(t, Traverse(t, k).t)
  {
    if Deleted(t) > MAX_DELETED {
      CompactKeeps(t, h, None, None, tight);
    } else if Free(t) < MIN_FREE {
      var (a, b) := Halves(t).value;
      HalvesKeep(t, h, None, None, tight);
      NewRoot(a, b, h, tight);
      forall r ensures Has(N([a, b]), r) <==> Has(t, r) { NewRootHas(t, r); }
    } else {
      BelowKeeps(t.entries, k, h, None, None, tight);
    }
  }

  /** The leaf reached by a traversal with structural changes has at least 48 bytes free. */
  lemma {:induction false} RoomBelow(es: seq<Entry>, k: Str)
    requires Shaped(N(es)) && Below(es, k).Found?
    ensures Used(LeafFor(N(es), k)) <= BODY - MIN_FREE && LeafFor(N(es), k).deleted <= MAX_DELETED
    decreases N(es)
  {
    var c := es[Route(es, k)].child;
    if c.N? { RoomBelow(c.entries, k); }
  }

  lemma Room(t: Tree, k: Str)
    requires Shaped(t) && Traverse(t, k).Found?
    ensures Used(LeafFor(t, k)) <= BODY - MIN_FREE && LeafFor(t, k).deleted <= MAX_DELETED
  {
    if t.N? { RoomBelow(t.entries, k); }
  }

  // ---- When an assertion of node_split fails ----

  lemma {:induction false} SepSizes(seps: seq<Str>, sizes: seq<nat>, n: nat)
    requires |sizes| == |seps| && Increasing(seps) && 0 < n <= |seps|
    requires forall i | 0 <= i < |seps| :: sizes[i] == |seps[i]| + 1
    ensures Sum(sizes, n) >= 2 * n - 1
  {
    if n > 1 {
      SepSizes(seps, sizes, n - 1);
      assert Less(seps[0], seps[n - 1]);
    }
  }

  lemma {:induction false} UsedIsSum(es: seq<Entry>, n: nat)
    requires n <= |es|
    ensures InnerUsed(es[..n]) == 16 * n + Sum(EntrySizes(es), n)
  {
    if n > 0 {
      UsedIsSum(es, n - 1);
      assert es[..n][..n - 1] == es[..n - 1];
    }
  }

  /** An inner node that has to be split meets both assertions of node_split. */
  lemma InnerSplitNeverFails(t: Tree, h: nat, lo: Bound, hi: Bound, tight: bool)
    requires t.N? && Inv(t, h, lo, hi, tight) && Free(t) < MIN_FREE
    ensures Halves(t).Some?
  {
    var es, sizes, n := t.entries, EntrySizes(t.entries), |t.entries|;
    UsedIsSum(es, n);
    assert es[..n] == es;
    assert Between(Seps(es)[n - 1], lo, hi);
    if n > 1 { SepSizes(Seps(es), sizes, n - 1); }
    assert Between(Seps(es)[0], lo, hi) && Sum(sizes, 1) == sizes[0];
    PivotExists(sizes);
  }

  /** So the program can only fail at a leaf that is too full, not yet due for compaction, and not splittable. */
  lemma {:induction false} BelowFails(es: seq<Entry>, k: Str, h: nat, lo: Bound, hi: Bound, tight: bool)
    requires Inv(N(es), h, lo, hi, tight) && Shaped(N(es)) && Below(es, k).Abort?
    ensures var l := LeafFor(N(es), k);
            Used(l) > BODY - MIN_FREE && l.deleted <= MAX_DELETED && !Splittable(KeySizes(Sort(l.recs)))
    decreases N(es)
  {
    var i := Route(es, k);
    var c, lo1, hi1 := Kid(es, i), LoOf(Seps(es), i, lo), HiOf(Seps(es), i, hi);
    assert Inv(c, h - 1, lo1, hi1, tight);
    if c.N? {
      if Free(c) < MIN_FREE { InnerSplitNeverFails(c, h - 1, lo1, hi1, tight); }
      BelowFails(c.entries, k, h - 1, lo1, hi1, tight);
    } else {
      PivotExists(KeySizes(Sort(c.leaf.recs)));
    }
  }

  lemma TraverseFails(t: Tree, k: Str, h: nat, tight: bool)
    requires Inv(t, h, None, None, tight) && Shaped(t) && Traverse(t, k).Abort?
    ensures var l := LeafFor(t, k);
            Used(l) > BODY - MIN_FREE && l.deleted <= MAX_DELETED && !Splittable(KeySizes(Sort(l.recs)))
  {
    if t.L? {
      PivotExists(KeySizes(Sort(t.leaf.recs)));
    } else {
      if Free(t) < MIN_FREE { InnerSplitNeverFails(t, h, None, None, tight); }
      BelowFails(t.entries, k, h, None, None, tight);
    }
  }
}
