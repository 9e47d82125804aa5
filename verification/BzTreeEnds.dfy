/**
  The restart loop of find_leaf ends. Restarts for one key cannot go on without the height growing
  beyond every bound; and it does not: nodes off the path at levels added on the way have at
  least two children, so that every such level has about half as many nodes as the one below.
*/
module BzTreeEnds {
  import opened BzKeys
  import opened BzSmo
  import opened BzTree
  import opened BzTreeInv
  import opened BzTreeSmo
  import opened BzTreeSteps
  import opened BzTreeTraverse
  import opened BzTreeLookups
  import opened BzTreeLost
  import opened BzTreeRestart
  import opened BzTreeDoomed

  /** From level from on, nodes off the path of k have two children or more; on: the node is on the path. */
  predicate Bushy(t: Tree, h: nat, k: Str, on: bool, from: nat)
    requires Shaped(t)
    decreases t
  {
    t.N? && h > from ==>
      && (on || |t.entries| >= 2)
      && forall i | 0 <= i < |t.entries| :: Bushy(t.entries[i].child, h - 1, k, on && i == Route(t.entries, k), from)
  }

  lemma {:induction false} OffIsOn(t: Tree, h: nat, k: Str, from: nat)
    requires Shaped(t) && Bushy(t, h, k, false, from)
    ensures Bushy(t, h, k, true, from)
    decreases t
  {
    if t.N? && h > from {
      forall i | 0 <= i < |t.entries|
        ensures Bushy(t.entries[i].child, h - 1, k, true && i == Route(t.entries, k), from)
      {
        if i == Route(t.entries, k) { OffIsOn(t.entries[i].child, h - 1, k, from); }
      }
    }
  }

  // ---- Counting ----

  /** Each child i has the ratio; the one at index r is on the path. */
  lemma {:induction false} SumRatio(es: seq<Entry>, h: nat, l: nat, r: int)
    requires forall i | 0 <= i < |es| :: Count(es[i].child, h, l) + (if i == r then 1 else 0) >= 2 * Count(es[i].child, h, l + 1)
    ensures CountAll(es, h, l) + (if 0 <= r < |es| then 1 else 0) >= 2 * CountAll(es, h, l + 1)
    decreases |es|
  {
    if es != [] {
      var rest := es[1..];
      forall i | 0 <= i < |rest|
        ensures Count(rest[i].child, h, l) + (if i == r - 1 then 1 else 0) >= 2 * Count(rest[i].child, h, l + 1)
      {
        assert rest[i] == es[i + 1];
      }
      SumRatio(rest, h, l, r - 1);
      assert Count(es[0].child, h, l) + (if 0 == r then 1 else 0) >= 2 * Count(es[0].child, h, l + 1);
    }
  }

  lemma {:induction false} CountFlat(es: seq<Entry>, h: nat, l: nat)
    requires h <= l + 1
    ensures CountAll(es, h, l) == |es|
    decreases |es|
  {
    if es != [] { CountFlat(es[1..], h, l); }
  }

  /** All leaves are at the same depth. */
  predicate Even(t: Tree, h: nat)
    decreases t
  {
    match t
    case L(_) => h == 1
    case N(es) => h > 1 && es != [] && forall i | 0 <= i < |es| :: Even(es[i].child, h - 1)
  }

  lemma {:induction false} InvEven(t: Tree, h: nat, lo: Bound, hi: Bound, tight: bool)
    requires Inv(t, h, lo, hi, tight)
    ensures Even(t, h)
    decreases t
  {
    if t.N? {
      forall i | 0 <= i < |t.entries|
        ensures Even(t.entries[i].child, h - 1)
      {
        InvEven(Kid(t.entries, i), h - 1, LoOf(Seps(t.entries), i, lo), HiOf(Seps(t.entries), i, hi), tight);
      }
    }
  }

  /** A bushy level has at least about twice as many nodes as the one above. */
  lemma {:induction false} BushyRatio(t: Tree, h: nat, k: Str, on: bool, from: nat, l: nat)
    requires Even(t, h) && Shaped(t) && Bushy(t, h, k, on, from) && from <= l + 1 < h
    ensures Count(t, h, l) + (if on then 1 else 0) >= 2 * Count(t, h, l + 1)
    decreases t
  {
    var es := t.entries;
    if h == l + 2 {
      CountFlat(es, h - 1, l);
    } else {
      var r := if on then Route(es, k) else -1;
      forall i | 0 <= i < |es|
        ensures Count(es[i].child, h - 1, l) + (if i == r then 1 else 0) >= 2 * Count(es[i].child, h - 1, l + 1)
      {
        BushyRatio(es[i].child, h - 1, k, on && i == Route(es, k), from, l);
      }
      SumRatio(es, h - 1, l, r);
    }
  }

  lemma {:induction false} SumMore(es: seq<Entry>, h: nat, l: nat)
    requires forall i | 0 <= i < |es| :: Count(es[i].child, h, l) >= Count(es[i].child, h, l + 1)
    ensures CountAll(es, h, l) >= CountAll(es, h, l + 1)
    decreases |es|
  {
    if es != [] {
      forall i | 0 <= i < |es[1..]|
        ensures Count(es[1..][i].child, h, l) >= Count(es[1..][i].child, h, l + 1)
      {
        assert es[1..][i] == es[i + 1];
      }
      SumMore(es[1..], h, l);
      assert Count(es[0].child, h, l) >= Count(es[0].child, h, l + 1);
    }
  }

  /** No level has more nodes than the one below. */
  lemma {:induction false} LevelsShrink(t: Tree, h: nat, l: nat)
    requires Even(t, h) && l + 1 < h
    ensures Count(t, h, l) >= Count(t, h, l + 1)
    decreases t
  {
    var es := t.entries;
    if h == l + 2 {
      CountFlat(es, h - 1, l);
    } else {
      forall i | 0 <= i < |es|
        ensures Count(es[i].child, h - 1, l) >= Count(es[i].child, h - 1, l + 1)
      {
        LevelsShrink(es[i].child, h - 1, l);
      }
      SumMore(es, h - 1, l);
    }
  }

  /** Above level from the number of nodes goes down with every level, as long as there are two. */
  lemma {:induction false} NodesBelow(t: Tree, h: nat, k: Str, from: nat, m: nat)
    requires Even(t, h) && Shaped(t) && Bushy(t, h, k, true, from) && m + 2 <= h && t.N? && |t.entries| >= 2
    ensures from <= m + 1 ==> Count(t, h, m) >= h - m
    ensures Count(t, h, m) >= 2
    decreases h - m
  {
    if m + 2 == h {
      CountFlat(t.entries, h - 1, m);
    } else {
      NodesBelow(t, h, k, from, m + 1);
      LevelsShrink(t, h, m);
      if from <= m + 1 { BushyRatio(t, h, k, true, from, m); }
    }
  }

  lemma {:induction false} ManyLeaves(t: Tree, h: nat, m: nat)
    requires Even(t, h) && m < h
    ensures Count(t, h, 0) >= Count(t, h, m)
  {
    if m > 0 {
      ManyLeaves(t, h, m - 1);
      LevelsShrink(t, h, m - 1);
    }
  }

  /** So a root with two children or more stands on at least as many leaves as there are levels above from. */
  lemma HeightNeedsLeaves(t: Tree, h: nat, k: Str, from: nat)
    requires Inv(t, h, None, None, true) && Shaped(t) && Bushy(t, h, k, true, from) && t.N? && |t.entries| >= 2
    ensures h <= from + 1 + Count(t, h, 0)
  {
    if h > from + 1 {
      InvEven(t, h, None, None, true);
      var m := if from == 0 then 0 else from - 1;
      NodesBelow(t, h, k, from, m);
      ManyLeaves(t, h, m);
    }
  }

  // ---- Structural changes keep new levels bushy ----

  lemma {:induction false} SetBushy(es: seq<Entry>, c: Tree, h: nat, k: Str, from: nat)
    requires Shaped(N(es)) && h > 0 && Bushy(N(es), h, k, true, from) && Shaped(c) && Bushy(c, h - 1, k, true, from)
    ensures var i := Route(es, k); var t' := N(es[i := Entry(es[i].sep, c)]); Shaped(t') && Bushy(t', h, k, true, from)
  {
    var i := Route(es, k);
    var es' := es[i := Entry(es[i].sep, c)];
    SetShaped(es, i, c);
    SetRoute(es, i, c, k);
    if h > from {
      forall j | 0 <= j < |es'|
        ensures Bushy(es'[j].child, h - 1, k, true && j == Route(es', k), from)
      {
        assert j != i ==> es'[j] == es[j];
      }
    }
  }

  /** With keys of at most 16 bytes an overfull inner node leaves at least two children on either side. */
  lemma LeftHasTwo(t: Tree, h: nat, lo: Bound, hi: Bound)
    requires t.N? && Inv(t, h, lo, hi, true) && Free(t) < MIN_FREE
    ensures Halves(t).Some? && Pivot(EntrySizes(t.entries)).Some?
    ensures 2 <= Pivot(EntrySizes(t.entries)).value <= |t.entries| - 2
  {
    var es, sizes, n := t.entries, EntrySizes(t.entries), |t.entries|;
    InnerSplitNeverFails(t, h, lo, hi, true);
    PivotExists(sizes);
    UsedIsSum(es, n);
    assert es[..n] == es;
    SepSizes(Seps(es), sizes, n);
    assert Between(Seps(es)[0], lo, hi) && Sum(sizes, 1) == sizes[0];
    var p: nat :| IsHalf(sizes, p) && p < n && Pivot(sizes).value == if p + 1 == n then p - 1 else p;
    RestOfSizes(Seps(es), sizes, n);
    SumAtMost(sizes, n);
  }

  /** All sizes but the first are 2 or more. */
  lemma {:induction false} RestOfSizes(seps: seq<Str>, sizes: seq<nat>, n: nat)
    requires |sizes| == |seps| && Increasing(seps) && 0 < n <= |seps|
    requires forall i | 0 <= i < |seps| :: sizes[i] == |seps[i]| + 1
    ensures Sum(sizes, n) >= sizes[0] + 2 * (n - 1)
  {
    if n > 1 {
      RestOfSizes(seps, sizes, n - 1);
      assert Less(seps[0], seps[n - 1]);
    } else {
      assert Sum(sizes, 1) == Sum(sizes, 0) + sizes[0];
    }
  }

  lemma {:induction false} SumAtMost(sizes: seq<nat>, n: nat)
    requires n <= |sizes| && forall i | 0 <= i < |sizes| :: sizes[i] <= 16
    ensures Sum(sizes, n) <= 16 * n
  {
    if n > 0 { SumAtMost(sizes, n - 1); }
  }

  /** A stretch of children off the path, or with the path going through it. */
  lemma {:induction false} PartBushy(es: seq<Entry>, a: nat, b: nat, h: nat, k: Str, from: nat)
    requires Shaped(N(es)) && Bushy(N(es), h, k, true, from) && a < b <= |es| && Shaped(N(es[a..b]))
    ensures a <= Route(es, k) < b && Route(es[a..b], k) == Route(es, k) - a ==> Bushy(N(es[a..b]), h, k, true, from)
    ensures !(a <= Route(es, k) < b) && b - a >= 2 ==> Bushy(N(es[a..b]), h, k, false, from)
  {
    var part := es[a..b];
    if h > from {
      forall j | 0 <= j < |part|
        ensures Bushy(part[j].child, h - 1, k, a + j == Route(es, k), from)
      {
        assert part[j] == es[a + j];
      }
    }
  }

  lemma HalvesBushy(c: Tree, h: nat, k: Str, from: nat, lo: Bound, hi: Bound)
    requires Inv(c, h, lo, hi, true) && Shaped(c) && Free(c) < MIN_FREE && Halves(c).Some? && Bushy(c, h, k, true, from)
    ensures var (a, b) := Halves(c).value;
            && Shaped(a.child) && Shaped(b.child)
            && Bushy(a.child, h, k, !Less(a.sep, k), from) && Bushy(b.child, h, k, Less(a.sep, k), from)
  {
    HalvesShaped(c);
    if c.N? {
      var es, n, m := c.entries, |c.entries|, Pivot(EntrySizes(c.entries)).value;
      LeftHasTwo(c, h, lo, hi);
      ChildrenOK(es, h, lo, hi, true);
      SplitRoute(es, m, k);
      assert es[0..m] == es[..m] && es[m..n] == es[m..];
      PartBushy(es, 0, m, h, k, from);
      PartBushy(es, m, n, h, k, from);
    }
  }

  lemma {:induction false} SplitBushyAt(es: seq<Entry>, h: nat, k: Str, from: nat, a: Entry, b: Entry)
    requires Shaped(N(es)) && h > 0 && Bushy(N(es), h, k, true, from) && Shaped(a.child) && Shaped(b.child)
    requires Bushy(a.child, h - 1, k, !Less(a.sep, k), from) && Bushy(b.child, h - 1, k, Less(a.sep, k), from)
    requires var i := Route(es, k);
             Route(SplitAt(es, i, (a, b)), k) == if Less(a.sep, k) then i + 1 else i
    ensures var t' := N(SplitAt(es, Route(es, k), (a, b))); Shaped(t') && Bushy(t', h, k, true, from)
  {
    var i := Route(es, k);
    var es' := SplitAt(es, i, (a, b));
    SplitShaped(es, i, a, b);
    if h > from {
      forall j | 0 <= j < |es'|
        ensures Bushy(es'[j].child, h - 1, k, true && j == Route(es', k), from)
      {
        SplitEntry(es, i, a, b, j);
      }
    }
  }

  lemma SplitBushy(es: seq<Entry>, k: Str, h: nat, from: nat, lo: Bound, hi: Bound)
    requires Inv(N(es), h, lo, hi, true) && Shaped(N(es)) && Bushy(N(es), h, k, true, from)
    requires Halves(es[Route(es, k)].child).Some? && Free(es[Route(es, k)].child) < MIN_FREE
    ensures var t' := N(SplitAt(es, Route(es, k), Halves(es[Route(es, k)].child).value)); Shaped(t') && Bushy(t', h, k, true, from)
  {
    var i := Route(es, k);
    var c := Kid(es, i);
    var lo1, hi1 := LoOf(Seps(es), i, lo), HiOf(Seps(es), i, hi);
    assert Inv(c, h - 1, lo1, hi1, true);
    var (a, b) := Halves(c).value;
    ChildOnPath(es, h, k, from);
    HalvesBushy(c, h - 1, k, from, lo1, hi1);
    HalfOnPath(es, k, h, lo, hi);
    SplitBushyAt(es, h, k, from, a, b);
  }

  /** The child on the path is bushy as well, also below the levels that count. */
  lemma ChildOnPath(es: seq<Entry>, h: nat, k: Str, from: nat)
    requires Shaped(N(es)) && h > 0 && Bushy(N(es), h, k, true, from)
    ensures Bushy(es[Route(es, k)].child, h - 1, k, true, from)
  {
  }

  lemma {:induction false} JoinedBushy(a: Tree, b: Tree, h: nat, k: Str, from: nat, right: bool)
    requires Shaped(a) && Shaped(b) && (a.L? <==> b.L?) && Shaped(Joined(a, b))
    requires Bushy(a, h, k, !right, from) && Bushy(b, h, k, right, from)
    requires a.N? ==> Increasing(Seps(a.entries)) && (Strays(a, k) <==> right)
    ensures Bushy(Joined(a, b), h, k, true, from)
  {
    if a.N? && h > from {
      JoinRoute(a.entries, b.entries, k);
      var es, n := a.entries + b.entries, |a.entries|;
      forall j | 0 <= j < |es|
        ensures Bushy(es[j].child, h - 1, k, true && j == Route(es, k), from)
      {
        assert es[j] == if j < n then a.entries[j] else b.entries[j - n];
      }
    }
  }

  lemma {:induction false} MergeBushyAt(es: seq<Entry>, i: nat, c: Tree, h: nat, k: Str, from: nat)
    requires Shaped(N(es)) && h > 0 && Bushy(N(es), h, k, true, from) && i + 1 < |es| && Route(es, k) in {i, i + 1}
    requires Shaped(c) && Bushy(c, h - 1, k, true, from) && Route(Merged(es, i, c), k) == i
    ensures Shaped(N(Merged(es, i, c))) && Bushy(N(Merged(es, i, c)), h, k, true, from)
  {
    var es' := Merged(es, i, c);
    MergedShaped(es, i, c);
    if h > from {
      forall j | 0 <= j < |es'|
        ensures Bushy(es'[j].child, h - 1, k, true && j == Route(es', k), from)
      {
        MergedEntry(es, i, c, j);
      }
    }
  }

  lemma PairBushy(es: seq<Entry>, i: nat, h: nat, k: Str, from: nat)
    requires Shaped(N(es)) && h > 0 && Bushy(N(es), h, k, true, from) && i + 1 < |es| && Route(es, k) in {i, i + 1}
    ensures Bushy(es[i].child, h - 1, k, Route(es, k) == i, from) && Bushy(es[i + 1].child, h - 1, k, Route(es, k) == i + 1, from)
  {
  }

  lemma MergeBushy(es: seq<Entry>, k: Str, h: nat, i: nat, from: nat, lo: Bound, hi: Bound)
    requires Inv(N(es), h, lo, hi, true) && Shaped(N(es)) && Bushy(N(es), h, k, true, from)
    requires i < |es| && Mergeable(es, i) && Route(es, k) in {i, i + 1}
    ensures Shaped(N(MergeAt(es, i))) && Bushy(N(MergeAt(es, i)), h, k, true, from)
  {
    var a, b := Kid(es, i), Kid(es, i + 1);
    var lo1, mid, hi1 := LoOf(Seps(es), i, lo), Seps(es)[i], HiOf(Seps(es), i + 1, hi);
    assert Inv(a, h - 1, lo1, Some(mid), true) && Inv(b, h - 1, Some(mid), hi1, true);
    ChildrenOK(es, h, lo, hi, true);
    JoinedShaped(a, b);
    var c := Joined(a, b);
    RouteAfterMerge(es, i, c, k);
    RouteBounds(es, k);
    PairBushy(es, i, h, k, from);
    if a.N? {
      StraysRight(a, mid, k, h - 1, lo1);
      ChildrenOK(a.entries, h - 1, lo1, Some(mid), true);
    }
    JoinedBushy(a, b, h - 1, k, from, Route(es, k) == i + 1);
    MergeBushyAt(es, i, c, h, k, from);
  }

  lemma {:induction false} BelowBushy(es: seq<Entry>, k: Str, h: nat, from: nat, lo: Bound, hi: Bound)
    requires Inv(N(es), h, lo, hi, true) && Shaped(N(es)) && Between(k, lo, hi) && Bushy(N(es), h, k, true, from)
    requires Below(es, k).Changed?
    ensures Shaped(Below(es, k).t) && Bushy(Below(es, k).t, h, k, true, from)
    decreases N(es), 1
  {
    var i := Route(es, k);
    if Deleted(es[i].child) > MAX_DELETED {
      SetBushy(es, Compact(es[i].child), h, k, from);
    } else if Free(es[i].child) < MIN_FREE {
      SplitBushy(es, k, h, from, lo, hi);
    } else if i > 0 && Mergeable(es, i - 1) {
      MergeBushy(es, k, h, i - 1, from, lo, hi);
    } else if Mergeable(es, i) {
      MergeBushy(es, k, h, i, from, lo, hi);
    } else {
      DeeperBushy(es, k, h, from, lo, hi);
    }
  }

  lemma DeeperBushy(es: seq<Entry>, k: Str, h: nat, from: nat, lo: Bound, hi: Bound)
    requires Inv(N(es), h, lo, hi, true) && Shaped(N(es)) && Between(k, lo, hi) && Bushy(N(es), h, k, true, from)
    requires Below(es, k).Changed? && Passes(es, k)
    ensures Shaped(Below(es, k).t) && Bushy(Below(es, k).t, h, k, true, from)
    decreases N(es), 0
  {
    var i := Route(es, k);
    var c := Kid(es, i);
    var lo1, hi1 := LoOf(Seps(es), i, lo), HiOf(Seps(es), i, hi);
    assert Inv(c, h - 1, lo1, hi1, true);
    RouteWithin(es, k, lo, hi);
    ChildOnPath(es, h, k, from);
    BelowBushy(c.entries, k, h - 1, from, lo1, hi1);
    SetBushy(es, Below(c.entries, k).t, h, k, from);
  }

  lemma RootBushy(t: Tree, k: Str, h: nat, from: nat)
    requires Inv(t, h, None, None, true) && Shaped(t) && Free(t) < MIN_FREE && Halves(t).Some? && Bushy(t, h, k, true, from)
    ensures var t' := N([Halves(t).value.0, Halves(t).value.1]); Shaped(t') && Bushy(t', h + 1, k, true, from)
  {
    var (a, b) := Halves(t).value;
    HalvesBushy(t, h, k, from, None, None);
    var es := [a, b];
    RouteIs(es, k, if Less(a.sep, k) then 1 else 0);
    forall j | 0 <= j < |es|
      ensures Shaped(es[j].child) && Bushy(es[j].child, h, k, true && j == Route(es, k), from)
    {
      assert j == 0 || j == 1;
    }
  }

  lemma TraverseBushy(t: Tree, k: Str, h: nat, from: nat)
    requires Inv(t, h, None, None, true) && Shaped(t) && KeyOK(k) && Bushy(t, h, k, true, from) && Traverse(t, k).Changed?
    ensures Shaped(Traverse(t, k).t) && Bushy(Traverse(t, k).t, HeightAfter(t, h), k, true, from)
  {
    if Deleted(t) > MAX_DELETED {
    } else if Free(t) < MIN_FREE {
      RootBushy(t, k, h, from);
    } else {
      BelowBushy(t.entries, k, h, from, None, None);
    }
  }

  // ---- The height stays bounded ----

  /** What holds after any number of restarts: from is the height at the start, w the weight of the leaf level. */
  predicate Bounded(t: Tree, h: nat, k: Str, from: nat, w: nat) {
    Shaped(t) && Bushy(t, h, k, true, from) && Weight(LevelOf(t, h, k, 0)) <= w && h <= from + w + 2
  }

  /** An overfull root has at least two children. */
  lemma RootHasTwo(t: Tree, h: nat)
    requires t.N? && Inv(t, h, None, None, true) && Free(t) < MIN_FREE
    ensures |t.entries| >= 2
  {
    LeftHasTwo(t, h, None, None);
  }

  lemma StaysBounded(t: Tree, k: Str, h: nat, from: nat, w: nat)
    requires Inv(t, h, None, None, true) && Bounded(t, h, k, from, w) && KeyOK(k) && Traverse(t, k).Changed? && from >= 1
    ensures Bounded(Traverse(t, k).t, HeightAfter(t, h), k, from, w)
  {
    TraverseBushy(t, k, h, from);
    var l := RestartLowers(t, k, h);
    if HeightAfter(t, h) > h && h > 1 {
      InvShaped(t, h, None, None, true);
      RootHasTwo(t, h);
      HeightNeedsLeaves(t, h, k, from);
    }
  }

  lemma StartsBounded(t: Tree, k: Str, h: nat)
    requires Inv(t, h, None, None, true) && Shaped(t)
    ensures Bounded(t, h, k, h, Weight(LevelOf(t, h, k, 0)))
  {
  }

  lemma {:induction false} EndlessBounded(f: nat -> Tree, hs: nat -> nat, k: Str, i: nat)
    requires Endless(f, hs, k) && KeyOK(k)
    ensures Shaped(f(0)) && hs(0) >= 1 && Bounded(f(i), hs(i), k, hs(0), Weight(LevelOf(f(0), hs(0), k, 0)))
  {
    EndlessInv(f, hs, k, 0);
    if i == 0 {
      StartsBounded(f(0), k, hs(0));
    } else {
      EndlessBounded(f, hs, k, i - 1);
      EndlessInv(f, hs, k, i - 1);
      assert Restart(f(i - 1), f(i - 1 + 1), k) && hs(i - 1 + 1) == HeightAfter(f(i - 1), hs(i - 1));
      StaysBounded(f(i - 1), k, hs(i - 1), hs(0), Weight(LevelOf(f(0), hs(0), k, 0)));
    }
  }

  lemma NotEndless(f: nat -> Tree, hs: nat -> nat, k: Str)
    requires KeyOK(k)
    ensures !Endless(f, hs, k)
  {
    if Endless(f, hs, k) {
      EndlessBounded(f, hs, k, 0);
      var top := hs(0) + Weight(LevelOf(f(0), hs(0), k, 0)) + 2;
      EndlessRestartsGrow(f, hs, k, top);
      var i: nat :| hs(i) > top;
      EndlessBounded(f, hs, k, i);
    }
  }

  // ---- The loop ----

  /** A traversal for k finds nothing to change: it reaches the leaf or fails an assertion. */
  predicate Stops(t: Tree, k: Str) { Shaped(t) && !Traverse(t, k).Changed? }

  /** The tree after one traversal for k. */
  function Next(t: Tree, k: Str): Tree {
    if Shaped(t) && Traverse(t, k).Changed? then Traverse(t, k).t else t
  }

  /** The tree, and its height, after n traversals for k. */
  function Nth(t: Tree, k: Str, n: nat): Tree {
    if n == 0 then t else Next(Nth(t, k, n - 1), k)
  }

  function NthHeight(t: Tree, h: nat, k: Str, n: nat): nat {
    if n == 0 then h else HeightAfter(Nth(t, k, n - 1), NthHeight(t, h, k, n - 1))
  }

  lemma NextInOrder(t: Tree, h: nat, k: Str)
    requires Inv(t, h, None, None, true) && Shaped(t) && KeyOK(k) && !Stops(t, k)
    ensures Restart(t, Next(t, k), k)
    ensures Shaped(Next(t, k)) && Inv(Next(t, k), HeightAfter(t, h), None, None, true)
  {
    TraverseKeeps(t, k, h, true);
    InvShaped(Next(t, k), HeightAfter(t, h), None, None, true);
  }

  /** What is known of the tree after n traversals. */
  ghost predicate NthOrder(t: Tree, h: nat, k: Str, n: nat) {
    Shaped(Nth(t, k, n)) && Inv(Nth(t, k, n), NthHeight(t, h, k, n), None, None, true)
  }

  lemma {:induction false} NthOneMore(t: Tree, h: nat, k: Str, n: nat)
    requires KeyOK(k) && !Stops(Nth(t, k, n), k) && NthOrder(t, h, k, n)
    ensures NthOrder(t, h, k, n + 1)
  {
    NextInOrder(Nth(t, k, n), NthHeight(t, h, k, n), k);
  }

  /** The traversals from the n-th to before the m-th all change something. */
  predicate Goes(t: Tree, k: Str, n: nat, m: nat) { forall i: nat | n <= i < m :: !Stops(Nth(t, k, i), k) }

  lemma {:induction false} NthInOrder(t: Tree, h: nat, k: Str, n: nat, m: nat)
    requires NthOrder(t, h, k, n) && KeyOK(k) && n <= m && Goes(t, k, n, m)
    ensures NthOrder(t, h, k, m)
    decreases m - n
  {
    if n < m {
      NthOneMore(t, h, k, n);
      NthInOrder(t, h, k, n + 1, m);
    }
  }

  lemma {:induction false} NthRestarts(t: Tree, h: nat, k: Str, n: nat)
    requires NthOrder(t, h, k, 0) && KeyOK(k) && Goes(t, k, 0, n + 1)
    ensures Restart(Nth(t, k, n), Nth(t, k, n + 1), k)
  {
    NthInOrder(t, h, k, 0, n);
    NextInOrder(Nth(t, k, n), NthHeight(t, h, k, n), k);
  }

  function Trees(t: Tree, k: Str): nat -> Tree { (i: nat) => Nth(t, k, i) }

  function Heights(t: Tree, h: nat, k: Str): nat -> nat { (i: nat) => NthHeight(t, h, k, i) }

  lemma {:induction false} NthStep(t: Tree, h: nat, k: Str, i: nat)
    requires NthOrder(t, h, k, 0) && KeyOK(k) && Goes(t, k, 0, i + 1)
    ensures Restart(Trees(t, k)(i), Trees(t, k)(i + 1), k)
    ensures Heights(t, h, k)(i + 1) == HeightAfter(Trees(t, k)(i), Heights(t, h, k)(i))
  {
    NthRestarts(t, h, k, i);
  }

  lemma NthStart(t: Tree, h: nat, k: Str)
    requires NthOrder(t, h, k, 0)
    ensures Inv(Trees(t, k)(0), Heights(t, h, k)(0), None, None, true)
  {
  }

  lemma {:induction false} NeverStops(t: Tree, h: nat, k: Str)
    requires NthOrder(t, h, k, 0) && KeyOK(k) && forall n: nat :: Goes(t, k, 0, n)
    ensures Endless(Trees(t, k), Heights(t, h, k), k)
  {
    NthStart(t, h, k);
    forall i: nat
      ensures Restart(Trees(t, k)(i), Trees(t, k)(i + 1), k)
      ensures Heights(t, h, k)(i + 1) == HeightAfter(Trees(t, k)(i), Heights(t, h, k)(i))
    {
      NthStep(t, h, k, i);
    }
  }

  lemma {:induction false} SomeStop(t: Tree, h: nat, k: Str)
    requires NthOrder(t, h, k, 0) && KeyOK(k)
    ensures exists n: nat :: Stops(Nth(t, k, n), k)
  {
    if forall n: nat :: !Stops(Nth(t, k, n), k) {
      NeverStops(t, h, k);
      NotEndless(Trees(t, k), Heights(t, h, k), k);
    }
  }

  lemma {:induction false} FirstStop(t: Tree, k: Str, m: nat) returns (n: nat)
    requires Stops(Nth(t, k, m), k)
    ensures Stops(Nth(t, k, n), k) && forall i: nat | i < n :: !Stops(Nth(t, k, i), k)
  {
    if i: nat :| i < m && Stops(Nth(t, k, i), k) {
      n := FirstStop(t, k, i);
    } else {
      n := m;
    }
  }

  /** Whether the leaf for the key is doomed after n traversals. */
  predicate NthDoomed(t: Tree, k: Str, n: nat) { Shaped(Nth(t, k, n)) && Doomed(LeafFor(Nth(t, k, n), k), k) }

  lemma {:induction false} DoomOneMore(t: Tree, h: nat, k: Str, n: nat)
    requires KeyOK(k) && !Stops(Nth(t, k, n), k) && NthOrder(t, h, k, n)
    ensures NthDoomed(t, k, n + 1) <==> NthDoomed(t, k, n)
  {
    RestartKeepsDoom(Nth(t, k, n), k, NthHeight(t, h, k, n));
  }

  lemma {:induction false} NthDoom(t: Tree, h: nat, k: Str, n: nat, m: nat)
    requires NthOrder(t, h, k, n) && KeyOK(k) && n <= m && Goes(t, k, n, m)
    ensures NthDoomed(t, k, m) <==> NthDoomed(t, k, n)
    decreases m - n
  {
    if n < m {
      NthOneMore(t, h, k, n);
      DoomOneMore(t, h, k, n);
      NthDoom(t, h, k, n + 1, m);
    }
  }

  /**
    find_leaf ends: from every tree in order, of any height, and for every key, after finitely
    many restarts a traversal reaches the leaf or fails an assertion of node_split; and it
    fails if and only if the leaf for the key was doomed before the first of them.
  */
  lemma {:induction false} FindLeafEnds(t: Tree, h: nat, k: Str) returns (n: nat)
    requires Inv(t, h, None, None, true) && KeyOK(k)
    ensures Shaped(t) && Stops(Nth(t, k, n), k)
    ensures forall i: nat | i < n :: Restart(Nth(t, k, i), Nth(t, k, i + 1), k)
    ensures Traverse(Nth(t, k, n), k).Abort? <==> Doomed(LeafFor(t, k), k)
    ensures Traverse(Nth(t, k, n), k).Found? <==> !Doomed(LeafFor(t, k), k)
  {
    InvShaped(t, h, None, None, true);
    SomeStop(t, h, k);
    var m: nat :| Stops(Nth(t, k, m), k);
    n := FirstStop(t, k, m);
    forall i: nat | i < n
      ensures Restart(Nth(t, k, i), Nth(t, k, i + 1), k)
    {
      NthRestarts(t, h, k, i);
    }
    EndsByDoom(t, h, k, n);
  }

  lemma {:induction false} EndsByDoom(t: Tree, h: nat, k: Str, n: nat)
    requires NthOrder(t, h, k, 0) && KeyOK(k) && Goes(t, k, 0, n) && Stops(Nth(t, k, n), k)
    ensures Shaped(t) && (Traverse(Nth(t, k, n), k).Abort? <==> Doomed(LeafFor(t, k), k))
  {
    NthInOrder(t, h, k, 0, n);
    NthDoom(t, h, k, 0, n);
    StopsByDoom(Nth(t, k, n), k, NthHeight(t, h, k, n));
  }
}
