/**
  Keys longer than 15 bytes: a run of inserts in which the split of a leaf makes the root larger than a
  node. Every record takes 48 bytes; keys come in ascending order, so that the last leaf is written.
*/
module BzTreeLong {
  import opened BzKeys
  import opened BzSmo
  import opened BzTree
  import opened BzTreeInv
  import opened BzTreeSmo
  import opened BzTreeTraverse
  import opened BzTreeRuns
  import opened BzTreeLimits

  /** Keys of 38 bytes, the longest that insert accepts, with an empty value. */
  function Long(c: Byte): Rec
    requires c != 0
  {
    Rec([c] + Text(37), [])
  }

  function Short(c: Byte): Rec
    requires c != 0
  {
    Rec([c], Text(37))
  }

  /** A record of 48 bytes whose key starts with c. */
  predicate Is48(r: Rec, c: Byte) {
    r.key != [] && r.key[0] == c && Clean(r.key) && Clean(r.val) && |r.key| + |r.val| == 38
  }

  /** Such records, with ascending first bytes from c on. */
  predicate Ascend(recs: seq<Rec>, c: Byte) {
    c + |recs| <= 256 && forall i | 0 <= i < |recs| :: Is48(recs[i], c + i)
  }

  lemma {:induction false} AscendLive(recs: seq<Rec>, c: Byte)
    requires Ascend(recs, c)
    ensures Live(recs) == 48 * |recs|
  {
    if recs != [] { AscendLive(recs[..|recs| - 1], c); }
  }

  lemma AscendSorted(recs: seq<Rec>, c: Byte)
    requires Ascend(recs, c)
    ensures Sorted(recs) && Distinct(recs) && Sort(recs) == recs
  {
    SortedDistinct(recs);
    SortFacts(recs);
    SameHead(Sort(recs), recs);
  }

  lemma NewKey(recs: seq<Rec>, c: Byte, r: Rec)
    requires Ascend(recs + [r], c)
    ensures IndexOf(recs, r.key) == |recs|
  {
    assert (recs + [r])[|recs|] == r;
    forall i | 0 <= i < |recs|
      ensures recs[i].key != r.key
    {
      assert (recs + [r])[i] == recs[i];
    }
  }

  // ---- The root and its last leaf ----

  function Wide(pre: seq<Entry>, sep: Str, recs: seq<Rec>): Tree { N(pre + [Entry(sep, L(Leaf(recs, 0)))]) }

  /** Leaves with keys below c, the last of them with three records; and a root that need not be split. */
  predicate Before(pre: seq<Entry>, sep: Str, c: Byte) {
    && pre != [] && (forall i | 0 <= i < |pre| :: pre[i].child.L? && pre[i].sep != [] && pre[i].sep[0] < c)
    && TreeUsed(pre[|pre| - 1].child) == 144
    && InnerUsed(pre) + 17 + |sep| <= BODY - MIN_FREE
  }

  lemma {:induction false} RouteLast(es: seq<Entry>, k: Str)
    requires es != [] && k != [] && forall i | 0 <= i < |es| - 1 :: es[i].sep != [] && es[i].sep[0] < k[0]
    ensures Route(es, k) == |es| - 1
    decreases |es|
  {
    if |es| > 1 { RouteLast(es[1..], k); }
  }

  lemma WideFacts(pre: seq<Entry>, sep: Str, recs: seq<Rec>, c: Byte, k: Str)
    requires Before(pre, sep, c) && Ascend(recs, c) && k != [] && k[0] >= c && |recs| >= 2
    ensures var es := Wide(pre, sep, recs).entries;
            && Shaped(N(es)) && Route(es, k) == |pre| && es[|pre|] == Entry(sep, L(Leaf(recs, 0)))
            && Free(N(es)) >= MIN_FREE && !Mergeable(es, |pre| - 1) && !Mergeable(es, |pre|)
  {
    var es := Wide(pre, sep, recs).entries;
    RouteLast(es, k);
    AscendLive(recs, c);
    UsedAppend(pre, [es[|pre|]]);
    UsedOne(es[|pre|]);
    assert es[|pre| - 1] == pre[|pre| - 1];
  }

  lemma AscendFront(recs: seq<Rec>, r: Rec, c: Byte)
    requires Ascend(recs + [r], c)
    ensures Ascend(recs, c) && Is48(r, c + |recs|)
  {
    assert (recs + [r])[|recs|] == r;
    forall i | 0 <= i < |recs| ensures Is48(recs[i], c + i) { assert (recs + [r])[i] == recs[i]; }
  }

  lemma WideInsertStep(pre: seq<Entry>, sep: Str, recs: seq<Rec>, c: Byte, r: Rec)
    requires Before(pre, sep, c) && Ascend(recs + [r], c) && 2 <= |recs| <= 4
    ensures var l := Label.Insert(r.key, r.val);
            Can(Wide(pre, sep, recs), l) && After(Wide(pre, sep, recs), l) == Wide(pre, sep, recs + [r])
  {
    AscendFront(recs, r, c);
    WideFacts(pre, sep, recs, c, r.key);
    AscendLive(recs, c);
    NewKey(recs, c, r);
    var t, es := Wide(pre, sep, recs), Wide(pre, sep, recs).entries;
    assert LeafFor(t, r.key) == Leaf(recs, 0);
    assert !Present(t, r.key);
    var l := Leaf(recs + [r], 0);
    assert Inserted(Leaf(recs, 0), r.key, r.val) == l;
    assert WithLeaf(es[|pre|].child, r.key, l) == L(l);
    assert WithLeaf(t, r.key, l) == N(es[|pre| := Entry(sep, L(l))]);
    assert es[|pre| := Entry(sep, L(Leaf(recs + [r], 0)))] == Wide(pre, sep, recs + [r]).entries;
  }

  lemma WideInsert(pre: seq<Entry>, sep: Str, recs: seq<Rec>, c: Byte, r: Rec, ls: seq<Label>)
    requires Before(pre, sep, c) && Ascend(recs + [r], c) && 2 <= |recs| <= 4 && Reached(Wide(pre, sep, recs), ls)
    ensures Reached(Wide(pre, sep, recs + [r]), ls + [Label.Insert(r.key, r.val)])
  {
    WideInsertStep(pre, sep, recs, c, r);
    OneMore(Wide(pre, sep, recs), ls, Label.Insert(r.key, r.val));
  }

  /** The split of the last leaf when it holds five records. */
  lemma WideSplit(pre: seq<Entry>, sep: Str, recs: seq<Rec>, c: Byte, k: Str, ls: seq<Label>)
    requires Before(pre, sep, c) && Ascend(recs, c) && |recs| == 5 && Clean(k) && k != [] && k[0] >= c
    requires Reached(Wide(pre, sep, recs), ls) && Pivot(KeySizes(recs)) == Some(3)
    ensures var t := N(pre + [Entry(recs[2].key, L(Leaf(recs[..3], 0))), Entry(recs[4].key, L(Leaf(recs[3..], 0)))]);
            Reached(t, ls + [Restructure(k)])
  {
    WideFacts(pre, sep, recs, c, k);
    AscendLive(recs, c);
    AscendSorted(recs, c);
    var es := Wide(pre, sep, recs).entries;
    assert es[..|pre|] == pre && es[|pre| + 1..] == [];
    OneMore(N(es), ls, Restructure(k));
  }

  // ---- The run ----

  function Put(r: Rec): Label { Label.Insert(r.key, r.val) }

  /** Where five records are split. */
  lemma AfterThree(sizes: seq<nat>)
    requires |sizes| == 5 && var total := sizes[0] + sizes[1] + sizes[2] + sizes[3] + sizes[4];
             2 * (sizes[0] + sizes[1]) <= total < 2 * (sizes[0] + sizes[1] + sizes[2])
    ensures Pivot(sizes) == Some(3)
  {
    assert Sum(sizes, 1) == sizes[0];
    assert Sum(sizes, 2) == sizes[0] + sizes[1];
    assert Sum(sizes, 3) == sizes[0] + sizes[1] + sizes[2];
    assert Sum(sizes, 4) == Sum(sizes, 3) + sizes[3];
    assert Sum(sizes, 5) == Sum(sizes, 4) + sizes[4];
    HalfUnique(sizes, 1, 3);
  }

  lemma RootInsert(recs: seq<Rec>, r: Rec, ls: seq<Label>)
    requires Ascend(recs + [r], 1) && |recs| <= 4 && Reached(L(Leaf(recs, 0)), ls)
    ensures Reached(L(Leaf(recs + [r], 0)), ls + [Put(r)])
  {
    AscendFront(recs, r, 1);
    AscendLive(recs, 1);
    NewKey(recs, 1, r);
    OneMore(L(Leaf(recs, 0)), ls, Put(r));
  }

  const FirstOps: seq<Label> :=
    [Put(Long(1)), Put(Long(2)), Put(Long(3)), Put(Long(4)), Put(Short(5)), Restructure(Long(6).key)]

  const FirstRecs: seq<Rec> := [Long(1), Long(2), Long(3), Long(4), Short(5)]

  lemma FirstPrefix(i: nat)
    requires i < 5
    ensures FirstRecs[..i + 1] == FirstRecs[..i] + [FirstRecs[i]] && Ascend(FirstRecs[..i + 1], 1)
    ensures FirstOps[..i + 1] == FirstOps[..i] + [Put(FirstRecs[i])]
  {
  }

  lemma {:induction false} RootFilled(i: nat)
    requires i <= 5
    ensures Reached(L(Leaf(FirstRecs[..i], 0)), FirstOps[..i])
  {
    if i == 0 {
      NoSteps();
    } else {
      RootFilled(i - 1);
      var recs := FirstRecs[..i - 1];
      FirstPrefix(i - 1);
      RootInsert(recs, FirstRecs[i - 1], FirstOps[..i - 1]);
    }
  }

  /** Three records whose separator has 38 bytes. */
  function Old(a: Rec, b: Rec, c: Rec): Entry { Entry(c.key, L(Leaf([a, b, c], 0))) }

  const First: seq<Entry> := [Old(Long(1), Long(2), Long(3))]

  lemma FirstHalves()
    ensures Free(L(Leaf(FirstRecs, 0))) == 0
    ensures Halves(L(Leaf(FirstRecs, 0))) == Some((First[0], Entry([5], L(Leaf([Long(4), Short(5)], 0)))))
  {
    AscendLive(FirstRecs, 1);
    AscendSorted(FirstRecs, 1);
    AfterThree(KeySizes(FirstRecs));
    assert FirstRecs[..3] == [Long(1), Long(2), Long(3)] && FirstRecs[3..] == [Long(4), Short(5)];
  }

  lemma RootSplit()
    ensures Reached(Wide(First, [5], [Long(4), Short(5)]), FirstOps)
  {
    RootFilled(5);
    FirstHalves();
    assert FirstRecs[..5] == FirstRecs && FirstOps == FirstOps[..5] + [Restructure(Long(6).key)];
    assert Wide(First, [5], [Long(4), Short(5)]).entries == [First[0], Entry([5], L(Leaf([Long(4), Short(5)], 0)))];
    OneMore(L(Leaf(FirstRecs, 0)), FirstOps[..5], Restructure(Long(6).key));
  }

  function Round(c: Byte, last: Rec): seq<Label>
    requires 0 < c < 200
  {
    [Put(Long(c + 2)), Put(Long(c + 3)), Put(last)]
  }

  /** Three more records, the last of them with a long key or a short one. */
  lemma Fill(pre: seq<Entry>, c: Byte, last: Rec, ls: seq<Label>)
    requires 0 < c < 200 && Before(pre, [c + 1], c) && (last == Short(c + 4) || last == Long(c + 4))
    requires Reached(Wide(pre, [c + 1], [Long(c), Short(c + 1)]), ls)
    ensures Reached(Wide(pre, [c + 1], [Long(c), Short(c + 1), Long(c + 2), Long(c + 3), last]), ls + Round(c, last))
  {
    var recs := [Long(c), Short(c + 1)];
    assert recs + [Long(c + 2)] == [Long(c), Short(c + 1), Long(c + 2)];
    WideInsert(pre, [c + 1], recs, c, Long(c + 2), ls);
    FillMore(pre, c, last, ls + [Put(Long(c + 2))]);
    assert ls + [Put(Long(c + 2))] + [Put(Long(c + 3))] + [Put(last)] == ls + Round(c, last);
  }

  lemma FillMore(pre: seq<Entry>, c: Byte, last: Rec, ls: seq<Label>)
    requires 0 < c < 200 && Before(pre, [c + 1], c) && (last == Short(c + 4) || last == Long(c + 4))
    requires Reached(Wide(pre, [c + 1], [Long(c), Short(c + 1), Long(c + 2)]), ls)
    ensures Reached(Wide(pre, [c + 1], [Long(c), Short(c + 1), Long(c + 2), Long(c + 3), last]), ls + [Put(Long(c + 3))] + [Put(last)])
  {
    var recs := [Long(c), Short(c + 1), Long(c + 2)];
    assert recs + [Long(c + 3)] == [Long(c), Short(c + 1), Long(c + 2), Long(c + 3)];
    WideInsert(pre, [c + 1], recs, c, Long(c + 3), ls);
    assert recs + [Long(c + 3)] + [last] == [Long(c), Short(c + 1), Long(c + 2), Long(c + 3), last];
    WideInsert(pre, [c + 1], recs + [Long(c + 3)], c, last, ls + [Put(Long(c + 3))]);
  }

  /** A short last key, and the split: one more leaf under a long separator. */
  lemma OneMoreLeaf(pre: seq<Entry>, c: Byte, ls: seq<Label>)
    requires 0 < c < 200 && Before(pre, [c + 1], c) && Reached(Wide(pre, [c + 1], [Long(c), Short(c + 1)]), ls)
    ensures var more := pre + [Old(Long(c), Short(c + 1), Long(c + 2))];
            Reached(Wide(more, [c + 4], [Long(c + 3), Short(c + 4)]), ls + Round(c, Short(c + 4)) + [Restructure(Long(c + 5).key)])
  {
    var recs := [Long(c), Short(c + 1), Long(c + 2), Long(c + 3), Short(c + 4)];
    Fill(pre, c, Short(c + 4), ls);
    AfterThree(KeySizes(recs));
    WideSplit(pre, [c + 1], recs, c, Long(c + 5).key, ls + Round(c, Short(c + 4)));
    assert recs[..3] == [Long(c), Short(c + 1), Long(c + 2)] && recs[3..] == [Long(c + 3), Short(c + 4)];
    var e := Old(Long(c), Short(c + 1), Long(c + 2));
    assert pre + [e, Entry([c + 4], L(Leaf(recs[3..], 0)))] == pre + [e] + [Entry([c + 4], L(Leaf(recs[3..], 0)))];
  }

  // ---- The overflow ----

  const Second: seq<Entry> := First + [Old(Long(4), Short(5), Long(6))]

  const Third: seq<Entry> := Second + [Old(Long(7), Short(8), Long(9))]

  const LastRecs: seq<Rec> := [Long(10), Short(11), Long(12), Long(13), Long(14)]

  function LongOps(): seq<Label> {
    FirstOps + Round(4, Short(8)) + [Restructure(Long(9).key)] + Round(7, Short(11)) + [Restructure(Long(12).key)] + Round(10, Long(14))
  }

  lemma PreUsed()
    ensures InnerUsed(First) == 55 && InnerUsed(Second) == 110 && InnerUsed(Third) == 165
  {
    UsedOne(First[0]);
    UsedOne(Second[1]);
    UsedOne(Third[2]);
    UsedAppend(First, [Second[1]]);
    UsedAppend(Second, [Third[2]]);
  }

  lemma OldUsed(c: Byte)
    requires 0 < c < 200
    ensures TreeUsed(Old(Long(c), Short(c + 1), Long(c + 2)).child) == 144
  {
    AscendLive([Long(c), Short(c + 1), Long(c + 2)], c);
  }

  lemma PreBefore()
    ensures Before(First, [5], 4) && Before(Second, [8], 7) && Before(Third, [11], 10)
  {
    PreUsed();
    AscendLive([Long(1), Long(2), Long(3)], 1);
    OldUsed(4);
    OldUsed(7);
  }

  lemma ThirdFilled()
    ensures Reached(Wide(Third, [11], LastRecs), LongOps())
  {
    PreBefore();
    RootSplit();
    OneMoreLeaf(First, 4, FirstOps);
    OneMoreLeaf(Second, 7, FirstOps + Round(4, Short(8)) + [Restructure(Long(9).key)]);
    Fill(Third, 10, Long(14),
         FirstOps + Round(4, Short(8)) + [Restructure(Long(9).key)] + Round(7, Short(11)) + [Restructure(Long(12).key)]);
  }

  /** The split of the last leaf replaces a separator of one byte by two of 38. */
  lemma LastOverflows(k: Str)
    requires k != [] && k[0] > 10
    ensures Shaped(Wide(Third, [11], LastRecs)) && TreeUsed(Wide(Third, [11], LastRecs)) == 183
    ensures Traverse(Wide(Third, [11], LastRecs), k).Changed?
    ensures TreeUsed(Traverse(Wide(Third, [11], LastRecs), k).t) == 275
  {
    PreBefore();
    PreUsed();
    WideFacts(Third, [11], LastRecs, 10, k);
    AscendLive(LastRecs, 10);
    AscendSorted(LastRecs, 10);
    AfterThree(KeySizes(LastRecs));
    var es := Wide(Third, [11], LastRecs).entries;
    var (a, b) := Halves(es[3].child).value;
    UsedOne(es[3]);
    UsedAppend(Third, [es[3]]);
    UsedTwo(a, b);
    UsedAppend(Third, [a, b]);
    assert es[..3] == Third && es[4..] == [];
    assert SplitAt(es, 3, (a, b)) == Third + [a, b];
  }

  /** All operations are inserts of records that insert accepts. */
  predicate Inserts(ls: seq<Label>) {
    forall i | 0 <= i < |ls| :: ls[i].Restructure? || (ls[i].Insert? && |ls[i].k| + |ls[i].v| + 10 <= 48)
  }

  /**
    A run of inserts, none of them under way at the end, all with keys that insert accepts. The
    traversal of the next insert makes the root larger than a node.
  */
  lemma LongKeysOverflow()
    ensures exists run, ls ::
              && IsRun(run, ls) && WholeCalls(ls) && Inserts(ls)
              && Shaped(run[|ls|]) && TreeUsed(run[|ls|]) == 183
              && Traverse(run[|ls|], Long(15).key).Changed? && TreeUsed(Traverse(run[|ls|], Long(15).key).t) == 275
  {
    ThirdFilled();
    LastOverflows(Long(15).key);
    var ls := LongOps();
    var run :| IsRun(run, ls) && run[|ls|] == Wide(Third, [11], LastRecs);
    LongOpsWhole();
  }

  lemma LongOpsWhole()
    ensures WholeCalls(LongOps()) && Inserts(LongOps())
  {
  }
}
