/**
  Where the tree's promises end, first part: node_split's assertion fails in an ordinary run, and
  when a split overflows the parent.
*/
module BzTreeLimits {
  import opened BzKeys
  import opened BzSmo
  import opened BzTree
  import opened BzTreeInv
  import opened BzTreeSmo
  import opened BzTreeSteps
  import opened BzTreeTraverse
  import opened BzTreeRuns

  // ---- Five operations after which every write fails ----

  const A: Str := [97]
  const B: Str := [98]

  function Text(n: nat): (v: Str)
    ensures |v| == n && Clean(v)
  {
    seq(n, _ => 120)
  }

  function State(k: nat): Tree {
    if k == 0 then L(Leaf([], 0))
    else if k == 1 then L(Leaf([Rec(A, Text(27))], 0))
    else if k == 2 then L(Leaf([Rec(A, Text(27))], 30))
    else if k == 3 then L(Leaf([Rec(A, Text(37))], 60))
    else if k == 4 then L(Leaf([Rec(A, Text(37)), Rec(B, Text(35))], 60))
    else L(Leaf([Rec(A, Text(37)), Rec(B, Text(37))], 98))
  }

  const Ops: seq<Label> :=
    [Insert(A, Text(27)), Update(A, Text(27)), Update(A, Text(37)), Insert(B, Text(35)), Update(B, Text(37))]

  lemma LiveTwo(x: Rec, y: Rec)
    ensures Live([x]) == META + Block(x) && Live([x, y]) == 2 * META + Block(x) + Block(y)
  {
    assert [x][..0] == [] && [x, y][..1] == [x];
  }

  lemma OpsAreSteps(k: nat)
    requires k < 5
    ensures Can(State(k), Ops[k]) && State(k + 1) == After(State(k), Ops[k])
  {
    LiveTwo(Rec(A, Text(27)), Rec(B, Text(35)));
    LiveTwo(Rec(A, Text(37)), Rec(B, Text(35)));
    assert A[0] != B[0];
    if k == 0 {
      assert [] + [Rec(A, Text(27))] == [Rec(A, Text(27))];
    } else if k == 1 || k == 2 {
      assert IndexOf(State(k).leaf.recs, A) == 0;
    } else if k == 3 {
      assert [Rec(A, Text(37))][1..] == [];
      assert IndexOf(State(k).leaf.recs, B) == 1;
    } else {
      assert State(k).leaf.recs[1..] == [Rec(B, Text(35))];
      assert IndexOf(State(k).leaf.recs, B) == 1;
    }
  }

  /** A reachable tree in which two records and 98 deleted bytes fill the root: its split asserts. */
  lemma SplitCanFail(k: Str)
    ensures exists run :: IsRun(run, Ops) && Shaped(run[5]) && Traverse(run[5], k) == Abort
  {
    var run := seq(6, i requires 0 <= i < 6 => State(i));
    forall i | 0 <= i < 5
      ensures StepAt(run, Ops, i)
    {
      OpsAreSteps(i);
    }
    var recs := [Rec(A, Text(37)), Rec(B, Text(37))];
    LiveTwo(recs[0], recs[1]);
    FewRecords(recs);
    assert IsRun(run, Ops) && run[5] == State(5);
  }

  lemma FewRecords(recs: seq<Rec>)
    requires |recs| == 2 && recs[0].key != recs[1].key
    ensures Halves(L(Leaf(recs, 98))) == None
  {
    SortFacts(recs);
  }

  // ---- Space in the parent ----

  /** The parent overflows exactly if the new keys, less the old one, leave no room for 17 bytes more. */
  lemma SplitOverflows(es: seq<Entry>, i: nat, a: Entry, b: Entry)
    requires i < |es|
    ensures InnerUsed(SplitAt(es, i, (a, b))) > BODY <==> Free(N(es)) + |es[i].sep| < |a.sep| + |b.sep| + 17
  {
    assert es[i..i + 1] == [es[i]];
    UsedSplice(es, i, i + 1, [a, b]);
    UsedTwo(a, b);
    UsedOne(es[i]);
  }
}
