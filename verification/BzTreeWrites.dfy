/** Which writes of a run get through, and an input whose write fails only at the second traversal. */
module BzTreeWrites {
  import opened BzKeys
  import opened BzSmo
  import opened BzTree
  import opened BzTreeInv
  import opened BzTreeSmo
  import opened BzTreeSteps
  import opened BzTreeTraverse
  import opened BzTreeRuns
  import opened BzTreeRestart
  import opened BzTreeDoomed
  import opened BzTreeEnds
  import opened BzTreeLimits

  /**
    In every state of every run without erase: a write for k restarts finitely often, each time
    with a step of the tree, and then it can be performed if and only if the leaf for k was not
    doomed.
  */
  lemma WritesGetThrough(run: seq<Tree>, ls: seq<Label>, i: nat, k: Str, v: Str) returns (n: nat)
    requires IsRun(run, ls) && Covered(run, ls, true) && i < |run| && KeyOK(k) && Clean(v) && |k| + |v| + 10 <= 48
    ensures forall j: nat | j < n :: RestartStep(Nth(run[i], k, j), Nth(run[i], k, j + 1), k)
    ensures Shaped(run[i]) && !Can(Nth(run[i], k, n), Restructure(k))
    ensures Can(Nth(run[i], k, n), Label.Insert(k, v)) <==> !Doomed(LeafFor(run[i], k), k)
    ensures Can(Nth(run[i], k, n), Label.Update(k, v)) <==> !Doomed(LeafFor(run[i], k), k)
  {
    RunKeeps(run, ls, true, i);
    n := FindLeafEnds(run[i], HeightAt(run, ls, i), k);
    forall j: nat | j < n
      ensures RestartStep(Nth(run[i], k, j), Nth(run[i], k, j + 1), k)
    {
      assert Restart(Nth(run[i], k, j), Nth(run[i], k, j + 1), k);
    }
  }

  /** A traversal for k that starts over, as a step of the tree. */
  predicate RestartStep(t: Tree, t': Tree, k: Str) { Can(t, Restructure(k)) && After(t, Restructure(k)) == t' }

  // ---- A leaf that can be split, but whose half cannot ----

  const Middle: Str := [5] + Text(14)

  const Filled: seq<Rec> :=
    [ Rec(Middle, []), Rec([6], []), Rec([7], []),
      Rec([1], Text(37)), Rec([2], Text(37)), Rec([3], Text(37)), Rec([4], Text(37)) ]

  const Ordered: seq<Rec> :=
    [ Rec([1], Text(37)), Rec([2], Text(37)), Rec([3], Text(37)), Rec([4], Text(37)),
      Rec(Middle, []), Rec([6], []), Rec([7], []) ]

  lemma FilledSorts()
    ensures Distinct(Filled) && Sort(Filled) == Ordered
  {
    assert Middle[0] == 5;
    assert Sorted(Ordered);
    forall x
      ensures x in Filled <==> x in Ordered
    {
    }
    SortFacts(Filled);
    SameHead(Sort(Filled), Ordered);
  }

  lemma LiveNext(recs: seq<Rec>, i: nat)
    requires i < |recs|
    ensures Live(recs[..i + 1]) == Live(recs[..i]) + META + Block(recs[i])
  {
    assert recs[..i + 1][..i] == recs[..i];
  }

  lemma FilledUsed()
    ensures Live(Filled[..3]) == 47 && Live(Filled[..4]) == 95 && Live(Filled[..5]) == 143 && Live(Filled[..6]) == 191
    ensures Live(Filled[..0]) == 0 && Live(Filled[..1]) == 25 && Live(Filled[..2]) == 36 && Live(Filled[..7]) == 239
  {
    LiveNext(Filled, 0);
    LiveNext(Filled, 1);
    LiveNext(Filled, 2);
    LiveNext(Filled, 3);
    LiveNext(Filled, 4);
    LiveNext(Filled, 5);
    LiveNext(Filled, 6);
  }

  function Filling(i: nat): Tree
    requires i <= 7
  {
    L(Leaf(Filled[..i], 0))
  }

  lemma FillStep(i: nat)
    requires i < 7
    ensures var l := Label.Insert(Filled[i].key, Filled[i].val);
            Can(Filling(i), l) && After(Filling(i), l) == Filling(i + 1)
  {
    FilledUsed();
    NewKey(i);
    assert Filled[..i + 1] == Filled[..i] + [Filled[i]];
  }

  lemma NewKey(i: nat)
    requires i < 7
    ensures IndexOf(Filled[..i], Filled[i].key) == i
  {
    FilledSorts();
  }

  lemma FourTwos(sizes: seq<nat>)
    requires |sizes| >= 4 && sizes[0] == sizes[1] == sizes[2] == sizes[3] == 2
    ensures Sum(sizes, 4) == 8
  {
    assert Sum(sizes, 1) == 2;
    assert Sum(sizes, 2) == 4;
    assert Sum(sizes, 3) == 6;
  }

  /** The whole leaf is split after five records. */
  lemma FilledHalves()
    ensures Halves(L(Leaf(Filled, 0))) ==
            Some((Entry(Middle, L(Leaf(Ordered[..5], 0))), Entry([7], L(Leaf(Ordered[5..], 0)))))
  {
    FilledSorts();
    var sizes := KeySizes(Ordered);
    assert sizes == [2, 2, 2, 2, 16, 2, 2];
    FourTwos(sizes);
    assert Sum(sizes, 5) == 24 && Sum(sizes, 6) == 26 && Sum(sizes, 7) == 28;
    assert IsHalf(sizes, 5);
    HalfUnique(sizes, 1, 5);
  }

  /** Its left half is overfull, and its last key is longer than all others together. */
  lemma LeftHalf()
    ensures Live(Ordered[..5]) == 217 && Halves(L(Leaf(Ordered[..5], 0))) == None
  {
    var left := Ordered[..5];
    LiveNext(Ordered, 0);
    LiveNext(Ordered, 1);
    LiveNext(Ordered, 2);
    LiveNext(Ordered, 3);
    LiveNext(Ordered, 4);
    assert Middle[0] == 5;
    assert Sorted(left);
    SortedDistinct(left);
    SortFacts(left);
    SameHead(Sort(left), left);
    assert KeySizes(left) == [2, 2, 2, 2, 16];
    FourTwos(KeySizes(left));
    PivotExists(KeySizes(left));
  }

  const Fills: seq<Label> := seq(7, i requires 0 <= i < 7 => Label.Insert(Filled[i].key, Filled[i].val)) + [Restructure([1])]

  const Split: Tree := N([Entry(Middle, L(Leaf(Ordered[..5], 0))), Entry([7], L(Leaf(Ordered[5..], 0)))])

  lemma FirstTraversal()
    ensures Filled[..7] == Filled && Traverse(Filling(7), [1]) == Changed(Split)
  {
    FilledUsed();
    FilledHalves();
    assert Filled[..7] == Filled;
  }

  lemma SecondTraversal()
    ensures Shaped(Split) && Traverse(Split, [1]) == Abort
  {
    LeftHalf();
    UsedTwo(Split.entries[0], Split.entries[1]);
    assert Middle[0] == 5;
    assert Route(Split.entries, [1]) == 0;
  }

  lemma RightHalf()
    ensures Live(Ordered[5..]) == 22
  {
    var right := Ordered[5..];
    LiveNext(right, 0);
    LiveNext(right, 1);
    assert right[..2] == right;
  }

  /** The leaf is doomed for its first keys, and not for its last. */
  lemma FilledIsDoomed()
    ensures Doomed(Leaf(Filled, 0), [1]) && !Doomed(Leaf(Filled, 0), [7])
  {
    FilledUsed();
    assert Filled[..7] == Filled;
    FilledHalves();
    LeftHalf();
    RightHalf();
    assert Middle[0] == 5;
    assert HalfFor(Leaf(Filled, 0), [1]) == Leaf(Ordered[..5], 0);
    assert HalfFor(Leaf(Filled, 0), [7]) == Leaf(Ordered[5..], 0);
  }

  function FillRun(): seq<Tree> { seq(9, i requires 0 <= i < 9 => if i < 8 then Filling(i) else Split) }

  lemma FillRunIsRun()
    ensures IsRun(FillRun(), Fills)
  {
    FirstTraversal();
    forall i | 0 <= i < 8
      ensures StepAt(FillRun(), Fills, i)
    {
      if i < 7 { FillStep(i); }
    }
  }

  /**
    Seven inserts after which the leaf can be split, and is; the half for the key is still
    overfull, and its split asserts.
  */
  lemma FailsLater()
    ensures exists run ::
              && IsRun(run, Fills) && run[7] == L(Leaf(Filled, 0)) && Halves(run[7]).Some?
              && Shaped(run[8]) && Traverse(run[8], [1]) == Abort
    ensures Doomed(Leaf(Filled, 0), [1]) && !Doomed(Leaf(Filled, 0), [7])
  {
    FillRunIsRun();
    FilledIsDoomed();
    FilledHalves();
    SecondTraversal();
    assert Filled[..7] == Filled;
    assert FillRun()[7] == L(Leaf(Filled, 0)) && FillRun()[8] == Split;
  }
}
