/**
  A run with erase in which the tree loses a key: 60 is erased and inserted again, and a later
  split of the inner node above it goes by a separator that has become 55 in the meantime.
*/
module BzTreeErase {
  import opened BzKeys
  import opened BzSmo
  import opened BzTree
  import opened BzTreeInv
  import opened BzTreeRuns
  import opened BzTreeToy

  /** From the empty tree the operations lead to t. */
  ghost predicate LeadTo(ops: seq<TOp>, t: Toy) { TShaped(t) && TRun(TL([], 0), ops) == Some(t) }

  lemma {:induction false} RunOneMore(t: Toy, ops: seq<TOp>, op: TOp)
    requires TShaped(t) && TRun(t, ops).Some?
    ensures TRun(t, ops + [op]) == TStep(TRun(t, ops).value, op)
    decreases |ops|
  {
    if ops == [] {
      assert ([] + [op])[1..] == [];
    } else {
      assert (ops + [op])[1..] == ops[1..] + [op];
      RunOneMore(TStep(t, ops[0]).value, ops[1..], op);
    }
  }

  lemma Then(ops: seq<TOp>, t: Toy, op: TOp, t': Toy)
    requires LeadTo(ops, t) && TStep(t, op) == Some(t')
    ensures LeadTo(ops + [op], t')
  {
    RunOneMore(TL([], 0), ops, op);
  }

  // ---- What a traversal does, level by level ----

  predicate RoutesTo(es: seq<Twig>, k: Num, i: nat) {
    i < |es| && (forall j | 0 <= j < i :: es[j].sep < k) && (i < |es| - 1 ==> es[i].sep >= k)
  }

  lemma {:induction false} RouteAt(es: seq<Twig>, k: Num, i: nat)
    requires RoutesTo(es, k, i)
    ensures TRoute(es, k) == i
  {
    if i > 0 {
      assert forall j | 0 <= j < |es| - 1 :: es[1..][j] == es[j + 1];
      RouteAt(es[1..], k, i - 1);
    }
  }

  predicate Fine(es: seq<Twig>, i: nat)
    requires i < |es|
  {
    TDel(es[i].kid) <= 100 && TUsed(es[i].kid) <= 192 && !(i > 0 && TMergeable(es, i - 1)) && !TMergeable(es, i)
  }

  function Lift(es: seq<Twig>, i: nat, o: TOutcome): TOutcome
    requires i < |es|
  {
    if o.TChanged? then TChanged(TN(es[i := Twig(es[i].sep, o.t)])) else o
  }

  lemma {:induction false} GoDown(es: seq<Twig>, k: Num, i: nat)
    requires TShaped(TN(es)) && RoutesTo(es, k, i) && Fine(es, i)
    ensures TBelow(es, k) == if es[i].kid.TL? then TFound else Lift(es, i, TBelow(es[i].kid.es, k))
    ensures TLeafFor(TN(es), k) == TLeafFor(es[i].kid, k)
    ensures forall l :: TWith(TN(es), k, l) == TN(es[i := Twig(es[i].sep, TWith(es[i].kid, k, l))])
  {
    RouteAt(es, k, i);
  }

  lemma {:induction false} SplitHere(es: seq<Twig>, k: Num, i: nat)
    requires TShaped(TN(es)) && RoutesTo(es, k, i) && TDel(es[i].kid) <= 100 && TUsed(es[i].kid) > 192 && THalves(es[i].kid).Some?
    ensures var h := THalves(es[i].kid).value; TBelow(es, k) == TChanged(TN(es[..i] + [h.0, h.1] + es[i + 1..]))
  {
    RouteAt(es, k, i);
  }

  lemma {:induction false} Absent(ids: seq<Num>, k: Num)
    requires k !in ids
    ensures TIndex(ids, k) == |ids|
  {
    if ids != [] { Absent(ids[1..], k); }
  }

  // ---- Sorting ----

  predicate Ascending(s: seq<Num>) { forall i, j | 0 <= i < j < |s| :: s[i] < s[j] }

  lemma {:induction false} InsertLast(x: Num, s: seq<Num>)
    requires forall i | 0 <= i < |s| :: s[i] < x
    ensures TInsert(x, s) == s + [x]
  {
    if s != [] {
      InsertLast(x, s[1..]);
      assert s == [s[0]] + s[1..];
    }
  }

  lemma {:induction false} SortedStays(s: seq<Num>)
    requires Ascending(s)
    ensures TSort(s) == s
  {
    if s != [] {
      var n := |s| - 1;
      SortedStays(s[..n]);
      InsertLast(s[n], s[..n]);
      assert s == s[..n] + [s[n]];
    }
  }

  lemma SmallestFirst(s: seq<Num>, x: Num)
    requires TSort(s) != [] && x < TSort(s)[0]
    ensures TSort(s + [x]) == [x] + TSort(s)
  {
    assert (s + [x])[..|s|] == s;
  }

  // ---- Seven leaves ----

  /** Leaf j holds three keys. */
  function Full(j: nat): Twig
    requires j < 10
  {
    Twig(15 * j + 15, TL([15 * j + 5, 15 * j + 10, 15 * j + 15], 0))
  }

  function Fulls(n: nat): (es: seq<Twig>)
    requires n < 10
    ensures |es| == n && forall j | 0 <= j < n :: es[j] == Full(j)
  {
    seq(n, j requires 0 <= j < n => Full(j))
  }

  /** n of them, and a last leaf with two keys. */
  function Row(n: nat): seq<Twig>
    requires n < 10
  {
    Fulls(n) + [Twig(15 * n + 10, TL([15 * n + 5, 15 * n + 10], 0))]
  }

  function WithLast(n: nat, ids: seq<Num>): seq<Twig>
    requires n < 10
  {
    Fulls(n) + [Twig(15 * n + 10, TL(ids, 0))]
  }

  /** A key beyond all is inserted into the last leaf. */
  lemma {:induction false} LastInsert(ops: seq<TOp>, n: nat, ids: seq<Num>, k: Num, ids': seq<Num>)
    requires 0 < n < 6 && 2 <= |ids| <= 4 && k !in ids && k > 15 * n && LeadTo(ops, TN(WithLast(n, ids))) && ids' == ids + [k]
    ensures LeadTo(ops + [In(k)], TN(WithLast(n, ids')))
  {
    var es := WithLast(n, ids);
    assert es[n] == Twig(15 * n + 10, TL(ids, 0)) && es[n - 1] == Full(n - 1);
    GoDown(es, k, n);
    Absent(ids, k);
    assert es[n := Twig(es[n].sep, TL(ids', 0))] == WithLast(n, ids');
    Then(ops, TN(es), In(k), TN(WithLast(n, ids')));
  }

  lemma {:induction false} FiveSplit(a: Num, b: Num, c: Num, d: Num, e: Num)
    requires a < b < c < d < e
    ensures THalves(TL([a, b, c, d, e], 0)) == Some((Twig(c, TL([a, b, c], 0)), Twig(e, TL([d, e], 0))))
  {
    var s := [a, b, c, d, e];
    SortedStays(s);
    assert s[..3] == [a, b, c] && s[3..] == [d, e];
  }

  /** With five keys in it, the next traversal splits it. */
  lemma {:induction false} LastSplit(ops: seq<TOp>, n: nat, ids: seq<Num>, k: Num, l: Twig, r: Twig)
    requires 0 < n < 6 && |ids| == 5 && k > 15 * n && LeadTo(ops, TN(WithLast(n, ids)))
    requires THalves(TL(ids, 0)) == Some((l, r))
    ensures LeadTo(ops + [Re(k)], TN(Fulls(n) + [l, r]))
  {
    var es := WithLast(n, ids);
    assert es[n] == Twig(15 * n + 10, TL(ids, 0));
    SplitHere(es, k, n);
    assert es[..n] == Fulls(n) && es[n + 1..] == [];
    assert es[..n] + [l, r] + es[n + 1..] == Fulls(n) + [l, r];
    Then(ops, TN(es), Re(k), TN(Fulls(n) + [l, r]));
  }

  lemma {:induction false} RowNext(n: nat)
    requires n < 9
    ensures Fulls(n) + [Full(n), Twig(15 * n + 25, TL([15 * n + 20, 15 * n + 25], 0))] == Row(n + 1)
  {
  }

  /** The operations that make the row. */
  function Grow(n: nat): seq<TOp>
    requires 0 < n < 10
  {
    if n == 1 then [In(5), In(10), In(15), In(20), In(25), Re(30)]
    else Grow(n - 1) + [In(15 * n)] + [In(15 * n + 5)] + [In(15 * n + 10)] + [Re(15 * n + 15)]
  }

  lemma {:induction false} RootInsert(ops: seq<TOp>, ids: seq<Num>, k: Num, ids': seq<Num>)
    requires LeadTo(ops, TL(ids, 0)) && |ids| <= 4 && k !in ids && ids' == ids + [k]
    ensures LeadTo(ops + [In(k)], TL(ids', 0))
  {
    Absent(ids, k);
    Then(ops, TL(ids, 0), In(k), TL(ids', 0));
  }

  lemma RootSplit(ops: seq<TOp>)
    requires LeadTo(ops, TL([5, 10, 15, 20, 25], 0))
    ensures LeadTo(ops + [Re(30)], TN(Row(1)))
  {
    FiveSplit(5, 10, 15, 20, 25);
    RowNext(0);
    assert [Full(0), Twig(25, TL([20, 25], 0))] == Row(1);
    Then(ops, TL([5, 10, 15, 20, 25], 0), Re(30), TN([Full(0), Twig(25, TL([20, 25], 0))]));
  }

  lemma RowOne()
    ensures LeadTo(Grow(1), TN(Row(1)))
  {
    var ops: seq<TOp> := [];
    RootInsert(ops, [], 5, [5]);
    RootInsert(ops + [In(5)], [5], 10, [5, 10]);
    RowOneB(ops + [In(5)] + [In(10)]);
    assert ops + [In(5)] + [In(10)] + [In(15)] + [In(20)] + [In(25)] + [Re(30)] == Grow(1);
  }

  lemma RowOneB(ops: seq<TOp>)
    requires LeadTo(ops, TL([5, 10], 0))
    ensures LeadTo(ops + [In(15)] + [In(20)] + [In(25)] + [Re(30)], TN(Row(1)))
  {
    RootInsert(ops, [5, 10], 15, [5, 10, 15]);
    RootInsert(ops + [In(15)], [5, 10, 15], 20, [5, 10, 15, 20]);
    RootInsert(ops + [In(15)] + [In(20)], [5, 10, 15, 20], 25, [5, 10, 15, 20, 25]);
    RootSplit(ops + [In(15)] + [In(20)] + [In(25)]);
  }

  lemma {:induction false} RowReached(n: nat)
    requires 0 < n <= 6
    ensures LeadTo(Grow(n), TN(Row(n)))
  {
    if n == 1 {
      RowOne();
    } else {
      var m := n - 1;
      RowReached(m);
      var a, b, c, d, e := 15 * m + 5, 15 * m + 10, 15 * m + 15, 15 * m + 20, 15 * m + 25;
      LastInsert(Grow(m), m, [a, b], c, [a, b, c]);
      LastInsert(Grow(m) + [In(c)], m, [a, b, c], d, [a, b, c, d]);
      LastInsert(Grow(m) + [In(c)] + [In(d)], m, [a, b, c, d], e, [a, b, c, d, e]);
      FiveSplit(a, b, c, d, e);
      LastSplit(Grow(m) + [In(c)] + [In(d)] + [In(e)], m, [a, b, c, d, e], 15 * m + 30, Full(m), Twig(e, TL([d, e], 0)));
      RowNext(m);
    }
  }

  // ---- Height 3 ----

  const Qs: seq<Twig> := [Full(4), Full(5), Twig(100, TL([95, 100], 0))]

  /** The root over two inner nodes; ps are the leaves below the left one. */
  function Three(ps: seq<Twig>): Toy { TN([Twig(60, TN(ps)), Twig(100, TN(Qs))]) }

  predicate Leaves(ps: seq<Twig>) { ps != [] && forall i | 0 <= i < |ps| :: ps[i].kid.TL? }

  lemma {:induction false} LeavesShaped(ps: seq<Twig>)
    requires Leaves(ps)
    ensures TShaped(TN(ps))
  {
  }

  lemma {:induction false} ThreeShaped(ps: seq<Twig>)
    requires Leaves(ps)
    ensures TShaped(Three(ps))
  {
    LeavesShaped(ps);
    LeavesShaped(Qs);
    var es := [Twig(60, TN(ps)), Twig(100, TN(Qs))];
    forall i | 0 <= i < |es| ensures TShaped(es[i].kid) { assert i == 0 || i == 1; }
  }

  lemma RowHalves()
    ensures THalves(TN(Row(6))) == Some((Twig(60, TN(Fulls(4))), Twig(100, TN(Qs))))
  {
    var row := Row(6);
    assert row[..4] == Fulls(4) && row[4..] == Qs && row[3] == Full(3) && row[6].sep == 100;
  }

  lemma Raised()
    ensures LeadTo(Grow(6) + [Re(105)], Three(Fulls(4)))
  {
    RowReached(6);
    RowHalves();
    Then(Grow(6), TN(Row(6)), Re(105), Three(Fulls(4)));
  }

  /** The update of a missing key on whose behalf the last two changes were made. */
  lemma Missed105()
    ensures LeadTo(Grow(6) + [Re(105)] + [Up(105)], Three(Fulls(4)))
  {
    Raised();
    ThreeShaped(Fulls(4));
    LeavesShaped(Qs);
    var es := [Twig(60, TN(Fulls(4))), Twig(100, TN(Qs))];
    GoDown(es, 105, 1);
    GoDown(Qs, 105, 2);
    Absent([95, 100], 105);
    Then(Grow(6) + [Re(105)], Three(Fulls(4)), Up(105), Three(Fulls(4)));
  }

  /** A traversal towards a key up to 60 goes on below the left inner node. */
  lemma {:induction false} DownLeft(ps: seq<Twig>, k: Num)
    requires Leaves(ps) && 3 <= |ps| <= 6 && k <= 60
    ensures TShaped(TN(ps)) && TShaped(Three(ps))
    ensures TTraverse(Three(ps), k) == match TBelow(ps, k)
                                       case TChanged(c) => TChanged(TN([Twig(60, c), Twig(100, TN(Qs))]))
                                       case o => o
    ensures TLeafFor(Three(ps), k) == TLeafFor(TN(ps), k)
    ensures forall l :: TWith(Three(ps), k, l) == TN([Twig(60, TWith(TN(ps), k, l)), Twig(100, TN(Qs))])
  {
    LeavesShaped(ps);
    ThreeShaped(ps);
    var es := [Twig(60, TN(ps)), Twig(100, TN(Qs))];
    GoDown(es, k, 0);
    assert forall c: Toy :: es[0 := Twig(60, c)] == [Twig(60, c), Twig(100, TN(Qs))];
  }

  predicate LeafAt(ps: seq<Twig>, k: Num, j: nat) {
    Leaves(ps) && 3 <= |ps| <= 6 && k <= 60 && RoutesTo(ps, k, j) && Fine(ps, j)
  }

  lemma {:induction false} LeftInsert(ops: seq<TOp>, ps: seq<Twig>, k: Num, j: nat, ps': seq<Twig>)
    requires LeadTo(ops, Three(ps)) && LeafAt(ps, k, j) && k !in ps[j].kid.ids
    requires ps' == ps[j := Twig(ps[j].sep, TL(ps[j].kid.ids + [k], ps[j].kid.del))]
    ensures LeadTo(ops + [In(k)], Three(ps'))
  {
    DownLeft(ps, k);
    GoDown(ps, k, j);
    Absent(ps[j].kid.ids, k);
    Then(ops, Three(ps), In(k), Three(ps'));
  }

  lemma {:induction false} LeftMissing(ops: seq<TOp>, ps: seq<Twig>, k: Num, j: nat)
    requires LeadTo(ops, Three(ps)) && LeafAt(ps, k, j) && k !in ps[j].kid.ids
    ensures LeadTo(ops + [Up(k)], Three(ps))
  {
    DownLeft(ps, k);
    GoDown(ps, k, j);
    Absent(ps[j].kid.ids, k);
    Then(ops, Three(ps), Up(k), Three(ps));
  }

  lemma {:induction false} LeftSplit(ops: seq<TOp>, ps: seq<Twig>, k: Num, j: nat, l: Twig, r: Twig, ps': seq<Twig>)
    requires LeadTo(ops, Three(ps)) && Leaves(ps) && 4 <= |ps| <= 6 && k <= 60 && RoutesTo(ps, k, j)
    requires ps[j].kid.del <= 100 && TUsed(ps[j].kid) > 192 && THalves(ps[j].kid) == Some((l, r))
    requires ps' == ps[..j] + [l, r] + ps[j + 1..]
    ensures LeadTo(ops + [Re(k)], Three(ps'))
  {
    DownLeft(ps, k);
    SplitHere(ps, k, j);
    Then(ops, Three(ps), Re(k), Three(ps'));
  }

  // ---- The run ----

  const F0 := Full(0)
  const F1 := Full(1)
  const F2 := Full(2)
  const L3 := Twig(47, TL([46, 47], 0))

  function Last4(ids: seq<Num>): seq<Twig> { [F0, F1, F2, Twig(60, TL(ids, 48))] }

  function Five(one: seq<Num>, last: seq<Num>): seq<Twig> { [F0, Twig(30, TL(one, 0)), F2, L3, Twig(55, TL(last, 0))] }

  function Six(two: seq<Num>): seq<Twig> {
    [F0, Twig(20, TL([16, 17, 20], 0)), Twig(30, TL([25, 30], 0)), Twig(45, TL(two, 0)), L3, Twig(55, TL([50, 55, 60], 0))]
  }

  const Seven: seq<Twig> :=
    [F0, Twig(20, TL([16, 17, 20], 0)), Twig(30, TL([25, 30], 0)), Twig(35, TL([31, 32, 35], 0)),
     Twig(45, TL([40, 45], 0)), L3, Twig(55, TL([50, 55, 60], 0))]

  function Ops1(): seq<TOp> { Grow(6) + [Re(105)] + [Up(105)] + [Er(60)] }

  /** 60 is erased. */
  lemma Erased60()
    ensures LeadTo(Ops1(), Three(Last4([50, 55])))
  {
    Missed105();
    var ps := Fulls(4);
    assert ps == [F0, F1, F2, Full(3)];
    DownLeft(ps, 60);
    GoDown(ps, 60, 3);
    var ids: seq<Num> := [50, 55, 60];
    assert ids[1..] == [55, 60] && ids[1..][1..] == [60];
    assert TIndex(ids, 60) == 2;
    assert ids[..2] + ids[3..] == [50, 55];
    assert ps[3 := Twig(60, TL([50, 55], 48))] == Last4([50, 55]);
    Then(Grow(6) + [Re(105)] + [Up(105)], Three(ps), Er(60), Three(Last4([50, 55])));
  }

  lemma FourInOrder(a: Num, b: Num, y: Num, x: Num)
    requires x < y < a < b
    ensures TSort([a, b, y, x]) == [x, y, a, b]
  {
    var s: seq<Num> := [a, b];
    SortedStays(s);
    SmallestFirst(s, y);
    assert s + [y] == [a, b, y] && [y] + s == [y, a, b];
    SmallestFirst([a, b, y], x);
    assert [a, b, y] + [x] == [a, b, y, x] && [x] + [y, a, b] == [x, y, a, b];
  }

  lemma FourSplit()
    ensures THalves(TL([50, 55, 47, 46], 48)) == Some((L3, Twig(55, TL([50, 55], 0))))
  {
    FourInOrder(50, 55, 47, 46);
    var t: seq<Num> := [46, 47, 50, 55];
    assert t[..2] == [46, 47] && t[2..] == [50, 55];
  }

  function Ops2(): seq<TOp> { Ops1() + [In(47)] + [In(46)] + [Re(60)] + [In(60)] }

  /** Two smaller keys fill its leaf, the leaf is split under 55, and 60 comes back. */
  lemma Inserted60()
    ensures LeadTo(Ops2(), Three(Five([20, 25, 30], [50, 55, 60])))
  {
    Erased60();
    FillLast(Ops1(), [50, 55], 47, [50, 55, 47]);
    FillLast(Ops1() + [In(47)], [50, 55, 47], 46, [50, 55, 47, 46]);
    Inserted60b();
  }

  lemma FillLast(ops: seq<TOp>, ids: seq<Num>, k: Num, ids': seq<Num>)
    requires LeadTo(ops, Three(Last4(ids))) && 2 <= |ids| <= 3 && k !in ids && 45 < k <= 60 && ids' == ids + [k]
    ensures LeadTo(ops + [In(k)], Three(Last4(ids')))
  {
    var ps := Last4(ids);
    assert ps[3 := Twig(60, TL(ids', 48))] == Last4(ids');
    LeftInsert(ops, ps, k, 3, Last4(ids'));
  }

  lemma Inserted60b()
    requires LeadTo(Ops1() + [In(47)] + [In(46)], Three(Last4([50, 55, 47, 46])))
    ensures LeadTo(Ops2(), Three(Five([20, 25, 30], [50, 55, 60])))
  {
    FourthSplit(Ops1() + [In(47)] + [In(46)], [50, 55, 47, 46]);
    LastBack(Ops1() + [In(47)] + [In(46)] + [Re(60)]);
  }

  lemma FourthSplit(ops: seq<TOp>, ids: seq<Num>)
    requires LeadTo(ops, Three(Last4(ids))) && ids == [50, 55, 47, 46]
    ensures LeadTo(ops + [Re(60)], Three(Five([20, 25, 30], [50, 55])))
  {
    FourSplit();
    var ps := Last4(ids);
    var ps' := Five([20, 25, 30], [50, 55]);
    assert F1 == Twig(30, TL([20, 25, 30], 0));
    assert ps[..3] + [L3, Twig(55, TL([50, 55], 0))] + ps[4..] == ps';
    LeftSplit(ops, ps, 60, 3, L3, Twig(55, TL([50, 55], 0)), ps');
  }

  lemma LastBack(ops: seq<TOp>)
    requires LeadTo(ops, Three(Five([20, 25, 30], [50, 55])))
    ensures LeadTo(ops + [In(60)], Three(Five([20, 25, 30], [50, 55, 60])))
  {
    var ps := Five([20, 25, 30], [50, 55]);
    assert [50, 55] + [60] == [50, 55, 60];
    assert ps[4 := Twig(55, TL([50, 55, 60], 0))] == Five([20, 25, 30], [50, 55, 60]);
    LeftInsert(ops, ps, 60, 4, Five([20, 25, 30], [50, 55, 60]));
  }

  lemma FiveInOrder(a: Num, b: Num, c: Num, y: Num, x: Num)
    requires x < y < a < b < c
    ensures TSort([a, b, c, y, x]) == [x, y, a, b, c]
  {
    var s: seq<Num> := [a, b, c];
    SortedStays(s);
    SmallestFirst(s, y);
    assert s + [y] == [a, b, c, y] && [y] + s == [y, a, b, c];
    SmallestFirst([a, b, c, y], x);
    assert [a, b, c, y] + [x] == [a, b, c, y, x] && [x] + [y, a, b, c] == [x, y, a, b, c];
  }

  lemma FiveSorted(a: Num, b: Num, c: Num, y: Num, x: Num)
    requires x < y < a < b < c
    ensures THalves(TL([a, b, c, y, x], 0)) == Some((Twig(a, TL([x, y, a], 0)), Twig(c, TL([b, c], 0))))
  {
    FiveInOrder(a, b, c, y, x);
    var t: seq<Num> := [x, y, a, b, c];
    assert t[..3] == [x, y, a] && t[3..] == [b, c];
  }

  function Ops3(): seq<TOp> { Ops2() + [In(17)] + [In(16)] + [Re(18)] + [Up(18)] }

  lemma FillOne(ops: seq<TOp>, ids: seq<Num>, k: Num, ids': seq<Num>)
    requires LeadTo(ops, Three(Five(ids, [50, 55, 60]))) && 3 <= |ids| <= 4 && k !in ids && 15 < k <= 30 && ids' == ids + [k]
    ensures LeadTo(ops + [In(k)], Three(Five(ids', [50, 55, 60])))
  {
    var ps := Five(ids, [50, 55, 60]);
    assert ps[1 := Twig(30, TL(ids', 0))] == Five(ids', [50, 55, 60]);
    LeftInsert(ops, ps, k, 1, Five(ids', [50, 55, 60]));
  }

  /** Two further leaves of the left node are filled and split; first the second one. */
  lemma SecondSplit()
    ensures LeadTo(Ops3(), Three(Six([35, 40, 45])))
  {
    Inserted60();
    FillOne(Ops2(), [20, 25, 30], 17, [20, 25, 30, 17]);
    FillOne(Ops2() + [In(17)], [20, 25, 30, 17], 16, [20, 25, 30, 17, 16]);
    SecondSplitB();
  }

  lemma SecondSplitB()
    requires LeadTo(Ops2() + [In(17)] + [In(16)], Three(Five([20, 25, 30, 17, 16], [50, 55, 60])))
    ensures LeadTo(Ops3(), Three(Six([35, 40, 45])))
  {
    SecondSplitAt(Ops2() + [In(17)] + [In(16)], [20, 25, 30, 17, 16]);
    SecondMissing(Ops2() + [In(17)] + [In(16)] + [Re(18)]);
  }

  lemma SecondSplitAt(ops: seq<TOp>, ids: seq<Num>)
    requires LeadTo(ops, Three(Five(ids, [50, 55, 60]))) && ids == [20, 25, 30, 17, 16]
    ensures LeadTo(ops + [Re(18)], Three(Six([35, 40, 45])))
  {
    var l, r := Twig(20, TL([16, 17, 20], 0)), Twig(30, TL([25, 30], 0));
    FiveSorted(20, 25, 30, 17, 16);
    SecondParts(l, r);
    LeftSplit(ops, Five(ids, [50, 55, 60]), 18, 1, l, r, Six([35, 40, 45]));
  }

  lemma SecondParts(l: Twig, r: Twig)
    requires l == Twig(20, TL([16, 17, 20], 0)) && r == Twig(30, TL([25, 30], 0))
    ensures var ps := Five([20, 25, 30, 17, 16], [50, 55, 60]); Six([35, 40, 45]) == ps[..1] + [l, r] + ps[2..]
  {
    assert F2 == Twig(45, TL([35, 40, 45], 0));
  }

  lemma SecondMissing(ops: seq<TOp>)
    requires LeadTo(ops, Three(Six([35, 40, 45])))
    ensures LeadTo(ops + [Up(18)], Three(Six([35, 40, 45])))
  {
    LeftMissing(ops, Six([35, 40, 45]), 18, 1);
  }

  function Ops4(): seq<TOp> { Ops3() + [In(32)] + [In(31)] + [Re(33)] }

  lemma FillTwo(ops: seq<TOp>, ids: seq<Num>, k: Num, ids': seq<Num>)
    requires LeadTo(ops, Three(Six(ids))) && 3 <= |ids| <= 4 && k !in ids && 30 < k <= 45 && ids' == ids + [k]
    ensures LeadTo(ops + [In(k)], Three(Six(ids')))
  {
    var ps := Six(ids);
    assert ps[3 := Twig(45, TL(ids', 0))] == Six(ids');
    LeftInsert(ops, ps, k, 3, Six(ids'));
  }

  /** Then the third, which gives the left node a seventh child. */
  lemma ThirdSplit()
    ensures LeadTo(Ops4(), Three(Seven))
  {
    SecondSplit();
    FillTwo(Ops3(), [35, 40, 45], 32, [35, 40, 45, 32]);
    FillTwo(Ops3() + [In(32)], [35, 40, 45, 32], 31, [35, 40, 45, 32, 31]);
    ThirdSplitB();
  }

  lemma ThirdSplitB()
    requires LeadTo(Ops3() + [In(32)] + [In(31)], Three(Six([35, 40, 45, 32, 31])))
    ensures LeadTo(Ops4(), Three(Seven))
  {
    ThirdSplitAt(Ops3() + [In(32)] + [In(31)], [35, 40, 45, 32, 31]);
  }

  lemma ThirdSplitAt(ops: seq<TOp>, ids: seq<Num>)
    requires LeadTo(ops, Three(Six(ids))) && ids == [35, 40, 45, 32, 31]
    ensures LeadTo(ops + [Re(33)], Three(Seven))
  {
    var l, r := Twig(35, TL([31, 32, 35], 0)), Twig(45, TL([40, 45], 0));
    FiveSorted(35, 40, 45, 32, 31);
    ThirdParts(l, r);
    LeftSplit(ops, Six(ids), 33, 3, l, r, Seven);
  }

  lemma ThirdParts(l: Twig, r: Twig)
    requires l == Twig(35, TL([31, 32, 35], 0)) && r == Twig(45, TL([40, 45], 0))
    ensures var ps := Six([35, 40, 45, 32, 31]); Seven == ps[..3] + [l, r] + ps[4..]
  {
  }

  const P1: seq<Twig> :=
    [F0, Twig(20, TL([16, 17, 20], 0)), Twig(30, TL([25, 30], 0)), Twig(35, TL([31, 32, 35], 0))]

  const P2: seq<Twig> := [Twig(45, TL([40, 45], 0)), L3, Twig(55, TL([50, 55, 60], 0))]

  const Final: Toy := TN([Twig(35, TN(P1)), Twig(55, TN(P2)), Twig(100, TN(Qs))])

  function Ops5(): seq<TOp> { Ops4() + [Re(33)] }

  lemma SevenHalves()
    ensures THalves(TN(Seven)) == Some((Twig(35, TN(P1)), Twig(55, TN(P2))))
  {
    assert Seven[..4] == P1 && Seven[4..] == P2;
  }

  lemma FinalShaped()
    ensures TShaped(TN(P1)) && TShaped(TN(P2)) && TShaped(TN(Qs)) && TShaped(Final)
  {
    LeavesShaped(P1);
    LeavesShaped(P2);
    LeavesShaped(Qs);
    var es := Final.es;
    forall i | 0 <= i < |es| ensures TShaped(es[i].kid) { assert i == 0 || i == 1 || i == 2; }
  }

  // ---- What the map says ----

  lemma {:induction false} OneValue(ls: seq<Label>, ops: seq<TOp>, k: nat, key: Str)
    requires k <= |ls| && ls == RealOps(ops) && key in MapAt(ls, k)
    ensures MapAt(ls, k)[key] == V()
  {
    if k > 0 && key in MapAt(ls, k - 1) { OneValue(ls, ops, k - 1, key); }
  }

  lemma {:induction false} StaysInMap(ls: seq<Label>, ops: seq<TOp>, n: Num, j: nat, k: nat)
    requires j < k <= |ls| && ls == RealOps(ops)
    requires ops[j] == In(n) && forall i | j < i < |ops| :: ops[i] != Er(n)
    ensures K(n) in MapAt(ls, k)
  {
    KeyOrder(n, ops[k - 1].k);
    if k > j + 1 { StaysInMap(ls, ops, n, j, k - 1); }
  }

  /** 60 is inserted, and not erased afterwards. */
  predicate Holds60(ops: seq<TOp>, j: nat) {
    j < |ops| && ops[j] == In(60) && forall i | j < i < |ops| :: ops[i] != Er(60)
  }

  lemma {:induction false} ToyFind(ids: seq<Num>, k: Num)
    ensures Find(Recs(ids), K(k)) == if k in ids then Some(V()) else None
  {
    if ids != [] {
      KeyOrder(ids[0], k);
      assert Recs(ids)[1..] == Recs(ids[1..]);
      ToyFind(ids[1..], k);
    }
  }

  lemma ToyLookup(t: Toy, k: Num)
    requires TShaped(t)
    ensures Shaped(Real(t)) && Lookup(Real(t), K(k)) == if k in TLeafFor(t, k).ids then Some(V()) else None
  {
    ToyShaped(t);
    ToyLeafFor(t, k);
    ToyFind(TLeafFor(t, k).ids, k);
  }

  /**
    The run ends with an update that is delayed by a change of the structure; no call is under
    way. Before the change the tree holds v under k; afterwards a lookup of k finds nothing,
    where the map says v. With the change the root goes from m to n children.
  */
  ghost predicate LosesKey(run: seq<Tree>, ls: seq<Label>, k: Str, v: Str, m: nat, n: nat) {
    && IsRun(run, ls) && WholeCalls(ls) && |ls| >= 2 && ls[|ls| - 2].Restructure? && ls[|ls| - 1].Update?
    && run[|ls| - 2].N? && |run[|ls| - 2].entries| == m && run[|ls| - 1].N? && |run[|ls| - 1].entries| == n
    && Can(run[|ls| - 2], Label.LookUp(k)) && AnswerOf(run[|ls| - 2], Label.LookUp(k)) == Value(Some(v))
    && Can(run[|ls|], Label.LookUp(k)) && AnswerOf(run[|ls|], Label.LookUp(k)) == Value(None)
    && MapAnswer(MapAt(ls, |ls|), Label.LookUp(k)) == Value(Some(v))
  }

  lemma RealRun(ops: seq<TOp>, t: Toy) returns (run: seq<Tree>)
    requires LeadTo(ops, t)
    ensures IsRun(run, RealOps(ops)) && run[|ops|] == Real(t)
  {
    assert Recs([]) == [];
    NoSteps();
    ToyRun(TL([], 0), ops, []);
    assert [] + RealOps(ops) == RealOps(ops);
    run :| IsRun(run, RealOps(ops)) && run[|RealOps(ops)|] == Real(t);
  }

  /** One more step of a run. */
  lemma Extended(run: seq<Tree>, ops: seq<TOp>, t: Toy, op: TOp, t': Toy) returns (run': seq<Tree>)
    requires IsRun(run, RealOps(ops)) && run[|ops|] == Real(t) && TShaped(t) && TStep(t, op) == Some(t')
    ensures IsRun(run', RealOps(ops + [op])) && run' == run + [Real(t')]
  {
    var ls, ls' := RealOps(ops), RealOps(ops + [op]);
    run' := run + [Real(t')];
    ToyStep(t, op);
    forall k | 0 <= k < |ls'|
      ensures StepAt(run', ls', k)
    {
      assert k < |ls| ==> ls'[k] == ls[k];
      if k < |ls| { assert StepAt(run, ls, k); }
    }
  }

  lemma MapHolds60(ops: seq<TOp>, j: nat)
    requires Holds60(ops, j)
    ensures var m := MapAt(RealOps(ops), |ops|); K(60) in m && m[K(60)] == V()
  {
    StaysInMap(RealOps(ops), ops, 60, j, |ops|);
    OneValue(RealOps(ops), ops, |ops|, K(60));
  }

  /** What the two trees of a step look like. */
  lemma ToyAnswer(t: Toy)
    requires TShaped(t) && t.TN?
    ensures Real(t).N? && |Real(t).entries| == |t.es| && Can(Real(t), Label.LookUp(K(60)))
    ensures AnswerOf(Real(t), Label.LookUp(K(60))) == Value(if 60 in TLeafFor(t, 60).ids then Some(V()) else None)
  {
    ToyLookup(t, 60);
  }

  lemma LosesBy(run: seq<Tree>, ls: seq<Label>, k: Str, v: Str, a: Tree, b: Tree)
    requires IsRun(run, ls) && WholeCalls(ls) && |ls| >= 2 && ls[|ls| - 2].Restructure? && ls[|ls| - 1].Update?
    requires run[|ls| - 2] == a && run[|ls| - 1] == run[|ls|] == b && a.N? && b.N?
    requires Can(a, Label.LookUp(k)) && AnswerOf(a, Label.LookUp(k)) == Value(Some(v))
    requires Can(b, Label.LookUp(k)) && AnswerOf(b, Label.LookUp(k)) == Value(None)
    requires k in MapAt(ls, |ls|) && MapAt(ls, |ls|)[k] == v
    ensures LosesKey(run, ls, k, v, |a.entries|, |b.entries|)
  {
  }

  /** The run through the change of the structure and the update that it delays. */
  lemma StepRun(ops: seq<TOp>, t: Toy, k: Num, t': Toy) returns (run: seq<Tree>)
    requires LeadTo(ops, t) && TStep(t, Re(k)) == Some(t') && TStep(t', Up(k)) == Some(t')
    ensures IsRun(run, RealOps(ops + [Re(k)] + [Up(k)])) && run[|ops|] == Real(t) && run[|ops| + 1] == run[|ops| + 2] == Real(t')
  {
    var run0 := RealRun(ops, t);
    var run1 := Extended(run0, ops, t, Re(k), t');
    run := Extended(run1, ops + [Re(k)], t', Up(k), t');
  }

  lemma LostByStep(ops: seq<TOp>, t: Toy, k: Num, t': Toy, j: nat)
    requires LeadTo(ops, t) && TStep(t, Re(k)) == Some(t') && TStep(t', Up(k)) == Some(t') && t.TN? && t'.TN?
    requires Holds60(ops + [Re(k)] + [Up(k)], j) && Calls(ops + [Re(k)] + [Up(k)])
    requires 60 in TLeafFor(t, 60).ids && 60 !in TLeafFor(t', 60).ids
    ensures exists run, ls, x, v :: LosesKey(run, ls, x, v, |t.es|, |t'.es|)
  {
    var run := StepRun(ops, t, k, t');
    var ls := RealOps(ops + [Re(k)] + [Up(k)]);
    ToyAnswer(t);
    ToyAnswer(t');
    MapHolds60(ops + [Re(k)] + [Up(k)], j);
    CallsAreWhole(ops + [Re(k)] + [Up(k)]);
    assert ls[|ops|] == RealOp(Re(k)) && ls[|ops| + 1] == RealOp(Up(k));
    LosesBy(run, ls, K(60), V(), Real(t), Real(t'));
  }

  // ---- Whole calls ----

  /** A restart is followed by another one for its key, or by the insert or update. */
  predicate Chained(ops: seq<TOp>) {
    forall i | 0 <= i < |ops| - 1 && ops[i].Re? :: ops[i + 1].k == ops[i].k && !ops[i + 1].Er?
  }

  predicate Calls(ops: seq<TOp>) { Chained(ops) && (ops != [] ==> !ops[|ops| - 1].Re?) }

  lemma ChainedAppend(a: seq<TOp>, b: seq<TOp>)
    requires Chained(a) && Chained(b)
    requires a != [] && b != [] && a[|a| - 1].Re? ==> b[0].k == a[|a| - 1].k && !b[0].Er?
    ensures Chained(a + b)
  {
    var ops := a + b;
    forall i | 0 <= i < |ops| - 1 && ops[i].Re?
      ensures ops[i + 1].k == ops[i].k && !ops[i + 1].Er?
    {
      if i >= |a| { assert ops[i] == b[i - |a|] && ops[i + 1] == b[i - |a| + 1]; }
    }
  }

  lemma {:induction false} GrowChained(n: nat)
    requires n < 10
    ensures n > 0 ==> Chained(Grow(n)) && |Grow(n)| > 0 && Grow(n)[|Grow(n)| - 1] == Re(15 * n + 15)
  {
    if n > 1 {
      GrowChained(n - 1);
      var more := [In(15 * n), In(15 * n + 5), In(15 * n + 10), Re(15 * n + 15)];
      assert Grow(n) == Grow(n - 1) + more;
      ChainedAppend(Grow(n - 1), more);
    }
  }

  lemma CallsAreWhole(ops: seq<TOp>)
    requires Calls(ops)
    ensures WholeCalls(RealOps(ops))
  {
    var ls := RealOps(ops);
    forall i | 0 <= i < |ls| && ls[i].Restructure?
      ensures i + 1 < |ls| && Delays(ls[i], ls[i + 1])
    {
      assert ops[i].Re?;
    }
  }

  lemma Ops2Calls()
    ensures Calls(Ops2())
  {
    GrowChained(6);
    var more := [Re(105), Up(105), Er(60), In(47), In(46), Re(60), In(60)];
    assert Ops2() == Grow(6) + more;
    ChainedAppend(Grow(6), more);
  }

  /** Before the split 60 is found below the left node; afterwards it is looked for below the last one. */
  lemma Lookup60()
    ensures TShaped(Three(Seven)) && TLeafFor(Three(Seven), 60) == TL([50, 55, 60], 0)
    ensures TShaped(Final) && TLeafFor(Final, 60) == TL([65, 70, 75], 0)
  {
    FinalShaped();
    ThreeShaped(Seven);
    LeavesShaped(Seven);
    RouteAt(Three(Seven).es, 60, 0);
    RouteAt(Seven, 60, 6);
    assert TLeafFor(TN(Seven), 60) == TL([50, 55, 60], 0);
    RouteAt(Final.es, 60, 2);
    RouteAt(Qs, 60, 0);
    assert TLeafFor(TN(Qs), 60) == TL([65, 70, 75], 0);
  }

  predicate Spares60(ops: seq<TOp>) { forall i | 0 <= i < |ops| :: ops[i] != Er(60) }

  lemma HeldOn(ops: seq<TOp>, j: nat, more: seq<TOp>)
    requires Holds60(ops, j) && Spares60(more)
    ensures Holds60(ops + more, j)
  {
    forall i | j < i < |ops + more|
      ensures (ops + more)[i] != Er(60)
    {
      if i >= |ops| { assert (ops + more)[i] == more[i - |ops|]; }
    }
  }

  lemma PartHeld(ops: seq<TOp>, j: nat, more: seq<TOp>)
    requires Holds60(ops, j) && Calls(ops) && Spares60(more) && Calls(more) && more != []
    ensures Holds60(ops + more, j) && Calls(ops + more)
  {
    HeldOn(ops, j, more);
    ChainedAppend(ops, more);
  }

  const Rest60: seq<TOp> := [In(17), In(16), Re(18), Up(18), In(32), In(31), Re(33), Re(33), Up(33)]

  lemma RestSpares60()
    ensures Spares60(Rest60) && Calls(Rest60)
  {
  }

  lemma AfterInsert60(ops: seq<TOp>) returns (j: nat)
    requires ops == Ops5() + [Up(33)]
    ensures Holds60(ops, j) && Calls(ops)
  {
    assert ops == Ops2() + Rest60;
    j := |Ops2()| - 1;
    assert Holds60(Ops2(), j);
    Ops2Calls();
    RestSpares60();
    PartHeld(Ops2(), j, Rest60);
  }

  /** The update for which the left node was split finds nothing to change. */
  lemma Missed33()
    ensures TShaped(Final) && TStep(Final, Up(33)) == Some(Final)
  {
    FinalShaped();
    GoDown(Final.es, 33, 0);
    GoDown(P1, 33, 3);
    Absent([31, 32, 35], 33);
  }

  /** The left node is split; its last separator, 55, becomes the bound of the right half. */
  lemma SplitStep33()
    ensures LeadTo(Ops4(), Three(Seven)) && TStep(Three(Seven), Re(33)) == Some(Final)
  {
    ThirdSplit();
    SevenHalves();
    var es := [Twig(60, TN(Seven)), Twig(100, TN(Qs))];
    SplitHere(es, 33, 0);
    assert es[..0] + [Twig(35, TN(P1)), Twig(55, TN(P2))] + es[1..] == Final.es;
  }

  /**
    Erase breaks the tree at height 3: there is a run of whole calls, among them an erase, in
    which the split of an inner node loses a key.
  */
  lemma SplitLosesKey()
    ensures exists run, ls, k, v :: LosesKey(run, ls, k, v, 2, 3)
  {
    SplitStep33();
    Missed33();
    Lookup60();
    var j := AfterInsert60(Ops4() + [Re(33)] + [Up(33)]);
    LostByStep(Ops4(), Three(Seven), 33, Final, j);
  }

  // ---- A merge that loses the key, too ----

  /** The first leaf below the left node loses its first key. */
  lemma {:induction false} FirstErase(ops: seq<TOp>, ps: seq<Twig>, k: Num, ids: seq<Num>, del: nat, ps': seq<Twig>)
    requires LeadTo(ops, Three(ps)) && Leaves(ps) && 3 <= |ps| <= 6 && k <= ps[0].sep <= 60
    requires ps[0].kid == TL([k] + ids, del) && ps' == ps[0 := Twig(ps[0].sep, TL(ids, del + 48))]
    ensures LeadTo(ops + [Er(k)], Three(ps'))
  {
    DownLeft(ps, k);
    RouteAt(ps, k, 0);
    var l := ps[0].kid;
    assert TLeafFor(TN(ps), k) == l && TIndex(l.ids, k) == 0;
    assert l.ids[..0] + l.ids[1..] == ids;
    assert TDrop(l, 0) == TL(ids, del + 48);
    assert TWith(TN(ps), k, TL(ids, del + 48)) == TN(ps');
    assert TWith(Three(ps), k, TL(ids, del + 48)) == Three(ps');
    Then(ops, Three(ps), Er(k), Three(ps'));
  }

  /** With all three gone it is compacted, and merged with the next one. */
  lemma {:induction false} FirstCompact(ops: seq<TOp>, ps: seq<Twig>, k: Num, ps': seq<Twig>)
    requires LeadTo(ops, Three(ps)) && Leaves(ps) && 3 <= |ps| <= 6 && k <= ps[0].sep <= 60
    requires ps[0].kid == TL([], 144) && ps' == ps[0 := Twig(ps[0].sep, TL([], 0))]
    ensures LeadTo(ops + [Re(k)], Three(ps'))
  {
    DownLeft(ps, k);
    RouteAt(ps, k, 0);
    Then(ops, Three(ps), Re(k), Three(ps'));
  }

  lemma {:induction false} FirstMerge(ops: seq<TOp>, ps: seq<Twig>, k: Num, x: seq<Num>, ps': seq<Twig>)
    requires LeadTo(ops, Three(ps)) && Leaves(ps) && 3 <= |ps| <= 6 && k <= ps[0].sep <= 60
    requires ps[0].kid == TL([], 0) && ps[1].kid == TL(x, 0) && |x| <= 3 && Ascending(x)
    requires ps' == [Twig(ps[1].sep, TL(x, 0))] + ps[2..]
    ensures LeadTo(ops + [Re(k)], Three(ps'))
  {
    DownLeft(ps, k);
    RouteAt(ps, k, 0);
    SortedStays(x);
    assert [] + x == x;
    assert ps[..0] + [Twig(ps[1].sep, TL(x, 0))] + ps[2..] == ps';
    Then(ops, Three(ps), Re(k), Three(ps'));
  }

  function Empties(a: Num, b: Num, c: Num): seq<TOp> { [Er(a), Er(b), Er(c), Re(c), Re(c)] }

  /** So one leaf after another disappears. */
  lemma {:induction false} FirstGone(ops: seq<TOp>, s: Num, a: Num, b: Num, c: Num, t: Num, x: seq<Num>, rest: seq<Twig>)
    requires a < b < c <= s <= 60 && |x| <= 3 && Ascending(x) && 1 <= |rest| <= 4 && Leaves(rest)
    requires LeadTo(ops, Three([Twig(s, TL([a, b, c], 0)), Twig(t, TL(x, 0))] + rest))
    ensures LeadTo(ops + Empties(a, b, c), Three([Twig(t, TL(x, 0))] + rest))
  {
    FirstLeaf(ops, s, [a, b, c], a, [b, c], 0, t, x, rest);
    FirstLeaf(ops + [Er(a)], s, [b, c], b, [c], 48, t, x, rest);
    FirstLeaf(ops + [Er(a)] + [Er(b)], s, [c], c, [], 96, t, x, rest);
    var ops3 := ops + [Er(a)] + [Er(b)] + [Er(c)];
    var p, q := [Twig(s, TL([], 144)), Twig(t, TL(x, 0))] + rest, [Twig(s, TL([], 0)), Twig(t, TL(x, 0))] + rest;
    assert p[0 := Twig(s, TL([], 0))] == q;
    FirstCompact(ops3, p, c, q);
    assert q[2..] == rest;
    FirstMerge(ops3 + [Re(c)], q, c, x, [Twig(t, TL(x, 0))] + rest);
    assert ops3 + [Re(c)] + [Re(c)] == ops + Empties(a, b, c);
  }

  lemma {:induction false} FirstLeaf(ops: seq<TOp>, s: Num, all: seq<Num>, k: Num, ids: seq<Num>, del: nat, t: Num, x: seq<Num>, rest: seq<Twig>)
    requires k <= s <= 60 && 1 <= |rest| <= 4 && Leaves(rest) && all == [k] + ids
    requires LeadTo(ops, Three([Twig(s, TL(all, del)), Twig(t, TL(x, 0))] + rest))
    ensures LeadTo(ops + [Er(k)], Three([Twig(s, TL(ids, del + 48)), Twig(t, TL(x, 0))] + rest))
  {
    var p, q := [Twig(s, TL([k] + ids, del)), Twig(t, TL(x, 0))] + rest, [Twig(s, TL(ids, del + 48)), Twig(t, TL(x, 0))] + rest;
    assert p[0 := Twig(s, TL(ids, del + 48))] == q;
    FirstErase(ops, p, k, ids, del, q);
  }

  const Z: Twig := Twig(55, TL([50, 55, 60], 0))

  function Ops7(): seq<TOp> {
    Ops2() + Empties(5, 10, 15) + [Up(15)] + Empties(20, 25, 30) + [Up(30)] + Empties(35, 40, 45)
  }

  /** Three leaves of the left node are emptied and merged away. */
  lemma Thinned()
    ensures LeadTo(Ops7(), Three([L3, Z]))
  {
    Inserted60();
    Thinned0(Ops2());
    Thinned1(Ops2() + Empties(5, 10, 15));
    Thinned2(Ops2() + Empties(5, 10, 15) + [Up(15)] + Empties(20, 25, 30));
  }

  lemma Thinned0(ops: seq<TOp>)
    requires LeadTo(ops, Three(Five([20, 25, 30], [50, 55, 60])))
    ensures LeadTo(ops + Empties(5, 10, 15), Three([Twig(30, TL([20, 25, 30], 0))] + [F2, L3, Z]))
  {
    var ps := Five([20, 25, 30], [50, 55, 60]);
    assert F0 == Twig(15, TL([5, 10, 15], 0)) && F2 == Twig(45, TL([35, 40, 45], 0));
    assert ps == [Twig(15, TL([5, 10, 15], 0)), Twig(30, TL([20, 25, 30], 0))] + [F2, L3, Z];
    FirstGone(ops, 15, 5, 10, 15, 30, [20, 25, 30], [F2, L3, Z]);
  }

  lemma Thinned1(ops: seq<TOp>)
    requires LeadTo(ops, Three([Twig(30, TL([20, 25, 30], 0))] + [F2, L3, Z]))
    ensures LeadTo(ops + [Up(15)] + Empties(20, 25, 30), Three([F2] + [L3, Z]))
  {
    var ps := [Twig(30, TL([20, 25, 30], 0))] + [F2, L3, Z];
    LeftMissing(ops, ps, 15, 0);
    assert F2 == Twig(45, TL([35, 40, 45], 0));
    assert ps == [Twig(30, TL([20, 25, 30], 0)), Twig(45, TL([35, 40, 45], 0))] + [L3, Z];
    FirstGone(ops + [Up(15)], 30, 20, 25, 30, 45, [35, 40, 45], [L3, Z]);
  }

  lemma Thinned2(ops: seq<TOp>)
    requires LeadTo(ops, Three([F2] + [L3, Z]))
    ensures LeadTo(ops + [Up(30)] + Empties(35, 40, 45), Three([L3, Z]))
  {
    var ps := [F2] + [L3, Z];
    LeftMissing(ops, ps, 30, 0);
    assert ps == [Twig(45, TL([35, 40, 45], 0)), Twig(47, TL([46, 47], 0))] + [Z];
    FirstGone(ops + [Up(30)], 45, 35, 40, 45, 47, [46, 47], [Z]);
    assert [Twig(47, TL([46, 47], 0))] + [Z] == [L3, Z];
  }

  const Joint: seq<Twig> := [L3, Z, Full(4), Full(5), Twig(100, TL([95, 100], 0))]

  /** The two inner nodes are merged; 55 now bounds the leaf that holds 60. */
  lemma JointStep()
    ensures TShaped(Three([L3, Z])) && TStep(Three([L3, Z]), Re(45)) == Some(TN([Twig(100, TN(Joint))]))
  {
    ThreeShaped([L3, Z]);
    var es := [Twig(60, TN([L3, Z])), Twig(100, TN(Qs))];
    RouteAt(es, 45, 0);
    assert [L3, Z] + Qs == Joint;
    assert TMerge(es, 0) == [Twig(100, TN(Joint))];
  }

  lemma JointLookup()
    ensures TShaped(Three([L3, Z])) && TLeafFor(Three([L3, Z]), 60) == TL([50, 55, 60], 0)
    ensures TShaped(TN([Twig(100, TN(Joint))])) && TLeafFor(TN([Twig(100, TN(Joint))]), 60) == TL([65, 70, 75], 0)
  {
    LeavesShaped(Joint);
    ThreeShaped([L3, Z]);
    LeavesShaped([L3, Z]);
    RouteAt(Three([L3, Z]).es, 60, 0);
    RouteAt([L3, Z], 60, 1);
    assert TLeafFor(TN([L3, Z]), 60) == TL([50, 55, 60], 0);
    RouteAt([Twig(100, TN(Joint))], 60, 0);
    RouteAt(Joint, 60, 2);
    assert TLeafFor(TN(Joint), 60) == TL([65, 70, 75], 0);
  }

  lemma Missed45()
    ensures TShaped(TN([Twig(100, TN(Joint))])) && TStep(TN([Twig(100, TN(Joint))]), Up(45)) == Some(TN([Twig(100, TN(Joint))]))
  {
    LeavesShaped(Joint);
    GoDown([Twig(100, TN(Joint))], 45, 0);
    GoDown(Joint, 45, 0);
    Absent([46, 47], 45);
  }

  lemma EmptiesCall(a: Num, b: Num, c: Num, more: seq<TOp>)
    requires more in {[Up(c)], [Re(c), Up(c)]} && a != 60 && b != 60 && c != 60
    ensures Spares60(Empties(a, b, c) + more) && Calls(Empties(a, b, c) + more)
  {
    if more == [Up(c)] {
      assert Empties(a, b, c) + more == [Er(a), Er(b), Er(c), Re(c), Re(c), Up(c)];
    } else {
      assert Empties(a, b, c) + more == [Er(a), Er(b), Er(c), Re(c), Re(c), Re(c), Up(c)];
    }
  }

  lemma Regrouped(o: seq<TOp>, a: seq<TOp>, b: seq<TOp>, c: seq<TOp>, d: seq<TOp>, e: seq<TOp>, f: seq<TOp>)
    ensures o + a + b + c + d + e + f == o + (a + b) + (c + d) + (e + f)
  {
  }

  lemma AfterInsert60Too(ops: seq<TOp>) returns (j: nat)
    requires ops == Ops7() + [Re(45)] + [Up(45)]
    ensures Holds60(ops, j) && Calls(ops)
  {
    j := |Ops2()| - 1;
    assert Holds60(Ops2(), j);
    Ops2Calls();
    EmptiesCall(5, 10, 15, [Up(15)]);
    EmptiesCall(20, 25, 30, [Up(30)]);
    EmptiesCall(35, 40, 45, [Re(45), Up(45)]);
    var ops1 := Ops2() + (Empties(5, 10, 15) + [Up(15)]);
    PartHeld(Ops2(), j, Empties(5, 10, 15) + [Up(15)]);
    PartHeld(ops1, j, Empties(20, 25, 30) + [Up(30)]);
    PartHeld(ops1 + (Empties(20, 25, 30) + [Up(30)]), j, Empties(35, 40, 45) + [Re(45), Up(45)]);
    Regrouped(Ops2(), Empties(5, 10, 15), [Up(15)], Empties(20, 25, 30), [Up(30)], Empties(35, 40, 45), [Re(45), Up(45)]);
    assert ops == Ops7() + [Re(45), Up(45)];
  }

  /** And a run in which the merge of two inner nodes loses it. */
  lemma MergeLosesKey()
    ensures exists run, ls, k, v :: LosesKey(run, ls, k, v, 2, 1)
  {
    Thinned();
    JointStep();
    Missed45();
    JointLookup();
    var j := AfterInsert60Too(Ops7() + [Re(45)] + [Up(45)]);
    LostByStep(Ops7(), Three([L3, Z]), 45, TN([Twig(100, TN(Joint))]), j);
  }
}
