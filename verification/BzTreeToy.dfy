/**
  Trees in which all keys are 15 bytes and all values 23, so that every record takes 48 bytes
  and every entry 32. Such a tree is described by numbers, and what the program does to it is
  arithmetic on small numbers; the lemmas say that the description is exact.
*/
module BzTreeToy {
  import opened BzKeys
  import opened BzSmo
  import opened BzTree
  import opened BzTreeInv
  import opened BzTreeSmo
  import opened BzTreeSteps
  import opened BzTreeLookups
  import opened BzTreeRuns

  type Num = n: nat | n < 200

  /** Keys in the order of their numbers, and the one value. */
  function K(i: Num): (k: Str)
    ensures KeyOK(k) && |k| == 15 && k[0] == i + 1
  {
    [i + 1] + seq(14, _ => 1)
  }

  function V(): (v: Str)
    ensures Clean(v) && |v| == 23
  {
    seq(23, _ => 1)
  }

  lemma KeyOrder(i: Num, j: Num)
    ensures Less(K(i), K(j)) <==> i < j
    ensures K(i) == K(j) <==> i == j
  {
    if i == j { LessIrreflexive(K(i)); }
  }

  datatype Toy = TL(ids: seq<Num>, del: nat) | TN(es: seq<Twig>)

  datatype Twig = Twig(sep: Num, kid: Toy)

  function Recs(ids: seq<Num>): (r: seq<Rec>)
    ensures |r| == |ids| && forall i | 0 <= i < |ids| :: r[i] == Rec(K(ids[i]), V())
  {
    seq(|ids|, i requires 0 <= i < |ids| => Rec(K(ids[i]), V()))
  }

  function Real(t: Toy): Tree
    decreases t, 1
  {
    match t
    case TL(ids, del) => L(Leaf(Recs(ids), del))
    case TN(es) => N(Real1(es))
  }

  function Real1(es: seq<Twig>): (r: seq<Entry>)
    ensures |r| == |es| && forall i | 0 <= i < |es| :: r[i] == Entry(K(es[i].sep), Real(es[i].kid))
    decreases TN(es), 0
  {
    seq(|es|, i requires 0 <= i < |es| => Entry(K(es[i].sep), Real(es[i].kid)))
  }

  // ---- Space and sorting ----

  lemma {:induction false} ToyLive(ids: seq<Num>)
    ensures Live(Recs(ids)) == 48 * |ids|
  {
    if ids != [] {
      var n := |ids| - 1;
      assert Recs(ids)[..n] == Recs(ids[..n]);
      ToyLive(ids[..n]);
    }
  }

  lemma {:induction false} ToyInner(es: seq<Twig>, n: nat)
    requires n <= |es|
    ensures InnerUsed(Real1(es)[..n]) == 32 * n
  {
    if n > 0 {
      ToyInner(es, n - 1);
      assert Real1(es)[..n][..n - 1] == Real1(es)[..n - 1];
    }
  }

  function TUsed(t: Toy): nat { if t.TL? then 48 * |t.ids| + t.del else 32 * |t.es| }

  lemma {:induction false} ToyUsed(t: Toy)
    ensures TreeUsed(Real(t)) == TUsed(t)
  {
    if t.TL? {
      ToyLive(t.ids);
    } else {
      ToyInner(t.es, |t.es|);
      assert Real1(t.es)[..|t.es|] == Real1(t.es);
    }
  }

  function TInsert(x: Num, s: seq<Num>): seq<Num> {
    if s == [] || x < s[0] then [x] + s else [s[0]] + TInsert(x, s[1..])
  }

  function TSort(s: seq<Num>): seq<Num> { if s == [] then [] else TInsert(s[|s| - 1], TSort(s[..|s| - 1])) }

  lemma {:induction false} ToyInsert(x: Num, s: seq<Num>)
    ensures BzSmo.Insert(Rec(K(x), V()), Recs(s)) == Recs(TInsert(x, s))
  {
    if s == [] {
      assert Recs([x]) == [Rec(K(x), V())] + Recs(s);
    } else {
      KeyOrder(x, s[0]);
      if x < s[0] {
        assert Recs([x] + s) == [Rec(K(x), V())] + Recs(s);
      } else {
        ToyInsert(x, s[1..]);
        assert Recs(s)[1..] == Recs(s[1..]);
        assert Recs([s[0]] + TInsert(x, s[1..])) == [Rec(K(s[0]), V())] + Recs(TInsert(x, s[1..]));
      }
    }
  }

  lemma {:induction false} ToySort(s: seq<Num>)
    ensures Sort(Recs(s)) == Recs(TSort(s))
  {
    if s != [] {
      var n := |s| - 1;
      assert Recs(s)[..n] == Recs(s[..n]);
      ToySort(s[..n]);
      ToyInsert(s[n], TSort(s[..n]));
    }
  }

  // ---- Split points ----

  function TPivot(n: nat): (m: Option<nat>)
    ensures m.Some? ==> 0 < m.value < n
  {
    if n <= 2 then None else if n / 2 + 2 == n then Some(n / 2) else Some(n / 2 + 1)
  }

  lemma {:induction false} EqualSum(sizes: seq<nat>, n: nat)
    requires n <= |sizes| && forall i | 0 <= i < |sizes| :: sizes[i] == 16
    ensures Sum(sizes, n) == 16 * n
  {
    if n > 0 { EqualSum(sizes, n - 1); }
  }

  lemma {:induction false} ToyPivot(sizes: seq<nat>)
    requires forall i | 0 <= i < |sizes| :: sizes[i] == 16
    ensures Pivot(sizes) == TPivot(|sizes|)
  {
    var n := |sizes|;
    if n > 2 {
      EqualSum(sizes, n);
      EqualSum(sizes, n / 2);
      EqualSum(sizes, n / 2 + 1);
      assert IsHalf(sizes, n / 2 + 1);
      HalfUnique(sizes, 1, n / 2 + 1);
    }
  }

  function THalves(t: Toy): Option<(Twig, Twig)> {
    match t
    case TL(ids, _) =>
      var s := TSort(ids);
      (match TPivot(|s|)
       case None => None
       case Some(m) => Some((Twig(s[m - 1], TL(s[..m], 0)), Twig(s[|s| - 1], TL(s[m..], 0)))))
    case TN(es) =>
      match TPivot(|es|)
      case None => None
      case Some(m) => Some((Twig(es[m - 1].sep, TN(es[..m])), Twig(es[|es| - 1].sep, TN(es[m..]))))
  }

  function RealTwig(w: Twig): Entry { Entry(K(w.sep), Real(w.kid)) }

  function RealHalves(h: Option<(Twig, Twig)>): Option<(Entry, Entry)> {
    match h
    case None => None
    case Some(p) => Some((RealTwig(p.0), RealTwig(p.1)))
  }

  lemma {:induction false} RealSlice(es: seq<Twig>, a: nat, b: nat)
    requires a <= b <= |es|
    ensures Real1(es[a..b]) == Real1(es)[a..b]
  {
  }

  lemma {:induction false} ToyLeafHalves(ids: seq<Num>, del: nat)
    ensures Halves(Real(TL(ids, del))) == RealHalves(THalves(TL(ids, del)))
  {
    var s := TSort(ids);
    ToySort(ids);
    ToyPivot(KeySizes(Recs(s)));
    if TPivot(|s|).Some? {
      var m := TPivot(|s|).value;
      assert Recs(s)[..m] == Recs(s[..m]) && Recs(s)[m..] == Recs(s[m..]);
    }
  }

  lemma {:induction false} RealParts(es: seq<Twig>, m: nat)
    requires m <= |es|
    ensures Real1(es[..m]) == Real1(es)[..m] && Real1(es[m..]) == Real1(es)[m..]
  {
    RealSlice(es, 0, m);
    RealSlice(es, m, |es|);
    assert es[0..m] == es[..m] && es[m..|es|] == es[m..];
    assert Real1(es)[0..m] == Real1(es)[..m] && Real1(es)[m..|es|] == Real1(es)[m..];
  }

  lemma {:induction false} ToySizes(es: seq<Twig>)
    ensures forall i | 0 <= i < |es| :: EntrySizes(Real1(es))[i] == 16
  {
  }

  lemma {:induction false} ToyInnerHalves(es: seq<Twig>)
    ensures Halves(Real(TN(es))) == RealHalves(THalves(TN(es)))
  {
    ToySizes(es);
    ToyPivot(EntrySizes(Real1(es)));
    if TPivot(|es|).Some? { ToyCut(es, TPivot(|es|).value); }
  }

  /** The two halves, one by one. */
  lemma {:induction false} ToyCut(es: seq<Twig>, m: nat)
    requires 0 < m < |es| && TPivot(|es|) == Some(m) && Pivot(EntrySizes(Real1(es))) == Some(m)
    ensures Halves(Real(TN(es))) == RealHalves(THalves(TN(es)))
  {
    var a, b := Twig(es[m - 1].sep, TN(es[..m])), Twig(es[|es| - 1].sep, TN(es[m..]));
    assert THalves(TN(es)) == Some((a, b));
    RealParts(es, m);
    RealLast(es, m);
    RealLast(es, |es|);
    assert RealTwig(a) == Entry(Real1(es)[m - 1].sep, N(Real1(es)[..m]));
    assert RealTwig(b) == Entry(Real1(es)[|es| - 1].sep, N(Real1(es)[m..]));
  }

  lemma RealLast(es: seq<Twig>, m: nat)
    requires 0 < m <= |es|
    ensures Real1(es)[m - 1].sep == K(es[m - 1].sep)
  {
  }

  lemma {:induction false} ToyHalves(t: Toy)
    ensures Halves(Real(t)) == RealHalves(THalves(t))
  {
    if t.TL? { ToyLeafHalves(t.ids, t.del); } else { ToyInnerHalves(t.es); }
  }

  // ---- Traversal ----

  function TRoute(es: seq<Twig>, k: Num): (i: nat)
    requires es != []
    ensures i < |es|
  {
    if |es| == 1 || es[0].sep >= k then 0 else 1 + TRoute(es[1..], k)
  }

  lemma {:induction false} ToyRoute(es: seq<Twig>, k: Num)
    requires es != []
    ensures Route(Real1(es), K(k)) == TRoute(es, k)
  {
    KeyOrder(es[0].sep, k);
    if |es| > 1 && es[0].sep < k {
      RealSlice(es, 1, |es|);
      assert es[1..|es|] == es[1..] && Real1(es)[1..|es|] == Real1(es)[1..];
      ToyRoute(es[1..], k);
    }
  }

  predicate TShaped(t: Toy) { t.TN? ==> t.es != [] && forall i | 0 <= i < |t.es| :: TShaped(t.es[i].kid) }

  lemma {:induction false} ToyShaped(t: Toy)
    requires TShaped(t)
    ensures Shaped(Real(t))
    decreases t
  {
    if t.TN? {
      forall i | 0 <= i < |t.es| ensures Shaped(Real1(t.es)[i].child) { ToyShaped(t.es[i].kid); }
    }
  }

  function TJoined(a: Toy, b: Toy): Toy
    requires a.TL? <==> b.TL?
  {
    if a.TL? then TL(TSort(a.ids) + TSort(b.ids), 0) else TN(a.es + b.es)
  }

  lemma {:induction false} ToyJoined(a: Toy, b: Toy)
    requires a.TL? <==> b.TL?
    ensures Real(TJoined(a, b)) == Joined(Real(a), Real(b))
  {
    if a.TL? {
      ToySort(a.ids);
      ToySort(b.ids);
      assert Recs(TSort(a.ids) + TSort(b.ids)) == Recs(TSort(a.ids)) + Recs(TSort(b.ids));
    } else {
      assert Real1(a.es + b.es) == Real1(a.es) + Real1(b.es);
    }
  }

  datatype TOutcome = TFound | TChanged(t: Toy) | TAbort

  predicate TMergeable(es: seq<Twig>, i: nat)
    requires i < |es|
  {
    i + 1 < |es| && (es[i].kid.TL? <==> es[i + 1].kid.TL?) && TUsed(es[i].kid) + TUsed(es[i + 1].kid) <= 176
  }

  function TMerge(es: seq<Twig>, i: nat): seq<Twig>
    requires i + 1 < |es| && (es[i].kid.TL? <==> es[i + 1].kid.TL?)
  {
    es[..i] + [Twig(es[i + 1].sep, TJoined(es[i].kid, es[i + 1].kid))] + es[i + 2..]
  }

  function TDel(t: Toy): nat { if t.TL? then t.del else 0 }

  function TBelow(es: seq<Twig>, k: Num): TOutcome
    requires TShaped(TN(es))
    decreases TN(es)
  {
    var i := TRoute(es, k);
    var c := es[i].kid;
    if TDel(c) > 100 then TChanged(TN(es[i := Twig(es[i].sep, TL(TSort(c.ids), 0))]))
    else if TUsed(c) > 192 then
      (match THalves(c)
       case None => TAbort
       case Some(h) => TChanged(TN(es[..i] + [h.0, h.1] + es[i + 1..])))
    else if i > 0 && TMergeable(es, i - 1) then TChanged(TN(TMerge(es, i - 1)))
    else if TMergeable(es, i) then TChanged(TN(TMerge(es, i)))
    else if c.TL? then TFound
    else
      match TBelow(c.es, k)
      case TFound => TFound
      case TAbort => TAbort
      case TChanged(c') => TChanged(TN(es[i := Twig(es[i].sep, c')]))
  }

  function TTraverse(t: Toy, k: Num): TOutcome
    requires TShaped(t)
  {
    if TDel(t) > 100 then TChanged(TL(TSort(t.ids), 0))
    else if TUsed(t) > 192 then
      (match THalves(t)
       case None => TAbort
       case Some(h) => TChanged(TN([h.0, h.1])))
    else if t.TL? then TFound
    else TBelow(t.es, k)
  }

  function RealOutcome(o: TOutcome): Outcome {
    match o
    case TFound => Found
    case TAbort => Abort
    case TChanged(t) => Changed(Real(t))
  }

  lemma {:induction false} ToySet(es: seq<Twig>, i: nat, c: Toy)
    requires i < |es|
    ensures Real1(es[i := Twig(es[i].sep, c)]) == Real1(es)[i := Entry(Real1(es)[i].sep, Real(c))]
  {
  }

  lemma {:induction false} ToySplit(es: seq<Twig>, i: nat, a: Twig, b: Twig)
    requires i < |es|
    ensures Real1(es[..i] + [a, b] + es[i + 1..]) == SplitAt(Real1(es), i, (RealTwig(a), RealTwig(b)))
  {
    RealJoin(es[..i] + [a, b], es[i + 1..]);
    RealJoin(es[..i], [a, b]);
    RealSlice(es, 0, i);
    RealSlice(es, i + 1, |es|);
    assert Real1([a, b]) == [RealTwig(a), RealTwig(b)];
    assert es[0..i] == es[..i] && es[i + 1..|es|] == es[i + 1..];
    assert Real1(es)[0..i] == Real1(es)[..i] && Real1(es)[i + 1..|es|] == Real1(es)[i + 1..];
  }

  lemma {:induction false} RealJoin(a: seq<Twig>, b: seq<Twig>)
    ensures Real1(a + b) == Real1(a) + Real1(b)
  {
  }

  lemma {:induction false} ToyMerge(es: seq<Twig>, i: nat)
    requires i + 1 < |es| && (es[i].kid.TL? <==> es[i + 1].kid.TL?)
    ensures (Real1(es)[i].child.L? <==> Real1(es)[i + 1].child.L?) && Real1(TMerge(es, i)) == MergeAt(Real1(es), i)
  {
    assert Real1(es)[i].child == Real(es[i].kid) && Real1(es)[i + 1].child == Real(es[i + 1].kid);
    var w := Twig(es[i + 1].sep, TJoined(es[i].kid, es[i + 1].kid));
    ToyJoined(es[i].kid, es[i + 1].kid);
    RealJoin(es[..i] + [w], es[i + 2..]);
    RealJoin(es[..i], [w]);
    RealSlice(es, 0, i);
    RealSlice(es, i + 2, |es|);
    assert Real1([w]) == [RealTwig(w)];
    assert es[0..i] == es[..i] && es[i + 2..|es|] == es[i + 2..];
    assert Real1(es)[0..i] == Real1(es)[..i] && Real1(es)[i + 2..|es|] == Real1(es)[i + 2..];
  }

  lemma {:induction false} ToyMergeable(es: seq<Twig>, i: nat)
    requires i < |es|
    ensures Mergeable(Real1(es), i) <==> TMergeable(es, i)
  {
    ToyUsed(es[i].kid);
    if i + 1 < |es| { ToyUsed(es[i + 1].kid); }
  }

  lemma {:induction false} ToyCompacted(es: seq<Twig>, i: nat)
    requires i < |es| && es[i].kid.TL?
    ensures Real1(es)[i].child.L?
    ensures Real1(es[i := Twig(es[i].sep, TL(TSort(es[i].kid.ids), 0))]) ==
            Real1(es)[i := Entry(Real1(es)[i].sep, Compact(Real1(es)[i].child))]
  {
    ToySort(es[i].kid.ids);
    ToySet(es, i, TL(TSort(es[i].kid.ids), 0));
  }

  /** What the tests of a traversal see. */
  lemma {:induction false} ToySees(es: seq<Twig>, k: Num)
    requires TShaped(TN(es))
    ensures var i := TRoute(es, k);
            && Route(Real1(es), K(k)) == i && Real1(es)[i].child == Real(es[i].kid)
            && Deleted(Real(es[i].kid)) == TDel(es[i].kid) && Free(Real(es[i].kid)) == 240 - TUsed(es[i].kid)
            && (Mergeable(Real1(es), i) <==> TMergeable(es, i))
            && (i > 0 ==> (Mergeable(Real1(es), i - 1) <==> TMergeable(es, i - 1)))
            && (Real(es[i].kid).L? <==> es[i].kid.TL?)
  {
    var i := TRoute(es, k);
    ToyRoute(es, k);
    ToyUsed(es[i].kid);
    ToyMergeable(es, i);
    if i > 0 { ToyMergeable(es, i - 1); }
  }

  lemma {:induction false} ToyCompactsOrSplits(es: seq<Twig>, k: Num)
    requires TShaped(TN(es)) && Shaped(N(Real1(es)))
    requires var c := es[TRoute(es, k)].kid; TDel(c) > 100 || TUsed(c) > 192
    ensures Below(Real1(es), K(k)) == RealOutcome(TBelow(es, k))
  {
    var i := TRoute(es, k);
    var c := es[i].kid;
    ToySees(es, k);
    if TDel(c) > 100 {
      ToyCompacted(es, i);
    } else {
      ToyHalves(c);
      if THalves(c).Some? { ToySplit(es, i, THalves(c).value.0, THalves(c).value.1); }
    }
  }

  lemma {:induction false} ToyMerges(es: seq<Twig>, k: Num)
    requires TShaped(TN(es)) && Shaped(N(Real1(es)))
    requires var i := TRoute(es, k);
             && TDel(es[i].kid) <= 100 && TUsed(es[i].kid) <= 192
             && ((i > 0 && TMergeable(es, i - 1)) || TMergeable(es, i))
    ensures Below(Real1(es), K(k)) == RealOutcome(TBelow(es, k))
  {
    var i := TRoute(es, k);
    ToySees(es, k);
    ToyMerge(es, if i > 0 && TMergeable(es, i - 1) then i - 1 else i);
  }

  lemma {:induction false} ToyDescends(es: seq<Twig>, k: Num)
    requires TShaped(TN(es)) && Shaped(N(Real1(es)))
    requires var i := TRoute(es, k);
             && TDel(es[i].kid) <= 100 && TUsed(es[i].kid) <= 192
             && !(i > 0 && TMergeable(es, i - 1)) && !TMergeable(es, i)
             && (es[i].kid.TN? ==> Shaped(Real(es[i].kid)) && Below(Real1(es[i].kid.es), K(k)) == RealOutcome(TBelow(es[i].kid.es, k)))
    ensures Below(Real1(es), K(k)) == RealOutcome(TBelow(es, k))
  {
    var i := TRoute(es, k);
    var c := es[i].kid;
    ToySees(es, k);
    if c.TN? && TBelow(c.es, k).TChanged? { ToySet(es, i, TBelow(c.es, k).t); }
  }

  lemma {:induction false} ToyBelow(es: seq<Twig>, k: Num)
    requires TShaped(TN(es)) && Shaped(N(Real1(es)))
    ensures Below(Real1(es), K(k)) == RealOutcome(TBelow(es, k))
    decreases TN(es)
  {
    var i := TRoute(es, k);
    var c := es[i].kid;
    if TDel(c) > 100 || TUsed(c) > 192 {
      ToyCompactsOrSplits(es, k);
    } else if (i > 0 && TMergeable(es, i - 1)) || TMergeable(es, i) {
      ToyMerges(es, k);
    } else {
      if c.TN? {
        ToyShaped(c);
        ToyBelow(c.es, k);
      }
      ToyDescends(es, k);
    }
  }

  lemma {:induction false} ToyNewRoot(a: Twig, b: Twig)
    ensures Real(TN([a, b])) == N([RealTwig(a), RealTwig(b)])
  {
    assert Real1([a, b]) == [RealTwig(a), RealTwig(b)];
  }

  lemma {:induction false} ToyTraverse(t: Toy, k: Num)
    requires TShaped(t) && Shaped(Real(t))
    ensures Traverse(Real(t), K(k)) == RealOutcome(TTraverse(t, k))
  {
    ToyUsed(t);
    if TDel(t) > 100 {
      ToySort(t.ids);
    } else if TUsed(t) > 192 {
      ToyHalves(t);
      if THalves(t).Some? { ToyNewRoot(THalves(t).value.0, THalves(t).value.1); }
    } else if t.TN? {
      ToyBelow(t.es, k);
    }
  }

  // ---- Operations ----

  function TLeafFor(t: Toy, k: Num): (l: Toy)
    requires TShaped(t)
    ensures l.TL?
  {
    if t.TL? then t else TLeafFor(t.es[TRoute(t.es, k)].kid, k)
  }

  function TWith(t: Toy, k: Num, l: Toy): Toy
    requires TShaped(t)
  {
    if t.TL? then l
    else
      var i := TRoute(t.es, k);
      TN(t.es[i := Twig(t.es[i].sep, TWith(t.es[i].kid, k, l))])
  }

  lemma {:induction false} ToyLeafFor(t: Toy, k: Num)
    requires TShaped(t) && Shaped(Real(t))
    ensures L(LeafFor(Real(t), K(k))) == Real(TLeafFor(t, k))
    decreases t
  {
    if t.TN? {
      ToyRoute(t.es, k);
      var c := t.es[TRoute(t.es, k)].kid;
      ToyShaped(c);
      ToyLeafFor(c, k);
    }
  }

  lemma {:induction false} ToyWith(t: Toy, k: Num, l: Toy)
    requires TShaped(t) && Shaped(Real(t)) && l.TL?
    ensures WithLeaf(Real(t), K(k), Real(l).leaf) == Real(TWith(t, k, l))
    decreases t
  {
    if t.TN? {
      var i := TRoute(t.es, k);
      ToyRoute(t.es, k);
      ToyShaped(t.es[i].kid);
      ToyWith(t.es[i].kid, k, l);
      ToySet(t.es, i, TWith(t.es[i].kid, k, l));
    }
  }

  function TIndex(ids: seq<Num>, k: Num): (i: nat)
    ensures i <= |ids|
  {
    if ids == [] then 0 else if ids[0] == k then 0 else 1 + TIndex(ids[1..], k)
  }

  lemma {:induction false} ToyIndex(ids: seq<Num>, k: Num)
    ensures IndexOf(Recs(ids), K(k)) == TIndex(ids, k)
  {
    if ids != [] {
      KeyOrder(ids[0], k);
      assert Recs(ids)[1..] == Recs(ids[1..]);
      ToyIndex(ids[1..], k);
    }
  }

  /** Insert, erase, a traversal that changes the structure, and an update of a missing key. */
  datatype TOp = In(k: Num) | Er(k: Num) | Re(k: Num) | Up(k: Num)

  function RealOp(op: TOp): Label {
    match op
    case In(k) => Label.Insert(K(k), V())
    case Er(k) => Label.Erase(K(k))
    case Re(k) => Label.Restructure(K(k))
    case Up(k) => Label.Update(K(k), V())
  }

  function TAdd(l: Toy, k: Num): Toy
    requires l.TL?
  {
    TL(l.ids + [k], l.del)
  }

  function TDrop(l: Toy, i: nat): Toy
    requires l.TL? && i < |l.ids|
  {
    TL(l.ids[..i] + l.ids[i + 1..], l.del + 48)
  }

  lemma {:induction false} JoinedStaysShaped(a: Toy, b: Toy)
    requires (a.TL? <==> b.TL?) && TShaped(a) && TShaped(b)
    ensures TShaped(TJoined(a, b))
  {
    if a.TN? {
      var es := a.es + b.es;
      forall i | 0 <= i < |es|
        ensures TShaped(es[i].kid)
      {
        assert es[i] == if i < |a.es| then a.es[i] else b.es[i - |a.es|];
      }
    }
  }

  lemma {:induction false} HalvesStayShaped(t: Toy)
    requires TShaped(t) && THalves(t).Some?
    ensures TShaped(THalves(t).value.0.kid) && TShaped(THalves(t).value.1.kid)
  {
    if t.TN? {
      var m := TPivot(|t.es|).value;
      forall i | 0 <= i < m ensures TShaped(t.es[..m][i].kid) { assert t.es[..m][i] == t.es[i]; }
      forall i | 0 <= i < |t.es| - m ensures TShaped(t.es[m..][i].kid) { assert t.es[m..][i] == t.es[m + i]; }
    }
  }

  lemma {:induction false} BelowStaysShaped(es: seq<Twig>, k: Num)
    requires TShaped(TN(es)) && TBelow(es, k).TChanged?
    ensures TShaped(TBelow(es, k).t)
    decreases TN(es)
  {
    var i := TRoute(es, k);
    var c := es[i].kid;
    if TDel(c) > 100 {
    } else if TUsed(c) > 192 {
      HalvesStayShaped(c);
      var h := THalves(c).value;
      var es' := es[..i] + [h.0, h.1] + es[i + 1..];
      forall j | 0 <= j < |es'|
        ensures TShaped(es'[j].kid)
      {
        assert es'[j] == if j < i then es[j] else if j == i then h.0 else if j == i + 1 then h.1 else es[j - 1];
      }
    } else if i > 0 && TMergeable(es, i - 1) {
      MergeStaysShaped(es, i - 1);
    } else if TMergeable(es, i) {
      MergeStaysShaped(es, i);
    } else {
      BelowStaysShaped(c.es, k);
    }
  }

  lemma {:induction false} MergeStaysShaped(es: seq<Twig>, i: nat)
    requires TShaped(TN(es)) && i + 1 < |es| && (es[i].kid.TL? <==> es[i + 1].kid.TL?)
    ensures TShaped(TN(TMerge(es, i)))
  {
    JoinedStaysShaped(es[i].kid, es[i + 1].kid);
    var es' := TMerge(es, i);
    forall j | 0 <= j < |es'|
      ensures TShaped(es'[j].kid)
    {
      assert j < i ==> es'[j] == es[j];
      assert j > i ==> es'[j] == es[j + 1];
    }
  }

  lemma {:induction false} TraverseStaysShaped(t: Toy, k: Num)
    requires TShaped(t) && TTraverse(t, k).TChanged?
    ensures TShaped(TTraverse(t, k).t)
  {
    if TDel(t) > 100 {
    } else if TUsed(t) > 192 {
      HalvesStayShaped(t);
    } else {
      BelowStaysShaped(t.es, k);
    }
  }

  lemma {:induction false} WithStaysShaped(t: Toy, k: Num, l: Toy)
    requires TShaped(t) && l.TL?
    ensures TShaped(TWith(t, k, l))
    decreases t
  {
    if t.TN? { WithStaysShaped(t.es[TRoute(t.es, k)].kid, k, l); }
  }

  /** The tree after an operation; None if the step is not possible. */
  function TStep(t: Toy, op: TOp): (r: Option<Toy>)
    requires TShaped(t)
    ensures r.Some? ==> TShaped(r.value)
  {
    var l := TLeafFor(t, op.k);
    var i := TIndex(l.ids, op.k);
    match op
    case In(k) =>
      if !TTraverse(t, k).TFound? then None
      else if i < |l.ids| then Some(t)
      else WithStaysShaped(t, k, TAdd(l, k)); Some(TWith(t, k, TAdd(l, k)))
    case Er(k) =>
      if i == |l.ids| then Some(t) else WithStaysShaped(t, k, TDrop(l, i)); Some(TWith(t, k, TDrop(l, i)))
    case Re(k) =>
      if !TTraverse(t, k).TChanged? then None else TraverseStaysShaped(t, k); Some(TTraverse(t, k).t)
    case Up(k) =>
      if !TTraverse(t, k).TFound? || i < |l.ids| then None else Some(t)
  }

  lemma {:induction false} ToyInserts(t: Toy, k: Num)
    requires TShaped(t) && Shaped(Real(t)) && TStep(t, In(k)).Some?
    ensures Can(Real(t), RealOp(In(k))) && After(Real(t), RealOp(In(k))) == Real(TStep(t, In(k)).value)
  {
    var l := TLeafFor(t, k);
    ToyTraverse(t, k);
    ToyLeafFor(t, k);
    ToyIndex(l.ids, k);
    assert Recs(l.ids + [k]) == Recs(l.ids) + [Rec(K(k), V())];
    ToyWith(t, k, TAdd(l, k));
  }

  lemma RecsWithout(ids: seq<Num>, i: nat)
    requires i < |ids|
    ensures Recs(ids[..i] + ids[i + 1..]) == Recs(ids)[..i] + Recs(ids)[i + 1..]
  {
  }

  /** The leaf of an erased key. */
  lemma {:induction false} ToyDrops(l: Toy, k: Num)
    requires l.TL?
    ensures var i, leaf := TIndex(l.ids, k), Real(l).leaf;
            && (IndexOf(leaf.recs, K(k)) < |leaf.recs| <==> i < |l.ids|)
            && (i < |l.ids| ==> Real(TDrop(l, i)) == L(Erased(leaf, K(k))))
  {
    var i := TIndex(l.ids, k);
    ToyIndex(l.ids, k);
    if i < |l.ids| { RecsWithout(l.ids, i); }
  }

  lemma {:induction false} ToyErases(t: Toy, k: Num)
    requires TShaped(t) && Shaped(Real(t)) && TStep(t, Er(k)).Some?
    ensures Can(Real(t), RealOp(Er(k))) && After(Real(t), RealOp(Er(k))) == Real(TStep(t, Er(k)).value)
  {
    var l := TLeafFor(t, k);
    var i := TIndex(l.ids, k);
    ToyLeafFor(t, k);
    ToyDrops(l, k);
    if i < |l.ids| { ToyWith(t, k, TDrop(l, i)); }
  }

  /** The description steps as the tree does. */
  lemma {:induction false} ToyStep(t: Toy, op: TOp)
    requires TShaped(t) && TStep(t, op).Some?
    ensures Can(Real(t), RealOp(op)) && After(Real(t), RealOp(op)) == Real(TStep(t, op).value)
  {
    ToyShaped(t);
    match op
    case In(k) => ToyInserts(t, k);
    case Er(k) => ToyErases(t, k);
    case Re(k) => ToyTraverse(t, k);
    case Up(k) =>
      ToyTraverse(t, k);
      ToyLeafFor(t, k);
      ToyIndex(TLeafFor(t, k).ids, k);
  }

  /** A sequence of operations. */
  function TRun(t: Toy, ops: seq<TOp>): (r: Option<Toy>)
    requires TShaped(t)
    ensures r.Some? ==> TShaped(r.value)
    decreases |ops|
  {
    if ops == [] then Some(t)
    else
      match TStep(t, ops[0])
      case None => None
      case Some(t') => TRun(t', ops[1..])
  }

  function RealOps(ops: seq<TOp>): (ls: seq<Label>)
    ensures |ls| == |ops|
  {
    seq(|ops|, i requires 0 <= i < |ops| => RealOp(ops[i]))
  }

  lemma {:induction false} FirstOp(ops: seq<TOp>)
    requires ops != []
    ensures RealOps(ops) == [RealOp(ops[0])] + RealOps(ops[1..])
  {
  }

  lemma ToyFirst(t: Toy, op: TOp, ls: seq<Label>)
    requires TShaped(t) && TStep(t, op).Some? && Reached(Real(t), ls)
    ensures Reached(Real(TStep(t, op).value), ls + [RealOp(op)])
  {
    ToyStep(t, op);
    OneMore(Real(t), ls, RealOp(op));
  }

  lemma {:induction false} ToyRun(t: Toy, ops: seq<TOp>, ls: seq<Label>)
    requires TShaped(t) && TRun(t, ops).Some? && Reached(Real(t), ls)
    ensures Reached(Real(TRun(t, ops).value), ls + RealOps(ops))
    decreases |ops|
  {
    if ops == [] {
      assert ls + RealOps(ops) == ls;
    } else {
      var l := RealOp(ops[0]);
      ToyFirst(t, ops[0], ls);
      ToyRun(TStep(t, ops[0]).value, ops[1..], ls + [l]);
      FirstOp(ops);
      assert ls + [l] + RealOps(ops[1..]) == ls + RealOps(ops);
    }
  }
}
