/** What a tree looks like between operations, and that lookups find exactly its records. */
module BzTreeInv {
  import opened BzKeys
  import opened BzSmo
  import opened BzTree

  const MAX_KEY := 15   // longest key, without its terminator, for which parents always have room

  /** A bound on keys; None is infinite. */
  type Bound = Option<Str>

  predicate Above(k: Str, lo: Bound) { lo.Some? ==> Less(lo.value, k) }

  predicate AtMost(k: Str, hi: Bound) { hi.Some? ==> !Less(hi.value, k) }

  predicate KeyOK(k: Str) { Clean(k) && |k| <= MAX_KEY }

  function Seps(es: seq<Entry>): (seps: seq<Str>)
    ensures |seps| == |es|
  {
    seq(|es|, i requires 0 <= i < |es| => es[i].sep)
  }

  predicate Increasing(seps: seq<Str>) {
    forall i, j | 0 <= i < j < |seps| :: Less(seps[i], seps[j])
  }

  /** The bounds of the i-th child. */
  function LoOf(seps: seq<Str>, i: nat, lo: Bound): Bound
    requires i < |seps|
  {
    if i == 0 then lo else Some(seps[i - 1])
  }

  function HiOf(seps: seq<Str>, i: nat, hi: Bound): Bound
    requires i < |seps|
  {
    if i == |seps| - 1 then hi else Some(seps[i])
  }

  predicate Between(k: Str, lo: Bound, hi: Bound) { KeyOK(k) && Above(k, lo) && AtMost(k, hi) }

  predicate SepsOK(seps: seq<Str>, lo: Bound, hi: Bound, tight: bool) {
    && seps != [] && Increasing(seps)
    && (forall i | 0 <= i < |seps| :: Between(seps[i], lo, hi))
    && (tight && hi.Some? ==> seps[|seps| - 1] == hi.value)
  }

  function Kid(es: seq<Entry>, i: nat): Tree
    requires i < |es|
  {
    es[i].child
  }

  /**
    A tree of height h with keys above lo and at most hi. In a tight tree every finite upper
    bound is itself a key: off the right spine each separator is the largest key below it.
  */
  ghost predicate Inv(t: Tree, h: nat, lo: Bound, hi: Bound, tight: bool)
    decreases t
  {
    match t
    case L(l) =>
      && h == 1 && LeafOK(l)
      && (forall i | 0 <= i < |l.recs| :: Between(l.recs[i].key, lo, hi))
      && (tight && hi.Some? ==> HasKey(l.recs, hi.value))
    case N(es) =>
      h > 1 && es != [] && InnerUsed(es) <= BODY && SepsOK(Seps(es), lo, hi, tight)
      && forall i {:trigger Kid(es, i)} | 0 <= i < |es| :: Inv(Kid(es, i), h - 1, LoOf(Seps(es), i, lo), HiOf(Seps(es), i, hi), tight)
  }

  ghost predicate HasKey(recs: seq<Rec>, k: Str) { exists i :: 0 <= i < |recs| && recs[i].key == k }

  /** The record is in some leaf. */
  ghost predicate Has(t: Tree, r: Rec)
    decreases t
  {
    match t
    case L(l) => r in l.recs
    case N(es) => exists i :: 0 <= i < |es| && Has(es[i].child, r)
  }

  lemma {:induction false} InvShaped(t: Tree, h: nat, lo: Bound, hi: Bound, tight: bool)
    requires Inv(t, h, lo, hi, tight)
    ensures Shaped(t) && (t.L? <==> h == 1)
    decreases t
  {
    if t.N? {
      forall i | 0 <= i < |t.entries|
        ensures Shaped(t.entries[i].child)
      {
        InvShaped(Kid(t.entries, i), h - 1, LoOf(Seps(t.entries), i, lo), HiOf(Seps(t.entries), i, hi), tight);
      }
    }
  }

  lemma WiderBounds(k: Str, seps: seq<Str>, i: nat, lo: Bound, hi: Bound, tight: bool)
    requires SepsOK(seps, lo, hi, tight) && i < |seps| && Between(k, LoOf(seps, i, lo), HiOf(seps, i, hi))
    ensures Between(k, lo, hi)
  {
    if i > 0 && lo.Some? {
      assert Between(seps[i - 1], lo, hi);
      LessTransitive(lo.value, seps[i - 1], k);
    }
    if i < |seps| - 1 && hi.Some? && Less(hi.value, k) {
      assert Between(seps[i], lo, hi);
      LessTotal(seps[i], k);
      if Less(k, seps[i]) { LessTransitive(hi.value, k, seps[i]); }
    }
  }

  /** All records lie within the bounds. */
  lemma {:induction false} WithinBounds(t: Tree, h: nat, lo: Bound, hi: Bound, tight: bool, r: Rec)
    requires Inv(t, h, lo, hi, tight) && Has(t, r)
    ensures Between(r.key, lo, hi)
    decreases t
  {
    if t.N? {
      var es := t.entries;
      var i :| 0 <= i < |es| && Has(es[i].child, r);
      WithinBounds(Kid(es, i), h - 1, LoOf(Seps(es), i, lo), HiOf(Seps(es), i, hi), tight, r);
      WiderBounds(r.key, Seps(es), i, lo, hi, tight);
    }
  }

  lemma {:induction false} RouteBounds(es: seq<Entry>, k: Str)
    requires es != []
    ensures forall j | 0 <= j < Route(es, k) :: Less(es[j].sep, k)
    ensures Route(es, k) < |es| - 1 ==> !Less(es[Route(es, k)].sep, k)
  {
    if |es| > 1 && Less(es[0].sep, k) {
      RouteBounds(es[1..], k);
      assert forall j | 0 < j < |es| :: es[j] == es[1..][j - 1];
    }
  }

  /** The loop that picks the child to descend into. */
  method FindChild(es: seq<Entry>, k: Str) returns (i: nat)
    requires es != []
    ensures i < |es| && (forall j | 0 <= j < i :: Less(es[j].sep, k)) && (i < |es| - 1 ==> !Less(es[i].sep, k))
    ensures i == Route(es, k)
  {
    i := 0;
    while i < |es|
      invariant i <= |es| && forall j | 0 <= j < i :: Less(es[j].sep, k)
    {
      if !Less(es[i].sep, k) { break; }
      i := i + 1;
    }
    if i == |es| { i := i - 1; }
    RouteBounds(es, k);
  }

  /** The route is the only child whose bounds admit the key. */
  lemma RouteUnique(es: seq<Entry>, k: Str, i: nat, lo: Bound, hi: Bound)
    requires i < |es| && Increasing(Seps(es)) && Between(k, LoOf(Seps(es), i, lo), HiOf(Seps(es), i, hi))
    ensures Route(es, k) == i
  {
    RouteBounds(es, k);
    var r := Route(es, k);
    var seps := Seps(es);
    if r < i - 1 { LessTransitive(seps[r], seps[i - 1], k); }
  }

  lemma RouteWithin(es: seq<Entry>, k: Str, lo: Bound, hi: Bound)
    requires es != [] && Between(k, lo, hi)
    ensures Between(k, LoOf(Seps(es), Route(es, k), lo), HiOf(Seps(es), Route(es, k), hi))
  {
    RouteBounds(es, k);
  }

  lemma {:induction false} FindHas(recs: seq<Rec>, k: Str, v: Str)
    requires Distinct(recs)
    ensures Find(recs, k) == Some(v) <==> Rec(k, v) in recs
  {
    if recs != [] {
      assert recs == [recs[0]] + recs[1..];
      FindHas(recs[1..], k, v);
      if recs[0].key == k {
        assert forall r | r in recs[1..] :: r.key != k;
      }
    }
  }

  /** lookup returns v exactly if the tree holds the record (k, v). */
  lemma {:induction false} LookupFinds(t: Tree, h: nat, lo: Bound, hi: Bound, tight: bool, k: Str, v: Str)
    requires Inv(t, h, lo, hi, tight) && Shaped(t)
    ensures Lookup(t, k) == Some(v) <==> Has(t, Rec(k, v))
    decreases t
  {
    match t
    case L(l) => FindHas(l.recs, k, v);
    case N(es) =>
      var i := Route(es, k);
      LookupFinds(Kid(es, i), h - 1, LoOf(Seps(es), i, lo), HiOf(Seps(es), i, hi), tight, k, v);
      if Has(t, Rec(k, v)) {
        var j :| 0 <= j < |es| && Has(es[j].child, Rec(k, v));
        WithinBounds(Kid(es, j), h - 1, LoOf(Seps(es), j, lo), HiOf(Seps(es), j, hi), tight, Rec(k, v));
        RouteUnique(es, k, j, lo, hi);
      }
  }
}
