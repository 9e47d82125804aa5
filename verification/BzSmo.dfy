/**
  Leaf contents and what the structural changes do to them: sorting, the split point, and the
  space they take. A leaf of 240 bytes is described by its visible records, in slot order, and
  by its deleted bytes.
*/
module BzSmo {
  import opened BzKeys

  const BODY := 240            // sizeof(Node::body)
  const META := 8              // sizeof(NodeMetadata)
  const MIN_FREE := 48         // BZTREE_MIN_FREE_SPACE
  const MAX_DELETED := 100     // BZTREE_MAX_DELETED_SPACE
  const NODE := 256            // BZTREE_NODE_SIZE

  datatype Rec = Rec(key: Str, val: Str)

  /** The key-value block of a record, both terminators included. */
  function Block(r: Rec): nat { |r.key| + 1 + |r.val| + 1 }

  function Live(recs: seq<Rec>): nat {
    if recs == [] then 0 else Live(recs[..|recs| - 1]) + META + Block(recs[|recs| - 1])
  }

  predicate Distinct(recs: seq<Rec>) {
    forall i, j | 0 <= i < j < |recs| :: recs[i].key != recs[j].key
  }

  predicate Sorted(recs: seq<Rec>) {
    forall i, j | 0 <= i < j < |recs| :: Less(recs[i].key, recs[j].key)
  }

  datatype Leaf = Leaf(recs: seq<Rec>, deleted: nat)

  function Used(l: Leaf): nat { Live(l.recs) + l.deleted }

  predicate LeafOK(l: Leaf) {
    Used(l) <= BODY && Distinct(l.recs) && forall i | 0 <= i < |l.recs| :: Clean(l.recs[i].key) && Clean(l.recs[i].val)
  }

  // ---- Sorting (copy_out) ----

  function Insert(r: Rec, recs: seq<Rec>): seq<Rec> {
    if recs == [] || Less(r.key, recs[0].key) then [r] + recs else [recs[0]] + Insert(r, recs[1..])
  }

  function Sort(recs: seq<Rec>): seq<Rec> {
    if recs == [] then [] else Insert(recs[|recs| - 1], Sort(recs[..|recs| - 1]))
  }

  lemma {:induction false} LiveAppend(a: seq<Rec>, b: seq<Rec>)
    ensures Live(a + b) == Live(a) + Live(b)
  {
    if b == [] {
      assert a + b == a;
    } else {
      assert (a + b)[..|a + b| - 1] == a + b[..|b| - 1];
      LiveAppend(a, b[..|b| - 1]);
    }
  }

  lemma LiveThree(all: seq<Rec>, a: seq<Rec>, b: seq<Rec>, c: seq<Rec>)
    requires all == a + b + c
    ensures Live(all) == Live(a) + Live(b) + Live(c)
  {
    LiveAppend(a + b, c);
    LiveAppend(a, b);
  }

  /** r is below all records that follow one that r is below. */
  lemma BelowRest(r: Rec, recs: seq<Rec>)
    requires Sorted(recs) && recs != [] && Less(r.key, recs[0].key)
    ensures Sorted([r] + recs)
  {
    forall j | 0 <= j < |recs|
      ensures Less(r.key, recs[j].key)
    {
      if j > 0 { LessTransitive(r.key, recs[0].key, recs[j].key); }
    }
  }

  lemma {:induction false} InsertFacts(r: Rec, recs: seq<Rec>)
    requires Sorted(recs) && forall x | x in recs :: x.key != r.key
    ensures Sorted(Insert(r, recs)) && |Insert(r, recs)| == |recs| + 1
    ensures forall x :: x in Insert(r, recs) <==> x == r || x in recs
    ensures Live(Insert(r, recs)) == Live(recs) + META + Block(r)
  {
    if recs == [] {
      LiveAppend([r], recs);
    } else if Less(r.key, recs[0].key) {
      LiveAppend([r], recs);
      BelowRest(r, recs);
    } else {
      var tail := recs[1..];
      assert recs == [recs[0]] + tail;
      InsertFacts(r, tail);
      LiveAppend([recs[0]], tail);
      LiveAppend([recs[0]], Insert(r, tail));
      LessTotal(r.key, recs[0].key);
      assert recs[0] in recs;
      HeadFirst(recs[0], Insert(r, tail), tail, r);
    }
  }

  lemma HeadFirst(h: Rec, rest: seq<Rec>, tail: seq<Rec>, r: Rec)
    requires Sorted([h] + tail) && Sorted(rest) && Less(h.key, r.key)
    requires forall x :: x in rest <==> x == r || x in tail
    ensures Sorted([h] + rest)
  {
    forall j | 0 <= j < |rest|
      ensures Less(h.key, rest[j].key)
    {
      assert rest[j] in rest;
      if rest[j] != r {
        var i :| 0 <= i < |tail| && tail[i] == rest[j];
        var all := [h] + tail;
        assert all[i + 1] == tail[i] && Less(all[0].key, all[i + 1].key);
      }
    }
  }

  /** copy_out returns the same records, in key order. */
  lemma {:induction false} SortFacts(recs: seq<Rec>)
    requires Distinct(recs)
    ensures Sorted(Sort(recs)) && |Sort(recs)| == |recs| && Live(Sort(recs)) == Live(recs)
    ensures forall x :: x in Sort(recs) <==> x in recs
  {
    if recs != [] {
      var n := |recs| - 1;
      SortFacts(recs[..n]);
      assert recs == recs[..n] + [recs[n]];
      InsertFacts(recs[n], Sort(recs[..n]));
    }
  }

  lemma SortedDistinct(recs: seq<Rec>)
    requires Sorted(recs)
    ensures Distinct(recs)
  {
    LessOrders();
  }

  lemma {:induction false} SameHead(a: seq<Rec>, b: seq<Rec>)
    requires Sorted(a) && Sorted(b) && (forall x :: x in a <==> x in b)
    ensures a == b
  {
    LessOrders();
    assert a != [] ==> a[0] in a && b != [];
    assert b != [] ==> b[0] in b && a != [];
    if a != [] {
      assert a[0] in b && b[0] in a;
      assert a == [a[0]] + a[1..] && b == [b[0]] + b[1..];
      assert a[0] == b[0];
      forall x
        ensures x in a[1..] <==> x in b[1..]
      {
        assert x in a[1..] <==> x in a && x != a[0];
        assert x in b[1..] <==> x in b && x != b[0];
      }
      SameHead(a[1..], b[1..]);
    }
  }

  // ---- The split point ----

  function Sum(sizes: seq<nat>, n: nat): nat
    requires n <= |sizes|
  {
    if n == 0 then 0 else Sum(sizes, n - 1) + sizes[n - 1]
  }

  datatype Option<T> = None | Some(value: T)

  /** node_split's two assertions: more than two records, and the last key shorter than all others together. */
  predicate Splittable(sizes: seq<nat>) {
    |sizes| > 2 && sizes[|sizes| - 1] < Sum(sizes, |sizes| - 1)
  }

  /** p is where the key bytes seen first exceed half of all. */
  predicate IsHalf(sizes: seq<nat>, p: nat) {
    0 < p <= |sizes| && 2 * Sum(sizes, p - 1) <= Sum(sizes, |sizes|) < 2 * Sum(sizes, p)
  }

  /** The number of records that go left; None if an assertion fails. */
  function Pivot(sizes: seq<nat>): (m: Option<nat>)
    ensures m.Some? ==> 0 < m.value < |sizes|
  {
    var n := |sizes|;
    if n <= 2 then None
    else
      var p := HalfFrom(sizes, 1);
      if p >= n then None else if p + 1 == n then Some(p - 1) else Some(p)
  }

  function HalfFrom(sizes: seq<nat>, p: nat): (q: nat)
    requires 0 < p
    ensures q >= p
    decreases |sizes| - p
  {
    if p >= |sizes| || 2 * Sum(sizes, p) > Sum(sizes, |sizes|) then p else HalfFrom(sizes, p + 1)
  }

  lemma {:induction false} SumGrows(sizes: seq<nat>, a: nat, b: nat)
    requires a <= b <= |sizes|
    ensures Sum(sizes, a) <= Sum(sizes, b)
  {
    if a < b { SumGrows(sizes, a, b - 1); }
  }

  lemma {:induction false} HalfUnique(sizes: seq<nat>, p: nat, q: nat)
    requires 0 < p <= |sizes| && IsHalf(sizes, q) && 2 * Sum(sizes, p - 1) <= Sum(sizes, |sizes|)
    ensures HalfFrom(sizes, p) == q
    decreases |sizes| - p
  {
    if q < p { SumGrows(sizes, q, p - 1); }
    if 2 * Sum(sizes, p) > Sum(sizes, |sizes|) {
      if p < q { SumGrows(sizes, p, q - 1); }
    } else {
      HalfUnique(sizes, p + 1, q);
    }
  }

  /** A split succeeds exactly under the two assertions, and then neither side is empty. */
  lemma PivotExists(sizes: seq<nat>)
    requires forall i | 0 <= i < |sizes| :: sizes[i] > 0
    ensures Pivot(sizes).Some? <==> Splittable(sizes)
    ensures Pivot(sizes).Some? ==> exists p: nat ::
              IsHalf(sizes, p) && p < |sizes| && Pivot(sizes).value == if p + 1 == |sizes| then p - 1 else p
  {
    if |sizes| > 2 {
      var q := FirstHalf(sizes, |sizes|);
      HalfUnique(sizes, 1, q);
      var n := |sizes|;
      if q < n { SumGrows(sizes, q, n - 1); }
    }
  }

  lemma {:induction false} FirstHalf(sizes: seq<nat>, n: nat) returns (p: nat)
    requires 0 < n <= |sizes| && 2 * Sum(sizes, n) > Sum(sizes, |sizes|)
    ensures IsHalf(sizes, p)
  {
    if n == 1 || 2 * Sum(sizes, n - 1) <= Sum(sizes, |sizes|) { p := n; } else { p := FirstHalf(sizes, n - 1); }
  }

  /** The loop of node_split that moves sep. */
  method FindPivot(sizes: seq<nat>) returns (m: Option<nat>)
    requires forall i | 0 <= i < |sizes| :: sizes[i] > 0
    ensures m == Pivot(sizes)
  {
    if |sizes| <= 2 { return None; }
    var total := 0;
    for i := 0 to |sizes|
      invariant total == Sum(sizes, i)
    {
      total := total + sizes[i];
    }
    var sep, seen := 0, 0;
    while sep != |sizes|
      invariant sep <= |sizes| && seen == Sum(sizes, sep) && 2 * seen <= total
      invariant HalfFrom(sizes, 1) == HalfFrom(sizes, sep + 1)
      decreases |sizes| - sep
    {
      seen := seen + sizes[sep];
      sep := sep + 1;
      if seen + seen > total { break; }
    }
    if sep == |sizes| { return None; }
    if sep + 1 == |sizes| { sep := sep - 1; }
    m := Some(sep);
  }

  function KeySizes(recs: seq<Rec>): (sizes: seq<nat>)
    ensures |sizes| == |recs|
  {
    seq(|recs|, i requires 0 <= i < |recs| => |recs[i].key| + 1)
  }
}
