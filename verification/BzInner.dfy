/**
  Inner nodes on bytes: separators as C strings, children as 8-byte pointers. Descending, splitting
  and merging read and write exactly the entries the tree works with.
*/
module BzInner {
  import opened BzKeys
  import opened BzSmo
  import opened BzBytes
  import opened BzLayout
  import opened BzNode
  import opened BzNodeSmo
  import opened BzTree
  import opened BzTreeInv

  // ---- Entries as stored pairs ----

  function Pairs(es: seq<Entry>, ps: seq<nat>): (pairs: seq<Rec>)
    requires |es| == |ps|
    ensures |pairs| == |es|
  {
    seq(|es|, i requires 0 <= i < |es| => Rec(es[i].sep + [0], BytesOf(ps[i], 8)))
  }

  lemma PairsAppend(a: seq<Entry>, ps: seq<nat>, b: seq<Entry>, qs: seq<nat>)
    requires |a| == |ps| && |b| == |qs|
    ensures Pairs(a + b, ps + qs) == Pairs(a, ps) + Pairs(b, qs)
  {
  }

  lemma PairsPart(es: seq<Entry>, ps: seq<nat>, i: nat, j: nat)
    requires |es| == |ps| && i <= j <= |es|
    ensures Pairs(es[i..j], ps[i..j]) == Pairs(es, ps)[i..j]
  {
  }

  /** Entries i to j replaced by others. */
  lemma PairsSplice(es: seq<Entry>, ps: seq<nat>, i: nat, j: nat, mid: seq<Entry>, qs: seq<nat>)
    requires |es| == |ps| && i <= j <= |es| && |mid| == |qs|
    ensures Pairs(es[..i] + mid + es[j..], ps[..i] + qs + ps[j..]) == Pairs(es, ps)[..i] + Pairs(mid, qs) + Pairs(es, ps)[j..]
  {
    PairsPart(es, ps, 0, i);
    PairsPart(es, ps, j, |es|);
    assert es[0..i] == es[..i] && ps[0..i] == ps[..i] && Pairs(es, ps)[0..i] == Pairs(es, ps)[..i];
    assert es[j..|es|] == es[j..] && ps[j..|es|] == ps[j..] && Pairs(es, ps)[j..|es|] == Pairs(es, ps)[j..];
    PairsAppend(es[..i] + mid, ps[..i] + qs, es[j..], ps[j..]);
    PairsAppend(es[..i], ps[..i], mid, qs);
  }

  /** Words, and different ones even without their three low bits. */
  predicate Pointers(ps: seq<nat>) {
    (forall i | 0 <= i < |ps| :: ps[i] < W64) && (forall i, j | 0 <= i < j < |ps| :: ps[i] / 8 != ps[j] / 8)
  }

  predicate Entries(es: seq<Entry>, ps: seq<nat>) {
    |es| == |ps| && Pointers(ps) && Increasing(Seps(es)) && forall i | 0 <= i < |es| :: Clean(es[i].sep)
  }

  /** A tree in order can be stored: whatever the structural changes keep in order meets what copy_in needs. */
  lemma InOrderEntries(es: seq<Entry>, ps: seq<nat>, h: nat, lo: Bound, hi: Bound, tight: bool)
    requires Inv(N(es), h, lo, hi, tight) && |ps| == |es| && Pointers(ps)
    ensures Entries(es, ps) && InnerUsed(es) <= BODY
  {
    forall i | 0 <= i < |es| ensures Clean(es[i].sep) { assert Between(Seps(es)[i], lo, hi); }
  }

  /** The node stores the entries, with the pointers ps to their children. */
  ghost predicate Stores(n: Node, es: seq<Entry>, ps: seq<nat>)
    reads n, n.body
  {
    n.Valid() && n.deleted == 0 && Entries(es, ps) && HoldsPairs(n.slots, Pairs(es, ps))
  }

  lemma PairsInOrder(es: seq<Entry>, ps: seq<nat>)
    requires Entries(es, ps)
    ensures Sorted(Pairs(es, ps))
  {
    forall i, j | 0 <= i < j < |es|
      ensures Less(Pairs(es, ps)[i].key, Pairs(es, ps)[j].key)
    {
      assert Less(Seps(es)[i], Seps(es)[j]);
      LessTerminated(es[i].sep, es[j].sep);
    }
  }

  /** The bytes of an inner node are what the tree counts. */
  lemma {:induction false} InnerBytes(es: seq<Entry>, ps: seq<nat>)
    requires |es| == |ps|
    ensures PairBytes(Pairs(es, ps)) == InnerUsed(es)
  {
    if es != [] {
      var n := |es| - 1;
      assert Pairs(es, ps)[..n] == Pairs(es[..n], ps[..n]);
      InnerBytes(es[..n], ps[..n]);
    }
  }

  lemma {:induction false} LiveOfPairs(slots: seq<Slot>, pairs: seq<Rec>)
    requires HoldsPairs(slots, pairs)
    ensures LiveBytes(slots) == PairBytes(pairs)
  {
    if slots != [] {
      var n := |slots| - 1;
      LiveOfPairs(slots[..n], pairs[..n]);
    }
  }

  /** free_space of the node is the tree's. */
  lemma FreeSpace(n: Node, es: seq<Entry>, ps: seq<nat>)
    requires Stores(n, es, ps)
    ensures BODY - META * n.count - n.block == Free(N(es)) >= 0
  {
    LiveOfPairs(n.slots, Pairs(es, ps));
    InnerBytes(es, ps);
  }

  // ---- Descending ----

  lemma PointerReads(p: nat)
    requires p < W64
    ensures WordOf(BytesOf(p, 8)) == p
  {
    assert Power(2) == 0x1_0000 && Power(4) == 0x1_0000_0000 && Power(6) == 0x1_0000_0000_0000 && Power(8) == W64;
    BytesRoundTrip(p, 8);
  }

  /** What is read of entry i: its metadata, the separator as strcmp sees it, and the pointer. */
  lemma EntryReads(n: Node, es: seq<Entry>, ps: seq<nat>, i: nat)
    requires Stores(n, es, ps) && i < |es|
    ensures 8 * i + 8 <= BODY
    ensures var m := ReadMeta(n.body[..], i);
            && m.visible && m.totalLen == m.keyLen + CHILD && m.offset + m.totalLen <= BODY
            && CStr(n.body[..], m.offset) == es[i].sep
            && WordOf(n.body[m.offset + m.keyLen..m.offset + m.totalLen]) == ps[i]
  {
    var body, s := n.body[..], n.slots[i];
    assert SlotAt(body, n.block, s, i);
    assert s.key == es[i].sep + [0] && s.val == BytesOf(ps[i], 8);
    CStrReads(body, s.offset, es[i].sep);
    PointerReads(ps[i]);
    assert n.body[s.offset + |s.key|..s.offset + Size(s)] == body[s.offset + |s.key|..s.offset + Size(s)];
  }

  /** The pointer of entry i. */
  method Child(n: Node, i: nat, ghost es: seq<Entry>, ghost ps: seq<nat>) returns (p: nat)
    requires Stores(n, es, ps) && i < |es|
    ensures p == ps[i]
  {
    EntryReads(n, es, ps, i);
    var m := ReadMeta(n.body[..], i);
    p := WordOf(n.body[m.offset + m.keyLen..m.offset + m.totalLen]);
  }

  /** The loop that picks the child to descend into, by strcmp on the bytes. */
  method Descend(n: Node, k: Str, ghost es: seq<Entry>, ghost ps: seq<nat>) returns (i: nat, p: nat)
    requires Stores(n, es, ps) && es != [] && Clean(k)
    ensures i == Route(es, k) && p == ps[i]
  {
    i := 0;
    while i < n.count
      invariant i <= n.count && forall j | 0 <= j < i :: Less(es[j].sep, k)
    {
      EntryReads(n, es, ps, i);
      var m := ReadMeta(n.body[..], i);
      assert m.totalLen == m.keyLen + CHILD;
      if !Less(CStr(n.body[..], m.offset), k) { break; }
      i := i + 1;
    }
    if i == n.count { i := i - 1; }
    RouteBounds(es, k);
    p := Child(n, i, es, ps);
  }

  // ---- Structural changes of inner nodes ----

  /** copy_out of an inner node: it is sorted already. */
  method EntryList(n: Node, ghost es: seq<Entry>, ghost ps: seq<nat>) returns (pairs: seq<Rec>)
    requires Stores(n, es, ps)
    ensures pairs == Pairs(es, ps) && PairBytes(pairs) == InnerUsed(es) <= BODY
  {
    RawOfPairs(n.slots, Pairs(es, ps));
    PairsInOrder(es, ps);
    SortSorted(Pairs(es, ps));
    FreeSpace(n, es, ps);
    InnerBytes(es, ps);
    pairs := n.CopyOut();
  }

  /** copy_in of entries. */
  method NodeOf(pairs: seq<Rec>, ghost es: seq<Entry>, ghost ps: seq<nat>) returns (n: Node)
    requires Entries(es, ps) && pairs == Pairs(es, ps) && InnerUsed(es) <= BODY
    ensures fresh(n) && fresh(n.body) && Stores(n, es, ps) && n.sorted == n.count
  {
    InnerBytes(es, ps);
    n := CopyIn(pairs);
  }

  lemma PartEntries(es: seq<Entry>, ps: seq<nat>, a: nat, b: nat)
    requires Entries(es, ps) && a <= b <= |es|
    ensures Entries(es[a..b], ps[a..b]) && Pairs(es[a..b], ps[a..b]) == Pairs(es, ps)[a..b]
  {
    PairsPart(es, ps, a, b);
    var part := es[a..b];
    forall i, j | 0 <= i < j < |part|
      ensures Less(Seps(part)[i], Seps(part)[j])
    {
      assert Less(Seps(es)[a + i], Seps(es)[a + j]);
    }
  }

  lemma {:induction false} PartUsed(es: seq<Entry>, m: nat)
    requires m <= |es|
    ensures InnerUsed(es[..m]) + InnerUsed(es[m..]) == InnerUsed(es)
    decreases |es|
  {
    if m == |es| {
      assert es[..m] == es && es[m..] == [];
    } else {
      var n := |es| - 1;
      PartUsed(es[..n], m);
      assert es[..n][..m] == es[..m] && es[m..][..n - m] == es[..n][m..];
    }
  }

  lemma LeftEntries(es: seq<Entry>, ps: seq<nat>, m: nat)
    requires Entries(es, ps) && m <= |es|
    ensures Entries(es[..m], ps[..m]) && Pairs(es[..m], ps[..m]) == Pairs(es, ps)[..m]
  {
    PartEntries(es, ps, 0, m);
    assert es[0..m] == es[..m] && ps[0..m] == ps[..m] && Pairs(es, ps)[0..m] == Pairs(es, ps)[..m];
  }

  lemma RightEntries(es: seq<Entry>, ps: seq<nat>, m: nat)
    requires Entries(es, ps) && m <= |es|
    ensures Entries(es[m..], ps[m..]) && Pairs(es[m..], ps[m..]) == Pairs(es, ps)[m..]
  {
    var n := |es|;
    PartEntries(es, ps, m, n);
    assert es[m..n] == es[m..] && ps[m..n] == ps[m..] && Pairs(es, ps)[m..n] == Pairs(es, ps)[m..];
  }

  lemma EntryKeySizes(es: seq<Entry>, ps: seq<nat>)
    requires |es| == |ps|
    ensures SizesOf(Pairs(es, ps)) == EntrySizes(es)
    ensures forall i | 0 <= i < |es| :: EntrySizes(es)[i] > 0
  {
  }

  /** node_split of an inner node, up to the two new nodes and their keys; None if an assertion fails. */
  method SplitInner(n: Node, ghost es: seq<Entry>, ghost ps: seq<nat>)
    returns (halves: Option<(Node, Node)>, a: seq<Byte>, b: seq<Byte>, ghost m: nat)
    requires Stores(n, es, ps)
    ensures halves.Some? <==> Halves(N(es)).Some?
    ensures halves.Some? ==>
              var (x, y) := Halves(N(es)).value;
              && a == x.sep + [0] && b == y.sep + [0] && x.child.N? && y.child.N? && m <= |ps|
              && Stores(halves.value.0, x.child.entries, ps[..m]) && Stores(halves.value.1, y.child.entries, ps[m..])
  {
    var pairs := EntryList(n, es, ps);
    EntryKeySizes(es, ps);
    var pivot := FindPivot(SizesOf(pairs));
    a, b, m := [], [], 0;
    if pivot == None { return None, [], [], 0; }
    m := pivot.value;
    LeftEntries(es, ps, m);
    RightEntries(es, ps, m);
    PartUsed(es, m);
    var left := NodeOf(pairs[..pivot.value], es[..m], ps[..m]);
    var right := NodeOf(pairs[pivot.value..], es[m..], ps[m..]);
    a, b := pairs[pivot.value - 1].key, pairs[|pairs| - 1].key;
    halves := Some((left, right));
  }

  /** node_merge of two inner neighbours that fit together. */
  method MergeInner(a: Node, b: Node, ghost x: seq<Entry>, ghost ps: seq<nat>, ghost y: seq<Entry>, ghost qs: seq<nat>)
    returns (n: Node)
    requires Stores(a, x, ps) && Stores(b, y, qs) && Entries(x + y, ps + qs) && InnerUsed(x + y) <= BODY
    ensures fresh(n) && fresh(n.body) && n.sorted == n.count
    ensures Joined(N(x), N(y)).N? && Stores(n, Joined(N(x), N(y)).entries, ps + qs)
  {
    var left := EntryList(a, x, ps);
    var right := EntryList(b, y, qs);
    PairsAppend(x, ps, y, qs);
    n := NodeOf(left + right, x + y, ps + qs);
  }

  // ---- The parent of a structural change ----

  /** The loop that looks for the entry of a child by its pointer, the three low bits masked. */
  method FindPointer(pairs: seq<Rec>, p: nat, ghost es: seq<Entry>, ghost ps: seq<nat>, ghost i: nat) returns (j: nat)
    requires Entries(es, ps) && pairs == Pairs(es, ps) && i < |es| && p / 8 == ps[i] / 8
    ensures j == i
  {
    j := 0;
    while j != |pairs|
      invariant j <= i
      decreases |pairs| - j
    {
      PointerReads(ps[j]);
      if WordOf(pairs[j].val) / 8 == p / 8 { break; }
      j := j + 1;
    }
  }

  lemma SplitPairs(es: seq<Entry>, ps: seq<nat>, i: nat, halves: (Entry, Entry), l: nat, r: nat)
    requires |es| == |ps| && i < |es|
    ensures Pairs(SplitAt(es, i, halves), ps[..i] + [l, r] + ps[i + 1..])
            == Pairs(es, ps)[..i] + [Rec(halves.0.sep + [0], BytesOf(l, 8)), Rec(halves.1.sep + [0], BytesOf(r, 8))]
               + Pairs(es, ps)[i + 1..]
  {
    PairsSplice(es, ps, i, i + 1, [halves.0, halves.1], [l, r]);
  }

  /** node_split's new parent: the entry of the child at p makes way for its two halves. */
  method SplitParent(n: Node, p: nat, a: seq<Byte>, l: nat, b: seq<Byte>, r: nat,
                     ghost es: seq<Entry>, ghost ps: seq<nat>, ghost i: nat, ghost halves: (Entry, Entry))
    returns (n': Node)
    requires Stores(n, es, ps) && i < |es| && p / 8 == ps[i] / 8
    requires a == halves.0.sep + [0] && b == halves.1.sep + [0]
    requires Entries(SplitAt(es, i, halves), ps[..i] + [l, r] + ps[i + 1..]) && InnerUsed(SplitAt(es, i, halves)) <= BODY
    ensures fresh(n') && fresh(n'.body) && n'.sorted == n'.count
    ensures Stores(n', SplitAt(es, i, halves), ps[..i] + [l, r] + ps[i + 1..])
  {
    var pairs := EntryList(n, es, ps);
    var j := FindPointer(pairs, p, es, ps, i);
    SplitPairs(es, ps, i, halves, l, r);
    pairs := pairs[..j] + [Rec(a, BytesOf(l, 8)), Rec(b, BytesOf(r, 8))] + pairs[j + 1..];
    n' := NodeOf(pairs, SplitAt(es, i, halves), ps[..i] + [l, r] + ps[i + 1..]);
  }

  /** node_split without a parent: the new root. */
  method NewRoot(a: seq<Byte>, l: nat, b: seq<Byte>, r: nat, ghost halves: (Entry, Entry)) returns (n: Node)
    requires a == halves.0.sep + [0] && b == halves.1.sep + [0]
    requires Entries([halves.0, halves.1], [l, r]) && InnerUsed([halves.0, halves.1]) <= BODY
    ensures fresh(n) && fresh(n.body) && Stores(n, [halves.0, halves.1], [l, r]) && n.sorted == n.count
  {
    var pairs := [Rec(a, BytesOf(l, 8)), Rec(b, BytesOf(r, 8))];
    assert pairs == Pairs([halves.0, halves.1], [l, r]);
    n := NodeOf(pairs, [halves.0, halves.1], [l, r]);
  }

  lemma MergePairs(es: seq<Entry>, ps: seq<nat>, i: nat, c: nat)
    requires |es| == |ps| && i + 1 < |es| && (es[i].child.L? <==> es[i + 1].child.L?)
    ensures Pairs(MergeAt(es, i), ps[..i] + [c] + ps[i + 2..])
            == Pairs(es, ps)[..i] + [Rec(es[i + 1].sep + [0], BytesOf(c, 8))] + Pairs(es, ps)[i + 2..]
  {
    PairsSplice(es, ps, i, i + 2, [Entry(es[i + 1].sep, Joined(es[i].child, es[i + 1].child))], [c]);
  }

  lemma ReplaceAndErase(pairs: seq<Rec>, j: nat, r: Rec)
    requires j + 1 < |pairs|
    ensures pairs[j + 1 := r][..j] + pairs[j + 1 := r][j + 1..] == pairs[..j] + [r] + pairs[j + 2..]
  {
  }

  /** node_merge's new parent: the right entry keeps its key and gets the new child, the left one goes. */
  method MergeParent(n: Node, p: nat, c: nat, ghost es: seq<Entry>, ghost ps: seq<nat>, ghost i: nat) returns (n': Node)
    requires Stores(n, es, ps) && i + 1 < |es| && p / 8 == ps[i] / 8 && (es[i].child.L? <==> es[i + 1].child.L?)
    requires Entries(MergeAt(es, i), ps[..i] + [c] + ps[i + 2..]) && InnerUsed(MergeAt(es, i)) <= BODY
    ensures fresh(n') && fresh(n'.body) && n'.sorted == n'.count
    ensures Stores(n', MergeAt(es, i), ps[..i] + [c] + ps[i + 2..])
  {
    var pairs := EntryList(n, es, ps);
    var j := FindPointer(pairs, p, es, ps, i);
    MergePairs(es, ps, i, c);
    ReplaceAndErase(pairs, j, Rec(pairs[j + 1].key, BytesOf(c, 8)));
    pairs := pairs[j + 1 := Rec(pairs[j + 1].key, BytesOf(c, 8))];
    pairs := pairs[..j] + pairs[j + 1..];
    n' := NodeOf(pairs, MergeAt(es, i), ps[..i] + [c] + ps[i + 2..]);
  }
}
