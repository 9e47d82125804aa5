/** node_split and node_merge on the bytes of leaves, tied to what the tree does with their records. */
module BzNodeSmo {
  import opened BzKeys
  import opened BzSmo
  import opened BzBytes
  import opened BzLayout
  import opened BzNode
  import BzTree

  lemma {:induction false} LiveParts(recs: seq<Rec>, m: nat)
    requires m <= |recs|
    ensures Live(recs) == Live(recs[..m]) + Live(recs[m..])
  {
    assert recs == recs[..m] + recs[m..];
    LiveAppend(recs[..m], recs[m..]);
  }

  lemma SortedPart(recs: seq<Rec>, from: nat, to: nat)
    requires Sorted(recs) && CleanKeys(recs) && from <= to <= |recs|
    ensures Sorted(recs[from..to]) && CleanKeys(recs[from..to]) && Distinct(recs[from..to])
    ensures Terminated(recs)[from..to] == Terminated(recs[from..to])
  {
    SortedDistinct(recs[from..to]);
  }

  /** A leaf made of a stretch of sorted stored pairs. */
  method LeafOf(pairs: seq<Rec>, from: nat, to: nat, ghost recs: seq<Rec>) returns (n: Node)
    requires pairs == Terminated(recs) && Sorted(recs) && CleanKeys(recs) && Live(recs) <= BODY && from <= to <= |recs|
    ensures fresh(n) && fresh(n.body) && n.ValidLeaf() && n.Contents() == Leaf(recs[from..to], 0) && n.sorted == n.count
  {
    ghost var part := recs[from..to];
    SortedPart(recs, from, to);
    PairBytesLive(part);
    LivePart(recs, from, to);
    n := CopyIn(pairs[from..to]);
    LeafOfPairs(n.slots, part);
  }

  lemma LivePart(recs: seq<Rec>, from: nat, to: nat)
    requires from <= to <= |recs|
    ensures Live(recs[from..to]) <= Live(recs)
  {
    LiveParts(recs, to);
    LiveParts(recs[..to], from);
    assert recs[..to][from..] == recs[from..to];
  }

  /** copy_out of a leaf; recs are its records in order. */
  method SortedPairs(n: Node) returns (pairs: seq<Rec>, ghost recs: seq<Rec>)
    requires n.ValidLeaf()
    ensures recs == Sort(n.Contents().recs) && pairs == Terminated(recs)
    ensures Sorted(recs) && CleanKeys(recs) && Live(recs) <= Used(n.Contents()) && Live(recs) <= BODY
  {
    LeafSorted(n.body[..], n.block, n.deleted, n.slots);
    recs := Sort(Recs(n.slots));
    pairs := n.CopyOut();
  }

  /** The leaf l is split into x under the separator a and y under b. */
  ghost predicate SplitsInto(l: Leaf, x: Leaf, a: Str, y: Leaf, b: Str) {
    BzTree.Halves(BzTree.L(l)) == Some((BzTree.Entry(a, BzTree.L(x)), BzTree.Entry(b, BzTree.L(y))))
  }

  lemma HalvesOfLeaf(l: Leaf)
    ensures Pivot(KeySizes(Sort(l.recs))) == None <==> BzTree.Halves(BzTree.L(l)) == None
    ensures Pivot(KeySizes(Sort(l.recs))).Some? ==>
              var recs, m := Sort(l.recs), Pivot(KeySizes(Sort(l.recs))).value;
              SplitsInto(l, Leaf(recs[0..m], 0), recs[m - 1].key, Leaf(recs[m..|recs|], 0), recs[|recs| - 1].key)
  {
    var recs := Sort(l.recs);
    if m :| Pivot(KeySizes(recs)) == Some(m) { assert recs[0..m] == recs[..m] && recs[m..|recs|] == recs[m..]; }
  }

  function SizesOf(pairs: seq<Rec>): (sizes: seq<nat>)
    ensures |sizes| == |pairs|
  {
    seq(|pairs|, i requires 0 <= i < |pairs| => |pairs[i].key|)
  }

  lemma SizesTerminated(recs: seq<Rec>)
    ensures SizesOf(Terminated(recs)) == KeySizes(recs)
    ensures forall i | 0 <= i < |recs| :: KeySizes(recs)[i] > 0
  {
  }

  /** The two new leaves, and the last key of either. */
  method LeafHalves(pairs: seq<Rec>, m: nat, ghost recs: seq<Rec>) returns (x: Node, y: Node, a: seq<Byte>, b: seq<Byte>)
    requires pairs == Terminated(recs) && Sorted(recs) && CleanKeys(recs) && Live(recs) <= BODY && 0 < m < |recs|
    ensures fresh(x) && fresh(x.body) && x.ValidLeaf() && x.Contents() == Leaf(recs[0..m], 0)
    ensures fresh(y) && fresh(y.body) && y.ValidLeaf() && y.Contents() == Leaf(recs[m..|recs|], 0)
    ensures a == Strip(a) + [0] && Strip(a) == recs[m - 1].key && b == Strip(b) + [0] && Strip(b) == recs[|recs| - 1].key
  {
    a, b := pairs[m - 1].key, pairs[|pairs| - 1].key;
    StripTerminated(recs[m - 1].key);
    StripTerminated(recs[|recs| - 1].key);
    x := LeafOf(pairs, 0, m, recs);
    y := LeafOf(pairs, m, |pairs|, recs);
  }

  /** node_split of a leaf, up to the two new nodes and their keys; None if one of its assertions fails. */
  method SplitLeaf(n: Node) returns (halves: Option<(Node, Node)>, a: seq<Byte>, b: seq<Byte>)
    requires n.ValidLeaf()
    ensures halves.Some? <==> BzTree.Halves(BzTree.L(n.Contents())).Some?
    ensures halves.Some? ==>
              && halves.value.0.ValidLeaf() && halves.value.1.ValidLeaf() && a == Strip(a) + [0] && b == Strip(b) + [0]
              && SplitsInto(n.Contents(), halves.value.0.Contents(), Strip(a), halves.value.1.Contents(), Strip(b))
  {
    ghost var l := n.Contents();
    var pairs, recs := SortedPairs(n);
    SizesTerminated(recs);
    var m := FindPivot(SizesOf(pairs));
    HalvesOfLeaf(l);
    if m == None { return None, [], []; }
    var x, y;
    x, y, a, b := LeafHalves(pairs, m.value, recs);
    halves := Some((x, y));
  }

  /** node_merge of two neighbouring leaves that fit together. */
  method MergeLeaves(a: Node, b: Node) returns (n: Node)
    requires a.ValidLeaf() && b.ValidLeaf() && Used(a.Contents()) + Used(b.Contents()) <= BODY
    requires Sorted(Sort(a.Contents().recs) + Sort(b.Contents().recs))
    ensures fresh(n) && fresh(n.body) && n.ValidLeaf() && n.sorted == n.count
    ensures BzTree.L(n.Contents()) == BzTree.Joined(BzTree.L(a.Contents()), BzTree.L(b.Contents()))
  {
    var left, x := SortedPairs(a);
    var right, y := SortedPairs(b);
    LiveAppend(x, y);
    JoinTerminated(x, y);
    n := LeafOf(left + right, 0, |left + right|, x + y);
    assert (x + y)[0..|x + y|] == x + y;
  }

  lemma JoinTerminated(x: seq<Rec>, y: seq<Rec>)
    requires CleanKeys(x) && CleanKeys(y)
    ensures Terminated(x) + Terminated(y) == Terminated(x + y) && CleanKeys(x + y)
  {
  }

  // ---- Words ----

  /** Every word of a node that is handed to AddEntry has its three top bits clear. */
  lemma WordsClean(body: seq<Byte>, block: nat, deleted: nat, slots: seq<Slot>, frozen: bool, i: nat, epoch: nat)
    requires Laid(body, block, deleted, slots) && i < |slots| && epoch < RESERVED
    ensures PackStatus(frozen, |slots|, block, deleted) < W61
    ensures WordOf(body[8 * i..8 * i + 8]) < W61
    ensures Pack(Meta(false, RESERVED + epoch, 0, 0)) < W61
  {
    StatusWordClean(frozen, |slots|, block, deleted);
    PackRoundTrip(Meta(false, RESERVED + epoch, 0, 0));
    assert SlotAt(body, block, slots[i], i);
    WordBelow(body[8 * i..8 * i + 8]);
  }

  /** A word whose total_len is small is small. */
  lemma WordBelow(s: seq<Byte>)
    requires |s| == 8 && Unpack(WordOf(s)).totalLen < 0x2000
    ensures WordOf(s) < W61
  {
    WordFits(s);
    assert Power(2) == 0x1_0000 && Power(4) == 0x1_0000_0000 && Power(6) == 0x1_0000_0000_0000 && Power(8) == W64;
  }

  lemma {:induction false} WordFits(s: seq<Byte>)
    ensures WordOf(s) < Power(|s|)
  {
    if s != [] { WordFits(s[1..]); }
  }
}
