/**
  The BzTree run by one thread at a time: traversal with structural changes, and the four
  operations. Inner nodes list children under upper-bound separators; the last separator of a
  node stands for infinity.
*/
module BzTree {
  import opened BzKeys
  import opened BzSmo

  datatype Entry = Entry(sep: Str, child: Tree)

  datatype Tree = L(leaf: Leaf) | N(entries: seq<Entry>)

  // ---- Space ----

  const CHILD := 8   // an inner node stores a child as 8 bytes, without terminator

  function EntrySize(e: Entry): nat { META + |e.sep| + 1 + CHILD }

  function InnerUsed(es: seq<Entry>): nat {
    if es == [] then 0 else InnerUsed(es[..|es| - 1]) + EntrySize(es[|es| - 1])
  }

  function TreeUsed(t: Tree): nat { if t.L? then Used(t.leaf) else InnerUsed(t.entries) }

  /** free_space(); an inner node is immutable, so nothing in it is ever deleted. */
  function Free(t: Tree): int { BODY - TreeUsed(t) }

  function Deleted(t: Tree): nat { if t.L? then t.leaf.deleted else 0 }

  // ---- Traversal ----

  /** The first separator not below the key; the last one counts as infinity. */
  function Route(es: seq<Entry>, k: Str): (i: nat)
    requires es != []
    ensures i < |es|
  {
    if |es| == 1 || !Less(es[0].sep, k) then 0 else 1 + Route(es[1..], k)
  }

  function Find(recs: seq<Rec>, k: Str): Option<Str> {
    if recs == [] then None else if recs[0].key == k then Some(recs[0].val) else Find(recs[1..], k)
  }

  /** No inner node is without children. */
  predicate Shaped(t: Tree) {
    t.N? ==> t.entries != [] && forall i | 0 <= i < |t.entries| :: Shaped(t.entries[i].child)
  }

  function LeafFor(t: Tree, k: Str): Leaf
    requires Shaped(t)
  {
    if t.L? then t.leaf else LeafFor(t.entries[Route(t.entries, k)].child, k)
  }

  function Lookup(t: Tree, k: Str): Option<Str>
    requires Shaped(t)
  {
    Find(LeafFor(t, k).recs, k)
  }

  // ---- Structural changes ----

  function Compact(t: Tree): Tree
    requires t.L?
  {
    L(Leaf(Sort(t.leaf.recs), 0))
  }

  function EntrySizes(es: seq<Entry>): (sizes: seq<nat>)
    ensures |sizes| == |es|
  {
    seq(|es|, i requires 0 <= i < |es| => |es[i].sep| + 1)
  }

  /** The two halves, each under its last key (node_split); None if one of its assertions fails. */
  function Halves(t: Tree): Option<(Entry, Entry)> {
    match t
    case L(l) =>
      var sorted := Sort(l.recs);
      (match Pivot(KeySizes(sorted))
       case None => None
       case Some(m) =>
         Some((Entry(sorted[m - 1].key, L(Leaf(sorted[..m], 0))), Entry(sorted[|sorted| - 1].key, L(Leaf(sorted[m..], 0))))))
    case N(es) =>
      match Pivot(EntrySizes(es))
      case None => None
      case Some(m) => Some((Entry(es[m - 1].sep, N(es[..m])), Entry(es[|es| - 1].sep, N(es[m..]))))
  }

  /** node_merge of two siblings. */
  function Joined(a: Tree, b: Tree): Tree
    requires a.L? <==> b.L?
  {
    if a.L? then L(Leaf(Sort(a.leaf.recs) + Sort(b.leaf.recs), 0)) else N(a.entries + b.entries)
  }

  function SplitAt(es: seq<Entry>, i: nat, halves: (Entry, Entry)): seq<Entry>
    requires i < |es|
  {
    es[..i] + [halves.0, halves.1] + es[i + 1..]
  }

  /** The merged child takes the place and the separator of the right one. */
  function MergeAt(es: seq<Entry>, i: nat): seq<Entry>
    requires i + 1 < |es| && (es[i].child.L? <==> es[i + 1].child.L?)
  {
    es[..i] + [Entry(es[i + 1].sep, Joined(es[i].child, es[i + 1].child))] + es[i + 2..]
  }

  /**
    One traversal: it reaches the leaf, or it changes the structure and starts over, or an
    assertion of node_split fails.
  */
  datatype Outcome = Found | Changed(t: Tree) | Abort

  predicate Mergeable(es: seq<Entry>, i: nat)
    requires i < |es|
  {
    i + 1 < |es| && (es[i].child.L? <==> es[i + 1].child.L?) && Free(es[i].child) + Free(es[i + 1].child) >= MIN_FREE + NODE
  }

  function Below(es: seq<Entry>, k: Str): Outcome
    requires Shaped(N(es))
    decreases N(es)
  {
    var i := Route(es, k);
    var c := es[i].child;
    if Deleted(c) > MAX_DELETED then Changed(N(es[i := Entry(es[i].sep, Compact(c))]))
    else if Free(c) < MIN_FREE then
      (match Halves(c)
       case None => Abort
       case Some(halves) => Changed(N(SplitAt(es, i, halves))))
    else if i > 0 && Mergeable(es, i - 1) then Changed(N(MergeAt(es, i - 1)))
    else if Mergeable(es, i) then Changed(N(MergeAt(es, i)))
    else if c.L? then Found
    else
      match Below(c.entries, k)
      case Found => Found
      case Abort => Abort
      case Changed(c') => Changed(N(es[i := Entry(es[i].sep, c')]))
  }

  /** find_leaf_parent_smo with perform_smo. */
  function Traverse(t: Tree, k: Str): Outcome
    requires Shaped(t)
  {
    if Deleted(t) > MAX_DELETED then Changed(Compact(t))
    else if Free(t) < MIN_FREE then
      (match Halves(t)
       case None => Abort
       case Some(halves) => Changed(N([halves.0, halves.1])))
    else if t.L? then Found
    else Below(t.entries, k)
  }

  // ---- Operations on the leaf reached ----

  function IndexOf(recs: seq<Rec>, k: Str): (i: nat)
    ensures i <= |recs| && (i < |recs| ==> recs[i].key == k)
    ensures forall j | 0 <= j < i :: recs[j].key != k
  {
    if recs == [] then 0 else if recs[0].key == k then 0 else 1 + IndexOf(recs[1..], k)
  }

  function Inserted(l: Leaf, k: Str, v: Str): Leaf { l.(recs := l.recs + [Rec(k, v)]) }

  /** The value moves to a new block; the old one counts as deleted. */
  function Updated(l: Leaf, k: Str, v: Str): Leaf {
    var i := IndexOf(l.recs, k);
    if i == |l.recs| then l else Leaf(l.recs[i := Rec(k, v)], l.deleted + Block(l.recs[i]))
  }

  function Erased(l: Leaf, k: Str): Leaf {
    var i := IndexOf(l.recs, k);
    if i == |l.recs| then l else Leaf(l.recs[..i] + l.recs[i + 1..], l.deleted + META + Block(l.recs[i]))
  }

  /** The tree with the leaf for k replaced. */
  function WithLeaf(t: Tree, k: Str, l: Leaf): Tree
    requires Shaped(t)
  {
    if t.L? then L(l)
    else
      var i := Route(t.entries, k);
      N(t.entries[i := Entry(t.entries[i].sep, WithLeaf(t.entries[i].child, k, l))])
  }
}
