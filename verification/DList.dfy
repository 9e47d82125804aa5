/**
  MwCASDList: a doubly linked list whose inserts and deletes run concurrently. Every MwCAS is
  one atomic step here; between them a thread reads one link at a time, and other threads run.
*/
module DList {
  type Tid = nat

  datatype Node = Head | Tail | Null | Item(id: nat)

  /** A stored pointer and its kNodeDeleted bit. */
  datatype Link = Link(node: Node, mark: bool)

  datatype Cell = Cell(prev: Link, next: Link)

  /**
    Program counters. x is the node being inserted, at the position asked for, cur the
    position being tried; prev and next are what the thread has read.
  */
  datatype Pc =
    | Idle
    | BPrev(x: Node, at: Node, cur: Node)                           // InsertBefore
    | BNext(x: Node, at: Node, cur: Node, prev: Link)
    | BHop(x: Node, at: Node, cur: Node)
    | BPrevNext(x: Node, at: Node, cur: Node, prev: Link)
    | BWrite(x: Node, at: Node, cur: Node, prev: Link)
    | BSwap(x: Node, at: Node, cur: Node, prev: Link)
    | ANext(x: Node, at: Node, cur: Node)                           // InsertAfter
    | AHop(x: Node, at: Node, cur: Node)
    | ANextNext(x: Node, at: Node, cur: Node, next: Link)
    | AWrite(x: Node, at: Node, cur: Node, next: Link)
    | ASwap(x: Node, at: Node, cur: Node, next: Link)
    | DTest(cur: Node)                                              // Delete
    | DPrev(cur: Node)
    | DNext(cur: Node, prev: Link)
    | DCheckPrev(cur: Node, prev: Link, next: Link)
    | DCheckNext(cur: Node, prev: Link, next: Link)
    | DSwap(cur: Node, prev: Link, next: Link)

  datatype State = State(
    heap: map<Node, Cell>, pcs: map<Tid, Pc>,
    owner: map<Node, Tid>,     // bookkeeping: who allocated a node for insertion
    chain: seq<Node>,          // bookkeeping: the nodes in the list, head to tail
    dead: seq<Node>)           // bookkeeping: the deleted nodes, in order of deletion

  datatype Label =
    | InsertBefore(t: Tid, at: Node, x: Node)
    | InsertAfter(t: Tid, at: Node, x: Node)
    | Delete(t: Tid, n: Node)
    | Go(t: Tid, blur: bool)   // blur: a word read without GetValue holds a descriptor pointer

  function PcOf(s: State, t: Tid): Pc { if t in s.pcs then s.pcs[t] else Idle }

  function Put(s: State, t: Tid, pc: Pc): State { s.(pcs := s.pcs[t := pc]) }

  /** The node is or was in the list. */
  predicate Ever(s: State, n: Node) { n in s.chain || n in s.dead }

  /** What a step dereferences is a node, not null and not a marked pointer. */
  predicate Sound(s: State, pc: Pc) {
    match pc
    case Idle => true
    case BPrevNext(_, _, _, prev) => !prev.mark && prev.node in s.heap
    case BSwap(_, _, cur, prev) => !prev.mark && prev.node in s.heap && cur in s.heap
    case ANextNext(_, _, _, next) => !next.mark && next.node in s.heap
    case ASwap(_, _, cur, next) => !next.mark && next.node in s.heap && cur in s.heap
    case DCheckPrev(_, prev, _) => !prev.mark && prev.node in s.heap
    case DCheckNext(_, _, next) => !next.mark && next.node in s.heap
    case DSwap(cur, prev, next) => !prev.mark && prev.node in s.heap && !next.mark && next.node in s.heap && cur in s.heap
    case _ => pc.cur in s.heap
  }

  predicate Can(s: State, l: Label) {
    match l
    case InsertBefore(t, at, x) => PcOf(s, t).Idle? && Ever(s, at) && x.Item? && x !in s.heap
    case InsertAfter(t, at, x) => PcOf(s, t).Idle? && Ever(s, at) && x.Item? && x !in s.heap
    case Delete(t, n) => PcOf(s, t).Idle? && Ever(s, n)
    case Go(t, _) => !PcOf(s, t).Idle? && Sound(s, PcOf(s, t))
  }

  function IndexOf(q: seq<Node>, n: Node): (i: nat)
    ensures i <= |q| && (i < |q| ==> q[i] == n) && (n in q <==> i < |q|)
  {
    if q == [] then 0 else if q[0] == n then 0 else 1 + IndexOf(q[1..], n)
  }

  function WithAfter(q: seq<Node>, p: Node, x: Node): seq<Node> {
    if p in q then q[..IndexOf(q, p) + 1] + [x] + q[IndexOf(q, p) + 1..] else q
  }

  function Without(q: seq<Node>, n: Node): seq<Node> {
    if n in q then q[..IndexOf(q, n)] + q[IndexOf(q, n) + 1..] else q
  }

  /** The MwCAS of both inserts: p->next from n to x, and n->prev from p to x. */
  predicate Adjacent(s: State, p: Node, n: Node)
    requires p in s.heap && n in s.heap
  {
    s.heap[p].next == Link(n, false) && s.heap[n].prev == Link(p, false)
  }

  function Spliced(s: State, p: Node, n: Node, x: Node): State
    requires p in s.heap && n in s.heap
  {
    var h := s.heap[p := s.heap[p].(next := Link(x, false))];
    s.(heap := h[n := h[n].(prev := Link(x, false))], chain := WithAfter(s.chain, p, x))
  }

  function InsertSwap(s: State, t: Tid, p: Node, n: Node, x: Node, retry: Pc): State
    requires p in s.heap && n in s.heap
  {
    if Adjacent(s, p, n) then Put(Spliced(s, p, n, x), t, Idle) else Put(s, t, retry)
  }

  /** The MwCAS of Delete: p->next from d to n, n->prev from d to p, and d->next is marked. */
  predicate Between(s: State, p: Node, d: Node, n: Node)
    requires p in s.heap && n in s.heap && d in s.heap
  {
    s.heap[p].next == Link(d, false) && s.heap[n].prev == Link(d, false) && s.heap[d].next == Link(n, false)
  }

  function Unspliced(s: State, p: Node, d: Node, n: Node): State
    requires p in s.heap && n in s.heap && d in s.heap
  {
    var h1 := s.heap[p := s.heap[p].(next := Link(n, false))];
    var h2 := h1[n := h1[n].(prev := Link(p, false))];
    var h3 := h2[d := h2[d].(next := Link(n, true))];
    s.(heap := h3, chain := Without(s.chain, d), dead := s.dead + [d])
  }

  function BeforeStep(s: State, t: Tid, pc: Pc): State
    requires pc.BPrev? || pc.BNext? || pc.BHop? || pc.BPrevNext? || pc.BWrite? || pc.BSwap?
    requires Sound(s, pc)
  {
    match pc
    case BPrev(x, at, cur) => Put(s, t, BNext(x, at, cur, s.heap[cur].prev))
    case BNext(x, at, cur, prev) =>
      if prev.mark || s.heap[cur].next.mark then Put(s, t, BHop(x, at, cur)) else Put(s, t, BPrevNext(x, at, cur, prev))
    case BHop(x, at, cur) => Put(s, t, BPrev(x, at, s.heap[cur].next.node))
    case BPrevNext(x, at, cur, prev) =>
      if s.heap[prev.node].next.mark then Put(s, t, BPrev(x, at, cur)) else Put(s, t, BWrite(x, at, cur, prev))
    case BWrite(x, at, cur, prev) => Put(s.(heap := s.heap[x := Cell(prev, Link(cur, false))]), t, BSwap(x, at, cur, prev))
    case BSwap(x, at, cur, prev) => InsertSwap(s, t, prev.node, cur, x, BPrev(x, at, cur))
  }

  function AfterStep(s: State, t: Tid, pc: Pc): State
    requires pc.ANext? || pc.AHop? || pc.ANextNext? || pc.AWrite? || pc.ASwap?
    requires Sound(s, pc)
  {
    match pc
    case ANext(x, at, cur) =>
      if s.heap[cur].next.mark then Put(s, t, AHop(x, at, cur)) else Put(s, t, ANextNext(x, at, cur, s.heap[cur].next))
    case AHop(x, at, cur) => Put(s, t, ANext(x, at, s.heap[cur].prev.node))
    case ANextNext(x, at, cur, next) =>
      if s.heap[next.node].next.mark then Put(s, t, ANext(x, at, cur)) else Put(s, t, AWrite(x, at, cur, next))
    case AWrite(x, at, cur, next) => Put(s.(heap := s.heap[x := Cell(Link(cur, false), next)]), t, ASwap(x, at, cur, next))
    case ASwap(x, at, cur, next) => InsertSwap(s, t, cur, next.node, x, ANext(x, at, cur))
  }

  function DeleteStep(s: State, t: Tid, blur: bool, pc: Pc): State
    requires pc.DTest? || pc.DPrev? || pc.DNext? || pc.DCheckPrev? || pc.DCheckNext? || pc.DSwap?
    requires Sound(s, pc)
  {
    match pc
    case DTest(d) =>
      if (!blur && s.heap[d].next.mark) || d == Head || d == Tail then Put(s, t, Idle) else Put(s, t, DPrev(d))
    case DPrev(d) => Put(s, t, DNext(d, s.heap[d].prev))
    case DNext(d, prev) => Put(s, t, DCheckPrev(d, prev, s.heap[d].next))
    case DCheckPrev(d, prev, next) =>
      if blur || s.heap[prev.node].next != Link(d, false) then Put(s, t, DTest(d)) else Put(s, t, DCheckNext(d, prev, next))
    case DCheckNext(d, prev, next) =>
      if blur || s.heap[next.node].prev != Link(d, false) then Put(s, t, DTest(d)) else Put(s, t, DSwap(d, prev, next))
    case DSwap(d, prev, next) =>
      if Between(s, prev.node, d, next.node) then Put(Unspliced(s, prev.node, d, next.node), t, Idle)
      else Put(s, t, DTest(d))
  }

  predicate InBefore(pc: Pc) { pc.BPrev? || pc.BNext? || pc.BHop? || pc.BPrevNext? || pc.BWrite? || pc.BSwap? }

  predicate InAfter(pc: Pc) { pc.ANext? || pc.AHop? || pc.ANextNext? || pc.AWrite? || pc.ASwap? }

  function GoStep(s: State, t: Tid, blur: bool): State
    requires Can(s, Go(t, blur))
  {
    var pc := s.pcs[t];
    if InBefore(pc) then BeforeStep(s, t, pc) else if InAfter(pc) then AfterStep(s, t, pc) else DeleteStep(s, t, blur, pc)
  }

  /** A call: a fresh node is handed over, and the head and tail cases are redirected. */
  function CallStep(s: State, t: Tid, x: Node, pc: Pc): State {
    Put(s.(heap := s.heap[x := Cell(Link(Null, false), Link(Null, false))], owner := s.owner[x := t]), t, pc)
  }

  function After(s: State, l: Label): State
    requires Can(s, l)
  {
    match l
    case InsertBefore(t, at, x) => CallStep(s, t, x, if at == Head then ANext(x, at, at) else BPrev(x, at, at))
    case InsertAfter(t, at, x) => CallStep(s, t, x, if at == Tail then BPrev(x, at, at) else ANext(x, at, at))
    case Delete(t, n) => Put(s, t, DTest(n))
    case Go(t, blur) => GoStep(s, t, blur)
  }

  predicate Init(s: State) {
    && s.heap == map[Head := Cell(Link(Null, false), Link(Tail, false)), Tail := Cell(Link(Head, false), Link(Null, false))]
    && s.pcs == map[] && s.owner == map[] && s.chain == [Head, Tail] && s.dead == []
  }

  // ---- Invariant ----

  predicate Distinct(q: seq<Node>) {
    forall i, j | 0 <= i < j < |q| :: q[i] != q[j]
  }

  /** Neighbours in the list point at each other, without marks. */
  predicate Linked(s: State, i: nat)
    requires i + 1 < |s.chain|
  {
    s.chain[i] in s.heap && s.chain[i + 1] in s.heap && Adjacent(s, s.chain[i], s.chain[i + 1])
  }

  /** A link of the k-th deleted node leads to a live node or one deleted later. */
  predicate Onward(s: State, k: nat, n: Node)
    requires k < |s.dead|
  {
    n in s.chain || n in s.dead[k + 1..]
  }

  predicate DeadOK(s: State, k: nat)
    requires k < |s.dead|
  {
    && s.dead[k].Item? && s.dead[k] in s.heap && s.heap[s.dead[k]].next.mark && !s.heap[s.dead[k]].prev.mark
    && Onward(s, k, s.heap[s.dead[k]].next.node) && s.heap[s.dead[k]].next.node != Head
    && Onward(s, k, s.heap[s.dead[k]].prev.node) && s.heap[s.dead[k]].prev.node != Tail
  }

  predicate ListOK(s: State) {
    && |s.chain| >= 2 && s.chain[0] == Head && s.chain[|s.chain| - 1] == Tail
    && Distinct(s.chain) && Distinct(s.dead) && (forall n | n in s.chain :: n !in s.dead)
    && Null !in s.chain
    && (forall i | 0 <= i < |s.chain| - 1 :: Linked(s, i))
    && Head in s.heap && s.heap[Head].prev == Link(Null, false)
    && Tail in s.heap && s.heap[Tail].next == Link(Null, false)
    && (forall k | 0 <= k < |s.dead| :: DeadOK(s, k))
  }

  predicate Inserting(pc: Pc) { InBefore(pc) || InAfter(pc) }

  /** What thread t relies on. */
  predicate PcOK(s: State, t: Tid, pc: Pc) {
    && (!pc.Idle? ==> Ever(s, pc.cur))
    && (Inserting(pc) ==> Mine(s, t, pc.x) && Ever(s, pc.at) && (pc.cur == pc.at || pc.at in s.dead))
    && (pc.BHop? || pc.AHop? ==> pc.cur in s.dead)
    && (InBefore(pc) ==> pc.cur != Head)
    && (InAfter(pc) ==> pc.cur != Tail)
    && (pc.BNext? || pc.BPrevNext? || pc.BWrite? || pc.BSwap? ==> PrevOK(s, pc.prev))
    && (pc.ANextNext? || pc.AWrite? || pc.ASwap? ==> NextOK(s, pc.next))
    && (pc.BSwap? ==> s.heap[pc.x] == Cell(pc.prev, Link(pc.cur, false)))
    && (pc.ASwap? ==> s.heap[pc.x] == Cell(Link(pc.cur, false), pc.next))
    && (pc.DPrev? || pc.DNext? || pc.DCheckPrev? || pc.DCheckNext? || pc.DSwap? ==> pc.cur.Item?)
    && (pc.DNext? || pc.DCheckPrev? || pc.DCheckNext? || pc.DSwap? ==> PrevOK(s, pc.prev))
    && (pc.DCheckPrev? ==> (if pc.next.mark then pc.cur in s.dead else NextOK(s, pc.next)))
    && (pc.DCheckNext? || pc.DSwap? ==> NextOK(s, pc.next))
  }

  predicate Mine(s: State, t: Tid, x: Node) {
    x.Item? && x in s.owner && s.owner[x] == t && x in s.heap && !Ever(s, x)
  }

  predicate PrevOK(s: State, l: Link) { !l.mark && Ever(s, l.node) && l.node != Tail }

  predicate NextOK(s: State, l: Link) { !l.mark && Ever(s, l.node) && l.node != Head }

  ghost predicate Inv(s: State) {
    && ListOK(s)
    && (forall t | t in s.pcs :: PcOK(s, t, s.pcs[t]))
    && (forall n | n in s.owner :: n in s.heap)
  }

  lemma InitInv(s: State)
    requires Init(s)
    ensures Inv(s)
  {
  }

  // ---- Facts about one state ----

  lemma EverCell(s: State, n: Node)
    requires ListOK(s) && Ever(s, n)
    ensures n in s.heap && n != Null
    ensures n in s.dead <==> s.heap[n].next.mark
    ensures n in s.dead ==> n.Item?
  {
    if n in s.chain {
      var i := IndexOf(s.chain, n);
      if i > 0 { assert Linked(s, i - 1); }
      if i + 1 < |s.chain| { assert Linked(s, i); }
    } else {
      assert DeadOK(s, IndexOf(s.dead, n));
    }
  }

  lemma NextOf(s: State, n: Node)
    requires ListOK(s) && Ever(s, n) && n != Tail
    ensures n in s.heap && NextOK(s, s.heap[n].next.(mark := false))
  {
    if n in s.chain {
      var i := IndexOf(s.chain, n);
      assert Linked(s, i) && s.chain[i + 1] != s.chain[0];
    } else {
      assert DeadOK(s, IndexOf(s.dead, n));
    }
  }

  lemma PrevOf(s: State, n: Node)
    requires ListOK(s) && Ever(s, n) && n != Head
    ensures n in s.heap && PrevOK(s, s.heap[n].prev)
  {
    if n in s.chain {
      var i := IndexOf(s.chain, n);
      assert Linked(s, i - 1);
    } else {
      assert DeadOK(s, IndexOf(s.dead, n));
    }
  }

  /** An unmarked link to a node of the list joins two neighbours of the list. */
  lemma NeighboursAt(s: State, p: Node, n: Node) returns (i: nat)
    requires ListOK(s) && Ever(s, p) && Ever(s, n) && p in s.heap && s.heap[p].next == Link(n, false)
    ensures i + 1 < |s.chain| && s.chain[i] == p && s.chain[i + 1] == n && i == IndexOf(s.chain, p)
    ensures p !in s.dead && n !in s.dead
  {
    EverCell(s, p);
    EverCell(s, n);
    i := IndexOf(s.chain, p);
    if i + 1 < |s.chain| { assert Linked(s, i); }
  }

  // ---- The two structural changes ----

  /** q' is q with x put in after position i. */
  predicate Grown(q: seq<Node>, i: nat, x: Node, q': seq<Node>) {
    && i < |q| && |q'| == |q| + 1 && q'[i + 1] == x
    && (forall j | 0 <= j <= i :: q'[j] == q[j])
    && (forall j | i + 1 < j < |q'| :: q'[j] == q[j - 1])
  }

  /** q' is q with position i taken out. */
  predicate Shrunk(q: seq<Node>, i: nat, q': seq<Node>) {
    && i < |q| && |q'| == |q| - 1
    && (forall j | 0 <= j < i :: q'[j] == q[j])
    && (forall j | i <= j < |q'| :: q'[j] == q[j + 1])
  }

  lemma WithAfterGrows(q: seq<Node>, p: Node, x: Node)
    requires p in q
    ensures Grown(q, IndexOf(q, p), x, WithAfter(q, p, x))
  {
    JoinGrows(q, IndexOf(q, p), x);
  }

  lemma JoinGrows(q: seq<Node>, i: nat, x: Node)
    requires i < |q|
    ensures Grown(q, i, x, q[..i + 1] + [x] + q[i + 1..])
  {
    var q' := q[..i + 1] + [x] + q[i + 1..];
    forall j | 0 <= j <= i ensures q'[j] == q[j] { }
    forall j | i + 1 < j < |q'| ensures q'[j] == q[j - 1] { }
  }

  lemma WithoutShrinks(q: seq<Node>, d: Node)
    requires d in q
    ensures Shrunk(q, IndexOf(q, d), Without(q, d))
  {
    JoinShrinks(q, IndexOf(q, d));
  }

  lemma JoinShrinks(q: seq<Node>, i: nat)
    requires i < |q|
    ensures Shrunk(q, i, q[..i] + q[i + 1..])
  {
    var q' := q[..i] + q[i + 1..];
    forall j | 0 <= j < i ensures q'[j] == q[j] { }
    forall j | i <= j < |q'| ensures q'[j] == q[j + 1] { }
  }

  lemma GrownDistinct(q: seq<Node>, i: nat, x: Node, q': seq<Node>)
    requires Grown(q, i, x, q') && Distinct(q) && x !in q
    ensures Distinct(q')
  {
  }

  lemma GrownHas(q: seq<Node>, i: nat, x: Node, q': seq<Node>, n: Node)
    requires Grown(q, i, x, q')
    ensures n in q' <==> n in q || n == x
  {
    if n in q {
      var j := IndexOf(q, n);
      assert q'[if j <= i then j else j + 1] == n;
    } else if n == x {
      assert q'[i + 1] == n;
    }
  }

  lemma GrownHasAll(q: seq<Node>, i: nat, x: Node, q': seq<Node>)
    requires Grown(q, i, x, q')
    ensures forall n :: n in q' <==> n in q || n == x
  {
    forall n ensures n in q' <==> n in q || n == x { GrownHas(q, i, x, q', n); }
  }

  lemma ShrunkDistinct(q: seq<Node>, i: nat, q': seq<Node>)
    requires Shrunk(q, i, q') && Distinct(q)
    ensures Distinct(q')
  {
  }

  lemma ShrunkHas(q: seq<Node>, i: nat, q': seq<Node>, n: Node)
    requires Shrunk(q, i, q') && Distinct(q)
    ensures n in q' <==> n in q && n != q[i]
  {
    if n in q && n != q[i] {
      var j := IndexOf(q, n);
      assert q'[if j < i then j else j - 1] == n;
    }
  }

  lemma ShrunkHasAll(q: seq<Node>, i: nat, q': seq<Node>)
    requires Shrunk(q, i, q') && Distinct(q)
    ensures forall n :: n in q' <==> n in q && n != q[i]
  {
    forall n ensures n in q' <==> n in q && n != q[i] { ShrunkHas(q, i, q', n); }
  }

  lemma IndexIsUnique(q: seq<Node>, i: nat)
    requires Distinct(q) && i < |q|
    ensures IndexOf(q, q[i]) == i
  {
  }

  lemma SpliceKeepsDead(s: State, p: Node, n: Node, x: Node, k: nat)
    requires k < |s.dead| && DeadOK(s, k) && p in s.heap && n in s.heap
    requires p !in s.dead && n !in s.dead && (forall m | m in s.chain :: m in WithAfter(s.chain, p, x))
    ensures DeadOK(Spliced(s, p, n, x), k)
  {
  }

  lemma SpliceKeepsLinks(s: State, p: Node, n: Node, x: Node, i: nat, j: nat)
    requires Distinct(s.chain) && i + 1 < |s.chain| && s.chain[i] == p && s.chain[i + 1] == n && p in s.heap && n in s.heap
    requires x !in s.chain && x in s.heap && s.heap[x] == Cell(Link(p, false), Link(n, false))
    requires j + 1 < |Spliced(s, p, n, x).chain| && (j < i ==> Linked(s, j))
    requires j > i + 1 ==> j < |s.chain| && Linked(s, j - 1)
    ensures Linked(Spliced(s, p, n, x), j)
  {
    IndexIsUnique(s.chain, i);
    WithAfterGrows(s.chain, p, x);
  }

  lemma SpliceLinksAll(s: State, p: Node, n: Node, x: Node, i: nat)
    requires ListOK(s) && i + 1 < |s.chain| && s.chain[i] == p && s.chain[i + 1] == n && p in s.heap && n in s.heap
    requires x !in s.chain && x in s.heap && s.heap[x] == Cell(Link(p, false), Link(n, false))
    ensures forall j | 0 <= j < |Spliced(s, p, n, x).chain| - 1 :: Linked(Spliced(s, p, n, x), j)
  {
    forall j | 0 <= j < |Spliced(s, p, n, x).chain| - 1
      ensures Linked(Spliced(s, p, n, x), j)
    {
      IndexIsUnique(s.chain, i);
      WithAfterGrows(s.chain, p, x);
      if j < i { assert Linked(s, j); }
      if j > i + 1 { assert Linked(s, j - 1); }
      SpliceKeepsLinks(s, p, n, x, i, j);
    }
  }

  lemma SpliceDeadAll(s: State, p: Node, n: Node, x: Node)
    requires forall k | 0 <= k < |s.dead| :: DeadOK(s, k)
    requires p in s.heap && n in s.heap && p !in s.dead && n !in s.dead
    requires forall m | m in s.chain :: m in WithAfter(s.chain, p, x)
    ensures forall k | 0 <= k < |s.dead| :: DeadOK(Spliced(s, p, n, x), k)
  {
    forall k | 0 <= k < |s.dead| ensures DeadOK(Spliced(s, p, n, x), k) { SpliceKeepsDead(s, p, n, x, k); }
  }

  lemma SpliceKeepsList(s: State, p: Node, n: Node, x: Node)
    requires ListOK(s) && Ever(s, p) && Ever(s, n) && p in s.heap && n in s.heap && Adjacent(s, p, n)
    requires x.Item? && !Ever(s, x) && x in s.heap && s.heap[x] == Cell(Link(p, false), Link(n, false))
    ensures ListOK(Spliced(s, p, n, x))
    ensures forall m :: m in Spliced(s, p, n, x).chain <==> m in s.chain || m == x
  {
    var i := NeighboursAt(s, p, n);
    var s' := Spliced(s, p, n, x);
    WithAfterGrows(s.chain, p, x);
    GrownDistinct(s.chain, i, x, s'.chain);
    GrownHasAll(s.chain, i, x, s'.chain);
    SpliceLinksAll(s, p, n, x, i);
    SpliceDeadAll(s, p, n, x);
  }

  lemma OnwardKept(s: State, s': State, d: Node, k: nat, n: Node)
    requires k < |s.dead| && Onward(s, k, n)
    requires (forall m :: m in s.chain ==> m in s'.chain || m == d) && s'.dead == s.dead + [d]
    ensures Onward(s', k, n)
  {
    assert s'.dead[k + 1..] == s.dead[k + 1..] + [d];
  }

  lemma UnspliceKeepsDead(s: State, p: Node, d: Node, n: Node, k: nat)
    requires k < |s.dead| && DeadOK(s, k) && p in s.heap && n in s.heap && d in s.heap
    requires p !in s.dead && n !in s.dead && d !in s.dead
    requires forall m :: m in s.chain ==> m in Without(s.chain, d) || m == d
    ensures DeadOK(Unspliced(s, p, d, n), k)
  {
    var s' := Unspliced(s, p, d, n);
    assert s'.heap[s.dead[k]] == s.heap[s.dead[k]];
    OnwardKept(s, s', d, k, s.heap[s.dead[k]].next.node);
    OnwardKept(s, s', d, k, s.heap[s.dead[k]].prev.node);
  }

  lemma UnspliceKeepsLinks(s: State, i: nat, j: nat)
    requires Distinct(s.chain) && i + 2 < |s.chain| && j + 2 < |s.chain|
    requires if j < i then Linked(s, j) else j > i ==> Linked(s, j + 1)
    requires s.chain[i] in s.heap && s.chain[i + 1] in s.heap && s.chain[i + 2] in s.heap
    ensures var s' := Unspliced(s, s.chain[i], s.chain[i + 1], s.chain[i + 2]);
            j + 1 < |s'.chain| && Linked(s', j)
  {
    IndexIsUnique(s.chain, i + 1);
    WithoutShrinks(s.chain, s.chain[i + 1]);
  }

  lemma UnspliceChain(s: State, p: Node, d: Node, n: Node, i: nat)
    requires Distinct(s.chain) && i + 2 < |s.chain| && s.chain[i + 1] == d && p in s.heap && n in s.heap && d in s.heap
    ensures var q := Unspliced(s, p, d, n).chain;
            Distinct(q) && |q| == |s.chain| - 1 && q[0] == s.chain[0] && q[|q| - 1] == s.chain[|q|]
    ensures forall m :: m in Unspliced(s, p, d, n).chain <==> m in s.chain && m != d
  {
    var q := Unspliced(s, p, d, n).chain;
    IndexIsUnique(s.chain, i + 1);
    WithoutShrinks(s.chain, d);
    ShrunkDistinct(s.chain, i + 1, q);
    ShrunkHasAll(s.chain, i + 1, q);
  }

  lemma UnspliceLinksAll(s: State, p: Node, d: Node, n: Node, i: nat)
    requires ListOK(s) && i + 2 < |s.chain| && s.chain[i] == p && s.chain[i + 1] == d && s.chain[i + 2] == n
    requires p in s.heap && n in s.heap && d in s.heap && |Unspliced(s, p, d, n).chain| == |s.chain| - 1
    ensures forall k | 0 <= k < |Unspliced(s, p, d, n).chain| - 1 :: Linked(Unspliced(s, p, d, n), k)
  {
    forall k | 0 <= k < |Unspliced(s, p, d, n).chain| - 1
      ensures Linked(Unspliced(s, p, d, n), k)
    {
      assert Linked(s, if k < i then k else k + 1);
      UnspliceKeepsLinks(s, i, k);
    }
  }

  lemma UnspliceDeadAll(s: State, p: Node, d: Node, n: Node)
    requires forall k | 0 <= k < |s.dead| :: DeadOK(s, k)
    requires p in s.heap && n in s.heap && d in s.heap && p !in s.dead && n !in s.dead && d !in s.dead
    requires d.Item? && p != Tail && n != Head && p != d && n != d && s.heap[d].prev == Link(p, false)
    requires forall m :: m in s.chain ==> m in Without(s.chain, d) || m == d
    requires p in Without(s.chain, d) && n in Without(s.chain, d)
    ensures forall k | 0 <= k <= |s.dead| :: DeadOK(Unspliced(s, p, d, n), k)
  {
    var s' := Unspliced(s, p, d, n);
    forall k | 0 <= k <= |s.dead|
      ensures DeadOK(s', k)
    {
      if k < |s.dead| { UnspliceKeepsDead(s, p, d, n, k); }
    }
  }

  lemma BetweenAt(s: State, p: Node, d: Node, n: Node) returns (i: nat)
    requires ListOK(s) && Ever(s, p) && Ever(s, d) && Ever(s, n) && p in s.heap && n in s.heap && d in s.heap && Between(s, p, d, n)
    ensures i + 2 < |s.chain| && s.chain[i] == p && s.chain[i + 1] == d && s.chain[i + 2] == n && s.heap[d].prev == Link(p, false)
    ensures p !in s.dead && d !in s.dead && n !in s.dead
  {
    i := NeighboursAt(s, p, d);
    var j := NeighboursAt(s, d, n);
    assert Linked(s, i);
  }

  lemma UnspliceKeepsList(s: State, p: Node, d: Node, n: Node)
    requires ListOK(s) && Ever(s, p) && Ever(s, d) && Ever(s, n) && d.Item?
    requires p in s.heap && n in s.heap && d in s.heap && Between(s, p, d, n)
    ensures ListOK(Unspliced(s, p, d, n))
    ensures forall m :: m in Unspliced(s, p, d, n).chain <==> m in s.chain && m != d
  {
    var i := BetweenAt(s, p, d, n);
    UnspliceChain(s, p, d, n, i);
    UnspliceLinksAll(s, p, d, n, i);
    UnspliceDeadAll(s, p, d, n);
  }

  // ---- What one thread may change ----

  ghost predicate Evolves(s: State, s': State, t: Tid) {
    && (forall n | Ever(s, n) :: Ever(s', n))
    && (forall n | n in s.dead :: n in s'.dead)
    && (forall n | Ever(s', n) && !Ever(s, n) :: n in s.owner && s.owner[n] == t)
    && (forall n | n in s.owner && s.owner[n] != t && n in s.heap && !Ever(s, n) ::
          n in s'.owner && s'.owner[n] == s.owner[n] && n in s'.heap && s'.heap[n] == s.heap[n])
    && (forall u | u in s'.pcs && u != t :: u in s.pcs && s'.pcs[u] == s.pcs[u])
    && (forall n | n in s'.owner :: n in s'.heap)
  }

  lemma PcKept(s: State, s': State, t: Tid, u: Tid, pc: Pc)
    requires Evolves(s, s', t) && u != t && PcOK(s, u, pc)
    ensures PcOK(s', u, pc)
  {
    if Inserting(pc) { assert !Ever(s', pc.x); }
  }

  lemma Assemble(s: State, s': State, t: Tid)
    requires Inv(s) && ListOK(s') && Evolves(s, s', t) && t in s'.pcs && PcOK(s', t, s'.pcs[t])
    ensures Inv(s')
  {
    forall u | u in s'.pcs
      ensures PcOK(s', u, s'.pcs[u])
    {
      if u != t { PcKept(s, s', t, u, s.pcs[u]); }
    }
  }

  lemma SameList(s: State, s': State)
    requires ListOK(s) && s'.heap == s.heap && s'.chain == s.chain && s'.dead == s.dead
    ensures ListOK(s')
  {
    assert forall k | 0 <= k < |s.dead| :: DeadOK(s, k) ==> DeadOK(s', k);
    assert forall i | 0 <= i < |s.chain| - 1 :: Linked(s, i) ==> Linked(s', i);
  }

  /** A step that only reads. */
  lemma ReadKeepsInv(s: State, t: Tid, pc: Pc)
    requires Inv(s) && PcOK(s, t, pc)
    ensures Inv(Put(s, t, pc))
  {
    var s' := Put(s, t, pc);
    SameList(s, s');
    Assemble(s, s', t);
  }

  /** A store to a node that is not in the list. */
  lemma PrivateStoreKeepsList(s: State, s': State, x: Node, c: Cell)
    requires ListOK(s) && !Ever(s, x) && s'.heap == s.heap[x := c] && s'.chain == s.chain && s'.dead == s.dead
    ensures ListOK(s')
  {
    forall i | 0 <= i < |s.chain| - 1
      ensures Linked(s', i)
    {
      assert Linked(s, i);
    }
    forall k | 0 <= k < |s.dead|
      ensures DeadOK(s', k)
    {
      assert DeadOK(s, k);
    }
  }

  lemma StoreKeepsInv(s: State, t: Tid, c: Cell, pc: Pc)
    requires Inv(s) && t in s.pcs && Inserting(s.pcs[t])
    requires PcOK(s.(heap := s.heap[s.pcs[t].x := c]), t, pc)
    ensures Inv(Put(s.(heap := s.heap[s.pcs[t].x := c]), t, pc))
  {
    var s' := Put(s.(heap := s.heap[s.pcs[t].x := c]), t, pc);
    assert PcOK(s, t, s.pcs[t]);
    PrivateStoreKeepsList(s, s', s.pcs[t].x, c);
    Assemble(s, s', t);
  }

  lemma CallKeepsInv(s: State, t: Tid, x: Node, pc: Pc)
    requires Inv(s) && x.Item? && x !in s.heap && Inserting(pc) && (pc.BPrev? || pc.ANext?) && pc.x == x
    requires pc.at == pc.cur && Ever(s, pc.at) && (if pc.BPrev? then pc.at != Head else pc.at != Tail)
    ensures Inv(CallStep(s, t, x, pc))
  {
    var s' := CallStep(s, t, x, pc);
    if Ever(s, x) { EverCell(s, x); }
    PrivateStoreKeepsList(s, s', x, s'.heap[x]);
    Assemble(s, s', t);
  }

  /** A swap touches only nodes of the list, and moves at most the thread's own node into it. */
  lemma SwapEvolves(s: State, s': State, t: Tid)
    requires s'.owner == s.owner && (forall n | n in s.owner :: n in s.heap)
    requires forall u | u in s'.pcs && u != t :: u in s.pcs && s'.pcs[u] == s.pcs[u]
    requires forall n | n in s.heap :: n in s'.heap && (!Ever(s, n) ==> s'.heap[n] == s.heap[n])
    requires forall n | Ever(s, n) :: Ever(s', n)
    requires forall n | n in s.dead :: n in s'.dead
    requires forall n | Ever(s', n) :: Ever(s, n) || (n in s.owner && s.owner[n] == t)
    ensures Evolves(s, s', t)
  {
  }

  lemma SpliceEvolves(s: State, t: Tid, p: Node, n: Node, x: Node)
    requires Mine(s, t, x) && Ever(s, p) && Ever(s, n) && p in s.heap && n in s.heap
    requires forall m | m in s.owner :: m in s.heap
    requires forall m :: m in Spliced(s, p, n, x).chain <==> m in s.chain || m == x
    ensures Evolves(s, Put(Spliced(s, p, n, x), t, Idle), t)
  {
    SwapEvolves(s, Put(Spliced(s, p, n, x), t, Idle), t);
  }

  lemma SpliceStep(s: State, t: Tid, p: Node, n: Node, x: Node)
    requires ListOK(s) && Mine(s, t, x) && Ever(s, p) && Ever(s, n) && p in s.heap && n in s.heap
    requires forall m | m in s.owner :: m in s.heap
    requires s.heap[x] == Cell(Link(p, false), Link(n, false)) && Adjacent(s, p, n)
    ensures ListOK(Put(Spliced(s, p, n, x), t, Idle))
    ensures Evolves(s, Put(Spliced(s, p, n, x), t, Idle), t)
  {
    SpliceKeepsList(s, p, n, x);
    SameList(Spliced(s, p, n, x), Put(Spliced(s, p, n, x), t, Idle));
    SpliceEvolves(s, t, p, n, x);
  }

  lemma InsertSwapKeepsInv(s: State, t: Tid, p: Node, n: Node, x: Node)
    requires Inv(s) && Mine(s, t, x) && Ever(s, p) && Ever(s, n) && p in s.heap && n in s.heap
    requires s.heap[x] == Cell(Link(p, false), Link(n, false)) && Adjacent(s, p, n)
    ensures Inv(Put(Spliced(s, p, n, x), t, Idle))
  {
    SpliceStep(s, t, p, n, x);
    Assemble(s, Put(Spliced(s, p, n, x), t, Idle), t);
  }

  lemma UnspliceStep(s: State, t: Tid, p: Node, d: Node, n: Node)
    requires ListOK(s) && Ever(s, p) && Ever(s, d) && Ever(s, n) && d.Item? && (forall m | m in s.owner :: m in s.heap)
    requires p in s.heap && d in s.heap && n in s.heap && Between(s, p, d, n)
    ensures ListOK(Put(Unspliced(s, p, d, n), t, Idle))
    ensures Evolves(s, Put(Unspliced(s, p, d, n), t, Idle), t)
  {
    UnspliceKeepsList(s, p, d, n);
    SameList(Unspliced(s, p, d, n), Put(Unspliced(s, p, d, n), t, Idle));
    SwapEvolves(s, Put(Unspliced(s, p, d, n), t, Idle), t);
  }

  lemma DeleteSwapKeepsInv(s: State, t: Tid, p: Node, d: Node, n: Node)
    requires Inv(s) && Ever(s, p) && Ever(s, d) && Ever(s, n) && d.Item?
    requires p in s.heap && d in s.heap && n in s.heap && Between(s, p, d, n)
    ensures Inv(Put(Unspliced(s, p, d, n), t, Idle))
  {
    UnspliceStep(s, t, p, d, n);
    Assemble(s, Put(Unspliced(s, p, d, n), t, Idle), t);
  }

  // ---- The steps ----

  /** No step dereferences null or a marked pointer. */
  lemma AlwaysSound(s: State, t: Tid)
    requires Inv(s) && t in s.pcs
    ensures Sound(s, s.pcs[t])
  {
    var pc := s.pcs[t];
    assert PcOK(s, t, pc);
    if !pc.Idle? { EverCell(s, pc.cur); }
    if pc.BPrevNext? || pc.BSwap? || pc.DCheckPrev? || pc.DSwap? { EverCell(s, pc.prev.node); }
    if pc.ANextNext? || pc.ASwap? || pc.DCheckNext? || pc.DSwap? { EverCell(s, pc.next.node); }
  }

  lemma BeforeKeepsInv(s: State, t: Tid)
    requires Inv(s) && t in s.pcs && InBefore(s.pcs[t]) && Sound(s, s.pcs[t])
    ensures Inv(BeforeStep(s, t, s.pcs[t]))
  {
    var pc := s.pcs[t];
    assert PcOK(s, t, pc);
    EverCell(s, pc.cur);
    match pc
    case BPrev(x, at, cur) => PrevOf(s, cur); ReadKeepsInv(s, t, BNext(x, at, cur, s.heap[cur].prev));
    case BNext(x, at, cur, prev) =>
      ReadKeepsInv(s, t, if s.heap[cur].next.mark then BHop(x, at, cur) else BPrevNext(x, at, cur, prev));
    case BHop(x, at, cur) => NextOf(s, cur); ReadKeepsInv(s, t, BPrev(x, at, s.heap[cur].next.node));
    case BPrevNext(x, at, cur, prev) =>
      ReadKeepsInv(s, t, if s.heap[prev.node].next.mark then BPrev(x, at, cur) else BWrite(x, at, cur, prev));
    case BWrite(x, at, cur, prev) => StoreKeepsInv(s, t, Cell(prev, Link(cur, false)), BSwap(x, at, cur, prev));
    case BSwap(x, at, cur, prev) =>
      if Adjacent(s, prev.node, cur) { InsertSwapKeepsInv(s, t, prev.node, cur, x); }
      else { ReadKeepsInv(s, t, BPrev(x, at, cur)); }
  }

  lemma AfterKeepsInv(s: State, t: Tid)
    requires Inv(s) && t in s.pcs && InAfter(s.pcs[t]) && Sound(s, s.pcs[t])
    ensures Inv(AfterStep(s, t, s.pcs[t]))
  {
    var pc := s.pcs[t];
    assert PcOK(s, t, pc);
    EverCell(s, pc.cur);
    match pc
    case ANext(x, at, cur) =>
      NextOf(s, cur);
      ReadKeepsInv(s, t, if s.heap[cur].next.mark then AHop(x, at, cur) else ANextNext(x, at, cur, s.heap[cur].next));
    case AHop(x, at, cur) => PrevOf(s, cur); ReadKeepsInv(s, t, ANext(x, at, s.heap[cur].prev.node));
    case ANextNext(x, at, cur, next) =>
      ReadKeepsInv(s, t, if s.heap[next.node].next.mark then ANext(x, at, cur) else AWrite(x, at, cur, next));
    case AWrite(x, at, cur, next) => StoreKeepsInv(s, t, Cell(Link(cur, false), next), ASwap(x, at, cur, next));
    case ASwap(x, at, cur, next) =>
      if Adjacent(s, cur, next.node) { InsertSwapKeepsInv(s, t, cur, next.node, x); }
      else { ReadKeepsInv(s, t, ANext(x, at, cur)); }
  }

  /** A link found unmarked towards d means that d is still in the list. */
  lemma DCheckPrevKeepsInv(s: State, t: Tid, d: Node, prev: Link, next: Link)
    requires Inv(s) && PcOK(s, t, DCheckPrev(d, prev, next)) && prev.node in s.heap
    requires s.heap[prev.node].next == Link(d, false)
    ensures Inv(Put(s, t, DCheckNext(d, prev, next)))
  {
    var i := NeighboursAt(s, prev.node, d);
    ReadKeepsInv(s, t, DCheckNext(d, prev, next));
  }

  lemma DeleteKeepsInv(s: State, t: Tid, blur: bool)
    requires Inv(s) && t in s.pcs && !Inserting(s.pcs[t]) && !s.pcs[t].Idle? && Sound(s, s.pcs[t])
    ensures Inv(DeleteStep(s, t, blur, s.pcs[t]))
  {
    var pc := s.pcs[t];
    assert PcOK(s, t, pc);
    EverCell(s, pc.cur);
    match pc
    case DTest(d) =>
      ReadKeepsInv(s, t, if (!blur && s.heap[d].next.mark) || d == Head || d == Tail then Idle else DPrev(d));
    case DPrev(d) => PrevOf(s, d); ReadKeepsInv(s, t, DNext(d, s.heap[d].prev));
    case DNext(d, prev) => NextOf(s, d); ReadKeepsInv(s, t, DCheckPrev(d, prev, s.heap[d].next));
    case DCheckPrev(d, prev, next) =>
      if blur || s.heap[prev.node].next != Link(d, false) {
        ReadKeepsInv(s, t, DTest(d));
      } else {
        DCheckPrevKeepsInv(s, t, d, prev, next);
      }
    case DCheckNext(d, prev, next) =>
      ReadKeepsInv(s, t, if blur || s.heap[next.node].prev != Link(d, false) then DTest(d) else DSwap(d, prev, next));
    case DSwap(d, prev, next) =>
      if Between(s, prev.node, d, next.node) {
        DeleteSwapKeepsInv(s, t, prev.node, d, next.node);
      } else {
        ReadKeepsInv(s, t, DTest(d));
      }
  }

  lemma StepKeepsInv(s: State, l: Label)
    requires Inv(s) && Can(s, l)
    ensures Inv(After(s, l))
  {
    match l
    case InsertBefore(t, at, x) => CallKeepsInv(s, t, x, if at == Head then ANext(x, at, at) else BPrev(x, at, at));
    case InsertAfter(t, at, x) => CallKeepsInv(s, t, x, if at == Tail then BPrev(x, at, at) else ANext(x, at, at));
    case Delete(t, n) => ReadKeepsInv(s, t, DTest(n));
    case Go(t, blur) =>
      if InBefore(s.pcs[t]) { BeforeKeepsInv(s, t); }
      else if InAfter(s.pcs[t]) { AfterKeepsInv(s, t); }
      else { DeleteKeepsInv(s, t, blur); }
  }

  // ---- Runs ----

  ghost predicate IsRun(run: seq<State>, ls: seq<Label>) {
    |run| == |ls| + 1 && Init(run[0]) && forall k | 0 <= k < |ls| :: StepAt(run, ls, k)
  }

  ghost predicate StepAt(run: seq<State>, ls: seq<Label>, k: nat)
    requires |run| == |ls| + 1 && k < |ls|
  {
    Can(run[k], ls[k]) && run[k + 1] == After(run[k], ls[k])
  }

  lemma {:induction false} RunInv(run: seq<State>, ls: seq<Label>, k: nat)
    requires IsRun(run, ls) && k < |run|
    ensures Inv(run[k])
  {
    if k == 0 {
      InitInv(run[0]);
    } else {
      RunInv(run, ls, k - 1);
      assert StepAt(run, ls, k - 1);
      StepKeepsInv(run[k - 1], ls[k - 1]);
    }
  }

  /** Nobody ever dereferences null or a marked pointer, so a thread can always go on. */
  lemma NeverStuck(run: seq<State>, ls: seq<Label>, k: nat, t: Tid, blur: bool)
    requires IsRun(run, ls) && k < |run| && !PcOf(run[k], t).Idle?
    ensures Can(run[k], Go(t, blur))
  {
    RunInv(run, ls, k);
    AlwaysSound(run[k], t);
  }

  /** The node reached from n by following next, and by following prev, i times. */
  function Forward(h: map<Node, Cell>, n: Node, i: nat): Node
    decreases i
  {
    if i == 0 then n else if n in h && !h[n].next.mark then Forward(h, h[n].next.node, i - 1) else Null
  }

  function Backward(h: map<Node, Cell>, n: Node, i: nat): Node
    decreases i
  {
    if i == 0 then n else if n in h && !h[n].prev.mark then Backward(h, h[n].prev.node, i - 1) else Null
  }

  lemma {:induction false} WalkFrom(s: State, a: nat, i: nat)
    requires ListOK(s) && a + i < |s.chain|
    ensures Forward(s.heap, s.chain[a], i) == s.chain[a + i]
    ensures Backward(s.heap, s.chain[a + i], i) == s.chain[a]
    decreases i
  {
    if i > 0 {
      assert Linked(s, a) && Linked(s, a + i - 1);
      WalkFrom(s, a + 1, i - 1);
      WalkFrom(s, a, i - 1);
    }
  }

  /**
    At every moment the nodes found going forward from the head are those found going backward
    from the tail, in mirrored order; they are the nodes in the list, none of them deleted.
  */
  lemma PrevMirrorsNext(run: seq<State>, ls: seq<Label>, k: nat, i: nat)
    requires IsRun(run, ls) && k < |run| && i < |run[k].chain|
    ensures var s := run[k]; var last := |s.chain| - 1;
            && Forward(s.heap, Head, i) == s.chain[i] == Backward(s.heap, Tail, last - i)
            && Forward(s.heap, Head, last) == Tail && Backward(s.heap, Tail, last) == Head
            && s.chain[i] !in s.dead && s.chain[i] in s.heap && !s.heap[s.chain[i]].next.mark
  {
    RunInv(run, ls, k);
    var s := run[k];
    WalkFrom(s, 0, i);
    WalkFrom(s, i, |s.chain| - 1 - i);
    WalkFrom(s, 0, |s.chain| - 1);
    EverCell(s, s.chain[i]);
  }

  // ---- What each step does to the list ----

  datatype Change = Same | Added(x: Node, i: nat) | Removed(d: Node, i: nat)

  /** The chain changes as c says, and nothing else happens to list or deleted nodes. */
  predicate Changes(s: State, s': State, c: Change) {
    match c
    case Same => s'.chain == s.chain && s'.dead == s.dead
    case Added(x, i) => !Ever(s, x) && Grown(s.chain, i, x, s'.chain) && i + 1 < |s.chain| && s'.dead == s.dead
    case Removed(d, i) => i < |s.chain| && s.chain[i] == d && Shrunk(s.chain, i, s'.chain) && s'.dead == s.dead + [d]
  }

  /**
    A step adds a node only as the last step of an insert, which inserts just its own node;
    it removes a node only as the last step of a delete of that node; and an insert returns
    only in that way.
  */
  lemma InsertEffect(s: State, t: Tid, blur: bool) returns (c: Change)
    requires Inv(s) && Can(s, Go(t, blur)) && Inserting(s.pcs[t])
    ensures Changes(s, After(s, Go(t, blur)), c)
    ensures c == Same || (c.Added? && c.x == s.pcs[t].x)
    ensures PcOf(After(s, Go(t, blur)), t).Idle? <==> c.Added?
    ensures c.Added? ==> s.pcs[t].cur == s.chain[if InBefore(s.pcs[t]) then c.i + 1 else c.i]
    ensures c.Added? && s.pcs[t].at !in s.dead ==> s.pcs[t].cur == s.pcs[t].at
  {
    assert PcOK(s, t, s.pcs[t]);
    if InBefore(s.pcs[t]) { c := BeforeEffect(s, t); } else { c := AfterEffect(s, t); }
  }

  lemma BeforeEffect(s: State, t: Tid) returns (c: Change)
    requires Inv(s) && t in s.pcs && InBefore(s.pcs[t]) && Sound(s, s.pcs[t])
    ensures var pc, s' := s.pcs[t], BeforeStep(s, t, s.pcs[t]);
            && Changes(s, s', c) && (c == Same || (c.Added? && c.x == pc.x))
            && (PcOf(s', t).Idle? <==> c.Added?) && (c.Added? ==> pc.cur == s.chain[c.i + 1])
  {
    c := Same;
    var pc := s.pcs[t];
    assert PcOK(s, t, pc);
    if pc.BSwap? && Adjacent(s, pc.prev.node, pc.cur) {
      var i := SpliceEffect(s, t, pc.prev.node, pc.cur, pc.x);
      c := Added(pc.x, i);
    }
  }

  lemma AfterEffect(s: State, t: Tid) returns (c: Change)
    requires Inv(s) && t in s.pcs && InAfter(s.pcs[t]) && Sound(s, s.pcs[t])
    ensures var pc, s' := s.pcs[t], AfterStep(s, t, s.pcs[t]);
            && Changes(s, s', c) && (c == Same || (c.Added? && c.x == pc.x))
            && (PcOf(s', t).Idle? <==> c.Added?) && (c.Added? ==> pc.cur == s.chain[c.i])
  {
    c := Same;
    var pc := s.pcs[t];
    assert PcOK(s, t, pc);
    if pc.ASwap? && Adjacent(s, pc.cur, pc.next.node) {
      var i := SpliceEffect(s, t, pc.cur, pc.next.node, pc.x);
      c := Added(pc.x, i);
    }
  }

  lemma SpliceEffect(s: State, t: Tid, p: Node, n: Node, x: Node) returns (i: nat)
    requires ListOK(s) && Ever(s, p) && Ever(s, n) && !Ever(s, x) && p in s.heap && n in s.heap && Adjacent(s, p, n)
    ensures i + 1 < |s.chain| && s.chain[i] == p && s.chain[i + 1] == n
    ensures Changes(s, Put(Spliced(s, p, n, x), t, Idle), Added(x, i))
  {
    i := NeighboursAt(s, p, n);
    WithAfterGrows(s.chain, p, x);
  }

  lemma DeleteEffect(s: State, t: Tid, blur: bool) returns (c: Change)
    requires Inv(s) && Can(s, Go(t, blur)) && !Inserting(s.pcs[t])
    ensures Changes(s, After(s, Go(t, blur)), c)
    ensures c == Same || (c.Removed? && c.d == s.pcs[t].cur)
    ensures c.Removed? ==> PcOf(After(s, Go(t, blur)), t).Idle?
    ensures PcOf(After(s, Go(t, blur)), t).Idle? ==>
              s.pcs[t].cur in After(s, Go(t, blur)).dead || s.pcs[t].cur == Head || s.pcs[t].cur == Tail
  {
    c := Same;
    var pc := s.pcs[t];
    assert PcOK(s, t, pc);
    EverCell(s, pc.cur);
    if pc.DSwap? && Between(s, pc.prev.node, pc.cur, pc.next.node) {
      var i := NeighboursAt(s, pc.cur, pc.next.node);
      WithoutShrinks(s.chain, pc.cur);
      c := Removed(pc.cur, i);
    }
  }

  lemma StepEffect(s: State, l: Label) returns (c: Change)
    requires Inv(s) && Can(s, l)
    ensures Changes(s, After(s, l), c)
    ensures !c.Same? ==> l.Go? && PcOf(After(s, l), l.t).Idle?
    ensures c.Added? ==> Inserting(s.pcs[l.t]) && c.x == s.pcs[l.t].x
    ensures c.Removed? ==> !Inserting(s.pcs[l.t]) && c.d == s.pcs[l.t].cur
  {
    c := Same;
    if l.Go? {
      if Inserting(s.pcs[l.t]) { c := InsertEffect(s, l.t, l.blur); } else { c := DeleteEffect(s, l.t, l.blur); }
    }
  }

  // ---- Whole calls ----

  /** Thread t is inside one call from just after step i up to state j. */
  predicate Inside(run: seq<State>, t: Tid, i: nat, j: nat) {
    i < j < |run| && forall k | i < k <= j :: !PcOf(run[k], t).Idle?
  }

  /** The insert started by l goes before its position; head and tail leave no choice. */
  predicate GoesBefore(l: Label)
    requires l.InsertBefore? || l.InsertAfter?
  {
    if l.InsertBefore? then l.at != Head else l.at == Tail
  }

  /** The thread still works for the call that l started. */
  predicate Serves(pc: Pc, l: Label) {
    if l.Delete? then !pc.Idle? && !Inserting(pc) && pc.cur == l.n
    else if l.Go? then false
    else Inserting(pc) && pc.x == l.x && pc.at == l.at && (InBefore(pc) <==> GoesBefore(l))
  }

  lemma StepServes(s: State, l: Label, s': State, t: Tid, call: Label)
    requires Can(s, l) && s' == After(s, l) && Serves(PcOf(s, t), call) && !PcOf(s', t).Idle?
    ensures Serves(PcOf(s', t), call)
  {
    if l.t == t {
      var pc := s.pcs[t];
      if InBefore(pc) { BeforeStays(s, t); } else if InAfter(pc) { AfterStays(s, t); } else { DeleteStays(s, t, l.blur); }
    }
  }

  lemma BeforeStays(s: State, t: Tid)
    requires t in s.pcs && InBefore(s.pcs[t]) && Sound(s, s.pcs[t])
    ensures var s', pc := BeforeStep(s, t, s.pcs[t]), s.pcs[t];
            t in s'.pcs && (s'.pcs[t].Idle? || (InBefore(s'.pcs[t]) && s'.pcs[t].x == pc.x && s'.pcs[t].at == pc.at))
  {
  }

  lemma AfterStays(s: State, t: Tid)
    requires t in s.pcs && InAfter(s.pcs[t]) && Sound(s, s.pcs[t])
    ensures var s', pc := AfterStep(s, t, s.pcs[t]), s.pcs[t];
            t in s'.pcs && (s'.pcs[t].Idle? || (InAfter(s'.pcs[t]) && s'.pcs[t].x == pc.x && s'.pcs[t].at == pc.at))
  {
  }

  lemma DeleteStays(s: State, t: Tid, blur: bool)
    requires t in s.pcs && !Inserting(s.pcs[t]) && !s.pcs[t].Idle? && Sound(s, s.pcs[t])
    ensures var s', pc := DeleteStep(s, t, blur, s.pcs[t]), s.pcs[t];
            t in s'.pcs && (s'.pcs[t].Idle? || (!Inserting(s'.pcs[t]) && s'.pcs[t].cur == pc.cur))
  {
  }

  lemma {:induction false} CallServes(run: seq<State>, ls: seq<Label>, i: nat, j: nat)
    requires IsRun(run, ls) && i < |ls| && !ls[i].Go? && Inside(run, ls[i].t, i, j)
    ensures Serves(PcOf(run[j], ls[i].t), ls[i])
  {
    if j == i + 1 {
      assert StepAt(run, ls, i);
    } else {
      CallServes(run, ls, i, j - 1);
      assert StepAt(run, ls, j - 1);
      StepServes(run[j - 1], ls[j - 1], run[j], ls[i].t, ls[i]);
    }
  }

  lemma ReturnIsGo(run: seq<State>, ls: seq<Label>, t: Tid, j: nat)
    requires IsRun(run, ls) && j < |ls| && !PcOf(run[j], t).Idle? && PcOf(run[j + 1], t).Idle?
    ensures ls[j].Go? && ls[j].t == t && Can(run[j], ls[j]) && run[j + 1] == After(run[j], ls[j])
  {
    assert StepAt(run, ls, j);
  }

  /**
    The step with which an insert returns has put its node into the list, directly before
    (or after) the node it was asked to, unless that one has been deleted.
  */
  lemma InsertLands(run: seq<State>, ls: seq<Label>, i: nat, j: nat) returns (p: nat)
    requires IsRun(run, ls) && j < |ls| && i < j && (ls[i].InsertBefore? || ls[i].InsertAfter?)
    requires Inside(run, ls[i].t, i, j) && PcOf(run[j + 1], ls[i].t).Idle?
    ensures 0 < p < |run[j + 1].chain| - 1 && run[j + 1].chain[p] == ls[i].x && ls[i].x !in run[j].chain
    ensures ls[i].at in run[j].dead ||
            run[j + 1].chain[if GoesBefore(ls[i]) then p + 1 else p - 1] == ls[i].at
  {
    var t := ls[i].t;
    CallServes(run, ls, i, j);
    ReturnIsGo(run, ls, t, j);
    RunInv(run, ls, j);
    var c := InsertEffect(run[j], t, ls[j].blur);
    p := c.i + 1;
  }

  /** When a delete returns, its node is out of the list for good, or is the head or the tail. */
  lemma DeleteLands(run: seq<State>, ls: seq<Label>, i: nat, j: nat)
    requires IsRun(run, ls) && j < |ls| && i < j && ls[i].Delete?
    requires Inside(run, ls[i].t, i, j) && PcOf(run[j + 1], ls[i].t).Idle?
    ensures ls[i].n in run[j + 1].dead || ls[i].n == Head || ls[i].n == Tail
  {
    var t := ls[i].t;
    CallServes(run, ls, i, j);
    ReturnIsGo(run, ls, t, j);
    RunInv(run, ls, j);
    var c := DeleteEffect(run[j], t, ls[j].blur);
  }

  /** Step k puts x into the list, or takes it out. */
  predicate Inserts(run: seq<State>, k: nat, x: Node)
    requires k + 1 < |run|
  {
    x !in run[k].chain && x in run[k + 1].chain
  }

  predicate Deletes(run: seq<State>, k: nat, x: Node)
    requires k + 1 < |run|
  {
    x in run[k].chain && x !in run[k + 1].chain
  }

  function Count(run: seq<State>, k: nat, x: Node, del: bool): nat
    requires k < |run|
  {
    if k == 0 then 0
    else Count(run, k - 1, x, del) + (if (if del then Deletes(run, k - 1, x) else Inserts(run, k - 1, x)) then 1 else 0)
  }

  lemma CountStep(s: State, s': State, c: Change, x: Node)
    requires Inv(s) && Changes(s, s', c)
    ensures x !in s.chain && x in s'.chain ==> !Ever(s, x)
    ensures x in s.chain && x !in s'.chain <==> x !in s.dead && x in s'.dead
    ensures Ever(s', x) <==> Ever(s, x) || (x !in s.chain && x in s'.chain)
  {
    if c.Added? { GrownHas(s.chain, c.i, c.x, s'.chain, x); }
    if c.Removed? { ShrunkHas(s.chain, c.i, s'.chain, x); }
  }

  /** Over a whole run every node is inserted at most once and deleted at most once, in that order. */
  lemma {:induction false} InsertedAndDeletedOnce(run: seq<State>, ls: seq<Label>, k: nat, x: Node)
    requires IsRun(run, ls) && k < |run| && x.Item?
    ensures Count(run, k, x, false) == (if Ever(run[k], x) then 1 else 0)
    ensures Count(run, k, x, true) == (if x in run[k].dead then 1 else 0)
  {
    if k > 0 {
      InsertedAndDeletedOnce(run, ls, k - 1, x);
      RunInv(run, ls, k - 1);
      RunInv(run, ls, k);
      assert StepAt(run, ls, k - 1);
      var c := StepEffect(run[k - 1], ls[k - 1]);
      CountStep(run[k - 1], run[k], c, x);
    }
  }

  // ---- Chains of deleted nodes ----

  /** How many hops it can take to leave the deleted nodes. */
  function Depth(s: State, n: Node): nat {
    if n in s.dead then |s.dead| - IndexOf(s.dead, n) else 0
  }

  lemma IndexAfter(q: seq<Node>, k: nat, n: Node)
    requires Distinct(q) && k < |q| && n in q[k + 1..]
    ensures n in q && IndexOf(q, n) > k
  {
    var j := IndexOf(q[k + 1..], n);
    assert q[k + 1 + j] == n;
    IndexIsUnique(q, k + 1 + j);
  }

  /** From a deleted node both links lead to a live node or to one deleted strictly later. */
  lemma HopLeadsOn(s: State, n: Node)
    requires ListOK(s) && n in s.dead
    ensures n in s.heap
    ensures var m := s.heap[n].next.node; Ever(s, m) && m != Head && Depth(s, m) < Depth(s, n)
    ensures var m := s.heap[n].prev.node; Ever(s, m) && m != Tail && Depth(s, m) < Depth(s, n)
  {
    var k := IndexOf(s.dead, n);
    assert DeadOK(s, k);
    var m, w := s.heap[n].next.node, s.heap[n].prev.node;
    if m !in s.chain { IndexAfter(s.dead, k, m); }
    if w !in s.chain { IndexAfter(s.dead, k, w); }
  }

  /** The fallback loop of InsertBefore (GetNext) and of InsertAfter (GetPrev) on a quiet list. */
  method Fallback(s: State, start: Node, forward: bool) returns (n: Node, hops: nat)
    requires ListOK(s) && Ever(s, start)
    ensures n in s.chain && hops <= |s.dead|
    ensures start in s.chain ==> n == start
    ensures start in s.dead ==> n != (if forward then Head else Tail)
  {
    n, hops := start, 0;
    EverCell(s, n);
    while s.heap[n].next.mark
      invariant Ever(s, n) && n in s.heap && hops + Depth(s, n) <= |s.dead|
      invariant start in s.chain ==> n == start
      invariant start in s.dead && n != start ==> n != (if forward then Head else Tail)
      decreases Depth(s, n)
    {
      EverCell(s, n);
      HopLeadsOn(s, n);
      n := if forward then s.heap[n].next.node else s.heap[n].prev.node;
      hops := hops + 1;
      EverCell(s, n);
    }
    EverCell(s, n);
  }
}
