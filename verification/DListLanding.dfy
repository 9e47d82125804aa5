/**
  Where an insert lands. Its position may have been deleted; then it follows that node's links, and
  those of deleted nodes after it, to a node of the list.
*/
module DListLanding {
  import opened DList

  function LinkOf(s: State, n: Node, forward: bool): Node
    requires n in s.heap
  {
    if forward then s.heap[n].next.node else s.heap[n].prev.node
  }

  /** The first node of the list met from n, following next (or prev) out of nodes that are not in it. */
  function FirstListed(s: State, n: Node, forward: bool): Node
    requires ListOK(s) && Ever(s, n)
    decreases Depth(s, n)
  {
    EverCell(s, n);
    if n in s.chain then n
    else
      HopLeadsOn(s, n);
      FirstListed(s, LinkOf(s, n, forward), forward)
  }

  /** A walk along links, each step out of a node that is not in the list. */
  predicate IsWalk(s: State, path: seq<Node>, forward: bool) {
    path != [] && forall m | 0 <= m < |path| - 1 ::
      path[m] !in s.chain && path[m] in s.heap && path[m + 1] == LinkOf(s, path[m], forward)
  }

  /** That is what FirstListed means: the end of the only such walk that ends in the list. */
  lemma {:induction false} FirstListedIsWalk(s: State, n: Node, forward: bool, path: seq<Node>)
    requires ListOK(s) && Ever(s, n) && IsWalk(s, path, forward) && path[0] == n && path[|path| - 1] in s.chain
    ensures path[|path| - 1] == FirstListed(s, n, forward)
    decreases |path|
  {
    EverCell(s, n);
    if |path| > 1 {
      HopLeadsOn(s, n);
      forall m | 0 <= m < |path[1..]| - 1
        ensures path[1..][m] !in s.chain && path[1..][m] in s.heap && path[1..][m + 1] == LinkOf(s, path[1..][m], forward)
      {
        assert path[m + 1] !in s.chain && path[m + 2] == LinkOf(s, path[m + 1], forward);
      }
      FirstListedIsWalk(s, path[1], forward, path[1..]);
    }
  }

  // ---- Every interleaving ----

  /** A step of an insert leaves its position, or goes from a deleted node to the one that its link holds. */
  lemma CurMoves(s: State, t: Tid, blur: bool)
    requires Inv(s) && Can(s, Go(t, blur)) && Inserting(s.pcs[t]) && !PcOf(After(s, Go(t, blur)), t).Idle?
    ensures var pc, pc' := s.pcs[t], PcOf(After(s, Go(t, blur)), t);
            && Inserting(pc') && (InBefore(pc') <==> InBefore(pc)) && pc'.at == pc.at
            && (pc'.cur == pc.cur || (pc.cur in s.dead && pc.cur in s.heap && pc'.cur == LinkOf(s, pc.cur, InBefore(pc))))
  {
    assert PcOK(s, t, s.pcs[t]);
    EverCell(s, s.pcs[t].cur);
  }

  /** From at to cur by links that deleted nodes held at successive instants between i and n. */
  ghost predicate Hops(run: seq<State>, i: nat, n: nat, path: seq<Node>, ats: seq<nat>, forward: bool) {
    && |path| == |ats| + 1 && n < |run|
    && (forall m | 0 <= m < |ats| :: i < ats[m] < n && HopAt(run[ats[m]], path[m], path[m + 1], forward))
    && (forall m, q | 0 <= m < q < |ats| :: ats[m] < ats[q])
  }

  predicate HopAt(s: State, a: Node, b: Node, forward: bool) {
    a in s.dead && a in s.heap && b == LinkOf(s, a, forward)
  }

  lemma MoreHops(run: seq<State>, i: nat, n: nat, path: seq<Node>, ats: seq<nat>, forward: bool, b: Node)
    requires i < n && n + 1 < |run| && Hops(run, i, n, path, ats, forward)
    requires HopAt(run[n], path[|path| - 1], b, forward)
    ensures Hops(run, i, n + 1, path + [b], ats + [n], forward)
  {
    var path', ats' := path + [b], ats + [n];
    forall m | 0 <= m < |ats'|
      ensures i < ats'[m] < n + 1 && HopAt(run[ats'[m]], path'[m], path'[m + 1], forward)
    {
      if m < |ats| { assert ats'[m] == ats[m] && path'[m] == path[m] && path'[m + 1] == path[m + 1]; }
    }
  }

  lemma {:induction false} InsertHops(run: seq<State>, ls: seq<Label>, i: nat, n: nat) returns (path: seq<Node>, ats: seq<nat>)
    requires IsRun(run, ls) && i < |ls| && (ls[i].InsertBefore? || ls[i].InsertAfter?) && Inside(run, ls[i].t, i, n)
    ensures Hops(run, i, n, path, ats, GoesBefore(ls[i])) && path[0] == ls[i].at
    ensures PcOf(run[n], ls[i].t).cur == path[|path| - 1]
    decreases n
  {
    var t := ls[i].t;
    CallServes(run, ls, i, n);
    if n == i + 1 {
      assert StepAt(run, ls, i);
      path, ats := [ls[i].at], [];
    } else {
      path, ats := InsertHops(run, ls, i, n - 1);
      var pc, pc' := PcOf(run[n - 1], t), PcOf(run[n], t);
      HopStep(run, ls, i, n - 1);
      if pc'.cur != pc.cur {
        MoreHops(run, i, n - 1, path, ats, GoesBefore(ls[i]), pc'.cur);
        path, ats := path + [pc'.cur], ats + [n - 1];
      }
    }
  }

  lemma OthersKeepPc(s: State, l: Label, t: Tid)
    requires Can(s, l) && !PcOf(s, t).Idle? && !(l.Go? && l.t == t)
    ensures PcOf(After(s, l), t) == PcOf(s, t)
  {
  }

  lemma PcMoves(s: State, l: Label, t: Tid)
    requires Inv(s) && Can(s, l) && Inserting(PcOf(s, t)) && !PcOf(After(s, l), t).Idle?
    ensures var pc, pc' := PcOf(s, t), PcOf(After(s, l), t);
            pc'.cur == pc.cur || HopAt(s, pc.cur, pc'.cur, InBefore(pc))
  {
    if l.Go? && l.t == t { CurMoves(s, t, l.blur); } else { OthersKeepPc(s, l, t); }
  }

  lemma HopStep(run: seq<State>, ls: seq<Label>, i: nat, n: nat)
    requires IsRun(run, ls) && i < n < |ls| && (ls[i].InsertBefore? || ls[i].InsertAfter?) && Inside(run, ls[i].t, i, n + 1)
    ensures var pc, pc' := PcOf(run[n], ls[i].t), PcOf(run[n + 1], ls[i].t);
            && !pc.Idle? && !pc'.Idle? && (pc'.cur == pc.cur || HopAt(run[n], pc.cur, pc'.cur, GoesBefore(ls[i])))
  {
    CallServes(run, ls, i, n);
    RunInv(run, ls, n);
    assert StepAt(run, ls, n);
    PcMoves(run[n], ls[n], ls[i].t);
  }

  /**
    In every interleaving: an insert puts its node directly before (or after) a node of the list
    that is reached from the position asked for by links, each held by a deleted node at the
    instant it was followed; with no link followed it is that position itself.
  */
  lemma InsertLandsAfterHops(run: seq<State>, ls: seq<Label>, i: nat, j: nat) returns (p: nat, path: seq<Node>, ats: seq<nat>)
    requires IsRun(run, ls) && j < |ls| && i < j && (ls[i].InsertBefore? || ls[i].InsertAfter?)
    requires Inside(run, ls[i].t, i, j) && PcOf(run[j + 1], ls[i].t).Idle?
    ensures 0 < p < |run[j + 1].chain| - 1 && run[j + 1].chain[p] == ls[i].x
    ensures Hops(run, i, j, path, ats, GoesBefore(ls[i])) && path[0] == ls[i].at
    ensures run[j + 1].chain[if GoesBefore(ls[i]) then p + 1 else p - 1] == path[|path| - 1]
  {
    var t := ls[i].t;
    path, ats := InsertHops(run, ls, i, j);
    CallServes(run, ls, i, j);
    ReturnIsGo(run, ls, t, j);
    RunInv(run, ls, j);
    var c := InsertEffect(run[j], t, ls[j].blur);
    p := c.i + 1;
  }

  // ---- Only the inserting thread moves ----

  predicate OnlyMoves(ls: seq<Label>, t: Tid, i: nat, j: nat) {
    i <= j <= |ls| && forall k | i < k < j :: ls[k].Go? && ls[k].t == t
  }

  /** The links of nodes that are or were in the list, and the list, are as before. */
  ghost predicate SameLinks(s: State, s': State) {
    && s'.chain == s.chain && s'.dead == s.dead
    && forall n | Ever(s, n) && n in s.heap :: n in s'.heap && s'.heap[n] == s.heap[n]
  }

  lemma {:induction false} SameFirst(s: State, s': State, n: Node, forward: bool)
    requires ListOK(s) && ListOK(s') && SameLinks(s, s') && Ever(s, n)
    ensures FirstListed(s', n, forward) == FirstListed(s, n, forward)
    decreases Depth(s, n)
  {
    EverCell(s, n);
    if n !in s.chain {
      HopLeadsOn(s, n);
      SameFirst(s, s', LinkOf(s, n, forward), forward);
    }
  }

  lemma OwnStepKeepsLinks(s: State, t: Tid, blur: bool)
    requires Inv(s) && Can(s, Go(t, blur)) && Inserting(s.pcs[t]) && !PcOf(After(s, Go(t, blur)), t).Idle?
    ensures SameLinks(s, After(s, Go(t, blur)))
  {
    assert PcOK(s, t, s.pcs[t]);
  }

  lemma CallKeepsLinks(s: State, l: Label)
    requires Inv(s) && Can(s, l) && (l.InsertBefore? || l.InsertAfter?)
    ensures SameLinks(s, After(s, l))
  {
    forall n | Ever(s, n) && n in s.heap
      ensures n != l.x
    {
    }
  }

  /** At state n the call started with step i is at a node from which the same node of the list is met. */
  ghost predicate Finds(s0: State, s: State, cur: Node, at: Node, forward: bool) {
    && Inv(s0) && Inv(s) && SameLinks(s0, s) && Ever(s0, at) && Ever(s0, cur)
    && FirstListed(s0, cur, forward) == FirstListed(s0, at, forward)
  }

  lemma FindsAtStart(s0: State, l: Label)
    requires Inv(s0) && Can(s0, l) && (l.InsertBefore? || l.InsertAfter?)
    ensures Finds(s0, After(s0, l), PcOf(After(s0, l), l.t).cur, l.at, GoesBefore(l))
  {
    StepKeepsInv(s0, l);
    CallKeepsLinks(s0, l);
  }

  lemma FindsOn(s0: State, s: State, t: Tid, blur: bool, at: Node)
    requires Inv(s) && Can(s, Go(t, blur)) && Inserting(s.pcs[t]) && !PcOf(After(s, Go(t, blur)), t).Idle?
    requires Finds(s0, s, s.pcs[t].cur, at, InBefore(s.pcs[t]))
    ensures Finds(s0, After(s, Go(t, blur)), PcOf(After(s, Go(t, blur)), t).cur, at, InBefore(s.pcs[t]))
  {
    var cur, s' := s.pcs[t].cur, After(s, Go(t, blur));
    StepKeepsInv(s, Go(t, blur));
    CurMoves(s, t, blur);
    OwnStepKeepsLinks(s, t, blur);
    EverCell(s0, cur);
    if cur in s0.dead { HopLeadsOn(s0, cur); }
  }

  lemma {:induction false} AloneFinds(run: seq<State>, ls: seq<Label>, i: nat, n: nat)
    requires IsRun(run, ls) && i < |ls| && (ls[i].InsertBefore? || ls[i].InsertAfter?) && Inside(run, ls[i].t, i, n)
    requires OnlyMoves(ls, ls[i].t, i, n)
    ensures Finds(run[i], run[n], PcOf(run[n], ls[i].t).cur, ls[i].at, GoesBefore(ls[i]))
    decreases n
  {
    assert StepAt(run, ls, n - 1);
    if n == i + 1 {
      RunInv(run, ls, i);
      FindsAtStart(run[i], ls[i]);
    } else {
      AloneFinds(run, ls, i, n - 1);
      CallServes(run, ls, i, n - 1);
      FindsOn(run[i], run[n - 1], ls[i].t, ls[n - 1].blur, ls[i].at);
    }
  }

  /** The returning step, from a state in which the position has been found. */
  lemma LandsAlone(s0: State, s: State, t: Tid, blur: bool, at: Node) returns (p: nat)
    requires Inv(s) && Can(s, Go(t, blur)) && Inserting(s.pcs[t]) && PcOf(After(s, Go(t, blur)), t).Idle?
    requires Finds(s0, s, s.pcs[t].cur, at, InBefore(s.pcs[t]))
    ensures var s' := After(s, Go(t, blur));
            && 0 < p < |s'.chain| - 1 && s'.chain[p] == s.pcs[t].x
            && s'.chain[if InBefore(s.pcs[t]) then p + 1 else p - 1] == FirstListed(s0, at, InBefore(s.pcs[t]))
  {
    var c := InsertEffect(s, t, blur);
    p := c.i + 1;
    assert s.pcs[t].cur in s0.chain;
  }

  /**
    If only the inserting thread moves, its node lands directly before the first node of the
    list that following next from its position leads to (after the first that following prev
    leads to).
  */
  lemma InsertLandsAlone(run: seq<State>, ls: seq<Label>, i: nat, j: nat) returns (p: nat)
    requires IsRun(run, ls) && j < |ls| && i < j && (ls[i].InsertBefore? || ls[i].InsertAfter?)
    requires Inside(run, ls[i].t, i, j) && PcOf(run[j + 1], ls[i].t).Idle? && OnlyMoves(ls, ls[i].t, i, j)
    ensures ListOK(run[i]) && Ever(run[i], ls[i].at)
    ensures 0 < p < |run[j + 1].chain| - 1 && run[j + 1].chain[p] == ls[i].x
    ensures run[j + 1].chain[if GoesBefore(ls[i]) then p + 1 else p - 1] == FirstListed(run[i], ls[i].at, GoesBefore(ls[i]))
  {
    var t := ls[i].t;
    AloneFinds(run, ls, i, j);
    CallServes(run, ls, i, j);
    ReturnIsGo(run, ls, t, j);
    p := LandsAlone(run[i], run[j], t, ls[j].blur, ls[i].at);
  }

  // ---- Exactly which links change ----

  /** The cells of all nodes but p, n and x are as before. */
  ghost predicate OnlyCells(s: State, s': State, p: Node, n: Node, x: Node) {
    s'.heap.Keys == s.heap.Keys && forall m | m in s.heap && m != p && m != n && m != x :: s'.heap[m] == s.heap[m]
  }

  /** The step with which an insert returns: its node's two links, and the two that lead to it. */
  lemma InsertLinks(s: State, t: Tid, blur: bool) returns (i: nat)
    requires Inv(s) && Can(s, Go(t, blur)) && Inserting(s.pcs[t]) && PcOf(After(s, Go(t, blur)), t).Idle?
    ensures i + 1 < |s.chain|
    ensures var s', x, p, n := After(s, Go(t, blur)), s.pcs[t].x, s.chain[i], s.chain[i + 1];
            && OnlyCells(s, s', p, n, x) && p in s.heap && n in s.heap && x in s.heap && p != n && x != p && x != n
            && s'.heap[x] == Cell(Link(p, false), Link(n, false))
            && s'.heap[p] == s.heap[p].(next := Link(x, false)) && s'.heap[n] == s.heap[n].(prev := Link(x, false))
  {
    var c := InsertEffect(s, t, blur);
    i := c.i;
    var pc := s.pcs[t];
    assert PcOK(s, t, pc);
    if pc.BSwap? { i := NeighboursAt(s, pc.prev.node, pc.cur); } else { i := NeighboursAt(s, pc.cur, pc.next.node); }
    EverCell(s, s.chain[i]);
    EverCell(s, s.chain[i + 1]);
  }

  /** The step that deletes a node: its neighbours' links to it, and the mark; its own prev stays. */
  lemma DeleteLinks(s: State, t: Tid, blur: bool) returns (i: nat)
    requires Inv(s) && Can(s, Go(t, blur)) && s.pcs[t].DSwap? && PcOf(After(s, Go(t, blur)), t).Idle?
    ensures 0 < i && i + 1 < |s.chain| && s.chain[i] == s.pcs[t].cur
    ensures var s', p, d, n := After(s, Go(t, blur)), s.chain[i - 1], s.chain[i], s.chain[i + 1];
            && OnlyCells(s, s', p, n, d) && p in s.heap && n in s.heap && d in s.heap && p != n && d != p && d != n
            && s'.heap[d] == s.heap[d].(next := Link(n, true))
            && s'.heap[p] == s.heap[p].(next := Link(n, false)) && s'.heap[n] == s.heap[n].(prev := Link(p, false))
  {
    var pc := s.pcs[t];
    assert PcOK(s, t, pc);
    var j := BetweenAt(s, pc.prev.node, pc.cur, pc.next.node);
    i := j + 1;
    EverCell(s, s.chain[j]);
  }

  /** All other steps leave the links of nodes that are or were in the list alone. */
  lemma OtherLinks(s: State, l: Label)
    requires Inv(s) && Can(s, l) && !(l.Go? && PcOf(After(s, l), l.t).Idle?)
    ensures SameLinks(s, After(s, l))
  {
    if l.Go? {
      assert PcOK(s, l.t, s.pcs[l.t]);
    } else if !l.Delete? {
      CallKeepsLinks(s, l);
    }
  }
}
