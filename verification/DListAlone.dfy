/**
  What a thread achieves when only it runs. The others are stalled, possibly inside an MwCAS:
  then their descriptors are in the list. A read through GetValue completes such an MwCAS on the
  way, which is a step of the stalled thread; a raw read just sees a descriptor (blur).
*/
module DListAlone {
  import opened DList

  // ---- Inserts ----

  /** What the thread has read about its position still holds. */
  predicate Fresh(s: State, pc: Pc) {
    && Inserting(pc) && pc.cur in s.chain && pc.cur in s.heap
    && (pc.BNext? || pc.BPrevNext? || pc.BWrite? || pc.BSwap? ==> s.heap[pc.cur].prev == pc.prev)
    && (pc.ANextNext? || pc.AWrite? || pc.ASwap? ==> s.heap[pc.cur].next == pc.next)
  }

  /** A bound on the steps an insert has left if the list does not change. */
  function Left(s: State, pc: Pc): nat {
    if !Inserting(pc) then 0
    else
      var deep := 8 * Depth(s, pc.cur);
      if pc.BPrev? then 5 + deep
      else if pc.BNext? then (if Fresh(s, pc) then 4 else if pc.cur in s.dead then 4 + deep else 9)
      else if pc.BHop? || pc.AHop? then 3 + deep
      else if pc.BPrevNext? then (if Fresh(s, pc) then 3 else 8 + deep)
      else if pc.BWrite? then (if Fresh(s, pc) then 2 else 7 + deep)
      else if pc.BSwap? then (if Fresh(s, pc) then 1 else 6 + deep)
      else if pc.ANext? then 4 + deep
      else if pc.ANextNext? then (if Fresh(s, pc) then 3 else 7 + deep)
      else if pc.AWrite? then (if Fresh(s, pc) then 2 else 6 + deep)
      else if Fresh(s, pc) then 1 else 5 + deep
  }

  lemma LiveNeighbours(s: State, n: Node)
    requires ListOK(s) && n in s.chain
    ensures n in s.heap && !s.heap[n].next.mark && !s.heap[n].prev.mark && n !in s.dead
    ensures n != Tail ==>
              var m := s.heap[n].next.node; m in s.chain && m in s.heap && m !in s.dead && Adjacent(s, n, m) && !s.heap[m].next.mark
    ensures n != Head ==>
              var m := s.heap[n].prev.node; m in s.chain && m in s.heap && m !in s.dead && Adjacent(s, m, n) && !s.heap[m].next.mark
  {
    EverCell(s, n);
    var i := IndexOf(s.chain, n);
    if n != Tail { assert Linked(s, i); EverCell(s, s.chain[i + 1]); }
    if n != Head { assert Linked(s, i - 1); EverCell(s, s.chain[i - 1]); }
  }

  lemma BeforeLive(s: State, t: Tid)
    requires ListOK(s) && t in s.pcs && InBefore(s.pcs[t]) && PcOK(s, t, s.pcs[t]) && Sound(s, s.pcs[t])
    requires s.pcs[t].cur in s.chain
    ensures var s' := BeforeStep(s, t, s.pcs[t]); s'.pcs[t].Idle? || Left(s', s'.pcs[t]) < Left(s, s.pcs[t])
  {
    if s.pcs[t].BSwap? {
      BeforeSwaps(s, t);
    } else {
      LiveNeighbours(s, s.pcs[t].cur);
    }
  }

  lemma BeforeSwaps(s: State, t: Tid)
    requires ListOK(s) && t in s.pcs && s.pcs[t].BSwap? && PcOK(s, t, s.pcs[t]) && Sound(s, s.pcs[t])
    requires s.pcs[t].cur in s.chain
    ensures var s' := BeforeStep(s, t, s.pcs[t]); s'.pcs[t].Idle? || Left(s', s'.pcs[t]) < Left(s, s.pcs[t])
  {
    LiveNeighbours(s, s.pcs[t].cur);
  }

  lemma BeforeDead(s: State, t: Tid)
    requires ListOK(s) && t in s.pcs && InBefore(s.pcs[t]) && PcOK(s, t, s.pcs[t]) && Sound(s, s.pcs[t])
    requires s.pcs[t].cur in s.dead
    ensures var s' := BeforeStep(s, t, s.pcs[t]); s'.pcs[t].Idle? || Left(s', s'.pcs[t]) < Left(s, s.pcs[t])
  {
    if s.pcs[t].BHop? {
      BeforeHops(s, t);
    } else {
      EverCell(s, s.pcs[t].cur);
    }
  }

  lemma BeforeHops(s: State, t: Tid)
    requires ListOK(s) && t in s.pcs && s.pcs[t].BHop? && PcOK(s, t, s.pcs[t]) && Sound(s, s.pcs[t])
    ensures var s' := BeforeStep(s, t, s.pcs[t]); Left(s', s'.pcs[t]) < Left(s, s.pcs[t])
  {
    EverCell(s, s.pcs[t].cur);
    HopLeadsOn(s, s.pcs[t].cur);
  }

  lemma AfterLive(s: State, t: Tid)
    requires ListOK(s) && t in s.pcs && InAfter(s.pcs[t]) && PcOK(s, t, s.pcs[t]) && Sound(s, s.pcs[t])
    requires s.pcs[t].cur in s.chain
    ensures var s' := AfterStep(s, t, s.pcs[t]); s'.pcs[t].Idle? || Left(s', s'.pcs[t]) < Left(s, s.pcs[t])
  {
    if s.pcs[t].ASwap? {
      AfterSwaps(s, t);
    } else {
      LiveNeighbours(s, s.pcs[t].cur);
    }
  }

  lemma AfterSwaps(s: State, t: Tid)
    requires ListOK(s) && t in s.pcs && s.pcs[t].ASwap? && PcOK(s, t, s.pcs[t]) && Sound(s, s.pcs[t])
    requires s.pcs[t].cur in s.chain
    ensures var s' := AfterStep(s, t, s.pcs[t]); s'.pcs[t].Idle? || Left(s', s'.pcs[t]) < Left(s, s.pcs[t])
  {
    LiveNeighbours(s, s.pcs[t].cur);
  }

  lemma AfterDead(s: State, t: Tid)
    requires ListOK(s) && t in s.pcs && InAfter(s.pcs[t]) && PcOK(s, t, s.pcs[t]) && Sound(s, s.pcs[t])
    requires s.pcs[t].cur in s.dead
    ensures var s' := AfterStep(s, t, s.pcs[t]); s'.pcs[t].Idle? || Left(s', s'.pcs[t]) < Left(s, s.pcs[t])
  {
    if s.pcs[t].AHop? {
      AfterHops(s, t);
    } else {
      EverCell(s, s.pcs[t].cur);
    }
  }

  lemma AfterHops(s: State, t: Tid)
    requires ListOK(s) && t in s.pcs && s.pcs[t].AHop? && PcOK(s, t, s.pcs[t]) && Sound(s, s.pcs[t])
    ensures var s' := AfterStep(s, t, s.pcs[t]); Left(s', s'.pcs[t]) < Left(s, s.pcs[t])
  {
    EverCell(s, s.pcs[t].cur);
    HopLeadsOn(s, s.pcs[t].cur);
  }

  /** Each own step of an insert, whatever its raw view, brings it closer to its return. */
  lemma OwnStep(s: State, t: Tid, blur: bool)
    requires Inv(s) && Can(s, Go(t, blur)) && Inserting(s.pcs[t])
    ensures var s' := After(s, Go(t, blur));
            PcOf(s', t).Idle? || (Inserting(PcOf(s', t)) && Left(s', PcOf(s', t)) < Left(s, PcOf(s, t)))
  {
    var pc := s.pcs[t];
    assert PcOK(s, t, pc);
    if InBefore(pc) {
      BeforeStays(s, t);
      if pc.cur in s.chain { BeforeLive(s, t); } else { BeforeDead(s, t); }
    } else {
      AfterStays(s, t);
      if pc.cur in s.chain { AfterLive(s, t); } else { AfterDead(s, t); }
    }
  }

  // ---- Stalled threads ----

  predicate AtSwap(pc: Pc) { pc.BSwap? || pc.ASwap? || pc.DSwap? }

  /** The other threads that are stalled inside an MwCAS. */
  function Pending(s: State, t: Tid): set<Tid> { set u | u in s.pcs && u != t && AtSwap(s.pcs[u]) }

  /** Own steps of t, with any blur, and completions of stalled MwCAS calls. */
  predicate Alone(s: State, t: Tid, l: Label) { l.Go? && (l.t == t || l.t in Pending(s, t)) }

  /** The schedule ls is one in which only t runs; it is cut off when t's call returns. */
  ghost predicate IsAlone(s: State, t: Tid, ls: seq<Label>)
    decreases ls
  {
    ls == [] || PcOf(s, t).Idle? || (Alone(s, t, ls[0]) && Can(s, ls[0]) && IsAlone(After(s, ls[0]), t, ls[1..]))
  }

  ghost function End(s: State, t: Tid, ls: seq<Label>): State
    requires IsAlone(s, t, ls)
    decreases ls
  {
    if ls == [] || PcOf(s, t).Idle? then s else End(After(s, ls[0]), t, ls[1..])
  }

  /** The number of own steps in a schedule. */
  function Own(ls: seq<Label>, t: Tid): nat {
    if ls == [] then 0 else (if ls[0].Go? && ls[0].t == t then 1 else 0) + Own(ls[1..], t)
  }

  function Times(m: nat, c: nat): nat { if m == 0 then 0 else c + Times(m - 1, c) }

  /** One round costs at most this many own steps, however many deletions are still to come. */
  function Round(q: nat): nat { 8 * q + 9 }

  lemma PendingLess(s: State, t: Tid, u: Tid, s': State, pc: Pc)
    requires u in Pending(s, t) && s'.pcs == s.pcs[u := pc] && !AtSwap(pc)
    ensures Pending(s', t) == Pending(s, t) - {u} && PcOf(s', t) == PcOf(s, t)
  {
  }

  /** Completing a stalled MwCAS leaves one fewer, and at most one more deleted node. */
  lemma Completed(s: State, t: Tid, u: Tid)
    requires Inv(s) && u in Pending(s, t) && Can(s, Go(u, false))
    ensures var s' := After(s, Go(u, false));
            Pending(s', t) == Pending(s, t) - {u} && |s'.dead| <= |s.dead| + 1 && PcOf(s', t) == PcOf(s, t)
  {
    var s' := After(s, Go(u, false));
    PendingLess(s, t, u, s', s'.pcs[u]);
  }

  lemma BlurIgnored(s: State, u: Tid, blur: bool)
    requires Can(s, Go(u, blur)) && AtSwap(PcOf(s, u))
    ensures After(s, Go(u, blur)) == After(s, Go(u, false))
  {
  }

  lemma LeftBounded(s: State, pc: Pc)
    ensures Left(s, pc) <= Round(|s.dead|)
  {
  }

  lemma OwnKeepsPending(s: State, t: Tid, blur: bool)
    requires Can(s, Go(t, blur)) && Inserting(s.pcs[t])
    ensures var s' := After(s, Go(t, blur)); Pending(s', t) == Pending(s, t) && s'.dead == s.dead
  {
  }

  /** Own steps an insert still needs, counting a round for each stalled MwCAS. */
  function Needs(s: State, t: Tid, q: nat): nat { Left(s, PcOf(s, t)) + Times(|Pending(s, t)|, Round(q)) }

  lemma OwnNeeds(s: State, t: Tid, blur: bool, q: nat)
    requires Inv(s) && Can(s, Go(t, blur)) && Inserting(s.pcs[t]) && |s.dead| + |Pending(s, t)| <= q
    ensures var s' := After(s, Go(t, blur));
            |s'.dead| + |Pending(s', t)| <= q &&
            (PcOf(s', t).Idle? || (Inserting(PcOf(s', t)) && Needs(s', t, q) < Needs(s, t, q)))
  {
    OwnStep(s, t, blur);
    OwnKeepsPending(s, t, blur);
  }

  lemma OtherNeeds(s: State, t: Tid, u: Tid, blur: bool, q: nat)
    requires Inv(s) && Can(s, Go(u, blur)) && u in Pending(s, t) && |s.dead| + |Pending(s, t)| <= q
    ensures var s' := After(s, Go(u, blur));
            |s'.dead| + |Pending(s', t)| <= q && PcOf(s', t) == PcOf(s, t) && Needs(s', t, q) <= Needs(s, t, q)
  {
    BlurIgnored(s, u, blur);
    Completed(s, t, u);
    var s' := After(s, Go(u, false));
    LeftBounded(s', PcOf(s', t));
    assert |Pending(s', t)| == |Pending(s, t)| - 1;
  }

  lemma {:induction false} InsertReturns(s: State, t: Tid, ls: seq<Label>, q: nat)
    requires Inv(s) && IsAlone(s, t, ls) && (Inserting(PcOf(s, t)) || PcOf(s, t).Idle?)
    requires |s.dead| + |Pending(s, t)| <= q && (PcOf(s, t).Idle? || Own(ls, t) >= Needs(s, t, q))
    ensures PcOf(End(s, t, ls), t).Idle?
    decreases ls
  {
    if !PcOf(s, t).Idle? {
      LeftPositive(s, PcOf(s, t));
      var l := ls[0];
      StepKeepsInv(s, l);
      if l.t == t {
        OwnNeeds(s, t, l.blur, q);
      } else {
        OtherNeeds(s, t, l.t, l.blur, q);
      }
      InsertReturns(After(s, l), t, ls[1..], q);
    }
  }

  lemma LeftPositive(s: State, pc: Pc)
    requires Inserting(pc)
    ensures Left(s, pc) > 0
  {
  }

  /**
    From any reachable state, an insert that alone runs returns: for every way its raw view is
    blurred and every order in which stalled MwCAS calls get completed on the way, after at
    most (m + 1) * (8 * (deleted + m) + 9) own steps, m being the number of stalled calls.
  */
  lemma InsertAloneReturns(run: seq<State>, ls: seq<Label>, k: nat, t: Tid, alone: seq<Label>)
    requires IsRun(run, ls) && k < |run| && Inserting(PcOf(run[k], t)) && IsAlone(run[k], t, alone)
    requires var m := |Pending(run[k], t)|; Own(alone, t) >= Times(m + 1, Round(|run[k].dead| + m))
    ensures PcOf(End(run[k], t, alone), t).Idle?
  {
    RunInv(run, ls, k);
    InsertReturnsFrom(run[k], t, alone, |Pending(run[k], t)|);
  }

  lemma InsertReturnsFrom(s: State, t: Tid, alone: seq<Label>, m: nat)
    requires Inv(s) && Inserting(PcOf(s, t)) && IsAlone(s, t, alone) && m == |Pending(s, t)|
    requires Own(alone, t) >= Times(m + 1, Round(|s.dead| + m))
    ensures PcOf(End(s, t, alone), t).Idle?
  {
    LeftBounded(s, PcOf(s, t));
    InsertReturns(s, t, alone, |s.dead| + m);
  }

  // ---- Deletes ----

  /**
    The state after own steps of t with the given raw views. It is cut off when the call
    returns: as long as it has not, the thread can take a step (NeverStuck).
  */
  function Ran(s: State, t: Tid, bs: seq<bool>): State
    decreases bs
  {
    if bs == [] || !Can(s, Go(t, bs[0])) then s else Ran(After(s, Go(t, bs[0])), t, bs[1..])
  }

  datatype Kind = Sentinel | Listed | Deleted

  function KindOf(s: State, d: Node): Kind {
    if d == Head || d == Tail then Sentinel else if d in s.dead then Deleted else Listed
  }

  /**
    Some pass through the loop of Delete sees no descriptor where it looks at raw words: the
    loop test for a deleted node, the two neighbour checks (steps 3 and 4 of a pass) for a
    node in the list. A blurred check ends the pass there.
  */
  predicate CleanPass(k: Kind, bs: seq<bool>)
    decreases |bs|
  {
    match k
    case Sentinel => |bs| >= 1
    case Deleted => |bs| >= 1 && (!bs[0] || (|bs| >= 4 && CleanPass(k, bs[4..])))
    case Listed =>
      |bs| >= 5 && (if bs[3] then CleanPass(k, bs[4..]) else if bs[4] then CleanPass(k, bs[5..]) else |bs| >= 6)
  }

  lemma PutTwice(s: State, t: Tid, a: Pc, b: Pc)
    ensures Put(Put(s, t, a), t, b) == Put(s, t, b)
    ensures t in s.pcs && s.pcs[t] == b ==> Put(s, t, b) == s
  {
    assert s.pcs[t := a][t := b] == s.pcs[t := b];
  }

  /** A step of Delete that only reads moves t from pc to pc'. */
  lemma OneRead(s: State, t: Tid, pc: Pc, bs: seq<bool>, pc': Pc)
    requires !pc.Idle? && !Inserting(pc) && bs != [] && Sound(s, pc)
    requires DeleteStep(s, t, bs[0], pc) == Put(s, t, pc')
    ensures Ran(Put(s, t, pc), t, bs) == Ran(Put(s, t, pc'), t, bs[1..])
  {
    PutTwice(s, t, pc, pc');
    assert After(Put(s, t, pc), Go(t, bs[0])) == Put(s, t, pc');
  }

  /** Three reads that nothing can disturb lead from the loop test to the first neighbour check. */
  lemma ThreeReads(s: State, t: Tid, d: Node, bs: seq<bool>)
    requires ListOK(s) && Ever(s, d) && PcOf(s, t) == DTest(d) && d.Item? && d in s.heap && |bs| >= 3 && (d in s.dead ==> bs[0])
    ensures var pc := DCheckPrev(d, s.heap[d].prev, s.heap[d].next);
            Ran(s, t, bs) == Ran(Put(s, t, pc), t, bs[3..])
  {
    EverCell(s, d);
    PutTwice(s, t, DTest(d), DTest(d));
    OneRead(s, t, DTest(d), bs, DPrev(d));
    OneRead(s, t, DPrev(d), bs[1..], DNext(d, s.heap[d].prev));
    OneRead(s, t, DNext(d, s.heap[d].prev), bs[1..][1..], DCheckPrev(d, s.heap[d].prev, s.heap[d].next));
    assert bs[1..][1..][1..] == bs[3..];
  }

  /** Fewer steps than that do not reach the end of the loop. */
  lemma ShortRun(s: State, t: Tid, d: Node, bs: seq<bool>)
    requires ListOK(s) && Ever(s, d) && PcOf(s, t) == DTest(d) && d.Item? && d in s.heap && |bs| <= 3 && (d in s.dead && bs != [] ==> bs[0])
    ensures !PcOf(Ran(s, t, bs), t).Idle?
  {
    EverCell(s, d);
    PutTwice(s, t, DTest(d), DTest(d));
    if |bs| == 3 {
      ThreeReads(s, t, d, bs);
    } else if |bs| > 0 {
      OneRead(s, t, DTest(d), bs, DPrev(d));
      if |bs| == 2 { OneRead(s, t, DPrev(d), bs[1..], DNext(d, s.heap[d].prev)); }
    }
  }

  /** The first neighbour check: blurred, or on a deleted node, it leads back to the loop test. */
  lemma FirstCheck(s: State, t: Tid, d: Node, bs: seq<bool>)
    requires ListOK(s) && Ever(s, d) && PcOf(s, t) == DTest(d) && d.Item? && d in s.heap && |bs| >= 4 && (d in s.dead ==> bs[0])
    ensures d in s.dead || bs[3] ==> Ran(s, t, bs) == Ran(s, t, bs[4..])
    ensures d !in s.dead && !bs[3] ==>
              var pc := DCheckNext(d, s.heap[d].prev, s.heap[d].next);
              Ran(s, t, bs) == Ran(Put(s, t, pc), t, bs[4..])
  {
    EverCell(s, d);
    PrevOf(s, d);
    EverCell(s, s.heap[d].prev.node);
    ThreeReads(s, t, d, bs);
    var pc := DCheckPrev(d, s.heap[d].prev, s.heap[d].next);
    assert bs[3..][1..] == bs[4..];
    PutTwice(s, t, pc, DTest(d));
    if d in s.dead {
      DeadUnlinked(s, d, s.heap[d].prev.node);
      OneRead(s, t, pc, bs[3..], DTest(d));
    } else {
      LiveNeighbours(s, d);
      OneRead(s, t, pc, bs[3..], if bs[3] then DTest(d) else DCheckNext(d, s.heap[d].prev, s.heap[d].next));
    }
  }

  /** No unmarked link leads to a deleted node. */
  lemma DeadUnlinked(s: State, d: Node, p: Node)
    requires ListOK(s) && d in s.dead && Ever(s, p) && p in s.heap
    ensures s.heap[p].next != Link(d, false)
  {
    if s.heap[p].next == Link(d, false) {
      var i := NeighboursAt(s, p, d);
    }
  }

  /** The second check, and the swap: blurred it leads back, otherwise the call returns. */
  lemma SecondCheck(s: State, t: Tid, d: Node, bs: seq<bool>)
    requires ListOK(s) && d in s.chain && d.Item? && PcOf(s, t) == DTest(d)
    requires d in s.heap && bs != []
    ensures var r := Ran(Put(s, t, DCheckNext(d, s.heap[d].prev, s.heap[d].next)), t, bs);
            if bs[0] then r == Ran(s, t, bs[1..]) else PcOf(r, t).Idle? <==> |bs| >= 2
  {
    LiveNeighbours(s, d);
    var p, n := s.heap[d].prev, s.heap[d].next;
    PutTwice(s, t, DCheckNext(d, p, n), DTest(d));
    if bs[0] {
      OneRead(s, t, DCheckNext(d, p, n), bs, DTest(d));
    } else {
      OneRead(s, t, DCheckNext(d, p, n), bs, DSwap(d, p, n));
      if |bs| >= 2 { assert Between(Put(s, t, DSwap(d, p, n)), p.node, d, n.node); }
    }
  }

  /**
    A delete that alone runs, at its loop test, while no stalled MwCAS gets completed: for every
    sequence of raw views it has returned at the end if and only if one of its passes was clean.
  */
  lemma {:induction false} UnhelpedDeleteReturns(s: State, t: Tid, d: Node, bs: seq<bool>)
    requires Inv(s) && PcOf(s, t) == DTest(d)
    ensures PcOf(Ran(s, t, bs), t).Idle? <==> CleanPass(KindOf(s, d), bs)
    decreases |bs|
  {
    assert PcOK(s, t, s.pcs[t]);
    EverCell(s, d);
    PutTwice(s, t, DTest(d), DTest(d));
    if bs == [] {
    } else if d == Head || d == Tail || (d in s.dead && !bs[0]) {
      OneRead(s, t, DTest(d), bs, Idle);
    } else if |bs| <= 3 {
      ShortRun(s, t, d, bs);
    } else {
      FirstCheck(s, t, d, bs);
      if d in s.dead || bs[3] {
        UnhelpedDeleteReturns(s, t, d, bs[4..]);
      } else if |bs| >= 5 {
        SecondCheck(s, t, d, bs[4..]);
        assert bs[4..][1..] == bs[5..];
        if bs[4] { UnhelpedDeleteReturns(s, t, d, bs[5..]); }
      }
    }
  }

  function Ahead(pc: Pc): nat {
    match pc
    case DPrev(_) => 5
    case DNext(_, _) => 4
    case DCheckPrev(_, _, _) => 3
    case DCheckNext(_, _, _) => 2
    case DSwap(_, _, _) => 1
    case _ => 0
  }

  lemma DeleteAdvances(s: State, t: Tid, blur: bool)
    requires t in s.pcs && !Inserting(s.pcs[t]) && !s.pcs[t].Idle? && !s.pcs[t].DTest? && Sound(s, s.pcs[t])
    ensures var pc, pc' := s.pcs[t], PcOf(DeleteStep(s, t, blur, s.pcs[t]), t);
            pc'.Idle? || (!Inserting(pc') && pc'.cur == pc.cur && Ahead(pc') < Ahead(pc))
  {
  }

  lemma DeleteGoesOn(s: State, t: Tid, blur: bool)
    requires Inv(s) && t in s.pcs && !Inserting(s.pcs[t]) && !s.pcs[t].Idle? && !s.pcs[t].DTest?
    ensures Can(s, Go(t, blur)) && Inv(After(s, Go(t, blur)))
    ensures var pc, pc' := s.pcs[t], PcOf(After(s, Go(t, blur)), t);
            pc'.Idle? || (!Inserting(pc') && pc'.cur == pc.cur && Ahead(pc') < Ahead(pc))
  {
    AlwaysSound(s, t);
    StepKeepsInv(s, Go(t, blur));
    DeleteAdvances(s, t, blur);
  }

  lemma RanOne(s: State, t: Tid, bs: seq<bool>, i: nat)
    requires i < |bs| && Can(s, Go(t, bs[0]))
    ensures Ran(s, t, bs[..i + 1]) == Ran(After(s, Go(t, bs[0])), t, bs[1..][..i])
  {
    assert bs[..i + 1][1..] == bs[1..][..i] && bs[..i + 1][0] == bs[0];
  }

  /** After j own steps the call has returned, or is at its loop test. */
  ghost predicate AtTest(s: State, t: Tid, bs: seq<bool>, j: nat, d: Node) {
    j <= |bs| && Inv(Ran(s, t, bs[..j])) && var pc := PcOf(Ran(s, t, bs[..j]), t); pc.Idle? || pc == DTest(d)
  }

  lemma AtTestNow(s: State, t: Tid, bs: seq<bool>, d: Node)
    requires Inv(s) && (PcOf(s, t).Idle? || PcOf(s, t) == DTest(d))
    ensures AtTest(s, t, bs, 0, d)
  {
  }

  lemma AtTestLater(s: State, t: Tid, bs: seq<bool>, i: nat, d: Node)
    requires bs != [] && Can(s, Go(t, bs[0])) && AtTest(After(s, Go(t, bs[0])), t, bs[1..], i, d)
    ensures AtTest(s, t, bs, i + 1, d)
  {
    RanOne(s, t, bs, i);
  }

  /** Wherever a delete is stalled, after at most five own steps it has returned or is at its loop test. */
  lemma {:induction false} DeleteReachesTest(s: State, t: Tid, bs: seq<bool>) returns (j: nat)
    requires Inv(s) && !PcOf(s, t).Idle? && !Inserting(PcOf(s, t)) && |bs| >= Ahead(PcOf(s, t))
    ensures j <= Ahead(PcOf(s, t)) <= 5 && AtTest(s, t, bs, j, PcOf(s, t).cur)
    decreases |bs|
  {
    var pc := PcOf(s, t);
    j := 0;
    if pc.DTest? {
      AtTestNow(s, t, bs, pc.cur);
    } else {
      FirstOwnStep(s, t, bs);
      j := 1;
      var s' := After(s, Go(t, bs[0]));
      if !PcOf(s', t).Idle? {
        var i := DeleteReachesTest(s', t, bs[1..]);
        AtTestLater(s, t, bs, i, pc.cur);
        j := i + 1;
      }
    }
  }

  lemma FirstOwnStep(s: State, t: Tid, bs: seq<bool>)
    requires Inv(s) && t in s.pcs && !Inserting(s.pcs[t]) && !s.pcs[t].Idle? && !s.pcs[t].DTest? && bs != []
    ensures Can(s, Go(t, bs[0])) && Inv(After(s, Go(t, bs[0])))
    ensures var pc, pc' := s.pcs[t], PcOf(After(s, Go(t, bs[0])), t);
            if pc'.Idle? then AtTest(s, t, bs, 1, pc.cur) else !Inserting(pc') && pc'.cur == pc.cur && Ahead(pc') < Ahead(pc)
  {
    DeleteGoesOn(s, t, bs[0]);
    var s' := After(s, Go(t, bs[0]));
    if PcOf(s', t).Idle? {
      AtTestNow(s', t, bs[1..], s.pcs[t].cur);
      AtTestLater(s, t, bs, 0, s.pcs[t].cur);
    }
  }

  lemma {:induction false} RanSplit(s: State, t: Tid, bs: seq<bool>, j: nat)
    requires j <= |bs|
    ensures Ran(s, t, bs) == Ran(Ran(s, t, bs[..j]), t, bs[j..])
    decreases j
  {
    if j == 0 {
      assert bs[0..] == bs;
    } else if Can(s, Go(t, bs[0])) {
      assert bs[..j][1..] == bs[1..][..j - 1] && bs[..j][0] == bs[0] && bs[1..][j - 1..] == bs[j..];
      RanSplit(After(s, Go(t, bs[0])), t, bs[1..], j - 1);
    } else {
      assert bs[..j] != [] && bs[..j][0] == bs[0];
      StuckRun(s, t, bs[j..], bs[0]);
    }
  }

  lemma StuckRun(s: State, t: Tid, bs: seq<bool>, b: bool)
    requires !Can(s, Go(t, b))
    ensures Ran(s, t, bs) == s
  {
  }

  /**
    The same from any reachable state: after at most five own steps the delete has
    returned or come to its loop test; and from there, whatever its raw views are, it returns if
    and only if one of its passes is clean.
  */
  lemma UnhelpedDelete(run: seq<State>, ls: seq<Label>, k: nat, t: Tid, bs: seq<bool>) returns (j: nat)
    requires IsRun(run, ls) && k < |run| && !Inserting(PcOf(run[k], t)) && !PcOf(run[k], t).Idle? && |bs| >= 5
    ensures j <= 5
    ensures var d, s := PcOf(run[k], t).cur, Ran(run[k], t, bs[..j]);
            PcOf(s, t).Idle? || (PcOf(s, t) == DTest(d) &&
                                 (PcOf(Ran(run[k], t, bs), t).Idle? <==> CleanPass(KindOf(s, d), bs[j..])))
  {
    RunInv(run, ls, k);
    j := DeleteReachesTest(run[k], t, bs);
    RanSplit(run[k], t, bs, j);
    var s := Ran(run[k], t, bs[..j]);
    if !PcOf(s, t).Idle? { UnhelpedDeleteReturns(s, t, PcOf(run[k], t).cur, bs[j..]); }
  }

  // ---- A delete that never returns ----

  /** n passes in which only the first neighbour check meets a descriptor. */
  function Spins(n: nat): seq<bool> { if n == 0 then [] else [false, false, false, true] + Spins(n - 1) }

  lemma {:induction false} DeleteSpins(s: State, t: Tid, d: Node, n: nat)
    requires Inv(s) && PcOf(s, t) == DTest(d) && d.Item? && d in s.chain
    ensures Ran(s, t, Spins(n)) == s
  {
    if n > 0 {
      EverCell(s, d);
      FirstCheck(s, t, d, Spins(n));
      assert Spins(n)[4..] == Spins(n - 1);
      DeleteSpins(s, t, d, n - 1);
    }
  }

  ghost predicate Reachable(s: State) { exists run, ls :: IsRun(run, ls) && run[|ls|] == s }

  lemma ReachInit(s: State)
    requires Init(s)
    ensures Reachable(s)
  {
    assert IsRun([s], []);
  }

  lemma ReachStep(s: State, l: Label)
    requires Reachable(s) && Can(s, l)
    ensures Reachable(After(s, l))
  {
    var run, ls :| IsRun(run, ls) && run[|ls|] == s;
    var run', ls' := run + [After(s, l)], ls + [l];
    forall k | 0 <= k < |ls'|
      ensures StepAt(run', ls', k)
    {
      if k < |ls| { assert StepAt(run, ls, k); }
    }
    assert IsRun(run', ls');
  }

  const X := Item(0)
  const Y := Item(1)

  function To(n: Node): Link { Link(n, false) }

  /** The list head, x, tail; y is about to be inserted before x, and thread 1 is at pc. */
  function Half(y: Cell, pcs: map<Tid, Pc>): State {
    State(map[Head := Cell(To(Null), To(X)), Tail := Cell(To(X), To(Null)), X := Cell(To(Head), To(Tail)), Y := y],
          pcs, map[X := 1, Y := 1], [Head, X, Tail], [])
  }

  /** The empty list, x being inserted by thread 1. */
  function First(x: Cell, pc: Pc): State {
    State(map[Head := Cell(To(Null), To(Tail)), Tail := Cell(To(Head), To(Null)), X := x],
          map[1 := pc], map[X := 1], [Head, Tail], [])
  }

  const Nil := Cell(To(Null), To(Null))

  function OneItem(): State {
    State(map[Head := Cell(To(Null), To(X)), Tail := Cell(To(X), To(Null)), X := Cell(To(Head), To(Tail))],
          map[1 := Idle], map[X := 1], [Head, X, Tail], [])
  }

  lemma StepTo(s: State, l: Label, s': State)
    requires Reachable(s) && Can(s, l) && After(s, l) == s'
    ensures Reachable(s')
  {
    ReachStep(s, l);
  }

  lemma FirstCalled()
    ensures Reachable(First(Nil, BPrev(X, Tail, Tail)))
  {
    var s := State(map[Head := Cell(To(Null), To(Tail)), Tail := Cell(To(Head), To(Null))], map[], map[], [Head, Tail], []);
    ReachInit(s);
    StepTo(s, InsertBefore(1, Tail, X), First(Nil, BPrev(X, Tail, Tail)));
  }

  lemma FirstReads()
    ensures Reachable(First(Nil, BPrevNext(X, Tail, Tail, To(Head))))
  {
    FirstCalled();
    StepTo(First(Nil, BPrev(X, Tail, Tail)), Go(1, false), First(Nil, BNext(X, Tail, Tail, To(Head))));
    StepTo(First(Nil, BNext(X, Tail, Tail, To(Head))), Go(1, false), First(Nil, BPrevNext(X, Tail, Tail, To(Head))));
  }

  lemma FirstWrites()
    ensures Reachable(First(Cell(To(Head), To(Tail)), BSwap(X, Tail, Tail, To(Head))))
  {
    FirstReads();
    StepTo(First(Nil, BPrevNext(X, Tail, Tail, To(Head))), Go(1, false), First(Nil, BWrite(X, Tail, Tail, To(Head))));
    StepTo(First(Nil, BWrite(X, Tail, Tail, To(Head))), Go(1, false),
           First(Cell(To(Head), To(Tail)), BSwap(X, Tail, Tail, To(Head))));
  }

  lemma FirstInserted()
    ensures Reachable(OneItem())
  {
    FirstWrites();
    var s := First(Cell(To(Head), To(Tail)), BSwap(X, Tail, Tail, To(Head)));
    assert WithAfter([Head, Tail], Head, X) == [Head, X, Tail];
    assert After(s, Go(1, false)).heap == OneItem().heap;
    StepTo(s, Go(1, false), OneItem());
  }

  lemma SecondReads()
    ensures Reachable(Half(Nil, map[1 := BNext(Y, X, X, To(Head))]))
  {
    FirstInserted();
    StepTo(OneItem(), InsertBefore(1, X, Y), Half(Nil, map[1 := BPrev(Y, X, X)]));
    StepTo(Half(Nil, map[1 := BPrev(Y, X, X)]), Go(1, false), Half(Nil, map[1 := BNext(Y, X, X, To(Head))]));
  }

  lemma SecondStalls()
    ensures Reachable(Half(Cell(To(Head), To(X)), map[1 := BSwap(Y, X, X, To(Head))]))
  {
    SecondReads();
    StepTo(Half(Nil, map[1 := BNext(Y, X, X, To(Head))]), Go(1, false), Half(Nil, map[1 := BPrevNext(Y, X, X, To(Head))]));
    StepTo(Half(Nil, map[1 := BPrevNext(Y, X, X, To(Head))]), Go(1, false), Half(Nil, map[1 := BWrite(Y, X, X, To(Head))]));
    StepTo(Half(Nil, map[1 := BWrite(Y, X, X, To(Head))]), Go(1, false),
           Half(Cell(To(Head), To(X)), map[1 := BSwap(Y, X, X, To(Head))]));
  }

  /**
    Thread 1 stalls in the MwCAS that inserts y before x: its descriptor may sit in head->next,
    which Delete(x) reads raw. A thread that then deletes x can go round its loop for ever
    without a change to anything, and without completing that MwCAS.
  */
  lemma StalledInsertBlocksDelete()
    ensures exists s: State ::
              && Reachable(s) && PcOf(s, 2) == DTest(X) && X in s.chain
              && PcOf(s, 1) == BSwap(Y, X, X, To(Head)) && X in s.heap && s.heap[X].prev == To(Head)
              && forall n: nat :: Ran(s, 2, Spins(n)) == s
  {
    SecondStalls();
    var y := Cell(To(Head), To(X));
    var s := Half(y, map[1 := BSwap(Y, X, X, To(Head)), 2 := DTest(X)]);
    StepTo(Half(y, map[1 := BSwap(Y, X, X, To(Head))]), Delete(2, X), s);
    ReachableInv(s);
    forall n: nat ensures Ran(s, 2, Spins(n)) == s { DeleteSpins(s, 2, X, n); }
  }

  lemma ReachableInv(s: State)
    requires Reachable(s)
    ensures Inv(s)
  {
    var run, ls :| IsRun(run, ls) && run[|ls|] == s;
    RunInv(run, ls, |ls|);
  }
}
