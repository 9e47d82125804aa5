/**
  Delete running alone while the MwCAS calls of stalled threads get completed in any order. A pass of
  its loop returns exactly if none of its raw reads meets a descriptor and none of those completions
  changes what it has read.
*/
module DListDelete {
  import opened DList
  import opened DListAlone

  predicate Deleting(pc: Pc) { pc.DTest? || pc.DPrev? || pc.DNext? || pc.DCheckPrev? || pc.DCheckNext? || pc.DSwap? }

  predicate ReadPrev(pc: Pc) { pc.DNext? || pc.DCheckPrev? || pc.DCheckNext? || pc.DSwap? }

  predicate ReadNext(pc: Pc) { pc.DCheckPrev? || pc.DCheckNext? || pc.DSwap? }

  // ---- What can go wrong with a pass ----

  /** A raw read of t that matters meets a descriptor. */
  predicate Blurred(s: State, t: Tid, l: Label) {
    && l.Go? && l.t == t && l.blur
    && var pc := PcOf(s, t); pc.DCheckPrev? || pc.DCheckNext? || (pc.DTest? && pc.cur in s.dead)
  }

  /** Another thread's step deletes the node, or changes a link of it that t has read in this pass. */
  predicate Disturbed(s: State, t: Tid, s': State) {
    var pc := PcOf(s, t);
    && Deleting(pc) && !pc.DTest? && pc.cur in s.heap && pc.cur in s'.heap
    && (|| (pc.cur in s'.dead && pc.cur !in s.dead)
        || (ReadPrev(pc) && s'.heap[pc.cur].prev != s.heap[pc.cur].prev)
        || (ReadNext(pc) && s'.heap[pc.cur].next != s.heap[pc.cur].next))
  }

  /** The pass under way is clean after the step l if it was before; a new pass starts with the loop test. */
  predicate StaysClean(s: State, t: Tid, l: Label, clean: bool)
    requires Can(s, l)
  {
    (clean || (l.Go? && l.t == t && PcOf(s, t).DTest?)) && !Blurred(s, t, l)
    && (l.Go? && l.t != t ==> !Disturbed(s, t, After(s, l)))
  }

  /** Some pass is clean up to its end; clean: the pass under way is so far. */
  ghost predicate SomeCleanPass(s: State, t: Tid, ls: seq<Label>, clean: bool)
    requires IsAlone(s, t, ls)
    decreases ls
  {
    ls != [] && !PcOf(s, t).Idle? &&
    var s', clean' := After(s, ls[0]), StaysClean(s, t, ls[0], clean);
    (ls[0].t == t && clean' && (PcOf(s', t).Idle? || PcOf(s', t).DTest?)) || SomeCleanPass(s', t, ls[1..], clean')
  }

  // ---- What holds of a clean pass, and of one that is not ----

  /** What the pass has read still holds. */
  predicate Holds(s: State, pc: Pc)
    requires !pc.Idle?
  {
    && pc.cur in s.chain && pc.cur in s.heap
    && (ReadPrev(pc) ==> s.heap[pc.cur].prev == pc.prev) && (ReadNext(pc) ==> s.heap[pc.cur].next == pc.next)
  }

  /** The node is in the list, and no stalled thread is about to delete it. */
  predicate Lasting(s: State, t: Tid, x: Node) {
    x in s.chain && forall u | u in Pending(s, t) && s.pcs[u].DSwap? :: s.pcs[u].cur != x
  }

  /** The neighbour that was read is deleted, or another one has come between that lasts. */
  predicate PrevGone(s: State, t: Tid, pc: Pc) {
    ReadPrev(pc) && (pc.prev.node in s.dead ||
                     (pc.cur in s.heap && s.heap[pc.cur].prev.node != pc.prev.node && Lasting(s, t, s.heap[pc.cur].prev.node)))
  }

  predicate NextGone(s: State, t: Tid, pc: Pc) {
    ReadNext(pc) && (pc.next.node in s.dead ||
                     (pc.cur in s.heap && s.heap[pc.cur].next.node != pc.next.node && Lasting(s, t, s.heap[pc.cur].next.node)))
  }

  predicate Gone(s: State, t: Tid, pc: Pc)
    requires !pc.Idle?
  {
    pc.cur in s.dead || PrevGone(s, t, pc) || NextGone(s, t, pc)
  }

  /** In a pass, clean says whether it can still end with the return of the call. */
  predicate PassOK(s: State, t: Tid, pc: Pc, clean: bool) {
    Deleting(pc) && (!pc.DTest? ==> if clean then Holds(s, pc) else Gone(s, t, pc))
  }

  // ---- Completions ----

  /** A completed insert or delete: how the neighbours of a node m of the list change. */
  lemma InsertWrites(s: State, t: Tid, u: Tid, p: Node, n: Node, x: Node, m: Node)
    requires Inv(s) && u in s.pcs && Mine(s, u, x) && Ever(s, p) && Ever(s, n) && p in s.heap && n in s.heap && Adjacent(s, p, n)
    requires s.heap[x] == Cell(Link(p, false), Link(n, false)) && m in s.heap && m != x
    ensures var s' := Put(Spliced(s, p, n, x), u, Idle);
            && x in s'.chain && !Ever(s, x) && (forall y :: y in s.chain ==> y in s'.chain)
            && m in s'.heap && (s'.heap[m].prev == s.heap[m].prev || s'.heap[m].prev.node == x)
            && (s'.heap[m].next == s.heap[m].next || s'.heap[m].next.node == x)
  {
    SpliceKeepsList(s, p, n, x);
  }

  lemma DeleteWrites(s: State, u: Tid, p: Node, d: Node, n: Node, m: Node)
    requires Inv(s) && Ever(s, p) && Ever(s, d) && Ever(s, n) && d.Item?
    requires p in s.heap && n in s.heap && d in s.heap && Between(s, p, d, n) && m in s.heap && m != d
    ensures var s' := Put(Unspliced(s, p, d, n), u, Idle);
            && d in s'.dead && (forall y :: y in s.chain && y != d ==> y in s'.chain)
            && m in s'.heap && (s'.heap[m].prev == s.heap[m].prev || s.heap[m].prev.node == d)
            && (s'.heap[m].next == s.heap[m].next || s.heap[m].next.node == d)
  {
    UnspliceKeepsList(s, p, d, n);
  }

  /** A link stays, or leads to a node that is new to the list, or led to one that is now deleted. */
  predicate Shifts(s: State, s': State, was: Link, now: Link) {
    now == was || (!Ever(s, now.node) && now.node in s'.chain) || was.node in s'.dead
  }

  /** What the completion of u's MwCAS does to the links of a node, and to the list. */
  ghost predicate Completes(s: State, t: Tid, u: Tid, s': State, m: Node)
    requires u in s.pcs && m in s.heap
  {
    && m in s'.heap && PcOf(s', t) == PcOf(s, t)
    && (m in s'.dead || (Shifts(s, s', s.heap[m].prev, s'.heap[m].prev) && Shifts(s, s', s.heap[m].next, s'.heap[m].next)))
    && (forall y :: y in s.dead ==> y in s'.dead)
    && (forall y :: y in s.chain ==> y in s'.chain || y in s'.dead)
    && (forall y :: y in s'.dead ==> y in s.dead || (s.pcs[u].DSwap? && s.pcs[u].cur == y))
    && (forall v | v in Pending(s', t) :: v in Pending(s, t) && s'.pcs[v] == s.pcs[v])
  }

  lemma BeforeCompletes(s: State, t: Tid, u: Tid, m: Node)
    requires Inv(s) && u in Pending(s, t) && s.pcs[u].BSwap? && Can(s, Go(u, false)) && Ever(s, m) && m in s.heap
    ensures Completes(s, t, u, After(s, Go(u, false)), m)
  {
    var pc := s.pcs[u];
    assert PcOK(s, u, pc);
    EverCell(s, pc.cur);
    EverCell(s, pc.prev.node);
    if Adjacent(s, pc.prev.node, pc.cur) { InsertWrites(s, t, u, pc.prev.node, pc.cur, pc.x, m); }
  }

  lemma AfterCompletes(s: State, t: Tid, u: Tid, m: Node)
    requires Inv(s) && u in Pending(s, t) && s.pcs[u].ASwap? && Can(s, Go(u, false)) && Ever(s, m) && m in s.heap
    ensures Completes(s, t, u, After(s, Go(u, false)), m)
  {
    var pc := s.pcs[u];
    assert PcOK(s, u, pc);
    EverCell(s, pc.cur);
    EverCell(s, pc.next.node);
    if Adjacent(s, pc.cur, pc.next.node) { InsertWrites(s, t, u, pc.cur, pc.next.node, pc.x, m); }
  }

  lemma DeleteCompletes(s: State, t: Tid, u: Tid, m: Node)
    requires Inv(s) && u in Pending(s, t) && s.pcs[u].DSwap? && Can(s, Go(u, false)) && Ever(s, m) && m in s.heap
    ensures Completes(s, t, u, After(s, Go(u, false)), m)
  {
    var pc := s.pcs[u];
    assert PcOK(s, u, pc);
    EverCell(s, pc.cur);
    if Between(s, pc.prev.node, pc.cur, pc.next.node) && m != pc.cur {
      DeleteWrites(s, u, pc.prev.node, pc.cur, pc.next.node, m);
    } else if Between(s, pc.prev.node, pc.cur, pc.next.node) {
      UnspliceKeepsList(s, pc.prev.node, pc.cur, pc.next.node);
    }
  }

  lemma Completion(s: State, t: Tid, u: Tid, m: Node)
    requires Inv(s) && u in Pending(s, t) && Can(s, Go(u, false)) && Ever(s, m) && m in s.heap
    ensures Completes(s, t, u, After(s, Go(u, false)), m)
  {
    if s.pcs[u].BSwap? {
      BeforeCompletes(s, t, u, m);
    } else if s.pcs[u].ASwap? {
      AfterCompletes(s, t, u, m);
    } else {
      DeleteCompletes(s, t, u, m);
    }
  }

  // ---- Completions and the pass under way ----

  /** What lasts, lasts; and a node that is new to the list lasts. */
  lemma StillLasting(s: State, t: Tid, u: Tid, s': State, m: Node, y: Node)
    requires Inv(s) && u in Pending(s, t) && m in s.heap && Completes(s, t, u, s', m)
    requires Lasting(s, t, y) || (!Ever(s, y) && y in s'.chain)
    ensures Lasting(s', t, y) && (Lasting(s, t, y) ==> y !in s'.dead)
  {
    forall v | v in Pending(s', t) && s'.pcs[v].DSwap?
      ensures s'.pcs[v].cur != y
    {
      assert PcOK(s, v, s.pcs[v]);
    }
  }

  /** A link of the node that led to p: after a completion it is as it was, or p is gone for good. */
  lemma LinkGone(s: State, t: Tid, u: Tid, s': State, m: Node, p: Node, was: Link, now: Link)
    requires Inv(s) && u in Pending(s, t) && m in s.heap && Completes(s, t, u, s', m) && Ever(s, p) && Shifts(s, s', was, now)
    requires was.node == p || p in s.dead || (was.node != p && Lasting(s, t, was.node))
    ensures now == was || p in s'.dead || (now.node != p && Lasting(s', t, now.node))
    ensures was.node != p ==> p in s'.dead || (now.node != p && Lasting(s', t, now.node))
  {
    if p !in s.dead {
      if was.node != p { StillLasting(s, t, u, s', m, was.node); }
      if !Ever(s, now.node) && now.node in s'.chain { StillLasting(s, t, u, s', m, now.node); }
    }
  }

  lemma GoneStays(s: State, t: Tid, u: Tid, pc: Pc)
    requires Inv(s) && u in Pending(s, t) && Can(s, Go(u, false)) && PcOf(s, t) == pc && Deleting(pc) && !pc.DTest?
    requires Gone(s, t, pc)
    ensures Gone(After(s, Go(u, false)), t, pc)
  {
    var s', m := After(s, Go(u, false)), pc.cur;
    assert PcOK(s, t, pc);
    EverCell(s, m);
    Completion(s, t, u, m);
    if m !in s'.dead {
      if PrevGone(s, t, pc) { LinkGone(s, t, u, s', m, pc.prev.node, s.heap[m].prev, s'.heap[m].prev); }
      if NextGone(s, t, pc) { LinkGone(s, t, u, s', m, pc.next.node, s.heap[m].next, s'.heap[m].next); }
    }
  }

  lemma DisturbedIsGone(s: State, t: Tid, u: Tid, pc: Pc)
    requires Inv(s) && u in Pending(s, t) && Can(s, Go(u, false)) && PcOf(s, t) == pc && Deleting(pc) && !pc.DTest?
    requires Holds(s, pc) && Disturbed(s, t, After(s, Go(u, false)))
    ensures Gone(After(s, Go(u, false)), t, pc)
  {
    var s', m := After(s, Go(u, false)), pc.cur;
    assert PcOK(s, t, pc);
    Completion(s, t, u, m);
    if m !in s'.dead {
      if ReadPrev(pc) { LinkGone(s, t, u, s', m, pc.prev.node, s.heap[m].prev, s'.heap[m].prev); }
      if ReadNext(pc) { LinkGone(s, t, u, s', m, pc.next.node, s.heap[m].next, s'.heap[m].next); }
    }
  }

  lemma OtherKeepsPass(s: State, t: Tid, l: Label, clean: bool)
    requires Inv(s) && l.Go? && l.t in Pending(s, t) && Can(s, l) && PassOK(s, t, PcOf(s, t), clean)
    ensures PcOf(After(s, l), t) == PcOf(s, t) && PassOK(After(s, l), t, PcOf(s, t), StaysClean(s, t, l, clean))
  {
    var u, pc := l.t, PcOf(s, t);
    BlurIgnored(s, u, l.blur);
    assert PcOK(s, t, pc);
    EverCell(s, pc.cur);
    Completion(s, t, u, pc.cur);
    if !pc.DTest? {
      if !clean {
        GoneStays(s, t, u, pc);
      } else if Disturbed(s, t, After(s, l)) {
        DisturbedIsGone(s, t, u, pc);
      }
    }
  }

  // ---- Own steps ----

  /** The three words of a delete: its node is in the list, between those two. */
  lemma BetweenLinks(s: State, p: Node, d: Node, n: Node)
    requires ListOK(s) && Ever(s, p) && Ever(s, d) && Ever(s, n) && p in s.heap && d in s.heap && n in s.heap && Between(s, p, d, n)
    ensures p !in s.dead && d !in s.dead && n !in s.dead && s.heap[d].prev.node == p && s.heap[d].next.node == n
  {
    var i := NeighboursAt(s, p, d);
    var j := NeighboursAt(s, d, n);
    assert Linked(s, i);
  }

  /** A pass that is not clean does not get its three words. */
  lemma GoneFails(s: State, t: Tid, pc: Pc)
    requires Inv(s) && PcOf(s, t) == pc && pc.DSwap? && Sound(s, pc) && Gone(s, t, pc)
    ensures !Between(s, pc.prev.node, pc.cur, pc.next.node)
  {
    assert PcOK(s, t, pc);
    if Between(s, pc.prev.node, pc.cur, pc.next.node) { BetweenLinks(s, pc.prev.node, pc.cur, pc.next.node); }
  }

  /** In a clean pass the neighbours agree with what it has read. */
  lemma HoldsAgree(s: State, t: Tid, pc: Pc)
    requires Inv(s) && PcOf(s, t) == pc && ReadPrev(pc) && Holds(s, pc)
    ensures pc.prev.node in s.heap && s.heap[pc.prev.node].next == Link(pc.cur, false)
    ensures ReadNext(pc) ==> pc.next.node in s.heap && s.heap[pc.next.node].prev == Link(pc.cur, false) && pc.next == Link(pc.next.node, false)
  {
    assert PcOK(s, t, pc);
    LiveNeighbours(s, pc.cur);
  }

  predicate Ends(pc: Pc) { pc.Idle? || pc.DTest? }

  /** An own step of Delete: the pass ends with a return exactly if it is clean to its end; otherwise it goes on as before. */
  lemma OwnKeepsPass(s: State, t: Tid, blur: bool, clean: bool)
    requires Inv(s) && Can(s, Go(t, blur)) && PassOK(s, t, PcOf(s, t), clean)
    ensures var pc', clean' := PcOf(After(s, Go(t, blur)), t), StaysClean(s, t, Go(t, blur), clean);
            && (Ends(pc') ==> (pc'.Idle? <==> clean'))
            && (!pc'.Idle? ==> PassOK(After(s, Go(t, blur)), t, pc', clean'))
  {
    var pc := PcOf(s, t);
    assert PcOK(s, t, pc);
    EverCell(s, pc.cur);
    if clean && ReadPrev(pc) { HoldsAgree(s, t, pc); }
    if pc.DSwap? && !clean { GoneFails(s, t, pc); }
  }

  // ---- The theorem ----

  lemma {:induction false} PassesReturn(s: State, t: Tid, ls: seq<Label>, clean: bool)
    requires Inv(s) && IsAlone(s, t, ls) && PassOK(s, t, PcOf(s, t), clean)
    ensures PcOf(End(s, t, ls), t).Idle? <==> SomeCleanPass(s, t, ls, clean)
    decreases ls
  {
    if ls != [] {
      var l := ls[0];
      var s', clean' := After(s, l), StaysClean(s, t, l, clean);
      StepKeepsInv(s, l);
      if l.t == t { OwnKeepsPass(s, t, l.blur, clean); } else { OtherKeepsPass(s, t, l, clean); }
      if PcOf(s', t).Idle? {
        assert End(s', t, ls[1..]) == s';
      } else {
        PassesReturn(s', t, ls[1..], clean');
      }
    }
  }

  /**
    A delete that alone runs, at its loop test: for all raw views, and for every order in which
    stalled MwCAS calls get completed on the way, it has returned at the end if and only if one
    of its passes was clean.
  */
  lemma DeleteAloneReturns(run: seq<State>, ls: seq<Label>, k: nat, t: Tid, alone: seq<Label>)
    requires IsRun(run, ls) && k < |run| && PcOf(run[k], t).DTest? && IsAlone(run[k], t, alone)
    ensures PcOf(End(run[k], t, alone), t).Idle? <==> SomeCleanPass(run[k], t, alone, false)
  {
    RunInv(run, ls, k);
    PassesReturn(run[k], t, alone, false);
  }

  // ---- How long it takes ----

  /** The number of raw reads that matter and meet a descriptor. */
  ghost function Blurs(s: State, t: Tid, ls: seq<Label>): nat
    requires IsAlone(s, t, ls)
    decreases ls
  {
    if ls == [] || PcOf(s, t).Idle? then 0
    else (if Blurred(s, t, ls[0]) then 1 else 0) + Blurs(After(s, ls[0]), t, ls[1..])
  }

  /** Own steps to the end of the pass. */
  function ToEnd(pc: Pc): nat {
    match pc
    case DTest(_) => 6
    case DPrev(_) => 5
    case DNext(_, _) => 4
    case DCheckPrev(_, _, _) => 3
    case DCheckNext(_, _, _) => 2
    case _ => 1
  }

  /** A clean pass as far as it has read is enough to go on; no claim is made about one that is not. */
  predicate PassLike(s: State, pc: Pc, clean: bool) { Deleting(pc) && (clean && !pc.DTest? ==> Holds(s, pc)) }

  /** Own steps that are enough: this pass, another one if it is not clean, and one for each disturbance to come. */
  function Enough(pc: Pc, clean: bool, m: nat, blurs: nat): nat {
    ToEnd(pc) + (if clean || pc.DTest? then 0 else 6) + 6 * (m + blurs)
  }

  lemma OwnTakes(s: State, t: Tid, blur: bool, clean: bool, m: nat, blurs: nat)
    requires Inv(s) && Can(s, Go(t, blur)) && PassLike(s, PcOf(s, t), clean) && (Blurred(s, t, Go(t, blur)) ==> blurs > 0)
    ensures var s', clean' := After(s, Go(t, blur)), StaysClean(s, t, Go(t, blur), clean);
            var left := if Blurred(s, t, Go(t, blur)) then blurs - 1 else blurs;
            PcOf(s', t).Idle? ||
            (PassLike(s', PcOf(s', t), clean') && Enough(PcOf(s', t), clean', m, left) < Enough(PcOf(s, t), clean, m, blurs))
  {
    var pc := PcOf(s, t);
    assert PcOK(s, t, pc);
    EverCell(s, pc.cur);
    if clean && ReadPrev(pc) { HoldsAgree(s, t, pc); }
  }

  lemma OtherTakes(s: State, t: Tid, l: Label, clean: bool, blurs: nat)
    requires Inv(s) && l.Go? && l.t in Pending(s, t) && Can(s, l) && PassLike(s, PcOf(s, t), clean)
    ensures var s', clean' := After(s, l), StaysClean(s, t, l, clean);
            && PcOf(s', t) == PcOf(s, t) && PassLike(s', PcOf(s', t), clean')
            && Enough(PcOf(s', t), clean', |Pending(s', t)|, blurs) <= Enough(PcOf(s, t), clean, |Pending(s, t)|, blurs)
  {
    var pc := PcOf(s, t);
    BlurIgnored(s, l.t, l.blur);
    assert PcOK(s, t, pc);
    EverCell(s, pc.cur);
    Completion(s, t, l.t, pc.cur);
    Completed(s, t, l.t);
    assert |Pending(After(s, l), t)| == |Pending(s, t)| - 1;
  }

  lemma {:induction false} DeleteTakes(s: State, t: Tid, ls: seq<Label>, clean: bool)
    requires Inv(s) && IsAlone(s, t, ls) && PassLike(s, PcOf(s, t), clean)
    requires Own(ls, t) >= Enough(PcOf(s, t), clean, |Pending(s, t)|, Blurs(s, t, ls))
    ensures PcOf(End(s, t, ls), t).Idle?
    decreases ls
  {
    var l := ls[0];
    var s', clean' := After(s, l), StaysClean(s, t, l, clean);
    StepKeepsInv(s, l);
    if l.t == t {
      OwnTakes(s, t, l.blur, clean, |Pending(s, t)|, Blurs(s, t, ls));
    } else {
      OtherTakes(s, t, l, clean, Blurs(s, t, ls));
    }
    if PcOf(s', t).Idle? {
      assert End(s', t, ls[1..]) == s';
    } else {
      OwnPending(s, t, l);
      DeleteTakes(s', t, ls[1..], clean');
    }
  }

  /** Own steps of Delete that do not return leave the other threads alone. */
  lemma OwnPending(s: State, t: Tid, l: Label)
    requires Can(s, l) && l.Go? && Deleting(PcOf(s, t))
    ensures l.t == t && !PcOf(After(s, l), t).Idle? ==> Pending(After(s, l), t) == Pending(s, t)
  {
  }

  /**
    From any reachable state and any point inside a delete: running alone it returns within
    6 * (m + b + 2) own steps, m being the number of stalled MwCAS calls and b that of raw reads
    that meet a descriptor.
  */
  lemma DeleteInTime(run: seq<State>, ls: seq<Label>, k: nat, t: Tid, alone: seq<Label>)
    requires IsRun(run, ls) && k < |run| && Deleting(PcOf(run[k], t)) && IsAlone(run[k], t, alone)
    requires Own(alone, t) >= 6 * (|Pending(run[k], t)| + Blurs(run[k], t, alone) + 2)
    ensures PcOf(End(run[k], t, alone), t).Idle?
  {
    RunInv(run, ls, k);
    DeleteTakes(run[k], t, alone, false);
  }
}
