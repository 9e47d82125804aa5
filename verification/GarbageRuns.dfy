/**
  The garbage ring as its callers see it: what becomes of the items of the Push calls of a run, and
  what Push and Scavenge do to the ring when only their thread runs.
*/
module GarbageRuns {
  import E = Epoch
  import opened GarbageRing

  // ---- Every push counts ----

  /** Item x, pushed by t and stamped e, is accounted for. */
  ghost predicate Pushed(s: State, t: Tid, x: Item, e: nat) {
    && x in s.place && (s.place[x].Hand? ==> s.place[x].t == t)
    && x in s.ep.items && s.ep.items[x].Stamped? && s.ep.items[x].epoch == e
  }

  lemma EpochKeepsPushed(s: State, l: E.Label, t: Tid, x: Item, e: nat)
    requires E.Can(s.ep, l) && Pushed(s, t, x, e)
    ensures Pushed(s.(ep := E.After(s.ep, l)), t, x, e)
  {
  }

  /** Asking and calling back concern another item, or the same one without a new stamp. */
  lemma SlotStepKeepsPushed(s: State, i: nat, t: Tid, x: Item, e: nat)
    requires Pushed(s, t, x, e)
    ensures Pushed(Asked(s, i), t, x, e) && (Busy(s, i) ==> Pushed(Callback(s, i), t, x, e))
  {
  }

  lemma SlotPcKeepsPushed(s: State, u: Tid, k: E.Scan, t: Tid, x: Item, e: nat)
    requires Inv(s) && Can(s, Go(u, k)) && Pushed(s, t, x, e) && Locking(PcOf(s, u))
    ensures Pushed(GoStep(s, u, k), t, x, e)
  {
    assert PcOK(s, u, PcOf(s, u));
    SlotStepKeepsPushed(s, PcOf(s, u).i, t, x, e);
  }

  lemma GoKeepsPushed(s: State, u: Tid, k: E.Scan, t: Tid, x: Item, e: nat)
    requires Inv(s) && Can(s, Go(u, k)) && Pushed(s, t, x, e)
    ensures Pushed(GoStep(s, u, k), t, x, e)
  {
    var pc := PcOf(s, u);
    if Locking(pc) {
      SlotPcKeepsPushed(s, u, k, t, x, e);
    } else if pc.Take? {
      EpochKeepsPushed(s, E.Bump(k), t, x, e);
    }
  }

  lemma StepKeepsPushed(s: State, l: Label, t: Tid, x: Item, e: nat)
    requires Inv(s) && Can(s, l) && Pushed(s, t, x, e)
    ensures Pushed(After(s, l), t, x, e)
  {
    match l
    case EpochStep(m) => EpochKeepsPushed(s, m, t, x, e);
    case Push(u, y) => EpochKeepsPushed(s, E.Stamp(y), t, x, e);
    case Scavenge(_) =>
    case Go(u, k) => GoKeepsPushed(s, u, k, t, x, e);
  }

  lemma {:induction false} PushEnters(table: nat, size: nat, run: seq<State>, ls: seq<Label>, k: nat, n: nat)
    requires IsRun(table, size, run, ls) && k < n < |run| && ls[k].Push?
    ensures Pushed(run[n], ls[k].t, ls[k].x, run[k].ep.current)
    decreases n
  {
    assert StepAt(run, ls, n - 1);
    if n > k + 1 {
      PushEnters(table, size, run, ls, k, n - 1);
      RunInv(table, size, run, ls, n - 1);
      StepKeepsPushed(run[n - 1], ls[n - 1], ls[k].t, ls[k].x, run[k].ep.current);
    }
  }

  /** The item is in a slot; if nobody has the slot locked, under its stamp e. */
  ghost predicate InRing(s: State, x: Item, e: nat) {
    exists i :: 0 <= i < |s.slots| && s.slots[i].full && s.slots[i].item == x && (s.slots[i].mark.At? ==> s.slots[i].mark == At(e))
  }

  /** Once its Push has returned, an item is in the ring under the epoch of the call, or has been destroyed, once. */
  lemma PushReturns(table: nat, size: nat, run: seq<State>, ls: seq<Label>, k: nat, n: nat)
    requires IsRun(table, size, run, ls) && k < n < |run| && ls[k].Push? && PcOf(run[n], ls[k].t).Idle?
    ensures run[n].destroyed[ls[k].x] == 1 || (run[n].destroyed[ls[k].x] == 0 && InRing(run[n], ls[k].x, run[k].ep.current))
  {
    PushEnters(table, size, run, ls, k, n);
    RunInv(table, size, run, ls, n);
    var s, x := run[n], ls[k].x;
    assert PlaceOK(s, x);
    if s.place[x].InSlot? { assert SlotOK(s, s.place[x].i); }
  }

  /** Nothing gets into the bookkeeping but by a Push. */
  lemma {:induction false} OnlyPushed(table: nat, size: nat, run: seq<State>, ls: seq<Label>, n: nat, x: Item) returns (k: nat)
    requires IsRun(table, size, run, ls) && n < |run| && x in run[n].place
    ensures k < n && ls[k].Push? && ls[k].x == x
    decreases n
  {
    k := 0;
    if n > 0 {
      assert StepAt(run, ls, n - 1);
      if ls[n - 1].Push? && ls[n - 1].x == x {
        k := n - 1;
      } else {
        RunInv(table, size, run, ls, n - 1);
        PlaceFromBefore(run[n - 1], ls[n - 1], x);
        k := OnlyPushed(table, size, run, ls, n - 1, x);
      }
    }
  }

  lemma PlaceFromBefore(s: State, l: Label, x: Item)
    requires Inv(s) && Can(s, l) && x in After(s, l).place && !(l.Push? && l.x == x)
    ensures x in s.place
  {
    if l.Go? { assert PcOK(s, l.t, PcOf(s, l.t)); }
  }

  /**
    A run that ends quietly, and then Uninitialize(): the item of every Push of the run is
    destroyed exactly once over all, and nothing else is.
  */
  method UninitializeAfter(s: State, ghost table: nat, ghost size: nat, ghost run: seq<State>, ghost ls: seq<Label>)
    returns (log: multiset<Item>)
    requires IsRun(table, size, run, ls) && s == run[|ls|] && Quiescent(s)
    ensures forall k | 0 <= k < |ls| && ls[k].Push? :: log[ls[k].x] == 1
    ensures forall x | x in log :: exists k :: 0 <= k < |ls| && ls[k].Push? && ls[k].x == x
  {
    RunInv(table, size, run, ls, |ls|);
    log := Uninitialize(s);
    forall k | 0 <= k < |ls| && ls[k].Push?
      ensures log[ls[k].x] == 1
    {
      PushEnters(table, size, run, ls, k, |ls|);
    }
    forall x | x in log
      ensures exists k :: 0 <= k < |ls| && ls[k].Push? && ls[k].x == x
    {
      var k := OnlyPushed(table, size, run, ls, |ls|, x);
    }
  }

  // ---- One thread alone ----

  /** The state after n steps of t; k names the scan should one of them bump the epoch. */
  ghost function Ran(s: State, t: Tid, k: E.Scan, n: nat): State
    decreases n
  {
    if n == 0 || !Can(s, Go(t, k)) then s else Ran(After(s, Go(t, k)), t, k, n - 1)
  }

  lemma RanStep(s: State, t: Tid, k: E.Scan, n: nat)
    requires Can(s, Go(t, k)) && n > 0
    ensures Ran(s, t, k, n) == Ran(After(s, Go(t, k)), t, k, n - 1)
  {
  }

  lemma {:induction false} RanOn(s: State, t: Tid, k: E.Scan, n: nat, m: nat)
    ensures Ran(s, t, k, n + m) == Ran(Ran(s, t, k, n), t, k, m)
    decreases n
  {
    if n > 0 && Can(s, Go(t, k)) { RanOn(After(s, Go(t, k)), t, k, n - 1, m); }
  }

  lemma One(s: State, t: Tid, k: E.Scan, s': State)
    requires Can(s, Go(t, k)) && After(s, Go(t, k)) == s'
    ensures forall n | n > 0 :: Ran(s, t, k, n) == Ran(s', t, k, n - 1)
  {
  }

  /** A Push that takes a slot number: if that is a quarter of the ring, it bumps the epoch and waits for the scan. */
  lemma TakeAlone(s: State, t: Tid, k: E.Scan, x: Item, e: nat)
    requires Inv(s) && PcOf(s, t) == Take(x, e) && t in s.pcs && k !in s.ep.scans
    ensures Can(s, Go(t, k))
    ensures var i := (s.tail + |s.slots| - 1) % |s.slots|;
            After(s, Go(t, k)) ==
              if (4 * i) % |s.slots| == 0
              then s.(tail := s.tail + 1, ep := E.After(s.ep, E.Bump(k)), pcs := s.pcs[t := Wait(x, e, i, k)])
              else s.(tail := s.tail + 1, pcs := s.pcs[t := Load(x, e, i)])
  {
  }

  /** It waits exactly as long as the scan is under way. */
  lemma WaitAlone(s: State, t: Tid, k: E.Scan, x: Item, e: nat, i: nat, j: E.Scan)
    requires Inv(s) && t in s.pcs && s.pcs[t] == Wait(x, e, i, j) && k !in s.ep.scans
    ensures Can(s, Go(t, k)) && After(s, Go(t, k)) == if j in s.ep.scans then s else Put(s, t, Load(x, e, i))
  {
    assert PcOK(s, t, s.pcs[t]);
  }

  /** A slot that is locked is left to its holder. */
  lemma PushMeetsLock(s: State, t: Tid, k: E.Scan, x: Item, e: nat, i: nat)
    requires Inv(s) && t in s.pcs && s.pcs[t] == Load(x, e, i) && k !in s.ep.scans && s.slots[i].mark.Locked?
    ensures Ran(s, t, k, 1) == Put(s, t, Take(x, e))
  {
    One(s, t, k, Put(s, t, Take(x, e)));
  }

  /** A free slot is filled. */
  lemma PushFills(s: State, t: Tid, k: E.Scan, x: Item, e: nat, i: nat)
    requires Inv(s) && t in s.pcs && s.pcs[t] == Load(x, e, i) && k !in s.ep.scans && i < |s.slots| && s.slots[i].mark == At(0)
    ensures Ran(s, t, k, 4) ==
              s.(slots := s.slots[i := Slot(At(e), x, true)], place := s.place[x := InSlot(i)], pcs := s.pcs[t := Idle])
  {
    var s1 := Put(s, t, Cas(x, e, i, 0));
    var s2 := Put(Mark1(s, i, Locked(t)), t, Fill(x, e, i));
    One(s, t, k, s1);
    assert Mark1(s1, i, Locked(t)).pcs[t := Fill(x, e, i)] == s2.pcs;
    One(s1, t, k, s2);
    Filled(s, s2, t, k, x, e, i);
  }

  /** The last two steps of a Push. */
  lemma Filled(s: State, s2: State, t: Tid, k: E.Scan, x: Item, e: nat, i: nat)
    requires i < |s.slots| && k !in s2.ep.scans && s2.pcs == s.pcs[t := Fill(x, e, i)]
    requires |s2.slots| == |s.slots| && s2.slots == s.slots[i := s2.slots[i]]
    ensures Ran(s2, t, k, 2) ==
              s2.(slots := s.slots[i := Slot(At(e), x, true)], place := s2.place[x := InSlot(i)], pcs := s.pcs[t := Idle])
  {
    var s3 := Put(s2.(slots := s2.slots[i := Slot(s2.slots[i].mark, x, true)]), t, Publish(x, e, i));
    var s4 := s2.(slots := s.slots[i := Slot(At(e), x, true)], place := s2.place[x := InSlot(i)], pcs := s.pcs[t := Idle]);
    One(s2, t, k, s3);
    assert s3.pcs[t := Idle] == s4.pcs && Mark1(s3, i, At(e)).slots == s4.slots;
    One(s3, t, k, s4);
  }

  /** Slot i as thread t has locked it. */
  function LockedSlots(s: State, t: Tid, i: nat): seq<Slot>
    requires i < |s.slots|
  {
    s.slots[i := Slot(Locked(t), s.slots[i].item, s.slots[i].full)]
  }

  function LockedAt(s: State, t: Tid, i: nat, pc: Pc): State
    requires i < |s.slots|
  {
    s.(slots := LockedSlots(s, t, i), pcs := s.pcs[t := pc])
  }

  /** The load and the CAS that lock an occupied slot, for Push and for Scavenge. */
  lemma LocksOccupied(s: State, t: Tid, k: E.Scan, i: nat, p: nat, pc1: Pc, pc2: Pc)
    requires t in s.pcs && k !in s.ep.scans && i < |s.slots| && s.slots[i].mark == At(p) && p > 0
    requires || (s.pcs[t].Load? && s.pcs[t].i == i && pc1 == Cas(s.pcs[t].x, s.pcs[t].e, i, p) && pc2 == Check(s.pcs[t].x, s.pcs[t].e, i, p))
             || (s.pcs[t] == SLoad(i) && pc1 == SCas(i, p) && pc2 == SCheck(i, p))
    ensures forall n | n >= 2 :: Ran(s, t, k, n) == Ran(LockedAt(s, t, i, pc2), t, k, n - 2)
  {
    var s1, s2 := Put(s, t, pc1), LockedAt(s, t, i, pc2);
    One(s, t, k, s1);
    assert s1.pcs[t := pc2] == s2.pcs;
    One(s1, t, k, s2);
  }

  /** The two steps that ask and put back. */
  lemma PutsBack(s: State, t: Tid, k: E.Scan, i: nat, p: nat, pc2: Pc, pc3: Pc, pc4: Pc)
    requires k !in s.ep.scans && i < |s.slots| && s.slots[i].mark == At(p) && p > s.ep.safe
    requires || (pc2.Check? && pc2.i == i && pc2.p == p && pc3 == Restore(pc2.x, pc2.e, i, p) && pc4 == Take(pc2.x, pc2.e))
             || (pc2 == SCheck(i, p) && pc3 == SRestore(i, p) && pc4 == SLoad(i + 1))
    ensures forall n | n >= 2 :: Ran(LockedAt(s, t, i, pc2), t, k, n) == Ran(Put(s, t, pc4), t, k, n - 2)
  {
    var s2 := LockedAt(s, t, i, pc2);
    var s3 := LockedAt(s, t, i, pc3);
    assert s2.pcs[t := pc3] == s3.pcs;
    One(s2, t, k, s3);
    assert s3.pcs[t := pc4] == s.pcs[t := pc4] && Mark1(s3, i, At(p)).slots == s.slots;
    One(s3, t, k, Put(s, t, pc4));
  }

  /** A slot whose epoch is not safe is put back as it was. */
  lemma PushMeetsUnsafe(s: State, t: Tid, k: E.Scan, x: Item, e: nat, i: nat, p: nat)
    requires Inv(s) && t in s.pcs && s.pcs[t] == Load(x, e, i) && k !in s.ep.scans
    requires i < |s.slots| && s.slots[i].mark == At(p) && p > s.ep.safe
    ensures Ran(s, t, k, 4) == Put(s, t, Take(x, e))
  {
    LocksOccupied(s, t, k, i, p, Cas(x, e, i, p), Check(x, e, i, p));
    PutsBack(s, t, k, i, p, Check(x, e, i, p), Restore(x, e, i, p), Take(x, e));
  }

  // ---- Reclaiming a slot ----

  /** Slot i is occupied and its epoch is safe. */
  ghost predicate Ripe(s: State, i: nat) {
    i < |s.slots| && s.slots[i].mark.At? && 0 < s.slots[i].mark.epoch <= s.ep.safe
  }

  lemma RipeItem(s: State, i: nat)
    requires Inv(s) && Ripe(s, i)
    ensures E.Can(s.ep, E.Approve(s.slots[i].item))
    ensures E.Can(E.After(s.ep, E.Approve(s.slots[i].item)), E.Destroy(s.slots[i].item))
  {
    assert SlotOK(s, i);
  }

  /** The occupant of a ripe slot has been found safe and destroyed. */
  ghost function Reclaimed(s: State, i: nat): State
    requires Inv(s) && Ripe(s, i)
  {
    var y := s.slots[i].item;
    RipeItem(s, i);
    s.(ep := E.After(E.After(s.ep, E.Approve(y)), E.Destroy(y)), destroyed := s.destroyed + multiset{y}, place := s.place[y := Gone])
  }

  /** Ripe slot i, locked by t, whose occupant has been found safe. */
  ghost function Approved(s: State, t: Tid, i: nat, pc: Pc): State
    requires Inv(s) && Ripe(s, i)
  {
    RipeItem(s, i);
    s.(slots := LockedSlots(s, t, i), ep := E.After(s.ep, E.Approve(s.slots[i].item)), pcs := s.pcs[t := pc])
  }

  lemma Asks(s: State, t: Tid, k: E.Scan, i: nat, pc2: Pc, pc3: Pc)
    requires Inv(s) && Ripe(s, i) && k !in s.ep.scans
    requires || (pc2.Check? && pc2.i == i && pc2.p == s.slots[i].mark.epoch && pc3 == Destroy(pc2.x, pc2.e, i))
             || (pc2 == SCheck(i, s.slots[i].mark.epoch) && pc3 == SDestroy(i))
    ensures forall n | n > 0 :: Ran(LockedAt(s, t, i, pc2), t, k, n) == Ran(Approved(s, t, i, pc3), t, k, n - 1)
  {
    RipeItem(s, i);
    var s2 := LockedAt(s, t, i, pc2);
    assert s2.pcs[t := pc3] == s.pcs[t := pc3] && Asked(s2, i) == s2.(ep := E.After(s.ep, E.Approve(s.slots[i].item)));
    One(s2, t, k, Approved(s, t, i, pc3));
  }

  /** The two steps that ask and call back, for Push and for Scavenge. */
  lemma AskAndDestroy(s: State, t: Tid, k: E.Scan, i: nat, pc2: Pc, pc3: Pc, pc4: Pc)
    requires Inv(s) && Ripe(s, i) && k !in s.ep.scans
    requires || (pc2.Check? && pc2.i == i && pc2.p == s.slots[i].mark.epoch && pc3 == Destroy(pc2.x, pc2.e, i) && pc4 == Fill(pc2.x, pc2.e, i))
             || (pc2 == SCheck(i, s.slots[i].mark.epoch) && pc3 == SDestroy(i) && pc4 == SReset(i))
    ensures forall n | n >= 2 :: Ran(LockedAt(s, t, i, pc2), t, k, n)
                                 == Ran(Reclaimed(s, i).(slots := LockedSlots(s, t, i), pcs := s.pcs[t := pc4]), t, k, n - 2)
  {
    Asks(s, t, k, i, pc2, pc3);
    CallsBack(s, t, k, i, pc3, pc4);
  }

  lemma CallsBack(s: State, t: Tid, k: E.Scan, i: nat, pc3: Pc, pc4: Pc)
    requires Inv(s) && Ripe(s, i) && k !in s.ep.scans
    requires (pc3.Destroy? && pc3.i == i && pc4 == Fill(pc3.x, pc3.e, i)) || (pc3 == SDestroy(i) && pc4 == SReset(i))
    ensures forall n | n > 0 :: Ran(Approved(s, t, i, pc3), t, k, n)
                                == Ran(Reclaimed(s, i).(slots := LockedSlots(s, t, i), pcs := s.pcs[t := pc4]), t, k, n - 1)
  {
    CallbackReclaims(s, t, i, pc3);
    var s3, s4 := Approved(s, t, i, pc3), Reclaimed(s, i).(slots := LockedSlots(s, t, i), pcs := s.pcs[t := pc4]);
    assert s3.pcs[t := pc4] == s4.pcs;
    One(s3, t, k, s4);
  }

  lemma CallbackReclaims(s: State, t: Tid, i: nat, pc: Pc)
    requires Inv(s) && Ripe(s, i)
    ensures Busy(Approved(s, t, i, pc), i)
    ensures Callback(Approved(s, t, i, pc), i) == Reclaimed(s, i).(slots := LockedSlots(s, t, i), pcs := s.pcs[t := pc])
  {
    RipeItem(s, i);
  }

  /** A ripe slot is emptied and filled again. */
  lemma PushReplaces(s: State, t: Tid, k: E.Scan, x: Item, e: nat, i: nat)
    requires Inv(s) && t in s.pcs && s.pcs[t] == Load(x, e, i) && k !in s.ep.scans && Ripe(s, i)
    ensures Ran(s, t, k, 6) ==
              Reclaimed(s, i).(slots := s.slots[i := Slot(At(e), x, true)], place := Reclaimed(s, i).place[x := InSlot(i)], pcs := s.pcs[t := Idle])
  {
    var p := s.slots[i].mark.epoch;
    var slots := LockedSlots(s, t, i);
    LocksOccupied(s, t, k, i, p, Cas(x, e, i, p), Check(x, e, i, p));
    AskAndDestroy(s, t, k, i, Check(x, e, i, p), Destroy(x, e, i), Fill(x, e, i));
    Filled(s, Reclaimed(s, i).(slots := slots, pcs := s.pcs[t := Fill(x, e, i)]), t, k, x, e, i);
  }

  /**
    One probe of a Push that runs alone: if the slot is free or its epoch is safe, the occupant
    is destroyed and the call returns with its item there; otherwise the ring is as before and
    the next slot is tried.
  */
  lemma PushProbe(s: State, t: Tid, k: E.Scan, x: Item, e: nat, i: nat) returns (n: nat)
    requires Inv(s) && t in s.pcs && s.pcs[t] == Load(x, e, i) && k !in s.ep.scans
    ensures n <= 6 && i < |s.slots|
    ensures var s', usable := Ran(s, t, k, n), s.slots[i].mark.At? && s.slots[i].mark.epoch <= s.ep.safe;
            && PcOf(s', t) == (if usable then Idle else Take(x, e))
            && s'.slots == (if usable then s.slots[i := Slot(At(e), x, true)] else s.slots)
            && s'.destroyed == s.destroyed + (if Ripe(s, i) then multiset{s.slots[i].item} else multiset{})
            && s'.tail == s.tail && s'.ep.safe == s.ep.safe
  {
    assert PcOK(s, t, s.pcs[t]);
    var m := s.slots[i].mark;
    if m.Locked? {
      PushMeetsLock(s, t, k, x, e, i);
      n := 1;
    } else if m.epoch == 0 {
      PushFills(s, t, k, x, e, i);
      n := 4;
    } else if m.epoch > s.ep.safe {
      PushMeetsUnsafe(s, t, k, x, e, i, m.epoch);
      n := 4;
    } else {
      PushReplaces(s, t, k, x, e, i);
      RipeItem(s, i);
      n := 6;
    }
  }

  // ---- Scavenge ----

  /** A slot that is free, or locked by somebody else, is left as it is. */
  lemma SweepSkips(s: State, t: Tid, k: E.Scan, i: nat)
    requires Inv(s) && t in s.pcs && s.pcs[t] == SLoad(i) && i < |s.slots| && k !in s.ep.scans
    requires s.slots[i].mark.Locked? || s.slots[i].mark == At(0)
    ensures Ran(s, t, k, 1) == Put(s, t, SLoad(i + 1))
  {
    One(s, t, k, Put(s, t, SLoad(i + 1)));
  }

  /** So is one whose epoch is not safe. */
  lemma SweepMeetsUnsafe(s: State, t: Tid, k: E.Scan, i: nat, p: nat)
    requires Inv(s) && t in s.pcs && s.pcs[t] == SLoad(i) && i < |s.slots| && k !in s.ep.scans
    requires s.slots[i].mark == At(p) && p > s.ep.safe
    ensures Ran(s, t, k, 4) == Put(s, t, SLoad(i + 1))
  {
    LocksOccupied(s, t, k, i, p, SCas(i, p), SCheck(i, p));
    PutsBack(s, t, k, i, p, SCheck(i, p), SRestore(i, p), SLoad(i + 1));
  }

  /** A ripe slot is emptied. */
  lemma SweepEmpties(s: State, t: Tid, k: E.Scan, i: nat)
    requires Inv(s) && t in s.pcs && s.pcs[t] == SLoad(i) && k !in s.ep.scans && Ripe(s, i)
    ensures Ran(s, t, k, 6) ==
              Reclaimed(s, i).(slots := s.slots[i := Slot(At(0), s.slots[i].item, false)], pcs := s.pcs[t := SLoad(i + 1)])
  {
    var p := s.slots[i].mark.epoch;
    LocksOccupied(s, t, k, i, p, SCas(i, p), SCheck(i, p));
    AskAndDestroy(s, t, k, i, SCheck(i, p), SDestroy(i), SReset(i));
    Freed(s, Reclaimed(s, i).(slots := LockedSlots(s, t, i), pcs := s.pcs[t := SReset(i)]), t, k, i);
  }

  lemma Freed(s: State, s4: State, t: Tid, k: E.Scan, i: nat)
    requires i < |s.slots| && k !in s4.ep.scans && s4.pcs == s.pcs[t := SReset(i)]
    requires |s4.slots| == |s.slots| && s4.slots == s.slots[i := s4.slots[i]] && s4.slots[i].item == s.slots[i].item
    ensures Ran(s4, t, k, 2) ==
              s4.(slots := s.slots[i := Slot(At(0), s.slots[i].item, false)], pcs := s.pcs[t := SLoad(i + 1)])
  {
    var s5 := Put(s4.(slots := s4.slots[i := s4.slots[i].(full := false)]), t, SFree(i));
    var s6 := s4.(slots := s.slots[i := Slot(At(0), s.slots[i].item, false)], pcs := s.pcs[t := SLoad(i + 1)]);
    One(s4, t, k, s5);
    assert s5.pcs[t := SLoad(i + 1)] == s6.pcs && Mark1(s5, i, At(0)).slots == s6.slots;
    One(s5, t, k, s6);
  }

  lemma {:induction false} RanInv(s: State, t: Tid, k: E.Scan, n: nat)
    requires Inv(s)
    ensures Inv(Ran(s, t, k, n))
    decreases n
  {
    if n > 0 && Can(s, Go(t, k)) {
      StepKeepsInv(s, Go(t, k));
      RanInv(After(s, Go(t, k)), t, k, n - 1);
    }
  }

  /** What a scavenger leaves of a slot. */
  function Swept(slot: Slot, safe: nat): Slot {
    if slot.mark.At? && 0 < slot.mark.epoch <= safe then Slot(At(0), slot.item, false) else slot
  }

  /** The items it destroys, from slot i on. */
  function SweptItems(slots: seq<Slot>, safe: nat, i: nat): multiset<Item>
    decreases |slots| - i
  {
    if i >= |slots| then multiset{}
    else (if Swept(slots[i], safe) != slots[i] then multiset{slots[i].item} else multiset{}) + SweptItems(slots, safe, i + 1)
  }

  /** Slot i has been swept, and nothing else happened to the ring. */
  ghost predicate SweptAt(s: State, s': State, t: Tid, i: nat) {
    && i < |s.slots| && s'.slots == s.slots[i := Swept(s.slots[i], s.ep.safe)] && s'.pcs == s.pcs[t := SLoad(i + 1)]
    && s'.tail == s.tail && s'.ep.safe == s.ep.safe && s'.ep.scans == s.ep.scans
    && s'.destroyed == s.destroyed + if Ripe(s, i) then multiset{s.slots[i].item} else multiset{}
  }

  lemma SkippedIsSwept(s: State, t: Tid, i: nat)
    requires i < |s.slots| && !Ripe(s, i)
    ensures SweptAt(s, Put(s, t, SLoad(i + 1)), t, i)
  {
  }

  lemma EmptiedIsSwept(s: State, t: Tid, i: nat)
    requires Inv(s) && Ripe(s, i)
    ensures SweptAt(s, Reclaimed(s, i).(slots := s.slots[i := Slot(At(0), s.slots[i].item, false)], pcs := s.pcs[t := SLoad(i + 1)]), t, i)
  {
    RipeItem(s, i);
  }

  /** One slot of the sweep. */
  lemma SweepOne(s: State, t: Tid, k: E.Scan, i: nat) returns (n: nat)
    requires Inv(s) && t in s.pcs && s.pcs[t] == SLoad(i) && i < |s.slots| && k !in s.ep.scans
    ensures 0 < n <= 6 && SweptAt(s, Ran(s, t, k, n), t, i)
  {
    var m := s.slots[i].mark;
    if m.At? && 0 < m.epoch <= s.ep.safe {
      SweepEmpties(s, t, k, i);
      EmptiedIsSwept(s, t, i);
      n := 6;
    } else {
      SkippedIsSwept(s, t, i);
      if m.Locked? || m.epoch == 0 {
        SweepSkips(s, t, k, i);
        n := 1;
      } else {
        SweepMeetsUnsafe(s, t, k, i, m.epoch);
        n := 4;
      }
    }
  }

  lemma SweptChanges(slots: seq<Slot>, safe: nat, i: nat)
    requires i < |slots| && (slots[i].mark.At? && slots[i].mark.epoch > 0 ==> slots[i].full)
    ensures Swept(slots[i], safe) != slots[i] <==> slots[i].mark.At? && 0 < slots[i].mark.epoch <= safe
  {
  }

  lemma {:induction false} SweptFrom(a: seq<Slot>, b: seq<Slot>, safe: nat, i: nat)
    requires |a| == |b| && forall j | i <= j < |a| :: a[j] == b[j]
    ensures SweptItems(a, safe, i) == SweptItems(b, safe, i)
    decreases |a| - i
  {
    if i < |a| { SweptFrom(a, b, safe, i + 1); }
  }

  /** All slots from i on have been swept. */
  ghost predicate SweptAll(s: State, s': State, t: Tid, i: nat) {
    && PcOf(s', t).Idle? && |s'.slots| == |s.slots| && s'.tail == s.tail && s'.ep.safe == s.ep.safe
    && (forall j | 0 <= j < |s.slots| :: s'.slots[j] == if j < i then s.slots[j] else Swept(s.slots[j], s.ep.safe))
    && s'.destroyed == s.destroyed + SweptItems(s.slots, s.ep.safe, i)
  }

  lemma SweepJoins(s: State, s1: State, s': State, t: Tid, i: nat)
    requires SweptAt(s, s1, t, i) && SweptAll(s1, s', t, i + 1) && SlotOK(s, i)
    ensures SweptAll(s, s', t, i)
  {
    SweptFrom(s1.slots, s.slots, s.ep.safe, i + 1);
    SweptChanges(s.slots, s.ep.safe, i);
  }

  lemma SweepEnds(s: State, t: Tid, k: E.Scan)
    requires t in s.pcs && s.pcs[t] == SLoad(|s.slots|) && k !in s.ep.scans
    ensures SweptAll(s, Ran(s, t, k, 1), t, |s.slots|)
  {
    One(s, t, k, Put(s, t, Idle));
  }

  lemma {:induction false} SweepFrom(s: State, t: Tid, k: E.Scan, i: nat) returns (n: nat)
    requires Inv(s) && t in s.pcs && s.pcs[t] == SLoad(i) && i <= |s.slots| && k !in s.ep.scans
    ensures n <= 6 * (|s.slots| - i) + 1 && SweptAll(s, Ran(s, t, k, n), t, i)
    decreases |s.slots| - i
  {
    if i == |s.slots| {
      SweepEnds(s, t, k);
      n := 1;
    } else {
      var a := SweepOne(s, t, k, i);
      RanInv(s, t, k, a);
      var b := SweepFrom(Ran(s, t, k, a), t, k, i + 1);
      n := a + b;
      SweepNext(s, t, k, i, a, b);
    }
  }

  lemma SweepNext(s: State, t: Tid, k: E.Scan, i: nat, a: nat, b: nat)
    requires Inv(s) && i < |s.slots| && SweptAt(s, Ran(s, t, k, a), t, i)
    requires SweptAll(Ran(s, t, k, a), Ran(Ran(s, t, k, a), t, k, b), t, i + 1)
    ensures SweptAll(s, Ran(s, t, k, a + b), t, i)
  {
    RanOn(s, t, k, a, b);
    assert SlotOK(s, i);
    SweepJoins(s, Ran(s, t, k, a), Ran(s, t, k, a + b), t, i);
  }

  /**
    A Scavenge that runs alone ends after at most 6 * |slots| + 1 steps. It has emptied exactly
    the slots that were occupied under a safe epoch, and destroyed their occupants; slots that
    are free, locked by stalled threads, or not safe are as before.
  */
  lemma ScavengeAlone(table: nat, size: nat, run: seq<State>, ls: seq<Label>, m: nat, t: Tid, k: E.Scan) returns (n: nat)
    requires IsRun(table, size, run, ls) && m < |run| && Can(run[m], Scavenge(t)) && k !in run[m].ep.scans
    ensures n <= 6 * |run[m].slots| + 1
    ensures var s, s' := run[m], Ran(After(run[m], Scavenge(t)), t, k, n);
            && PcOf(s', t).Idle? && |s'.slots| == |s.slots| && s'.tail == s.tail && s'.ep.safe == s.ep.safe
            && (forall j | 0 <= j < |s.slots| ::
                  s'.slots[j] == if s.slots[j].mark.At? && 0 < s.slots[j].mark.epoch <= s.ep.safe
                                 then Slot(At(0), s.slots[j].item, false) else s.slots[j])
            && s'.destroyed == s.destroyed + SweptItems(s.slots, s.ep.safe, 0)
  {
    RunInv(table, size, run, ls, m);
    StepKeepsInv(run[m], Scavenge(t));
    n := SweepFrom(Put(run[m], t, SLoad(0)), t, k, 0);
  }
}
