/**
  The concurrent garbage ring (GarbageList): threads push removed items and scavenge, slots
  are locked by storing an all-ones epoch, and an item is destroyed when its slot is reused.
  The ring runs on top of the epoch machine, whose own steps interleave freely.
*/
module GarbageRing {
  import E = Epoch

  type Tid = nat
  type Item = E.Item

  /**
    removal_epoch of a slot: Locked is the all-ones value, At(0) a free slot. Which thread
    stored the all-ones value is bookkeeping; no step looks at it.
  */
  datatype Mark = Locked(holder: Tid) | At(epoch: nat)

  datatype Slot = Slot(mark: Mark, item: Item, full: bool)   // full: removed_item is not null

  /** Program counters; x is the item being pushed, e its epoch, i the slot, p the prior epoch. */
  datatype Pc =
    | Idle
    | Take(x: Item, e: nat)                          // fetch_add of tail_
    | Wait(x: Item, e: nat, i: nat, k: E.Scan)       // inside BumpCurrentEpoch
    | Load(x: Item, e: nat, i: nat)
    | Cas(x: Item, e: nat, i: nat, p: nat)
    | Check(x: Item, e: nat, i: nat, p: nat)         // slot locked from here on
    | Restore(x: Item, e: nat, i: nat, p: nat)
    | Destroy(x: Item, e: nat, i: nat)
    | Fill(x: Item, e: nat, i: nat)
    | Publish(x: Item, e: nat, i: nat)
    | SLoad(i: nat)                                  // Scavenge
    | SCas(i: nat, p: nat)
    | SCheck(i: nat, p: nat)                         // slot locked from here on
    | SRestore(i: nat, p: nat)
    | SDestroy(i: nat)
    | SReset(i: nat)
    | SFree(i: nat)

  /** Where a pushed item is. */
  datatype Place = Hand(t: Tid) | InSlot(i: nat) | Gone

  datatype State = State(
    ep: E.State, tail: nat, slots: seq<Slot>, pcs: map<Tid, Pc>,
    place: map<Item, Place>,          // bookkeeping: every item pushed so far
    destroyed: multiset<Item>)        // invocations of the destroy callback

  function PcOf(s: State, t: Tid): Pc { if t in s.pcs then s.pcs[t] else Idle }

  function Put(s: State, t: Tid, pc: Pc): State { s.(pcs := s.pcs[t := pc]) }

  datatype Label =
    | EpochStep(l: E.Label)           // protect, unprotect, scan, unlink
    | Push(t: Tid, x: Item)
    | Scavenge(t: Tid)
    | Go(t: Tid, k: E.Scan)           // k names the scan if this step bumps the epoch

  /** (tail - 1) & (item_count - 1), the ring size being a power of two. */
  function SlotOf(s: State): nat
    requires |s.slots| > 0
  {
    (s.tail + |s.slots| - 1) % |s.slots|
  }

  /** ((slot << 2) & (item_count - 1)) == 0 */
  predicate Bumps(s: State, i: nat)
    requires |s.slots| > 0
  {
    (4 * i) % |s.slots| == 0
  }

  ghost predicate Can(s: State, l: Label) {
    match l
    case EpochStep(e) => E.Can(s.ep, e) && !e.Stamp? && !e.Approve? && !e.Destroy?
    case Push(t, x) => PcOf(s, t).Idle? && E.Can(s.ep, E.Stamp(x)) && x !in s.place
    case Scavenge(t) => PcOf(s, t).Idle?
    case Go(t, k) => !PcOf(s, t).Idle? && k !in s.ep.scans && WF(s, PcOf(s, t))
  }

  predicate WF(s: State, pc: Pc) {
    match pc
    case Idle => true
    case Take(_, _) => |s.slots| > 0
    case SLoad(i) => i <= |s.slots|
    case Destroy(_, _, i) => Busy(s, i)
    case SDestroy(i) => Busy(s, i)
    case _ => pc.i < |s.slots|
  }

  predicate Busy(s: State, i: nat) {
    i < |s.slots| && s.slots[i].item in s.ep.items && E.Can(s.ep, E.Destroy(s.slots[i].item))
  }

  predicate Checkable(s: State, i: nat) {
    i < |s.slots| && E.Can(s.ep, E.Approve(s.slots[i].item))
  }

  function Mark1(s: State, i: nat, m: Mark): State
    requires i < |s.slots|
  {
    s.(slots := s.slots[i := s.slots[i].(mark := m)])
  }

  /** The destroy callback is invoked on the item in slot i. */
  function Callback(s: State, i: nat): State
    requires Busy(s, i)
  {
    var y := s.slots[i].item;
    s.(ep := E.After(s.ep, E.Destroy(y)), destroyed := s.destroyed + multiset{y}, place := s.place[y := Gone])
  }

  /** IsSafeToReclaim(p) for the item in slot i; a true answer is recorded with the item. */
  function Asked(s: State, i: nat): State {
    if Checkable(s, i) then s.(ep := E.After(s.ep, E.Approve(s.slots[i].item))) else s
  }

  /** A slot number is taken; every quarter of the ring the epoch is bumped. */
  function TakeStep(s: State, t: Tid, k: E.Scan, x: Item, e: nat, i: nat, bump: bool): State
    requires k !in s.ep.scans
  {
    if bump then Advance(s.(ep := E.After(s.ep, E.Bump(k))), t, Wait(x, e, i, k)) else Advance(s, t, Load(x, e, i))
  }

  function Advance(s: State, t: Tid, pc: Pc): State { Put(s, t, pc).(tail := s.tail + 1) }

  /** Push, up to the CAS that locks a slot. */
  function SeekStep(s: State, t: Tid, pc: Pc): State
    requires (pc.Wait? || pc.Load? || pc.Cas?) && pc.i < |s.slots|
  {
    match pc
    case Wait(x, e, i, j) => if j in s.ep.scans then s else Put(s, t, Load(x, e, i))
    case Load(x, e, i) =>
      if s.slots[i].mark.Locked? then Put(s, t, Take(x, e)) else Put(s, t, Cas(x, e, i, s.slots[i].mark.epoch))
    case Cas(x, e, i, p) =>
      if s.slots[i].mark != At(p) then Put(s, t, Take(x, e))
      else if p == 0 then Put(Mark1(s, i, Locked(t)), t, Fill(x, e, i))
      else Put(Mark1(s, i, Locked(t)), t, Check(x, e, i, p))
  }

  /** The question to the epoch manager, asked by both operations. */
  function CheckStep(s: State, t: Tid, p: nat, i: nat, yes: Pc, no: Pc): State {
    if E.IsSafeToReclaim(s.ep, p) then Put(Asked(s, i), t, yes) else Put(s, t, no)
  }

  /** Push, once the slot is locked. */
  function FillStep(s: State, t: Tid, pc: Pc): State
    requires (pc.Restore? || pc.Destroy? || pc.Fill? || pc.Publish?) && pc.i < |s.slots| && WF(s, pc)
  {
    match pc
    case Restore(x, e, i, p) => Put(Mark1(s, i, At(p)), t, Take(x, e))
    case Destroy(x, e, i) => Put(Callback(s, i), t, Fill(x, e, i))
    case Fill(x, e, i) => Put(s.(slots := s.slots[i := Slot(s.slots[i].mark, x, true)]), t, Publish(x, e, i))
    case Publish(x, e, i) => Put(Mark1(s, i, At(e)).(place := s.place[x := InSlot(i)]), t, Idle)
  }

  /** Scavenge, up to the CAS that locks a slot. */
  function ScanStep(s: State, t: Tid, pc: Pc): State
    requires (pc.SLoad? || pc.SCas?) && WF(s, pc)
  {
    match pc
    case SLoad(i) => Put(s, t, ScanPc(s, i))
    case SCas(i, p) =>
      if s.slots[i].mark != At(p) then Put(s, t, SLoad(i + 1)) else Put(Mark1(s, i, Locked(t)), t, SCheck(i, p))
  }

  function ScanPc(s: State, i: nat): Pc
    requires i <= |s.slots|
  {
    if i == |s.slots| then Idle
    else if s.slots[i].mark.Locked? || s.slots[i].mark.epoch == 0 then SLoad(i + 1)
    else SCas(i, s.slots[i].mark.epoch)
  }

  /** Scavenge, once the slot is locked. */
  function FreeStep(s: State, t: Tid, pc: Pc): State
    requires (pc.SRestore? || pc.SDestroy? || pc.SReset? || pc.SFree?) && pc.i < |s.slots| && WF(s, pc)
  {
    match pc
    case SRestore(i, p) => Put(Mark1(s, i, At(p)), t, SLoad(i + 1))
    case SDestroy(i) => Put(Callback(s, i), t, SReset(i))
    case SReset(i) => Put(s.(slots := s.slots[i := s.slots[i].(full := false)]), t, SFree(i))
    case SFree(i) => Put(Mark1(s, i, At(0)), t, SLoad(i + 1))
  }

  function GoStep(s: State, t: Tid, k: E.Scan): State
    requires k !in s.ep.scans && WF(s, PcOf(s, t))
  {
    var pc := PcOf(s, t);
    if pc.Idle? then s
    else if pc.Take? then TakeStep(s, t, k, pc.x, pc.e, SlotOf(s), Bumps(s, SlotOf(s)))
    else if pc.Wait? || pc.Load? || pc.Cas? then SeekStep(s, t, pc)
    else if pc.Check? then CheckStep(s, t, pc.p, pc.i, Destroy(pc.x, pc.e, pc.i), Restore(pc.x, pc.e, pc.i, pc.p))
    else if pc.SLoad? || pc.SCas? then ScanStep(s, t, pc)
    else if pc.SCheck? then CheckStep(s, t, pc.p, pc.i, SDestroy(pc.i), SRestore(pc.i, pc.p))
    else if Carrying(pc) then FillStep(s, t, pc)
    else FreeStep(s, t, pc)
  }

  ghost function After(s: State, l: Label): State
    requires Can(s, l)
  {
    match l
    case EpochStep(e) => s.(ep := E.After(s.ep, e))
    case Push(t, x) =>
      Put(s.(ep := E.After(s.ep, E.Stamp(x)), place := s.place[x := Hand(t)]), t, Take(x, s.ep.current))
    case Scavenge(t) => Put(s, t, SLoad(0))
    case Go(t, k) => GoStep(s, t, k)
  }

  ghost predicate Init(s: State, table: nat, n: nat) {
    && E.Init(s.ep, table) && |s.slots| == n && n > 0 && s.tail == 0
    && (forall i | 0 <= i < n :: s.slots[i].mark == At(0) && !s.slots[i].full)
    && s.pcs == map[] && s.place == map[] && s.destroyed == multiset{}
  }

  // ---- Invariant ----

  /** The thread has locked slot pc.i. */
  predicate Locking(pc: Pc) {
    pc.Check? || pc.Restore? || pc.Destroy? || pc.Fill? || pc.Publish? ||
    pc.SCheck? || pc.SRestore? || pc.SDestroy? || pc.SReset? || pc.SFree?
  }

  /** The thread is pushing item pc.x, stamped pc.e. */
  predicate Carrying(pc: Pc) {
    pc.Take? || pc.Wait? || pc.Load? || pc.Cas? || pc.Check? || pc.Restore? || pc.Destroy? || pc.Fill? || pc.Publish?
  }

  ghost predicate StampedAt(s: State, x: Item, e: nat) {
    x in s.ep.items && s.ep.items[x].Stamped? && s.ep.items[x].epoch == e && e > 0
  }

  /** Slot i holds an item that is accounted for and not destroyed. */
  ghost predicate Holds(s: State, i: nat, e: nat) {
    && i < |s.slots| && s.slots[i].full && s.slots[i].item in s.place && s.place[s.slots[i].item] == InSlot(i)
    && StampedAt(s, s.slots[i].item, e) && !s.ep.items[s.slots[i].item].destroyed
  }

  ghost predicate InHand(s: State, t: Tid, x: Item, e: nat) {
    x in s.place && s.place[x] == Hand(t) && StampedAt(s, x, e) && !s.ep.items[x].destroyed
  }

  ghost predicate PcOK(s: State, t: Tid, pc: Pc) {
    && WF(s, pc)
    && (Carrying(pc) ==> InHand(s, t, pc.x, pc.e))
    && (Locking(pc) ==> pc.i < |s.slots| && s.slots[pc.i].mark == Locked(t))
    && Content(s, pc)
  }

  /** What is in the slot at each point. */
  ghost predicate Content(s: State, pc: Pc) {
    match pc
    case Check(_, _, i, p) => Holds(s, i, p)
    case Restore(_, _, i, p) => Holds(s, i, p)
    case SCheck(i, p) => Holds(s, i, p)
    case SRestore(i, p) => Holds(s, i, p)
    case SCas(i, p) => p > 0
    case Destroy(_, _, i) => Doomed(s, i)
    case SDestroy(i) => Doomed(s, i)
    case Publish(x, _, i) => i < |s.slots| && s.slots[i].full && s.slots[i].item == x
    case SFree(i) => i < |s.slots| && !s.slots[i].full
    case _ => true
  }

  /** The item of slot i was reported safe and is about to be destroyed. */
  ghost predicate Doomed(s: State, i: nat) {
    i < |s.slots| && s.slots[i].item in s.ep.items && s.ep.items[s.slots[i].item].Stamped?
    && Holds(s, i, s.ep.items[s.slots[i].item].epoch) && s.ep.items[s.slots[i].item].approved
  }

  ghost predicate SlotOK(s: State, i: nat)
    requires i < |s.slots|
  {
    match s.slots[i].mark
    case Locked(t) => t in s.pcs && Locking(s.pcs[t]) && s.pcs[t].i == i
    case At(e) => if e == 0 then !s.slots[i].full else Holds(s, i, e)
  }

  ghost predicate PlaceOK(s: State, x: Item)
    requires x in s.place
  {
    && s.destroyed[x] == (if s.place[x].Gone? then 1 else 0)
    && match s.place[x]
       case Hand(t) => t in s.pcs && Carrying(s.pcs[t]) && s.pcs[t].x == x
       case InSlot(i) => i < |s.slots| && s.slots[i].item == x && s.slots[i].full && Kept(s, i)
       case Gone => true
  }

  /** Slot i is unlocked, or locked by a thread that has not destroyed its item. */
  predicate Kept(s: State, i: nat)
    requires i < |s.slots|
  {
    match s.slots[i].mark
    case Locked(t) => t in s.pcs && KeepsItem(s.pcs[t])
    case At(e) => e > 0
  }

  predicate KeepsItem(pc: Pc) {
    pc.Check? || pc.Restore? || pc.Destroy? || pc.SCheck? || pc.SRestore? || pc.SDestroy?
  }

  ghost predicate Inv(s: State) {
    && E.Inv(s.ep) && |s.slots| > 0
    && (forall t | t in s.pcs :: PcOK(s, t, s.pcs[t]))
    && (forall i | 0 <= i < |s.slots| :: SlotOK(s, i))
    && (forall x | x in s.place :: PlaceOK(s, x))
    && (forall x | x in s.destroyed :: x in s.place)
  }

  lemma InitInv(s: State, table: nat, n: nat)
    requires Init(s, table, n)
    ensures Inv(s)
  {
    E.InitInv(s.ep, table);
  }

  // ---- What one thread may change ----

  ghost predicate ItemEvolves(r: E.Removed, r': E.Removed) {
    r.Stamped? ==> r'.Stamped? && r'.epoch == r.epoch && (r.approved ==> r'.approved)
  }

  ghost predicate SameItem(s: State, s': State, x: Item) {
    x in s.place && x in s'.place && s'.place[x] == s.place[x] && s'.destroyed[x] == s.destroyed[x]
    && (x in s.ep.items && s.ep.items[x].Stamped? && x in s'.ep.items && s'.ep.items[x].Stamped? ==>
          s'.ep.items[x].destroyed == s.ep.items[x].destroyed)
  }

  /** The item is in the hands of t, or in a slot that t has locked. */
  predicate Mine(s: State, t: Tid, x: Item)
    requires x in s.place
  {
    match s.place[x]
    case Hand(u) => u == t
    case InSlot(i) => i < |s.slots| && s.slots[i].mark == Locked(t)
    case Gone => false
  }

  ghost predicate Evolves(s: State, s': State, t: Tid) {
    && |s'.slots| == |s.slots|
    && (forall u | u in s.pcs && u != t :: u in s'.pcs && s'.pcs[u] == s.pcs[u])
    && (forall u | u in s'.pcs && u != t :: u in s.pcs)
    && (forall j | 0 <= j < |s.slots| && s.slots[j].mark.Locked? && s.slots[j].mark.holder != t :: s'.slots[j] == s.slots[j])
    && (forall x | x in s.ep.items :: x in s'.ep.items && ItemEvolves(s.ep.items[x], s'.ep.items[x]))
    && (forall x | x in s.place && !Mine(s, t, x) :: SameItem(s, s', x))
  }

  /** Another thread's assertion is not disturbed. */
  lemma OtherPcKept(s: State, s': State, t: Tid, u: Tid)
    requires Evolves(s, s', t) && u in s.pcs && u != t && PcOK(s, u, s.pcs[u])
    ensures PcOK(s', u, s.pcs[u])
  {
    var pc := s.pcs[u];
    if Carrying(pc) {
      assert SameItem(s, s', pc.x);
    }
    if KeepsItem(pc) {
      assert SameItem(s, s', s.slots[pc.i].item);
    }
  }

  /** A slot nobody touched, not locked by t, stays in order. */
  lemma OtherSlotKept(s: State, s': State, t: Tid, i: nat)
    requires Inv(s) && Evolves(s, s', t) && i < |s.slots|
    requires s'.slots[i] == s.slots[i] && s.slots[i].mark != Locked(t)
    ensures SlotOK(s', i)
  {
    assert SlotOK(s, i);
    if s.slots[i].mark.At? && s.slots[i].mark.epoch > 0 {
      assert SameItem(s, s', s.slots[i].item);
    }
  }

  /** An item t has nothing to do with stays where it is. */
  lemma OtherPlaceKept(s: State, s': State, t: Tid, x: Item)
    requires Inv(s) && Evolves(s, s', t) && x in s.place && !Mine(s, t, x)
    requires s.place[x].InSlot? ==> s.place[x].i < |s.slots| && s'.slots[s.place[x].i] == s.slots[s.place[x].i]
    ensures x in s'.place && PlaceOK(s', x)
  {
    assert PlaceOK(s, x) && SameItem(s, s', x);
  }

  /** The items a step of t on slot n can affect. */
  predicate Concerned(s: State, t: Tid, n: nat, x: Item) {
    x in s.place ==> s.place[x] == Hand(t) || s.place[x] == InSlot(n)
  }

  /** Enough to look at: the thread that ran, its slot n, and its items. */
  lemma Assemble(s: State, s': State, t: Tid, n: nat)
    requires Inv(s) && Evolves(s, s', t) && E.Inv(s'.ep) && t in s'.pcs && PcOK(s', t, s'.pcs[t])
    requires t in s.pcs && Locking(s.pcs[t]) ==> s.pcs[t].i == n
    requires forall i | 0 <= i < |s.slots| && i != n :: s'.slots[i] == s.slots[i]
    requires n < |s.slots| ==> SlotOK(s', n)
    requires forall x | x in s'.place && Concerned(s, t, n, x) :: PlaceOK(s', x)
    requires forall x | x in s'.destroyed :: x in s'.place
    ensures Inv(s')
  {
    forall u | u in s'.pcs
      ensures PcOK(s', u, s'.pcs[u])
    {
      if u != t { OtherPcKept(s, s', t, u); }
    }
    forall i | 0 <= i < |s'.slots|
      ensures SlotOK(s', i)
    {
      if i != n {
        assert SlotOK(s, i);
        OtherSlotKept(s, s', t, i);
      }
    }
    forall x | x in s'.place
      ensures PlaceOK(s', x)
    {
      if !Concerned(s, t, n, x) {
        assert PlaceOK(s, x);
        if s.place[x].InSlot? { assert SlotOK(s, s.place[x].i); }
        OtherPlaceKept(s, s', t, x);
      }
    }
  }

  // ---- The steps ----

  /** Steps that change only the thread's own position. */
  lemma LocalKeepsInv(s: State, t: Tid, pc: Pc)
    requires Inv(s) && !Locking(pc) && WF(s, pc) && (pc.SCas? ==> pc.p > 0)
    requires t in s.pcs ==> !Locking(s.pcs[t])
    requires t in s.pcs && Carrying(s.pcs[t]) <==> Carrying(pc)
    requires t in s.pcs && Carrying(pc) ==> pc.x == s.pcs[t].x && pc.e == s.pcs[t].e
    ensures Inv(Put(s, t, pc))
  {
    var s' := Put(s, t, pc);
    if Carrying(pc) { assert PcOK(s, t, s.pcs[t]); }
    Assemble(s, s', t, |s.slots|);
  }

  /** The same, with the next slot number taken. */
  lemma AdvanceKeepsInv(s: State, t: Tid, pc: Pc)
    requires Inv(s) && t in s.pcs && s.pcs[t].Take? && (pc.Wait? || pc.Load?) && pc.i < |s.slots|
    requires pc.x == s.pcs[t].x && pc.e == s.pcs[t].e
    ensures Inv(Advance(s, t, pc))
  {
    assert PcOK(s, t, s.pcs[t]);
    Assemble(s, Advance(s, t, pc), t, |s.slots|);
  }

  /** The items an epoch step leaves as they are, as far as the ring is concerned. */
  ghost predicate EpochEvolves(s: E.State, s': E.State) {
    forall x | x in s.items :: x in s'.items && ItemEvolves(s.items[x], s'.items[x]) &&
      (s.items[x].Stamped? ==> s'.items[x].destroyed == s.items[x].destroyed)
  }

  lemma EpochStepEvolves(s: E.State, l: E.Label)
    requires E.Can(s, l) && !l.Destroy?
    ensures EpochEvolves(s, E.After(s, l))
  {
  }

  lemma EpochPcKept(s: State, s': State, u: Tid)
    requires s' == s.(ep := s'.ep) && EpochEvolves(s.ep, s'.ep) && u in s.pcs && PcOK(s, u, s.pcs[u])
    ensures PcOK(s', u, s.pcs[u])
  {
  }

  /** Epoch steps, including stamping and approving an item. */
  lemma EpochKeepsInv(s: State, l: E.Label)
    requires Inv(s) && E.Can(s.ep, l) && !l.Destroy?
    ensures Inv(s.(ep := E.After(s.ep, l)))
  {
    E.StepKeepsInv(s.ep, l);
    EpochStepEvolves(s.ep, l);
    NewEpoch(s, E.After(s.ep, l));
  }

  lemma NewEpoch(s: State, ep: E.State)
    requires Inv(s) && E.Inv(ep) && EpochEvolves(s.ep, ep)
    ensures Inv(s.(ep := ep))
  {
    var s' := s.(ep := ep);
    forall u | u in s.pcs
      ensures PcOK(s', u, s.pcs[u])
    {
      EpochPcKept(s, s', u);
    }
    forall i | 0 <= i < |s.slots|
      ensures SlotOK(s', i)
    {
      assert SlotOK(s, i);
    }
    forall x | x in s.place
      ensures PlaceOK(s', x)
    {
      assert PlaceOK(s, x);
    }
  }

  predicate SameWork(pc: Pc, pc': Pc) {
    (Carrying(pc) <==> Carrying(pc')) && (Carrying(pc) ==> pc'.x == pc.x && pc'.e == pc.e)
  }

  /** Steps of a thread that keeps its slot locked. */
  lemma LockedMove(s: State, t: Tid, pc: Pc)
    requires Inv(s) && t in s.pcs && KeepsItem(s.pcs[t]) && KeepsItem(pc) && pc.i == s.pcs[t].i
    requires SameWork(s.pcs[t], pc) && WF(s, pc) && Content(s, pc)
    ensures Inv(Put(s, t, pc))
  {
    var s' := Put(s, t, pc);
    assert PcOK(s, t, s.pcs[t]);
    forall x | x in s'.place && Concerned(s, t, pc.i, x)
      ensures PlaceOK(s', x)
    {
      assert PlaceOK(s, x);
    }
    Assemble(s, s', t, pc.i);
  }

  /** The CAS that locks a slot. */
  lemma LockKeepsInv(s: State, t: Tid, p: nat, pc: Pc)
    requires Inv(s) && t in s.pcs && !Locking(s.pcs[t]) && SameWork(s.pcs[t], pc)
    requires pc.Fill? || pc.Check? || pc.SCheck?
    requires pc.i < |s.slots| && s.slots[pc.i].mark == At(p)
    requires pc.Fill? ==> p == 0
    requires pc.Check? || pc.SCheck? ==> p > 0 && pc.p == p
    ensures Inv(Put(Mark1(s, pc.i, Locked(t)), t, pc))
  {
    var s' := Put(Mark1(s, pc.i, Locked(t)), t, pc);
    assert PcOK(s, t, s.pcs[t]) && SlotOK(s, pc.i);
    Assemble(s, s', t, pc.i);
  }

  /** The store that puts the old epoch back. */
  lemma UnlockKeepsInv(s: State, t: Tid, pc: Pc)
    requires Inv(s) && t in s.pcs && (s.pcs[t].Restore? || s.pcs[t].SRestore?)
    requires !Locking(pc) && WF(s, pc) && !pc.SCas? && SameWork(s.pcs[t], pc)
    ensures s.pcs[t].i < |s.slots|
    ensures Inv(Put(Mark1(s, s.pcs[t].i, At(s.pcs[t].p)), t, pc))
  {
    assert PcOK(s, t, s.pcs[t]);
    var s' := Put(Mark1(s, s.pcs[t].i, At(s.pcs[t].p)), t, pc);
    Assemble(s, s', t, s.pcs[t].i);
  }

  lemma CallbackEvolves(s: State, t: Tid, i: nat, pc: Pc)
    requires Doomed(s, i) && s.slots[i].mark == Locked(t)
    ensures Busy(s, i) && Evolves(s, Put(Callback(s, i), t, pc), t)
  {
  }

  lemma CallbackPlace(s: State, t: Tid, pc: Pc, x: Item)
    requires x in s.place && PlaceOK(s, x) && (pc.Fill? || pc.SReset?) && Concerned(s, t, pc.i, x)
    requires Doomed(s, pc.i) && Busy(s, pc.i) && t in s.pcs && SameWork(s.pcs[t], pc)
    requires PlaceOK(s, s.slots[pc.i].item)
    ensures PlaceOK(Put(Callback(s, pc.i), t, pc), x)
  {
  }

  /** The destroy callback. */
  lemma CallbackKeepsInv(s: State, t: Tid, pc: Pc)
    requires Inv(s) && t in s.pcs && (s.pcs[t].Destroy? || s.pcs[t].SDestroy?) && SameWork(s.pcs[t], pc)
    requires (pc.Fill? || pc.SReset?) && pc.i == s.pcs[t].i
    ensures Busy(s, pc.i)
    ensures Inv(Put(Callback(s, pc.i), t, pc))
  {
    assert PcOK(s, t, s.pcs[t]);
    CallbackEvolves(s, t, pc.i, pc);
    E.StepKeepsInv(s.ep, E.Destroy(s.slots[pc.i].item));
    var s' := Put(Callback(s, pc.i), t, pc);
    forall x | x in s'.place && Concerned(s, t, pc.i, x)
      ensures PlaceOK(s', x)
    {
      CallbackPlace(s, t, pc, x);
    }
    Assemble(s, s', t, pc.i);
  }

  lemma FillKeepsInv(s: State, t: Tid)
    requires Inv(s) && t in s.pcs && s.pcs[t].Fill?
    ensures s.pcs[t].i < |s.slots|
    ensures var pc := s.pcs[t];
            Inv(Put(s.(slots := s.slots[pc.i := Slot(s.slots[pc.i].mark, pc.x, true)]), t, Publish(pc.x, pc.e, pc.i)))
  {
    var pc := s.pcs[t];
    assert PcOK(s, t, pc);
    var s' := Put(s.(slots := s.slots[pc.i := Slot(s.slots[pc.i].mark, pc.x, true)]), t, Publish(pc.x, pc.e, pc.i));
    Assemble(s, s', t, pc.i);
  }

  lemma PublishKeepsInv(s: State, t: Tid)
    requires Inv(s) && t in s.pcs && s.pcs[t].Publish?
    ensures s.pcs[t].i < |s.slots|
    ensures var pc := s.pcs[t];
            Inv(Put(Mark1(s, pc.i, At(pc.e)).(place := s.place[pc.x := InSlot(pc.i)]), t, Idle))
  {
    var pc := s.pcs[t];
    assert PcOK(s, t, pc) && PlaceOK(s, pc.x);
    var s' := Put(Mark1(s, pc.i, At(pc.e)).(place := s.place[pc.x := InSlot(pc.i)]), t, Idle);
    Assemble(s, s', t, pc.i);
  }

  lemma ResetKeepsInv(s: State, t: Tid)
    requires Inv(s) && t in s.pcs && s.pcs[t].SReset?
    ensures s.pcs[t].i < |s.slots|
    ensures var i := s.pcs[t].i;
            Inv(Put(s.(slots := s.slots[i := s.slots[i].(full := false)]), t, SFree(i)))
  {
    var n := s.pcs[t].i;
    assert PcOK(s, t, s.pcs[t]);
    var s' := Put(s.(slots := s.slots[n := s.slots[n].(full := false)]), t, SFree(n));
    ResetSlot(s, t);
    Assemble(s, s', t, n);
  }

  lemma ResetSlot(s: State, t: Tid)
    requires Inv(s) && t in s.pcs && s.pcs[t].SReset?
    ensures s.pcs[t].i < |s.slots|
    ensures var i := s.pcs[t].i;
            var s' := Put(s.(slots := s.slots[i := s.slots[i].(full := false)]), t, SFree(i));
            SlotOK(s', i) && PcOK(s', t, SFree(i))
  {
    assert PcOK(s, t, s.pcs[t]);
  }

  lemma FreeKeepsInv(s: State, t: Tid)
    requires Inv(s) && t in s.pcs && s.pcs[t].SFree?
    ensures s.pcs[t].i < |s.slots|
    ensures Inv(Put(Mark1(s, s.pcs[t].i, At(0)), t, SLoad(s.pcs[t].i + 1)))
  {
    var n := s.pcs[t].i;
    assert PcOK(s, t, s.pcs[t]);
    var s' := Put(Mark1(s, n, At(0)), t, SLoad(n + 1));
    Assemble(s, s', t, n);
  }

  lemma HandedPlace(s: State, t: Tid, x: Item, e: nat)
    requires Inv(s) && PcOf(s, t).Idle? && x !in s.place && StampedAt(s, x, e) && !s.ep.items[x].destroyed
    ensures PlaceOK(Put(s.(place := s.place[x := Hand(t)]), t, Take(x, e)), x)
  {
    assert s.destroyed[x] == 0;
  }

  /** A stamped item is handed to a thread that starts to push it. */
  lemma HandKeepsInv(s: State, t: Tid, x: Item, e: nat)
    requires Inv(s) && PcOf(s, t).Idle? && x !in s.place && StampedAt(s, x, e) && !s.ep.items[x].destroyed
    ensures Inv(Put(s.(place := s.place[x := Hand(t)]), t, Take(x, e)))
  {
    var s' := Put(s.(place := s.place[x := Hand(t)]), t, Take(x, e));
    forall y | y in s'.place && Concerned(s, t, |s.slots|, y)
      ensures PlaceOK(s', y)
    {
      if y == x { HandedPlace(s, t, x, e); } else { assert PlaceOK(s, y); }
    }
    Assemble(s, s', t, |s.slots|);
  }

  lemma PushKeepsInv(s: State, t: Tid, x: Item)
    requires Inv(s) && Can(s, Push(t, x))
    ensures Inv(After(s, Push(t, x)))
  {
    EpochKeepsInv(s, E.Stamp(x));
    HandKeepsInv(s.(ep := E.After(s.ep, E.Stamp(x))), t, x, s.ep.current);
  }

  /** The safe answer of IsSafeToReclaim(p) is about the item in the slot. */
  lemma AskedDooms(s: State, i: nat, p: nat)
    requires Inv(s) && Holds(s, i, p) && E.IsSafeToReclaim(s.ep, p)
    ensures Checkable(s, i) && Inv(Asked(s, i)) && Doomed(Asked(s, i), i)
    ensures Asked(s, i) == s.(ep := E.After(s.ep, E.Approve(s.slots[i].item)))
  {
    EpochKeepsInv(s, E.Approve(s.slots[i].item));
  }

  lemma CheckKeepsInv(s: State, t: Tid, yes: Pc, no: Pc)
    requires Inv(s) && t in s.pcs && (s.pcs[t].Check? || s.pcs[t].SCheck?)
    requires (yes.Destroy? || yes.SDestroy?) && (no.Restore? || no.SRestore?) && yes.i == no.i == s.pcs[t].i && no.p == s.pcs[t].p
    requires SameWork(s.pcs[t], yes) && SameWork(s.pcs[t], no)
    ensures Inv(CheckStep(s, t, s.pcs[t].p, s.pcs[t].i, yes, no))
  {
    var pc := s.pcs[t];
    assert PcOK(s, t, pc);
    if E.IsSafeToReclaim(s.ep, pc.p) {
      AskedDooms(s, pc.i, pc.p);
      LockedMove(Asked(s, pc.i), t, yes);
    } else {
      LockedMove(s, t, no);
    }
  }

  lemma TakeKeepsInv(s: State, t: Tid, k: E.Scan, i: nat, bump: bool)
    requires Inv(s) && t in s.pcs && s.pcs[t].Take? && k !in s.ep.scans && i < |s.slots|
    ensures Inv(TakeStep(s, t, k, s.pcs[t].x, s.pcs[t].e, i, bump))
  {
    var pc := s.pcs[t];
    if bump {
      EpochKeepsInv(s, E.Bump(k));
      AdvanceKeepsInv(s.(ep := E.After(s.ep, E.Bump(k))), t, Wait(pc.x, pc.e, i, k));
    } else {
      AdvanceKeepsInv(s, t, Load(pc.x, pc.e, i));
    }
  }

  lemma SeekKeepsInv(s: State, t: Tid)
    requires Inv(s) && t in s.pcs && (s.pcs[t].Wait? || s.pcs[t].Load? || s.pcs[t].Cas?) && s.pcs[t].i < |s.slots|
    ensures Inv(SeekStep(s, t, s.pcs[t]))
  {
    match s.pcs[t]
    case Wait(x, e, i, j) => if j !in s.ep.scans { LocalKeepsInv(s, t, Load(x, e, i)); }
    case Load(x, e, i) =>
      LocalKeepsInv(s, t, if s.slots[i].mark.Locked? then Take(x, e) else Cas(x, e, i, s.slots[i].mark.epoch));
    case Cas(x, e, i, p) =>
      if s.slots[i].mark != At(p) {
        LocalKeepsInv(s, t, Take(x, e));
      } else {
        LockKeepsInv(s, t, p, if p == 0 then Fill(x, e, i) else Check(x, e, i, p));
      }
  }

  lemma ScanLoadKeepsInv(s: State, t: Tid)
    requires Inv(s) && t in s.pcs && s.pcs[t].SLoad? && s.pcs[t].i <= |s.slots|
    ensures Inv(Put(s, t, ScanPc(s, s.pcs[t].i)))
  {
    var pc := ScanPc(s, s.pcs[t].i);
    assert pc.Idle? || pc.SLoad? || pc.SCas?;
    LocalKeepsInv(s, t, pc);
  }

  lemma ScanKeepsInv(s: State, t: Tid)
    requires Inv(s) && t in s.pcs && WF(s, s.pcs[t]) && (s.pcs[t].SLoad? || (s.pcs[t].SCas? && s.pcs[t].p > 0))
    ensures Inv(ScanStep(s, t, s.pcs[t]))
  {
    var pc := s.pcs[t];
    if pc.SLoad? {
      ScanLoadKeepsInv(s, t);
    } else if s.slots[pc.i].mark != At(pc.p) {
      LocalKeepsInv(s, t, SLoad(pc.i + 1));
    } else {
      LockKeepsInv(s, t, pc.p, SCheck(pc.i, pc.p));
    }
  }

  lemma FillStepKeepsInv(s: State, t: Tid)
    requires Inv(s) && t in s.pcs && (s.pcs[t].Restore? || s.pcs[t].Destroy? || s.pcs[t].Fill? || s.pcs[t].Publish?)
    requires s.pcs[t].i < |s.slots| && WF(s, s.pcs[t])
    ensures Inv(FillStep(s, t, s.pcs[t]))
  {
    match s.pcs[t]
    case Restore(x, e, i, p) => UnlockKeepsInv(s, t, Take(x, e));
    case Destroy(x, e, i) => CallbackKeepsInv(s, t, Fill(x, e, i));
    case Fill(_, _, _) => FillKeepsInv(s, t);
    case Publish(_, _, _) => PublishKeepsInv(s, t);
  }

  lemma FreeStepKeepsInv(s: State, t: Tid)
    requires Inv(s) && t in s.pcs && (s.pcs[t].SRestore? || s.pcs[t].SDestroy? || s.pcs[t].SReset? || s.pcs[t].SFree?)
    requires s.pcs[t].i < |s.slots| && WF(s, s.pcs[t])
    ensures Inv(FreeStep(s, t, s.pcs[t]))
  {
    var pc := s.pcs[t];
    if pc.SRestore? { UnlockKeepsInv(s, t, SLoad(pc.i + 1)); }
    if pc.SDestroy? { CallbackKeepsInv(s, t, SReset(pc.i)); }
    if pc.SReset? { ResetKeepsInv(s, t); }
    if pc.SFree? { FreeKeepsInv(s, t); }
  }

  lemma GoKeepsInv(s: State, t: Tid, k: E.Scan)
    requires Inv(s) && Can(s, Go(t, k))
    ensures Inv(GoStep(s, t, k))
  {
    var pc := s.pcs[t];
    assert PcOK(s, t, pc);
    if pc.Take? { TakeKeepsInv(s, t, k, SlotOf(s), Bumps(s, SlotOf(s))); }
    else if pc.Wait? || pc.Load? || pc.Cas? { SeekKeepsInv(s, t); }
    else if pc.Check? { CheckKeepsInv(s, t, Destroy(pc.x, pc.e, pc.i), Restore(pc.x, pc.e, pc.i, pc.p)); }
    else if pc.SLoad? || pc.SCas? { ScanKeepsInv(s, t); }
    else if pc.SCheck? { CheckKeepsInv(s, t, SDestroy(pc.i), SRestore(pc.i, pc.p)); }
    else if Carrying(pc) { FillStepKeepsInv(s, t); }
    else { FreeStepKeepsInv(s, t); }
  }

  lemma StepKeepsInv(s: State, l: Label)
    requires Inv(s) && Can(s, l)
    ensures Inv(After(s, l))
  {
    match l
    case EpochStep(e) => EpochKeepsInv(s, e);
    case Push(t, x) => PushKeepsInv(s, t, x);
    case Scavenge(t) => LocalKeepsInv(s, t, SLoad(0));
    case Go(t, k) => GoKeepsInv(s, t, k);
  }

  // ---- Runs ----

  ghost predicate IsRun(table: nat, n: nat, run: seq<State>, ls: seq<Label>) {
    && |run| == |ls| + 1 && Init(run[0], table, n)
    && forall k | 0 <= k < |ls| :: StepAt(run, ls, k)
  }

  ghost predicate StepAt(run: seq<State>, ls: seq<Label>, k: nat)
    requires |run| == |ls| + 1 && k < |ls|
  {
    Can(run[k], ls[k]) && run[k + 1] == After(run[k], ls[k])
  }

  lemma {:induction false} RunInv(table: nat, n: nat, run: seq<State>, ls: seq<Label>, k: nat)
    requires IsRun(table, n, run, ls) && k < |run|
    ensures Inv(run[k])
  {
    if k == 0 {
      InitInv(run[0], table, n);
    } else {
      RunInv(table, n, run, ls, k - 1);
      assert StepAt(run, ls, k - 1);
      StepKeepsInv(run[k - 1], ls[k - 1]);
    }
  }

  /** A thread inside Push or Scavenge can always go on. */
  lemma NeverStuck(table: nat, n: nat, run: seq<State>, ls: seq<Label>, j: nat, t: Tid, k: E.Scan)
    requires IsRun(table, n, run, ls) && j < |run| && !PcOf(run[j], t).Idle? && k !in run[j].ep.scans
    ensures Can(run[j], Go(t, k))
  {
    RunInv(table, n, run, ls, j);
    assert PcOK(run[j], t, run[j].pcs[t]);
  }

  /** No item is ever destroyed twice, and only items that were pushed are. */
  lemma DestroyedAtMostOnce(table: nat, n: nat, run: seq<State>, ls: seq<Label>, k: nat, x: Item)
    requires IsRun(table, n, run, ls) && k < |run|
    ensures run[k].destroyed[x] <= 1
    ensures x in run[k].destroyed ==> x in run[k].place
  {
    RunInv(table, n, run, ls, k);
    if x in run[k].destroyed { assert PlaceOK(run[k], x); }
  }

  /**
    A callback happens only on an item whose stamp was reported safe, and by then every thread
    that was protected when the item was unlinked has left the protected region.
  */
  lemma CallbackIsSafe(table: nat, n: nat, run: seq<State>, ls: seq<Label>, k: nat, x: Item)
    requires IsRun(table, n, run, ls) && k < |ls|
    requires run[k + 1].destroyed[x] > run[k].destroyed[x]
    ensures x in run[k].ep.items && run[k].ep.items[x].Stamped? && run[k].ep.items[x].approved
    ensures run[k].ep.items[x].holders == {}
  {
    RunInv(table, n, run, ls, k);
    assert StepAt(run, ls, k);
    var s := run[k];
    var t := ls[k].t;
    assert PcOK(s, t, s.pcs[t]);
    assert E.ItemOK(s.ep, s.ep.items[x]);
  }

  // ---- Uninitialize ----

  ghost predicate Quiescent(s: State) {
    forall t | t in s.pcs :: s.pcs[t].Idle?
  }

  /** In a quiescent ring, the items not yet destroyed are exactly those in full slots. */
  lemma QuiescentItems(s: State, x: Item)
    requires Inv(s) && Quiescent(s) && x in s.place
    ensures s.destroyed[x] == 1 || (exists i :: 0 <= i < |s.slots| && s.slots[i].full && s.slots[i].item == x)
    ensures s.destroyed[x] <= 1
  {
    assert PlaceOK(s, x);
  }

  lemma QuiescentSlot(s: State, i: nat)
    requires Inv(s) && Quiescent(s) && i < |s.slots| && s.slots[i].full
    ensures s.slots[i].item in s.place && s.place[s.slots[i].item] == InSlot(i) && s.destroyed[s.slots[i].item] == 0
  {
    assert SlotOK(s, i);
    assert PlaceOK(s, s.slots[i].item);
  }

  /** Uninitialize(): destroys whatever is left, so that every pushed item is destroyed exactly once. */
  method Uninitialize(s: State) returns (log: multiset<Item>)
    requires Inv(s) && Quiescent(s)
    ensures forall x | x in s.place :: log[x] == 1
    ensures forall x | x in log :: x in s.place
  {
    log := s.destroyed;
    for i := 0 to |s.slots|
      invariant forall x | x in s.place :: log[x] == s.destroyed[x] + (if LeftBefore(s, x, i) then 1 else 0)
      invariant forall x | x in log :: x in s.place
    {
      if s.slots[i].full {
        QuiescentSlot(s, i);
        log := log + multiset{s.slots[i].item};
      }
    }
    forall x | x in s.place
      ensures log[x] == 1
    {
      QuiescentItems(s, x);
      assert PlaceOK(s, x);
    }
  }

  /** The item is in one of the first n slots. */
  predicate LeftBefore(s: State, x: Item, n: nat) {
    x in s.place && s.place[x].InSlot? && s.place[x].i < n
  }
}
