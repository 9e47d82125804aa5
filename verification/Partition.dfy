/**
  A descriptor partition, owned by one thread: the intrusive free list of its descriptors and
  the single-owner garbage ring (GarbageListUnsafe) that holds retired ones. The epoch manager
  is shared with other threads, so its answers are parameters: safe(k) is the value of
  safe_to_reclaim_epoch_ when IsSafeToReclaim is asked for the k-th time.
*/
module Partition {
  import Epoch

  /** removal_epoch of a slot that is being modified (all ones). */
  const LOCKED: nat := 0xFFFF_FFFF_FFFF_FFFF

  const NONE: int := -1   // null next_ptr_

  datatype Status = Invalid | Finished | Undecided | Succeeded | Failed

  datatype Desc = Desc(status: Status, count: nat, next: int)

  /** epoch 0 is a free slot. */
  datatype Slot = Slot(epoch: nat, item: nat)

  /** Where a descriptor is: its height in the free list, with the client, or its ring slot. */
  datatype Place = Free(height: nat) | InUse | Retired(slot: nat)

  datatype Option<T> = None | Some(value: T)

  ghost predicate PowerOfTwo(n: nat) { exists k: nat :: n == Pow2(k) }

  function Pow2(k: nat): nat { if k == 0 then 1 else 2 * Pow2(k - 1) }

  /** t & (n - 1) for a power of two n. */
  function Masked(t: nat, n: nat): (i: nat)
    requires n > 0
    ensures i < n
  {
    if t < n then t else Masked(t - n, n)
  }

  /** A slot whose occupant, if any, may be destroyed when the safe epoch is safe. */
  predicate Usable(slot: Slot, safe: nat) { slot.epoch == 0 || slot.epoch <= safe }

  predicate Reclaimable(slot: Slot, safe: nat) { 0 < slot.epoch <= safe }

  /** These are the answers of the epoch manager in state ep. */
  lemma AnswersOfEpoch(ep: Epoch.State, slot: Slot)
    ensures Usable(slot, ep.safe) <==> slot.epoch == 0 || Epoch.IsSafeToReclaim(ep, slot.epoch)
    ensures Reclaimable(slot, ep.safe) <==> slot.epoch != 0 && Epoch.IsSafeToReclaim(ep, slot.epoch)
  {
  }

  /** The occupants of the first n slots that Scavenge hands back, in slot order. */
  function Freed(ring: seq<Slot>, safe: nat -> nat, n: nat): seq<nat>
    requires n <= |ring|
  {
    if n == 0 then []
    else if 0 < ring[n - 1].epoch <= safe(n - 1) then Freed(ring, safe, n - 1) + [ring[n - 1].item]
    else Freed(ring, safe, n - 1)
  }

  /** Every descriptor is in exactly one place, and the free list and the ring agree with that. */
  ghost predicate Consistent(descs: seq<Desc>, ring: seq<Slot>, stack: seq<nat>, place: seq<Place>) {
    && |descs| == |ring| == |place| > 0
    && (forall k | 0 <= k < |stack| :: StackAt(descs, stack, place, k))
    && (forall i | 0 <= i < |ring| :: RingAt(ring, place, i))
    && (forall d | 0 <= d < |place| :: PlaceAt(ring, stack, place, d))
  }

  function Top(stack: seq<nat>, k: nat): int
    requires k <= |stack|
  {
    if k == 0 then NONE else stack[k - 1]
  }

  ghost predicate StackAt(descs: seq<Desc>, stack: seq<nat>, place: seq<Place>, k: nat)
    requires k < |stack|
  {
    && stack[k] < |place| && place[stack[k]] == Free(k)
    && stack[k] < |descs| && descs[stack[k]].next == Top(stack, k) && descs[stack[k]].status == Finished
  }

  ghost predicate RingAt(ring: seq<Slot>, place: seq<Place>, i: nat)
    requires i < |ring|
  {
    0 < ring[i].epoch < LOCKED ==> ring[i].item < |place| && place[ring[i].item] == Retired(i)
  }

  ghost predicate PlaceAt(ring: seq<Slot>, stack: seq<nat>, place: seq<Place>, d: nat)
    requires d < |place|
  {
    match place[d]
    case Free(k) => k < |stack| && stack[k] == d
    case InUse => true
    case Retired(i) => i < |ring| && ring[i].epoch > 0 && ring[i].item == d
  }

  lemma FreeKeeps(descs: seq<Desc>, ring: seq<Slot>, stack: seq<nat>, place: seq<Place>, d: nat)
    requires Consistent(descs, ring, stack, place) && d < |place| && place[d] == InUse
    ensures Consistent(descs[d := Desc(Finished, 0, Top(stack, |stack|))], ring, stack + [d], place[d := Free(|stack|)])
  {
    var descs', stack', place' := descs[d := Desc(Finished, 0, Top(stack, |stack|))], stack + [d], place[d := Free(|stack|)];
    forall k | 0 <= k < |stack'|
      ensures StackAt(descs', stack', place', k)
    {
      assert k < |stack| ==> StackAt(descs, stack, place, k);
    }
    forall i | 0 <= i < |ring|
      ensures RingAt(ring, place', i)
    {
      assert RingAt(ring, place, i);
    }
    forall x | 0 <= x < |place'|
      ensures PlaceAt(ring, stack', place', x)
    {
      assert PlaceAt(ring, stack, place, x);
    }
  }

  /** Changing one slot and the places of the descriptors that go in and out of it. */
  lemma SlotKeeps(descs: seq<Desc>, ring: seq<Slot>, stack: seq<nat>, place: seq<Place>, i: nat, slot: Slot, place': seq<Place>)
    requires Consistent(descs, ring, stack, place) && i < |ring| && |place'| == |place|
    requires forall d | 0 <= d < |place| && place'[d] != place[d] ::
               place[d] in {InUse, Retired(i)} && place'[d] in {InUse, Retired(i)}
    requires forall d | 0 <= d < |place| && place'[d] == Retired(i) :: slot.epoch > 0 && slot.item == d
    requires 0 < slot.epoch < LOCKED ==> slot.item < |place| && place'[slot.item] == Retired(i)
    ensures Consistent(descs, ring[i := slot], stack, place')
  {
    var ring' := ring[i := slot];
    forall k | 0 <= k < |stack|
      ensures StackAt(descs, stack, place', k)
    {
      assert StackAt(descs, stack, place, k);
    }
    forall j | 0 <= j < |ring'|
      ensures RingAt(ring', place', j)
    {
      assert RingAt(ring, place, j);
    }
    forall d | 0 <= d < |place'|
      ensures PlaceAt(ring', stack, place', d)
    {
      assert PlaceAt(ring, stack, place, d);
    }
  }

  /** No slot is being modified. */
  predicate Settled(ring: seq<Slot>) { forall i | 0 <= i < |ring| :: ring[i].epoch < LOCKED }

  class DescriptorPartition {
    var descs: array<Desc>
    var freeList: int
    var ring: array<Slot>
    var tail: nat
    ghost var stack: seq<nat>      // the free list, its head last
    ghost var place: seq<Place>    // where each descriptor is

    ghost predicate Valid()
      reads this, descs, ring
    {
      Intact() && Settled(ring[..])
    }

    /** Valid, except that slots may be locked. */
    ghost predicate Intact()
      reads this, descs, ring
    {
      PowerOfTwo(ring.Length) && freeList == Top(stack, |stack|) && Consistent(descs[..], ring[..], stack, place)
    }

    ghost predicate Used(d: nat)
      reads this
    {
      d < |place| && place[d] == InUse
    }

    /** InitDescriptors, for one partition. */
    constructor (n: nat)
      requires PowerOfTwo(n)
      ensures Valid() && fresh(descs) && fresh(ring) && ring.Length == n && tail == 0
      ensures stack == seq(n, d requires 0 <= d < n => d)
      ensures forall i | 0 <= i < n :: ring[i].epoch == 0
    {
      descs := new Desc[n](_ => Desc(Finished, 0, NONE));
      ring := new Slot[n](_ => Slot(0, 0));
      freeList, tail, stack, place := NONE, 0, [], seq(n, _ => InUse);
      new;
      PowerIsPositive(n);
      for d := 0 to n
        invariant fresh(descs) && fresh(ring) && descs.Length == n && ring.Length == n && tail == 0
        invariant Valid() && stack == seq(d, j requires 0 <= j < d => j)
        invariant forall j | d <= j < n :: place[j] == InUse
        invariant forall i | 0 <= i < n :: ring[i].epoch == 0
      {
        FreeDescriptor(d);
      }
    }

    /** Back onto the free list; Initialize resets status and count. */
    method FreeDescriptor(d: nat)
      requires Intact() && Used(d)
      modifies this`freeList, this`stack, this`place, descs
      ensures Intact()
      ensures stack == old(stack) + [d] && place == old(place)[d := Free(old(|stack|))]
      ensures descs[..] == old(descs[..])[d := Desc(Finished, 0, old(freeList))]
    {
      FreeKeeps(descs[..], ring[..], stack, place, d);
      descs[d] := Desc(Finished, 0, freeList);
      freeList := d;
      place := place[d := Free(|stack|)];
      stack := stack + [d];
    }

    /** Slot i is locked by a store of the all-ones epoch. */
    method Lock(i: nat)
      requires Valid() && i < ring.Length
      modifies ring
      ensures Intact() && ring[..] == old(ring[..])[i := Slot(LOCKED, old(ring[i].item))]
    {
      forall x | 0 <= x < |place| && place[x] == Retired(i)
        ensures ring[i].item == x
      {
        assert PlaceAt(ring[..], stack, place, x);
      }
      SlotKeeps(descs[..], ring[..], stack, place, i, Slot(LOCKED, ring[i].item), place);
      ring[i] := ring[i].(epoch := LOCKED);
      assert ring[..] == old(ring[..])[i := Slot(LOCKED, old(ring[i].item))];
    }

    /** The epoch of a slot whose occupant could not be destroyed is put back. */
    method Unlock(i: nat, prior: nat, ghost was: seq<Slot>)
      requires Intact() && i < ring.Length && was == ring[..][i := Slot(prior, ring[i].item)]
      requires Consistent(descs[..], was, stack, place) && Settled(was)
      modifies ring
      ensures Valid() && ring[..] == was
    {
      ring[i] := ring[i].(epoch := prior);
      assert ring[..] == was;
    }

    /** Runs the destroy callback on the occupant of slot i, which is locked. */
    method Destroy(i: nat)
      requires Intact() && i < ring.Length && ring[i].epoch == LOCKED
      requires ring[i].item < |place| && place[ring[i].item] == Retired(i)
      modifies this`freeList, this`stack, this`place, descs
      ensures Intact()
      ensures stack == old(stack) + [ring[i].item]
      ensures place == old(place)[ring[i].item := Free(old(|stack|))]
      ensures forall x: nat | old(Used(x)) :: descs[x] == old(descs[x])
    {
      ghost var d := ring[i].item;
      forall x | 0 <= x < |place| && place[x] == Retired(i)
        ensures ring[i].item == x
      {
        assert PlaceAt(ring[..], stack, place, x);
      }
      SlotKeeps(descs[..], ring[..], stack, place, i, ring[i], place[d := InUse]);
      assert ring[..][i := ring[i]] == ring[..];
      place := place[d := InUse];
      FreeDescriptor(ring[i].item);
    }

    /** The occupant of slot i, locked, is destroyed if there is one, and the slot gets a new content. */
    method Evict(i: nat, prior: nat, slot: Slot, ghost was: seq<Slot>)
      requires Intact() && i < |was| == ring.Length && ring[..] == was[i := Slot(LOCKED, was[i].item)]
      requires was[i].epoch == prior && Consistent(descs[..], was, stack, place) && Settled(was) && slot.epoch < LOCKED
      requires slot.epoch > 0 ==> Used(slot.item)
      modifies this`freeList, this`stack, this`place, descs, ring
      ensures Valid() && ring[..] == was[i := slot]
      ensures stack == old(stack) + (if prior > 0 then [was[i].item] else [])
      ensures |place| == |old(place)|
      ensures forall x: nat | old(Used(x)) :: descs[x] == old(descs[x])
      ensures forall x | 0 <= x < |place| :: place[x] == InUse <==> old(place)[x] == InUse && !(slot.epoch > 0 && x == slot.item)
    {
      assert RingAt(was, place, i);
      if prior != 0 { Destroy(i); }
      ghost var place1 := if slot.epoch > 0 then place[slot.item := Retired(i)] else place;
      forall x | 0 <= x < |place|
        ensures place[x] != Retired(i)
      {
        assert PlaceAt(was, old(stack), old(place), x);
      }
      SlotKeeps(descs[..], ring[..], stack, place, i, slot, place1);
      ring[i] := slot;
      place := place1;
      assert ring[..] == was[i := slot];
    }

    /** One probe of Push: the slot is locked, and taken if it is free or safe to empty. */
    method TrySlot(i: nat, d: nat, now: nat, safe: nat) returns (done: bool)
      requires Valid() && Used(d) && 0 < now < LOCKED && i < ring.Length
      modifies this`freeList, this`stack, this`place, descs, ring
      ensures Valid() && done == Usable(old(ring[i]), safe)
      ensures done ==> ring[..] == old(ring[..])[i := Slot(now, d)] && forall x: nat :: Used(x) <==> old(Used(x)) && x != d
      ensures done ==> stack == old(stack) + (if old(ring[i]).epoch > 0 then [old(ring[i]).item] else [])
      ensures done ==> forall x: nat | old(Used(x)) :: descs[x] == old(descs[x])
      ensures !done ==> ring[..] == old(ring[..]) && stack == old(stack) && place == old(place) && descs[..] == old(descs[..])
    {
      ghost var was := ring[..];
      var prior := ring[i].epoch;
      Lock(i);
      done := prior == 0 || prior <= safe;
      if done { Evict(i, prior, Slot(now, d), was); } else { Unlock(i, prior, was); }
    }

    /**
      Push: the first of the slots tail, tail + 1, ... that is free or safe to empty takes the
      descriptor; its safe occupant goes to the free list. safe(k) is asked at the k-th probe.
    */
    method Push(d: nat, now: nat, safe: nat -> nat) returns (k: nat)
      requires Valid() && Used(d) && 0 < now < LOCKED
      modifies this`freeList, this`tail, this`stack, this`place, descs, ring
      ensures Valid() && forall x: nat :: Used(x) <==> old(Used(x)) && x != d
      ensures forall x: nat | old(Used(x)) :: descs[x] == old(descs[x])
      ensures k < ring.Length && tail == old(tail) + k + 1
      ensures forall j | 0 <= j < k :: old(ring[..])[Masked(old(tail) + j, ring.Length)].epoch > safe(j)
      ensures var i := Masked(old(tail) + k, ring.Length);
              var was := old(ring[..])[i];
              && was.epoch <= safe(k) && ring[..] == old(ring[..])[i := Slot(now, d)]
              && stack == old(stack) + (if was.epoch > 0 then [was.item] else [])
    {
      k := 0;
      ghost var was := ring[..];
      ghost var f := SomeSlotIsFree(descs[..], was, stack, place, d, tail);
      while true
        invariant Valid() && Used(d) && k <= f < ring.Length && tail == old(tail) + k
        invariant ring[..] == was && stack == old(stack) && descs[..] == old(descs[..]) && place == old(place)
        invariant forall j | 0 <= j < k :: !Usable(was[Masked(old(tail) + j, ring.Length)], safe(j))
        decreases f - k
      {
        var i := Masked(tail, ring.Length);
        tail := tail + 1;
        var done := TrySlot(i, d, now, safe(k));
        if done { return; }
        k := k + 1;
      }
    }

    /** One slot: locked, and emptied if its epoch is safe. */
    method ScavengeSlot(slot: nat, safe: nat) returns (n: nat)
      requires Valid() && slot < ring.Length
      modifies this`freeList, this`stack, this`place, descs, ring
      ensures Valid() && ring[..] == old(ring[..])[slot := Scavenged(old(ring[slot]), safe)]
      ensures stack == old(stack) + (if Reclaimable(old(ring[slot]), safe) then [old(ring[slot].item)] else [])
      ensures n == |stack| - old(|stack|) && |place| == |old(place)|
      ensures forall d | 0 <= d < |place| :: place[d] == InUse <==> old(place)[d] == InUse
      ensures forall d: nat | old(Used(d)) :: descs[d] == old(descs[d])
    {
      n := 0;
      ghost var was := ring[..];
      var prior := ring[slot].epoch;
      if prior != 0 {
        Lock(slot);
        if prior <= safe {
          Evict(slot, prior, Slot(0, 0), was);
          n := 1;
        } else {
          Unlock(slot, prior, was);
        }
      }
    }

    /** Scavenge: every slot whose occupant is safe is emptied; safe(i) is asked for slot i. */
    method Scavenge(safe: nat -> nat) returns (scavenged: nat)
      requires Valid()
      modifies this`freeList, this`stack, this`place, descs, ring
      ensures Valid()
      ensures stack == old(stack) + Freed(old(ring[..]), safe, ring.Length)
      ensures forall i | 0 <= i < ring.Length ::
                ring[i] == if 0 < old(ring[i].epoch) <= safe(i) then Slot(0, 0) else old(ring[i])
      ensures scavenged == |stack| - old(|stack|)
      ensures forall d: nat | Used(d) :: old(Used(d))
      ensures forall d: nat | old(Used(d)) :: Used(d) && descs[d] == old(descs[d])
    {
      scavenged := 0;
      for slot := 0 to ring.Length
        invariant Valid()
        invariant stack == old(stack) + Freed(old(ring[..]), safe, slot)
        invariant forall i | 0 <= i < slot :: ring[i] == Scavenged(old(ring[i]), safe(i))
        invariant forall i | slot <= i < ring.Length :: ring[i] == old(ring[i])
        invariant scavenged == |stack| - old(|stack|) && |place| == old(|place|)
        invariant forall d | 0 <= d < |place| :: place[d] == InUse <==> old(place)[d] == InUse
        invariant forall d: nat | old(Used(d)) :: descs[d] == old(descs[d])
      {
        var n := ScavengeSlot(slot, safe(slot));
        scavenged := scavenged + n;
      }
    }

    /** The head of the free list is handed out. */
    method Pop() returns (d: nat)
      requires Valid() && stack != []
      modifies this`freeList, this`stack, this`place
      ensures Valid() && d == old(stack)[|old(stack)| - 1] && stack == old(stack)[..|old(stack)| - 1]
      ensures d < descs.Length && !old(Used(d)) && descs[d].status == Finished && forall x: nat :: Used(x) <==> old(Used(x)) || x == d
    {
      TakeKeeps(descs[..], ring[..], stack, place);
      assert StackAt(descs[..], stack, place, |stack| - 1);
      d := freeList;
      place := place[d := InUse];
      freeList := descs[d].next;
      stack := stack[..|stack| - 1];
    }

    /**
      AllocateDescriptor: the head of the free list, after as many rounds of scavenging as it
      takes. The source keeps trying for ever; None means that the given rounds did not help.
    */
    method Allocate(rounds: seq<nat -> nat>) returns (d: Option<nat>)
      requires Valid()
      modifies this`freeList, this`stack, this`place, descs, ring
      ensures Valid()
      ensures d.Some? ==> !old(Used(d.value)) && Used(d.value) && descs[d.value].status == Finished
      ensures forall x: nat | Used(x) && d != Some(x) :: old(Used(x))
      ensures forall x: nat | old(Used(x)) :: Used(x) && descs[x] == old(descs[x])
      ensures d == None ==> stack == old(stack) == [] && ring[..] == old(ring[..])
      ensures old(stack) != [] ==> d == Some(old(stack)[|old(stack)| - 1]) && ring[..] == old(ring[..]) && stack == old(stack)[..|old(stack)| - 1]
      ensures d.Some? <==> old(stack) != [] || Helped(old(ring[..]), rounds)
    {
      var r := 0;
      while freeList == NONE && r < |rounds|
        invariant Valid() && r <= |rounds|
        invariant stack == [] ==> ring[..] == old(ring[..]) && !Helped(ring[..], rounds[..r])
        invariant old(stack) != [] ==> ring[..] == old(ring[..]) && stack == old(stack)
        invariant stack != [] ==> old(stack) != [] || Helped(old(ring[..]), rounds)
        invariant forall x: nat | Used(x) :: old(Used(x))
        invariant forall x: nat | old(Used(x)) :: Used(x) && descs[x] == old(descs[x])
      {
        ghost var was := ring[..];
        var scavenged := Scavenge(rounds[r]);
        FreedIsEmpty(was, rounds[r], ring.Length);
        r := r + 1;
      }
      assert rounds[..|rounds|] == rounds;
      if freeList == NONE { return None; }
      var x := Pop();
      d := Some(x);
    }
  }

  predicate Helped(ring: seq<Slot>, rounds: seq<nat -> nat>) {
    exists r, i :: 0 <= r < |rounds| && 0 <= i < |ring| && Reclaimable(ring[i], rounds[r](i))
  }

  function Scavenged(slot: Slot, safe: nat): Slot { if Reclaimable(slot, safe) then Slot(0, 0) else slot }

  lemma {:induction false} FreedIsEmpty(ring: seq<Slot>, safe: nat -> nat, n: nat)
    requires n <= |ring|
    ensures Freed(ring, safe, n) == [] <==> forall i | 0 <= i < n :: !Reclaimable(ring[i], safe(i))
  {
    if n > 0 { FreedIsEmpty(ring, safe, n - 1); }
  }

  lemma TakeKeeps(descs: seq<Desc>, ring: seq<Slot>, stack: seq<nat>, place: seq<Place>)
    requires Consistent(descs, ring, stack, place) && stack != []
    ensures stack[|stack| - 1] < |place|
    ensures Consistent(descs, ring, stack[..|stack| - 1], place[stack[|stack| - 1] := InUse])
  {
    var n := |stack| - 1;
    var stack' := stack[..n];
    assert StackAt(descs, stack, place, n);
    var place' := place[stack[n] := InUse];
    forall k | 0 <= k < n
      ensures StackAt(descs, stack', place', k)
    {
      assert StackAt(descs, stack, place, k);
    }
    forall i | 0 <= i < |ring|
      ensures RingAt(ring, place', i)
    {
      assert RingAt(ring, place, i);
    }
    forall d | 0 <= d < |place'|
      ensures PlaceAt(ring, stack', place', d)
    {
      assert PlaceAt(ring, stack, place, d);
    }
  }

  /** With one of the n descriptors in use, the ring of n slots cannot be full. */
  lemma SomeSlotIsFree(descs: seq<Desc>, ring: seq<Slot>, stack: seq<nat>, place: seq<Place>, d: nat, tail: nat) returns (j: nat)
    requires Consistent(descs, ring, stack, place) && Settled(ring) && d < |place| && place[d] == InUse
    ensures j < |ring| && ring[Masked(tail + j, |ring|)].epoch == 0
  {
    var n := |ring|;
    j := 0;
    if forall i | 0 <= i < n :: ring[i].epoch > 0 {
      var items := seq(n, i requires 0 <= i < n => ring[i].item);
      forall i | 0 <= i < n
        ensures items[i] < n && place[items[i]] == Retired(i)
      {
        assert RingAt(ring, place, i);
      }
      Pigeonhole(items, d);
    } else {
      var i :| 0 <= i < n && ring[i].epoch == 0;
      j := ProbesReach(tail, i, n);
    }
  }

  lemma {:induction false} MaskedSum(t: nat, j: nat, n: nat)
    requires n > 0 && Masked(t, n) + j < 2 * n
    ensures Masked(t + j, n) == if Masked(t, n) + j < n then Masked(t, n) + j else Masked(t, n) + j - n
  {
    if t >= n { MaskedSum(t - n, j, n); }
  }

  /** n consecutive probes reach every slot. */
  lemma ProbesReach(tail: nat, i: nat, n: nat) returns (j: nat)
    requires i < n
    ensures j < n && Masked(tail + j, n) == i
  {
    var m := Masked(tail, n);
    j := if i >= m then i - m else n + i - m;
    MaskedSum(tail, j, n);
  }

  ghost function Below(n: nat): set<nat> { if n == 0 then {} else Below(n - 1) + {n - 1} }

  ghost function Elements(items: seq<nat>): set<nat> {
    if items == [] then {} else Elements(items[..|items| - 1]) + {items[|items| - 1]}
  }

  lemma {:induction false} CountBelow(n: nat)
    ensures |Below(n)| == n && forall x: nat :: x in Below(n) <==> x < n
  {
    if n > 0 { CountBelow(n - 1); }
  }

  lemma {:induction false} CountDistinct(items: seq<nat>)
    requires forall i, j | 0 <= i < j < |items| :: items[i] != items[j]
    ensures |Elements(items)| == |items| && forall x :: x in Elements(items) <==> x in items
  {
    if items != [] {
      var n := |items| - 1;
      CountDistinct(items[..n]);
      assert items == items[..n] + [items[n]];
      assert items[n] !in items[..n];
    }
  }

  /** n distinct numbers below n are all the numbers below n. */
  lemma Pigeonhole(items: seq<nat>, d: nat)
    requires d < |items| && (forall i | 0 <= i < |items| :: items[i] < |items|)
    requires forall i, j | 0 <= i < j < |items| :: items[i] != items[j]
    ensures d in items
  {
    CountBelow(|items|);
    CountDistinct(items);
    if d !in items { SubsetIsSmaller(Elements(items), Below(|items|) - {d}); }
  }

  lemma SubsetIsSmaller(a: set<nat>, b: set<nat>)
    requires a <= b
    ensures |a| <= |b|
  {
    assert b == a + (b - a);
  }

  lemma PowerIsPositive(n: nat)
    requires PowerOfTwo(n)
    ensures n > 0
  {
    var k :| n == Pow2(k);
    PowPositive(k);
  }

  lemma PowPositive(k: nat)
    ensures Pow2(k) > 0
  {
  }

  /** A descriptor is on the free list, with the client or in a full slot: one of the three, once. */
  lemma ExactlyOnePlace(descs: seq<Desc>, ring: seq<Slot>, stack: seq<nat>, place: seq<Place>, d: nat)
    requires Consistent(descs, ring, stack, place) && Settled(ring) && d < |place|
    ensures d in stack <==> place[d].Free?
    ensures (exists i :: 0 <= i < |ring| && ring[i].epoch > 0 && ring[i].item == d) <==> place[d].Retired?
    ensures forall k, m | 0 <= k < m < |stack| :: stack[k] != stack[m]
    ensures forall i, j | 0 <= i < j < |ring| && ring[i].epoch > 0 && ring[j].epoch > 0 :: ring[i].item != ring[j].item
  {
    assert PlaceAt(ring, stack, place, d);
    forall k | 0 <= k < |stack|
      ensures stack[k] < |place| && place[stack[k]] == Free(k)
    {
      assert StackAt(descs, stack, place, k);
    }
    forall i | 0 <= i < |ring| && ring[i].epoch > 0
      ensures ring[i].item < |place| && place[ring[i].item] == Retired(i)
    {
      assert RingAt(ring, place, i);
    }
  }

  const U32: nat := 0x1_0000_0000

  /** pool_size_ after j doublings, in uint32 arithmetic. */
  function Doubled(j: nat): nat { if j == 0 then 1 else (2 * Doubled(j - 1)) % U32 }

  lemma Twice(x: nat)
    ensures x < 0x8000_0000 ==> (2 * x) % U32 == 2 * x
    ensures x == 0x8000_0000 ==> (2 * x) % U32 == 0
  {
  }

  lemma {:induction false} DoubledIs(j: nat)
    ensures Doubled(j) == if j < 32 then Pow2(j) else 0
  {
    if j > 0 {
      DoubledIs(j - 1);
      Twice(Doubled(j - 1));
      if j < 32 { Below31(j); } else if j == 32 { Below31(j - 1); }
    }
  }

  lemma Below31(j: nat)
    requires j < 32
    ensures Pow2(j) <= 0x8000_0000 && (j == 31 ==> Pow2(j) == 0x8000_0000)
  {
    PowOf32();
    PowGrows(j, 31);
  }

  lemma PowOf32()
    ensures Pow2(31) == 0x8000_0000 && Pow2(32) == U32
  {
    assert Pow2(8) == 0x100;
    assert Pow2(16) == 0x1_0000;
    assert Pow2(24) == 0x100_0000;
  }

  /** The doubling reaches a request exactly if that is at most 2^31; beyond it wraps to 0 and stays there. */
  lemma DoublingEnds(requested: nat)
    ensures (exists j: nat :: Doubled(j) >= requested) <==> requested <= 0x8000_0000
  {
    PowOf32();
    DoubledIs(31);
    forall j: nat
      ensures Doubled(j) <= Doubled(31)
    {
      DoubledIs(j);
      if j < 32 { PowGrows(j, 31); }
    }
    if requested <= 0x8000_0000 { assert Doubled(31) >= requested; }
  }

  /** Where the loop can stop. */
  lemma Rounded(requested: nat, n: nat)
    requires n <= 32 && (n > 0 ==> Doubled(n - 1) < requested) && (n < 32 ==> requested <= Doubled(n))
    ensures requested <= Doubled(n) <==> requested <= 0x8000_0000
    ensures requested <= Doubled(n) ==> Doubled(n) == Pow2(n) && (n == 0 || Doubled(n) < 2 * requested)
  {
    DoubledIs(n);
    if n > 0 {
      DoubledIs(n - 1);
      Below31(n - 1);
    }
    if n < 32 { Below31(n); }
  }

  /** The loop that rounds up the pool's size; None if it does not end. */
  method RoundUp(requested: nat) returns (size: Option<nat>, ghost a: nat)
    ensures size == None <==> forall j: nat :: Doubled(j) < requested
    ensures size == None <==> requested > 0x8000_0000
    ensures size.Some? ==> size.value == Pow2(a) && requested <= size.value && (size.value == 1 || size.value < 2 * requested)
  {
    var pool, n := 1, 0;
    while requested > pool && n < 32
      invariant n <= 32 && pool == Doubled(n) && (n > 0 ==> Doubled(n - 1) < requested)
      decreases 32 - n
    {
      pool := (2 * pool) % U32;
      n := n + 1;
    }
    Rounded(requested, n);
    DoublingEnds(requested);
    a := n;
    size := if requested > pool then None else Some(pool);
  }

  /** Sizes chosen by the pool's constructor; None if rounding up the pool's size does not end. */
  method PoolSizes(requested: nat, requestedPartitions: nat) returns (size: Option<nat>, partitions: nat)
    ensures PowerOfTwo(partitions) && 0 < partitions <= 512
    ensures requestedPartitions <= 512 ==> requestedPartitions <= partitions && (partitions == 1 || partitions < 2 * requestedPartitions)
    ensures requestedPartitions > 512 ==> partitions == 512
    ensures size == None <==> forall j: nat :: Doubled(j) < requested
    ensures size == None <==> requested > 0x8000_0000
    ensures size.Some? ==>
              var pool := size.value;
              && PowerOfTwo(pool) && requested <= pool && (pool == 1 || pool < 2 * requested)
              && (partitions <= pool ==> PowerOfTwo(pool / partitions))
  {
    ghost var a: nat;
    size, a := RoundUp(requested);
    partitions := 1;
    ghost var b: nat := 0;
    for exp := 1 to 10
      invariant partitions == Pow2(b) && b == exp - 1 && (partitions == 1 || partitions < 2 * requestedPartitions)
    {
      if requestedPartitions <= partitions { break; }
      partitions := partitions * 2;
      b := b + 1;
    }
    assert Pow2(9) == 512;
    PowPositive(b);
    if size.Some? && partitions <= size.value { PowDivides(a, b, size.value, partitions); }
  }

  lemma {:induction false} PowGrows(a: nat, b: nat)
    requires a <= b
    ensures 0 < Pow2(a) <= Pow2(b)
  {
    if a < b { PowGrows(a, b - 1); } else { PowPositive(a); }
  }

  lemma {:induction false} PowProduct(a: nat, b: nat)
    ensures Pow2(a) * Pow2(b) == Pow2(a + b)
  {
    if a > 0 { PowProduct(a - 1, b); }
  }

  lemma Quotient(x: nat, y: nat, q: nat)
    requires y > 0 && q * y == x
    ensures x / y == q
  {
    var d := x / y - q;
    assert d * y == -(x % y);
    assert d < 0 ==> (d + 1) * y <= 0;
    assert d > 0 ==> d * y > 0;
  }

  lemma PowCompares(a: nat, b: nat)
    requires Pow2(b) <= Pow2(a)
    ensures b <= a
  {
    PowPositive(a);
    if a < b { PowGrows(a + 1, b); }
  }

  lemma PowDivides(a: nat, b: nat, x: nat, y: nat)
    requires x == Pow2(a) && y == Pow2(b) && y <= x
    ensures y > 0 && PowerOfTwo(x / y)
  {
    PowPositive(b);
    PowCompares(a, b);
    var k: nat := a - b;
    assert Pow2(k) * y == x by { PowProduct(k, b); assert k + b == a; }
    Quotient(x, y, Pow2(k));
  }
}
