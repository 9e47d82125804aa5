/**
  Recovery of a descriptor pool after a crash that keeps memory contents
  (DescriptorPool::Recovery, with the pool at its old address). A failed RAW_CHECK, which
  stops the process, is the result `false`.
*/
module Recovery {
  import opened MwcasShared

  datatype Status = Invalid | Finished | InUse(outcome: Outcome, dirty: bool)

  /** One entry of the descriptor array. */
  datatype Slot = Slot(id: Id, status: Status, words: seq<Entry>)

  /** The slots are the descriptors of s, in any order, and possibly some finished or zeroed ones. */
  ghost predicate Represents(slots: seq<Slot>, s: Shared) {
    && slots != []
    && (forall i | 0 <= i < |slots| :: SlotOK(slots[i], s))
    && (forall i, j | 0 <= i < j < |slots| :: slots[i].id != slots[j].id)
    && (forall d | d in s.descs :: exists i :: 0 <= i < |slots| && slots[i].id == d)
  }

  ghost predicate SlotOK(x: Slot, s: Shared) {
    match x.status
    case Invalid => x.id !in s.descs
    case Finished => x.id !in s.descs
    case InUse(o, dirty) =>
      x.id in s.descs && s.descs[x.id].words == x.words
      && s.descs[x.id].outcome == o && s.descs[x.id].dirty == dirty
  }

  /** No succeeded operation has one of its CondCAS pointers in memory. */
  ghost predicate NoStaleCond(s: Shared) {
    forall a | a in s.mem :: !StaleCond(s, a)
  }

  ghost predicate StaleCond(s: Shared, a: Addr)
    requires a in s.mem
  {
    s.mem[a].Cond? && s.mem[a].id in s.descs && s.descs[s.mem[a].id].outcome.Succeeded?
  }

  /** Memory with every descriptor pointer replaced by what it stands for. */
  ghost function Recovered(s: Shared): map<Addr, Word> {
    map a | a in s.mem :: Settled(s, a)
  }

  ghost function Settled(s: Shared, a: Addr): Word
    requires a in s.mem
  {
    if s.mem[a].Plain? then s.mem[a] else Plain(LogicalWord(s.descs, a, s.mem[a]), false)
  }

  /**
    What recovery leaves behind: exactly the logical memory, that is every operation fully
    forward or fully back, and no descriptor pointer anywhere.
  */
  lemma RecoveredIsLogical(s: Shared)
    ensures Logical(Shared(Recovered(s), map[])) == Logical(s)
    ensures forall a | a in s.mem && s.mem[a].Plain? :: Recovered(s)[a] == s.mem[a]
    ensures forall a | a in s.mem && !s.mem[a].Plain? :: Recovered(s)[a] == Plain(Logical(s)[a], false)
  {
  }

  /** Memory after the operations in `done`, and the first w words of d, have been settled. */
  ghost predicate Partial(s: Shared, mem: map<Addr, Word>, done: set<Id>, d: Id, w: nat)
    requires d in s.descs
  {
    mem.Keys == s.mem.Keys && forall a | a in mem ::
      mem[a] == if Touched(s, a, done, d, w) then Settled(s, a) else s.mem[a]
  }

  ghost predicate Touched(s: Shared, a: Addr, done: set<Id>, d: Id, w: nat)
    requires a in s.mem && d in s.descs
  {
    !s.mem[a].Plain? &&
    (s.mem[a].id in done || (s.mem[a].id == d && Find(s.descs[d].words, a) < w))
  }

  ghost predicate Whole(s: Shared, mem: map<Addr, Word>, done: set<Id>) {
    mem.Keys == s.mem.Keys && forall a | a in mem ::
      mem[a] == if !s.mem[a].Plain? && s.mem[a].id in done then Settled(s, a) else s.mem[a]
  }

  lemma StartWords(s: Shared, mem: map<Addr, Word>, done: set<Id>, d: Id)
    requires Whole(s, mem, done) && d in s.descs
    ensures Partial(s, mem, done, d, 0)
  {
  }

  lemma EndWords(s: Shared, mem: map<Addr, Word>, done: set<Id>, d: Id)
    requires SharedInv(true, s) && d in s.descs && Partial(s, mem, done, d, |s.descs[d].words|)
    ensures Whole(s, mem, done + {d})
  {
    forall a | a in mem
      ensures mem[a] == if !s.mem[a].Plain? && s.mem[a].id in done + {d} then Settled(s, a) else s.mem[a]
    {
      assert WordOK(true, s.descs, a, s.mem[a]);
    }
  }

  /** The word that holds a pointer of d belongs to the entry of that address. */
  lemma PointerAt(s: Shared, d: Id, w: nat, a: Addr)
    requires SharedInv(true, s) && d in s.descs && w < |s.descs[d].words|
    requires a == s.descs[d].words[w].addr && a != 0 && a in s.mem
    ensures Find(s.descs[d].words, a) == w
    ensures s.mem[a].Cond? && s.mem[a].id == d ==> s.mem[a].i == w
  {
    assert WordOK(true, s.descs, a, s.mem[a]);
    FindIs(true, s.mem.Keys, s.descs[d].words, w);
    if s.mem[a].Cond? && s.mem[a].id == d {
      FindIs(true, s.mem.Keys, s.descs[d].words, s.mem[a].i);
    }
  }

  lemma NextWord(s: Shared, mem: map<Addr, Word>, done: set<Id>, d: Id, w: nat, mem': map<Addr, Word>)
    requires SharedInv(true, s) && d in s.descs && w < |s.descs[d].words| && d !in done
    requires Partial(s, mem, done, d, w)
    requires var a := s.descs[d].words[w].addr;
             if a != 0 && RefersTo(mem[a], d) then mem' == mem[a := Settled(s, a)] else mem' == mem
    ensures Partial(s, mem', done, d, w + 1)
  {
    var a := s.descs[d].words[w].addr;
    if a != 0 { PointerAt(s, d, w, a); }
    forall b | b in mem
      ensures b in mem' && mem'[b] == if Touched(s, b, done, d, w + 1) then Settled(s, b) else s.mem[b]
    {
      assert WordOK(true, s.descs, b, s.mem[b]);
    }
  }

  /** CondCAS pointers of d are only in entries from w on. */
  ghost predicate CondFrom(s: Shared, d: Id, w: nat)
    requires d in s.descs
  {
    forall a | a in s.mem :: CondNotBefore(s, a, d, w)
  }

  ghost predicate CondNotBefore(s: Shared, a: Addr, d: Id, w: nat)
    requires a in s.mem && d in s.descs
  {
    s.mem[a].Cond? && s.mem[a].id == d ==> Find(s.descs[d].words, a) >= w
  }

  lemma NoCondAt(s: Shared, d: Id, w: nat)
    requires SharedInv(true, s) && d in s.descs && w < |s.descs[d].words| && CondFrom(s, d, w)
    requires var a := s.descs[d].words[w].addr; a != 0 ==> s.mem[a] != Cond(d, w)
    ensures CondFrom(s, d, w + 1)
  {
    forall a | a in s.mem
      ensures CondNotBefore(s, a, d, w + 1)
    {
      assert CondNotBefore(s, a, d, w) && WordOK(true, s.descs, a, s.mem[a]);
      if a == s.descs[d].words[w].addr && a != 0 { PointerAt(s, d, w, a); }
    }
  }

  /** A succeeded operation blocks recovery exactly when one of its CondCAS pointers is left. */
  lemma StaleIffCond(s: Shared, d: Id)
    requires SharedInv(true, s) && d in s.descs && s.descs[d].outcome.Succeeded?
    ensures CondFrom(s, d, |s.descs[d].words|) <==>
            forall a | a in s.mem :: StaleCond(s, a) ==> s.mem[a].id != d
  {
    forall a | a in s.mem
      ensures CondNotBefore(s, a, d, |s.descs[d].words|) <==> (StaleCond(s, a) ==> s.mem[a].id != d)
    {
      assert WordOK(true, s.descs, a, s.mem[a]);
    }
  }

  ghost function Handled(slots: seq<Slot>, i: nat): set<Id>
    requires i <= |slots|
  {
    set k | 0 <= k < i && slots[k].status.InUse? :: slots[k].id
  }

  lemma HandledNext(slots: seq<Slot>, i: nat)
    requires i < |slots|
    requires forall j, k | 0 <= j < k < |slots| :: slots[j].id != slots[k].id
    ensures Handled(slots, i + 1) == Handled(slots, i) + (if slots[i].status.InUse? then {slots[i].id} else {})
    ensures slots[i].id !in Handled(slots, i)
  {
  }

  ghost predicate NoneStaleIn(s: Shared, done: set<Id>) {
    forall a | a in s.mem :: StaleCond(s, a) ==> s.mem[a].id !in done
  }

  class DescriptorPool {
    var mem: map<Addr, Word>
    var slots: seq<Slot>

    /** Roll one unfinished or failed operation back. */
    method RollBack(x: Slot, ghost s: Shared, ghost done: set<Id>)
      requires SharedInv(true, s) && SlotOK(x, s) && x.status.InUse? && x.id !in done
      requires !x.status.outcome.Succeeded? && Whole(s, mem, done)
      modifies `mem
      ensures Whole(s, mem, done + {x.id})
    {
      StartWords(s, mem, done, x.id);
      for w := 0 to |x.words|
        invariant Partial(s, mem, done, x.id, w)
      {
        ghost var before := mem;
        var word := x.words[w];
        if word.addr != 0 {
          PointerAt(s, x.id, w, word.addr);
          if IsPtr(mem[word.addr], x.id) || mem[word.addr] == Cond(x.id, w) {
            mem := mem[word.addr := Plain(word.before, false)];
          }
        }
        NextWord(s, before, done, x.id, w, mem);
      }
      EndWords(s, mem, done, x.id);
    }

    /** Roll one succeeded operation forward; a CondCAS pointer of its own stops recovery. */
    method RollForward(x: Slot, ghost s: Shared, ghost done: set<Id>) returns (ok: bool)
      requires SharedInv(true, s) && SlotOK(x, s) && x.status.InUse? && x.id !in done
      requires x.status.outcome.Succeeded? && Whole(s, mem, done)
      modifies `mem
      ensures ok ==> Whole(s, mem, done + {x.id})
      ensures ok == CondFrom(s, x.id, |x.words|)
    {
      StartWords(s, mem, done, x.id);
      for w := 0 to |x.words|
        invariant Partial(s, mem, done, x.id, w)
        invariant CondFrom(s, x.id, w)
      {
        ghost var before := mem;
        var word := x.words[w];
        if word.addr != 0 {
          PointerAt(s, x.id, w, word.addr);
          if mem[word.addr] == Cond(x.id, w) {
            assert CondNotBefore(s, word.addr, x.id, |x.words|) == false;
            return false;
          }
          if IsPtr(mem[word.addr], x.id) {
            mem := mem[word.addr := Plain(word.after, false)];
          }
        }
        NextWord(s, before, done, x.id, w, mem);
        NoCondAt(s, x.id, w);
      }
      EndWords(s, mem, done, x.id);
      return true;
    }

    /** The closing check: no target word holds the descriptor any more. */
    method NoneLeft(x: Slot, ghost s: Shared, ghost done: set<Id>) returns (ok: bool)
      requires SharedInv(true, s) && SlotOK(x, s) && x.status.InUse? && x.id in done && Whole(s, mem, done)
      ensures ok
    {
      for w := 0 to |x.words| {
        if x.words[w].addr != 0 && IsPtr(mem[x.words[w].addr], x.id) {
          return false;
        }
      }
      return true;
    }

    /** One descriptor of the array. */
    method RecoverSlot(x: Slot, ghost s: Shared, ghost done: set<Id>) returns (ok: bool)
      requires SharedInv(true, s) && SlotOK(x, s) && x.id !in done
      requires Whole(s, mem, done) && NoneStaleIn(s, done)
      modifies `mem
      ensures ok ==> Whole(s, mem, if x.status.InUse? then done + {x.id} else done)
      ensures ok <==> NoneStaleIn(s, if x.status.InUse? then done + {x.id} else done)
    {
      if !x.status.InUse? {
        return true;
      }
      if x.status.outcome.Succeeded? {
        StaleIffCond(s, x.id);
        ok := RollForward(x, s, done);
        if !ok {
          return false;
        }
      } else {
        RollBack(x, s, done);
      }
      ok := NoneLeft(x, s, done + {x.id});
    }

    /** The loop over all descriptors. */
    method RecoverAll(ghost s: Shared) returns (ok: bool)
      requires SharedInv(true, s) && mem == s.mem && Represents(slots, s)
      modifies `mem
      ensures ok <==> NoneZeroed(slots) && NoStaleCond(s)
      ensures ok ==> mem == Recovered(s)
    {
      for i := 0 to |slots|
        invariant NoneZeroed(slots[..i])
        invariant Whole(s, mem, Handled(slots, i)) && NoneStaleIn(s, Handled(slots, i))
      {
        assert SlotOK(slots[i], s);
        HandledNext(slots, i);
        if slots[i].status == Invalid {
          return false;
        }
        ok := RecoverSlot(slots[i], s, Handled(slots, i));
        if !ok {
          return false;
        }
        assert slots[..i + 1] == slots[..i] + [slots[i]];
      }
      assert slots[..|slots|] == slots;
      AllSettled(s, mem, slots);
      return true;
    }

    /**
      A pool whose first descriptor is zeroed is taken for a new one and nothing is done to
      memory. Otherwise recovery succeeds exactly when no descriptor is zeroed and no succeeded
      operation has a CondCAS pointer of its own in memory, and then memory is its logical
      content, whatever the order of the slots.
    */
    method Recover(ghost s: Shared) returns (ok: bool)
      requires SharedInv(true, s) && mem == s.mem && Represents(slots, s)
      modifies this
      ensures old(slots)[0].status == Invalid ==> ok && mem == s.mem
      ensures old(slots)[0].status != Invalid ==>
                (ok <==> (forall i | 0 <= i < |old(slots)| :: old(slots)[i].status != Invalid) && NoStaleCond(s))
      ensures old(slots)[0].status != Invalid && ok ==> mem == Recovered(s)
      ensures ok ==> |slots| == |old(slots)|
      ensures ok ==> forall i | 0 <= i < |slots| :: slots[i] == Slot(old(slots)[i].id, Finished, [])
    {
      if slots[0].status != Invalid {
        ok := RecoverAll(s);
        if !ok {
          return false;
        }
      }
      slots := seq(|slots|, i requires 0 <= i < |slots| reads this => Slot(slots[i].id, Finished, []));
      return true;
    }
  }

  predicate NoneZeroed(slots: seq<Slot>) { forall i | 0 <= i < |slots| :: !slots[i].status.Invalid? }

  /** A new pool, zeroed throughout: there is nothing to recover, memory is its logical content. */
  lemma NewPool(s: Shared, slots: seq<Slot>)
    requires SharedInv(true, s) && Represents(slots, s) && forall i | 0 <= i < |slots| :: slots[i].status.Invalid?
    ensures Recovered(s) == s.mem && NoStaleCond(s)
  {
    forall i | 0 <= i < |slots| ensures slots[i].id !in s.descs { assert SlotOK(slots[i], s); }
    assert s.descs.Keys == {};
    forall a | a in s.mem ensures s.mem[a].Plain? { assert WordOK(true, s.descs, a, s.mem[a]); }
  }

  lemma AllSettled(s: Shared, mem: map<Addr, Word>, slots: seq<Slot>)
    requires SharedInv(true, s) && Represents(slots, s)
    requires Whole(s, mem, Handled(slots, |slots|)) && NoneStaleIn(s, Handled(slots, |slots|))
    ensures mem == Recovered(s) && NoStaleCond(s)
  {
    forall a | a in s.mem && !s.mem[a].Plain?
      ensures s.mem[a].id in Handled(slots, |slots|)
    {
      assert WordOK(true, s.descs, a, s.mem[a]);
      var i :| 0 <= i < |slots| && slots[i].id == s.mem[a].id;
      assert SlotOK(slots[i], s);
    }
  }
}
