/**
  The shared memory of the multi-word compare-and-swap (MwCAS) protocol: target words,
  descriptors, and the atomic instructions that threads may apply to them.

  Everything a thread can do to shared memory is an `Act`. This module shows what each act
  does to the *logical* memory, the one in which a word that holds a descriptor pointer
  stands for the value a reader would eventually be given.
*/
module MwcasShared {

  type Addr = nat      // 0 is kAllocNullAddress: an entry that is never installed
  type Val = nat       // a value with the three management flags clear
  type Id = nat        // a descriptor of the pool
  type Tid = nat

  datatype Outcome = Undecided | Succeeded | Failed

  /** One WordDescriptor. */
  datatype Entry = Entry(addr: Addr, before: Val, after: Val)

  /** A descriptor in use; a descriptor whose status is Finished is simply absent. */
  datatype Desc = Desc(owner: Tid, words: seq<Entry>, outcome: Outcome, dirty: bool)

  /** The content of a target word, decoded from its flag bits. */
  datatype Word =
    | Plain(v: Val, dirty: bool)
    | Cond(id: Id, i: nat)          // pointer to word descriptor i of descriptor id
    | Ptr(id: Id, dirty: bool)      // pointer to the MwCAS descriptor id

  datatype Shared = Shared(mem: map<Addr, Word>, descs: map<Id, Desc>)

  predicate IsPtr(w: Word, d: Id) { w.Ptr? && w.id == d }

  predicate RefersTo(w: Word, d: Id) { !w.Plain? && w.id == d }

  /** The index of the entry for address a, or |ws|. */
  function Find(ws: seq<Entry>, a: Addr): (i: nat)
    ensures i <= |ws|
    ensures i < |ws| ==> ws[i].addr == a
    ensures forall j | 0 <= j < i :: ws[j].addr != a
  {
    if |ws| == 0 || ws[0].addr == a then 0 else 1 + Find(ws[1..], a)
  }

  /** No address twice (except the null address); in persistent mode, in address order. */
  ghost predicate ValidWords(pm: bool, dom: set<Addr>, ws: seq<Entry>) {
    && (forall i | 0 <= i < |ws| :: ws[i].addr != 0 ==> ws[i].addr in dom)
    && (forall i, j | 0 <= i < j < |ws| :: ws[i].addr != 0 ==> ws[i].addr != ws[j].addr)
    && (pm ==> forall i, j | 0 <= i < j < |ws| :: ws[i].addr <= ws[j].addr)
  }

  // ---- Logical memory ----

  function LogicalWord(descs: map<Id, Desc>, a: Addr, w: Word): Val {
    match w
    case Plain(v, _) => v
    case Cond(d, i) =>
      if d in descs && i < |descs[d].words| then descs[d].words[i].before else 0
    case Ptr(d, _) =>
      if d in descs && Find(descs[d].words, a) < |descs[d].words| then
        var e := descs[d].words[Find(descs[d].words, a)];
        if descs[d].outcome.Succeeded? then e.after else e.before
      else 0
  }

  function Logical(s: Shared): map<Addr, Val> {
    map a | a in s.mem :: LogicalWord(s.descs, a, s.mem[a])
  }

  /** The memory after an atomic multi-word swap has stored all new values. */
  function Written(m: map<Addr, Val>, ws: seq<Entry>): map<Addr, Val> {
    map a | a in m :: if a != 0 && Find(ws, a) < |ws| then ws[Find(ws, a)].after else m[a]
  }

  /** Every target word has its expected value. */
  ghost predicate AllOld(m: map<Addr, Val>, ws: seq<Entry>) {
    forall i | 0 <= i < |ws| && ws[i].addr != 0 :: ws[i].addr in m && m[ws[i].addr] == ws[i].before
  }

  // ---- Shared invariant ----

  ghost predicate DescOK(pm: bool, dom: set<Addr>, e: Desc) {
    && ValidWords(pm, dom, e.words)
    && (e.outcome.Undecided? || !pm ==> !e.dirty)
  }

  ghost predicate WordOK(pm: bool, descs: map<Id, Desc>, a: Addr, w: Word) {
    match w
    case Plain(_, dirty) => dirty ==> pm
    case Cond(d, i) => a != 0 && d in descs && i < |descs[d].words| && descs[d].words[i].addr == a
    case Ptr(d, dirty) =>
      a != 0 && d in descs && Find(descs[d].words, a) < |descs[d].words| && (dirty ==> pm)
  }

  /** The first k target words of d hold a pointer to d. */
  ghost predicate InstalledTo(s: Shared, d: Id, k: nat)
    requires d in s.descs && k <= |s.descs[d].words|
  {
    forall j | 0 <= j < k && s.descs[d].words[j].addr != 0 ::
      s.descs[d].words[j].addr in s.mem && IsPtr(s.mem[s.descs[d].words[j].addr], d)
  }

  /** Words are installed in index order while the descriptor is undecided. */
  ghost predicate PrefixAt(s: Shared, a: Addr)
    requires a in s.mem
  {
    var w := s.mem[a];
    !w.Plain? && w.id in s.descs && s.descs[w.id].outcome.Undecided? ==>
      InstalledTo(s, w.id, Find(s.descs[w.id].words, a))
  }

  ghost predicate SharedInv(pm: bool, s: Shared) {
    && (forall d | d in s.descs :: DescOK(pm, s.mem.Keys, s.descs[d]))
    && (forall a | a in s.mem :: WordOK(pm, s.descs, a, s.mem[a]))
    && (forall a | a in s.mem :: PrefixAt(s, a))
  }

  // ---- Atomic instructions ----

  datatype Act =
    | Nop
    | Install(d: Id, i: nat)          // old value -> CondCAS pointer
    | Swap(d: Id, i: nat)             // CondCAS pointer -> descriptor or old value
    | CleanWord(a: Addr)              // clear the dirty bit of a word
    | Finalize(d: Id, i: nat, succ: bool)   // descriptor -> final value
    | Decide(d: Id, o: Outcome)       // Undecided -> o
    | StoreStatus(d: Id, o: Outcome)  // store a status without dirty bit
    | Create(d: Id, e: Desc)
    | Drop(d: Id)

  ghost predicate Enabled(pm: bool, s: Shared, act: Act) {
    match act
    case Nop => true
    case Install(d, i) =>
      && d in s.descs && i < |s.descs[d].words| && s.descs[d].words[i].addr in s.mem
      && s.descs[d].words[i].addr != 0
      && s.mem[s.descs[d].words[i].addr] == Plain(s.descs[d].words[i].before, false)
      && (s.descs[d].outcome.Undecided? ==> InstalledTo(s, d, i))
    case Swap(d, i) =>
      && d in s.descs && i < |s.descs[d].words| && s.descs[d].words[i].addr in s.mem
      && s.mem[s.descs[d].words[i].addr] == Cond(d, i)
    case CleanWord(a) => a in s.mem && !s.mem[a].Cond?
    case Finalize(d, i, succ) =>
      && d in s.descs && i < |s.descs[d].words| && s.descs[d].words[i].addr in s.mem
      && IsPtr(s.mem[s.descs[d].words[i].addr], d)
      && s.descs[d].outcome == (if succ then Succeeded else Failed)
    case Decide(d, o) =>
      && d in s.descs && s.descs[d].outcome.Undecided? && !o.Undecided?
      && (o.Succeeded? ==> InstalledTo(s, d, |s.descs[d].words|))
    case StoreStatus(d, o) => d in s.descs && s.descs[d].outcome == o
    case Create(d, e) =>
      d !in s.descs && DescOK(pm, s.mem.Keys, e) && e.outcome.Undecided?
    case Drop(d) =>
      d in s.descs && forall a | a in s.mem :: !RefersTo(s.mem[a], d)
  }

  function FinalVal(e: Entry, succ: bool): Val {
    if succ then e.after else e.before
  }

  function Apply(pm: bool, s: Shared, act: Act): Shared {
    match act
    case Nop => s
    case Install(d, i) =>
      if d in s.descs && i < |s.descs[d].words| then
        s.(mem := s.mem[s.descs[d].words[i].addr := Cond(d, i)])
      else s
    case Swap(d, i) =>
      if d in s.descs && i < |s.descs[d].words| then
        var e := s.descs[d];
        s.(mem := s.mem[e.words[i].addr :=
          if e.outcome.Undecided? then Ptr(d, pm) else Plain(e.words[i].before, false)])
      else s
    case CleanWord(a) =>
      if a in s.mem && !s.mem[a].Cond? then s.(mem := s.mem[a := s.mem[a].(dirty := false)]) else s
    case Finalize(d, i, succ) =>
      if d in s.descs && i < |s.descs[d].words| then
        s.(mem := s.mem[s.descs[d].words[i].addr := Plain(FinalVal(s.descs[d].words[i], succ), pm)])
      else s
    case Decide(d, o) =>
      if d in s.descs then
        s.(descs := s.descs[d := s.descs[d].(outcome := o, dirty := pm)])
      else s
    case StoreStatus(d, o) =>
      if d in s.descs then s.(descs := s.descs[d := s.descs[d].(outcome := o, dirty := false)]) else s
    case Create(d, e) => s.(descs := s.descs[d := e])
    case Drop(d) => s.(descs := s.descs - {d})
  }

  // ---- What other threads may rely on ----

  ghost predicate DescEvolves(e: Desc, e': Desc) {
    && e'.words == e.words && e'.owner == e.owner
    && (!e.outcome.Undecided? ==> e'.outcome == e.outcome && (e'.dirty ==> e.dirty))
  }

  ghost predicate WordEvolves(s: Shared, s': Shared, a: Addr)
    requires a in s.mem && a in s'.mem
  {
    var w, w' := s.mem[a], s'.mem[a];
    // a pointer of an undecided descriptor stays, a CondCAS pointer can only turn into it
    && (!w.Plain? && w.id in s'.descs && s'.descs[w.id].outcome.Undecided? ==>
          IsPtr(w', w.id) || (w.Cond? && w' == w))
    // a decided descriptor is not installed any more
    && (w'.Ptr? && w'.id in s.descs && !s.descs[w'.id].outcome.Undecided? ==>
          IsPtr(w, w'.id) && (w'.dirty ==> w.dirty))
  }

  ghost predicate Rely(s: Shared, s': Shared) {
    && s'.mem.Keys == s.mem.Keys
    && (forall d | d in s.descs && d in s'.descs :: DescEvolves(s.descs[d], s'.descs[d]))
    && (forall a | a in s.mem :: WordEvolves(s, s', a))
  }

  // ---- Proofs ----

  /** In valid words an address determines its index. */
  lemma FindIs(pm: bool, dom: set<Addr>, ws: seq<Entry>, i: nat)
    requires ValidWords(pm, dom, ws) && i < |ws| && ws[i].addr != 0
    ensures Find(ws, ws[i].addr) == i
  {
  }

  /** Installed words stay installed when a write respects pointers to d. */
  lemma InstalledAfterWrite(s: Shared, a: Addr, w: Word, d: Id, k: nat)
    requires a in s.mem && d in s.descs && k <= |s.descs[d].words| && InstalledTo(s, d, k)
    requires IsPtr(s.mem[a], d) ==> IsPtr(w, d)
    ensures InstalledTo(s.(mem := s.mem[a := w]), d, k)
  {
  }

  lemma PrefixAfterWrite(s: Shared, a: Addr, w: Word, b: Addr)
    requires a in s.mem && b in s.mem && PrefixAt(s, b)
    requires !w.Plain? && w.id in s.descs && s.descs[w.id].outcome.Undecided? ==>
               InstalledTo(s, w.id, Find(s.descs[w.id].words, a))
    requires s.mem[a].Ptr? && s.mem[a].id in s.descs && s.descs[s.mem[a].id].outcome.Undecided? ==>
               IsPtr(w, s.mem[a].id)
    ensures PrefixAt(s.(mem := s.mem[a := w]), b)
  {
    var x := s.mem[a := w][b];
    if !x.Plain? && x.id in s.descs && s.descs[x.id].outcome.Undecided? {
      InstalledAfterWrite(s, a, w, x.id, Find(s.descs[x.id].words, b));
    }
  }

  /** A change of one word keeps the invariant if the new content is right. */
  lemma WriteKeepsInv(pm: bool, s: Shared, a: Addr, w: Word)
    requires SharedInv(pm, s) && a in s.mem
    requires WordOK(pm, s.descs, a, w)
    requires !w.Plain? && s.descs[w.id].outcome.Undecided? ==>
               InstalledTo(s, w.id, Find(s.descs[w.id].words, a))
    requires s.mem[a].Ptr? && s.descs[s.mem[a].id].outcome.Undecided? ==> IsPtr(w, s.mem[a].id)
    ensures SharedInv(pm, s.(mem := s.mem[a := w]))
  {
    var s' := s.(mem := s.mem[a := w]);
    assert s'.mem.Keys == s.mem.Keys;
    forall b | b in s'.mem
      ensures PrefixAt(s', b)
    {
      PrefixAfterWrite(s, a, w, b);
    }
  }

  lemma ActKeepsInv(pm: bool, s: Shared, act: Act)
    requires SharedInv(pm, s) && Enabled(pm, s, act)
    ensures SharedInv(pm, Apply(pm, s, act))
  {
    var s' := Apply(pm, s, act);
    match act
    case Nop =>
    case Install(d, i) =>
      FindIs(pm, s.mem.Keys, s.descs[d].words, i);
      WriteKeepsInv(pm, s, s.descs[d].words[i].addr, Cond(d, i));
    case Swap(d, i) =>
      var a := s.descs[d].words[i].addr;
      assert PrefixAt(s, a);
      WriteKeepsInv(pm, s, a, s'.mem[a]);
    case CleanWord(a) =>
      assert PrefixAt(s, a);
      WriteKeepsInv(pm, s, a, s'.mem[a]);
    case Finalize(d, i, _) =>
      WriteKeepsInv(pm, s, s.descs[d].words[i].addr, s'.mem[s.descs[d].words[i].addr]);
    case Decide(d, _) => StatusKeepsInv(pm, s, d, s'.descs[d]);
    case StoreStatus(d, _) => StatusKeepsInv(pm, s, d, s'.descs[d]);
    case Create(d, e) =>
      forall a | a in s.mem
        ensures PrefixAt(s', a)
      {
        assert PrefixAt(s, a);
        assert WordOK(pm, s.descs, a, s.mem[a]);
      }
    case Drop(d) =>
      forall a | a in s.mem
        ensures WordOK(pm, s'.descs, a, s.mem[a]) && PrefixAt(s', a)
      {
        assert PrefixAt(s, a);
        assert !RefersTo(s.mem[a], d);
      }
  }

  lemma StatusKeepsInv(pm: bool, s: Shared, d: Id, e: Desc)
    requires SharedInv(pm, s) && d in s.descs
    requires e.words == s.descs[d].words
    requires DescOK(pm, s.mem.Keys, e)
    requires e.outcome.Undecided? ==> s.descs[d].outcome.Undecided?
    ensures SharedInv(pm, s.(descs := s.descs[d := e]))
  {
    var s' := s.(descs := s.descs[d := e]);
    forall a | a in s.mem
      ensures PrefixAt(s', a)
    {
      assert PrefixAt(s, a);
    }
  }

  /** Writing one word is within the rely if the changed word evolves properly. */
  lemma WriteGuarantees(s: Shared, a: Addr, w: Word)
    requires a in s.mem
    requires WordEvolves(s, s.(mem := s.mem[a := w]), a)
    ensures Rely(s, s.(mem := s.mem[a := w]))
  {
    var s' := s.(mem := s.mem[a := w]);
    assert s'.mem.Keys == s.mem.Keys;
  }

  /** So is a change of one status that respects an earlier decision. */
  lemma StatusGuarantees(s: Shared, d: Id, e: Desc)
    requires d in s.descs && DescEvolves(s.descs[d], e)
    ensures Rely(s, s.(descs := s.descs[d := e]))
  {
  }

  lemma ActGuarantees(pm: bool, s: Shared, act: Act)
    requires SharedInv(pm, s) && Enabled(pm, s, act)
    ensures Rely(s, Apply(pm, s, act))
  {
    var s' := Apply(pm, s, act);
    match act
    case Nop =>
    case Install(d, i) => WriteGuarantees(s, s.descs[d].words[i].addr, Cond(d, i));
    case Swap(d, i) =>
      var a := s.descs[d].words[i].addr;
      WriteGuarantees(s, a, s'.mem[a]);
    case CleanWord(a) => WriteGuarantees(s, a, s'.mem[a]);
    case Finalize(d, i, _) =>
      var a := s.descs[d].words[i].addr;
      WriteGuarantees(s, a, s'.mem[a]);
    case Decide(d, _) => StatusGuarantees(s, d, s'.descs[d]);
    case StoreStatus(d, _) => StatusGuarantees(s, d, s'.descs[d]);
    case Create(d, e) =>
      forall a | a in s.mem
        ensures WordEvolves(s, s', a)
      {
        assert WordOK(pm, s.descs, a, s.mem[a]);
      }
    case Drop(d) =>
  }

  // ---- Logical effect ----

  /** Storing a word with the same meaning does not change logical memory. */
  lemma SameMeaning(s: Shared, a: Addr, w: Word)
    requires a in s.mem && LogicalWord(s.descs, a, w) == LogicalWord(s.descs, a, s.mem[a])
    ensures Logical(s.(mem := s.mem[a := w])) == Logical(s)
  {
  }

  predicate Commits(act: Act) { act.Decide? && act.o.Succeeded? }

  /** A CondCAS pointer, the descriptor and the final value all mean the same. */
  lemma WriteOnLogical(pm: bool, s: Shared, act: Act)
    requires SharedInv(pm, s) && Enabled(pm, s, act)
    requires act.Install? || act.Swap? || act.Finalize?
    ensures Logical(Apply(pm, s, act)) == Logical(s)
  {
    var a := s.descs[act.d].words[act.i].addr;
    assert WordOK(pm, s.descs, a, s.mem[a]);
    FindIs(pm, s.mem.Keys, s.descs[act.d].words, act.i);
    SameMeaning(s, a, Apply(pm, s, act).mem[a]);
  }

  /** Adding or removing a descriptor that no word refers to changes no meaning. */
  lemma PoolOnLogical(pm: bool, s: Shared, act: Act)
    requires SharedInv(pm, s) && Enabled(pm, s, act)
    requires act.Create? || act.Drop?
    ensures Logical(Apply(pm, s, act)) == Logical(s)
  {
    forall a | a in s.mem
      ensures LogicalWord(Apply(pm, s, act).descs, a, s.mem[a]) == LogicalWord(s.descs, a, s.mem[a])
    {
      assert WordOK(pm, s.descs, a, s.mem[a]);
    }
  }

  /**
    Every instruction leaves logical memory as it is, except the one that decides a
    descriptor Succeeded: it finds all expected values in place and stores all new ones.
  */
  lemma ActOnLogical(pm: bool, s: Shared, act: Act)
    requires SharedInv(pm, s) && Enabled(pm, s, act)
    ensures !Commits(act) ==> Logical(Apply(pm, s, act)) == Logical(s)
    ensures Commits(act) ==>
              && act.d in s.descs
              && AllOld(Logical(s), s.descs[act.d].words)
              && Logical(Apply(pm, s, act)) == Written(Logical(s), s.descs[act.d].words)
  {
    match act
    case Nop =>
    case Install(_, _) => WriteOnLogical(pm, s, act);
    case Swap(_, _) => WriteOnLogical(pm, s, act);
    case Finalize(_, _, _) => WriteOnLogical(pm, s, act);
    case CleanWord(a) => SameMeaning(s, a, Apply(pm, s, act).mem[a]);
    case Decide(d, o) =>
      if o.Succeeded? {
        CommitFindsOld(pm, s, d);
        CommitSwapsAll(pm, s, d);
      }
    case StoreStatus(d, _) =>
    case Create(_, _) => PoolOnLogical(pm, s, act);
    case Drop(_) => PoolOnLogical(pm, s, act);
  }

  lemma CommitFindsOld(pm: bool, s: Shared, d: Id)
    requires SharedInv(pm, s) && Enabled(pm, s, Decide(d, Succeeded))
    ensures AllOld(Logical(s), s.descs[d].words)
  {
    var ws := s.descs[d].words;
    forall i | 0 <= i < |ws| && ws[i].addr != 0
      ensures ws[i].addr in s.mem && Logical(s)[ws[i].addr] == ws[i].before
    {
      FindIs(pm, s.mem.Keys, ws, i);
      assert IsPtr(s.mem[ws[i].addr], d);
    }
  }

  lemma CommitSwapsAll(pm: bool, s: Shared, d: Id)
    requires SharedInv(pm, s) && Enabled(pm, s, Decide(d, Succeeded))
    ensures Logical(Apply(pm, s, Decide(d, Succeeded))) == Written(Logical(s), s.descs[d].words)
  {
    var s' := Apply(pm, s, Decide(d, Succeeded));
    var ws := s.descs[d].words;
    forall a | a in s.mem
      ensures LogicalWord(s'.descs, a, s.mem[a]) == Written(Logical(s), ws)[a]
    {
      assert WordOK(pm, s.descs, a, s.mem[a]);
      if a != 0 && Find(ws, a) < |ws| {
        assert IsPtr(s.mem[ws[Find(ws, a)].addr], d);
      }
    }
  }
}
