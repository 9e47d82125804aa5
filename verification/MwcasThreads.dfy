/**
  The threads of the MwCAS protocol: owners executing MwCAS(), helpers executing it on
  behalf of others (nested to any depth), and readers executing GetValue().

  One flag, `pm`, selects the persistent variant (PersistentMwCAS, GetValueProtectedPersistent)
  or the volatile one (VolatileMwCAS, GetValueProtectedVolatile). A thread is a stack of
  frames; only the top frame runs, and each of its steps applies one atomic instruction.
*/
module MwcasThreads {
  import opened MwcasShared

  datatype Pc =
    | Start                                // helper: test the status
    | StartClean(o: Outcome)               // helper: clear the dirty bit of the status it saw
    | Inst(i: nat)                         // CondCAS of word i: install the CondCAS pointer
    | SwapOwn(i: nat)                      // CondCAS: replace the own CondCAS pointer
    | SwapOther(i: nat, id: Id, j: nat)    // CondCAS: replace the CondCAS pointer that was found
    | Persist(i: nat)                      // persist word i, then clear its dirty bit
    | Deciding(o: Outcome)                 // CAS the status
    | ClearLoad                            // load half of "status &= ~dirty"
    | ClearStore(o: Outcome)               // store half of it
    | ReadOutcome
    | Final(i: nat, succ: bool)            // CAS the final value over the descriptor
    | FinalClean(i: nat, succ: bool)       // the same over a descriptor without dirty bit
    | FinalDirty(i: nat, succ: bool)       // clear the dirty bit of the final value
    | Done(result: bool)

  datatype ReadPc =
    | Load
    | ReadSwap(id: Id, j: nat)             // replace the CondCAS pointer that was loaded
    | ReadClean(w: Word)                   // clear the dirty bit of the word that was loaded
    | ReadDone(v: Val)

  datatype Frame =
    | Op(d: Id, own: bool, pc: Pc)
    | Read(a: Addr, rpc: ReadPc)

  /** What one step of a frame does: continue, call a helper for d, or return. */
  datatype Out =
    | Next(act: Act, f: Frame)
    | Help(act: Act, f: Frame, d: Id)
    | Return

  /** Descriptors a frame holds a pointer to. */
  function Refs(f: Frame): set<Id> {
    match f
    case Op(d, _, SwapOther(_, id, _)) => {d, id}
    case Op(d, _, _) => {d}
    case Read(_, ReadSwap(id, _)) => {id}
    case Read(_, ReadClean(Ptr(id, _))) => {id}
    case Read(_, _) => {}
  }

  predicate IndexOK(s: Shared, d: Id, i: nat) {
    d in s.descs && i < |s.descs[d].words|
    && s.descs[d].words[i].addr != 0 && s.descs[d].words[i].addr in s.mem
  }

  predicate LoopOK(s: Shared, d: Id, i: nat) {
    d in s.descs && i <= |s.descs[d].words|
    && (i < |s.descs[d].words| && s.descs[d].words[i].addr != 0 ==> IndexOK(s, d, i))
  }

  predicate FrameWF(s: Shared, f: Frame) {
    match f
    case Op(d, _, pc) =>
      d in s.descs &&
      (match pc
       case Inst(i) => LoopOK(s, d, i)
       case SwapOwn(i) => IndexOK(s, d, i)
       case SwapOther(i, id, _) => IndexOK(s, d, i) && id in s.descs
       case Persist(i) => LoopOK(s, d, i)
       case Final(i, _) => LoopOK(s, d, i)
       case FinalClean(i, _) => IndexOK(s, d, i)
       case FinalDirty(i, _) => IndexOK(s, d, i)
       case _ => true)
    case Read(a, rpc) => a in s.mem
  }

  function OpStep(pm: bool, s: Shared, f: Frame): Out
    requires f.Op? && FrameWF(s, f)
  {
    var d, e := f.d, s.descs[f.d];
    match f.pc
    case Start =>
      if e.outcome.Undecided? then Next(Nop, f.(pc := Inst(0)))
      else if e.dirty then Next(Nop, f.(pc := StartClean(e.outcome)))
      else Next(Nop, f.(pc := Done(e.outcome.Succeeded?)))
    case StartClean(o) =>
      Next(if e.outcome == o && e.dirty then StoreStatus(d, o) else Nop,
           f.(pc := Done(o.Succeeded?)))
    case Inst(i) => InstStep(pm, s, f, i)
    case SwapOwn(i) =>
      Next(if s.mem[e.words[i].addr] == Cond(d, i) then Swap(d, i) else Nop, f.(pc := Inst(i + 1)))
    case SwapOther(i, id, j) =>
      if s.mem[e.words[i].addr] != Cond(id, j) || !s.descs[id].outcome.Undecided? then
        // word changed in between, or the old value goes back: retry
        Next(if s.mem[e.words[i].addr] == Cond(id, j) then Swap(id, j) else Nop, f.(pc := Inst(i)))
      else if id == d then Next(Swap(id, j), f.(pc := Inst(i + 1)))
      else if pm then Next(Swap(id, j), f.(pc := Inst(i)))    // dirty descriptor: retry
      else Help(Swap(id, j), f.(pc := Inst(i)), id)
    case Persist(i) =>
      if i == |e.words| then Next(Nop, f.(pc := Deciding(Succeeded)))
      else if e.words[i].addr == 0 then Next(Nop, f.(pc := Persist(i + 1)))
      else Next(if s.mem[e.words[i].addr] == Ptr(d, true) then CleanWord(e.words[i].addr) else Nop,
                f.(pc := Persist(i + 1)))
    case Deciding(o) =>
      Next(if e.outcome.Undecided? then Decide(d, o) else Nop,
           f.(pc := if pm then ClearLoad else ReadOutcome))
    case ClearLoad => Next(Nop, f.(pc := ClearStore(e.outcome)))
    case ClearStore(o) => Next(StoreStatus(d, o), f.(pc := ReadOutcome))
    case ReadOutcome => Next(Nop, f.(pc := Final(0, e.outcome.Succeeded? && !e.dirty)))
    case Final(i, succ) => FinalStep(pm, s, f, i, succ)
    case FinalClean(i, succ) =>
      Next(if s.mem[e.words[i].addr] == Ptr(d, false) then Finalize(d, i, succ) else Nop,
           f.(pc := FinalDirty(i, succ)))
    case FinalDirty(i, succ) =>
      Next(if s.mem[e.words[i].addr] == Plain(FinalVal(e.words[i], succ), true)
           then CleanWord(e.words[i].addr) else Nop,
           f.(pc := Final(i + 1, succ)))
    case Done(_) => Return
  }

  /** The first CAS of CondCAS on word i, and what MwCAS does with the value it returns. */
  function InstStep(pm: bool, s: Shared, f: Frame, i: nat): Out
    requires f.Op? && LoopOK(s, f.d, i)
  {
    var d, e := f.d, s.descs[f.d];
    if i == |e.words| then Next(Nop, f.(pc := if pm then Persist(0) else Deciding(Succeeded)))
    else if e.words[i].addr == 0 then Next(Nop, f.(pc := Inst(i + 1)))
    else
      var w := s.mem[e.words[i].addr];
      if w == Plain(e.words[i].before, false) then Next(Install(d, i), f.(pc := SwapOwn(i)))
      else if w.Cond? then Next(Nop, f.(pc := SwapOther(i, w.id, w.i)))
      else if IsPtr(w, d) then Next(Nop, f.(pc := Inst(i + 1)))
      else if pm && w.dirty then Next(Nop, f.(pc := Inst(i)))
      else if w.Ptr? then Help(Nop, f.(pc := Inst(i)), w.id)
      else Next(Nop, f.(pc := Deciding(Failed)))
  }

  /** The first CAS of the final-value loop on word i. */
  function FinalStep(pm: bool, s: Shared, f: Frame, i: nat, succ: bool): Out
    requires f.Op? && LoopOK(s, f.d, i)
  {
    var d, e := f.d, s.descs[f.d];
    if i == |e.words| then
      Next(Nop, f.(pc := Done(if f.own then e.outcome.Succeeded? else succ)))
    else if e.words[i].addr == 0 then Next(Nop, f.(pc := Final(i + 1, succ)))
    else
      var w := s.mem[e.words[i].addr];
      if w == Ptr(d, pm) then
        Next(Finalize(d, i, succ), f.(pc := if pm then FinalDirty(i, succ) else Final(i + 1, succ)))
      else if !pm then Next(Nop, f.(pc := Final(i + 1, succ)))
      else Next(Nop, f.(pc := if w == Ptr(d, false) then FinalClean(i, succ) else FinalDirty(i, succ)))
  }

  function ReadStep(s: Shared, f: Frame): Out
    requires f.Read? && FrameWF(s, f)
  {
    var w := s.mem[f.a];
    match f.rpc
    case Load =>
      if w.Cond? then Next(Nop, f.(rpc := ReadSwap(w.id, w.i)))
      else if w.dirty then Next(Nop, f.(rpc := ReadClean(w)))
      else if w.Ptr? then Help(Nop, f, w.id)
      else Next(Nop, f.(rpc := ReadDone(w.v)))
    case ReadSwap(id, j) =>
      Next(if w == Cond(id, j) then Swap(id, j) else Nop, f.(rpc := Load))
    case ReadClean(x) =>
      var act := if w == x then CleanWord(f.a) else Nop;
      (match x
       case Ptr(id, _) => Help(act, f.(rpc := Load), id)
       case Plain(v, _) => Next(act, f.(rpc := ReadDone(v)))
       case Cond(_, _) => Next(Nop, f.(rpc := Load)))
    case ReadDone(_) => Return
  }

  function FrameStep(pm: bool, s: Shared, f: Frame): Out
    requires FrameWF(s, f)
  {
    if f.Op? then OpStep(pm, s, f) else ReadStep(s, f)
  }

  // ---- Frame assertions ----

  ghost predicate Undec(s: Shared, d: Id) { d in s.descs && s.descs[d].outcome.Undecided? }

  ghost predicate Decided(s: Shared, d: Id, succ: bool) {
    d in s.descs && s.descs[d].outcome == (if succ then Succeeded else Failed)
  }

  /** The first k words are installed unless the operation has been decided meanwhile. */
  ghost predicate Installed(s: Shared, d: Id, k: nat) {
    d in s.descs && k <= |s.descs[d].words| && (Undec(s, d) ==> InstalledTo(s, d, k))
  }

  /** The first k target words do not hold d. */
  ghost predicate Gone(s: Shared, d: Id, k: nat) {
    d in s.descs && k <= |s.descs[d].words| &&
    forall j | 0 <= j < k && s.descs[d].words[j].addr != 0 ::
      s.descs[d].words[j].addr in s.mem && !IsPtr(s.mem[s.descs[d].words[j].addr], d)
  }

  ghost predicate OpOK(s: Shared, d: Id, own: bool, pc: Pc)
    requires d in s.descs
  {
    var e := s.descs[d];
    match pc
    case Start => !own
    case StartClean(o) => !own && e.outcome == o && !o.Undecided?
    case Inst(i) => Installed(s, d, i)
    case SwapOwn(i) =>
      && Installed(s, d, i) && IndexOK(s, d, i)
      && (Undec(s, d) ==> IsPtr(s.mem[e.words[i].addr], d) || s.mem[e.words[i].addr] == Cond(d, i))
    case SwapOther(i, id, j) =>
      && Installed(s, d, i) && IndexOK(s, d, i) && IndexOK(s, id, j)
      && s.descs[id].words[j].addr == e.words[i].addr
    case Persist(i) => i <= |e.words| && Installed(s, d, |e.words|)
    case Deciding(o) => !o.Undecided? && (o.Succeeded? ==> Installed(s, d, |e.words|))
    case ClearLoad => !e.outcome.Undecided?
    case ClearStore(o) => e.outcome == o && !o.Undecided?
    case ReadOutcome => !e.outcome.Undecided? && !e.dirty
    case Final(i, succ) => Decided(s, d, succ) && !e.dirty && Gone(s, d, i)
    case FinalClean(i, succ) =>
      && Decided(s, d, succ) && !e.dirty && Gone(s, d, i) && IndexOK(s, d, i)
      && s.mem[e.words[i].addr] != Ptr(d, true)
    case FinalDirty(i, succ) =>
      Decided(s, d, succ) && !e.dirty && IndexOK(s, d, i) && Gone(s, d, i + 1)
    case Done(r) => Decided(s, d, r) && !e.dirty && (own ==> Gone(s, d, |e.words|))
  }

  ghost predicate ReadOK(s: Shared, a: Addr, rpc: ReadPc) {
    a in s.mem &&
    match rpc
    case ReadSwap(id, j) => IndexOK(s, id, j) && s.descs[id].words[j].addr == a
    case ReadClean(w) => !w.Cond? && (w.Ptr? ==> w.id in s.descs && (Undec(s, w.id) ==> IsPtr(s.mem[a], w.id)))
    case _ => true
  }

  ghost predicate FrameOK(s: Shared, f: Frame) {
    match f
    case Op(d, own, pc) => d in s.descs && OpOK(s, d, own, pc)
    case Read(a, rpc) => ReadOK(s, a, rpc)
  }

  lemma FrameOKIsWF(pm: bool, s: Shared, f: Frame)
    requires SharedInv(pm, s) && FrameOK(s, f)
    ensures FrameWF(s, f)
  {
    if f.Op? {
      assert DescOK(pm, s.mem.Keys, s.descs[f.d]);
    }
  }

  /** Frame assertions survive everything other threads do. */
  lemma FrameStable(s: Shared, s': Shared, f: Frame)
    requires FrameOK(s, f) && Rely(s, s')
    requires forall d | d in Refs(f) :: d in s'.descs
    ensures FrameOK(s', f)
  {
    if f.Op? {
      assert f.d in Refs(f);
      assert DescEvolves(s.descs[f.d], s'.descs[f.d]);
      OpStable(s, s', f.d, f.own, f.pc);
    } else {
      assert WordEvolves(s, s', f.a);
    }
  }

  lemma InstalledStable(s: Shared, s': Shared, d: Id, k: nat)
    requires Rely(s, s') && d in s'.descs && Installed(s, d, k)
    ensures Installed(s', d, k)
  {
    assert DescEvolves(s.descs[d], s'.descs[d]);
    if Undec(s', d) {
      forall j | 0 <= j < k && s.descs[d].words[j].addr != 0
        ensures IsPtr(s'.mem[s.descs[d].words[j].addr], d)
      {
        assert WordEvolves(s, s', s.descs[d].words[j].addr);
      }
    }
  }

  lemma GoneStable(s: Shared, s': Shared, d: Id, k: nat)
    requires Rely(s, s') && d in s'.descs && Gone(s, d, k) && !Undec(s, d)
    ensures Gone(s', d, k)
  {
    assert DescEvolves(s.descs[d], s'.descs[d]);
    forall j | 0 <= j < k && s.descs[d].words[j].addr != 0
      ensures !IsPtr(s'.mem[s.descs[d].words[j].addr], d)
    {
      assert WordEvolves(s, s', s.descs[d].words[j].addr);
    }
  }

  lemma OpStable(s: Shared, s': Shared, d: Id, own: bool, pc: Pc)
    requires d in s.descs && OpOK(s, d, own, pc) && Rely(s, s') && d in s'.descs
    requires pc.SwapOther? ==> pc.id in s'.descs
    ensures OpOK(s', d, own, pc)
  {
    var e := s.descs[d];
    assert DescEvolves(e, s'.descs[d]);
    match pc
    case Inst(i) => InstalledStable(s, s', d, i);
    case SwapOwn(i) =>
      InstalledStable(s, s', d, i);
      assert WordEvolves(s, s', e.words[i].addr);
    case SwapOther(i, id, j) =>
      InstalledStable(s, s', d, i);
      assert DescEvolves(s.descs[id], s'.descs[id]);
    case Persist(i) => InstalledStable(s, s', d, |e.words|);
    case Deciding(o) => if o.Succeeded? { InstalledStable(s, s', d, |e.words|); }
    case Final(i, _) => GoneStable(s, s', d, i);
    case FinalClean(i, _) =>
      GoneStable(s, s', d, i);
      assert WordEvolves(s, s', e.words[i].addr);
    case FinalDirty(i, _) => GoneStable(s, s', d, i + 1);
    case Done(_) => if own { GoneStable(s, s', d, |e.words|); }
    case _ =>
  }

  // ---- One step of a frame ----

  /** The result of a step fits: its instruction is enabled, its frame assertion holds after it. */
  ghost predicate OutOK(pm: bool, s: Shared, f: Frame, o: Out) {
    match o
    case Next(act, g) =>
      && Enabled(pm, s, act) && !act.Create? && !act.Drop?
      && FrameOK(Apply(pm, s, act), g) && SameCall(f, g)
    case Help(act, g, d) =>
      && Enabled(pm, s, act) && !act.Create? && !act.Drop?
      && FrameOK(Apply(pm, s, act), g) && SameCall(f, g)
      && LinkOK(Apply(pm, s, act), g, d)
      && (g.Op? ==> d != g.d && IsPtr(Apply(pm, s, act).mem[BlockAddr(Apply(pm, s, act), g)], d))
    case Return => f.Op? ==> f.pc.Done?
  }

  predicate SameCall(f: Frame, g: Frame) {
    match f
    case Op(d, own, _) => g.Op? && g.d == d && g.own == own
    case Read(a, _) => g.Read? && g.a == a
  }

  predicate CanBlock(s: Shared, f: Frame) {
    match f
    case Op(d, _, pc) => pc.Inst? && IndexOK(s, d, pc.i)
    case Read(a, rpc) => rpc.Load? && a in s.mem
  }

  /** The address at which a frame met the operation it now helps. */
  function BlockAddr(s: Shared, f: Frame): Addr
    requires CanBlock(s, f)
  {
    match f
    case Op(d, _, pc) => s.descs[d].words[pc.i].addr
    case Read(a, _) => a
  }

  /** While the helped operation is undecided it stays installed where it was met. */
  ghost predicate LinkOK(s: Shared, f: Frame, d: Id) {
    CanBlock(s, f) && d in s.descs && (Undec(s, d) ==> IsPtr(s.mem[BlockAddr(s, f)], d))
  }

  lemma InstallOK(pm: bool, s: Shared, d: Id, i: nat)
    requires SharedInv(pm, s) && IndexOK(s, d, i) && Installed(s, d, i)
    requires s.mem[s.descs[d].words[i].addr] == Plain(s.descs[d].words[i].before, false)
    ensures Enabled(pm, s, Install(d, i))
    ensures Installed(Apply(pm, s, Install(d, i)), d, i)
  {
    ActGuarantees(pm, s, Install(d, i));
    InstalledStable(s, Apply(pm, s, Install(d, i)), d, i);
  }

  lemma InstStepOK(pm: bool, s: Shared, f: Frame)
    requires SharedInv(pm, s) && FrameOK(s, f) && FrameWF(s, f) && f.Op? && f.pc.Inst?
    ensures OutOK(pm, s, f, InstStep(pm, s, f, f.pc.i))
  {
    var d, i := f.d, f.pc.i;
    var ws := s.descs[d].words;
    if i < |ws| && ws[i].addr != 0 {
      assert WordOK(pm, s.descs, ws[i].addr, s.mem[ws[i].addr]);
      if s.mem[ws[i].addr] == Plain(ws[i].before, false) {
        InstallOK(pm, s, d, i);
      }
    }
  }

  lemma SwapOwnStepOK(pm: bool, s: Shared, f: Frame)
    requires SharedInv(pm, s) && FrameOK(s, f) && FrameWF(s, f) && f.Op? && f.pc.SwapOwn?
    ensures OutOK(pm, s, f, OpStep(pm, s, f))
  {
    var o := OpStep(pm, s, f);
    ActGuarantees(pm, s, o.act);
    InstalledStable(s, Apply(pm, s, o.act), f.d, f.pc.i);
  }

  lemma SwapOtherStepOK(pm: bool, s: Shared, f: Frame)
    requires SharedInv(pm, s) && FrameOK(s, f) && FrameWF(s, f) && f.Op? && f.pc.SwapOther?
    ensures OutOK(pm, s, f, OpStep(pm, s, f))
  {
    var d, i, id, j := f.d, f.pc.i, f.pc.id, f.pc.j;
    if s.mem[s.descs[d].words[i].addr] == Cond(id, j) {
      FoundCondStepOK(pm, s, d, i, id, j);
    }
  }

  /** Replacing the CondCAS pointer found at word i of d keeps what is known of d. */
  lemma FoundCondStepOK(pm: bool, s: Shared, d: Id, i: nat, id: Id, j: nat)
    requires SharedInv(pm, s) && IndexOK(s, d, i) && IndexOK(s, id, j) && Installed(s, d, i)
    requires s.descs[id].words[j].addr == s.descs[d].words[i].addr
    requires s.mem[s.descs[d].words[i].addr] == Cond(id, j)
    ensures Enabled(pm, s, Swap(id, j))
    ensures Installed(Apply(pm, s, Swap(id, j)), d, i)
    ensures id == d ==> j == i && Installed(Apply(pm, s, Swap(id, j)), d, i + 1)
  {
    var s' := Apply(pm, s, Swap(id, j));
    ActGuarantees(pm, s, Swap(id, j));
    InstalledStable(s, s', d, i);
    FindIs(pm, s.mem.Keys, s.descs[d].words, i);
    FindIs(pm, s.mem.Keys, s.descs[id].words, j);
  }

  /** Putting the final value over the descriptor at word i. */
  lemma FinalizeOK(pm: bool, s: Shared, d: Id, i: nat, succ: bool)
    requires SharedInv(pm, s) && IndexOK(s, d, i) && Decided(s, d, succ) && Gone(s, d, i)
    requires IsPtr(s.mem[s.descs[d].words[i].addr], d)
    ensures Enabled(pm, s, Finalize(d, i, succ))
    ensures Gone(Apply(pm, s, Finalize(d, i, succ)), d, i + 1)
  {
    ActGuarantees(pm, s, Finalize(d, i, succ));
    GoneStable(s, Apply(pm, s, Finalize(d, i, succ)), d, i);
  }

  /** After a final-value CAS that does not find d, word i is done. */
  lemma SkippedIsGone(s: Shared, d: Id, i: nat)
    requires Gone(s, d, i) && i < |s.descs[d].words|
    requires s.descs[d].words[i].addr == 0 ||
             (s.descs[d].words[i].addr in s.mem && !IsPtr(s.mem[s.descs[d].words[i].addr], d))
    ensures Gone(s, d, i + 1)
  {
  }

  lemma FinalStepOK(pm: bool, s: Shared, f: Frame)
    requires FrameOK(s, f) && FrameWF(s, f) && f.Op? && f.pc.Final?
    requires var ws := s.descs[f.d].words; f.pc.i < |ws| && ws[f.pc.i].addr != 0 ==>
               && WordOK(pm, s.descs, ws[f.pc.i].addr, s.mem[ws[f.pc.i].addr])
               && (IsPtr(s.mem[ws[f.pc.i].addr], f.d) ==>
                     && Enabled(pm, s, Finalize(f.d, f.pc.i, f.pc.succ))
                     && Gone(Apply(pm, s, Finalize(f.d, f.pc.i, f.pc.succ)), f.d, f.pc.i + 1))
    ensures OutOK(pm, s, f, FinalStep(pm, s, f, f.pc.i, f.pc.succ))
  {
    var ws := s.descs[f.d].words;
    if f.pc.i < |ws| && (ws[f.pc.i].addr == 0 || !IsPtr(s.mem[ws[f.pc.i].addr], f.d)) {
      SkippedIsGone(s, f.d, f.pc.i);
    }
  }

  lemma FinalOpOK(pm: bool, s: Shared, f: Frame)
    requires SharedInv(pm, s) && FrameOK(s, f) && FrameWF(s, f) && f.Op? && f.pc.Final?
    ensures OutOK(pm, s, f, OpStep(pm, s, f))
  {
    var ws, i := s.descs[f.d].words, f.pc.i;
    if i < |ws| && ws[i].addr != 0 && IsPtr(s.mem[ws[i].addr], f.d) {
      FinalizeOK(pm, s, f.d, i, f.pc.succ);
    }
    FinalStepOK(pm, s, f);
  }

  lemma FinalCleanStepOK(pm: bool, s: Shared, f: Frame)
    requires SharedInv(pm, s) && FrameOK(s, f) && FrameWF(s, f) && f.Op? && f.pc.FinalClean?
    ensures OutOK(pm, s, f, OpStep(pm, s, f))
  {
    if s.mem[s.descs[f.d].words[f.pc.i].addr] == Ptr(f.d, false) {
      FinalizeOK(pm, s, f.d, f.pc.i, f.pc.succ);
    } else {
      assert Gone(s, f.d, f.pc.i + 1);
    }
  }

  lemma FinalDirtyStepOK(pm: bool, s: Shared, f: Frame)
    requires SharedInv(pm, s) && FrameOK(s, f) && FrameWF(s, f) && f.Op? && f.pc.FinalDirty?
    ensures OutOK(pm, s, f, OpStep(pm, s, f))
  {
    var act := OpStep(pm, s, f).act;
    ActGuarantees(pm, s, act);
    GoneStable(s, Apply(pm, s, act), f.d, f.pc.i + 1);
  }

  lemma PersistStepOK(pm: bool, s: Shared, f: Frame)
    requires SharedInv(pm, s) && FrameOK(s, f) && FrameWF(s, f) && f.Op? && f.pc.Persist?
    ensures OutOK(pm, s, f, OpStep(pm, s, f))
  {
    var act := OpStep(pm, s, f).act;
    ActGuarantees(pm, s, act);
    InstalledStable(s, Apply(pm, s, act), f.d, |s.descs[f.d].words|);
  }

  lemma OpStepOK(pm: bool, s: Shared, f: Frame)
    requires SharedInv(pm, s) && FrameOK(s, f) && FrameWF(s, f) && f.Op?
    ensures OutOK(pm, s, f, OpStep(pm, s, f))
  {
    match f.pc
    case Inst(_) => InstStepOK(pm, s, f);
    case SwapOwn(_) => SwapOwnStepOK(pm, s, f);
    case SwapOther(_, _, _) => SwapOtherStepOK(pm, s, f);
    case Persist(_) => PersistStepOK(pm, s, f);
    case Deciding(_) => assert DescOK(pm, s.mem.Keys, s.descs[f.d]);
    case Final(_, _) => FinalOpOK(pm, s, f);
    case FinalClean(_, _) => FinalCleanStepOK(pm, s, f);
    case FinalDirty(_, _) => FinalDirtyStepOK(pm, s, f);
    case _ =>
  }

  lemma ReadStepOK(pm: bool, s: Shared, f: Frame)
    requires SharedInv(pm, s) && FrameOK(s, f) && FrameWF(s, f) && f.Read?
    ensures OutOK(pm, s, f, ReadStep(s, f))
  {
    assert WordOK(pm, s.descs, f.a, s.mem[f.a]);
  }

  lemma FrameStepOK(pm: bool, s: Shared, f: Frame)
    requires SharedInv(pm, s) && FrameOK(s, f) && FrameWF(s, f)
    ensures OutOK(pm, s, f, FrameStep(pm, s, f))
  {
    if f.Op? { OpStepOK(pm, s, f); } else { ReadStepOK(pm, s, f); }
  }

  /** Who installs a CondCAS pointer is next to replace it, and then it is gone. */
  ghost predicate CondFact(pm: bool, s: Shared, f: Frame, o: Out)
    requires FrameWF(s, f)
  {
    && (!o.Return? && o.act.Install? ==>
          o.Next? && o.f.Op? && o.f.d == o.act.d && o.f.pc == SwapOwn(o.act.i))
    && (f.Op? && f.pc.SwapOwn? ==>
          o.Next? && Apply(pm, s, o.act).mem[s.descs[f.d].words[f.pc.i].addr] != Cond(f.d, f.pc.i))
  }

  lemma FrameStepCond(pm: bool, s: Shared, f: Frame)
    requires FrameWF(s, f)
    ensures CondFact(pm, s, f, FrameStep(pm, s, f))
  {
  }
}
