/**
  What MwCAS and GetValue achieve when only their thread runs. On words that hold clean values a call
  ends within a bounded number of steps, with all words swapped or none, and leaves clean values.
*/
module MwcasAlone {
  import opened MwcasShared
  import opened MwcasThreads
  import opened MwcasMachine
  import opened MwcasRuns

  /** The state after n steps of t, or fewer if its call returns. */
  function Ran(pm: bool, s: State, t: Tid, n: nat): State
    decreases n
  {
    if n == 0 || Stack(s, t) == [] || !FrameWF(s.sh, Top(s, t)) then s else Ran(pm, After(pm, s, Go(t)), t, n - 1)
  }

  /** The word holds a value, persisted if need be. */
  predicate Clean(w: Word) { w.Plain? && !w.dirty }

  predicate Quiet(s: Shared, ws: seq<Entry>) {
    forall e | e in ws && e.addr != 0 :: e.addr in s.mem && Clean(s.mem[e.addr])
  }

  // ---- The call under way ----

  /** A target word of a call that nobody disturbs. */
  predicate OwnWord(w: Word, d: Id, pc: Pc, j: nat, e: Entry) {
    || Clean(w) || IsPtr(w, d) || (pc == SwapOwn(j) && w == Cond(d, j))
    || (pc.FinalDirty? && pc.i == j && w == Plain(FinalVal(e, pc.succ), true))
  }

  predicate Finishing(pc: Pc) { pc.Final? || pc.FinalClean? || pc.FinalDirty? }

  ghost predicate WordsOK(s: Shared, d: Id, pc: Pc)
    requires d in s.descs
  {
    var ws := s.descs[d].words;
    forall j | 0 <= j < |ws| && ws[j].addr != 0 ::
      && ws[j].addr in s.mem && OwnWord(s.mem[ws[j].addr], d, pc, j, ws[j])
      && (((Finishing(pc) && j < pc.i) || pc.Done?) ==> Clean(s.mem[ws[j].addr]))
  }

  /** What is known of the outcome; m0 is the logical memory before the call. */
  ghost predicate OutcomeOK(s: Shared, d: Id, pc: Pc, m0: map<Addr, Val>)
    requires d in s.descs
  {
    var e := s.descs[d];
    && (pc.Inst? || pc.SwapOwn? || pc.Persist? || pc.Deciding? ==> e.outcome.Undecided?)
    && (pc == Deciding(Failed) ==> !AllOld(m0, e.words))
    && (if e.outcome.Succeeded? then AllOld(m0, e.words) && Logical(s) == Written(m0, e.words) else Logical(s) == m0)
    && (e.outcome.Failed? ==> !AllOld(m0, e.words))
  }

  predicate Usual(pc: Pc) { !pc.Start? && !pc.StartClean? && !pc.SwapOther? }

  ghost predicate Alone(pm: bool, s: State, t: Tid, d: Id, pc: Pc, m0: map<Addr, Val>) {
    && Inv(pm, s) && Stack(s, t) == [Op(d, true, pc)] && d in s.sh.descs && Usual(pc)
    && WordsOK(s.sh, d, pc) && OutcomeOK(s.sh, d, pc, m0)
  }

  /** Steps left, m being the number of words. */
  function Rank(pc: Pc, m: nat): nat {
    match pc
    case Inst(i) => if i <= m then 4 * m + 7 + 2 * (m - i) else 4 * m + 7
    case SwapOwn(i) => if i < m then 4 * m + 6 + 2 * (m - i) else 4 * m + 8
    case Persist(i) => if i <= m then 3 * m + 6 + (m - i) else 3 * m + 6
    case Deciding(_) => 3 * m + 5
    case ClearLoad => 3 * m + 4
    case ClearStore(_) => 3 * m + 3
    case ReadOutcome => 3 * m + 2
    case Final(i, _) => if i <= m then 3 * (m - i) + 1 else 1
    case FinalClean(i, _) => if i < m then 3 * (m - i) else 1
    case FinalDirty(i, _) => if i < m then 3 * (m - i) - 1 else 1
    case _ => 0
  }

  /** The step of the frame, and the state it leads to. */
  lemma AloneStep(pm: bool, s: State, t: Tid, d: Id, pc: Pc, m0: map<Addr, Val>)
    requires Alone(pm, s, t, d, pc, m0) && !pc.Done?
    ensures FrameOK(s.sh, Op(d, true, pc)) && FrameWF(s.sh, Op(d, true, pc)) && DescOK(pm, s.sh.mem.Keys, s.sh.descs[d])
    ensures Can(pm, s, Go(t)) && Inv(pm, After(pm, s, Go(t)))
  {
    assert StackOK(pm, s.sh, t, s.threads[t]) && FrameOK(s.sh, s.threads[t][0]);
    FrameOKIsWF(pm, s.sh, Op(d, true, pc));
    StepKeepsInv(pm, s, Go(t));
  }

  lemma InstGoesOn(pm: bool, s: Shared, d: Id, pc: Pc)
    requires d in s.descs && DescOK(pm, s.mem.Keys, s.descs[d]) && (pc.Inst? || pc.SwapOwn?) && WordsOK(s, d, pc)
    requires FrameWF(s, Op(d, true, pc))
    ensures var o := OpStep(pm, s, Op(d, true, pc));
            && o.Next? && o.f.Op? && o.f.d == d && o.f.own && Usual(o.f.pc) && !Finishing(o.f.pc) && !o.f.pc.Done?
            && Rank(o.f.pc, |s.descs[d].words|) < Rank(pc, |s.descs[d].words|)
            && d in Apply(pm, s, o.act).descs && Apply(pm, s, o.act).descs == s.descs && WordsOK(Apply(pm, s, o.act), d, o.f.pc)
  {
  }

  lemma MiddleGoesOn(pm: bool, s: Shared, d: Id, pc: Pc)
    requires d in s.descs && DescOK(pm, s.mem.Keys, s.descs[d]) && WordsOK(s, d, pc) && FrameWF(s, Op(d, true, pc))
    requires pc.Persist? || pc.Deciding? || pc.ClearLoad? || pc.ClearStore? || pc.ReadOutcome?
    ensures var o := OpStep(pm, s, Op(d, true, pc));
            && o.Next? && o.f.Op? && o.f.d == d && o.f.own && Usual(o.f.pc) && !o.f.pc.Done?
            && Rank(o.f.pc, |s.descs[d].words|) < Rank(pc, |s.descs[d].words|)
            && d in Apply(pm, s, o.act).descs && WordsOK(Apply(pm, s, o.act), d, o.f.pc)
  {
  }

  /** What a step of the call leads to. */
  ghost predicate GoesOn(pm: bool, s: Shared, d: Id, pc: Pc)
    requires d in s.descs && FrameWF(s, Op(d, true, pc))
  {
    var o := OpStep(pm, s, Op(d, true, pc));
    && o.Next? && o.f.Op? && o.f.d == d && o.f.own && Usual(o.f.pc)
    && Rank(o.f.pc, |s.descs[d].words|) < Rank(pc, |s.descs[d].words|)
    && d in Apply(pm, s, o.act).descs && WordsOK(Apply(pm, s, o.act), d, o.f.pc)
  }

  lemma FinalGoesOn(pm: bool, s: Shared, d: Id, pc: Pc)
    requires d in s.descs && DescOK(pm, s.mem.Keys, s.descs[d]) && pc.Final? && WordsOK(s, d, pc)
    requires FrameWF(s, Op(d, true, pc)) && SharedInv(pm, s)
    ensures GoesOn(pm, s, d, pc)
  {
    var ws := s.descs[d].words;
    if pc.i < |ws| && ws[pc.i].addr != 0 {
      assert WordOK(pm, s.descs, ws[pc.i].addr, s.mem[ws[pc.i].addr]);
      if s.mem[ws[pc.i].addr] == Ptr(d, pm) { FinalWrites(pm, s, d, pc); }
    }
  }

  lemma FinalWrites(pm: bool, s: Shared, d: Id, pc: Pc)
    requires d in s.descs && DescOK(pm, s.mem.Keys, s.descs[d]) && pc.Final? && WordsOK(s, d, pc)
    requires FrameWF(s, Op(d, true, pc)) && pc.i < |s.descs[d].words| && s.descs[d].words[pc.i].addr != 0
    requires s.mem[s.descs[d].words[pc.i].addr] == Ptr(d, pm)
    ensures GoesOn(pm, s, d, pc)
  {
  }

  lemma FinalCleanGoesOn(pm: bool, s: Shared, d: Id, pc: Pc)
    requires d in s.descs && DescOK(pm, s.mem.Keys, s.descs[d]) && pc.FinalClean? && WordsOK(s, d, pc)
    requires FrameWF(s, Op(d, true, pc)) && FrameOK(s, Op(d, true, pc)) && SharedInv(pm, s)
    ensures GoesOn(pm, s, d, pc)
  {
  }

  lemma FinalDirtyGoesOn(pm: bool, s: Shared, d: Id, pc: Pc)
    requires d in s.descs && DescOK(pm, s.mem.Keys, s.descs[d]) && pc.FinalDirty? && WordsOK(s, d, pc)
    requires FrameWF(s, Op(d, true, pc)) && FrameOK(s, Op(d, true, pc)) && SharedInv(pm, s)
    ensures GoesOn(pm, s, d, pc)
  {
  }

  lemma CallGoesOn(pm: bool, s: Shared, d: Id, pc: Pc)
    requires d in s.descs && DescOK(pm, s.mem.Keys, s.descs[d]) && WordsOK(s, d, pc) && Usual(pc) && !pc.Done?
    requires FrameWF(s, Op(d, true, pc)) && FrameOK(s, Op(d, true, pc)) && SharedInv(pm, s)
    ensures GoesOn(pm, s, d, pc)
  {
    if pc.Inst? || pc.SwapOwn? {
      InstGoesOn(pm, s, d, pc);
    } else if pc.Final? {
      FinalGoesOn(pm, s, d, pc);
    } else if pc.FinalClean? {
      FinalCleanGoesOn(pm, s, d, pc);
    } else if pc.FinalDirty? {
      FinalDirtyGoesOn(pm, s, d, pc);
    } else {
      MiddleGoesOn(pm, s, d, pc);
    }
  }

  // ---- The outcome ----

  lemma OwnDecision(pm: bool, s: Shared, f: Frame)
    requires f.Op? && FrameWF(s, f) && OpStep(pm, s, f).Next? && OpStep(pm, s, f).act.Decide?
    ensures OpStep(pm, s, f).act.d == f.d && f.pc == Deciding(OpStep(pm, s, f).act.o)
  {
  }

  /** Which steps decide, and where a call that is still undecided goes. */
  lemma StaysUndecided(pm: bool, s: Shared, d: Id, pc: Pc)
    requires d in s.descs && FrameWF(s, Op(d, true, pc)) && Usual(pc) && !pc.Done? && OpStep(pm, s, Op(d, true, pc)).Next?
    requires pc.Inst? || pc.SwapOwn? || pc.Persist? || pc.Deciding? ==> s.descs[d].outcome.Undecided?
    ensures var o := OpStep(pm, s, Op(d, true, pc));
            var e' := if d in Apply(pm, s, o.act).descs then Apply(pm, s, o.act).descs[d] else s.descs[d];
            && (pc.Deciding? ==> e'.outcome == pc.o)
            && (o.f.Op? && (o.f.pc.Inst? || o.f.pc.SwapOwn? || o.f.pc.Persist? || o.f.pc.Deciding?) ==> e'.outcome.Undecided?)
  {
  }

  /** The step swaps the words of d if it decides d as succeeded, and nothing otherwise. */
  ghost predicate SwapsOrNot(s: Shared, s': Shared, d: Id) {
    && d in s.descs && d in s'.descs && DescEvolves(s.descs[d], s'.descs[d])
    && (if Undec(s, d) && Decided(s', d, true)
        then AllOld(Logical(s), s.descs[d].words) && Logical(s') == Written(Logical(s), s.descs[d].words)
        else Logical(s') == Logical(s))
  }

  lemma StepSwapsOrNot(pm: bool, s: State, t: Tid, d: Id, pc: Pc, m0: map<Addr, Val>)
    requires Alone(pm, s, t, d, pc, m0) && !pc.Done? && FrameWF(s.sh, Op(d, true, pc)) && Can(pm, s, Go(t))
    requires GoesOn(pm, s.sh, d, pc)
    ensures SwapsOrNot(s.sh, After(pm, s, Go(t)).sh, d)
  {
    var f, s' := Op(d, true, pc), After(pm, s, Go(t));
    StepIsAct(pm, s, Go(t), s');
    StepRefinesSwap(pm, s, Go(t), s');
    assert DescEvolves(s.sh.descs[d], s'.sh.descs[d]);
    if OpStep(pm, s.sh, f).act.Decide? { OwnDecision(pm, s.sh, f); }
    forall x | DecidesSucceeded(s, s', x)
      ensures x == d
    {
      OnlyDecideDecides(pm, s.sh, LabelAct(pm, s, Go(t)), x);
    }
    assert DecidesSucceeded(s, s', d) ==> AtomicSwap(s, s', d);
  }

  lemma MismatchDiffers(pm: bool, s: Shared, d: Id)
    requires Mismatch(s, d) && DescOK(pm, s.mem.Keys, s.descs[d])
    ensures !AllOld(Logical(s), s.descs[d].words)
  {
  }

  lemma OutcomeKept(s: Shared, s': Shared, d: Id, pc: Pc, pc': Pc, m0: map<Addr, Val>)
    requires SwapsOrNot(s, s', d) && OutcomeOK(s, d, pc, m0) && (pc.Deciding? ==> s'.descs[d].outcome == pc.o)
    requires Undec(s, d) && !Undec(s', d) ==> pc.Deciding?
    requires pc'.Inst? || pc'.SwapOwn? || pc'.Persist? || pc'.Deciding? ==> Undec(s', d)
    requires pc' == Deciding(Failed) ==> !AllOld(Logical(s), s.descs[d].words)
    ensures OutcomeOK(s', d, pc', m0)
  {
  }

  lemma OnlyDecidingDecides(pm: bool, s: Shared, d: Id, pc: Pc)
    requires d in s.descs && FrameWF(s, Op(d, true, pc)) && Usual(pc) && !pc.Done? && OpStep(pm, s, Op(d, true, pc)).Next?
    requires Undec(s, d) && d in Apply(pm, s, OpStep(pm, s, Op(d, true, pc)).act).descs && !pc.Deciding?
    requires !pc.ClearStore?
    ensures Undec(Apply(pm, s, OpStep(pm, s, Op(d, true, pc)).act), d)
  {
  }

  lemma OutcomeStep(pm: bool, s: State, t: Tid, d: Id, pc: Pc, m0: map<Addr, Val>)
    requires Alone(pm, s, t, d, pc, m0) && !pc.Done? && FrameWF(s.sh, Op(d, true, pc)) && Can(pm, s, Go(t))
    requires GoesOn(pm, s.sh, d, pc) && FrameOK(s.sh, Op(d, true, pc)) && DescOK(pm, s.sh.mem.Keys, s.sh.descs[d])
    ensures var o := OpStep(pm, s.sh, Op(d, true, pc));
            d in After(pm, s, Go(t)).sh.descs && OutcomeOK(After(pm, s, Go(t)).sh, d, o.f.pc, m0)
  {
    var f, s' := Op(d, true, pc), After(pm, s, Go(t));
    var o := OpStep(pm, s.sh, f);
    StepSwapsOrNot(pm, s, t, d, pc, m0);
    StaysUndecided(pm, s.sh, d, pc);
    FrameStepFail(pm, s.sh, f);
    if o.f.pc == Deciding(Failed) { MismatchDiffers(pm, s.sh, d); }
    if Undec(s.sh, d) && !pc.Deciding? { OnlyDecidingDecides(pm, s.sh, d, pc); }
    OutcomeKept(s.sh, s'.sh, d, pc, o.f.pc, m0);
  }

  lemma AloneGoesOn(pm: bool, s: State, t: Tid, d: Id, pc: Pc, m0: map<Addr, Val>) returns (pc': Pc)
    requires Alone(pm, s, t, d, pc, m0) && !pc.Done?
    ensures FrameWF(s.sh, Op(d, true, pc)) && Alone(pm, After(pm, s, Go(t)), t, d, pc', m0)
    ensures After(pm, s, Go(t)).sh.descs[d].words == s.sh.descs[d].words
    ensures Rank(pc', |s.sh.descs[d].words|) < Rank(pc, |s.sh.descs[d].words|)
  {
    AloneStep(pm, s, t, d, pc, m0);
    CallGoesOn(pm, s.sh, d, pc);
    OutcomeStep(pm, s, t, d, pc, m0);
    pc' := OpStep(pm, s.sh, Op(d, true, pc)).f.pc;
    var s' := After(pm, s, Go(t));
    StepIsAct(pm, s, Go(t), s');
    assert DescEvolves(s.sh.descs[d], s'.sh.descs[d]);
  }

  // ---- The whole call ----

  /** After n steps the call is done, with result r. */
  ghost predicate EndsAt(pm: bool, s: State, t: Tid, d: Id, m0: map<Addr, Val>, ws: seq<Entry>, n: nat, r: bool) {
    Alone(pm, Ran(pm, s, t, n), t, d, Done(r), m0) && Ran(pm, s, t, n).sh.descs[d].words == ws
  }

  lemma EndsLater(pm: bool, s: State, t: Tid, d: Id, m0: map<Addr, Val>, ws: seq<Entry>, n: nat, r: bool)
    requires Stack(s, t) != [] && FrameWF(s.sh, Top(s, t)) && EndsAt(pm, After(pm, s, Go(t)), t, d, m0, ws, n, r)
    ensures EndsAt(pm, s, t, d, m0, ws, n + 1, r)
  {
    assert Ran(pm, s, t, n + 1) == Ran(pm, After(pm, s, Go(t)), t, n);
  }

  lemma {:induction false} CallEnds(pm: bool, s: State, t: Tid, d: Id, pc: Pc, m0: map<Addr, Val>) returns (n: nat, r: bool)
    requires Alone(pm, s, t, d, pc, m0)
    ensures n <= Rank(pc, |s.sh.descs[d].words|) && EndsAt(pm, s, t, d, m0, s.sh.descs[d].words, n, r)
    decreases Rank(pc, |s.sh.descs[d].words|)
  {
    if pc.Done? {
      n, r := 0, pc.result;
    } else {
      var pc' := AloneGoesOn(pm, s, t, d, pc, m0);
      n, r := CallEnds(pm, After(pm, s, Go(t)), t, d, pc', m0);
      EndsLater(pm, s, t, d, m0, s.sh.descs[d].words, n, r);
      n := n + 1;
    }
  }

  lemma QuietWords(s: Shared, words: seq<Entry>, ws: seq<Entry>)
    requires Quiet(s, ws) && multiset(words) == multiset(ws)
    ensures Quiet(s, words) && |words| == |ws|
    ensures forall j | 0 <= j < |words| && words[j].addr != 0 :: words[j].addr in s.mem && Clean(s.mem[words[j].addr])
  {
    SameEntries(words, ws);
    assert |multiset(words)| == |multiset(ws)|;
    forall j | 0 <= j < |words| && words[j].addr != 0
      ensures words[j].addr in s.mem && Clean(s.mem[words[j].addr])
    {
      assert words[j] in ws;
    }
  }

  lemma CallIsLogicalNop(pm: bool, s: State, l: Label)
    requires Inv(pm, s) && l.Call? && Can(pm, s, l)
    ensures Inv(pm, After(pm, s, l)) && Logical(After(pm, s, l).sh) == Logical(s.sh)
  {
    StepKeepsInv(pm, s, l);
    LabelEnabled(pm, s, l);
    ActOnLogical(pm, s.sh, LabelAct(pm, s, l));
  }

  lemma CallStarts(pm: bool, s: State, t: Tid, d: Id, ws: seq<Entry>)
    requires Inv(pm, s) && Can(pm, s, Call(t, d, ws)) && Quiet(s.sh, ws)
    ensures var s' := After(pm, s, Call(t, d, ws));
            && Alone(pm, s', t, d, Inst(0), Logical(s.sh)) && s'.sh.mem == s.sh.mem
            && multiset(s'.sh.descs[d].words) == multiset(ws) && |s'.sh.descs[d].words| == |ws|
  {
    NewCall(pm, s, t, d, ws);
    CallIsLogicalNop(pm, s, Call(t, d, ws));
    FirstWords(After(pm, s, Call(t, d, ws)).sh, d);
  }

  lemma NewCall(pm: bool, s: State, t: Tid, d: Id, ws: seq<Entry>)
    requires Can(pm, s, Call(t, d, ws)) && Quiet(s.sh, ws)
    ensures var s' := After(pm, s, Call(t, d, ws));
            && Stack(s', t) == [Op(d, true, Inst(0))] && s'.sh.mem == s.sh.mem && d in s'.sh.descs && Undec(s'.sh, d)
            && Quiet(s'.sh, s'.sh.descs[d].words)
            && multiset(s'.sh.descs[d].words) == multiset(ws) && |s'.sh.descs[d].words| == |ws|
  {
    QuietWords(s.sh, Arranged(pm, ws), ws);
  }

  lemma FirstWords(s: Shared, d: Id)
    requires d in s.descs && Quiet(s, s.descs[d].words)
    ensures WordsOK(s, d, Inst(0))
  {
  }

  lemma AllOldIsNotDiffers(pm: bool, m: map<Addr, Val>, words: seq<Entry>, ws: seq<Entry>)
    requires ValidWords(pm, m.Keys, words) && multiset(words) == multiset(ws)
    ensures AllOld(m, words) <==> !Differs(m, ws)
  {
    SameEntries(words, ws);
    if !AllOld(m, words) {
      var i :| 0 <= i < |words| && words[i].addr != 0 && !(words[i].addr in m && m[words[i].addr] == words[i].before);
      assert words[i] in ws;
    }
    if Differs(m, ws) {
      var e :| e in ws && e.addr != 0 && e.addr in m && m[e.addr] != e.before;
      var i :| 0 <= i < |words| && words[i] == e;
    }
  }

  lemma CallDone(pm: bool, e: State, t: Tid, d: Id, r: bool, m0: map<Addr, Val>, ws: seq<Entry>)
    requires Alone(pm, e, t, d, Done(r), m0) && multiset(e.sh.descs[d].words) == multiset(ws)
    ensures Quiet(e.sh, ws) && (r <==> !Differs(m0, ws))
    ensures if r then SwapsAll(m0, Logical(e.sh), ws) else Logical(e.sh) == m0
  {
    var words := e.sh.descs[d].words;
    assert DescOK(pm, e.sh.mem.Keys, e.sh.descs[d]);
    DoneOutcome(pm, e, t, d, r);
    assert Logical(e.sh).Keys == e.sh.mem.Keys && Written(m0, words).Keys == m0.Keys;
    AllOldIsNotDiffers(pm, m0, words, ws);
    if r { WrittenSwapsAll(pm, m0, words, ws); }
    SameEntries(words, ws);
    forall x | x in ws && x.addr != 0
      ensures x.addr in e.sh.mem && Clean(e.sh.mem[x.addr])
    {
      var j :| 0 <= j < |words| && words[j] == x;
    }
  }

  /**
    A call that runs alone, on words that hold clean values: after at most 6 * |ws| + 7 steps it
    is done; it has swapped all its words if they had their old values, and otherwise changed
    nothing; and the words hold clean values again.
  */
  lemma QuietCall(pm: bool, run: seq<State>, ls: seq<Label>, k: nat, t: Tid, d: Id, ws: seq<Entry>)
      returns (n: nat, r: bool)
    requires IsRun(pm, run, ls) && k < |run| && Can(pm, run[k], Call(t, d, ws)) && Quiet(run[k].sh, ws)
    ensures n <= 6 * |ws| + 7
    ensures var m, e := Logical(run[k].sh), Ran(pm, After(pm, run[k], Call(t, d, ws)), t, n);
            && Stack(e, t) == [Op(d, true, Done(r))] && Quiet(e.sh, ws) && (r <==> !Differs(m, ws))
            && (if r then SwapsAll(m, Logical(e.sh), ws) else Logical(e.sh) == m)
  {
    RunInv(pm, run, ls, k);
    var s := After(pm, run[k], Call(t, d, ws));
    CallStarts(pm, run[k], t, d, ws);
    n, r := CallEnds(pm, s, t, d, Inst(0), Logical(run[k].sh));
    CallDone(pm, Ran(pm, s, t, n), t, d, r, Logical(run[k].sh), ws);
  }

  // ---- Readers ----

  /** A reader alone on a word that holds a value: two steps at most, and the word is clean. */
  lemma QuietRead(pm: bool, run: seq<State>, ls: seq<Label>, k: nat, t: Tid, a: Addr)
    requires IsRun(pm, run, ls) && k < |run| && Can(pm, run[k], CallRead(t, a)) && run[k].sh.mem[a].Plain?
    ensures var e := Ran(pm, After(pm, run[k], CallRead(t, a)), t, if run[k].sh.mem[a].dirty then 2 else 1);
            && Stack(e, t) == [Read(a, ReadDone(run[k].sh.mem[a].v))]
            && e.sh == run[k].sh.(mem := run[k].sh.mem[a := Plain(run[k].sh.mem[a].v, false)])
  {
    var s, w := run[k], run[k].sh.mem[a];
    var s0 := After(pm, s, CallRead(t, a));
    var s1 := After(pm, s0, Go(t));
    if w.dirty {
      assert Stack(s1, t) == [Read(a, ReadClean(w))] && s1.sh == s.sh;
      assert Ran(pm, s0, t, 2) == Ran(pm, s1, t, 1) == Ran(pm, After(pm, s1, Go(t)), t, 0);
    } else {
      assert s.sh.mem[a := Plain(w.v, false)] == s.sh.mem;
      assert Ran(pm, s0, t, 1) == Ran(pm, s1, t, 0);
    }
  }

  // ---- What stands in the way ----

  lemma SwapOtherReplaces(pm: bool, s: Shared, f: Frame, i: nat)
    requires SharedInv(pm, s) && f.Op? && FrameWF(s, f.(pc := Inst(i))) && i < |s.descs[f.d].words| && s.descs[f.d].words[i].addr != 0
    requires s.mem[s.descs[f.d].words[i].addr].Cond?
    ensures var a := s.descs[f.d].words[i].addr;
            var g := f.(pc := SwapOther(i, s.mem[a].id, s.mem[a].i));
            && OpStep(pm, s, f.(pc := Inst(i))) == Next(Nop, g) && FrameWF(s, g)
            && Apply(pm, s, OutAct(OpStep(pm, s, g))).mem == s.mem[a := Unhung(pm, s, s.mem[a])]
  {
    var a := s.descs[f.d].words[i].addr;
    assert WordOK(pm, s.descs, a, s.mem[a]);
  }

  /** A CondCAS pointer of another operation is replaced, by a call within two own steps. */
  lemma CallReplacesCond(pm: bool, s: State, t: Tid, i: nat)
    requires SharedInv(pm, s.sh) && Stack(s, t) != [] && Top(s, t).Op? && Top(s, t).pc == Inst(i) && FrameWF(s.sh, Top(s, t))
    requires var ws := s.sh.descs[Top(s, t).d].words; i < |ws| && ws[i].addr != 0 && s.sh.mem[ws[i].addr].Cond?
    ensures var a := s.sh.descs[Top(s, t).d].words[i].addr;
            && SharedInv(pm, s.sh) && WordOK(pm, s.sh.descs, a, s.sh.mem[a])
            && Ran(pm, s, t, 2).sh.mem == s.sh.mem[a := Unhung(pm, s.sh, s.sh.mem[a])]
  {
    var f := Top(s, t);
    SwapOtherReplaces(pm, s.sh, f, i);
    var s1 := After(pm, s, Go(t));
    assert f == f.(pc := Inst(i)) && s1.sh == s.sh;
    assert Ran(pm, s, t, 2) == Ran(pm, s1, t, 1) == Ran(pm, After(pm, s1, Go(t)), t, 0);
  }

  /** And by a reader. */
  lemma ReadReplacesCond(pm: bool, s: State, t: Tid, a: Addr)
    requires Inv(pm, s) && Stack(s, t) == [Read(a, Load)] && a in s.sh.mem && s.sh.mem[a].Cond?
    ensures Ran(pm, s, t, 2).sh.mem == s.sh.mem[a := Unhung(pm, s.sh, s.sh.mem[a])]
  {
    assert WordOK(pm, s.sh.descs, a, s.sh.mem[a]);
    var s1 := After(pm, s, Go(t));
    assert Top(s1, t) == Read(a, ReadSwap(s.sh.mem[a].id, s.sh.mem[a].i)) && s1.sh == s.sh;
    assert Ran(pm, s, t, 2) == Ran(pm, s1, t, 1) == Ran(pm, After(pm, s1, Go(t)), t, 0);
  }

  /** What a CondCAS pointer is replaced with: the descriptor of its operation, or the old value if that is decided. */
  function Unhung(pm: bool, s: Shared, w: Word): Word
    requires w.Cond? && w.id in s.descs && w.i < |s.descs[w.id].words|
  {
    if s.descs[w.id].outcome.Undecided? then Ptr(w.id, pm) else Plain(s.descs[w.id].words[w.i].before, false)
  }

  /** A reader that meets an operation that is decided, but not finished, is back where it was after three steps. */
  lemma {:induction false} ReadSpins(pm: bool, s: State, t: Tid, a: Addr, d: Id, n: nat)
    requires Stack(s, t) == [Read(a, Load)] && a in s.sh.mem && s.sh.mem[a] == Ptr(d, false)
    requires d in s.sh.descs && !s.sh.descs[d].outcome.Undecided? && !s.sh.descs[d].dirty
    ensures Ran(pm, s, t, 3 * n) == s
  {
    if n > 0 {
      ReadSpinsOnce(pm, s, t, a, d);
      assert Ran(pm, s, t, 3 * n) == Ran(pm, s, t, 3 * (n - 1));
      ReadSpins(pm, s, t, a, d, n - 1);
    }
  }

  lemma HelperCalled(s: State, t: Tid, o: Out, s': State)
    requires |Stack(s, t)| == 1 && o.Help? && s' == State(s.sh, s.threads[t := [o.f, Op(o.d, false, Start)]])
    ensures s'.threads == s.threads[t := Resumed(Stack(s, t), o)]
  {
    assert Resumed(Stack(s, t), o) == [o.f, Op(o.d, false, Start)];
  }

  lemma HelperMoves(s: State, t: Tid, o: Out, s': State)
    requires |Stack(s, t)| == 2 && o.Next? && s'.threads == s.threads[t := [Stack(s, t)[0], o.f]]
    ensures s'.threads == s.threads[t := Resumed(Stack(s, t), o)]
  {
    assert Resumed(Stack(s, t), o) == [Stack(s, t)[0], o.f];
  }

  lemma ReadSpinsOnce(pm: bool, s: State, t: Tid, a: Addr, d: Id)
    requires Stack(s, t) == [Read(a, Load)] && a in s.sh.mem && s.sh.mem[a] == Ptr(d, false)
    requires d in s.sh.descs && !s.sh.descs[d].outcome.Undecided? && !s.sh.descs[d].dirty
    ensures forall n | n >= 3 :: Ran(pm, s, t, n) == Ran(pm, s, t, n - 3)
  {
    var r := s.sh.descs[d].outcome.Succeeded?;
    var s1, s2 := State(s.sh, s.threads[t := [Read(a, Load), Op(d, false, Start)]]), State(s.sh, s.threads[t := [Read(a, Load), Op(d, false, Done(r))]]);
    HelperCalled(s, t, Help(Nop, Read(a, Load), d), s1);
    HelperMoves(s1, t, Next(Nop, Op(d, false, Done(r))), s2);
    assert After(pm, s, Go(t)) == s1 && After(pm, s1, Go(t)) == s2;
    assert After(pm, s2, Go(t)) == s by {
      assert Stack(s2, t)[..1] == [Read(a, Load)];
      assert s2.threads[t := [Read(a, Load)]] == s.threads;
    }
    forall n | n >= 3
      ensures Ran(pm, s, t, n) == Ran(pm, s, t, n - 3)
    {
      assert Ran(pm, s, t, n) == Ran(pm, s1, t, n - 1) == Ran(pm, s2, t, n - 2) == Ran(pm, s, t, n - 3);
    }
  }
}
