/**
  What the MwCAS machine guarantees over whole runs: it refines an atomic multi-word swap,
  every call takes effect or fails at one instant inside the call, readers return values
  that were logically present during the call, decisions are final, and help chains among
  undecided operations cannot form a cycle.
*/
module MwcasRuns {
  import opened MwcasShared
  import opened MwcasThreads
  import opened MwcasMachine

  ghost predicate IsRun(pm: bool, run: seq<State>, ls: seq<Label>) {
    && |run| == |ls| + 1 && Init(pm, run[0])
    && forall k | 0 <= k < |ls| :: StepAt(pm, run, ls, k)
  }

  ghost predicate StepAt(pm: bool, run: seq<State>, ls: seq<Label>, k: nat)
    requires |run| == |ls| + 1 && k < |ls|
  {
    Step(pm, run[k], ls[k], run[k + 1])
  }

  ghost predicate Step(pm: bool, s: State, l: Label, s': State) {
    Can(pm, s, l) && s' == After(pm, s, l)
  }

  lemma {:induction false} RunInv(pm: bool, run: seq<State>, ls: seq<Label>, k: nat)
    requires IsRun(pm, run, ls) && k < |run|
    ensures Inv(pm, run[k])
  {
    if k == 0 {
      InitInv(pm, run[0]);
    } else {
      RunInv(pm, run, ls, k - 1);
      assert StepAt(pm, run, ls, k - 1);
      StepKeepsInv(pm, run[k - 1], ls[k - 1]);
    }
  }

  ghost predicate Reachable(pm: bool, s: State) {
    exists run, ls :: IsRun(pm, run, ls) && run[|run| - 1] == s
  }

  lemma ReachInit(pm: bool, s: State)
    requires Init(pm, s)
    ensures Reachable(pm, s)
  {
    assert IsRun(pm, [s], []);
  }

  lemma ReachStep(pm: bool, s: State, l: Label, s': State)
    requires Reachable(pm, s) && Step(pm, s, l, s')
    ensures Reachable(pm, s')
  {
    var run, ls :| IsRun(pm, run, ls) && run[|run| - 1] == s;
    var run', ls' := run + [s'], ls + [l];
    forall k | 0 <= k < |ls'|
      ensures StepAt(pm, run', ls', k)
    {
      if k < |ls| { assert StepAt(pm, run, ls, k); }
    }
    assert IsRun(pm, run', ls');
  }

  /** A thread in the middle of a call can always take a step. */
  lemma NeverStuck(pm: bool, run: seq<State>, ls: seq<Label>, k: nat, t: Tid)
    requires IsRun(pm, run, ls) && k < |run| && Stack(run[k], t) != []
    ensures Can(pm, run[k], Go(t))
  {
    RunInv(pm, run, ls, k);
    var st := run[k].threads[t];
    assert StackOK(pm, run[k].sh, t, st);
    FrameOKIsWF(pm, run[k].sh, st[|st| - 1]);
  }

  // ---- Refinement of an atomic multi-word swap ----

  /** d's Undecided-to-Succeeded step: all words move from old to new at once. */
  ghost predicate AtomicSwap(s: State, s': State, d: Id) {
    && Undec(s.sh, d) && Decided(s'.sh, d, true)
    && s'.sh.descs[d].words == s.sh.descs[d].words
    && AllOld(Logical(s.sh), s.sh.descs[d].words)
    && Logical(s'.sh) == Written(Logical(s.sh), s.sh.descs[d].words)
  }

  ghost predicate DecidesSucceeded(s: State, s': State, d: Id) {
    Undec(s.sh, d) && Decided(s'.sh, d, true)
  }

  /** The only act that turns an undecided descriptor into a succeeded one. */
  lemma OnlyDecideDecides(pm: bool, s: Shared, act: Act, d: Id)
    requires Enabled(pm, s, act) && Undec(s, d) && d in Apply(pm, s, act).descs
    requires !Undec(Apply(pm, s, act), d)
    ensures act.Decide? && act.d == d && Apply(pm, s, act).descs[d].outcome == act.o
  {
  }

  lemma StepIsAct(pm: bool, s: State, l: Label, s': State)
    requires Inv(pm, s) && Step(pm, s, l, s')
    ensures Enabled(pm, s.sh, LabelAct(pm, s, l)) && s'.sh == Apply(pm, s.sh, LabelAct(pm, s, l))
    ensures Rely(s.sh, s'.sh)
  {
    LabelEnabled(pm, s, l);
    ActGuarantees(pm, s.sh, LabelAct(pm, s, l));
  }

  /** The step is an atomic multi-word swap of one operation, or leaves logical memory alone. */
  ghost predicate RefinesSwap(s: State, s': State) {
    && (forall d :: DecidesSucceeded(s, s', d) ==> AtomicSwap(s, s', d))
    && ((forall d :: !DecidesSucceeded(s, s', d)) ==> Logical(s'.sh) == Logical(s.sh))
  }

  lemma StepRefinesSwap(pm: bool, s: State, l: Label, s': State)
    requires Inv(pm, s) && Step(pm, s, l, s')
    ensures RefinesSwap(s, s')
  {
    var act := LabelAct(pm, s, l);
    StepIsAct(pm, s, l, s');
    ActOnLogical(pm, s.sh, act);
    if Commits(act) {
      assert DecidesSucceeded(s, s', act.d);
    }
    forall d | DecidesSucceeded(s, s', d)
      ensures AtomicSwap(s, s', d)
    {
      OnlyDecideDecides(pm, s.sh, act, d);
    }
  }

  /** Every run of the protocol refines a run of atomic multi-word swaps. */
  lemma RunRefinesSwaps(pm: bool, run: seq<State>, ls: seq<Label>, k: nat)
    requires IsRun(pm, run, ls) && k < |ls|
    ensures RefinesSwap(run[k], run[k + 1])
  {
    RunInv(pm, run, ls, k);
    assert StepAt(pm, run, ls, k);
    StepRefinesSwap(pm, run[k], ls[k], run[k + 1]);
  }

  // ---- Decisions are final ----

  ghost predicate Alive(run: seq<State>, d: Id, i: nat, j: nat) {
    i <= j < |run| && forall k | i <= k <= j :: d in run[k].sh.descs
  }

  lemma StepEvolves(pm: bool, run: seq<State>, ls: seq<Label>, k: nat)
    requires IsRun(pm, run, ls) && k < |ls|
    ensures Rely(run[k].sh, run[k + 1].sh)
  {
    RunInv(pm, run, ls, k);
    assert StepAt(pm, run, ls, k);
    StepIsAct(pm, run[k], ls[k], run[k + 1]);
  }

  /** A descriptor is decided at most once per use. */
  lemma {:induction false} DecisionIsFinal(pm: bool, run: seq<State>, ls: seq<Label>, d: Id, i: nat, j: nat)
    requires IsRun(pm, run, ls) && Alive(run, d, i, j)
    ensures run[j].sh.descs[d].words == run[i].sh.descs[d].words
    ensures !Undec(run[i].sh, d) ==> run[j].sh.descs[d].outcome == run[i].sh.descs[d].outcome
  {
    if i < j {
      DecisionIsFinal(pm, run, ls, d, i, j - 1);
      StepEvolves(pm, run, ls, j - 1);
      assert DescEvolves(run[j - 1].sh.descs[d], run[j].sh.descs[d]);
    }
  }

  /** Whoever finishes d, owner or helper and at whatever time, reports the same outcome. */
  lemma AllReportTheSame(pm: bool, run: seq<State>, ls: seq<Label>, d: Id,
                         i: nat, t: Tid, r: bool, j: nat, u: Tid, q: bool)
    requires IsRun(pm, run, ls) && Alive(run, d, i, j)
    requires Stack(run[i], t) != [] && Top(run[i], t).Op? && Top(run[i], t).d == d && Top(run[i], t).pc == Done(r)
    requires Stack(run[j], u) != [] && Top(run[j], u).Op? && Top(run[j], u).d == d && Top(run[j], u).pc == Done(q)
    ensures r == q
  {
    RunInv(pm, run, ls, i);
    RunInv(pm, run, ls, j);
    var a, b := run[i].threads[t], run[j].threads[u];
    assert StackOK(pm, run[i].sh, t, a) && FrameOK(run[i].sh, a[|a| - 1]);
    assert StackOK(pm, run[j].sh, u, b) && FrameOK(run[j].sh, b[|b| - 1]);
    DecisionIsFinal(pm, run, ls, d, i, j);
  }

  lemma DoneOwner(pm: bool, s: State, d: Id, t: Tid)
    requires Inv(pm, s) && Owns(s, t, d) && Stack(s, t)[0].pc.Done?
    ensures !Undec(s.sh, d) && Nowhere(s.sh, d)
  {
    assert StackOK(pm, s.sh, t, s.threads[t]);
    assert FrameOK(s.sh, s.threads[t][0]);
    GoneIsNowhere(pm, s.sh, d);
  }

  /** From the moment the owner is done, no target word holds d, then or later. */
  lemma {:induction false} DoneIsNowhere(pm: bool, run: seq<State>, ls: seq<Label>, d: Id, t: Tid, i: nat, j: nat)
    requires IsRun(pm, run, ls) && Alive(run, d, i, j)
    requires Owns(run[i], t, d) && Stack(run[i], t)[0].pc.Done?
    ensures !Undec(run[j].sh, d) && Nowhere(run[j].sh, d)
  {
    if i == j {
      RunInv(pm, run, ls, i);
      DoneOwner(pm, run[i], d, t);
    } else {
      DoneIsNowhere(pm, run, ls, d, t, i, j - 1);
      StepEvolves(pm, run, ls, j - 1);
      NowhereStable(run[j - 1].sh, run[j].sh, d);
    }
  }

  // ---- Calls: one instant inside the call ----

  /** Thread t is inside its MwCAS() call on d from state i to state j. */
  ghost predicate InCall(run: seq<State>, t: Tid, d: Id, i: nat, j: nat) {
    i <= j < |run| && forall k | i <= k <= j :: Owns(run[k], t, d) && d in run[k].sh.descs
  }

  /** Some target word logically differs from the value the call expects. */
  ghost predicate Mismatch(s: Shared, d: Id) {
    d in s.descs &&
    exists i :: 0 <= i < |s.descs[d].words| && s.descs[d].words[i].addr != 0 && s.descs[d].words[i].addr in s.mem &&
                Logical(s)[s.descs[d].words[i].addr] != s.descs[d].words[i].before
  }

  predicate AtFail(s: State, t: Tid, d: Id) {
    Stack(s, t) != [] && Top(s, t).Op? && Top(s, t).d == d && Top(s, t).pc == Deciding(Failed)
  }

  ghost predicate FailPending(s: State, d: Id) {
    Decided(s.sh, d, false) || exists t :: AtFail(s, t, d)
  }

  /** A frame gives up only when it finds another value in a target word. */
  ghost predicate FailFact(s: Shared, f: Frame, o: Out) {
    && (o.Next? && o.f.Op? && o.f.pc == Deciding(Failed) ==> f.Op? && Mismatch(s, f.d))
    && (!o.Return? && o.act.Decide? && o.act.o.Failed? ==> f.Op? && f.d == o.act.d && f.pc == Deciding(Failed))
  }

  lemma FrameStepFail(pm: bool, s: Shared, f: Frame)
    requires SharedInv(pm, s) && FrameWF(s, f)
    ensures FailFact(s, f, FrameStep(pm, s, f))
  {
    if f.Op? && f.pc.Inst? {
      var i := f.pc.i;
      var ws := s.descs[f.d].words;
      if i < |ws| && ws[i].addr != 0 {
        assert WordOK(pm, s.descs, ws[i].addr, s.mem[ws[i].addr]);
        assert s.mem[ws[i].addr].Plain? ==> Logical(s)[ws[i].addr] == s.mem[ws[i].addr].v;
      }
    }
  }

  /** One step back: who is inside a call now was inside it, unless it called just now. */
  lemma OwnedBefore(pm: bool, s: State, l: Label, s': State, t: Tid, d: Id)
    requires Inv(pm, s) && Step(pm, s, l, s') && Owns(s', t, d)
    ensures d in s'.sh.descs
    ensures (Owns(s, t, d) && d in s.sh.descs) || (l.Call? && l.d == d && l.t == t)
  {
    StepKeepsInv(pm, s, l);
    assert StackOK(pm, s'.sh, t, s'.threads[t]) && FrameOK(s'.sh, s'.threads[t][0]);
    if l.Go? && l.t == t {
      GoOut(pm, s, t);
      BottomKept(s.threads[t], FrameStep(pm, s.sh, Top(s, t)));
    }
    if Stack(s, t) != [] {
      assert StackOK(pm, s.sh, t, s.threads[t]) && FrameOK(s.sh, s.threads[t][0]);
    }
  }

  lemma BottomKept(st: seq<Frame>, o: Out)
    requires st != [] && Resumed(st, o) != [] && (!o.Return? ==> SameCall(st[|st| - 1], o.f))
    ensures SameCall(st[0], Resumed(st, o)[0])
  {
  }

  lemma FailedBefore(pm: bool, s: State, l: Label, s': State, d: Id)
    requires Inv(pm, s) && Step(pm, s, l, s') && d in s.sh.descs && Decided(s'.sh, d, false)
    ensures FailPending(s, d)
  {
    StepIsAct(pm, s, l, s');
    if Undec(s.sh, d) {
      OnlyDecideDecides(pm, s.sh, LabelAct(pm, s, l), d);
      FrameStepFail(pm, s.sh, Top(s, l.t));
      assert AtFail(s, l.t, d);
    } else {
      assert DescEvolves(s.sh.descs[d], s'.sh.descs[d]);
    }
  }

  lemma FailFrameBefore(pm: bool, s: State, l: Label, s': State, t: Tid, d: Id)
    requires Inv(pm, s) && Step(pm, s, l, s') && AtFail(s', t, d)
    ensures AtFail(s, t, d) || Mismatch(s.sh, d)
  {
    if !l.Recycle? && t == l.t {
      if l.Go? { FailFrameByGo(pm, s, t, d); }
    } else {
      assert Stack(s', t) == Stack(s, t);
      SameStackFails(s, s', t, d);
    }
  }

  lemma SameStackFails(s: State, s': State, t: Tid, d: Id)
    requires Stack(s', t) == Stack(s, t) && AtFail(s', t, d)
    ensures AtFail(s, t, d)
  {
  }

  lemma FailFrameByGo(pm: bool, s: State, t: Tid, d: Id)
    requires Inv(pm, s) && Can(pm, s, Go(t)) && AtFail(After(pm, s, Go(t)), t, d)
    ensures Mismatch(s.sh, d)
  {
    FrameStepFail(pm, s.sh, Top(s, t));
    GoOut(pm, s, t);
    FailFrameIsNew(pm, s, t, FrameStep(pm, s.sh, Top(s, t)), d);
  }

  /** One step back from a call that has failed or is about to. */
  lemma FailStepBack(pm: bool, s: State, l: Label, s': State, t: Tid, d: Id)
    requires Inv(pm, s) && Step(pm, s, l, s') && Owns(s', t, d) && FailPending(s', d)
    ensures Owns(s, t, d) && d in s.sh.descs && d in s'.sh.descs
    ensures FailPending(s, d) || Mismatch(s.sh, d)
  {
    OwnedBefore(pm, s, l, s', t, d);
    if l.Call? && l.d == d { NewCallNotFailing(pm, s, l, s'); }
    if Decided(s'.sh, d, false) {
      FailedBefore(pm, s, l, s', d);
    } else {
      var u :| AtFail(s', u, d);
      FailFrameBefore(pm, s, l, s', u, d);
    }
  }

  lemma FailFrameIsNew(pm: bool, s: State, t: Tid, o: Out, d: Id)
    requires Stack(s, t) != [] && StackOK(pm, s.sh, t, Stack(s, t))
    requires OutOK(pm, s.sh, Top(s, t), o) && FailFact(s.sh, Top(s, t), o)
    requires AtFail(Moved(pm, s, t, o), t, d)
    ensures Mismatch(s.sh, d)
  {
    var st := Stack(s, t);
    assert |st| > 1 ==> LinkOK(s.sh, st[|st| - 2], st[|st| - 1].d);
  }

  lemma OwnerNotInit(pm: bool, run: seq<State>, ls: seq<Label>, t: Tid, d: Id, n: nat)
    requires IsRun(pm, run, ls) && n < |run| && Owns(run[n], t, d)
    ensures n > 0 && d in run[n].sh.descs
  {
    RunInv(pm, run, ls, n);
    OwnerHasDesc(pm, run[n], t, d);
  }

  lemma OwnerHasDesc(pm: bool, s: State, t: Tid, d: Id)
    requires Inv(pm, s) && Owns(s, t, d)
    ensures d in s.sh.descs
  {
    assert StackOK(pm, s.sh, t, s.threads[t]);
    assert FrameOK(s.sh, s.threads[t][0]);
  }

  lemma FailBackAt(pm: bool, run: seq<State>, ls: seq<Label>, t: Tid, d: Id, n: nat)
    requires IsRun(pm, run, ls) && 0 < n < |run| && Owns(run[n], t, d) && FailPending(run[n], d)
    ensures Owns(run[n - 1], t, d) && d in run[n - 1].sh.descs
    ensures FailPending(run[n - 1], d) || Mismatch(run[n - 1].sh, d)
  {
    RunInv(pm, run, ls, n - 1);
    assert StepAt(pm, run, ls, n - 1);
    FailStepBack(pm, run[n - 1], ls[n - 1], run[n], t, d);
  }

  /**
    A failed call was justified: at some instant inside the call a target word logically
    differed from its expected value.
  */
  lemma {:induction false} FailedForAReason(pm: bool, run: seq<State>, ls: seq<Label>, t: Tid, d: Id, n: nat)
      returns (k: nat)
    requires IsRun(pm, run, ls) && n < |run| && Owns(run[n], t, d) && FailPending(run[n], d)
    ensures k <= n && InCall(run, t, d, k, n) && Mismatch(run[k].sh, d)
    decreases n
  {
    OwnerNotInit(pm, run, ls, t, d, n);
    FailBackAt(pm, run, ls, t, d, n);
    if FailPending(run[n - 1], d) {
      k := FailedForAReason(pm, run, ls, t, d, n - 1);
    } else {
      k := n - 1;
    }
  }

  lemma NewCallNotFailing(pm: bool, s: State, l: Label, s': State)
    requires Inv(pm, s) && Step(pm, s, l, s') && l.Call?
    ensures !FailPending(s', l.d)
  {
    forall t
      ensures !AtFail(s', t, l.d)
    {
      if t != l.t && Stack(s, t) != [] {
        assert StackOK(pm, s.sh, t, s.threads[t]);
        assert FrameOK(s.sh, s.threads[t][|s.threads[t]| - 1]);
      }
    }
  }

  lemma SucceededBefore(pm: bool, s: State, l: Label, s': State, t: Tid, d: Id)
    requires Inv(pm, s) && Step(pm, s, l, s') && Owns(s', t, d) && Decided(s'.sh, d, true)
    ensures Owns(s, t, d) && d in s.sh.descs && d in s'.sh.descs
    ensures AtomicSwap(s, s', d) || Decided(s.sh, d, true)
  {
    OwnedBefore(pm, s, l, s', t, d);
    StepIsAct(pm, s, l, s');
    StepRefinesSwap(pm, s, l, s');
    if Undec(s.sh, d) {
      assert DecidesSucceeded(s, s', d);
    } else {
      assert DescEvolves(s.sh.descs[d], s'.sh.descs[d]);
    }
  }

  lemma SuccessBackAt(pm: bool, run: seq<State>, ls: seq<Label>, t: Tid, d: Id, n: nat)
    requires IsRun(pm, run, ls) && 0 < n < |run| && Owns(run[n], t, d) && Decided(run[n].sh, d, true)
    ensures Owns(run[n - 1], t, d) && d in run[n - 1].sh.descs
    ensures AtomicSwap(run[n - 1], run[n], d) || Decided(run[n - 1].sh, d, true)
  {
    RunInv(pm, run, ls, n - 1);
    assert StepAt(pm, run, ls, n - 1);
    SucceededBefore(pm, run[n - 1], ls[n - 1], run[n], t, d);
  }

  /** A successful call took effect atomically at one instant inside the call. */
  lemma {:induction false} SucceededAtomically(pm: bool, run: seq<State>, ls: seq<Label>, t: Tid, d: Id, n: nat)
      returns (k: nat)
    requires IsRun(pm, run, ls) && n < |run| && Owns(run[n], t, d) && Decided(run[n].sh, d, true)
    ensures k < n && InCall(run, t, d, k, n) && AtomicSwap(run[k], run[k + 1], d)
    decreases n
  {
    OwnerNotInit(pm, run, ls, t, d, n);
    SuccessBackAt(pm, run, ls, t, d, n);
    if Decided(run[n - 1].sh, d, true) {
      k := SucceededAtomically(pm, run, ls, t, d, n - 1);
    } else {
      k := n - 1;
    }
  }

  /** Inside one call there is at most one such instant. */
  lemma SwapsOnce(pm: bool, run: seq<State>, ls: seq<Label>, t: Tid, d: Id, i: nat, j: nat, n: nat)
    requires IsRun(pm, run, ls) && InCall(run, t, d, i, n) && i <= j < n
    requires AtomicSwap(run[i], run[i + 1], d) && AtomicSwap(run[j], run[j + 1], d)
    ensures i == j
  {
    if i < j {
      DecisionIsFinal(pm, run, ls, d, i + 1, j);
    }
  }

  /**
    The result of MwCAS(): true exactly when the call swapped all words at an instant inside
    it; false when at an instant inside it some word had not the expected value.
  */
  lemma ResultIsAtomic(pm: bool, run: seq<State>, ls: seq<Label>, t: Tid, d: Id, n: nat, r: bool)
      returns (k: nat)
    requires IsRun(pm, run, ls) && n < |run| && Owns(run[n], t, d) && Stack(run[n], t)[0].pc == Done(r)
    ensures k <= n && InCall(run, t, d, k, n)
    ensures r ==> k < n && AtomicSwap(run[k], run[k + 1], d)
    ensures !r ==> Mismatch(run[k].sh, d)
  {
    RunInv(pm, run, ls, n);
    DoneOutcome(pm, run[n], t, d, r);
    if r {
      k := SucceededAtomically(pm, run, ls, t, d, n);
    } else {
      k := FailedForAReason(pm, run, ls, t, d, n);
    }
  }

  /** A call that returns false has not swapped anything. */
  lemma FailedNeverSwapped(pm: bool, run: seq<State>, ls: seq<Label>, t: Tid, d: Id, i: nat, n: nat)
    requires IsRun(pm, run, ls) && InCall(run, t, d, i, n) && i < n && Stack(run[n], t)[0].pc == Done(false)
    ensures !AtomicSwap(run[i], run[i + 1], d)
  {
    RunInv(pm, run, ls, n);
    DoneOutcome(pm, run[n], t, d, false);
    DecisionIsFinal(pm, run, ls, d, i + 1, n);
  }

  lemma DoneOutcome(pm: bool, s: State, t: Tid, d: Id, r: bool)
    requires Inv(pm, s) && Owns(s, t, d) && Stack(s, t)[0].pc == Done(r)
    ensures Decided(s.sh, d, r)
  {
    assert StackOK(pm, s.sh, t, s.threads[t]);
    assert FrameOK(s.sh, s.threads[t][0]);
  }

  // ---- Calls by their arguments ----

  /** The descriptor of a call has the words the call was given, in some order. */
  lemma CallWords(pm: bool, run: seq<State>, ls: seq<Label>, i: nat, n: nat)
    requires IsRun(pm, run, ls) && i < |ls| && ls[i].Call? && InCall(run, ls[i].t, ls[i].d, i + 1, n)
    ensures multiset(run[n].sh.descs[ls[i].d].words) == multiset(ls[i].ws)
  {
    assert StepAt(pm, run, ls, i);
    DecisionIsFinal(pm, run, ls, ls[i].d, i + 1, n);
  }

  lemma CallBackAt(pm: bool, run: seq<State>, ls: seq<Label>, t: Tid, d: Id, n: nat)
    requires IsRun(pm, run, ls) && n < |run| && Owns(run[n], t, d)
    ensures n > 0 && d in run[n].sh.descs
    ensures (ls[n - 1].Call? && ls[n - 1].t == t && ls[n - 1].d == d) || Owns(run[n - 1], t, d)
  {
    OwnerNotInit(pm, run, ls, t, d, n);
    RunInv(pm, run, ls, n - 1);
    assert StepAt(pm, run, ls, n - 1);
    OwnedBefore(pm, run[n - 1], ls[n - 1], run[n], t, d);
  }

  /** Whoever is inside a call on d has made it with a step of the run. */
  lemma {:induction false} CallOf(pm: bool, run: seq<State>, ls: seq<Label>, t: Tid, d: Id, n: nat) returns (i: nat)
    requires IsRun(pm, run, ls) && n < |run| && Owns(run[n], t, d)
    ensures i < n && ls[i].Call? && ls[i].t == t && ls[i].d == d && InCall(run, t, d, i + 1, n)
    decreases n
  {
    CallBackAt(pm, run, ls, t, d, n);
    if ls[n - 1].Call? && ls[n - 1].d == d && ls[n - 1].t == t {
      i := n - 1;
    } else {
      i := CallOf(pm, run, ls, t, d, n - 1);
    }
  }

  /** Every word of ws goes from its old to its new value, and no other word changes. */
  ghost predicate SwapsAll(m: map<Addr, Val>, m': map<Addr, Val>, ws: seq<Entry>) {
    && m'.Keys == m.Keys
    && (forall e | e in ws && e.addr != 0 :: e.addr in m && m[e.addr] == e.before && m'[e.addr] == e.after)
    && (forall a | a in m && (forall e | e in ws :: e.addr != 0 ==> e.addr != a) :: m'[a] == m[a])
  }

  /** Some word of ws has not its old value. */
  ghost predicate Differs(m: map<Addr, Val>, ws: seq<Entry>) {
    exists e :: e in ws && e.addr != 0 && e.addr in m && m[e.addr] != e.before
  }

  lemma SameEntries(a: seq<Entry>, b: seq<Entry>)
    requires multiset(a) == multiset(b)
    ensures forall e :: e in a <==> e in b
  {
    forall e
      ensures e in a <==> e in b
    {
      assert e in a <==> e in multiset(a);
    }
  }

  lemma NoEntry(words: seq<Entry>, a: Addr)
    requires a != 0 && forall e | e in words :: e.addr != a
    ensures Find(words, a) == |words|
  {
  }

  lemma WrittenSwapsAll(pm: bool, m: map<Addr, Val>, words: seq<Entry>, ws: seq<Entry>)
    requires ValidWords(pm, m.Keys, words) && AllOld(m, words) && multiset(words) == multiset(ws)
    ensures SwapsAll(m, Written(m, words), ws)
  {
    SameEntries(words, ws);
    var m' := Written(m, words);
    forall e | e in ws && e.addr != 0
      ensures e.addr in m && m[e.addr] == e.before && m'[e.addr] == e.after
    {
      var i :| 0 <= i < |words| && words[i] == e;
      var j := Find(words, e.addr);
      assert j <= i;
    }
    forall a | a in m && (forall e | e in ws :: e.addr != 0 ==> e.addr != a)
      ensures m'[a] == m[a]
    {
      if a != 0 { NoEntry(words, a); }
    }
  }

  /** A step that decides a call swaps exactly the words the call was given. */
  lemma SwapIsOfCall(pm: bool, run: seq<State>, ls: seq<Label>, i: nat, k: nat)
    requires IsRun(pm, run, ls) && i < k < |ls| && ls[i].Call? && InCall(run, ls[i].t, ls[i].d, i + 1, k)
    requires AtomicSwap(run[k], run[k + 1], ls[i].d)
    ensures SwapsAll(Logical(run[k].sh), Logical(run[k + 1].sh), ls[i].ws)
  {
    RunInv(pm, run, ls, k);
    CallWords(pm, run, ls, i, k);
    var d := ls[i].d;
    assert DescOK(pm, run[k].sh.mem.Keys, run[k].sh.descs[d]);
    assert Logical(run[k].sh).Keys == run[k].sh.mem.Keys;
    WrittenSwapsAll(pm, Logical(run[k].sh), run[k].sh.descs[d].words, ls[i].ws);
  }

  /** Logical memory only changes by swaps of calls that are under way, each with its own words. */
  lemma EverySwapIsOfACall(pm: bool, run: seq<State>, ls: seq<Label>, k: nat) returns (i: nat)
    requires IsRun(pm, run, ls) && k < |ls| && Logical(run[k + 1].sh) != Logical(run[k].sh)
    ensures i < k && ls[i].Call? && InCall(run, ls[i].t, ls[i].d, i + 1, k)
    ensures SwapsAll(Logical(run[k].sh), Logical(run[k + 1].sh), ls[i].ws)
  {
    RunInv(pm, run, ls, k);
    RunRefinesSwaps(pm, run, ls, k);
    var d :| DecidesSucceeded(run[k], run[k + 1], d);
    assert OwnerOK(run[k], d);
    i := CallOf(pm, run, ls, run[k].sh.descs[d].owner, d, k);
    SwapIsOfCall(pm, run, ls, i, k);
  }

  lemma CallerIdle(pm: bool, run: seq<State>, ls: seq<Label>, i: nat)
    requires IsRun(pm, run, ls) && i < |ls| && (ls[i].Call? || ls[i].CallRead?)
    ensures Stack(run[i], ls[i].t) == []
  {
    assert StepAt(pm, run, ls, i);
  }

  lemma InCallAt(run: seq<State>, t: Tid, d: Id, k: nat, n: nat, j: nat)
    requires InCall(run, t, d, k, n) && k <= j <= n
    ensures Stack(run[j], t) != []
  {
    assert Owns(run[j], t, d);
  }

  lemma NotBeforeCall(pm: bool, run: seq<State>, ls: seq<Label>, i: nat, n: nat, k: nat)
    requires IsRun(pm, run, ls) && i < |ls| && ls[i].Call? && InCall(run, ls[i].t, ls[i].d, i + 1, n)
    requires InCall(run, ls[i].t, ls[i].d, k, n)
    ensures i < k
  {
    if k <= i {
      InCallAt(run, ls[i].t, ls[i].d, k, n, i);
      CallerIdle(pm, run, ls, i);
    }
  }

  /**
    MwCAS() as its caller sees it: true exactly if, at an instant between call and return,
    every word given goes from its old value to its new one at once; false exactly if at such
    an instant one of them has another value than the old one.
  */
  lemma CallIsAtomic(pm: bool, run: seq<State>, ls: seq<Label>, i: nat, n: nat, r: bool) returns (k: nat)
    requires IsRun(pm, run, ls) && i < n < |run| && ls[i].Call? && InCall(run, ls[i].t, ls[i].d, i + 1, n)
    requires Stack(run[n], ls[i].t)[0].pc == Done(r)
    ensures i < k <= n
    ensures r ==> k < n && SwapsAll(Logical(run[k].sh), Logical(run[k + 1].sh), ls[i].ws)
    ensures !r ==> Differs(Logical(run[k].sh), ls[i].ws)
  {
    var t, d := ls[i].t, ls[i].d;
    k := ResultIsAtomic(pm, run, ls, t, d, n, r);
    NotBeforeCall(pm, run, ls, i, n, k);
    assert InCall(run, t, d, i + 1, k);
    if r {
      SwapIsOfCall(pm, run, ls, i, k);
    } else {
      CallWords(pm, run, ls, i, k);
      var words := run[k].sh.descs[d].words;
      SameEntries(words, ls[i].ws);
      var j :| 0 <= j < |words| && words[j].addr != 0 && words[j].addr in run[k].sh.mem &&
               Logical(run[k].sh)[words[j].addr] != words[j].before;
      assert words[j] in ls[i].ws;
    }
  }

  // ---- Readers ----

  predicate Reading(s: State, t: Tid, a: Addr) {
    Stack(s, t) != [] && Stack(s, t)[0].Read? && Stack(s, t)[0].a == a
  }

  /** A reader's frame that has made up its mind to return v. */
  predicate Settles(f: Frame, v: Val) {
    f.Read? && (f.rpc == ReadDone(v) || (f.rpc.ReadClean? && f.rpc.w.Plain? && f.rpc.w.v == v))
  }

  predicate HasRead(s: State, t: Tid, a: Addr, v: Val) {
    Reading(s, t, a) && Settles(Stack(s, t)[0], v)
  }

  /** What a reader settles on is the logical value of the word at that instant. */
  lemma ReadStepSettles(s: Shared, f: Frame, v: Val)
    requires f.Read? && FrameWF(s, f) && !ReadStep(s, f).Return? && Settles(ReadStep(s, f).f, v)
    ensures Settles(f, v) || (f.a in s.mem && Logical(s)[f.a] == v)
  {
  }

  /** The bottom frame after a step is the old one or, if it was also the top, its successor. */
  lemma BottomAfter(st: seq<Frame>, o: Out)
    requires st != [] && Resumed(st, o) != []
    ensures Resumed(st, o)[0] == st[0] || (|st| == 1 && !o.Return? && Resumed(st, o)[0] == o.f)
  {
  }

  lemma ReadBefore(pm: bool, s: State, l: Label, s': State, t: Tid, a: Addr, v: Val)
    requires Inv(pm, s) && Step(pm, s, l, s') && HasRead(s', t, a, v)
    ensures Reading(s, t, a) && a in s.sh.mem
    ensures HasRead(s, t, a, v) || Logical(s.sh)[a] == v
  {
    if !l.Recycle? && t == l.t {
      ReadByGo(pm, s, t, a, v);
    } else {
      assert Stack(s', t) == Stack(s, t);
    }
    ReaderHasWord(pm, s, t, a);
  }

  lemma ReaderHasWord(pm: bool, s: State, t: Tid, a: Addr)
    requires Inv(pm, s) && Reading(s, t, a)
    ensures a in s.sh.mem
  {
    assert StackOK(pm, s.sh, t, s.threads[t]) && FrameOK(s.sh, s.threads[t][0]);
  }

  lemma ReadByGo(pm: bool, s: State, t: Tid, a: Addr, v: Val)
    requires Inv(pm, s) && Can(pm, s, Go(t)) && HasRead(After(pm, s, Go(t)), t, a, v)
    ensures Reading(s, t, a)
    ensures HasRead(s, t, a, v) || (a in s.sh.mem && Logical(s.sh)[a] == v)
  {
    GoOut(pm, s, t);
    ReadByOut(pm, s, t, a, v, FrameStep(pm, s.sh, Top(s, t)));
    if |Stack(s, t)| == 1 && Top(s, t).Read? && !ReadStep(s.sh, Top(s, t)).Return? && Settles(ReadStep(s.sh, Top(s, t)).f, v) {
      ReadStepSettles(s.sh, Top(s, t), v);
    }
  }

  lemma ReadByOut(pm: bool, s: State, t: Tid, a: Addr, v: Val, o: Out)
    requires Stack(s, t) != [] && (!o.Return? ==> SameCall(Top(s, t), o.f)) && HasRead(Moved(pm, s, t, o), t, a, v)
    ensures Reading(s, t, a)
    ensures HasRead(s, t, a, v) || (|Stack(s, t)| == 1 && !o.Return? && Settles(o.f, v))
  {
    BottomAfter(Stack(s, t), o);
    BottomKept(Stack(s, t), o);
  }

  lemma ReadBackAt(pm: bool, run: seq<State>, ls: seq<Label>, t: Tid, a: Addr, v: Val, n: nat)
    requires IsRun(pm, run, ls) && n < |run| && HasRead(run[n], t, a, v)
    ensures n > 0 && Reading(run[n - 1], t, a) && a in run[n - 1].sh.mem
    ensures HasRead(run[n - 1], t, a, v) || Logical(run[n - 1].sh)[a] == v
  {
    if n > 0 {
      RunInv(pm, run, ls, n - 1);
      assert StepAt(pm, run, ls, n - 1);
      ReadBefore(pm, run[n - 1], ls[n - 1], run[n], t, a, v);
    }
  }

  /** GetValue() returns a value the word logically had at an instant inside the call. */
  lemma {:induction false} ReadIsAtomic(pm: bool, run: seq<State>, ls: seq<Label>, t: Tid, a: Addr, v: Val, n: nat)
      returns (k: nat)
    requires IsRun(pm, run, ls) && n < |run| && HasRead(run[n], t, a, v)
    ensures k <= n && a in run[k].sh.mem && Logical(run[k].sh)[a] == v
    ensures forall j | k <= j <= n :: Reading(run[j], t, a)
    decreases n
  {
    ReadBackAt(pm, run, ls, t, a, v, n);
    if HasRead(run[n - 1], t, a, v) {
      k := ReadIsAtomic(pm, run, ls, t, a, v, n - 1);
    } else {
      k := n - 1;
    }
  }

  /** Thread t has not returned from the call made with step i, up to state n. */
  ghost predicate Busy(run: seq<State>, t: Tid, i: nat, n: nat) {
    i < n < |run| && forall j | i < j <= n :: Stack(run[j], t) != []
  }

  /** The bottom of a stack stays the call that was made. */
  lemma StepKeepsReading(pm: bool, s: State, l: Label, s': State, t: Tid, a: Addr)
    requires Inv(pm, s) && Step(pm, s, l, s') && Reading(s, t, a) && Stack(s', t) != []
    ensures Reading(s', t, a)
  {
    if l.Go? && l.t == t {
      GoOut(pm, s, t);
      BottomKept(s.threads[t], FrameStep(pm, s.sh, Top(s, t)));
    } else {
      assert Stack(s', t) == Stack(s, t);
    }
  }

  lemma {:induction false} ReadsItsWord(pm: bool, run: seq<State>, ls: seq<Label>, i: nat, n: nat)
    requires IsRun(pm, run, ls) && i < |ls| && ls[i].CallRead? && Busy(run, ls[i].t, i, n)
    ensures forall j | i < j <= n :: Reading(run[j], ls[i].t, ls[i].a)
  {
    if n == i + 1 {
      assert StepAt(pm, run, ls, i);
    } else {
      ReadsItsWord(pm, run, ls, i, n - 1);
      RunInv(pm, run, ls, n - 1);
      assert StepAt(pm, run, ls, n - 1);
      StepKeepsReading(pm, run[n - 1], ls[n - 1], run[n], ls[i].t, ls[i].a);
    }
  }

  lemma ReadNotBefore(run: seq<State>, t: Tid, a: Addr, i: nat, k: nat, n: nat)
    requires i < n < |run| && k <= n && Stack(run[i], t) == []
    requires forall j | k <= j <= n :: Reading(run[j], t, a)
    ensures i < k
  {
    assert !Reading(run[i], t, a);
  }

  /** GetValue() as its caller sees it: the value of the word it was asked for, at an instant between call and return. */
  lemma ReadCallIsAtomic(pm: bool, run: seq<State>, ls: seq<Label>, i: nat, n: nat, v: Val) returns (k: nat)
    requires IsRun(pm, run, ls) && i < |ls| && ls[i].CallRead? && Busy(run, ls[i].t, i, n)
    requires Stack(run[n], ls[i].t)[0].Read? && Stack(run[n], ls[i].t)[0].rpc == ReadDone(v)
    ensures i < k <= n && ls[i].a in run[k].sh.mem && Logical(run[k].sh)[ls[i].a] == v
  {
    ReadsItsWord(pm, run, ls, i, n);
    k := ReadIsAtomic(pm, run, ls, ls[i].t, ls[i].a, v, n);
    CallerIdle(pm, run, ls, i);
    ReadNotBefore(run, ls[i].t, ls[i].a, i, k, n);
  }
}
