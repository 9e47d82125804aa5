/**
  What the persistent variant adds: a word without dirty bit has been persisted. An operation is only
  decided as succeeded once all its pointers are, and a reader only returns what is.
*/
module MwcasPersist {
  import opened MwcasShared
  import opened MwcasThreads
  import opened MwcasMachine
  import opened MwcasRuns

  // ---- Pointers before the decision ----

  /** The first n target words hold persisted pointers to d. */
  ghost predicate PersistedTo(s: Shared, d: Id, n: nat)
    requires d in s.descs
  {
    forall j | 0 <= j < n && j < |s.descs[d].words| && s.descs[d].words[j].addr != 0 ::
      s.descs[d].words[j].addr in s.mem && s.mem[s.descs[d].words[j].addr] == Ptr(d, false)
  }

  /** Whoever persists or decides an operation that is undecided has done so with the words before. */
  ghost predicate PersistsOK(s: Shared, f: Frame) {
    f.Op? && Undec(s, f.d) ==>
      && (f.pc.Persist? ==> PersistedTo(s, f.d, f.pc.i))
      && (f.pc == Deciding(Succeeded) ==> PersistedTo(s, f.d, |s.descs[f.d].words|))
  }

  lemma PointerStays(pm: bool, s: Shared, act: Act, d: Id, a: Addr)
    requires SharedInv(pm, s) && Enabled(pm, s, act) && Undec(s, d) && a in s.mem && s.mem[a] == Ptr(d, false)
    ensures a in Apply(pm, s, act).mem && Apply(pm, s, act).mem[a] == Ptr(d, false)
  {
  }

  lemma PersistsStable(pm: bool, s: Shared, act: Act, f: Frame)
    requires SharedInv(pm, s) && Enabled(pm, s, act) && PersistsOK(s, f) && (f.Op? ==> f.d in s.descs)
    ensures PersistsOK(Apply(pm, s, act), f)
  {
    var s' := Apply(pm, s, act);
    if f.Op? && Undec(s', f.d) {
      ActGuarantees(pm, s, act);
      assert DescEvolves(s.descs[f.d], s'.descs[f.d]);
      forall j | 0 <= j < |s.descs[f.d].words| && s.descs[f.d].words[j].addr != 0 && s.descs[f.d].words[j].addr in s.mem &&
                 s.mem[s.descs[f.d].words[j].addr] == Ptr(f.d, false)
        ensures s'.mem[s.descs[f.d].words[j].addr] == Ptr(f.d, false)
      {
        PointerStays(pm, s, act, f.d, s.descs[f.d].words[j].addr);
      }
    }
  }

  lemma WhoPersists(s: Shared, f: Frame)
    requires FrameWF(s, f)
    ensures var o := FrameStep(true, s, f);
            !o.Return? && o.f.Op? && (o.f.pc.Persist? || o.f.pc == Deciding(Succeeded)) ==>
              f.Op? && o.Next? && o.f.d == f.d && (f.pc.Persist? || (f.pc.Inst? && o.f.pc == Persist(0)))
  {
  }

  /** The step of a frame: each turn of the persist loop leaves one more pointer persisted. */
  lemma PersistsStep(s: Shared, f: Frame)
    requires SharedInv(true, s) && FrameOK(s, f) && FrameWF(s, f) && PersistsOK(s, f)
    ensures var o := FrameStep(true, s, f); !o.Return? ==> PersistsOK(Apply(true, s, o.act), o.f)
  {
    WhoPersists(s, f);
    if f.Op? && f.pc.Persist? { PersistTurn(s, f.d, f.own, f.pc.i); }
  }

  lemma PersistTurn(s: Shared, d: Id, own: bool, i: nat)
    requires SharedInv(true, s) && FrameOK(s, Op(d, own, Persist(i))) && FrameWF(s, Op(d, own, Persist(i)))
    requires PersistsOK(s, Op(d, own, Persist(i)))
    ensures var o := FrameStep(true, s, Op(d, own, Persist(i))); o.Next? && PersistsOK(Apply(true, s, o.act), o.f)
  {
    var ws := s.descs[d].words;
    if Undec(s, d) && i < |ws| && ws[i].addr != 0 {
      assert IsPtr(s.mem[ws[i].addr], d);
      PersistWord(s, d, i);
    }
  }

  /** Clearing the dirty bit of word i, if it is set. */
  lemma PersistWord(s: Shared, d: Id, i: nat)
    requires d in s.descs && DescOK(true, s.mem.Keys, s.descs[d]) && i < |s.descs[d].words| && PersistedTo(s, d, i)
    requires var a := s.descs[d].words[i].addr; a != 0 && a in s.mem && IsPtr(s.mem[a], d)
    ensures var a := s.descs[d].words[i].addr;
            PersistedTo(Apply(true, s, if s.mem[a] == Ptr(d, true) then CleanWord(a) else Nop), d, i + 1)
  {
  }

  ghost predicate PersistInv(s: State) {
    forall t, k | t in s.threads && 0 <= k < |s.threads[t]| :: PersistsOK(s.sh, s.threads[t][k])
  }

  lemma FrameAt(s: State, t: Tid, k: nat)
    requires Inv(true, s) && PersistInv(s) && t in s.threads && k < |s.threads[t]|
    ensures PersistsOK(s.sh, s.threads[t][k]) && FrameOK(s.sh, s.threads[t][k])
  {
    assert StackOK(true, s.sh, t, s.threads[t]);
  }

  /** The stack after the step: the frames below stay, a helper starts anew. */
  lemma PersistedStack(s: Shared, st: seq<Frame>, k: nat)
    requires st != [] && FrameWF(s, st[|st| - 1]) && k < |Resumed(st, FrameStep(true, s, st[|st| - 1]))|
    ensures var o := FrameStep(true, s, st[|st| - 1]);
            var f := Resumed(st, o)[k];
            || (k < |st| - 1 && f == st[k]) || (k == |st| - 1 && !o.Return? && f == o.f)
            || (f.Op? && f.pc == Start)
  {
  }

  lemma PersistedMoves(s: State, t: Tid, k: nat)
    requires Inv(true, s) && PersistInv(s) && Can(true, s, Go(t))
    requires var s' := After(true, s, Go(t)); t in s'.threads && k < |s'.threads[t]|
    ensures PersistsOK(After(true, s, Go(t)).sh, After(true, s, Go(t)).threads[t][k])
  {
    var st, top := s.threads[t], |s.threads[t]| - 1;
    PersistedStack(s.sh, st, k);
    FrameAt(s, t, top);
    PersistsStep(s.sh, st[top]);
    if k < top {
      FrameAt(s, t, k);
      LabelEnabled(true, s, Go(t));
      PersistsStable(true, s.sh, LabelAct(true, s, Go(t)), st[k]);
    }
  }

  lemma StepKeepsPersist(s: State, l: Label)
    requires Inv(true, s) && PersistInv(s) && Can(true, s, l)
    ensures PersistInv(After(true, s, l))
  {
    var s' := After(true, s, l);
    LabelEnabled(true, s, l);
    forall t, k | t in s'.threads && 0 <= k < |s'.threads[t]|
      ensures PersistsOK(s'.sh, s'.threads[t][k])
    {
      if l.Go? && l.t == t {
        PersistedMoves(s, t, k);
      } else if !((l.Call? || l.CallRead?) && l.t == t) {
        assert StackOK(true, s.sh, t, s.threads[t]) && FrameOK(s.sh, s.threads[t][k]);
        PersistsStable(true, s.sh, LabelAct(true, s, l), s.threads[t][k]);
      }
    }
  }

  lemma PersistsNext(run: seq<State>, ls: seq<Label>, k: nat)
    requires IsRun(true, run, ls) && k < |ls| && PersistInv(run[k])
    ensures PersistInv(run[k + 1])
  {
    RunInv(true, run, ls, k);
    assert StepAt(true, run, ls, k);
    StepKeepsPersist(run[k], ls[k]);
  }

  lemma {:induction false} RunPersists(run: seq<State>, ls: seq<Label>, k: nat)
    requires IsRun(true, run, ls) && k < |run|
    ensures PersistInv(run[k])
  {
    if k > 0 {
      RunPersists(run, ls, k - 1);
      PersistsNext(run, ls, k - 1);
    }
  }

  lemma WhoDecides(pm: bool, s: Shared, f: Frame)
    requires FrameWF(s, f) && OutAct(FrameStep(pm, s, f)).Decide?
    ensures f.Op? && OutAct(FrameStep(pm, s, f)).d == f.d && f.pc == Deciding(OutAct(FrameStep(pm, s, f)).o)
  {
  }

  lemma DecidesPersisted(s: State, l: Label, s': State, d: Id)
    requires Inv(true, s) && PersistInv(s) && Step(true, s, l, s') && DecidesSucceeded(s, s', d)
    ensures PersistedTo(s.sh, d, |s.sh.descs[d].words|)
  {
    StepIsAct(true, s, l, s');
    var act := LabelAct(true, s, l);
    OnlyDecideDecides(true, s.sh, act, d);
    var f := Top(s, l.t);
    WhoDecides(true, s.sh, f);
    TopPersists(s, l.t);
  }

  lemma TopPersists(s: State, t: Tid)
    requires PersistInv(s) && Stack(s, t) != []
    ensures PersistsOK(s.sh, Top(s, t))
  {
    assert PersistsOK(s.sh, s.threads[t][|s.threads[t]| - 1]);
  }

  /** In no run is an operation decided as succeeded before all its pointers are persisted. */
  lemma DecidedWhenPersisted(run: seq<State>, ls: seq<Label>, k: nat, d: Id)
    requires IsRun(true, run, ls) && k < |ls| && DecidesSucceeded(run[k], run[k + 1], d)
    ensures PersistedTo(run[k].sh, d, |run[k].sh.descs[d].words|)
  {
    RunPersists(run, ls, k);
    RunInv(true, run, ls, k);
    assert StepAt(true, run, ls, k);
    DecidesPersisted(run[k], ls[k], run[k + 1], d);
  }

  // ---- Readers ----

  /** At an instant of the call the word held the value, persisted. */
  ghost predicate SeenClean(run: seq<State>, t: Tid, a: Addr, v: Val, n: nat)
    requires n < |run|
  {
    exists k :: 0 <= k <= n && CleanAt(run, t, a, v, k, n)
  }

  ghost predicate CleanAt(run: seq<State>, t: Tid, a: Addr, v: Val, k: nat, n: nat)
    requires k <= n < |run|
  {
    && (forall j | k <= j <= n :: Reading(run[j], t, a))
    && a in run[k].sh.mem && run[k].sh.mem[a] == Plain(v, false)
  }

  /** The reader has loaded v with its dirty bit, and the word still has both. */
  predicate StillDirty(s: State, t: Tid, a: Addr, v: Val) {
    HasRead(s, t, a, v) && Stack(s, t)[0].rpc == ReadClean(Plain(v, true)) && a in s.sh.mem && s.sh.mem[a] == Plain(v, true)
  }

  /** A dirty value only changes by being persisted. */
  lemma DirtyStays(pm: bool, s: Shared, act: Act, a: Addr, v: Val)
    requires SharedInv(pm, s) && Enabled(pm, s, act) && a in s.mem && s.mem[a] == Plain(v, true)
    ensures a in Apply(pm, s, act).mem && Apply(pm, s, act).mem[a] in {Plain(v, true), Plain(v, false)}
  {
  }

  /** What the reader's own step does. */
  lemma ReaderSettles(pm: bool, s: Shared, f: Frame, v: Val)
    requires f.Read? && FrameWF(s, f) && !ReadStep(s, f).Return? && Settles(ReadStep(s, f).f, v)
    ensures var o := ReadStep(s, f);
            var w, w' := s.mem[f.a], Apply(pm, s, o.act).mem[f.a];
            || w == Plain(v, false) || w' == Plain(v, false)
            || (o.f.rpc == ReadClean(Plain(v, true)) && w' == Plain(v, true))
            || (Settles(f, v) && !(f.rpc == ReadClean(Plain(v, true)) && w == Plain(v, true)))
  {
  }

  lemma SettleStep(pm: bool, s: State, l: Label, s': State, t: Tid, a: Addr, v: Val)
    requires Inv(pm, s) && Step(pm, s, l, s') && HasRead(s', t, a, v)
    ensures Reading(s, t, a) && a in s.sh.mem && a in s'.sh.mem
    ensures || s.sh.mem[a] == Plain(v, false) || s'.sh.mem[a] == Plain(v, false) || StillDirty(s', t, a, v)
            || (HasRead(s, t, a, v) && !StillDirty(s, t, a, v))
  {
    ReadBefore(pm, s, l, s', t, a, v);
    StepIsAct(pm, s, l, s');
    if l.Go? && l.t == t {
      OwnSettle(pm, s, t, a, v);
    } else if !((l.Call? || l.CallRead?) && l.t == t) {
      assert Stack(s', t) == Stack(s, t);
      if StillDirty(s, t, a, v) { DirtyStays(pm, s.sh, LabelAct(pm, s, l), a, v); }
    }
  }

  lemma OwnSettle(pm: bool, s: State, t: Tid, a: Addr, v: Val)
    requires Inv(pm, s) && Can(pm, s, Go(t)) && HasRead(After(pm, s, Go(t)), t, a, v) && Reading(s, t, a) && a in s.sh.mem
    requires Rely(s.sh, After(pm, s, Go(t)).sh)
    ensures var s' := After(pm, s, Go(t));
            && a in s'.sh.mem
            && (|| s.sh.mem[a] == Plain(v, false) || s'.sh.mem[a] == Plain(v, false) || StillDirty(s', t, a, v)
                || (HasRead(s, t, a, v) && !StillDirty(s, t, a, v)))
  {
    var o, s' := FrameStep(pm, s.sh, Top(s, t)), After(pm, s, Go(t));
    BottomAfter(Stack(s, t), o);
    if |Stack(s, t)| == 1 && !o.Return? && Stack(s', t)[0] == o.f {
      ReaderSettles(pm, s.sh, Top(s, t), v);
    } else if StillDirty(s, t, a, v) {
      LabelEnabled(pm, s, Go(t));
      DirtyStays(pm, s.sh, LabelAct(pm, s, Go(t)), a, v);
    }
  }

  lemma SeenNow(run: seq<State>, t: Tid, a: Addr, v: Val, k: nat, n: nat)
    requires k <= n < |run| && CleanAt(run, t, a, v, k, n)
    ensures SeenClean(run, t, a, v, n)
  {
  }

  lemma SeenLater(run: seq<State>, t: Tid, a: Addr, v: Val, n: nat)
    requires n + 1 < |run| && SeenClean(run, t, a, v, n) && Reading(run[n + 1], t, a)
    ensures SeenClean(run, t, a, v, n + 1)
  {
    var k :| 0 <= k <= n && CleanAt(run, t, a, v, k, n);
    assert CleanAt(run, t, a, v, k, n + 1);
  }

  lemma SettleBackAt(pm: bool, run: seq<State>, ls: seq<Label>, t: Tid, a: Addr, v: Val, n: nat)
    requires IsRun(pm, run, ls) && n < |run| && HasRead(run[n], t, a, v)
    ensures n > 0 && Reading(run[n - 1], t, a) && a in run[n - 1].sh.mem && a in run[n].sh.mem
    ensures || run[n - 1].sh.mem[a] == Plain(v, false) || run[n].sh.mem[a] == Plain(v, false) || StillDirty(run[n], t, a, v)
            || (HasRead(run[n - 1], t, a, v) && !StillDirty(run[n - 1], t, a, v))
  {
    ReadBackAt(pm, run, ls, t, a, v, n);
    RunInv(pm, run, ls, n - 1);
    assert StepAt(pm, run, ls, n - 1);
    SettleStep(pm, run[n - 1], ls[n - 1], run[n], t, a, v);
  }

  lemma {:induction false} SettledClean(pm: bool, run: seq<State>, ls: seq<Label>, t: Tid, a: Addr, v: Val, n: nat)
    requires IsRun(pm, run, ls) && n < |run| && HasRead(run[n], t, a, v)
    ensures SeenClean(run, t, a, v, n) || StillDirty(run[n], t, a, v)
  {
    SettleBackAt(pm, run, ls, t, a, v, n);
    if run[n - 1].sh.mem[a] == Plain(v, false) {
      SeenNow(run, t, a, v, n - 1, n);
    } else if run[n].sh.mem[a] == Plain(v, false) {
      SeenNow(run, t, a, v, n, n);
    } else if !StillDirty(run[n], t, a, v) {
      SettledClean(pm, run, ls, t, a, v, n - 1);
      SeenLater(run, t, a, v, n - 1);
    }
  }

  /**
    GetValue() returns what the word held, persisted, at an instant of the call: no value is
    returned that a crash could take back.
  */
  lemma ReadIsPersisted(pm: bool, run: seq<State>, ls: seq<Label>, i: nat, n: nat, v: Val) returns (k: nat)
    requires IsRun(pm, run, ls) && i < |ls| && ls[i].CallRead? && Busy(run, ls[i].t, i, n)
    requires Stack(run[n], ls[i].t)[0].Read? && Stack(run[n], ls[i].t)[0].rpc == ReadDone(v)
    ensures i < k <= n && ls[i].a in run[k].sh.mem && run[k].sh.mem[ls[i].a] == Plain(v, false)
  {
    var t, a := ls[i].t, ls[i].a;
    ReadsItsWord(pm, run, ls, i, n);
    assert Reading(run[n], t, a);
    SettledClean(pm, run, ls, t, a, v, n);
    k :| 0 <= k <= n && CleanAt(run, t, a, v, k, n);
    CallerIdle(pm, run, ls, i);
    ReadNotBefore(run, t, a, i, k, n);
  }
}
