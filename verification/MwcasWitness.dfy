/**
  Concrete runs of the persistent protocol. The first reaches a crash state that recovery
  refuses; the second shows a helper that meets a conflict at a lower address than the one
  it was called for, after the operation it helps has been decided by someone else.
*/
module MwcasWitness {
  import opened MwcasShared
  import opened MwcasThreads
  import opened MwcasMachine
  import opened MwcasRuns
  import opened Recovery

  // ---- Recovery can refuse a reachable state ----

  // Operation 7 of thread 1 changes word 1 from 5 to 5 (as BzTree does with status words).
  const Same: seq<Entry> := [Entry(1, 5, 5)]

  function One(w: Word, o: Outcome, dirty: bool, t1: Pc): State {
    State(Shared(map[1 := w], map[7 := Desc(1, Same, o, dirty)]), map[1 := [Op(7, true, t1)]])
  }

  function Two(w: Word, o: Outcome, dirty: bool, t1: Pc, t2: seq<Frame>): State {
    State(Shared(map[1 := w], map[7 := Desc(1, Same, o, dirty)]), map[1 := [Op(7, true, t1)], 2 := t2])
  }

  /** Reader 2 became a helper of operation 7 and is about to install its CondCAS pointer. */
  const Late: seq<Frame> := [Read(1, Load), Op(7, false, Inst(0))]

  /** One step from s to s', both written out, by the top frame f of thread t. */
  lemma StepTo(s: State, t: Tid, f: Frame, o: Out, s': State)
    requires Reachable(true, s) && t in s.threads && s.threads[t] != [] && Top(s, t) == f
    requires FrameWF(s.sh, f) && FrameStep(true, s.sh, f) == o
    requires s'.sh.mem == Apply(true, s.sh, OutAct(o)).mem
    requires s'.sh.descs == Apply(true, s.sh, OutAct(o)).descs
    requires s'.threads.Keys == s.threads.Keys && s'.threads[t] == Resumed(s.threads[t], o)
    requires forall u | u in s.threads && u != t :: s'.threads[u] == s.threads[u]
    ensures Reachable(true, s')
  {
    assert s'.threads == s.threads[t := Resumed(s.threads[t], o)];
    ReachStep(true, s, Go(t), s');
  }

  lemma SortSingle(e: Entry)
    ensures SortWords([e]) == [e]
  {
    assert [e][1..] == [];
    assert SortWords([]) == [];
  }

  lemma OwnerCalls()
    ensures Reachable(true, One(Plain(5, false), Undecided, false, Inst(0)))
  {
    var s0 := State(Shared(map[1 := Plain(5, false)], map[]), map[]);
    ReachInit(true, s0);
    SortSingle(Entry(1, 5, 5));
    var s1 := One(Plain(5, false), Undecided, false, Inst(0));
    assert After(true, s0, Call(1, 7, Same)) == s1;
    ReachStep(true, s0, Call(1, 7, Same), s1);
  }

  lemma OwnerInstalls()
    ensures Reachable(true, One(Ptr(7, true), Undecided, false, Inst(1)))
  {
    OwnerCalls();
    var s1 := One(Plain(5, false), Undecided, false, Inst(0));
    var s2 := One(Cond(7, 0), Undecided, false, SwapOwn(0));
    StepTo(s1, 1, Op(7, true, Inst(0)), Next(Install(7, 0), Op(7, true, SwapOwn(0))), s2);
    StepTo(s2, 1, Op(7, true, SwapOwn(0)), Next(Swap(7, 0), Op(7, true, Inst(1))),
           One(Ptr(7, true), Undecided, false, Inst(1)));
  }

  lemma ReaderReads()
    ensures Reachable(true, Two(Ptr(7, true), Undecided, false, Inst(1), [Read(1, Load)]))
  {
    OwnerInstalls();
    var s3 := One(Ptr(7, true), Undecided, false, Inst(1));
    var s4 := Two(Ptr(7, true), Undecided, false, Inst(1), [Read(1, Load)]);
    assert After(true, s3, CallRead(2, 1)).threads == s4.threads;
    ReachStep(true, s3, CallRead(2, 1), s4);
  }

  lemma ReaderHelps()
    ensures Reachable(true, Two(Ptr(7, false), Undecided, false, Inst(1), Late))
  {
    ReaderReads();
    var d := Ptr(7, true);
    var s4 := Two(d, Undecided, false, Inst(1), [Read(1, Load)]);
    var s5 := Two(d, Undecided, false, Inst(1), [Read(1, ReadClean(d))]);
    StepTo(s4, 2, Read(1, Load), Next(Nop, Read(1, ReadClean(d))), s5);
    var s6 := Two(Ptr(7, false), Undecided, false, Inst(1), [Read(1, Load), Op(7, false, Start)]);
    StepTo(s5, 2, Read(1, ReadClean(d)), Help(CleanWord(1), Read(1, Load), 7), s6);
    StepTo(s6, 2, Op(7, false, Start), Next(Nop, Op(7, false, Inst(0))),
           Two(Ptr(7, false), Undecided, false, Inst(1), Late));
  }

  /** A step of the owner while the late helper sleeps. */
  lemma OwnerStep(w: Word, o: Outcome, dirty: bool, pc: Pc, act: Act, w': Word, o': Outcome, dirty': bool, pc': Pc)
    requires Reachable(true, Two(w, o, dirty, pc, Late)) && FrameWF(Two(w, o, dirty, pc, Late).sh, Op(7, true, pc))
    requires FrameStep(true, Two(w, o, dirty, pc, Late).sh, Op(7, true, pc)) == Next(act, Op(7, true, pc'))
    requires Apply(true, Two(w, o, dirty, pc, Late).sh, act).mem == map[1 := w']
    requires Apply(true, Two(w, o, dirty, pc, Late).sh, act).descs == map[7 := Desc(1, Same, o', dirty')]
    ensures Reachable(true, Two(w', o', dirty', pc', Late))
  {
    var s := Two(w, o, dirty, pc, Late);
    StepTo(s, 1, Op(7, true, pc), Next(act, Op(7, true, pc')), Two(w', o', dirty', pc', Late));
  }

  lemma OwnerPersists()
    ensures Reachable(true, Two(Ptr(7, false), Undecided, false, Deciding(Succeeded), Late))
  {
    var p := Ptr(7, false);
    ReaderHelps();
    OwnerStep(p, Undecided, false, Inst(1), Nop, p, Undecided, false, Persist(0));
    OwnerStep(p, Undecided, false, Persist(0), Nop, p, Undecided, false, Persist(1));
    OwnerStep(p, Undecided, false, Persist(1), Nop, p, Undecided, false, Deciding(Succeeded));
  }

  lemma OwnerDecides()
    ensures Reachable(true, Two(Ptr(7, false), Succeeded, false, Final(0, true), Late))
  {
    var p := Ptr(7, false);
    OwnerPersists();
    OwnerStep(p, Undecided, false, Deciding(Succeeded), Decide(7, Succeeded), p, Succeeded, true, ClearLoad);
    OwnerStep(p, Succeeded, true, ClearLoad, Nop, p, Succeeded, true, ClearStore(Succeeded));
    OwnerStep(p, Succeeded, true, ClearStore(Succeeded), StoreStatus(7, Succeeded), p, Succeeded, false, ReadOutcome);
    OwnerStep(p, Succeeded, false, ReadOutcome, Nop, p, Succeeded, false, Final(0, true));
  }

  lemma OwnerFinalizes()
    ensures Reachable(true, Two(Plain(5, true), Succeeded, false, FinalDirty(0, true), Late))
  {
    var p := Ptr(7, false);
    OwnerDecides();
    OwnerStep(p, Succeeded, false, Final(0, true), Nop, p, Succeeded, false, FinalClean(0, true));
    OwnerStep(p, Succeeded, false, FinalClean(0, true), Finalize(7, 0, true),
              Plain(5, true), Succeeded, false, FinalDirty(0, true));
  }

  lemma OwnerFinishes()
    ensures Reachable(true, Two(Plain(5, false), Succeeded, false, Final(1, true), Late))
  {
    OwnerFinalizes();
    OwnerStep(Plain(5, true), Succeeded, false, FinalDirty(0, true), CleanWord(1),
              Plain(5, false), Succeeded, false, Final(1, true));
  }

  /** A crash right after the late helper's install is one that recovery stops at. */
  lemma RecoveryCanRefuse()
    ensures exists s :: Reachable(true, s) && !NoStaleCond(s.sh)
  {
    OwnerFinishes();
    var d := Two(Plain(5, false), Succeeded, false, Final(1, true), Late);
    var e := Two(Cond(7, 0), Succeeded, false, Final(1, true), [Read(1, Load), Op(7, false, SwapOwn(0))]);
    StepTo(d, 2, Op(7, false, Inst(0)), Next(Install(7, 0), Op(7, false, SwapOwn(0))), e);
    assert StaleCond(e.sh, 1);
  }

  /** And only such a crash: one that catches a thread between its two CondCAS instructions. */
  lemma RefusedOnlyInsideCondCAS(pm: bool, s: State)
    requires Inv(pm, s)
    requires forall t, d, i :: AtSwap(s, t, d, i) ==> !Decided(s.sh, d, true)
    ensures NoStaleCond(s.sh)
  {
    forall a | a in s.sh.mem
      ensures !StaleCond(s.sh, a)
    {
      assert CondHeld(s, a);
    }
  }

  // ---- Recovery applies to every crash ----

  lemma {:induction false} SlotsFor(s: Shared, ids: set<Id>) returns (slots: seq<Slot>)
    requires ids <= s.descs.Keys
    ensures forall i | 0 <= i < |slots| :: SlotOK(slots[i], s) && slots[i].id in ids && slots[i].status.InUse?
    ensures forall i, j | 0 <= i < j < |slots| :: slots[i].id != slots[j].id
    ensures forall d | d in ids :: exists i :: 0 <= i < |slots| && slots[i].id == d
    decreases ids
  {
    if ids == {} {
      slots := [];
    } else {
      var d :| d in ids;
      var rest := SlotsFor(s, ids - {d});
      slots := [Slot(d, InUse(s.descs[d].outcome, s.descs[d].dirty), s.descs[d].words)] + rest;
      forall e | e in ids
        ensures exists i :: 0 <= i < |slots| && slots[i].id == e
      {
        if e == d {
          assert slots[0].id == e;
        } else {
          assert e in ids - {d};
          var i :| 0 <= i < |rest| && rest[i].id == e;
          assert slots[i + 1].id == e;
        }
      }
    }
  }

  /** Whenever the process crashes, memory and descriptors meet what Recover asks for. */
  lemma CrashIsRecoverable(run: seq<State>, ls: seq<Label>, k: nat) returns (slots: seq<Slot>)
    requires IsRun(true, run, ls) && k < |run|
    ensures SharedInv(true, run[k].sh) && Represents(slots, run[k].sh) && NoneZeroed(slots)
  {
    RunInv(true, run, ls, k);
    slots := SlotsFor(run[k].sh, run[k].sh.descs.Keys);
    if slots == [] { slots := [Slot(0, Finished, [])]; }
  }

  // ---- A help chain that goes down ----

  // Operation 1 of thread 1 covers words 1 and 2, operation 9 of thread 9 covers word 1 and
  // expects what operation 1 leaves there; thread 2 reads word 2.
  const Wide: seq<Entry> := [Entry(1, 0, 5), Entry(2, 0, 6)]
  const Narrow: seq<Entry> := [Entry(1, 5, 8)]

  function W(w1: Word, w2: Word, o: Outcome, dirty: bool, p1: Pc, t2: seq<Frame>, p9: Pc): State {
    State(Shared(map[1 := w1, 2 := w2],
                 map[1 := Desc(1, Wide, o, dirty), 9 := Desc(9, Narrow, Undecided, false)]),
          map[1 := [Op(1, true, p1)], 2 := t2, 9 := [Op(9, true, p9)]])
  }

  lemma SortWide()
    ensures SortWords(Wide) == Wide
  {
    SortSingle(Wide[1]);
    assert Wide[1..] == [Wide[1]];
  }

  const Fresh: map<Addr, Word> := map[1 := Plain(0, false), 2 := Plain(0, false)]

  function Calling(d: Desc, t2: seq<Frame>): State {
    State(Shared(Fresh, map[1 := d]), map[1 := [Op(1, true, Inst(0))], 2 := t2])
  }

  const ReadCalled: State := State(Shared(Fresh, map[]), map[2 := [Read(2, Load)]])

  lemma OnlyReadCalled()
    ensures Reachable(true, ReadCalled)
  {
    var a := State(Shared(Fresh, map[]), map[]);
    ReachInit(true, a);
    assert After(true, a, CallRead(2, 2)) == ReadCalled;
    ReachStep(true, a, CallRead(2, 2), ReadCalled);
  }

  lemma WideCalled()
    ensures Reachable(true, Calling(Desc(1, Wide, Undecided, false), [Read(2, Load)]))
  {
    OnlyReadCalled();
    SortWide();
    var c := Calling(Desc(1, Wide, Undecided, false), [Read(2, Load)]);
    assert After(true, ReadCalled, Call(1, 1, Wide)).threads == c.threads;
    ReachStep(true, ReadCalled, Call(1, 1, Wide), c);
  }

  lemma AllCalled()
    ensures Reachable(true, W(Plain(0, false), Plain(0, false), Undecided, false, Inst(0), [Read(2, Load)], Inst(0)))
  {
    WideCalled();
    SortSingle(Entry(1, 5, 8));
    var c := Calling(Desc(1, Wide, Undecided, false), [Read(2, Load)]);
    var d := W(Plain(0, false), Plain(0, false), Undecided, false, Inst(0), [Read(2, Load)], Inst(0));
    assert After(true, c, Call(9, 9, Narrow)).threads == d.threads;
    assert After(true, c, Call(9, 9, Narrow)).sh.descs == d.sh.descs;
    ReachStep(true, c, Call(9, 9, Narrow), d);
  }

  /** A step of the owner of operation 1. */
  lemma Step1(w1: Word, w2: Word, o: Outcome, y: bool, p: Pc, t2: seq<Frame>, act: Act,
              w1': Word, w2': Word, o': Outcome, y': bool, p': Pc)
    requires Reachable(true, W(w1, w2, o, y, p, t2, Inst(0)))
    requires FrameWF(W(w1, w2, o, y, p, t2, Inst(0)).sh, Op(1, true, p))
    requires FrameStep(true, W(w1, w2, o, y, p, t2, Inst(0)).sh, Op(1, true, p)) == Next(act, Op(1, true, p'))
    requires Apply(true, W(w1, w2, o, y, p, t2, Inst(0)).sh, act).mem == map[1 := w1', 2 := w2']
    requires Apply(true, W(w1, w2, o, y, p, t2, Inst(0)).sh, act).descs ==
               map[1 := Desc(1, Wide, o', y'), 9 := Desc(9, Narrow, Undecided, false)]
    ensures Reachable(true, W(w1', w2', o', y', p', t2, Inst(0)))
  {
    StepTo(W(w1, w2, o, y, p, t2, Inst(0)), 1, Op(1, true, p), Next(act, Op(1, true, p')),
           W(w1', w2', o', y', p', t2, Inst(0)));
  }

  lemma BothInstalled()
    ensures Reachable(true, W(Ptr(1, true), Ptr(1, true), Undecided, false, Inst(2), [Read(2, Load)], Inst(0)))
  {
    var v, r := Plain(0, false), [Read(2, Load)];
    AllCalled();
    Step1(v, v, Undecided, false, Inst(0), r, Install(1, 0), Cond(1, 0), v, Undecided, false, SwapOwn(0));
    Step1(Cond(1, 0), v, Undecided, false, SwapOwn(0), r, Swap(1, 0), Ptr(1, true), v, Undecided, false, Inst(1));
    Step1(Ptr(1, true), v, Undecided, false, Inst(1), r, Install(1, 1),
          Ptr(1, true), Cond(1, 1), Undecided, false, SwapOwn(1));
    Step1(Ptr(1, true), Cond(1, 1), Undecided, false, SwapOwn(1), r, Swap(1, 1),
          Ptr(1, true), Ptr(1, true), Undecided, false, Inst(2));
  }

  const Helper: seq<Frame> := [Read(2, Load), Op(1, false, Inst(0))]

  lemma HelperStarts()
    ensures Reachable(true, W(Ptr(1, true), Ptr(1, false), Undecided, false, Inst(2), Helper, Inst(0)))
  {
    BothInstalled();
    var d := Ptr(1, true);
    var a := W(d, d, Undecided, false, Inst(2), [Read(2, Load)], Inst(0));
    var b := W(d, d, Undecided, false, Inst(2), [Read(2, ReadClean(d))], Inst(0));
    StepTo(a, 2, Read(2, Load), Next(Nop, Read(2, ReadClean(d))), b);
    var c := W(d, Ptr(1, false), Undecided, false, Inst(2), [Read(2, Load), Op(1, false, Start)], Inst(0));
    StepTo(b, 2, Read(2, ReadClean(d)), Help(CleanWord(2), Read(2, Load), 1), c);
    StepTo(c, 2, Op(1, false, Start), Next(Nop, Op(1, false, Inst(0))),
           W(d, Ptr(1, false), Undecided, false, Inst(2), Helper, Inst(0)));
  }

  lemma WidePersisted()
    ensures Reachable(true, W(Ptr(1, false), Ptr(1, false), Undecided, false, Deciding(Succeeded), Helper, Inst(0)))
  {
    var d, c := Ptr(1, true), Ptr(1, false);
    HelperStarts();
    Step1(d, c, Undecided, false, Inst(2), Helper, Nop, d, c, Undecided, false, Persist(0));
    Step1(d, c, Undecided, false, Persist(0), Helper, CleanWord(1), c, c, Undecided, false, Persist(1));
    Step1(c, c, Undecided, false, Persist(1), Helper, Nop, c, c, Undecided, false, Persist(2));
    Step1(c, c, Undecided, false, Persist(2), Helper, Nop, c, c, Undecided, false, Deciding(Succeeded));
  }

  lemma WideJustDecided()
    ensures Reachable(true, W(Ptr(1, false), Ptr(1, false), Succeeded, true, ClearLoad, Helper, Inst(0)))
  {
    var c := Ptr(1, false);
    WidePersisted();
    Step1(c, c, Undecided, false, Deciding(Succeeded), Helper, Decide(1, Succeeded), c, c, Succeeded, true, ClearLoad);
  }

  lemma WideDecided()
    ensures Reachable(true, W(Ptr(1, false), Ptr(1, false), Succeeded, false, ReadOutcome, Helper, Inst(0)))
  {
    var c := Ptr(1, false);
    WideJustDecided();
    Step1(c, c, Succeeded, true, ClearLoad, Helper, Nop, c, c, Succeeded, true, ClearStore(Succeeded));
    Step1(c, c, Succeeded, true, ClearStore(Succeeded), Helper, StoreStatus(1, Succeeded),
          c, c, Succeeded, false, ReadOutcome);
  }

  lemma WideFinalizing()
    ensures Reachable(true, W(Ptr(1, false), Ptr(1, false), Succeeded, false, FinalClean(0, true), Helper, Inst(0)))
  {
    var c := Ptr(1, false);
    WideDecided();
    Step1(c, c, Succeeded, false, ReadOutcome, Helper, Nop, c, c, Succeeded, false, Final(0, true));
    Step1(c, c, Succeeded, false, Final(0, true), Helper, Nop, c, c, Succeeded, false, FinalClean(0, true));
  }

  lemma WideFirstFinal()
    ensures Reachable(true, W(Plain(5, false), Ptr(1, false), Succeeded, false, Final(1, true), Helper, Inst(0)))
  {
    var c := Ptr(1, false);
    WideFinalizing();
    Step1(c, c, Succeeded, false, FinalClean(0, true), Helper, Finalize(1, 0, true),
          Plain(5, true), c, Succeeded, false, FinalDirty(0, true));
    Step1(Plain(5, true), c, Succeeded, false, FinalDirty(0, true), Helper, CleanWord(1),
          Plain(5, false), c, Succeeded, false, Final(1, true));
  }

  lemma NarrowInstalling()
    ensures Reachable(true, W(Ptr(9, true), Ptr(1, false), Succeeded, false, Final(1, true), Helper, Inst(1)))
  {
    WideFirstFinal();
    var c, f := Ptr(1, false), Final(1, true);
    var s0 := W(Plain(5, false), c, Succeeded, false, f, Helper, Inst(0));
    var s1 := W(Cond(9, 0), c, Succeeded, false, f, Helper, SwapOwn(0));
    StepTo(s0, 9, Op(9, true, Inst(0)), Next(Install(9, 0), Op(9, true, SwapOwn(0))), s1);
    StepTo(s1, 9, Op(9, true, SwapOwn(0)), Next(Swap(9, 0), Op(9, true, Inst(1))),
           W(Ptr(9, true), c, Succeeded, false, f, Helper, Inst(1)));
  }

  lemma NarrowInstalled()
    ensures Reachable(true, W(Ptr(9, false), Ptr(1, false), Succeeded, false, Final(1, true), Helper, Persist(1)))
  {
    NarrowInstalling();
    var c, f := Ptr(1, false), Final(1, true);
    var s2 := W(Ptr(9, true), c, Succeeded, false, f, Helper, Inst(1));
    var s3 := W(Ptr(9, true), c, Succeeded, false, f, Helper, Persist(0));
    StepTo(s2, 9, Op(9, true, Inst(1)), Next(Nop, Op(9, true, Persist(0))), s3);
    StepTo(s3, 9, Op(9, true, Persist(0)), Next(CleanWord(1), Op(9, true, Persist(1))),
           W(Ptr(9, false), c, Succeeded, false, f, Helper, Persist(1)));
  }

  /** So without "undecided" the addresses of nested conflicts need not increase. */
  lemma ConflictsCanDescend()
    ensures exists s, t :: Reachable(true, s) && |Stack(s, t)| == 3
              && CanBlock(s.sh, Stack(s, t)[0]) && CanBlock(s.sh, Stack(s, t)[1])
              && BlockAddr(s.sh, Stack(s, t)[0]) > BlockAddr(s.sh, Stack(s, t)[1])
  {
    NarrowInstalled();
    var c, f := Ptr(1, false), Final(1, true);
    var a := W(Ptr(9, false), c, Succeeded, false, f, Helper, Persist(1));
    var b := W(Ptr(9, false), c, Succeeded, false, f, Helper + [Op(9, false, Start)], Persist(1));
    StepTo(a, 2, Op(1, false, Inst(0)), Help(Nop, Op(1, false, Inst(0)), 9), b);
    assert |Stack(b, 2)| == 3 && BlockAddr(b.sh, Stack(b, 2)[0]) == 2 && BlockAddr(b.sh, Stack(b, 2)[1]) == 1;
  }
}
