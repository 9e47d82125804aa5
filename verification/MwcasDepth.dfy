/**
  How deep helpers can nest: over a single word, deeper than any number. A helper that sleeps
  right after it was called wakes up when its operation is long decided, finds the next operation
  on the same word, and helps that one, too.
*/
module MwcasDepth {
  import opened MwcasShared
  import opened MwcasThreads
  import opened MwcasMachine
  import opened MwcasRuns
  import opened MwcasWitness

  type Descs = map<Id, Desc>

  /** Thread 1 runs operations on word 1, one after another; thread 2 is a reader. */
  function St(w: Word, ds: Descs, one: seq<Frame>, two: seq<Frame>): State {
    State(Shared(map[1 := w], ds), map[1 := one, 2 := two])
  }

  function With(ds: Descs, d: Id, o: Outcome, dirty: bool): Descs { ds[d := Desc(1, Same, o, dirty)] }

  /** Operations 1 to n, all done. */
  function Past(n: nat): Descs { if n == 0 then map[] else With(Past(n - 1), n, Succeeded, false) }

  /** The reader, and on top of it a helper for each of them, about to install its first word. */
  function Nested(n: nat): seq<Frame> {
    if n == 0 then [Read(1, Load)] else Nested(n - 1) + [Op(n, false, Inst(0))]
  }

  lemma {:induction false} PastKeys(n: nat)
    ensures forall d :: d in Past(n) <==> 0 < d <= n
    ensures forall d | d in Past(n) :: Past(n)[d] == Desc(1, Same, Succeeded, false)
  {
    if n > 0 { PastKeys(n - 1); }
  }

  /** A step of thread 1 on operation d. */
  lemma OwnerGoes(ds: Descs, d: Id, two: seq<Frame>, w: Word, o: Outcome, dirty: bool, pc: Pc,
                  act: Act, w': Word, o': Outcome, dirty': bool, pc': Pc)
    requires Reachable(true, St(w, With(ds, d, o, dirty), [Op(d, true, pc)], two))
    requires var sh := Shared(map[1 := w], With(ds, d, o, dirty));
             && FrameWF(sh, Op(d, true, pc)) && FrameStep(true, sh, Op(d, true, pc)) == Next(act, Op(d, true, pc'))
             && Apply(true, sh, act).mem == map[1 := w'] && Apply(true, sh, act).descs == With(ds, d, o', dirty')
    ensures Reachable(true, St(w', With(ds, d, o', dirty'), [Op(d, true, pc')], two))
  {
    var s := St(w, With(ds, d, o, dirty), [Op(d, true, pc)], two);
    var s' := St(w', With(ds, d, o', dirty'), [Op(d, true, pc')], two);
    StepTo(s, 1, Op(d, true, pc), Next(act, Op(d, true, pc')), s');
  }

  const P: Word := Plain(5, false)

  lemma StartReading()
    ensures Reachable(true, St(P, map[], [], Nested(0)))
  {
    var s0 := State(Shared(map[1 := P], map[]), map[]);
    ReachInit(true, s0);
    var s1 := State(Shared(map[1 := P], map[]), map[2 := [Read(1, Load)]]);
    assert After(true, s0, CallRead(2, 1)) == s1;
    ReachStep(true, s0, CallRead(2, 1), s1);
    var s2 := St(P, map[], [Read(1, Load)], Nested(0));
    assert After(true, s1, CallRead(1, 1)).threads == s2.threads;
    ReachStep(true, s1, CallRead(1, 1), s2);
    var s3 := St(P, map[], [Read(1, ReadDone(5))], Nested(0));
    StepTo(s2, 1, Read(1, Load), Next(Nop, Read(1, ReadDone(5))), s3);
    StepTo(s3, 1, Read(1, ReadDone(5)), Return, St(P, map[], [], Nested(0)));
  }

  /** Thread 1 calls its next operation. */
  lemma Called(ds: Descs, d: Id, two: seq<Frame>)
    requires Reachable(true, St(P, ds, [], two)) && d !in ds
    ensures Reachable(true, St(P, With(ds, d, Undecided, false), [Op(d, true, Inst(0))], two))
  {
    SortSingle(Entry(1, 5, 5));
    var s := St(P, ds, [], two);
    var s' := St(P, With(ds, d, Undecided, false), [Op(d, true, Inst(0))], two);
    assert After(true, s, Call(1, d, Same)).threads == s'.threads;
    ReachStep(true, s, Call(1, d, Same), s');
  }

  /** It is installed, and the word made clean. */
  lemma Swapped(ds: Descs, d: Id, two: seq<Frame>)
    requires Reachable(true, St(P, ds, [], two)) && d !in ds
    ensures Reachable(true, St(Ptr(d, true), With(ds, d, Undecided, false), [Op(d, true, Inst(1))], two))
  {
    Called(ds, d, two);
    OwnerGoes(ds, d, two, P, Undecided, false, Inst(0), Install(d, 0), Cond(d, 0), Undecided, false, SwapOwn(0));
    OwnerGoes(ds, d, two, Cond(d, 0), Undecided, false, SwapOwn(0), Swap(d, 0), Ptr(d, true), Undecided, false, Inst(1));
  }

  lemma Installed(ds: Descs, d: Id, two: seq<Frame>)
    requires Reachable(true, St(P, ds, [], two)) && d !in ds
    ensures Reachable(true, St(Ptr(d, false), With(ds, d, Undecided, false), [Op(d, true, Persist(1))], two))
  {
    Swapped(ds, d, two);
    OwnerGoes(ds, d, two, Ptr(d, true), Undecided, false, Inst(1), Nop, Ptr(d, true), Undecided, false, Persist(0));
    OwnerGoes(ds, d, two, Ptr(d, true), Undecided, false, Persist(0), CleanWord(1), Ptr(d, false), Undecided, false, Persist(1));
  }

  /** Thread 1 finishes the operation. */
  lemma Decides(ds: Descs, d: Id, two: seq<Frame>)
    requires Reachable(true, St(Ptr(d, false), With(ds, d, Undecided, false), [Op(d, true, Persist(1))], two))
    ensures Reachable(true, St(Ptr(d, false), With(ds, d, Succeeded, true), [Op(d, true, ClearLoad)], two))
  {
    var w := Ptr(d, false);
    OwnerGoes(ds, d, two, w, Undecided, false, Persist(1), Nop, w, Undecided, false, Deciding(Succeeded));
    OwnerGoes(ds, d, two, w, Undecided, false, Deciding(Succeeded), Decide(d, Succeeded), w, Succeeded, true, ClearLoad);
  }

  lemma Cleans(ds: Descs, d: Id, two: seq<Frame>)
    requires Reachable(true, St(Ptr(d, false), With(ds, d, Succeeded, true), [Op(d, true, ClearLoad)], two))
    ensures Reachable(true, St(Ptr(d, false), With(ds, d, Succeeded, false), [Op(d, true, Final(0, true))], two))
  {
    var w := Ptr(d, false);
    OwnerGoes(ds, d, two, w, Succeeded, true, ClearLoad, Nop, w, Succeeded, true, ClearStore(Succeeded));
    OwnerGoes(ds, d, two, w, Succeeded, true, ClearStore(Succeeded), StoreStatus(d, Succeeded), w, Succeeded, false, ReadOutcome);
    OwnerGoes(ds, d, two, w, Succeeded, false, ReadOutcome, Nop, w, Succeeded, false, Final(0, true));
  }

  lemma Finalizes(ds: Descs, d: Id, two: seq<Frame>)
    requires Reachable(true, St(Ptr(d, false), With(ds, d, Succeeded, false), [Op(d, true, Final(0, true))], two))
    ensures Reachable(true, St(Plain(5, true), With(ds, d, Succeeded, false), [Op(d, true, FinalDirty(0, true))], two))
  {
    var w := Ptr(d, false);
    OwnerGoes(ds, d, two, w, Succeeded, false, Final(0, true), Nop, w, Succeeded, false, FinalClean(0, true));
    OwnerGoes(ds, d, two, w, Succeeded, false, FinalClean(0, true), Finalize(d, 0, true),
              Plain(5, true), Succeeded, false, FinalDirty(0, true));
  }

  lemma CleansWord(ds: Descs, d: Id, two: seq<Frame>)
    requires Reachable(true, St(Plain(5, true), With(ds, d, Succeeded, false), [Op(d, true, FinalDirty(0, true))], two))
    ensures Reachable(true, St(P, With(ds, d, Succeeded, false), [Op(d, true, Done(true))], two))
  {
    OwnerGoes(ds, d, two, Plain(5, true), Succeeded, false, FinalDirty(0, true), CleanWord(1), P, Succeeded, false, Final(1, true));
    OwnerGoes(ds, d, two, P, Succeeded, false, Final(1, true), Nop, P, Succeeded, false, Done(true));
  }

  lemma Finishes(ds: Descs, d: Id, two: seq<Frame>)
    requires Reachable(true, St(Ptr(d, false), With(ds, d, Undecided, false), [Op(d, true, Persist(1))], two))
    ensures Reachable(true, St(P, With(ds, d, Succeeded, false), [], two))
  {
    Decides(ds, d, two);
    Cleans(ds, d, two);
    Finalizes(ds, d, two);
    CleansWord(ds, d, two);
    var s := St(P, With(ds, d, Succeeded, false), [Op(d, true, Done(true))], two);
    StepTo(s, 1, Op(d, true, Done(true)), Return, St(P, With(ds, d, Succeeded, false), [], two));
  }

  /** Thread 2, blocked at word 1, meets operation d there and calls a helper, which goes to sleep. */
  lemma Helped(ds: Descs, d: Id, below: seq<Frame>, f: Frame)
    requires d !in ds && (f == Read(1, Load) || (f.Op? && !f.own && f.pc == Inst(0) && f.d in ds && ds[f.d].words == Same))
    requires Reachable(true, St(Ptr(d, false), With(ds, d, Undecided, false), [Op(d, true, Persist(1))], below + [f]))
    ensures Reachable(true, St(Ptr(d, false), With(ds, d, Undecided, false), [Op(d, true, Persist(1))],
                               below + [f] + [Op(d, false, Inst(0))]))
  {
    var w, es, one := Ptr(d, false), With(ds, d, Undecided, false), [Op(d, true, Persist(1))];
    var s := St(w, es, one, below + [f]);
    var s1 := St(w, es, one, below + [f] + [Op(d, false, Start)]);
    assert (below + [f])[..|below|] == below;
    StepTo(s, 2, f, Help(Nop, f, d), s1);
    assert (below + [f] + [Op(d, false, Start)])[..|below| + 1] == below + [f];
    StepTo(s1, 2, Op(d, false, Start), Next(Nop, Op(d, false, Inst(0))), St(w, es, one, below + [f] + [Op(d, false, Inst(0))]));
  }

  lemma NextDone(n: nat)
    requires Reachable(true, St(P, Past(n), [], Nested(n)))
    ensures Reachable(true, St(P, Past(n + 1), [], Nested(n + 1)))
  {
    var d, ds, k := n + 1, Past(n), |Nested(n)| - 1;
    PastKeys(n);
    Installed(ds, d, Nested(n));
    assert Nested(n) == Nested(n)[..k] + [Nested(n)[k]];
    Helped(ds, d, Nested(n)[..k], Nested(n)[k]);
    Finishes(ds, d, Nested(n + 1));
  }

  lemma {:induction false} NestedReachable(n: nat)
    ensures Reachable(true, St(P, Past(n), [], Nested(n))) && |Nested(n)| == n + 1
  {
    if n == 0 {
      StartReading();
    } else {
      NestedReachable(n - 1);
      NextDone(n - 1);
    }
  }

  /** For every n there is a reachable stack deeper than n over a memory of one word. */
  lemma DepthUnbounded(n: nat)
    ensures exists s :: Reachable(true, s) && |s.sh.mem.Keys| == 1 && |Stack(s, 2)| > n
  {
    NestedReachable(n);
    var s := St(P, Past(n), [], Nested(n));
    assert s.sh.mem.Keys == {1};
  }
}
