/**
  Helping: chains of operations that help each other climb in address order, so they cannot
  be circular.
*/
module MwcasHelping {
  import opened MwcasShared
  import opened MwcasThreads
  import opened MwcasMachine
  import opened MwcasRuns

  // ---- Help chains ----

  /** On a thread's stack, conflicts lie at increasing addresses while the helped are undecided. */
  lemma {:induction false} StackClimbs(s: State, t: Tid, i: nat, j: nat)
    requires Inv(true, s) && i < j < |Stack(s, t)| - 1
    requires forall k | i < k <= j :: Undec(s.sh, Stack(s, t)[k].d)
    ensures CanBlock(s.sh, Stack(s, t)[i]) && CanBlock(s.sh, Stack(s, t)[j])
    ensures BlockAddr(s.sh, Stack(s, t)[i]) < BlockAddr(s.sh, Stack(s, t)[j])
    decreases j
  {
    var st := s.threads[t];
    assert StackOK(true, s.sh, t, st);
    assert ChainOK(s.sh, st[j - 1], st[j]);
    if i < j - 1 {
      StackClimbs(s, t, i, j - 1);
    }
  }

  /** The helped operations below the top of a stack that are decided already, among frames 1 to n - 1. */
  ghost function DecidedBelow(s: Shared, st: seq<Frame>, n: nat): nat
    requires n <= |st|
  {
    if n <= 1 then 0
    else DecidedBelow(s, st, n - 1) + if st[n - 1].Op? && Undec(s, st[n - 1].d) then 0 else 1
  }

  /** At most this many words: one climb through memory, and another for each decided operation. */
  ghost function Climbs(words: nat, decided: nat): nat { if decided == 0 then words else words + Climbs(words, decided - 1) }

  lemma {:induction false} ClimbsIsProduct(words: nat, decided: nat)
    ensures Climbs(words, decided) == (1 + decided) * words
  {
    if decided > 0 { ClimbsIsProduct(words, decided - 1); }
  }

  /**
    The first n frames of a stack, each blocked at its address; addresses climb except where
    the helped operation is decided.
  */
  lemma {:induction false} BlockedFrames(s: Shared, st: seq<Frame>, n: nat, from: nat)
    requires from < n < |st|
    requires forall k | 0 <= k < |st| - 1 :: CanBlock(s, st[k]) && BlockAddr(s, st[k]) in s.mem
    requires forall k | 0 < k < |st| - 1 :: ChainOK(s, st[k - 1], st[k])
    requires forall k | from < k < n :: st[k].Op? && Undec(s, st[k].d)
    requires from > 0 ==> !(st[from].Op? && Undec(s, st[from].d))
    ensures n <= Climbs(|s.mem.Keys|, DecidedBelow(s, st, n))
    decreases from
  {
    SameCount(s, st, from + 1, n);
    ClimbLength(s, st, from, n);
    if from > 0 {
      var next := LastDecided(s, st, from);
      BlockedFrames(s, st, from, next);
    }
  }

  lemma {:induction false} SameCount(s: Shared, st: seq<Frame>, m: nat, n: nat)
    requires 0 < m <= n <= |st| && forall k | m <= k < n :: st[k].Op? && Undec(s, st[k].d)
    ensures DecidedBelow(s, st, n) == DecidedBelow(s, st, m)
  {
    if m < n { SameCount(s, st, m, n - 1); }
  }

  lemma {:induction false} LastDecided(s: Shared, st: seq<Frame>, n: nat) returns (m: nat)
    requires 0 < n <= |st|
    ensures m < n && (forall k | m < k < n :: st[k].Op? && Undec(s, st[k].d))
    ensures m > 0 ==> !(st[m].Op? && Undec(s, st[m].d))
  {
    if n == 1 || !(st[n - 1].Op? && Undec(s, st[n - 1].d)) { m := n - 1; } else { m := LastDecided(s, st, n - 1); }
  }

  /** A stretch without decided operations visits each word at most once. */
  lemma ClimbLength(s: Shared, st: seq<Frame>, from: nat, n: nat)
    requires from < n < |st|
    requires forall k | 0 <= k < |st| - 1 :: CanBlock(s, st[k]) && BlockAddr(s, st[k]) in s.mem
    requires forall k | 0 < k < |st| - 1 :: ChainOK(s, st[k - 1], st[k])
    requires forall k | from < k < n :: st[k].Op? && Undec(s, st[k].d)
    ensures n - from <= |s.mem.Keys|
  {
    var addrs := seq(n - from, k requires 0 <= k < n - from => BlockAddr(s, st[from + k]));
    forall i, j | 0 <= i < j < |addrs|
      ensures addrs[i] < addrs[j]
    {
      AddrsClimb(s, st, from + i, from + j);
    }
    ClimbingFits(addrs, s.mem.Keys);
  }

  lemma {:induction false} AddrsClimb(s: Shared, st: seq<Frame>, i: nat, j: nat)
    requires i < j < |st| - 1
    requires forall k | 0 < k < |st| - 1 :: ChainOK(s, st[k - 1], st[k])
    requires forall k | i < k <= j :: st[k].Op? && Undec(s, st[k].d)
    ensures CanBlock(s, st[i]) && CanBlock(s, st[j]) && BlockAddr(s, st[i]) < BlockAddr(s, st[j])
    decreases j
  {
    assert ChainOK(s, st[j - 1], st[j]);
    if i < j - 1 { AddrsClimb(s, st, i, j - 1); }
  }

  lemma StackBounded(s: Shared, t: Tid, st: seq<Frame>)
    requires StackOK(true, s, t, st) && |st| > 1
    ensures |st| - 1 <= Climbs(|s.mem.Keys|, DecidedBelow(s, st, |st| - 1))
  {
    forall j | 0 <= j < |st| - 1
      ensures CanBlock(s, st[j]) && BlockAddr(s, st[j]) in s.mem
    {
      assert LinkOK(s, st[j], st[j + 1].d);
    }
    var from := LastDecided(s, st, |st| - 1);
    BlockedFrames(s, st, |st| - 1, from);
  }

  /**
    The recursion depth of a thread: at most one frame per word, and as many again for every
    helped operation on its stack that others have decided in the meantime.
  */
  lemma DepthBounded(run: seq<State>, ls: seq<Label>, k: nat, t: Tid)
    requires IsRun(true, run, ls) && k < |run| && Stack(run[k], t) != []
    ensures var s, st := run[k], Stack(run[k], t);
            |st| <= (1 + DecidedBelow(s.sh, st, |st| - 1)) * |s.sh.mem.Keys| + 1
  {
    StackInOrder(run, ls, k, t);
    DepthOf(run[k].sh, t, Stack(run[k], t));
  }

  lemma StackInOrder(run: seq<State>, ls: seq<Label>, k: nat, t: Tid)
    requires IsRun(true, run, ls) && k < |run| && Stack(run[k], t) != []
    ensures StackOK(true, run[k].sh, t, Stack(run[k], t))
  {
    RunInv(true, run, ls, k);
  }

  lemma DepthOf(s: Shared, t: Tid, st: seq<Frame>)
    requires StackOK(true, s, t, st) && st != []
    ensures |st| <= (1 + DecidedBelow(s, st, |st| - 1)) * |s.mem.Keys| + 1
  {
    ClimbsIsProduct(|s.mem.Keys|, DecidedBelow(s, st, |st| - 1));
    if |st| > 1 { StackBounded(s, t, st); }
  }

  lemma {:induction false} ClimbingFits(xs: seq<nat>, dom: set<nat>)
    requires forall i, j | 0 <= i < j < |xs| :: xs[i] < xs[j]
    requires forall i | 0 <= i < |xs| :: xs[i] in dom
    ensures |xs| <= |dom|
  {
    if xs != [] {
      var x := xs[|xs| - 1];
      ClimbingFits(xs[..|xs| - 1], dom - {x});
    }
  }

  // ---- No circular waiting ----

  /** Undecided d cannot go on at address a, its first word not installed, because of e. */
  ghost predicate Waits(s: Shared, d: Id, a: Addr, e: Id) {
    && Undec(s, d) && Undec(s, e) && d != e && a != 0 && a in s.mem && IsPtr(s.mem[a], e)
    && Find(s.descs[d].words, a) < |s.descs[d].words|
    && InstalledTo(s, d, Find(s.descs[d].words, a))
  }

  lemma WaitClimbs(s: Shared, d: Id, a: Addr, e: Id, b: Addr, f: Id)
    requires SharedInv(true, s) && Waits(s, d, a, e) && Waits(s, e, b, f)
    ensures a < b
  {
    var ws := s.descs[e].words;
    assert WordOK(true, s.descs, a, s.mem[a]);
    assert PrefixAt(s, a);
    assert DescOK(true, s.mem.Keys, s.descs[e]);
    assert !IsPtr(s.mem[ws[Find(ws, b)].addr], e);
  }

  ghost predicate WaitPath(s: Shared, ds: seq<Id>, addrs: seq<Addr>) {
    |ds| == |addrs| + 1 && forall k | 0 <= k < |addrs| :: Waits(s, ds[k], addrs[k], ds[k + 1])
  }

  lemma {:induction false} PathClimbs(s: Shared, ds: seq<Id>, addrs: seq<Addr>, i: nat, j: nat)
    requires SharedInv(true, s) && WaitPath(s, ds, addrs) && i < j < |addrs|
    ensures addrs[i] < addrs[j]
  {
    assert Waits(s, ds[j - 1], addrs[j - 1], ds[j]) && Waits(s, ds[j], addrs[j], ds[j + 1]);
    WaitClimbs(s, ds[j - 1], addrs[j - 1], ds[j], addrs[j], ds[j + 1]);
    if i < j - 1 {
      PathClimbs(s, ds, addrs, i, j - 1);
    }
  }

  /** No operation waits, directly or through others, for itself. */
  lemma NoWaitCycle(run: seq<State>, ls: seq<Label>, k: nat, ds: seq<Id>, addrs: seq<Addr>)
    requires IsRun(true, run, ls) && k < |run|
    requires WaitPath(run[k].sh, ds, addrs) && |addrs| > 0
    ensures ds[0] != ds[|ds| - 1]
  {
    RunInv(true, run, ls, k);
    var s, n := run[k].sh, |addrs|;
    if ds[0] == ds[n] {
      assert Waits(s, ds[0], addrs[0], ds[1]) && Waits(s, ds[n - 1], addrs[n - 1], ds[n]);
      WaitClimbs(s, ds[n - 1], addrs[n - 1], ds[0], addrs[0], ds[1]);
      if n > 1 { PathClimbs(s, ds, addrs, 0, n - 1); }
    }
  }
}
