/**
  What the operations of the epoch manager achieve: Protect enters the epoch it loaded, Unprotect
  leaves, a bump adds one, and a scan stores exactly the least epoch it has met, less one.
*/
module EpochScan {
  import opened Epoch

  // ---- Scans ----

  /** m is the least of start and the epochs met, those that are zero left out. */
  predicate IsLeast(m: nat, start: nat, met: seq<nat>) {
    && m <= start && (forall x | 0 <= x < |met| && met[x] != 0 :: m <= met[x])
    && (m == start || exists x :: 0 <= x < |met| && met[x] != 0 && m == met[x])
  }

  lemma LeastUnique(m: nat, m': nat, start: nat, met: seq<nat>)
    requires IsLeast(m, start, met) && IsLeast(m', start, met)
    ensures m == m'
  {
  }

  lemma LeastNext(m: nat, start: nat, met: seq<nat>, e: nat)
    requires IsLeast(m, start, met)
    ensures IsLeast(if e != 0 && e < m then e else m, start, met + [e])
  {
    var all := met + [e];
    assert all[|met|] == e;
    forall x | 0 <= x < |met| ensures all[x] == met[x] { }
    if m != start && !(e != 0 && e < m) {
      var x :| 0 <= x < |met| && met[x] != 0 && m == met[x];
      assert all[x] == m;
    }
  }

  /** Scan k runs from its bump, step i, up to state n. */
  predicate Scans(ls: seq<Label>, k: Scan, i: nat, n: nat) {
    i < n <= |ls| && ls[i] == Bump(k) && forall j | i < j < n :: ls[j] != ScanStore(k)
  }

  /** The value that entry x had when it was read. */
  predicate ReadAt(run: seq<State>, ls: seq<Label>, k: Scan, x: nat, at: nat, v: nat) {
    at < |ls| < |run| && ls[at] == ScanRead(k) && x < |run[at].prot| && run[at].prot[x] == v
  }

  /** The scan has read the first entries, each at an instant of its own; the values were those in met. */
  ghost predicate HasMet(run: seq<State>, ls: seq<Label>, k: Scan, i: nat, n: nat, ats: seq<nat>, met: seq<nat>) {
    |ats| == |met| && forall x | 0 <= x < |ats| :: i < ats[x] < n && ReadAt(run, ls, k, x, ats[x], met[x])
  }

  lemma {:induction false} ScanProgress(size: nat, run: seq<State>, ls: seq<Label>, k: Scan, i: nat, n: nat)
      returns (ats: seq<nat>, met: seq<nat>)
    requires IsRun(size, run, ls) && Scans(ls, k, i, n)
    ensures k in run[n].scans && run[n].scans[k].start == run[i].current && run[n].scans[k].next == |met|
    ensures HasMet(run, ls, k, i, n, ats, met) && IsLeast(run[n].scans[k].oldest, run[i].current, met)
    decreases n
  {
    assert StepAt(run, ls, n - 1);
    if n == i + 1 {
      ats, met := [], [];
    } else {
      ats, met := ScanProgress(size, run, ls, k, i, n - 1);
      if ls[n - 1] == ScanRead(k) {
        var c := run[n - 1].scans[k];
        var e := run[n - 1].prot[c.next];
        LeastNext(c.oldest, run[i].current, met, e);
        ats, met := ats + [n - 1], met + [e];
      }
    }
  }

  /**
    The answer of a scan: every entry is read once, at some instant between the bump and the
    store, and the safe epoch is one less than the least of the epoch at the bump and the
    epochs met.
  */
  lemma ScanStoresLeast(size: nat, run: seq<State>, ls: seq<Label>, k: Scan, i: nat, j: nat)
      returns (ats: seq<nat>, met: seq<nat>)
    requires IsRun(size, run, ls) && Scans(ls, k, i, j) && j < |ls| && ls[j] == ScanStore(k)
    ensures |met| == |run[j].prot| == size && HasMet(run, ls, k, i, j, ats, met)
    ensures IsLeast(run[j + 1].safe + 1, run[i].current, met)
  {
    ats, met := ScanProgress(size, run, ls, k, i, j);
    TableSize(size, run, ls, j);
    assert StepAt(run, ls, j);
    RunInv(size, run, ls, j);
    assert ScanOK(run[j], run[j].scans[k]);
  }

  lemma {:induction false} TableSize(size: nat, run: seq<State>, ls: seq<Label>, n: nat)
    requires IsRun(size, run, ls) && n < |run|
    ensures |run[n].prot| == size
  {
    if n > 0 {
      TableSize(size, run, ls, n - 1);
      assert StepAt(run, ls, n - 1);
    }
  }

  /** With a table that does not change meanwhile, these are the epochs in the table. */
  lemma QuietScan(size: nat, run: seq<State>, ls: seq<Label>, k: Scan, i: nat, j: nat)
    requires IsRun(size, run, ls) && Scans(ls, k, i, j) && j < |ls| && ls[j] == ScanStore(k)
    requires forall n | i <= n <= j :: run[n].prot == run[i].prot
    ensures IsLeast(run[j + 1].safe + 1, run[i].current, run[i].prot)
  {
    var ats, met := ScanStoresLeast(size, run, ls, k, i, j);
    forall x | 0 <= x < |met|
      ensures met[x] == run[i].prot[x]
    {
      assert ReadAt(run, ls, k, x, ats[x], met[x]);
      assert run[ats[x]].prot == run[i].prot;
    }
    assert met == run[i].prot;
  }

  /** If nobody is protected during the scan, every item stamped before the bump can be reclaimed. */
  lemma QuietScanReclaims(size: nat, run: seq<State>, ls: seq<Label>, k: Scan, i: nat, j: nat, x: Item)
    requires IsRun(size, run, ls) && Scans(ls, k, i, j) && j < |ls| && ls[j] == ScanStore(k)
    requires forall n, e | i <= n <= j && 0 <= e < |run[n].prot| :: run[n].prot[e] == 0
    ensures run[j + 1].safe + 1 == run[i].current
    ensures x in run[j + 1].items && run[j + 1].items[x].Stamped? && run[j + 1].items[x].epoch < run[i].current ==>
              Can(run[j + 1], Approve(x))
  {
    var ats, met := ScanStoresLeast(size, run, ls, k, i, j);
    forall e | 0 <= e < |met|
      ensures met[e] == 0
    {
      assert ReadAt(run, ls, k, e, ats[e], met[e]);
      assert run[ats[e]].prot[e] == 0;
    }
  }

  // ---- Protect, Unprotect, bumps, stamps ----

  /** Thread t loads with step i and stores with step j; no other Protect() of it comes between. */
  predicate Protects(ls: seq<Label>, t: Tid, i: nat, j: nat) {
    && i < j < |ls| && ls[i] == ProtectLoad(t) && ls[j] == ProtectStore(t)
    && forall n | i < n < j :: ls[n] != ProtectStore(t)
  }

  lemma {:induction false} LoadedStays(size: nat, run: seq<State>, ls: seq<Label>, t: Tid, i: nat, n: nat)
    requires IsRun(size, run, ls) && i < n <= |ls| && ls[i] == ProtectLoad(t) && forall m | i < m < n :: ls[m] != ProtectStore(t)
    ensures t in run[n].loaded && run[n].loaded[t] == run[i].current
    decreases n
  {
    assert StepAt(run, ls, n - 1);
    if n > i + 1 { LoadedStays(size, run, ls, t, i, n - 1); }
  }

  lemma EntryStays(s: State, l: Label, t: Tid)
    requires Inv(s) && Can(s, l) && Protected(s, t) && l != Unprotect(t)
    ensures Protected(After(s, l), t) && After(s, l).prot[After(s, l).slot[t]] == s.prot[s.slot[t]]
  {
    match l
    case ProtectStore(u) => EntriesDiffer(s, t, u);
    case Unprotect(u) => EntriesDiffer(s, t, u);
    case _ =>
  }

  /** From its store to its Unprotect() the thread is protected, in the epoch that was current when Protect() loaded it. */
  lemma {:induction false} ProtectedBetween(size: nat, run: seq<State>, ls: seq<Label>, t: Tid, i: nat, j: nat, n: nat)
    requires IsRun(size, run, ls) && Protects(ls, t, i, j) && j < n <= |ls| && forall m | j < m < n :: ls[m] != Unprotect(t)
    ensures Protected(run[n], t) && run[n].prot[run[n].slot[t]] == run[i].current
    decreases n
  {
    RunInv(size, run, ls, n - 1);
    assert StepAt(run, ls, n - 1);
    if n == j + 1 {
      LoadedStays(size, run, ls, t, i, j);
      RunInv(size, run, ls, i);
    } else {
      ProtectedBetween(size, run, ls, t, i, j, n - 1);
      EntryStays(run[n - 1], ls[n - 1], t);
    }
  }

  lemma EntryStaysEmpty(s: State, l: Label, t: Tid)
    requires Inv(s) && Can(s, l) && t in s.slot && !Protected(s, t) && l != ProtectStore(t)
    ensures t in After(s, l).slot && !Protected(After(s, l), t)
  {
    match l
    case ProtectStore(u) => EntriesDiffer(s, t, u);
    case _ =>
  }

  /** From Unprotect() to the store of the next Protect() it is not. */
  lemma {:induction false} UnprotectedBetween(size: nat, run: seq<State>, ls: seq<Label>, t: Tid, i: nat, n: nat)
    requires IsRun(size, run, ls) && i < n <= |ls| && ls[i] == Unprotect(t) && forall m | i < m < n :: ls[m] != ProtectStore(t)
    ensures t in run[n].slot && !Protected(run[n], t)
    decreases n
  {
    RunInv(size, run, ls, n - 1);
    assert StepAt(run, ls, n - 1);
    if n > i + 1 {
      UnprotectedBetween(size, run, ls, t, i, n - 1);
      EntryStaysEmpty(run[n - 1], ls[n - 1], t);
    }
  }

  function Bumps(ls: seq<Label>): nat {
    if ls == [] then 0 else Bumps(ls[..|ls| - 1]) + if ls[|ls| - 1].Bump? then 1 else 0
  }

  /** The epoch counts the bumps. */
  lemma {:induction false} EpochCountsBumps(size: nat, run: seq<State>, ls: seq<Label>, n: nat)
    requires IsRun(size, run, ls) && n < |run|
    ensures run[n].current == 1 + Bumps(ls[..n])
  {
    if n > 0 {
      EpochCountsBumps(size, run, ls, n - 1);
      assert StepAt(run, ls, n - 1);
      assert ls[..n][..n - 1] == ls[..n - 1];
    }
  }

  /** An item keeps the epoch that was current when it was stamped. */
  lemma {:induction false} StampStays(size: nat, run: seq<State>, ls: seq<Label>, x: Item, i: nat, n: nat)
    requires IsRun(size, run, ls) && i < n <= |ls| && ls[i] == Stamp(x)
    ensures x in run[n].items && run[n].items[x].Stamped? && run[n].items[x].epoch == run[i].current
    decreases n
  {
    assert StepAt(run, ls, n - 1);
    if n > i + 1 { StampStays(size, run, ls, x, i, n - 1); }
  }
}
