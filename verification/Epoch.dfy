/**
  Epoch-based reclamation: any number of threads entering and leaving the protected region,
  any number of overlapping scans for the safe epoch, and items that are unlinked, stamped
  with an epoch, found safe, and destroyed. Steps interleave sequentially consistently.
*/
module Epoch {

  type Tid = nat      // 0 is the thread id of a table entry that is not taken
  type Item = nat
  type Scan = nat

  /** ComputeNewSafeToReclaimEpoch in progress: next entry to read, running minimum. */
  datatype Scanning = Scanning(start: nat, next: nat, oldest: nat)

  /**
    An item removed from a data structure. `holders` are the threads that were protected when
    it was unlinked and have not left the protected region since.
  */
  datatype Removed = Unstamped(holders: set<Tid>) | Stamped(holders: set<Tid>, epoch: nat, approved: bool, destroyed: bool)

  datatype State = State(
    current: nat,                 // current_epoch_
    safe: nat,                    // safe_to_reclaim_epoch_
    owner: seq<Tid>,              // thread_id of the table entries
    prot: seq<nat>,               // protected_epoch of the table entries
    slot: map<Tid, nat>,          // the entry each thread has reserved
    loaded: map<Tid, nat>,        // Protect() between its load and its store
    scans: map<Scan, Scanning>,
    items: map<Item, Removed>)

  datatype Label =
    | Reserve(t: Tid, i: nat)     // the CAS of ReserveEntry that succeeds
    | ProtectLoad(t: Tid)
    | ProtectStore(t: Tid)
    | Unprotect(t: Tid)
    | Bump(k: Scan)               // fetch_add of BumpCurrentEpoch
    | ScanRead(k: Scan)
    | ScanStore(k: Scan)
    | Unlink(x: Item)
    | Stamp(x: Item)              // GetCurrentEpoch after the unlink
    | Approve(x: Item)            // IsSafeToReclaim of the stamp returns true
    | Destroy(x: Item)

  ghost predicate Init(s: State, size: nat) {
    && s.current == 1 && s.safe == 0 && |s.owner| == |s.prot| == size
    && (forall i | 0 <= i < size :: s.owner[i] == 0 && s.prot[i] == 0)
    && s.slot == map[] && s.loaded == map[] && s.scans == map[] && s.items == map[]
  }

  predicate Protected(s: State, t: Tid) {
    t in s.slot && s.slot[t] < |s.prot| && s.prot[s.slot[t]] != 0
  }

  function ProtectedSet(s: State): set<Tid> {
    set t | t in s.slot && Protected(s, t)
  }

  predicate IsSafeToReclaim(s: State, e: nat) { e <= s.safe }

  predicate Can(s: State, l: Label) {
    match l
    case Reserve(t, i) => t != 0 && t !in s.slot && i < |s.owner| && s.owner[i] == 0
    case ProtectLoad(t) => t in s.slot && !Protected(s, t) && t !in s.loaded
    case ProtectStore(t) => t in s.slot && t in s.loaded && s.slot[t] < |s.prot|
    case Unprotect(t) => Protected(s, t)
    case Bump(k) => k !in s.scans
    case ScanRead(k) => k in s.scans && s.scans[k].next < |s.prot|
    case ScanStore(k) => k in s.scans && s.scans[k].next >= |s.prot| && s.scans[k].oldest >= 1
    case Unlink(x) => x !in s.items
    case Stamp(x) => x in s.items && s.items[x].Unstamped?
    case Approve(x) => x in s.items && s.items[x].Stamped? && IsSafeToReclaim(s, s.items[x].epoch)
    case Destroy(x) => x in s.items && s.items[x].Stamped? && s.items[x].approved && !s.items[x].destroyed
  }

  function After(s: State, l: Label): State
    requires Can(s, l)
  {
    match l
    case Reserve(t, i) => s.(owner := s.owner[i := t], slot := s.slot[t := i])
    case ProtectLoad(t) => s.(loaded := s.loaded[t := s.current])
    case ProtectStore(t) => s.(prot := s.prot[s.slot[t] := s.loaded[t]], loaded := s.loaded - {t})
    case Unprotect(t) =>
      s.(prot := s.prot[s.slot[t] := 0],
         items := map x | x in s.items :: s.items[x].(holders := s.items[x].holders - {t}))
    case Bump(k) =>
      s.(current := s.current + 1, scans := s.scans[k := Scanning(s.current, 0, s.current)])
    case ScanRead(k) =>
      var c := s.scans[k];
      var e := s.prot[c.next];
      s.(scans := s.scans[k := c.(next := c.next + 1,
                                  oldest := if e != 0 && e < c.oldest then e else c.oldest)])
    case ScanStore(k) => s.(safe := s.scans[k].oldest - 1, scans := s.scans - {k})
    case Unlink(x) => s.(items := s.items[x := Unstamped(ProtectedSet(s))])
    case Stamp(x) => s.(items := s.items[x := Stamped(s.items[x].holders, s.current, false, false)])
    case Approve(x) => s.(items := s.items[x := s.items[x].(approved := true)])
    case Destroy(x) => s.(items := s.items[x := s.items[x].(destroyed := true)])
  }

  // ---- Invariant ----

  /** Every thread has an entry of its own. */
  ghost predicate TableOK(s: State) {
    && |s.owner| == |s.prot|
    && (forall t | t in s.slot :: t != 0 && s.slot[t] < |s.owner| && s.owner[s.slot[t]] == t)
    && (forall i | 0 <= i < |s.prot| :: s.prot[i] <= s.current)
    && (forall t | t in s.loaded :: t in s.slot && s.prot[s.slot[t]] == 0 && 1 <= s.loaded[t] <= s.current)
  }

  ghost predicate ScanOK(s: State, c: Scanning) {
    1 <= c.oldest <= c.start < s.current && c.next <= |s.prot|
  }

  /** A scan that matters to an item has yet to see the holder, or has seen it. */
  ghost predicate ScanRespects(s: State, c: Scanning, t: Tid, e: nat)
    requires t in s.slot && s.slot[t] < |s.prot|
  {
    e >= c.start || c.next <= s.slot[t] || c.oldest <= s.prot[s.slot[t]]
  }

  ghost predicate HolderOK(s: State, r: Removed, t: Tid) {
    && Protected(s, t)
    && (r.Stamped? ==>
          && s.prot[s.slot[t]] <= r.epoch && s.safe < r.epoch
          && (forall k | k in s.scans :: ScanRespects(s, s.scans[k], t, r.epoch)))
  }

  ghost predicate ItemOK(s: State, r: Removed) {
    && (forall t | t in r.holders :: HolderOK(s, r, t))
    && (r.Stamped? ==> r.epoch <= s.current && (r.approved ==> r.holders == {}) && (r.destroyed ==> r.approved))
  }

  ghost predicate Inv(s: State) {
    && s.safe < s.current && TableOK(s)
    && (forall k | k in s.scans :: ScanOK(s, s.scans[k]))
    && (forall x | x in s.items :: ItemOK(s, s.items[x]))
  }

  lemma InitInv(s: State, size: nat)
    requires Init(s, size)
    ensures Inv(s)
  {
  }

  /** Two threads never share a table entry. */
  lemma EntriesDiffer(s: State, t: Tid, u: Tid)
    requires TableOK(s) && t in s.slot && u in s.slot && t != u
    ensures s.slot[t] != s.slot[u]
  {
  }

  lemma ItemKept(s: State, l: Label, x: Item)
    requires Inv(s) && Can(s, l) && x in s.items
    ensures ItemOK(After(s, l), After(s, l).items[x])
  {
    var s' := After(s, l);
    var r, r' := s.items[x], s'.items[x];
    assert ItemOK(s, r);
    forall t | t in r'.holders
      ensures HolderOK(s', r', t)
    {
      assert HolderOK(s, r, t);
      match l
      case Unprotect(u) => EntriesDiffer(s, t, u);
      case ProtectStore(u) => if u != t { EntriesDiffer(s, t, u); }
      case ScanStore(k) => assert ScanOK(s, s.scans[k]);
      case Stamp(_) => assert forall k | k in s.scans :: ScanOK(s, s.scans[k]);
      case _ =>
    }
  }

  lemma TableKept(s: State, l: Label)
    requires Inv(s) && Can(s, l)
    ensures TableOK(After(s, l)) && After(s, l).safe < After(s, l).current
  {
    match l
    case ProtectStore(u) =>
      forall t | t in s.loaded && t != u
        ensures s.slot[t] != s.slot[u]
      {
        EntriesDiffer(s, t, u);
      }
    case ScanStore(k) => assert ScanOK(s, s.scans[k]);
    case _ =>
  }

  lemma StepKeepsInv(s: State, l: Label)
    requires Inv(s) && Can(s, l)
    ensures Inv(After(s, l))
  {
    var s' := After(s, l);
    TableKept(s, l);
    forall k | k in s'.scans
      ensures ScanOK(s', s'.scans[k])
    {
      if k in s.scans { assert ScanOK(s, s.scans[k]); }
    }
    forall x | x in s'.items
      ensures ItemOK(s', s'.items[x])
    {
      if x in s.items { ItemKept(s, l, x); }
    }
  }

  // ---- Runs ----

  ghost predicate IsRun(size: nat, run: seq<State>, ls: seq<Label>) {
    && |run| == |ls| + 1 && Init(run[0], size)
    && forall k | 0 <= k < |ls| :: StepAt(run, ls, k)
  }

  ghost predicate StepAt(run: seq<State>, ls: seq<Label>, k: nat)
    requires |run| == |ls| + 1 && k < |ls|
  {
    Can(run[k], ls[k]) && run[k + 1] == After(run[k], ls[k])
  }

  lemma {:induction false} RunInv(size: nat, run: seq<State>, ls: seq<Label>, k: nat)
    requires IsRun(size, run, ls) && k < |run|
    ensures Inv(run[k])
  {
    if k == 0 {
      InitInv(run[0], size);
    } else {
      RunInv(size, run, ls, k - 1);
      assert StepAt(run, ls, k - 1);
      StepKeepsInv(run[k - 1], ls[k - 1]);
    }
  }

  /** Thread t has been protected, without leaving, from state i to state j. */
  ghost predicate StaysProtected(run: seq<State>, ls: seq<Label>, t: Tid, i: nat, j: nat) {
    i <= j < |run| == |ls| + 1 && Protected(run[i], t) && forall k | i <= k < j :: ls[k] != Unprotect(t)
  }

  /** A thread that was protected at the unlink and has not left still counts as a holder. */
  lemma {:induction false} HolderStays(size: nat, run: seq<State>, ls: seq<Label>, x: Item, t: Tid, i: nat, j: nat)
    requires IsRun(size, run, ls) && i < j < |run|
    requires ls[i] == Unlink(x) && StaysProtected(run, ls, t, i, j)
    ensures x in run[j].items && t in run[j].items[x].holders
  {
    if j == i + 1 {
      assert StepAt(run, ls, i);
      assert t in run[i].slot;
    } else {
      HolderStays(size, run, ls, x, t, i, j - 1);
      assert StepAt(run, ls, j - 1);
    }
  }

  /**
    Epoch safety: when an item is destroyed, no thread that was protected when it was
    unlinked has stayed in the protected region since.
  */
  lemma DestroyedWhenUnused(size: nat, run: seq<State>, ls: seq<Label>, x: Item, t: Tid, i: nat, j: nat)
    requires IsRun(size, run, ls) && i < j < |ls| && ls[i] == Unlink(x) && ls[j] == Destroy(x)
    ensures !StaysProtected(run, ls, t, i, j)
  {
    RunInv(size, run, ls, j);
    assert StepAt(run, ls, j);
    assert ItemOK(run[j], run[j].items[x]);
    if StaysProtected(run, ls, t, i, j) {
      HolderStays(size, run, ls, x, t, i, j);
    }
  }

  /** The safe epoch is below the current one in every state. */
  lemma SafeBelowCurrent(size: nat, run: seq<State>, ls: seq<Label>, k: nat)
    requires IsRun(size, run, ls) && k < |run|
    ensures run[k].safe < run[k].current
  {
    RunInv(size, run, ls, k);
  }
}
