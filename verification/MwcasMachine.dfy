/**
  The whole MwCAS machine: any number of threads, each a stack of frames, interleaved step
  by step over one shared memory. The invariant below holds in every reachable state.
*/
module MwcasMachine {
  import opened MwcasShared
  import opened MwcasThreads

  datatype State = State(sh: Shared, threads: map<Tid, seq<Frame>>)

  datatype Label =
    | Call(t: Tid, d: Id, ws: seq<Entry>)    // a thread calls MwCAS() on a filled descriptor
    | CallRead(t: Tid, a: Addr)              // a thread calls GetValue()
    | Go(t: Tid)                             // the top frame of a thread takes one step
    | Recycle(d: Id)                         // a descriptor nobody can reach goes back to the pool

  function Stack(s: State, t: Tid): seq<Frame> {
    if t in s.threads then s.threads[t] else []
  }

  // ---- Sorting the words of a descriptor by address ----

  function InsertSorted(e: Entry, ws: seq<Entry>): (r: seq<Entry>)
    ensures multiset(r) == multiset([e]) + multiset(ws)
  {
    if ws == [] || e.addr <= ws[0].addr then [e] + ws
    else
      assert ws == [ws[0]] + ws[1..];
      [ws[0]] + InsertSorted(e, ws[1..])
  }

  function SortWords(ws: seq<Entry>): (r: seq<Entry>)
    ensures multiset(r) == multiset(ws)
  {
    if ws == [] then []
    else
      assert ws == [ws[0]] + ws[1..];
      InsertSorted(ws[0], SortWords(ws[1..]))
  }

  /** The words as the protocol uses them: the persistent variant sorts them first. */
  function Arranged(pm: bool, ws: seq<Entry>): seq<Entry> {
    if pm then SortWords(ws) else ws
  }

  // ---- Steps ----

  ghost predicate Can(pm: bool, s: State, l: Label) {
    match l
    case Call(t, d, ws) =>
      && Stack(s, t) == [] && d !in s.sh.descs
      && ValidWords(false, s.sh.mem.Keys, ws)
    case CallRead(t, a) => Stack(s, t) == [] && a in s.sh.mem
    case Go(t) => Stack(s, t) != [] && FrameWF(s.sh, Top(s, t))
    case Recycle(d) =>
      && d in s.sh.descs
      && forall t, k | t in s.threads && 0 <= k < |s.threads[t]| :: d !in Refs(s.threads[t][k])
  }

  function Top(s: State, t: Tid): Frame
    requires Stack(s, t) != []
  {
    Stack(s, t)[|Stack(s, t)| - 1]
  }

  /** The stack after its top frame has taken a step with result o. */
  function Resumed(st: seq<Frame>, o: Out): seq<Frame>
    requires st != []
  {
    var below := st[..|st| - 1];
    match o
    case Next(_, f) => below + [f]
    case Help(_, f, d) => below + [f] + [Op(d, false, Start)]
    case Return => below
  }

  function OutAct(o: Out): Act {
    if o.Return? then Nop else o.act
  }

  function LabelAct(pm: bool, s: State, l: Label): Act
    requires l.Go? ==> Stack(s, l.t) != [] && FrameWF(s.sh, Top(s, l.t))
  {
    match l
    case Call(t, d, ws) => Create(d, Desc(t, Arranged(pm, ws), Undecided, false))
    case CallRead(t, a) => Nop
    case Go(t) => OutAct(FrameStep(pm, s.sh, Top(s, t)))
    case Recycle(d) => Drop(d)
  }

  /** The state after thread t has taken a step with result o. */
  function Moved(pm: bool, s: State, t: Tid, o: Out): State
    requires Stack(s, t) != []
  {
    State(Apply(pm, s.sh, OutAct(o)), s.threads[t := Resumed(Stack(s, t), o)])
  }

  function After(pm: bool, s: State, l: Label): State
    requires l.Go? ==> Stack(s, l.t) != [] && FrameWF(s.sh, Top(s, l.t))
  {
    match l
    case Call(t, d, ws) =>
      State(Apply(pm, s.sh, LabelAct(pm, s, l)), s.threads[t := [Op(d, true, Inst(0))]])
    case CallRead(t, a) => State(s.sh, s.threads[t := [Read(a, Load)]])
    case Go(t) => Moved(pm, s, t, FrameStep(pm, s.sh, Top(s, t)))
    case Recycle(d) => State(Apply(pm, s.sh, Drop(d)), s.threads)
  }

  // ---- Invariant ----

  /** Stacks: the call a thread makes is at the bottom, helpers are above it. */
  ghost predicate StackOK(pm: bool, s: Shared, t: Tid, st: seq<Frame>) {
    && (forall k | 0 <= k < |st| :: FrameOK(s, st[k]))
    && (forall k | 0 < k < |st| :: st[k].Op? && !st[k].own)
    && (|st| > 0 && st[0].Op? ==> st[0].own && s.descs[st[0].d].owner == t)
    && (forall k | 0 < k < |st| :: LinkOK(s, st[k - 1], st[k].d))
    && (pm ==> forall k | 0 < k < |st| - 1 :: ChainOK(s, st[k - 1], st[k]))
  }

  /** f is blocked by an operation that g helps; g is itself blocked, at a higher address. */
  ghost predicate ChainOK(s: Shared, f: Frame, g: Frame) {
    CanBlock(s, f) && CanBlock(s, g) && (g.Op? && Undec(s, g.d) ==> BlockAddr(s, f) < BlockAddr(s, g))
  }

  predicate Owns(s: State, t: Tid, d: Id) {
    Stack(s, t) != [] && Stack(s, t)[0].Op? && Stack(s, t)[0].own && Stack(s, t)[0].d == d
  }

  /** Until its owner returns; from then on it is decided and installed nowhere. */
  ghost predicate OwnerOK(s: State, d: Id)
    requires d in s.sh.descs
  {
    || Owns(s, s.sh.descs[d].owner, d)
    || (!Undec(s.sh, d) && Nowhere(s.sh, d))
  }

  ghost predicate Nowhere(s: Shared, d: Id) {
    forall a | a in s.mem :: !IsPtr(s.mem[a], d)
  }

  predicate AtSwap(s: State, t: Tid, d: Id, i: nat) {
    Stack(s, t) != [] && Top(s, t).Op? && Top(s, t).d == d && Top(s, t).pc == SwapOwn(i)
  }

  /** A CondCAS pointer in memory has its installer still about to replace it. */
  ghost predicate CondHeld(s: State, a: Addr)
    requires a in s.sh.mem
  {
    s.sh.mem[a].Cond? ==> exists t :: AtSwap(s, t, s.sh.mem[a].id, s.sh.mem[a].i)
  }

  ghost predicate Inv(pm: bool, s: State) {
    && SharedInv(pm, s.sh)
    && (forall t | t in s.threads :: StackOK(pm, s.sh, t, s.threads[t]))
    && (forall d | d in s.sh.descs :: OwnerOK(s, d))
    && (forall a | a in s.sh.mem :: CondHeld(s, a))
  }

  ghost predicate Init(pm: bool, s: State) {
    && s.sh.descs == map[] && s.threads == map[]
    && forall a | a in s.sh.mem :: s.sh.mem[a].Plain? && (s.sh.mem[a].dirty ==> pm)
  }

  lemma InitInv(pm: bool, s: State)
    requires Init(pm, s)
    ensures Inv(pm, s)
  {
  }

  // ---- Sorting keeps words valid ----

  lemma InsertSortedAt(e: Entry, ws: seq<Entry>)
    requires forall i, j | 0 <= i < j < |ws| :: ws[i].addr <= ws[j].addr
    ensures forall i, j | 0 <= i < j < |InsertSorted(e, ws)| ::
              InsertSorted(e, ws)[i].addr <= InsertSorted(e, ws)[j].addr
    ensures forall x | x in InsertSorted(e, ws) :: x == e || x in ws
    ensures |InsertSorted(e, ws)| == |ws| + 1
  {
    if ws != [] && e.addr > ws[0].addr {
      InsertSortedAt(e, ws[1..]);
      var r := InsertSorted(e, ws[1..]);
      forall j | 0 <= j < |r|
        ensures ws[0].addr <= r[j].addr
      {
        assert r[j] in r;
      }
    }
  }

  ghost predicate Distinct(ws: seq<Entry>) {
    forall i, j | 0 <= i < j < |ws| :: ws[i].addr != 0 ==> ws[i].addr != ws[j].addr
  }

  lemma InsertKeepsDistinct(e: Entry, ws: seq<Entry>)
    requires Distinct(ws) && (e.addr != 0 ==> forall x | x in ws :: x.addr != e.addr)
    ensures Distinct(InsertSorted(e, ws))
    ensures forall x | x in InsertSorted(e, ws) :: x == e || x in ws
  {
    if ws != [] && e.addr > ws[0].addr {
      InsertKeepsDistinct(e, ws[1..]);
      var r := InsertSorted(e, ws[1..]);
      forall j | 0 <= j < |r| && ws[0].addr != 0
        ensures ws[0].addr != r[j].addr
      {
        assert r[j] in r;
      }
    }
  }

  lemma EntriesInDom(dom: set<Addr>, ws: seq<Entry>, r: seq<Entry>)
    requires forall x | x in ws && x.addr != 0 :: x.addr in dom
    requires forall x | x in r :: x in ws
    ensures forall i | 0 <= i < |r| :: r[i].addr != 0 ==> r[i].addr in dom
  {
    forall i | 0 <= i < |r| && r[i].addr != 0
      ensures r[i].addr in dom
    {
      assert r[i] in r;
    }
  }

  /** Sorting gives the same entries, distinct as before, in address order. */
  lemma SortWordsValid(dom: set<Addr>, ws: seq<Entry>)
    requires ValidWords(false, dom, ws)
    ensures ValidWords(true, dom, SortWords(ws))
    ensures forall x | x in SortWords(ws) :: x in ws
  {
    if ws != [] {
      SortWordsValid(dom, ws[1..]);
      var r := SortWords(ws[1..]);
      forall x | x in r && ws[0].addr != 0
        ensures x.addr != ws[0].addr
      {
        assert x in ws[1..];
      }
      InsertSortedAt(ws[0], r);
      InsertKeepsDistinct(ws[0], r);
      EntriesInDom(dom, ws, SortWords(ws));
    }
  }

  // ---- Preservation ----

  lemma GoOut(pm: bool, s: State, t: Tid)
    requires Inv(pm, s) && Can(pm, s, Go(t))
    ensures OutOK(pm, s.sh, Top(s, t), FrameStep(pm, s.sh, Top(s, t)))
  {
    var st := s.threads[t];
    assert StackOK(pm, s.sh, t, st) && FrameOK(s.sh, st[|st| - 1]);
    FrameStepOK(pm, s.sh, Top(s, t));
  }

  lemma LabelEnabled(pm: bool, s: State, l: Label)
    requires Inv(pm, s) && Can(pm, s, l)
    ensures Enabled(pm, s.sh, LabelAct(pm, s, l))
  {
    match l
    case Call(t, d, ws) => if pm { SortWordsValid(s.sh.mem.Keys, ws); }
    case CallRead(_, _) =>
    case Go(t) => GoOut(pm, s, t);
    case Recycle(d) => UnreachableIsUnreferenced(pm, s, d);
  }

  /** When no frame holds a pointer to d, no word holds one either. */
  lemma UnreachableIsUnreferenced(pm: bool, s: State, d: Id)
    requires Inv(pm, s) && Can(pm, s, Recycle(d))
    ensures !Undec(s.sh, d)
    ensures forall a | a in s.sh.mem :: !RefersTo(s.sh.mem[a], d)
  {
    var o := s.sh.descs[d].owner;
    assert Owns(s, o, d) ==> d in Refs(s.threads[o][0]);
    assert OwnerOK(s, d);
    forall t, i
      ensures !AtSwap(s, t, d, i)
    {
      assert Stack(s, t) != [] ==> d !in Refs(s.threads[t][|s.threads[t]| - 1]);
    }
    forall a | a in s.sh.mem
      ensures !RefersTo(s.sh.mem[a], d)
    {
      assert CondHeld(s, a);
    }
  }

  lemma LinkStable(s: Shared, s': Shared, f: Frame, d: Id)
    requires Rely(s, s') && LinkOK(s, f, d) && d in s'.descs && (f.Op? ==> f.d in s'.descs)
    ensures LinkOK(s', f, d)
    ensures BlockAddr(s', f) == BlockAddr(s, f)
  {
    if f.Op? { assert DescEvolves(s.descs[f.d], s'.descs[f.d]); }
    assert DescEvolves(s.descs[d], s'.descs[d]);
    assert WordEvolves(s, s', BlockAddr(s, f));
  }

  ghost predicate RefsIn(s: Shared, st: seq<Frame>) {
    forall k, d | 0 <= k < |st| && d in Refs(st[k]) :: d in s.descs
  }

  lemma ChainStable(s: Shared, s': Shared, f: Frame, g: Frame)
    requires Rely(s, s') && ChainOK(s, f, g)
    requires (f.Op? ==> f.d in s'.descs) && (g.Op? ==> g.d in s'.descs)
    ensures ChainOK(s', f, g)
  {
    if f.Op? { assert DescEvolves(s.descs[f.d], s'.descs[f.d]); }
    if g.Op? { assert DescEvolves(s.descs[g.d], s'.descs[g.d]); }
  }

  /** A stack that does not run keeps its assertions. */
  lemma StackStable(pm: bool, s: Shared, s': Shared, t: Tid, st: seq<Frame>)
    requires StackOK(pm, s, t, st) && Rely(s, s') && RefsIn(s', st)
    ensures StackOK(pm, s', t, st)
  {
    forall k | 0 <= k < |st|
      ensures FrameOK(s', st[k])
    {
      FrameStable(s, s', st[k]);
    }
    forall k | 0 <= k < |st| && st[k].Op?
      ensures st[k].d in s.descs && st[k].d in s'.descs && DescEvolves(s.descs[st[k].d], s'.descs[st[k].d])
    {
      assert st[k].d in Refs(st[k]);
    }
    forall k | 0 < k < |st|
      ensures LinkOK(s', st[k - 1], st[k].d)
    {
      LinkStable(s, s', st[k - 1], st[k].d);
    }
    if pm {
      forall k | 0 < k < |st| - 1
        ensures ChainOK(s', st[k - 1], st[k])
      {
        ChainStable(s, s', st[k - 1], st[k]);
      }
    }
  }

  /** An act other than Drop keeps every descriptor, so every pointer held stays good. */
  lemma RefsKept(pm: bool, s: Shared, act: Act, st: seq<Frame>)
    requires (forall k | 0 <= k < |st| :: FrameOK(s, st[k])) && !act.Drop?
    ensures RefsIn(Apply(pm, s, act), st)
  {
    forall k, d | 0 <= k < |st| && d in Refs(st[k])
      ensures d in s.descs
    {
      assert FrameOK(s, st[k]);
    }
  }

  /** The blocked address grows along a help chain of undecided operations. */
  lemma ConflictIsHigher(s: Shared, f: Frame, g: Frame, d: Id)
    requires SharedInv(true, s) && g.Op? && LinkOK(s, f, g.d) && LinkOK(s, g, d) && d != g.d
    requires Undec(s, g.d) ==> !IsPtr(s.mem[BlockAddr(s, g)], g.d)
    ensures ChainOK(s, f, g)
  {
    if Undec(s, g.d) {
      var ws := s.descs[g.d].words;
      var b := BlockAddr(s, f);
      assert WordOK(true, s.descs, b, s.mem[b]);
      var m := Find(ws, b);
      assert PrefixAt(s, b) && InstalledTo(s, g.d, m);
      assert DescOK(true, s.mem.Keys, s.descs[g.d]);
      assert g.pc.i > m;
    }
  }

  /** The stack of the thread that ran. */
  lemma RanStackOK(pm: bool, s: Shared, t: Tid, st: seq<Frame>, o: Out)
    requires SharedInv(pm, s) && st != [] && StackOK(pm, s, t, st)
    requires OutOK(pm, s, st[|st| - 1], o)
    ensures StackOK(pm, Apply(pm, s, OutAct(o)), t, Resumed(st, o))
  {
    var act := OutAct(o);
    var s' := Apply(pm, s, act);
    ActGuarantees(pm, s, act);
    ActKeepsInv(pm, s, act);
    RefsKept(pm, s, act, st);
    StackStable(pm, s, s', t, st);
    ResumedOK(pm, s', t, st, o);
  }

  lemma ResumedOK(pm: bool, s: Shared, t: Tid, st: seq<Frame>, o: Out)
    requires SharedInv(pm, s) && st != [] && StackOK(pm, s, t, st)
    requires !o.Return? ==> FrameOK(s, o.f) && SameCall(st[|st| - 1], o.f)
    requires o.Help? ==>
               && LinkOK(s, o.f, o.d)
               && (o.f.Op? ==> o.d != o.f.d && IsPtr(s.mem[BlockAddr(s, o.f)], o.d))
    ensures StackOK(pm, s, t, Resumed(st, o))
  {
    var n := |st| - 1;
    if !o.Return? {
      ReplaceTop(pm, s, t, st, o.f);
      if o.Help? {
        if pm && n > 0 {
          assert LinkOK(s, st[n - 1], st[n].d);
          ConflictIsHigher(s, st[n - 1], o.f, o.d);
        }
        PushHelper(pm, s, t, st[..n] + [o.f], o.d);
      }
    }
  }

  lemma ReplaceTop(pm: bool, s: Shared, t: Tid, st: seq<Frame>, f: Frame)
    requires |st| > 0 && StackOK(pm, s, t, st) && FrameOK(s, f) && SameCall(st[|st| - 1], f)
    ensures StackOK(pm, s, t, st[..|st| - 1] + [f])
  {
    var r := st[..|st| - 1] + [f];
    forall k | 0 < k < |r|
      ensures LinkOK(s, r[k - 1], r[k].d)
    {
      assert LinkOK(s, st[k - 1], st[k].d);
    }
    if pm {
      forall k | 0 < k < |r| - 1
        ensures ChainOK(s, r[k - 1], r[k])
      {
        assert ChainOK(s, st[k - 1], st[k]);
      }
    }
  }

  lemma PushHelper(pm: bool, s: Shared, t: Tid, st: seq<Frame>, d: Id)
    requires |st| > 0 && StackOK(pm, s, t, st) && LinkOK(s, st[|st| - 1], d)
    requires pm && |st| > 1 ==> ChainOK(s, st[|st| - 2], st[|st| - 1])
    ensures StackOK(pm, s, t, st + [Op(d, false, Start)])
  {
    var r := st + [Op(d, false, Start)];
    forall k | 0 < k < |r|
      ensures LinkOK(s, r[k - 1], r[k].d)
    {
      if k < |st| { assert LinkOK(s, st[k - 1], st[k].d); }
    }
    if pm {
      forall k | 0 < k < |r| - 1
        ensures ChainOK(s, r[k - 1], r[k])
      {
        if k < |st| - 1 { assert ChainOK(s, st[k - 1], st[k]); }
      }
    }
  }

  /** Once every word of d is done, d is installed nowhere. */
  lemma GoneIsNowhere(pm: bool, s: Shared, d: Id)
    requires SharedInv(pm, s) && d in s.descs && Gone(s, d, |s.descs[d].words|)
    ensures Nowhere(s, d)
  {
    forall a | a in s.mem
      ensures !IsPtr(s.mem[a], d)
    {
      assert WordOK(pm, s.descs, a, s.mem[a]);
    }
  }

  /** A decided descriptor that is installed nowhere stays so. */
  lemma NowhereStable(s: Shared, s': Shared, d: Id)
    requires Rely(s, s') && d in s.descs && d in s'.descs && !Undec(s, d) && Nowhere(s, d)
    ensures !Undec(s', d) && Nowhere(s', d)
  {
    assert DescEvolves(s.descs[d], s'.descs[d]);
    forall a | a in s'.mem
      ensures !IsPtr(s'.mem[a], d)
    {
      assert WordEvolves(s, s', a);
    }
  }

  lemma OwnerKept(s: State, s': State, d: Id)
    requires Rely(s.sh, s'.sh) && d in s.sh.descs && d in s'.sh.descs && OwnerOK(s, d)
    requires Owns(s, s.sh.descs[d].owner, d) ==>
               Owns(s', s.sh.descs[d].owner, d) || (!Undec(s.sh, d) && Nowhere(s.sh, d))
    ensures OwnerOK(s', d)
  {
    assert DescEvolves(s.sh.descs[d], s'.sh.descs[d]);
    if !Owns(s', s.sh.descs[d].owner, d) {
      NowhereStable(s.sh, s'.sh, d);
    }
  }

  /** The owner of d runs: it stays in its call, or returns with d installed nowhere. */
  lemma OwnerRan(pm: bool, s: Shared, t: Tid, st: seq<Frame>, o: Out)
    requires SharedInv(pm, s) && st != [] && StackOK(pm, s, t, st) && st[0].Op? && st[0].own
    requires OutOK(pm, s, st[|st| - 1], o)
    ensures var r := Resumed(st, o);
            || (r != [] && r[0].Op? && r[0].own && r[0].d == st[0].d)
            || (!Undec(s, st[0].d) && Nowhere(s, st[0].d))
  {
    assert FrameOK(s, st[0]);
    if |st| == 1 && o.Return? {
      GoneIsNowhere(pm, s, st[0].d);
    }
  }

  lemma CondKept(pm: bool, s: State, t: Tid, o: Out, a: Addr)
    requires Can(pm, s, Go(t)) && CondFact(pm, s.sh, Top(s, t), o)
    requires a in s.sh.mem && CondHeld(s, a) && WordOK(pm, s.sh.descs, a, s.sh.mem[a])
    requires Enabled(pm, s.sh, OutAct(o)) && a in Moved(pm, s, t, o).sh.mem
    ensures CondHeld(Moved(pm, s, t, o), a)
  {
    var s' := Moved(pm, s, t, o);
    var w := s'.sh.mem[a];
    if w.Cond? {
      CondsByInstall(pm, s.sh, OutAct(o), a);
      if w == s.sh.mem[a] {
        var u :| AtSwap(s, u, w.id, w.i);
        assert AtSwap(s', u, w.id, w.i);
      } else {
        assert AtSwap(s', t, w.id, w.i);
      }
    }
  }

  /** Only an Install puts a CondCAS pointer into memory. */
  lemma CondsByInstall(pm: bool, s: Shared, act: Act, a: Addr)
    requires Enabled(pm, s, act) && a in s.mem
    requires a in Apply(pm, s, act).mem && Apply(pm, s, act).mem[a].Cond?
    ensures Apply(pm, s, act).mem[a] == s.mem[a] ||
            act == Install(Apply(pm, s, act).mem[a].id, Apply(pm, s, act).mem[a].i)
  {
  }

  lemma GoStacks(pm: bool, s: State, t: Tid, o: Out, u: Tid)
    requires Inv(pm, s) && Can(pm, s, Go(t)) && OutOK(pm, s.sh, Top(s, t), o)
    requires u in s.threads
    ensures StackOK(pm, Moved(pm, s, t, o).sh, u, Moved(pm, s, t, o).threads[u])
  {
    var act := OutAct(o);
    assert StackOK(pm, s.sh, u, s.threads[u]);
    if u == t {
      RanStackOK(pm, s.sh, t, s.threads[t], o);
    } else {
      ActGuarantees(pm, s.sh, act);
      RefsKept(pm, s.sh, act, s.threads[u]);
      StackStable(pm, s.sh, Apply(pm, s.sh, act), u, s.threads[u]);
    }
  }

  lemma GoOwners(pm: bool, s: State, t: Tid, o: Out, d: Id)
    requires SharedInv(pm, s.sh) && Stack(s, t) != [] && StackOK(pm, s.sh, t, Stack(s, t))
    requires OutOK(pm, s.sh, Top(s, t), o)
    requires d in s.sh.descs && OwnerOK(s, d)
    ensures d in Moved(pm, s, t, o).sh.descs && OwnerOK(Moved(pm, s, t, o), d)
  {
    var s' := Moved(pm, s, t, o);
    ActGuarantees(pm, s.sh, OutAct(o));
    var u := s.sh.descs[d].owner;
    assert u != t ==> Stack(s', u) == Stack(s, u);
    if u == t && Owns(s, t, d) {
      OwnerRan(pm, s.sh, t, Stack(s, t), o);
      assert Stack(s', t) == Resumed(Stack(s, t), o);
    }
    OwnerKept(s, s', d);
  }

  lemma GoKeepsInv(pm: bool, s: State, t: Tid, o: Out)
    requires Inv(pm, s) && Can(pm, s, Go(t))
    requires OutOK(pm, s.sh, Top(s, t), o) && CondFact(pm, s.sh, Top(s, t), o)
    ensures Inv(pm, Moved(pm, s, t, o))
  {
    var s', act := Moved(pm, s, t, o), OutAct(o);
    ActKeepsInv(pm, s.sh, act);
    ActGuarantees(pm, s.sh, act);
    forall u | u in s'.threads
      ensures StackOK(pm, s'.sh, u, s'.threads[u])
    {
      GoStacks(pm, s, t, o, u);
    }
    forall d | d in s'.sh.descs
      ensures OwnerOK(s', d)
    {
      assert d in s.sh.descs && StackOK(pm, s.sh, t, s.threads[t]);
      GoOwners(pm, s, t, o, d);
    }
    forall a | a in s'.sh.mem
      ensures CondHeld(s', a)
    {
      CondKept(pm, s, t, o, a);
    }
  }

  lemma CallStacks(pm: bool, s: State, l: Label, u: Tid)
    requires Inv(pm, s) && Can(pm, s, l) && !l.Go? && Enabled(pm, s.sh, LabelAct(pm, s, l))
    requires u in After(pm, s, l).threads
    ensures StackOK(pm, After(pm, s, l).sh, u, After(pm, s, l).threads[u])
  {
    if l.Recycle? || u != l.t {
      var act, st := LabelAct(pm, s, l), s.threads[u];
      ActGuarantees(pm, s.sh, act);
      assert StackOK(pm, s.sh, u, st);
      RefsKept(pm, s.sh, Nop, st);
      StackStable(pm, s.sh, Apply(pm, s.sh, act), u, st);
    }
  }

  lemma CallOwners(pm: bool, s: State, l: Label, d: Id)
    requires Inv(pm, s) && Can(pm, s, l) && !l.Go? && Enabled(pm, s.sh, LabelAct(pm, s, l))
    requires d in After(pm, s, l).sh.descs
    ensures OwnerOK(After(pm, s, l), d)
  {
    if d in s.sh.descs {
      ActGuarantees(pm, s.sh, LabelAct(pm, s, l));
      assert OwnerOK(s, d);
      OwnerKept(s, After(pm, s, l), d);
    }
  }

  lemma CallConds(pm: bool, s: State, l: Label, a: Addr)
    requires Can(pm, s, l) && !l.Go? && a in s.sh.mem && CondHeld(s, a)
    ensures After(pm, s, l).sh.mem == s.sh.mem && CondHeld(After(pm, s, l), a)
  {
    if s.sh.mem[a].Cond? {
      var u :| AtSwap(s, u, s.sh.mem[a].id, s.sh.mem[a].i);
      assert AtSwap(After(pm, s, l), u, s.sh.mem[a].id, s.sh.mem[a].i);
    }
  }

  lemma CallKeepsInv(pm: bool, s: State, l: Label)
    requires Inv(pm, s) && Can(pm, s, l) && !l.Go? && Enabled(pm, s.sh, LabelAct(pm, s, l))
    ensures Inv(pm, After(pm, s, l))
  {
    var s' := After(pm, s, l);
    ActKeepsInv(pm, s.sh, LabelAct(pm, s, l));
    forall u | u in s'.threads
      ensures StackOK(pm, s'.sh, u, s'.threads[u])
    {
      CallStacks(pm, s, l, u);
    }
    forall d | d in s'.sh.descs
      ensures OwnerOK(s', d)
    {
      CallOwners(pm, s, l, d);
    }
    forall a | a in s'.sh.mem
      ensures CondHeld(s', a)
    {
      CallConds(pm, s, l, a);
    }
  }

  lemma StepKeepsInv(pm: bool, s: State, l: Label)
    requires Inv(pm, s) && Can(pm, s, l)
    ensures Inv(pm, After(pm, s, l))
  {
    LabelEnabled(pm, s, l);
    if l.Go? {
      GoOut(pm, s, l.t);
      FrameStepCond(pm, s.sh, Top(s, l.t));
      GoKeepsInv(pm, s, l.t, FrameStep(pm, s.sh, Top(s, l.t)));
    } else {
      CallKeepsInv(pm, s, l);
    }
  }
}
