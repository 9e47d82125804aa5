/**
  Runs of the BzTree against a map from strings to strings. An operation is any number of
  traversals that change the structure and start over, followed by its effect on the leaf.
*/
module BzTreeRuns {
  import opened BzKeys
  import opened BzSmo
  import opened BzTree
  import opened BzTreeInv
  import opened BzTreeSmo
  import opened BzTreeSteps
  import opened BzTreeTraverse

  type Map = map<Str, Str>

  datatype Label =
    | Restructure(k: Str)          // a traversal towards k that changes the structure
    | Insert(k: Str, v: Str)
    | Update(k: Str, v: Str)
    | Erase(k: Str)
    | LookUp(k: Str)

  datatype Answer = Silent | Bool(b: bool) | Value(v: Option<Str>)

  predicate Fits(k: Str, v: Str) { META + |k| + 1 + |v| + 1 <= MIN_FREE }

  /** Arguments are C strings. */
  predicate ArgsOK(l: Label) {
    Clean(l.k) && (l.Insert? || l.Update? ==> Clean(l.v))
  }

  /** The step is possible: writers act once a traversal finds nothing to change. */
  predicate Can(t: Tree, l: Label) {
    && Shaped(t) && ArgsOK(l)
    && match l
       case Restructure(k) => Traverse(t, k).Changed?
       case Insert(k, v) => Fits(k, v) ==> Traverse(t, k).Found?
       case Update(k, v) => Fits(k, v) ==> Traverse(t, k).Found?
       case Erase(_) => true
       case LookUp(_) => true
  }

  predicate Present(t: Tree, k: Str)
    requires Shaped(t)
  {
    IndexOf(LeafFor(t, k).recs, k) < |LeafFor(t, k).recs|
  }

  /** The branch of insert and update in which the record does not fit in the leaf. */
  predicate NoRoom(t: Tree, k: Str, v: Str, more: nat)
    requires Shaped(t)
  {
    Used(LeafFor(t, k)) + |k| + 1 + |v| + 1 + more > BODY
  }

  function After(t: Tree, l: Label): Tree
    requires Can(t, l)
  {
    var leaf := LeafFor(t, l.k);
    match l
    case Restructure(k) => Traverse(t, k).t
    case Insert(k, v) => if !Fits(k, v) || Present(t, k) then t else WithLeaf(t, k, Inserted(leaf, k, v))
    case Update(k, v) => if !Fits(k, v) || !Present(t, k) then t else WithLeaf(t, k, Updated(leaf, k, v))
    case Erase(k) => if !Present(t, k) then t else WithLeaf(t, k, Erased(leaf, k))
    case LookUp(_) => t
  }

  function AnswerOf(t: Tree, l: Label): Answer
    requires Can(t, l)
  {
    match l
    case Restructure(_) => Silent
    case Insert(k, v) => Bool(Fits(k, v) && !Present(t, k))
    case Update(k, v) => Bool(Fits(k, v) && Present(t, k))
    case Erase(k) => Bool(Present(t, k))
    case LookUp(k) => Value(Lookup(t, k))
  }

  // ---- The map ----

  function MapAfter(m: Map, l: Label): Map {
    match l
    case Restructure(_) => m
    case Insert(k, v) => if k !in m && |k| + |v| + 10 <= 48 then m[k := v] else m
    case Update(k, v) => if k in m && |k| + |v| + 10 <= 48 then m[k := v] else m
    case Erase(k) => m - {k}
    case LookUp(_) => m
  }

  function MapAnswer(m: Map, l: Label): Answer {
    match l
    case Restructure(_) => Silent
    case Insert(k, v) => Bool(k !in m && |k| + |v| + 10 <= 48)
    case Update(k, v) => Bool(k in m && |k| + |v| + 10 <= 48)
    case Erase(k) => Bool(k in m)
    case LookUp(k) => Value(if k in m then Some(m[k]) else None)
  }

  ghost predicate Holds(t: Tree, m: Map) {
    forall r :: Has(t, r) <==> r.key in m && m[r.key] == r.val
  }

  // ---- Changing one leaf ----

  lemma LeafForBounds(t: Tree, k: Str, h: nat, lo: Bound, hi: Bound, tight: bool)
    requires Inv(t, h, lo, hi, tight) && Shaped(t)
    ensures LeafOK(LeafFor(t, k))
    decreases t
  {
    if t.N? {
      var i := Route(t.entries, k);
      LeafForBounds(Kid(t.entries, i), k, h - 1, LoOf(Seps(t.entries), i, lo), HiOf(Seps(t.entries), i, hi), tight);
    }
  }

  /** The new leaf is legal, touches only key k, and keeps all keys if the tree is tight. */
  ghost predicate LeafChange(l: Leaf, l': Leaf, k: Str, tight: bool) {
    && LeafOK(l')
    && (forall r: Rec :: r.key != k ==> (r in l'.recs <==> r in l.recs))
    && (tight ==> forall x :: HasKey(l.recs, x) ==> HasKey(l'.recs, x))
  }

  lemma LeafChangeKeeps(l: Leaf, l': Leaf, k: Str, lo: Bound, hi: Bound, tight: bool)
    requires Inv(L(l), 1, lo, hi, tight) && Between(k, lo, hi) && LeafChange(l, l', k, tight)
    ensures Inv(L(l'), 1, lo, hi, tight)
  {
    forall i | 0 <= i < |l'.recs|
      ensures Between(l'.recs[i].key, lo, hi)
    {
      assert l'.recs[i] in l'.recs;
      assert l'.recs[i].key != k ==> l'.recs[i] in l.recs;
    }
  }

  lemma {:induction false} WithLeafKeeps(t: Tree, k: Str, l': Leaf, h: nat, lo: Bound, hi: Bound, tight: bool)
    requires Inv(t, h, lo, hi, tight) && Shaped(t) && Between(k, lo, hi) && LeafChange(LeafFor(t, k), l', k, tight)
    ensures Inv(WithLeaf(t, k, l'), h, lo, hi, tight)
    decreases t
  {
    match t
    case L(l) => LeafChangeKeeps(l, l', k, lo, hi, tight);
    case N(es) =>
      var i := Route(es, k);
      var lo1, hi1 := LoOf(Seps(es), i, lo), HiOf(Seps(es), i, hi);
      RouteWithin(es, k, lo, hi);
      WithLeafKeeps(Kid(es, i), k, l', h - 1, lo1, hi1, tight);
      SetChild(es, i, WithLeaf(Kid(es, i), k, l'), h, lo, hi, tight);
  }

  /** Afterwards the tree holds the new leaf's records under k, and elsewhere what it held before. */
  lemma {:induction false} WithLeafHas(t: Tree, k: Str, l': Leaf, h: nat, lo: Bound, hi: Bound, tight: bool, r: Rec)
    requires Inv(t, h, lo, hi, tight) && Shaped(t) && Between(k, lo, hi) && LeafChange(LeafFor(t, k), l', k, tight)
    ensures Has(WithLeaf(t, k, l'), r) <==> if r.key == k then r in l'.recs else Has(t, r)
    decreases t
  {
    if t.N? {
      var es := t.entries;
      var i := Route(es, k);
      RouteWithin(es, k, lo, hi);
      WithLeafHas(Kid(es, i), k, l', h - 1, LoOf(Seps(es), i, lo), HiOf(Seps(es), i, hi), tight, r);
      SetChildHas(es, i, WithLeaf(Kid(es, i), k, l'), r);
      if j :| 0 <= j < |es| && j != i && Has(es[j].child, r) {
        WithinBounds(Kid(es, j), h - 1, LoOf(Seps(es), j, lo), HiOf(Seps(es), j, hi), tight, r);
        RouteUnique(es, r.key, j, lo, hi);
      }
    }
  }

  // ---- The leaf after each operation ----

  lemma OneRec(r: Rec)
    ensures Live([r]) == META + Block(r)
  {
    assert [r][..0] == [];
  }

  lemma InsertOK(l: Leaf, k: Str, v: Str)
    requires LeafOK(l) && IndexOf(l.recs, k) == |l.recs| && Used(l) + META + |k| + 1 + |v| + 1 <= BODY && Clean(k) && Clean(v)
    ensures LeafOK(Inserted(l, k, v))
  {
    LiveAppend(l.recs, [Rec(k, v)]);
    OneRec(Rec(k, v));
  }

  lemma InsertLeaf(l: Leaf, k: Str, v: Str, tight: bool)
    requires LeafOK(l) && IndexOf(l.recs, k) == |l.recs| && Used(l) + META + |k| + 1 + |v| + 1 <= BODY && Clean(k) && Clean(v)
    ensures LeafChange(l, Inserted(l, k, v), k, tight)
    ensures forall r: Rec | r.key == k :: r in Inserted(l, k, v).recs <==> r == Rec(k, v)
  {
    InsertOK(l, k, v);
    var l' := Inserted(l, k, v);
    forall x | HasKey(l.recs, x)
      ensures HasKey(l'.recs, x)
    {
      var i :| 0 <= i < |l.recs| && l.recs[i].key == x;
      assert l'.recs[i].key == x;
    }
  }

  lemma LiveSplice(recs: seq<Rec>, i: nat, mid: seq<Rec>)
    requires i < |recs|
    ensures Live(recs[..i] + mid + recs[i + 1..]) == Live(recs) - META - Block(recs[i]) + Live(mid)
  {
    assert recs == recs[..i] + [recs[i]] + recs[i + 1..];
    LiveThree(recs, recs[..i], [recs[i]], recs[i + 1..]);
    LiveThree(recs[..i] + mid + recs[i + 1..], recs[..i], mid, recs[i + 1..]);
    OneRec(recs[i]);
  }

  lemma ReplacedLive(recs: seq<Rec>, i: nat, x: Rec)
    requires i < |recs|
    ensures Live(recs[i := x]) == Live(recs) - Block(recs[i]) + Block(x)
  {
    assert recs[i := x] == recs[..i] + [x] + recs[i + 1..];
    LiveSplice(recs, i, [x]);
    OneRec(x);
  }

  lemma ReplacedLegal(recs: seq<Rec>, i: nat, x: Rec)
    requires Distinct(recs) && (forall j | 0 <= j < |recs| :: Clean(recs[j].key) && Clean(recs[j].val))
    requires i < |recs| && recs[i].key == x.key && Clean(x.val)
    ensures var s := recs[i := x]; Distinct(s) && forall j | 0 <= j < |s| :: Clean(s[j].key) && Clean(s[j].val)
  {
    var s := recs[i := x];
    forall j | 0 <= j < |s|
      ensures s[j].key == recs[j].key && Clean(s[j].key) && Clean(s[j].val)
    {
    }
  }

  lemma UpdateOK(l: Leaf, k: Str, v: Str)
    requires LeafOK(l) && IndexOf(l.recs, k) < |l.recs| && Used(l) + |k| + 1 + |v| + 1 <= BODY && Clean(k) && Clean(v)
    ensures LeafOK(Updated(l, k, v))
  {
    var i := IndexOf(l.recs, k);
    ReplacedLive(l.recs, i, Rec(k, v));
    ReplacedLegal(l.recs, i, Rec(k, v));
  }

  lemma ReplacedHas(recs: seq<Rec>, i: nat, x: Rec, r: Rec)
    requires i < |recs| && recs[i].key == x.key && Distinct(recs)
    ensures r in recs[i := x] <==> if r.key == x.key then r == x else r in recs
  {
    var recs' := recs[i := x];
    if j :| 0 <= j < |recs| && recs[j] == r { assert j != i ==> recs'[j] == r; }
    assert recs'[i] == x;
  }

  lemma UpdateLeaf(l: Leaf, k: Str, v: Str, tight: bool)
    requires LeafOK(l) && IndexOf(l.recs, k) < |l.recs| && Used(l) + |k| + 1 + |v| + 1 <= BODY && Clean(k) && Clean(v)
    ensures LeafChange(l, Updated(l, k, v), k, tight)
    ensures forall r: Rec | r.key == k :: r in Updated(l, k, v).recs <==> r == Rec(k, v)
  {
    var l' := Updated(l, k, v);
    UpdateOK(l, k, v);
    forall r: Rec
      ensures r in l'.recs <==> if r.key == k then r == Rec(k, v) else r in l.recs
    {
      ReplacedHas(l.recs, IndexOf(l.recs, k), Rec(k, v), r);
    }
    forall x | HasKey(l.recs, x)
      ensures HasKey(l'.recs, x)
    {
      var j :| 0 <= j < |l.recs| && l.recs[j].key == x;
      assert l'.recs[j].key == x;
    }
  }

  lemma RemovedHas(recs: seq<Rec>, i: nat, r: Rec)
    requires i < |recs| && Distinct(recs)
    ensures r in recs[..i] + recs[i + 1..] <==> r in recs && r.key != recs[i].key
  {
    var recs' := recs[..i] + recs[i + 1..];
    if j :| 0 <= j < |recs| && recs[j] == r { assert j != i ==> recs'[if j < i then j else j - 1] == r; }
    if j :| 0 <= j < |recs'| && recs'[j] == r { assert recs[if j < i then j else j + 1] == r; }
  }

  lemma RemovedOK(l: Leaf, i: nat, deleted: nat)
    requires LeafOK(l) && i < |l.recs| && deleted == l.deleted + META + Block(l.recs[i])
    ensures LeafOK(Leaf(l.recs[..i] + l.recs[i + 1..], deleted))
  {
    var recs' := l.recs[..i] + l.recs[i + 1..];
    assert recs' == l.recs[..i] + [] + l.recs[i + 1..];
    LiveSplice(l.recs, i, []);
    forall j | 0 <= j < |recs'|
      ensures recs'[j] == l.recs[if j < i then j else j + 1]
    {
    }
  }

  lemma EraseLeaf(l: Leaf, k: Str)
    requires LeafOK(l) && IndexOf(l.recs, k) < |l.recs|
    ensures LeafChange(l, Erased(l, k), k, false)
    ensures forall r: Rec | r.key == k :: r !in Erased(l, k).recs
  {
    var i := IndexOf(l.recs, k);
    RemovedOK(l, i, l.deleted + META + Block(l.recs[i]));
    forall r: Rec
      ensures r in Erased(l, k).recs <==> r in l.recs && r.key != k
    {
      RemovedHas(l.recs, i, r);
    }
  }

  // ---- One step ----

  lemma PresentIffHas(t: Tree, k: Str, h: nat, lo: Bound, hi: Bound, tight: bool)
    requires Inv(t, h, lo, hi, tight) && Shaped(t)
    ensures Present(t, k) <==> Lookup(t, k).Some?
  {
    LeafForBounds(t, k, h, lo, hi, tight);
    PresentIffFound(LeafFor(t, k).recs, k);
  }

  lemma {:induction false} PresentIffFound(recs: seq<Rec>, k: Str)
    ensures IndexOf(recs, k) < |recs| <==> Find(recs, k).Some?
  {
    if recs != [] { PresentIffFound(recs[1..], k); }
  }

  /** In a tree that holds the records of m, lookup answers as m does. */
  lemma LookupAgrees(t: Tree, k: Str, h: nat, lo: Bound, hi: Bound, tight: bool, m: Map)
    requires Inv(t, h, lo, hi, tight) && Shaped(t) && Holds(t, m)
    ensures Lookup(t, k) == if k in m then Some(m[k]) else None
  {
    if k in m {
      assert Has(t, Rec(k, m[k]));
      LookupFinds(t, h, lo, hi, tight, k, m[k]);
    } else if Lookup(t, k).Some? {
      LookupFinds(t, h, lo, hi, tight, k, Lookup(t, k).value);
    }
  }

  /** The "too large to fit" branches of insert and update are never taken. */
  lemma NeverTooLarge(t: Tree, k: Str, v: Str)
    requires Shaped(t) && Fits(k, v) && Traverse(t, k).Found?
    ensures !NoRoom(t, k, v, META) && !NoRoom(t, k, v, 0)
  {
    Room(t, k);
  }

  lemma ChangeLeaf(t: Tree, k: Str, l': Leaf, h: nat, tight: bool, m: Map, m': Map)
    requires Inv(t, h, None, None, tight) && Shaped(t) && KeyOK(k) && Holds(t, m)
    requires LeafChange(LeafFor(t, k), l', k, tight)
    requires forall x | x != k :: x in m' <==> x in m
    requires forall x | x != k && x in m :: m'[x] == m[x]
    requires forall r: Rec | r.key == k :: r in l'.recs <==> k in m' && m'[k] == r.val
    ensures Inv(WithLeaf(t, k, l'), h, None, None, tight) && Holds(WithLeaf(t, k, l'), m')
  {
    WithLeafKeeps(t, k, l', h, None, None, tight);
    forall r: Rec
      ensures Has(WithLeaf(t, k, l'), r) <==> r.key in m' && m'[r.key] == r.val
    {
      WithLeafHas(t, k, l', h, None, None, tight, r);
    }
  }

  lemma InsertStep(t: Tree, k: Str, v: Str, h: nat, tight: bool, m: Map)
    requires Inv(t, h, None, None, tight) && Shaped(t) && Holds(t, m) && KeyOK(k) && Clean(v)
    requires Fits(k, v) && Traverse(t, k).Found? && !Present(t, k)
    ensures var t' := WithLeaf(t, k, Inserted(LeafFor(t, k), k, v));
            Inv(t', h, None, None, tight) && Holds(t', m[k := v])
  {
    LeafForBounds(t, k, h, None, None, tight);
    NeverTooLarge(t, k, v);
    InsertLeaf(LeafFor(t, k), k, v, tight);
    ChangeLeaf(t, k, Inserted(LeafFor(t, k), k, v), h, tight, m, m[k := v]);
  }

  lemma UpdateStep(t: Tree, k: Str, v: Str, h: nat, tight: bool, m: Map)
    requires Inv(t, h, None, None, tight) && Shaped(t) && Holds(t, m) && KeyOK(k) && Clean(v)
    requires Fits(k, v) && Traverse(t, k).Found? && Present(t, k)
    ensures var t' := WithLeaf(t, k, Updated(LeafFor(t, k), k, v));
            Inv(t', h, None, None, tight) && Holds(t', m[k := v])
  {
    LeafForBounds(t, k, h, None, None, tight);
    NeverTooLarge(t, k, v);
    UpdateLeaf(LeafFor(t, k), k, v, tight);
    ChangeLeaf(t, k, Updated(LeafFor(t, k), k, v), h, tight, m, m[k := v]);
  }

  lemma EraseStep(t: Tree, k: Str, h: nat, m: Map)
    requires Inv(t, h, None, None, false) && Shaped(t) && Holds(t, m) && KeyOK(k) && Present(t, k)
    ensures var t' := WithLeaf(t, k, Erased(LeafFor(t, k), k)); Inv(t', h, None, None, false) && Holds(t', m - {k})
  {
    LeafForBounds(t, k, h, None, None, false);
    EraseLeaf(LeafFor(t, k), k);
    ChangeLeaf(t, k, Erased(LeafFor(t, k), k), h, false, m, m - {k});
  }

  function HeightOf(t: Tree, h: nat, l: Label): nat { if l.Restructure? then HeightAfter(t, h) else h }

  /** Every step answers as the map does, and leaves the tree in order and with the map's new contents. */
  lemma StepRefines(t: Tree, l: Label, h: nat, tight: bool, m: Map)
    requires Inv(t, h, None, None, tight) && Can(t, l) && Holds(t, m) && KeyOK(l.k)
    requires tight ==> !l.Erase?
    requires tight || h <= 2
    ensures AnswerOf(t, l) == MapAnswer(m, l)
    ensures Inv(After(t, l), HeightOf(t, h, l), None, None, tight) && Holds(After(t, l), MapAfter(m, l))
  {
    PresentIffHas(t, l.k, h, None, None, tight);
    LookupAgrees(t, l.k, h, None, None, tight, m);
    match l
    case Restructure(k) => TraverseKeeps(t, k, h, tight);
    case Insert(k, v) => if Fits(k, v) && !Present(t, k) { InsertStep(t, k, v, h, tight, m); }
    case Update(k, v) => if Fits(k, v) && Present(t, k) { UpdateStep(t, k, v, h, tight, m); }
    case Erase(k) =>
      if Present(t, k) { EraseStep(t, k, h, m); } else { assert m - {k} == m; }
    case LookUp(k) =>
  }

  // ---- Runs ----

  /** A new tree is an empty leaf. */
  ghost predicate IsRun(run: seq<Tree>, ls: seq<Label>) {
    && |run| == |ls| + 1 && run[0] == L(Leaf([], 0))
    && forall k | 0 <= k < |ls| :: StepAt(run, ls, k)
  }

  ghost predicate StepAt(run: seq<Tree>, ls: seq<Label>, k: nat)
    requires |run| == |ls| + 1 && k < |ls|
  {
    Can(run[k], ls[k]) && run[k + 1] == After(run[k], ls[k])
  }

  /** The map after the first k operations, and the height of the tree. */
  function MapAt(ls: seq<Label>, k: nat): Map
    requires k <= |ls|
  {
    if k == 0 then map[] else MapAfter(MapAt(ls, k - 1), ls[k - 1])
  }

  function HeightAt(run: seq<Tree>, ls: seq<Label>, k: nat): nat
    requires |run| == |ls| + 1 && k <= |ls|
  {
    if k == 0 then 1 else HeightOf(run[k - 1], HeightAt(run, ls, k - 1), ls[k - 1])
  }

  lemma EmptyTree(tight: bool)
    ensures Inv(L(Leaf([], 0)), 1, None, None, tight) && Holds(L(Leaf([], 0)), map[])
  {
  }

  /** Runs without erase, of any height, or runs of height at most 2; and keys for which parents have room. */
  ghost predicate Covered(run: seq<Tree>, ls: seq<Label>, tight: bool)
    requires |run| == |ls| + 1
  {
    && (forall k | 0 <= k < |ls| :: |ls[k].k| <= MAX_KEY)
    && (if tight then forall k | 0 <= k < |ls| :: !ls[k].Erase? else forall k | 0 <= k < |ls| :: HeightAt(run, ls, k) <= 2)
  }

  lemma {:induction false} RunKeeps(run: seq<Tree>, ls: seq<Label>, tight: bool, k: nat)
    requires IsRun(run, ls) && Covered(run, ls, tight) && k < |run|
    ensures Inv(run[k], HeightAt(run, ls, k), None, None, tight) && Holds(run[k], MapAt(ls, k))
  {
    if k == 0 {
      EmptyTree(tight);
    } else {
      RunKeeps(run, ls, tight, k - 1);
      assert StepAt(run, ls, k - 1);
      assert tight ==> !ls[k - 1].Erase?;
      assert KeyOK(ls[k - 1].k);
      assert !tight ==> HeightAt(run, ls, k - 1) <= 2;
      StepRefines(run[k - 1], ls[k - 1], HeightAt(run, ls, k - 1), tight, MapAt(ls, k - 1));
    }
  }

  /** Over every covered run, each operation answers as a string map would. */
  lemma RunRefinesMap(run: seq<Tree>, ls: seq<Label>, tight: bool, k: nat)
    requires IsRun(run, ls) && Covered(run, ls, tight) && k < |ls|
    ensures Can(run[k], ls[k]) && AnswerOf(run[k], ls[k]) == MapAnswer(MapAt(ls, k), ls[k])
  {
    RunKeeps(run, ls, tight, k);
    assert StepAt(run, ls, k);
    StepRefines(run[k], ls[k], HeightAt(run, ls, k), tight, MapAt(ls, k));
  }

  /**
    The answers over a covered run, written out: a record is accepted if it and its metadata
    take at most 48 bytes, terminators included.
  */
  lemma RunAnswers(run: seq<Tree>, ls: seq<Label>, tight: bool, n: nat)
    requires IsRun(run, ls) && Covered(run, ls, tight) && n < |ls|
    ensures Can(run[n], ls[n])
    ensures var m := MapAt(ls, n);
            match ls[n]
            case Restructure(_) => true
            case Insert(k, v) => AnswerOf(run[n], ls[n]) == Bool(k !in m && |k| + |v| + 10 <= 48)
            case Update(k, v) => AnswerOf(run[n], ls[n]) == Bool(k in m && |k| + |v| + 10 <= 48)
            case Erase(k) => AnswerOf(run[n], ls[n]) == Bool(k in m)
            case LookUp(k) => AnswerOf(run[n], ls[n]) == Value(if k in m then Some(m[k]) else None)
  {
    RunRefinesMap(run, ls, tight, n);
  }

  // ---- Building runs ----

  ghost predicate Reached(t: Tree, ls: seq<Label>) { exists run :: IsRun(run, ls) && run[|ls|] == t }

  lemma NoSteps()
    ensures Reached(L(Leaf([], 0)), [])
  {
    assert IsRun([L(Leaf([], 0))], []);
  }

  lemma OneMore(t: Tree, ls: seq<Label>, l: Label)
    requires Reached(t, ls) && Can(t, l)
    ensures Reached(After(t, l), ls + [l])
  {
    var run :| IsRun(run, ls) && run[|ls|] == t;
    var run', ls' := run + [After(t, l)], ls + [l];
    forall k | 0 <= k < |ls'|
      ensures StepAt(run', ls', k)
    {
      if k < |ls| { assert StepAt(run, ls, k); }
    }
    assert IsRun(run', ls');
  }

  /** A restart belongs to the insert or update that it delays: no call is under way at the end, and no other starts meanwhile. */
  predicate WholeCalls(ls: seq<Label>) {
    forall i | 0 <= i < |ls| && ls[i].Restructure? :: i + 1 < |ls| && Delays(ls[i], ls[i + 1])
  }

  predicate Delays(r: Label, l: Label) { l.k == r.k && (l.Restructure? || l.Insert? || l.Update?) }
}
