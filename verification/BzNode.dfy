/** A node of the BzTree as the program changes it in place. */
module BzNode {
  import opened BzKeys
  import opened BzSmo
  import opened BzBytes
  import opened BzLayout
  import BzTree

  const RESERVED := 0x800_0000   // GLOBAL_EPOCH_OFFSET_BIT: the offset of a record being inserted

  datatype Result = Done | Refused | TooLarge

  // ---- Effects on the contents ----

  lemma {:induction false} IndexInRecs(a: seq<Rec>, r: Rec, b: seq<Rec>)
    requires forall i | 0 <= i < |a| :: a[i].key != r.key
    ensures BzTree.IndexOf(a + [r] + b, r.key) == |a|
  {
    var all := a + [r] + b;
    assert all[|a|] == r;
    assert forall i | 0 <= i < |a| :: all[i] == a[i];
  }

  lemma {:induction false} NotInRecs(recs: seq<Rec>, k: Str)
    requires forall r | r in recs :: r.key != k
    ensures BzTree.IndexOf(recs, k) == |recs|
  {
    assert forall i | 0 <= i < |recs| :: recs[i] in recs;
  }

  /** No visible slot holds the key. */
  predicate Absent(slots: seq<Slot>, k: Str) {
    forall i | 0 <= i < |slots| && slots[i].visible :: Strip(slots[i].key) != k
  }

  lemma AbsentRecs(slots: seq<Slot>, k: Str)
    requires Absent(slots, k)
    ensures forall r | r in Recs(slots) :: r.key != k
    ensures BzTree.IndexOf(Recs(slots), k) == |Recs(slots)|
  {
    forall r | r in Recs(slots)
      ensures r.key != k
    {
      var i := RecsFrom(slots, r);
    }
    NotInRecs(Recs(slots), k);
  }

  lemma OtherKeysAbsent(a: seq<Slot>, s: Slot, c: seq<Slot>)
    requires LeafSlots(a + [s] + c) && s.visible
    ensures Absent(a, RecOf(s).key) && Absent(c, RecOf(s).key)
  {
    var slots := a + [s] + c;
    assert slots[|a|] == s;
    forall i | 0 <= i < |a| && a[i].visible
      ensures Strip(a[i].key) != Strip(s.key)
    {
      assert slots[i] == a[i] && Strings(slots[i]) && Strings(slots[|a|]);
    }
    forall i | 0 <= i < |c| && c[i].visible
      ensures Strip(c[i].key) != Strip(s.key)
    {
      assert slots[|a| + 1 + i] == c[i] && Strings(slots[|a| + 1 + i]) && Strings(slots[|a|]);
    }
  }

  /** Where the record of a visible slot is among the records. */
  lemma FoundAt(a: seq<Slot>, s: Slot, c: seq<Slot>)
    requires LeafSlots(a + [s] + c) && s.visible
    ensures Recs(a + [s] + c) == Recs(a) + [RecOf(s)] + Recs(c)
    ensures BzTree.IndexOf(Recs(a + [s] + c), RecOf(s).key) == |Recs(a)|
  {
    RecsThree(a, s, c);
    OtherKeysAbsent(a, s, c);
    AbsentRecs(a, RecOf(s).key);
    forall i | 0 <= i < |Recs(a)|
      ensures Recs(a)[i].key != RecOf(s).key
    {
      assert Recs(a)[i] in Recs(a);
    }
    IndexInRecs(Recs(a), RecOf(s), Recs(c));
  }

  lemma {:induction false} FindAtIndex(recs: seq<Rec>, k: Str)
    ensures BzTree.Find(recs, k) == var i := BzTree.IndexOf(recs, k); if i < |recs| then Some(recs[i].val) else None
  {
    if recs != [] { FindAtIndex(recs[1..], k); }
  }

  lemma AddedSlots(slots: seq<Slot>, s: Slot)
    requires LeafSlots(slots) && s.visible && Strings(s) && Absent(slots, Strip(s.key))
    ensures LeafSlots(slots + [s])
  {
    var slots' := slots + [s];
    forall i, j | 0 <= i < j < |slots'| && slots'[i].visible && slots'[j].visible
      ensures slots'[i].key != slots'[j].key
    {
      assert slots'[i] == slots[i];
      if j < |slots| { assert slots'[j] == slots[j]; } else { assert Strip(slots[i].key) != Strip(s.key); }
    }
  }

  lemma InsertContents(slots: seq<Slot>, deleted: nat, s: Slot)
    requires LeafSlots(slots) && s.visible && Strings(s) && Absent(slots, RecOf(s).key)
    ensures LeafSlots(slots + [s])
    ensures Leaf(Recs(slots + [s]), deleted) == BzTree.Inserted(Leaf(Recs(slots), deleted), RecOf(s).key, RecOf(s).val)
  {
    AddedSlots(slots, s);
    RecsAppend(slots, [s]);
    RecsOne(s);
  }

  lemma UpdateContents(a: seq<Slot>, s: Slot, c: seq<Slot>, deleted: nat, s': Slot)
    requires LeafSlots(a + [s] + c) && s.visible && s'.visible && Strings(s') && s'.key == s.key
    ensures LeafSlots(a + [s'] + c)
    ensures Leaf(Recs(a + [s'] + c), deleted + Size(s))
            == BzTree.Updated(Leaf(Recs(a + [s] + c), deleted), RecOf(s).key, RecOf(s').val)
  {
    FoundAt(a, s, c);
    RecsThree(a, s', c);
    var slots, slots' := a + [s] + c, a + [s'] + c;
    assert slots[|a|] == s && Strings(slots[|a|]);
    forall i | 0 <= i < |slots'|
      ensures Strings(slots'[i]) && slots'[i].visible == slots[i].visible && slots'[i].key == slots[i].key
    {
      assert i != |a| ==> slots'[i] == slots[i];
    }
    assert Recs(slots') == Recs(slots)[|Recs(a)| := RecOf(s')];
  }

  lemma EraseContents(a: seq<Slot>, s: Slot, c: seq<Slot>, deleted: nat)
    requires LeafSlots(a + [s] + c) && s.visible
    ensures var s' := s.(visible := false, offset := 0);
            LeafSlots(a + [s'] + c) && Leaf(Recs(a + [s'] + c), deleted + META + Size(s))
            == BzTree.Erased(Leaf(Recs(a + [s] + c), deleted), RecOf(s).key)
  {
    var s' := s.(visible := false, offset := 0);
    FoundAt(a, s, c);
    RecsThree(a, s', c);
    var slots, slots' := a + [s] + c, a + [s'] + c;
    assert slots[|a|] == s && Strings(slots[|a|]);
    forall i | 0 <= i < |slots'|
      ensures Strings(slots'[i]) && (slots'[i].visible ==> slots'[i] == slots[i])
    {
      assert i != |a| ==> slots'[i] == slots[i];
    }
    assert Recs(slots)[..|Recs(a)|] == Recs(a) && Recs(slots)[|Recs(a)| + 1..] == Recs(c);
  }

  // ---- Writing a record ----

  function MetaBytes(m: Meta): seq<Byte> { BytesOf(Pack(m), 8) }

  /** The block and then metadata word i are written. */
  function Record(body: seq<Byte>, s: Slot, i: nat): (r: seq<Byte>)
    requires s.offset + Size(s) <= |body| && 8 * i + 8 <= |body|
    ensures |r| == |body|
  {
    Written(Written(Written(body, s.offset, s.key), s.offset + |s.key|, s.val), 8 * i, MetaBytes(MetaOf(s)))
  }

  lemma RecordStores(body: seq<Byte>, s: Slot, i: nat)
    requires |body| == BODY && s.offset + Size(s) <= BODY && 8 * i + 8 <= s.offset
    ensures Stored(Record(body, s, i), s, i) && OnlyWrote(body, Record(body, s, i), s, i)
  {
    var b := Record(body, s, i);
    assert b[8 * i..8 * i + 8] == MetaBytes(MetaOf(s));
    assert b[s.offset..s.offset + Size(s)] == s.key + s.val;
  }

  /** Outside the block and metadata word i, nothing differs. */
  predicate OnlyWrote(body: seq<Byte>, body': seq<Byte>, s: Slot, i: nat) {
    SameOn(body, body', 0, 8 * i) && SameOn(body, body', 8 * i + 8, s.offset) && SameOn(body, body', s.offset + Size(s), BODY)
  }

  lemma {:induction false} ZeroWord(s: seq<Byte>)
    requires forall i | 0 <= i < |s| :: s[i] == 0
    ensures WordOf(s) == 0
  {
    if s != [] { ZeroWord(s[1..]); }
  }

  class Node {
    var count: nat        // record_count
    var block: nat        // block_size
    var deleted: nat      // delete_size
    var sorted: nat       // sorted_count
    var body: array<Byte>
    ghost var slots: seq<Slot>

    ghost predicate Valid()
      reads this, body
    {
      count == |slots| && body.Length == BODY && Laid(body[..], block, deleted, slots)
    }

    ghost predicate ValidLeaf()
      reads this, body
    {
      Valid() && LeafSlots(slots)
    }

    ghost function Contents(): Leaf
      reads this
    {
      Leaf(Recs(slots), deleted)
    }

    /** A zeroed node. */
    constructor ()
      ensures ValidLeaf() && fresh(body) && slots == [] && block == deleted == sorted == 0
    {
      count, block, deleted, sorted, slots := 0, 0, 0, 0, [];
      body := new Byte[BODY](_ => 0);
    }

    method Copy(off: nat, s: seq<Byte>)
      requires off + |s| <= body.Length
      modifies body
      ensures body[..] == Written(old(body[..]), off, s)
    {
      for j := 0 to |s|
        invariant forall x | 0 <= x < body.Length && !(off <= x < off + j) :: body[x] == old(body[x])
        invariant forall x | off <= x < off + j :: body[x] == s[x - off]
      {
        body[off + j] := s[j];
      }
      assert body[..] == Written(old(body[..]), off, s);
    }

    /** The scan for a visible record with the key, by strcmp. */
    method Scan(k: Str) returns (i: nat)
      requires ValidLeaf() && Clean(k)
      ensures i <= count && (i < count ==> slots[i].visible && Strip(slots[i].key) == k)
      ensures i == count ==> Absent(slots, k)
    {
      i := 0;
      while i < count
        invariant i <= count
        invariant forall j | 0 <= j < i && slots[j].visible :: Strip(slots[j].key) != k
      {
        LaidSlot(body[..], block, deleted, slots, i);
        SlotReads(body[..], block, slots[i], i);
        var m := ReadMeta(body[..], i);
        if m.visible && CStr(body[..], m.offset) == k { return; }
        i := i + 1;
      }
    }

    /** The read-only scan of lookup. */
    method Lookup(k: Str) returns (r: Option<Str>)
      requires ValidLeaf() && Clean(k)
      ensures r == BzTree.Find(Contents().recs, k)
    {
      var i := Scan(k);
      if i == count {
        AbsentValue(slots, k);
        return None;
      }
      FoundValue(slots, i);
      LaidSlot(body[..], block, deleted, slots, i);
      SlotReads(body[..], block, slots[i], i);
      var m := ReadMeta(body[..], i);
      r := Some(CStr(body[..], m.offset + m.keyLen));
    }

    /** Key and value are copied in, then the metadata word is installed. */
    method Store(i: nat, off: nat, key: seq<Byte>, val: seq<Byte>)
      requires body.Length == BODY && off + |key| + |val| <= BODY && 8 * i + 8 <= off
      modifies body
      ensures Stored(body[..], Slot(true, off, key, val), i)
      ensures OnlyWrote(old(body[..]), body[..], Slot(true, off, key, val), i)
    {
      RecordStores(body[..], Slot(true, off, key, val), i);
      Copy(off, key);
      Copy(off + |key|, val);
      Copy(8 * i, MetaBytes(Meta(true, off, |key|, |key| + |val|)));
    }

    /** Metadata word i is first marked as being inserted. */
    method StoreNew(i: nat, epoch: nat, off: nat, key: seq<Byte>, val: seq<Byte>)
      requires body.Length == BODY && off + |key| + |val| <= BODY && 8 * i + 8 <= off
      modifies body
      ensures Stored(body[..], Slot(true, off, key, val), i)
      ensures OnlyWrote(old(body[..]), body[..], Slot(true, off, key, val), i)
    {
      Copy(8 * i, MetaBytes(Meta(false, RESERVED + epoch, 0, 0)));
      ghost var mid := body[..];
      assert SameOn(old(body[..]), mid, 0, 8 * i) && SameOn(old(body[..]), mid, 8 * i + 8, BODY);
      Store(i, off, key, val);
    }

    method MetaAt(i: nat) returns (m: Meta)
      requires Valid() && i < count
      ensures m == MetaOf(slots[i])
    {
      assert SlotAt(body[..], block, slots[i], i);
      m := ReadMeta(body[..], i);
    }

    /** A metadata word and a block are reserved, filled, and made visible. */
    method Append(key: seq<Byte>, val: seq<Byte>, epoch: nat)
      requires Valid() && META * (count + 1) + block + |key| + |val| <= BODY
      modifies this`count, this`block, this`slots, body
      ensures Valid() && slots == old(slots) + [Slot(true, BODY - block, key, val)]
    {
      ghost var was, b := body[..], block;
      block := block + |key| + |val|;
      count := count + 1;
      ghost var s := Slot(true, BODY - block, key, val);
      StoreNew(count - 1, epoch, BODY - block, key, val);
      AddLaid(was, body[..], b, deleted, slots, s);
      slots := slots + [s];
    }

    /** The same, in a node nobody else sees yet. */
    method Place(key: seq<Byte>, val: seq<Byte>)
      requires Valid() && META * (count + 1) + block + |key| + |val| <= BODY
      modifies this`count, this`block, this`slots, body
      ensures Valid() && slots == old(slots) + [Slot(true, BODY - block, key, val)]
      ensures block == old(block) + |key| + |val|
    {
      ghost var was, b := body[..], block;
      block := block + |key| + |val|;
      count := count + 1;
      ghost var s := Slot(true, BODY - block, key, val);
      Store(count - 1, BODY - block, key, val);
      AddLaid(was, body[..], b, deleted, slots, s);
      slots := slots + [s];
    }

    /** copy_out: the visible records, sorted by key. */
    method CopyOut() returns (r: seq<Rec>)
      requires Valid()
      ensures r == Sort(Raw(slots))
    {
      r := [];
      for i := 0 to count
        invariant r == Raw(slots[..i])
      {
        assert SlotAt(body[..], block, slots[i], i);
        RawNext(slots, i);
        var m := ReadMeta(body[..], i);
        if m.visible {
          r := r + [Rec(body[m.offset..m.offset + m.keyLen], body[m.offset + m.keyLen..m.offset + m.totalLen])];
        }
      }
      assert slots[..count] == slots;
      r := Sort(r);
    }

    /** The record in slot i gets a new block. */
    method Relocate(i: nat, key: seq<Byte>, val: seq<Byte>)
      requires Valid() && i < count && slots[i].visible && META * count + block + |key| + |val| <= BODY
      modifies this`block, this`deleted, this`slots, body
      ensures Valid() && slots == old(slots)[i := Slot(true, BODY - block, key, val)]
      ensures deleted == old(deleted) + Size(old(slots[i]))
    {
      ghost var was, b, d := body[..], block, deleted;
      var m := MetaAt(i);
      block := block + |key| + |val|;
      ghost var s := Slot(true, BODY - block, key, val);
      deleted := deleted + m.totalLen;
      Store(i, BODY - block, key, val);
      MoveLaid(was, body[..], b, d, slots, i, s);
      slots := slots[i := s];
    }

    method Hide(i: nat)
      requires ValidLeaf() && i < count && slots[i].visible
      modifies this`deleted, this`slots, body
      ensures ValidLeaf() && Contents() == BzTree.Erased(old(Contents()), Strip(old(slots[i].key)))
    {
      EraseEffect(body[..], block, deleted, slots, i);
      var m := MetaAt(i);
      deleted := deleted + m.totalLen + META;
      Copy(8 * i, MetaBytes(m.(visible := false, offset := 0)));
      slots := slots[i := slots[i].(visible := false, offset := 0)];
    }

    /** insert, from the leaf that find_leaf returned. */
    method Insert(k: Str, v: Str, epoch: nat) returns (r: Result)
      requires ValidLeaf() && Clean(k) && Clean(v) && epoch < RESERVED
      modifies this`count, this`block, this`slots, body
      ensures ValidLeaf()
      ensures r == Refused <==> BzTree.Find(old(Contents()).recs, k).Some?
      ensures r == TooLarge <==> r != Refused && Used(old(Contents())) + META + Block(Rec(k, v)) > BODY
      ensures Contents() == if r == Done then BzTree.Inserted(old(Contents()), k, v) else old(Contents())
    {
      var i := Scan(k);
      if i < count {
        FoundValue(slots, i);
        return Refused;
      }
      AbsentValue(slots, k);
      UsedIs(body[..], block, deleted, slots);
      if block + META + |k| + 1 + |v| + 1 > BODY - count * META { return TooLarge; }
      Append(k + [0], v + [0], epoch);
      InsertContents(old(slots), deleted, slots[count - 1]);
      r := Done;
    }

    /** update, from the leaf that find_leaf returned. */
    method Update(k: Str, v: Str) returns (r: Result)
      requires ValidLeaf() && Clean(k) && Clean(v)
      modifies this`block, this`deleted, this`slots, body
      ensures ValidLeaf()
      ensures r == Refused <==> BzTree.Find(old(Contents()).recs, k) == None
      ensures r == TooLarge <==> r != Refused && Used(old(Contents())) + Block(Rec(k, v)) > BODY
      ensures Contents() == if r == Done then BzTree.Updated(old(Contents()), k, v) else old(Contents())
    {
      var i := Scan(k);
      if i == count {
        AbsentValue(slots, k);
        return Refused;
      }
      FoundValue(slots, i);
      UsedIs(body[..], block, deleted, slots);
      if block + |k| + 1 + |v| + 1 > BODY - count * META { return TooLarge; }
      Relocate(i, k + [0], v + [0]);
      UpdatedContents(old(slots), old(deleted), i, slots[i]);
      r := Done;
    }

    /** erase, from the leaf that find_leaf returned. */
    method Erase(k: Str) returns (r: Result)
      requires ValidLeaf() && Clean(k)
      modifies this`deleted, this`slots, body
      ensures ValidLeaf()
      ensures r == if BzTree.Find(old(Contents()).recs, k).Some? then Done else Refused
      ensures Contents() == BzTree.Erased(old(Contents()), k)
    {
      var i := Scan(k);
      if i == count {
        AbsentValue(slots, k);
        AbsentRecs(slots, k);
        return Refused;
      }
      FoundValue(slots, i);
      Hide(i);
      r := Done;
    }
  }

  lemma RawNext(slots: seq<Slot>, i: nat)
    requires i < |slots|
    ensures Raw(slots[..i + 1]) == Raw(slots[..i]) + if slots[i].visible then [Rec(slots[i].key, slots[i].val)] else []
  {
    assert slots[..i + 1][..i] == slots[..i];
  }

  /** Space for stored pairs, metadata included. */
  function PairBytes(pairs: seq<Rec>): nat {
    if pairs == [] then 0
    else PairBytes(pairs[..|pairs| - 1]) + META + |pairs[|pairs| - 1].key| + |pairs[|pairs| - 1].val|
  }

  lemma {:induction false} PairBytesGrow(pairs: seq<Rec>, i: nat)
    requires i < |pairs|
    ensures PairBytes(pairs[..i + 1]) == PairBytes(pairs[..i]) + META + |pairs[i].key| + |pairs[i].val|
    ensures PairBytes(pairs[..i + 1]) <= PairBytes(pairs)
    decreases |pairs| - i
  {
    assert pairs[..i + 1][..i] == pairs[..i];
    if i + 1 < |pairs| { PairBytesGrow(pairs, i + 1); } else { assert pairs[..i + 1] == pairs; }
  }

  /** The slots hold the pairs, all visible and in order. */
  predicate HoldsPairs(slots: seq<Slot>, pairs: seq<Rec>) {
    |slots| == |pairs| &&
    forall i | 0 <= i < |slots| :: slots[i].visible && slots[i].key == pairs[i].key && slots[i].val == pairs[i].val
  }

  /** copy_in: a new node with the pairs in order, nothing deleted, all sorted. */
  method CopyIn(pairs: seq<Rec>) returns (n: Node)
    requires PairBytes(pairs) <= BODY
    ensures fresh(n) && fresh(n.body) && n.Valid() && HoldsPairs(n.slots, pairs)
    ensures n.deleted == 0 && n.sorted == n.count == |pairs|
  {
    n := new Node();
    for i := 0 to |pairs|
      invariant fresh(n) && fresh(n.body) && n.Valid() && n.deleted == 0
      invariant META * n.count + n.block == PairBytes(pairs[..i]) && HoldsPairs(n.slots, pairs[..i])
    {
      PairBytesGrow(pairs, i);
      n.Place(pairs[i].key, pairs[i].val);
    }
    assert pairs[..|pairs|] == pairs;
    n.sorted := n.count;
  }

  lemma {:induction false} RawOfPairs(slots: seq<Slot>, pairs: seq<Rec>)
    requires HoldsPairs(slots, pairs)
    ensures Raw(slots) == pairs
  {
    if slots != [] {
      var n := |slots| - 1;
      RawOfPairs(slots[..n], pairs[..n]);
      assert pairs == pairs[..n] + [pairs[n]];
    }
  }

  lemma SortSorted(pairs: seq<Rec>)
    requires Sorted(pairs)
    ensures Sort(pairs) == pairs
  {
    SortedDistinct(pairs);
    SortFacts(pairs);
    SameHead(Sort(pairs), pairs);
  }

  /** copy_out after copy_in returns the same list, for every sorted list that fits. */
  method CopyInThenOut(pairs: seq<Rec>) returns (r: seq<Rec>)
    requires Sorted(pairs) && PairBytes(pairs) <= BODY
    ensures r == pairs
  {
    var n := CopyIn(pairs);
    RawOfPairs(n.slots, pairs);
    SortSorted(pairs);
    r := n.CopyOut();
  }

  // ---- Compaction of a leaf ----

  function Terminated(recs: seq<Rec>): (t: seq<Rec>)
    ensures |t| == |recs|
  {
    seq(|recs|, i requires 0 <= i < |recs| => Stored1(recs[i]))
  }

  predicate CleanKeys(recs: seq<Rec>) { forall i | 0 <= i < |recs| :: Clean(recs[i].key) && Clean(recs[i].val) }

  lemma {:induction false} InsertTerminated(r: Rec, recs: seq<Rec>)
    requires CleanKeys(recs) && Clean(r.key) && Clean(r.val)
    ensures Insert(Stored1(r), Terminated(recs)) == Terminated(Insert(r, recs)) && CleanKeys(Insert(r, recs))
  {
    if recs == [] {
      assert Terminated([r]) == [Stored1(r)] + Terminated(recs);
    } else {
      LessTerminated(r.key, recs[0].key);
      if Less(r.key, recs[0].key) {
        assert Terminated([r] + recs) == [Stored1(r)] + Terminated(recs);
      } else {
        InsertTerminated(r, recs[1..]);
        assert Terminated(recs)[1..] == Terminated(recs[1..]);
        assert Terminated([recs[0]] + Insert(r, recs[1..])) == [Stored1(recs[0])] + Terminated(Insert(r, recs[1..]));
      }
    }
  }

  /** Sorting stored pairs is sorting the strings. */
  lemma {:induction false} SortTerminated(recs: seq<Rec>)
    requires CleanKeys(recs)
    ensures Sort(Terminated(recs)) == Terminated(Sort(recs)) && CleanKeys(Sort(recs))
  {
    if recs != [] {
      var n := |recs| - 1;
      SortTerminated(recs[..n]);
      assert Terminated(recs)[..n] == Terminated(recs[..n]);
      InsertTerminated(recs[n], Sort(recs[..n]));
    }
  }

  lemma {:induction false} RawIsTerminated(slots: seq<Slot>)
    requires forall i | 0 <= i < |slots| :: Strings(slots[i])
    ensures Raw(slots) == Terminated(Recs(slots)) && CleanKeys(Recs(slots))
  {
    if slots != [] {
      var n := |slots| - 1;
      RawIsTerminated(slots[..n]);
      assert Strings(slots[n]);
      if slots[n].visible {
        assert Terminated(Recs(slots[..n]) + [RecOf(slots[n])]) == Terminated(Recs(slots[..n])) + [Stored1(RecOf(slots[n]))];
      }
    }
  }

  lemma StripTerminated(s: Str)
    ensures Strip(s + [0]) == s
  {
  }

  lemma {:induction false} RecsOfPairs(slots: seq<Slot>, recs: seq<Rec>)
    requires HoldsPairs(slots, Terminated(recs))
    ensures Recs(slots) == recs
  {
    if slots != [] {
      var n := |slots| - 1;
      assert Terminated(recs)[..n] == Terminated(recs[..n]);
      RecsOfPairs(slots[..n], recs[..n]);
      StripTerminated(recs[n].key);
      StripTerminated(recs[n].val);
      assert recs == recs[..n] + [recs[n]];
    }
  }

  lemma LeafOfPairs(slots: seq<Slot>, recs: seq<Rec>)
    requires HoldsPairs(slots, Terminated(recs)) && CleanKeys(recs) && Distinct(recs)
    ensures LeafSlots(slots) && Recs(slots) == recs
  {
    RecsOfPairs(slots, recs);
    forall i | 0 <= i < |slots|
      ensures Strings(slots[i]) && Strip(slots[i].key) == recs[i].key
    {
      StripTerminated(recs[i].key);
      StripTerminated(recs[i].val);
    }
  }

  lemma UpdatedContents(slots: seq<Slot>, deleted: nat, i: nat, s: Slot)
    requires LeafSlots(slots) && i < |slots| && slots[i].visible && s.visible && Strings(s)
    requires Strip(slots[i].key) == Strip(s.key)
    ensures LeafSlots(slots[i := s])
    ensures Leaf(Recs(slots[i := s]), deleted + Size(slots[i]))
            == BzTree.Updated(Leaf(Recs(slots), deleted), RecOf(s).key, RecOf(s).val)
  {
    var a, c := slots[..i], slots[i + 1..];
    assert slots == a + [slots[i]] + c && slots[i := s] == a + [s] + c;
    assert Strings(slots[i]);
    UpdateContents(a, slots[i], c, deleted, s);
  }

  lemma EraseEffect(body: seq<Byte>, block: nat, deleted: nat, slots: seq<Slot>, i: nat)
    requires Laid(body, block, deleted, slots) && LeafSlots(slots) && i < |slots| && slots[i].visible
    ensures var s := slots[i].(visible := false, offset := 0);
            && 8 * i + 8 <= BODY
            && Laid(Written(body, 8 * i, MetaBytes(MetaOf(s))), block, deleted + META + Size(slots[i]), slots[i := s])
            && LeafSlots(slots[i := s])
            && Leaf(Recs(slots[i := s]), deleted + META + Size(slots[i]))
               == BzTree.Erased(Leaf(Recs(slots), deleted), Strip(slots[i].key))
  {
    var s := slots[i].(visible := false, offset := 0);
    var body' := Written(body, 8 * i, MetaBytes(MetaOf(s)));
    assert body'[8 * i..8 * i + 8] == MetaBytes(MetaOf(s));
    HideLaid(body, body', block, deleted, slots, i);
    var a, c := slots[..i], slots[i + 1..];
    assert slots == a + [slots[i]] + c && slots[i := s] == a + [s] + c;
    EraseContents(a, slots[i], c, deleted);
  }

  /** The space in use, as the tree counts it. */
  lemma UsedIs(body: seq<Byte>, block: nat, deleted: nat, slots: seq<Slot>)
    requires Laid(body, block, deleted, slots) && LeafSlots(slots)
    ensures Used(Leaf(Recs(slots), deleted)) == META * |slots| + block
  {
    forall i | 0 <= i < |slots| ensures Strings(slots[i]) { }
    RecsSize(slots);
  }

  /** The metadata word after the last one is zero, so its visible bit is clear. */
  lemma NewSlotIsZero(body: seq<Byte>, block: nat, deleted: nat, slots: seq<Slot>)
    requires Laid(body, block, deleted, slots) && META * (|slots| + 1) + block <= BODY
    ensures !ReadMeta(body, |slots|).visible
  {
    var n := |slots|;
    ZeroWord(body[8 * n..8 * n + 8]);
  }

  lemma AbsentValue(slots: seq<Slot>, k: Str)
    requires Absent(slots, k)
    ensures BzTree.Find(Recs(slots), k) == None
  {
    AbsentRecs(slots, k);
    FindAtIndex(Recs(slots), k);
  }

  lemma FoundValue(slots: seq<Slot>, i: nat)
    requires LeafSlots(slots) && i < |slots| && slots[i].visible
    ensures BzTree.Find(Recs(slots), Strip(slots[i].key)) == Some(Strip(slots[i].val))
  {
    Around(slots, i);
    FoundValueAt(slots, slots[..i], slots[i], slots[i + 1..]);
  }

  lemma Around(slots: seq<Slot>, i: nat)
    requires i < |slots|
    ensures slots == slots[..i] + [slots[i]] + slots[i + 1..]
  {
  }

  lemma FoundValueAt(slots: seq<Slot>, a: seq<Slot>, s: Slot, c: seq<Slot>)
    requires slots == a + [s] + c && LeafSlots(slots) && s.visible
    ensures BzTree.Find(Recs(slots), Strip(s.key)) == Some(Strip(s.val))
  {
    FoundAt(a, s, c);
    FindAtIndex(Recs(slots), RecOf(s).key);
  }

  /** What strcmp and the string constructor see of a visible leaf record. */
  lemma SlotStrings(body: seq<Byte>, block: nat, s: Slot, i: nat)
    requires |body| == BODY && SlotAt(body, block, s, i) && Strings(s) && s.visible
    ensures CStr(body, s.offset) == Strip(s.key) && CStr(body, s.offset + |s.key|) == Strip(s.val)
  {
    assert |s.key| > 0 && |s.val| > 0;
    CStrReads(body, s.offset, Strip(s.key));
    CStrReads(body, s.offset + |s.key|, Strip(s.val));
  }

  lemma LaidSlot(body: seq<Byte>, block: nat, deleted: nat, slots: seq<Slot>, i: nat)
    requires Laid(body, block, deleted, slots) && LeafSlots(slots) && i < |slots|
    ensures SlotAt(body, block, slots[i], i) && Strings(slots[i]) && |body| == BODY
  {
  }

  lemma SlotReads(body: seq<Byte>, block: nat, s: Slot, i: nat)
    requires |body| == BODY && SlotAt(body, block, s, i) && Strings(s)
    ensures 8 * i + 8 <= |body| && ReadMeta(body, i) == MetaOf(s)
    ensures s.visible ==> CStr(body, s.offset) == Strip(s.key) && CStr(body, s.offset + |s.key|) == Strip(s.val)
  {
    if s.visible { SlotStrings(body, block, s, i); }
  }

  lemma {:induction false} PairBytesLive(recs: seq<Rec>)
    ensures PairBytes(Terminated(recs)) == Live(recs)
  {
    if recs != [] {
      var n := |recs| - 1;
      assert Terminated(recs)[..n] == Terminated(recs[..n]);
      PairBytesLive(recs[..n]);
    }
  }

  /** copy_out of a leaf gives its records, sorted and with terminators. */
  lemma LeafSorted(body: seq<Byte>, block: nat, deleted: nat, slots: seq<Slot>)
    requires Laid(body, block, deleted, slots) && LeafSlots(slots)
    ensures Sort(Raw(slots)) == Terminated(Sort(Recs(slots))) && CleanKeys(Sort(Recs(slots)))
    ensures Sorted(Sort(Recs(slots))) && Distinct(Recs(slots)) && Live(Sort(Recs(slots))) == Live(Recs(slots)) <= BODY
  {
    forall i | 0 <= i < |slots| ensures Strings(slots[i]) { }
    RawIsTerminated(slots);
    SortTerminated(Recs(slots));
    DistinctRecs(slots);
    SortFacts(Recs(slots));
    RecsSize(slots);
  }

  lemma {:induction false} DistinctRecs(slots: seq<Slot>)
    requires LeafSlots(slots)
    ensures Distinct(Recs(slots))
  {
    if slots != [] {
      var n := |slots| - 1;
      var a, s := slots[..n], slots[n];
      assert slots == a + [s] + [];
      forall i | 0 <= i < n ensures Strings(a[i]) { assert Strings(slots[i]); }
      DistinctRecs(a);
      if s.visible {
        OtherKeysAbsent(a, s, []);
        AbsentRecs(a, Strip(s.key));
        forall i | 0 <= i < |Recs(a)| ensures Recs(a)[i].key != Strip(s.key) { assert Recs(a)[i] in Recs(a); }
      }
    }
  }

  /** node_compact of a leaf: same records, fully sorted, nothing deleted. */
  method CompactLeaf(n: Node) returns (c: Node)
    requires n.ValidLeaf()
    ensures fresh(c) && fresh(c.body) && c.ValidLeaf() && c.sorted == c.count
    ensures BzTree.L(c.Contents()) == BzTree.Compact(BzTree.L(n.Contents()))
  {
    LeafSorted(n.body[..], n.block, n.deleted, n.slots);
    ghost var recs := Sort(Recs(n.slots));
    var pairs := n.CopyOut();
    PairBytesLive(recs);
    c := CopyIn(pairs);
    SortedDistinct(recs);
    LeafOfPairs(c.slots, recs);
  }
}
