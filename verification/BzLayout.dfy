/**
  The layout of a node body of 240 bytes: metadata words grow up from the start, key-value
  blocks grow down from the end, and the gap between them is zero.
*/
module BzLayout {
  import opened BzKeys
  import opened BzSmo
  import opened BzBytes

  /** A record slot: its stored key and value bytes, terminators included. */
  datatype Slot = Slot(visible: bool, offset: nat, key: seq<Byte>, val: seq<Byte>)

  function Size(s: Slot): nat { |s.key| + |s.val| }

  function MetaOf(s: Slot): Meta { Meta(s.visible, s.offset, |s.key|, Size(s)) }

  /** Bytes taken by visible records, metadata included. */
  function LiveBytes(slots: seq<Slot>): nat {
    if slots == [] then 0
    else LiveBytes(slots[..|slots| - 1]) + if slots[|slots| - 1].visible then META + Size(slots[|slots| - 1]) else 0
  }

  /** The slot is described by metadata word i, and a visible one lies in the block area. */
  predicate SlotAt(body: seq<Byte>, block: nat, s: Slot, i: nat) {
    && 8 * i + 8 <= |body| && ReadMeta(body, i) == MetaOf(s) && MetaOK(MetaOf(s))
    && (s.visible ==>
          && BODY - block <= s.offset && s.offset + Size(s) <= |body|
          && body[s.offset..s.offset + |s.key|] == s.key && body[s.offset + |s.key|..s.offset + Size(s)] == s.val)
  }

  /**
    Metadata and blocks are disjoint and in bounds, all slots are where they should be, and
    the space is accounted for: what is neither live nor free was deleted.
  */
  ghost predicate Laid(body: seq<Byte>, block: nat, deleted: nat, slots: seq<Slot>) {
    && |body| == BODY && META * |slots| + block <= BODY
    && (forall i {:trigger SlotAt(body, block, slots[i], i)} | 0 <= i < |slots| :: SlotAt(body, block, slots[i], i))
    && (forall j | META * |slots| <= j < BODY - block :: body[j] == 0)
    && META * |slots| + block == LiveBytes(slots) + deleted
  }

  lemma {:induction false} LiveSet(slots: seq<Slot>, i: nat, s: Slot)
    requires i < |slots|
    ensures LiveBytes(slots[i := s]) + (if slots[i].visible then META + Size(slots[i]) else 0)
            == LiveBytes(slots) + (if s.visible then META + Size(s) else 0)
  {
    var n := |slots| - 1;
    if i < n {
      assert slots[i := s][..n] == slots[..n][i := s];
      LiveSet(slots[..n], i, s);
    } else {
      assert slots[i := s][..n] == slots[..n];
    }
  }

  // ---- Bytes that stay ----

  predicate SameOn(body: seq<Byte>, body': seq<Byte>, from: nat, to: nat) {
    |body'| == |body| && forall j | from <= j < to && j < |body| :: body'[j] == body[j]
  }

  lemma SlotKept(body: seq<Byte>, body': seq<Byte>, block: nat, block': nat, s: Slot, i: nat)
    requires |body| == BODY && block <= block' <= BODY && SlotAt(body, block, s, i)
    requires SameOn(body, body', 8 * i, 8 * i + 8) && SameOn(body, body', BODY - block, BODY)
    ensures SlotAt(body', block', s, i)
  {
    assert body'[8 * i..8 * i + 8] == body[8 * i..8 * i + 8];
    if s.visible {
      assert body'[s.offset..s.offset + |s.key|] == body[s.offset..s.offset + |s.key|];
      assert body'[s.offset + |s.key|..s.offset + Size(s)] == body[s.offset + |s.key|..s.offset + Size(s)];
    }
  }

  lemma MetaReads(body: seq<Byte>, i: nat, m: Meta)
    requires 8 * i + 8 <= |body| && MetaOK(m) && body[8 * i..8 * i + 8] == BytesOf(Pack(m), 8)
    ensures ReadMeta(body, i) == m
  {
    PackRoundTrip(m);
    WordRoundTrip(Pack(m));
  }

  /** The block and the metadata of a new record have been written. */
  predicate Stored(body: seq<Byte>, s: Slot, i: nat) {
    && 8 * i + 8 <= |body| == BODY && body[8 * i..8 * i + 8] == BytesOf(Pack(MetaOf(s)), 8)
    && s.offset + Size(s) <= BODY && body[s.offset..s.offset + Size(s)] == s.key + s.val
  }

  lemma StoredSlot(body: seq<Byte>, block: nat, s: Slot, i: nat)
    requires Stored(body, s, i) && s.visible && s.offset == BODY - block && block <= BODY
    ensures SlotAt(body, block, s, i)
  {
    MetaReads(body, i, MetaOf(s));
    var b, n := body[s.offset..s.offset + Size(s)], |s.key|;
    assert b[..n] == s.key && b[n..] == s.val;
    assert body[s.offset..s.offset + n] == b[..n];
    assert body[s.offset + n..s.offset + Size(s)] == b[n..];
  }

  /** A record is added: one more metadata word, and a block below all others. */
  lemma AddLaid(body: seq<Byte>, body': seq<Byte>, block: nat, deleted: nat, slots: seq<Slot>, s: Slot)
    requires Laid(body, block, deleted, slots) && s.visible && s.offset == BODY - block - Size(s)
    requires META * (|slots| + 1) + block + Size(s) <= BODY && Stored(body', s, |slots|)
    requires SameOn(body, body', 0, META * |slots|) && SameOn(body, body', META * (|slots| + 1), s.offset)
    requires SameOn(body, body', BODY - block, BODY)
    ensures Laid(body', block + Size(s), deleted, slots + [s])
  {
    var slots', block' := slots + [s], block + Size(s);
    forall i | 0 <= i < |slots'|
      ensures SlotAt(body', block', slots'[i], i)
    {
      if i < |slots| {
        assert SlotAt(body, block, slots[i], i);
        SlotKept(body, body', block, block', slots[i], i);
      } else {
        StoredSlot(body', block', s, i);
      }
    }
    assert slots'[..|slots|] == slots;
  }

  /** A record gets a new block; the old one counts as deleted. */
  lemma MoveLaid(body: seq<Byte>, body': seq<Byte>, block: nat, deleted: nat, slots: seq<Slot>, i: nat, s: Slot)
    requires Laid(body, block, deleted, slots) && i < |slots| && slots[i].visible && s.visible
    requires s.offset == BODY - block - Size(s) && META * |slots| + block + Size(s) <= BODY && Stored(body', s, i)
    requires SameOn(body, body', 0, META * i) && SameOn(body, body', META * (i + 1), s.offset)
    requires SameOn(body, body', BODY - block, BODY)
    ensures Laid(body', block + Size(s), deleted + Size(slots[i]), slots[i := s])
  {
    var slots', block' := slots[i := s], block + Size(s);
    forall j | 0 <= j < |slots'|
      ensures SlotAt(body', block', slots'[j], j)
    {
      if j != i {
        assert SlotAt(body, block, slots[j], j);
        SlotKept(body, body', block, block', slots[j], j);
      } else {
        StoredSlot(body', block', s, i);
      }
    }
    LiveSet(slots, i, s);
  }

  /** A record is made invisible; its metadata word and block count as deleted. */
  lemma HideLaid(body: seq<Byte>, body': seq<Byte>, block: nat, deleted: nat, slots: seq<Slot>, i: nat)
    requires Laid(body, block, deleted, slots) && i < |slots| && slots[i].visible && |body'| == BODY
    requires body'[8 * i..8 * i + 8] == BytesOf(Pack(MetaOf(slots[i].(visible := false, offset := 0))), 8)
    requires SameOn(body, body', 0, META * i) && SameOn(body, body', META * (i + 1), BODY)
    ensures Laid(body', block, deleted + META + Size(slots[i]), slots[i := slots[i].(visible := false, offset := 0)])
  {
    var s := slots[i].(visible := false, offset := 0);
    var slots' := slots[i := s];
    forall j | 0 <= j < |slots'|
      ensures SlotAt(body', block, slots'[j], j)
    {
      assert SlotAt(body, block, slots[j], j);
      if j != i { SlotKept(body, body', block, block, slots[j], j); } else { MetaReads(body', i, MetaOf(s)); }
    }
    LiveSet(slots, i, s);
  }

  // ---- Contents ----

  /** The visible records, in slot order, as stored bytes. */
  function Raw(slots: seq<Slot>): seq<Rec> {
    if slots == [] then []
    else
      var n := |slots| - 1;
      Raw(slots[..n]) + if slots[n].visible then [Rec(slots[n].key, slots[n].val)] else []
  }

  function Stored1(r: Rec): Rec { Rec(r.key + [0], r.val + [0]) }

  function Strip(s: seq<Byte>): seq<Byte> { if s == [] then [] else s[..|s| - 1] }

  /** A leaf slot holds two terminated strings. */
  predicate Strings(s: Slot) {
    s.visible ==> s.key == Strip(s.key) + [0] && s.val == Strip(s.val) + [0] && Clean(Strip(s.key)) && Clean(Strip(s.val))
  }

  predicate LeafSlots(slots: seq<Slot>) {
    && (forall i {:trigger Strings(slots[i])} | 0 <= i < |slots| :: Strings(slots[i]))
    && (forall i, j | 0 <= i < j < |slots| && slots[i].visible && slots[j].visible :: slots[i].key != slots[j].key)
  }

  /** The visible records of a leaf, as strings. */
  function Recs(slots: seq<Slot>): seq<Rec> {
    if slots == [] then []
    else
      var n := |slots| - 1;
      Recs(slots[..n]) + if slots[n].visible then [Rec(Strip(slots[n].key), Strip(slots[n].val))] else []
  }

  function RecOf(s: Slot): Rec { Rec(Strip(s.key), Strip(s.val)) }

  lemma {:induction false} RecsAppend(a: seq<Slot>, b: seq<Slot>)
    ensures Recs(a + b) == Recs(a) + Recs(b)
  {
    if b == [] {
      assert a + b == a;
    } else {
      assert (a + b)[..|a + b| - 1] == a + b[..|b| - 1];
      RecsAppend(a, b[..|b| - 1]);
    }
  }

  lemma RecsOne(s: Slot)
    ensures Recs([s]) == if s.visible then [RecOf(s)] else []
  {
    assert [s][..0] == [];
  }

  lemma RecsThree(a: seq<Slot>, s: Slot, c: seq<Slot>)
    ensures Recs(a + [s] + c) == Recs(a) + (if s.visible then [RecOf(s)] else []) + Recs(c)
  {
    RecsAppend(a + [s], c);
    RecsAppend(a, [s]);
    RecsOne(s);
  }

  lemma {:induction false} RecsFrom(slots: seq<Slot>, r: Rec) returns (i: nat)
    requires r in Recs(slots)
    ensures i < |slots| && slots[i].visible && RecOf(slots[i]) == r
  {
    var n := |slots| - 1;
    if slots[n].visible && RecOf(slots[n]) == r {
      i := n;
    } else {
      i := RecsFrom(slots[..n], r);
    }
  }

  lemma {:induction false} RecsSize(slots: seq<Slot>)
    requires forall i | 0 <= i < |slots| :: Strings(slots[i])
    ensures Live(Recs(slots)) == LiveBytes(slots)
  {
    if slots != [] {
      var n := |slots| - 1;
      RecsSize(slots[..n]);
      var last := if slots[n].visible then [RecOf(slots[n])] else [];
      LiveAppend(Recs(slots[..n]), last);
      assert slots[n].visible ==> last[..0] == [];
    }
  }
}
