/** The words of a node as bytes: record metadata, the status word, and C strings in the body. */
module BzBytes {
  import opened BzKeys
  import opened BzSmo

  const W61: nat := 0x2000_0000_0000_0000   // the three top bits of a word belong to MwCAS
  const W64: nat := 0x1_0000_0000_0000_0000

  /** NodeMetadata; its control bits stay zero. */
  datatype Meta = Meta(visible: bool, offset: nat, keyLen: nat, totalLen: nat)

  /** The fields fit their widths, and total_len leaves the top three of its 16 bits clear. */
  predicate MetaOK(m: Meta) { m.offset < 0x1000_0000 && m.keyLen < 0x1_0000 && m.totalLen < 0x2000 }

  /** Bit 3 is visible, then 28 bits of offset, 16 of key_len and 16 of total_len. */
  function Pack(m: Meta): nat {
    (if m.visible then 8 else 0) + 16 * m.offset + 0x1_0000_0000 * m.keyLen + 0x1_0000_0000_0000 * m.totalLen
  }

  function Unpack(w: nat): Meta {
    Meta((w / 8) % 2 == 1, (w / 16) % 0x1000_0000, (w / 0x1_0000_0000) % 0x1_0000, (w / 0x1_0000_0000_0000) % 0x1_0000)
  }

  lemma PackRoundTrip(m: Meta)
    requires MetaOK(m)
    ensures Unpack(Pack(m)) == m && Pack(m) < W61
  {
    assert Pack(m) / 8 == (if m.visible then 1 else 0) + 2 * (m.offset + 0x1000_0000 * m.keyLen + 0x1000_0000_0000 * m.totalLen);
    assert Pack(m) / 16 == m.offset + 0x1000_0000 * (m.keyLen + 0x1_0000 * m.totalLen);
    assert Pack(m) / 0x1_0000_0000 == m.keyLen + 0x1_0000 * m.totalLen;
    assert Pack(m) / 0x1_0000_0000_0000 == m.totalLen;
  }

  /** NodeHeaderStatusWord: frozen in bit 3, then record_count, block_size and delete_size. */
  function PackStatus(frozen: bool, count: nat, block: nat, deleted: nat): nat {
    (if frozen then 8 else 0) + 16 * count + 0x10_0000 * block + 0x400_0000_0000 * deleted
  }

  /** Whatever fits in a node keeps the three top bits of the status word clear, and the fields apart. */
  lemma StatusWordClean(frozen: bool, count: nat, block: nat, deleted: nat)
    requires count < 0x1_0000 && block < 0x40_0000 && deleted < 0x8_0000
    ensures var w := PackStatus(frozen, count, block, deleted);
            w < W61 && (w / 16) % 0x1_0000 == count && (w / 0x10_0000) % 0x40_0000 == block && w / 0x400_0000_0000 == deleted
  {
    var w := PackStatus(frozen, count, block, deleted);
    assert w / 16 == count + 0x1_0000 * (block + 0x40_0000 * deleted);
    assert w / 0x10_0000 == block + 0x40_0000 * deleted;
  }

  /** Little-endian bytes of a word. */
  function BytesOf(w: nat, n: nat): (s: seq<Byte>)
    ensures |s| == n
  {
    if n == 0 then [] else [w % 256] + BytesOf(w / 256, n - 1)
  }

  function WordOf(s: seq<Byte>): nat {
    if s == [] then 0 else s[0] + 256 * WordOf(s[1..])
  }

  function Power(n: nat): nat { if n == 0 then 1 else 256 * Power(n - 1) }

  lemma {:induction false} BytesRoundTrip(w: nat, n: nat)
    requires w < Power(n)
    ensures WordOf(BytesOf(w, n)) == w
  {
    if n > 0 {
      BytesRoundTrip(w / 256, n - 1);
      assert BytesOf(w, n)[1..] == BytesOf(w / 256, n - 1);
    }
  }

  lemma WordRoundTrip(w: nat)
    requires w < W61
    ensures WordOf(BytesOf(w, 8)) == w
  {
    assert Power(8) == W64 by {
      assert Power(2) == 0x1_0000;
      assert Power(4) == 0x1_0000_0000;
      assert Power(6) == 0x1_0000_0000_0000;
    }
    BytesRoundTrip(w, 8);
  }

  /** The metadata of record i, read from the body. */
  function ReadMeta(body: seq<Byte>, i: nat): Meta
    requires 8 * i + 8 <= |body|
  {
    Unpack(WordOf(body[8 * i..8 * i + 8]))
  }

  /** The C string at an offset. */
  function CStr(body: seq<Byte>, off: nat): Str
    decreases |body| - off
  {
    if off >= |body| || body[off] == 0 then [] else [body[off]] + CStr(body, off + 1)
  }

  lemma {:induction false} CStrReads(body: seq<Byte>, off: nat, s: Str)
    requires Clean(s) && off + |s| + 1 <= |body| && body[off..off + |s| + 1] == s + [0]
    ensures CStr(body, off) == s
    decreases |s|
  {
    assert body[off] == (s + [0])[0];
    if s != [] {
      assert body[off + 1..off + 1 + |s[1..]| + 1] == s[1..] + [0] by {
        assert body[off + 1..off + |s| + 1] == body[off..off + |s| + 1][1..];
        assert (s + [0])[1..] == s[1..] + [0];
      }
      CStrReads(body, off + 1, s[1..]);
      assert s == [s[0]] + s[1..];
    }
  }

  /** memcpy into the body. */
  function Written(body: seq<Byte>, off: nat, s: seq<Byte>): (r: seq<Byte>)
    requires off + |s| <= |body|
    ensures |r| == |body|
  {
    body[..off] + s + body[off + |s|..]
  }
}
