/** Byte memory and the little-endian 32-bit words in it. */
module Bytes {

  type Byte = b: int | 0 <= b < 256

  const WORD_SPACE := 0x1_0000_0000

  /// ---- Words in memory ---------------------------------------------------------------

  function Word(m: seq<Byte>, a: nat): nat
    requires a + 4 <= |m|
  {
    m[a] as nat + 0x100 * (m[a + 1] as nat) + 0x10000 * (m[a + 2] as nat) + 0x1000000 * (m[a + 3] as nat)
  }

  function WordBytes(v: nat): (s: seq<Byte>)
    ensures |s| == 4
  {
    [v % 0x100, v / 0x100 % 0x100, v / 0x10000 % 0x100, v / 0x1000000 % 0x100]
  }

  function SetWord(m: seq<Byte>, a: nat, v: nat): (r: seq<Byte>)
    requires a + 4 <= |m|
    ensures |r| == |m|
  {
    m[..a] + WordBytes(v) + m[a + 4..]
  }

  lemma WordSetWord(m: seq<Byte>, a: nat, v: nat)
    requires a + 4 <= |m| && v < WORD_SPACE
    ensures Word(SetWord(m, a, v), a) == v
  {
    var r := SetWord(m, a, v);
    assert r[a] == v % 0x100 && r[a + 1] == v / 0x100 % 0x100;
    assert r[a + 2] == v / 0x10000 % 0x100 && r[a + 3] == v / 0x1000000 % 0x100;
    assert v / 0x100 == v / 0x10000 * 0x100 + v / 0x100 % 0x100;
    assert v / 0x10000 == v / 0x1000000 * 0x100 + v / 0x10000 % 0x100;
  }

  /** Two memories agree on the bytes [lo, hi). */
  predicate Same(m: seq<Byte>, m': seq<Byte>, lo: nat, hi: nat) {
    |m| == |m'| && forall k :: lo <= k < hi && k < |m| ==> m[k] == m'[k]
  }

  lemma SetWordSame(m: seq<Byte>, a: nat, v: nat, lo: nat, hi: nat)
    requires a + 4 <= |m| && (hi <= a || a + 4 <= lo)
    ensures Same(m, SetWord(m, a, v), lo, hi)
  {
  }

  lemma SetByteWord(m: seq<Byte>, i: nat, v: Byte, a: nat)
    requires a + 4 <= |m| && i < |m| && (i < a || a + 4 <= i)
    ensures Word(m[i := v], a) == Word(m, a)
  {
  }

  lemma SetWordElsewhere(m: seq<Byte>, a: nat, v: nat, c: nat)
    requires a + 4 <= |m|
    ensures c + 4 <= a || (a + 4 <= c && c + 4 <= |m|) ==> Word(SetWord(m, a, v), c) == Word(m, c)
    ensures c < a || a + 4 <= c < |m| ==> SetWord(m, a, v)[c] == m[c]
  {
  }

  /** Memory with `bytes` put in at `off`. */
  function Overwrite(m: seq<Byte>, off: nat, bytes: seq<Byte>): (m': seq<Byte>)
    requires off + |bytes| <= |m|
    ensures |m'| == |m|
  {
    m[..off] + bytes + m[off + |bytes|..]
  }

  lemma OverwriteKeeps(m: seq<Byte>, off: nat, bytes: seq<Byte>)
    requires off + |bytes| <= |m|
    ensures Overwrite(m, off, bytes)[..off] == m[..off]
    ensures Overwrite(m, off, bytes)[..off + |bytes|] == m[..off] + bytes
  {
  }

  lemma OverwriteInside(m: seq<Byte>, off: nat, bytes: seq<Byte>, lo: nat, hi: nat)
    requires off + |bytes| <= |m| && off <= lo <= hi <= off + |bytes|
    ensures Overwrite(m, off, bytes)[lo..hi] == bytes[lo - off..hi - off]
  {
  }

  lemma OverwriteAway(m: seq<Byte>, off: nat, bytes: seq<Byte>, lo: nat, hi: nat)
    requires off + |bytes| <= |m| && lo <= hi <= |m| && (hi <= off || off + |bytes| <= lo)
    ensures Overwrite(m, off, bytes)[lo..hi] == m[lo..hi]
  {
    if hi <= off {
      assert Overwrite(m, off, bytes)[..off] == m[..off];
    } else {
      assert Overwrite(m, off, bytes)[off + |bytes|..] == m[off + |bytes|..];
    }
  }
}
