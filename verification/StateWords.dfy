/** Global state as it stands in a metadata log: the twelve bytes of a MOVESTATE
    entry, and the deltas that a log holds. */
module StateWords {
  import opened Bytes
  import opened BitMath
  import opened Options
  import opened Tags
  import opened MetadataLog
  import opened Compaction
  import opened Durability
  import G = GlobalState

  /// ---- Twelve bytes ----------------------------------------------------------------------

  const STATE_SIZE := 12

  /** A state has no bits beyond its three words. */
  predicate InWords(w: G.Word) {
    forall b :: b in w ==> b < 96
  }

  function ByteOf(w: G.Word, at: nat): (v: Byte) {
    ByteBound(w, at);
    G.Value(w, at, 8)
  }

  lemma ByteBound(w: G.Word, at: nat)
    ensures G.Value(w, at, 8) < 256
  {
    G.ValueBound(w, at, 8);
    assert Pow2(4) == 16;
  }

  /** The tag, then the two blocks of the pair, each in little-endian order. */
  function Encode(w: G.Word): (data: seq<Byte>)
    ensures |data| == STATE_SIZE
  {
    [ByteOf(w, 64), ByteOf(w, 72), ByteOf(w, 80), ByteOf(w, 88),
     ByteOf(w, 32), ByteOf(w, 40), ByteOf(w, 48), ByteOf(w, 56),
     ByteOf(w, 0), ByteOf(w, 8), ByteOf(w, 16), ByteOf(w, 24)]
  }

  function Decode(data: seq<Byte>): G.Word
    requires |data| == STATE_SIZE
  {
    G.OneBits(data[0], 64) + G.OneBits(data[1], 72) + G.OneBits(data[2], 80) + G.OneBits(data[3], 88) +
    G.OneBits(data[4], 32) + G.OneBits(data[5], 40) + G.OneBits(data[6], 48) + G.OneBits(data[7], 56) +
    G.OneBits(data[8], 0) + G.OneBits(data[9], 8) + G.OneBits(data[10], 16) + G.OneBits(data[11], 24)
  }

  /** A field written out has the bits that were read into it. */
  lemma {:induction false} BitsOfValue(w: G.Word, at: nat, width: nat, b: nat)
    ensures b in G.OneBits(G.Value(w, at, width), at) <==> b in w && at <= b < at + width
    decreases width
  {
    if width > 0 {
      BitsOfValue(w, at + 1, width - 1, b);
      var rest := G.Value(w, at + 1, width - 1);
      OneMoreBit(rest, if at in w then 1 else 0, at, b);
    }
  }

  lemma OneMoreBit(rest: nat, low: nat, at: nat, b: nat)
    requires low < 2
    ensures b in G.OneBits(low + 2 * rest, at) <==> (low == 1 && b == at) || b in G.OneBits(rest, at + 1)
  {
    var n := low + 2 * rest;
    assert n / 2 == rest && n % 2 == low;
  }

  /** A state survives the way to its bytes and back. */
  lemma DecodeEncode(w: G.Word)
    requires InWords(w)
    ensures Decode(Encode(w)) == w
  {
    forall b: nat
      ensures b in Decode(Encode(w)) <==> b in w
    {
      DecodeBit(Encode(w), b);
      hide G.OneBits, G.Value, Decode;
      BitsOfValue(w, 64, 8, b);
      BitsOfValue(w, 72, 8, b);
      BitsOfValue(w, 80, 8, b);
      BitsOfValue(w, 88, 8, b);
      BitsOfValue(w, 32, 8, b);
      BitsOfValue(w, 40, 8, b);
      BitsOfValue(w, 48, 8, b);
      BitsOfValue(w, 56, 8, b);
      BitsOfValue(w, 0, 8, b);
      BitsOfValue(w, 8, 8, b);
      BitsOfValue(w, 16, 8, b);
      BitsOfValue(w, 24, 8, b);
    }
  }

  lemma DecodeBit(data: seq<Byte>, b: nat)
    requires |data| == STATE_SIZE
    ensures b in Decode(data) <==>
            || b in G.OneBits(data[0], 64) || b in G.OneBits(data[1], 72)
            || b in G.OneBits(data[2], 80) || b in G.OneBits(data[3], 88)
            || b in G.OneBits(data[4], 32) || b in G.OneBits(data[5], 40)
            || b in G.OneBits(data[6], 48) || b in G.OneBits(data[7], 56)
            || b in G.OneBits(data[8], 0) || b in G.OneBits(data[9], 8)
            || b in G.OneBits(data[10], 16) || b in G.OneBits(data[11], 24)
  {
    hide G.OneBits;
  }

  lemma DecodeInWords(data: seq<Byte>)
    requires |data| == STATE_SIZE
    ensures InWords(Decode(data))
  {
    forall b | b in Decode(data)
      ensures b < 96
    {
      DecodeBit(data, b);
      assert Pow2(4) == 16 && Pow2(8) == 256;
      hide G.OneBits, Pow2, Decode;
      forall k: nat | k < 12
        ensures forall at: nat :: at <= 88 && b in G.OneBits(data[k], at) ==> b < 96
      {
        forall at: nat | at <= 88 && b in G.OneBits(data[k], at)
          ensures b < 96
        {
          G.BitsRange(data[k], at, 8);
        }
      }
    }
  }

  /// ---- Deltas in a log -------------------------------------------------------------------

  function MoveState(w: G.Word): Entry {
    Entry(Tag(MOVESTATE, NO_ID, STATE_SIZE), Encode(w))
  }

  /** What lfs_dir_getgstate makes of a MOVESTATE entry: a deleted one is none. */
  function StateOf(e: Entry): G.Word {
    if e.tag.IsDelete() then {} else Decode(Fill(e.data, STATE_SIZE))
  }

  function DeltaOf(e: Entry): G.Deltas {
    if e.tag.kind == MOVESTATE then [StateOf(e)] else []
  }

  /** The deltas of a log, oldest first. */
  function DeltasOf(log: seq<Entry>): G.Deltas {
    if log == [] then [] else DeltasOf(log[..|log| - 1]) + DeltaOf(log[|log| - 1])
  }

  lemma DeltasSnoc(log: seq<Entry>, e: Entry)
    ensures DeltasOf(log + [e]) == DeltasOf(log) + DeltaOf(e)
  {
    assert (log + [e])[..|log|] == log;
  }

  lemma {:induction false} DeltasConcat(a: seq<Entry>, b: seq<Entry>)
    ensures DeltasOf(a + b) == DeltasOf(a) + DeltasOf(b)
    decreases |b|
  {
    hide DeltaOf, DeltasOf;
    if b == [] {
      NoDeltas();
      assert a + b == a;
      assert DeltasOf(a) + [] == DeltasOf(a);
    } else {
      var init, e := b[..|b| - 1], b[|b| - 1];
      DeltasConcat(a, init);
      DeltasSnoc(a + init, e);
      DeltasSnoc(init, e);
      assert a + b == a + init + [e] && b == init + [e];
      assert DeltasOf(a) + DeltasOf(init) + DeltaOf(e) == DeltasOf(a) + (DeltasOf(init) + DeltaOf(e));
    }
  }

  lemma NoDeltas()
    ensures DeltasOf([]) == []
  {
  }

  lemma DeltaRead(w: G.Word)
    requires InWords(w)
    ensures DeltasOf([MoveState(w)]) == [w]
  {
    var none: seq<Entry> := [];
    assert none + [MoveState(w)] == [MoveState(w)];
    DeltasSnoc([], MoveState(w));
    DecodeEncode(w);
    assert Fill(Encode(w), STATE_SIZE) == Encode(w);
    hide Encode, Decode;
  }

  /** No entry of the list is a delta. */
  predicate Stateless(es: seq<Entry>) {
    forall k :: 0 <= k < |es| ==> es[k].tag.kind != MOVESTATE
  }

  lemma {:induction false} StatelessDeltas(es: seq<Entry>)
    requires Stateless(es)
    ensures DeltasOf(es) == []
    decreases |es|
  {
    if es != [] {
      assert Stateless(es[..|es| - 1]);
      StatelessDeltas(es[..|es| - 1]);
    }
  }

  lemma {:induction false} LatestInWords(log: seq<Entry>)
    ensures InWords(G.Latest(DeltasOf(log)))
  {
    if log != [] {
      LatestInWords(log[..|log| - 1]);
      var e := log[|log| - 1];
      if !e.tag.IsDelete() {
        DecodeInWords(Fill(e.data, STATE_SIZE));
      }
      hide Decode;
    }
  }

  /** lfs_dir_getgstate: look for the last delta from the end of the log and add it. */
  method GetGstate(log: seq<Entry>, gstate: G.Word) returns (sum: G.Word)
    ensures sum == G.Xor(gstate, G.Latest(DeltasOf(log)))
  {
    var off := |log|;
    assert log[..off] == log;
    G.XorUnit(gstate, {});
    while off > 0
      invariant 0 <= off <= |log|
      invariant G.Latest(DeltasOf(log)) == G.Latest(DeltasOf(log[..off]))
    {
      assert log[..off][..off - 1] == log[..off - 1];
      off := off - 1;
      var e := log[off];
      if e.tag.kind == MOVESTATE {
        if e.tag.IsDelete() {
          return gstate;
        }
        return G.Xor(gstate, Decode(Fill(e.data, STATE_SIZE)));
      }
    }
    sum := gstate;
  }

  /// ---- The deltas that a commit writes ------------------------------------------------------

  /** lfs_dir_relocatingcommit: a delta behind the attributes, if the state changed. */
  function Appended(log: seq<Entry>, gstate: G.Word, gdisk: G.Word): seq<Entry> {
    var delta := G.Delta(gstate, gdisk, {}, false);
    if delta != {} then [MoveState(G.Xor(delta, G.Latest(DeltasOf(log))))] else []
  }

  /** lfs_dir_compact: one delta in place of all, if there is anything to store. */
  function Rewritten(log: seq<Entry>, gstate: G.Word, gdisk: G.Word): seq<Entry> {
    var delta := G.Xor(G.Delta(gstate, gdisk, {}, false), G.Latest(DeltasOf(log)));
    if delta != {} then [MoveState(delta)] else []
  }

  lemma WrittenNeutral(log: seq<Entry>, gstate: G.Word, gdisk: G.Word)
    ensures AllNeutral(Appended(log, gstate, gdisk)) && AllNeutral(Rewritten(log, gstate, gdisk))
  {
    hide Encode, G.Delta, G.Xor, G.Latest, DeltasOf;
  }

  lemma DeltaInWords(gstate: G.Word, gdisk: G.Word, own: G.Word)
    requires InWords(gstate) && InWords(gdisk) && InWords(own)
    ensures InWords(G.Xor(G.Delta(gstate, gdisk, {}, false), own))
  {
  }

  lemma AppendedDeltas(log: seq<Entry>, gstate: G.Word, gdisk: G.Word)
    requires InWords(gstate) && InWords(gdisk)
    ensures
      var own, delta := DeltasOf(log), G.Delta(gstate, gdisk, {}, false);
      DeltasOf(log + Appended(log, gstate, gdisk)) ==
      if delta != {} then own + [G.Xor(delta, G.Latest(own))] else own
  {
    hide MoveState, G.Delta, G.Latest, G.Xor, DeltasOf, InWords;
    LatestInWords(log);
    DeltaInWords(gstate, gdisk, G.Latest(DeltasOf(log)));
    if G.Delta(gstate, gdisk, {}, false) != {} {
      DeltaRead(G.Xor(G.Delta(gstate, gdisk, {}, false), G.Latest(DeltasOf(log))));
      DeltasConcat(log, Appended(log, gstate, gdisk));
    } else {
      assert log + [] == log;
    }
  }

  lemma RewrittenDeltas(log: seq<Entry>, gstate: G.Word, gdisk: G.Word)
    requires InWords(gstate) && InWords(gdisk)
    ensures DeltasOf(Rewritten(log, gstate, gdisk)) ==
            G.Fresh(G.Xor(G.Delta(gstate, gdisk, {}, false), G.Latest(DeltasOf(log))))
  {
    hide MoveState, G.Delta, G.Latest, G.Xor, DeltasOf, InWords;
    LatestInWords(log);
    NoDeltas();
    var delta := G.Xor(G.Delta(gstate, gdisk, {}, false), G.Latest(DeltasOf(log)));
    DeltaInWords(gstate, gdisk, G.Latest(DeltasOf(log)));
    DeltaRead(delta);
  }

  /** A compacted log holds no deltas. */
  lemma CompactedStateless(log: seq<Entry>, begin: nat, end: nat)
    requires WellFormed(log)
    ensures Stateless(Compacted(log, begin, end))
  {
    UniqueTidy(log);
    SliceTidy(Unique(log), begin, end);
    TidyStateless(Compacted(log, begin, end));
    hide Slice, Unique, WellFormed;
  }

  lemma {:induction false} TidyStateless(out: seq<Entry>)
    requires Tidy(out)
    ensures Stateless(out)
    decreases |out|
  {
    hide Find;
    if out != [] {
      TidyStateless(out[..|out| - 1]);
    }
  }
}
