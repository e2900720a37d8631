/** CRC-32 with a nibble table (components/tal_kv/littlefs/lfs_util.c) against the
    definition by single bits, over the polynomial of section 3.2.9 of IEEE 802.3 in
    its reflected form, without a final complement. */
module Crc {

  /// ---- Words ------------------------------------------------------------------------------

  function Xor(a: bv32, b: bv32): bv32 { a ^ b }

  function Half(a: bv32): bv32 { a >> 1 }

  function Shift4(a: bv32): bv32 { a >> 4 }

  function Low4(a: bv32): bv32 { a & 0xf }

  function Up8(a: bv32): bv32 { a << 8 }

  predicate Odd(a: bv32) { a & 1 == 1 }

  lemma HalfXor(a: bv32, b: bv32)
    ensures Half(Xor(a, b)) == Xor(Half(a), Half(b))
  {
  }

  lemma Shift4Xor(a: bv32, b: bv32)
    ensures Shift4(Xor(a, b)) == Xor(Shift4(a), Shift4(b))
  {
  }

  lemma OddXor(a: bv32, b: bv32)
    ensures Odd(Xor(a, b)) <==> Odd(a) != Odd(b)
  {
  }

  lemma XorComm(a: bv32, b: bv32)
    ensures Xor(a, b) == Xor(b, a)
  {
  }

  lemma XorAssoc(a: bv32, b: bv32, c: bv32)
    ensures Xor(Xor(a, b), c) == Xor(a, Xor(b, c))
  {
  }

  lemma XorSelf(a: bv32)
    ensures Xor(a, a) == 0 && Xor(a, 0) == a
  {
  }

  lemma XorCancel(a: bv32, p: bv32)
    ensures Xor(Xor(a, p), p) == a
  {
    hide Xor;
    XorAssoc(a, p, p);
    XorSelf(p);
    XorSelf(a);
  }

  lemma XorSwap(a: bv32, b: bv32, c: bv32)
    ensures Xor(Xor(a, b), c) == Xor(Xor(a, c), b)
  {
    hide Xor;
    XorAssoc(a, b, c);
    XorComm(b, c);
    XorAssoc(a, c, b);
  }

  lemma XorIs(a: bv32, b: bv32, y: bv32)
    ensures Xor(a, b) == y <==> a == Xor(y, b)
  {
    hide Xor;
    XorCancel(a, b);
    XorCancel(y, b);
  }

  lemma Shift4Is(a: bv32)
    ensures Half(Half(Half(Half(a)))) == Shift4(a)
  {
  }

  /// ---- Bit at a time ----------------------------------------------------------------------

  const POLYNOMIAL: bv32 := 0xedb88320

  /** One message bit, the lowest of `d`: it decides with the lowest bit of the register
      whether the polynomial is subtracted. */
  function FeedBit(c: bv32, d: bv32): bv32 {
    if Odd(c) != Odd(d) then Xor(Half(c), POLYNOMIAL) else Half(c)
  }

  function FeedFour(c: bv32, d: bv32): bv32 {
    FeedBit(FeedBit(FeedBit(FeedBit(c, d), Half(d)), Half(Half(d))), Half(Half(Half(d))))
  }

  /** The eight bits of a byte, lowest first. */
  function FeedByte(c: bv32, d: bv8): bv32 {
    FeedFour(FeedFour(c, d as bv32), Shift4(d as bv32))
  }

  /** The CRC of a message, from a start value. */
  function Crc(c: bv32, data: seq<bv8>): bv32 {
    if data == [] then c else FeedByte(Crc(c, data[..|data| - 1]), data[|data| - 1])
  }

  /// ---- The register shifted with nothing fed in --------------------------------------------

  function Step(c: bv32): bv32 {
    if Odd(c) then Xor(Half(c), POLYNOMIAL) else Half(c)
  }

  function Step4(c: bv32): bv32 {
    Step(Step(Step(Step(c))))
  }

  /** A step is linear. */
  lemma StepXor(a: bv32, b: bv32)
    ensures Step(Xor(a, b)) == Xor(Step(a), Step(b))
  {
    hide Half, Odd, Xor;
    var x, y := Half(a), Half(b);
    HalfXor(a, b);
    OddXor(a, b);
    XorSwap(x, POLYNOMIAL, y);
    XorAssoc(x, y, POLYNOMIAL);
    XorSwap(x, POLYNOMIAL, Xor(y, POLYNOMIAL));
    XorAssoc(x, Xor(y, POLYNOMIAL), POLYNOMIAL);
    XorCancel(y, POLYNOMIAL);
  }

  lemma Step4Xor(a: bv32, b: bv32)
    ensures Step4(Xor(a, b)) == Xor(Step4(a), Step4(b))
  {
    hide Step, Xor;
    StepXor(a, b);
    StepXor(Step(a), Step(b));
    StepXor(Step(Step(a)), Step(Step(b)));
    StepXor(Step(Step(Step(a))), Step(Step(Step(b))));
  }

  /** And it loses nothing. */
  lemma StepInjective(a: bv32, b: bv32)
    requires Step(a) == Step(b)
    ensures a == b
  {
  }

  lemma Step4Injective(a: bv32, b: bv32)
    requires Step4(a) == Step4(b)
    ensures a == b
  {
    hide Step;
    StepInjective(Step(Step(Step(a))), Step(Step(Step(b))));
    StepInjective(Step(Step(a)), Step(Step(b)));
    StepInjective(Step(a), Step(b));
    StepInjective(a, b);
  }

  /** Feeding a bit is a step from the difference. */
  lemma FeedBitStep(c: bv32, d: bv32)
    ensures FeedBit(c, d) == Xor(Step(Xor(c, d)), Half(d))
  {
    hide Half, Odd, Xor;
    HalfXor(c, d);
    OddXor(c, d);
    XorSwap(Xor(Half(c), Half(d)), POLYNOMIAL, Half(d));
    XorCancel(Half(c), Half(d));
  }

  lemma FeedFourStep(c: bv32, d: bv32)
    ensures FeedFour(c, d) == Xor(Step4(Xor(c, d)), Shift4(d))
  {
    hide FeedBit, Half, Shift4, Step, Xor;
    var d1, d2, d3 := Half(d), Half(Half(d)), Half(Half(Half(d)));
    var s1 := Step(Xor(c, d));
    var s2 := Step(s1);
    var s3 := Step(s2);
    Shift4Is(d);
    FeedBitStep(c, d);
    XorCancel(s1, d1);
    FeedBitStep(Xor(s1, d1), d1);
    XorCancel(s2, d2);
    FeedBitStep(Xor(s2, d2), d2);
    XorCancel(s3, d3);
    FeedBitStep(Xor(s3, d3), d3);
  }

  /// ---- The table ---------------------------------------------------------------------------

  function Rtable(n: bv32): bv32 {
    if n == 0 then 0x00000000 else if n == 1 then 0x1db71064
    else if n == 2 then 0x3b6e20c8 else if n == 3 then 0x26d930ac
    else if n == 4 then 0x76dc4190 else if n == 5 then 0x6b6b51f4
    else if n == 6 then 0x4db26158 else if n == 7 then 0x5005713c
    else if n == 8 then 0xedb88320 else if n == 9 then 0xf00f9344
    else if n == 10 then 0xd6d6a3e8 else if n == 11 then 0xcb61b38c
    else if n == 12 then 0x9b64c2b0 else if n == 13 then 0x86d3d2d4
    else if n == 14 then 0xa00ae278 else 0xbdbdf21c
  }

  lemma EvenStep(h: bv32)
    requires !Odd(h)
    ensures Step(h) == Half(h)
  {
  }

  function High28(a: bv32): bv32 { a & 0xfffffff0 }

  lemma HighIsEven(a: bv32)
    ensures !Odd(High28(a)) && !Odd(Half(High28(a))) && !Odd(Half(Half(High28(a)))) && !Odd(Half(Half(Half(High28(a)))))
  {
  }

  lemma HighAndLow(a: bv32)
    ensures Xor(High28(a), Low4(a)) == a
  {
  }

  lemma HighShift(a: bv32)
    ensures Shift4(High28(a)) == Shift4(a)
  {
  }

  lemma HighStep4(a: bv32)
    ensures Step4(High28(a)) == Shift4(a)
  {
    hide Half, High28, Odd, Shift4, Step, Xor;
    HighIsEven(a);
    HighShift(a);
    Shift4Is(High28(a));
    EvenStep(High28(a));
    EvenStep(Half(High28(a)));
    EvenStep(Half(Half(High28(a))));
    EvenStep(Half(Half(Half(High28(a)))));
  }

  /** The single-bit entries of the table are the polynomial at its four places. */
  lemma SingleEntries()
    ensures Step4(8) == Rtable(8) && Step4(4) == Rtable(4) && Step4(2) == Rtable(2) && Step4(1) == Rtable(1)
    ensures Step4(0) == Rtable(0)
  {
    assert Step(8) == 4 && Step(4) == 2 && Step(2) == 1 && Step(1) == 0xedb88320 && Step(0) == 0;
    assert Step(0xedb88320) == 0x76dc4190 && Step(0x76dc4190) == 0x3b6e20c8 && Step(0x3b6e20c8) == 0x1db71064;
    hide Step;
  }

  /** The others are sums of these. */
  lemma SumEntry(m: bv32, n: bv32)
    requires Step4(m) == Rtable(m) && Step4(n) == Rtable(n)
    ensures Xor(Rtable(m), Rtable(n)) == Rtable(Xor(m, n)) ==> Step4(Xor(m, n)) == Rtable(Xor(m, n))
  {
    hide Rtable, Step4, Xor;
    Step4Xor(m, n);
  }

  lemma Sums()
    ensures Xor(Rtable(1), Rtable(2)) == Rtable(3) && Xor(Rtable(1), Rtable(4)) == Rtable(5)
    ensures Xor(Rtable(2), Rtable(4)) == Rtable(6) && Xor(Rtable(1), Rtable(6)) == Rtable(7)
    ensures Xor(Rtable(8), Rtable(1)) == Rtable(9) && Xor(Rtable(8), Rtable(2)) == Rtable(10)
    ensures Xor(Rtable(8), Rtable(3)) == Rtable(11) && Xor(Rtable(8), Rtable(4)) == Rtable(12)
    ensures Xor(Rtable(8), Rtable(5)) == Rtable(13) && Xor(Rtable(8), Rtable(6)) == Rtable(14)
    ensures Xor(Rtable(8), Rtable(7)) == Rtable(15)
  {
  }

  lemma SmallSums()
    ensures Xor(1, 2) == 3 && Xor(1, 4) == 5 && Xor(2, 4) == 6 && Xor(1, 6) == 7
    ensures Xor(8, 1) == 9 && Xor(8, 2) == 10 && Xor(8, 3) == 11 && Xor(8, 4) == 12
    ensures Xor(8, 5) == 13 && Xor(8, 6) == 14 && Xor(8, 7) == 15
  {
  }

  lemma Sixteen(n: bv32)
    ensures Low4(n) == 0 || Low4(n) == 1 || Low4(n) == 2 || Low4(n) == 3 || Low4(n) == 4 || Low4(n) == 5
            || Low4(n) == 6 || Low4(n) == 7 || Low4(n) == 8 || Low4(n) == 9 || Low4(n) == 10
            || Low4(n) == 11 || Low4(n) == 12 || Low4(n) == 13 || Low4(n) == 14 || Low4(n) == 15
  {
  }

  /** The table holds the four steps of every nibble. */
  lemma RtableIs(n: bv32)
    ensures Step4(Low4(n)) == Rtable(Low4(n))
  {
    hide Low4, Rtable, Step4, Xor;
    SingleEntries();
    Sums();
    SmallSums();
    SumEntry(1, 2);
    SumEntry(1, 4);
    SumEntry(2, 4);
    SumEntry(1, 6);
    SumEntry(8, 1);
    SumEntry(8, 2);
    SumEntry(8, 3);
    SumEntry(8, 4);
    SumEntry(8, 5);
    SumEntry(8, 6);
    SumEntry(8, 7);
    Sixteen(n);
  }

  /** Four message bits are one table lookup. */
  lemma Nibble(c: bv32, d: bv32)
    ensures FeedFour(c, d) == Xor(Shift4(c), Rtable(Low4(Xor(c, d))))
  {
    hide FeedFour, High28, Low4, Rtable, Shift4, Step4, Xor;
    var x := Xor(c, d);
    var t := Rtable(Low4(x));
    FeedFourStep(c, d);
    HighAndLow(x);
    Step4Xor(High28(x), Low4(x));
    HighStep4(x);
    RtableIs(x);
    Shift4Xor(c, d);
    XorSwap(Xor(Shift4(c), Shift4(d)), t, Shift4(d));
    XorCancel(Shift4(c), Shift4(d));
  }

  /** lfs_crc. */
  method LfsCrc(crc0: bv32, data: seq<bv8>) returns (crc: bv32)
    ensures crc == Crc(crc0, data)
  {
    hide FeedFour, Low4, Rtable, Shift4, Xor;
    crc := crc0;
    for i := 0 to |data|
      invariant crc == Crc(crc0, data[..i])
    {
      var d := data[i] as bv32;
      Nibble(crc, d);
      crc := Xor(Shift4(crc), Rtable(Low4(Xor(crc, d))));
      Nibble(crc, Shift4(d));
      crc := Xor(Shift4(crc), Rtable(Low4(Xor(crc, Shift4(d)))));
      CrcSnoc(crc0, data, i);
    }
    assert data[..|data|] == data;
  }

  lemma CrcSnoc(c: bv32, data: seq<bv8>, i: nat)
    requires i < |data|
    ensures Crc(c, data[..i + 1]) == FeedByte(Crc(c, data[..i]), data[i])
  {
    assert data[..i + 1][..i] == data[..i];
  }

  /// ---- Pieces -----------------------------------------------------------------------------

  lemma {:induction false} CrcJoin(c: bv32, a: seq<bv8>, b: seq<bv8>)
    ensures Crc(c, a + b) == Crc(Crc(c, a), b)
    decreases |b|
  {
    if b == [] {
      assert a + b == a;
    } else {
      var n := |b| - 1;
      assert (a + b)[..|a| + n] == a + b[..n];
      CrcJoin(c, a, b[..n]);
    }
  }

  lemma CrcEmpty(c: bv32)
    ensures Crc(c, []) == c
  {
  }

  lemma CrcPiece(c: bv32, data: seq<bv8>, i: nat, n: nat)
    requires i + n <= |data|
    ensures Crc(c, data[..i + n]) == Crc(Crc(c, data[..i]), data[i..i + n])
  {
    hide Crc;
    CrcJoin(c, data[..i], data[i..i + n]);
    assert data[..i] + data[i..i + n] == data[..i + n];
  }

  /** lfs_bd_crc: eight bytes at a time, as read from the device. */
  method BdCrc(crc0: bv32, data: seq<bv8>) returns (crc: bv32)
    ensures crc == Crc(crc0, data)
  {
    hide Crc;
    crc := crc0;
    var i := 0;
    CrcEmpty(crc0);
    while i < |data|
      invariant i <= |data| && crc == Crc(crc0, data[..i])
    {
      var diff := if |data| - i < 8 then |data| - i else 8;
      CrcPiece(crc0, data, i, diff);
      crc := LfsCrc(crc, data[i..i + diff]);
      i := i + diff;
    }
    assert data[..|data|] == data;
  }

  /// ---- The check of a commit ---------------------------------------------------------------

  lemma Up8Is(y: bv32)
    requires y < 0x100_0000
    ensures !Odd(Up8(y)) && !Odd(Half(Up8(y))) && !Odd(Half(Half(Up8(y)))) && !Odd(Half(Half(Half(Up8(y)))))
    ensures !Odd(Shift4(Up8(y))) && !Odd(Half(Shift4(Up8(y)))) && !Odd(Half(Half(Shift4(Up8(y)))))
            && !Odd(Half(Half(Half(Shift4(Up8(y))))))
  {
  }

  lemma Up8Shifted(y: bv32)
    requires y < 0x100_0000
    ensures Shift4(Shift4(Up8(y))) == y
  {
  }

  lemma EvenStep4(h: bv32)
    requires !Odd(h) && !Odd(Half(h)) && !Odd(Half(Half(h))) && !Odd(Half(Half(Half(h))))
    ensures Step4(h) == Shift4(h)
  {
    hide Half, Odd, Shift4, Step;
    Shift4Is(h);
    EvenStep(h);
    EvenStep(Half(h));
    EvenStep(Half(Half(h)));
    EvenStep(Half(Half(Half(h))));
  }

  /** Eight steps undone: they shift a short register out of the high bits. */
  lemma Step8Is(x: bv32, y: bv32)
    requires y < 0x100_0000
    ensures Step4(Step4(x)) == y <==> x == Up8(y)
  {
    hide Half, Odd, Shift4, Step4, Up8;
    Up8Is(y);
    Up8Shifted(y);
    EvenStep4(Up8(y));
    EvenStep4(Shift4(Up8(y)));
    if Step4(Step4(x)) == y {
      Step4Injective(Step4(x), Step4(Up8(y)));
      Step4Injective(x, Up8(y));
    }
  }

  lemma ByteShifted(d: bv8)
    ensures Shift4(Shift4(d as bv32)) == 0
  {
  }

  /** A byte leads to a short register from one register only. */
  lemma FeedByteIs(c: bv32, d: bv8, y: bv32)
    requires y < 0x100_0000
    ensures FeedByte(c, d) == y <==> c == Xor(Up8(y), d as bv32)
  {
    hide FeedFour, Shift4, Step4, Up8, Xor;
    var w := d as bv32;
    var s := Step4(Xor(c, w));
    FeedFourStep(c, w);
    XorCancel(s, Shift4(w));
    FeedFourStep(Xor(s, Shift4(w)), Shift4(w));
    ByteShifted(d);
    XorSelf(Step4(s));
    Step8Is(Xor(c, w), y);
    XorIs(c, w, Up8(y));
  }

  /** The bytes of a word, lowest first. */
  function WordBytes(w: bv32): seq<bv8> {
    [Byte0(w), Byte0(Down8(w)), Byte0(Down8(Down8(w))), Byte0(Down8(Down8(Down8(w))))]
  }

  function Byte0(w: bv32): bv8 { (w & 0xff) as bv8 }

  function Down8(w: bv32): bv32 { w >> 8 }

  lemma ByteAndRest(w: bv32)
    ensures Xor(Up8(Down8(w)), Byte0(w) as bv32) == w && Down8(w) < 0x100_0000
  {
  }

  lemma LastByte(w: bv32)
    ensures Down8(Down8(Down8(Down8(w)))) == 0
  {
  }

  lemma FeedWordByte(c: bv32, w: bv32)
    ensures FeedByte(c, Byte0(w)) == Down8(w) <==> c == w
  {
    hide Byte0, Down8, FeedByte, Up8, Xor;
    ByteAndRest(w);
    FeedByteIs(c, Byte0(w), Down8(w));
  }

  /** Feeding a stored word gives zero exactly when it is the running CRC: the check
      that follows every commit. */
  lemma ResidueZero(c: bv32, w: bv32)
    ensures Crc(c, WordBytes(w)) == 0 <==> w == c
  {
    hide Byte0, Down8, FeedByte;
    var s := WordBytes(w);
    var w1, w2, w3 := Down8(w), Down8(Down8(w)), Down8(Down8(Down8(w)));
    var c1 := FeedByte(c, s[0]);
    var c2 := FeedByte(c1, s[1]);
    var c3 := FeedByte(c2, s[2]);
    FourBytes(c, s);
    LastByte(w);
    FeedWordByte(c, w);
    FeedWordByte(c1, w1);
    FeedWordByte(c2, w2);
    FeedWordByte(c3, w3);
  }

  lemma FourBytes(c: bv32, s: seq<bv8>)
    requires |s| == 4
    ensures Crc(c, s) == FeedByte(FeedByte(FeedByte(FeedByte(c, s[0]), s[1]), s[2]), s[3])
  {
    hide FeedByte;
    assert s[..4] == s && s[..0] == [];
    CrcSnoc(c, s, 0);
    CrcSnoc(c, s, 1);
    CrcSnoc(c, s, 2);
    CrcSnoc(c, s, 3);
  }

  /** The stored CRC of a commit is accepted by the final read exactly when the data in
      front of it has that CRC. */
  lemma CommitChecks(data: seq<bv8>, stored: bv32)
    ensures Crc(0xffffffff, data + WordBytes(stored)) == 0 <==> stored == Crc(0xffffffff, data)
  {
    hide Crc, WordBytes;
    CrcJoin(0xffffffff, data, WordBytes(stored));
    ResidueZero(Crc(0xffffffff, data), stored);
  }
}