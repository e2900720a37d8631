/** The bit arithmetic of components/tal_kv/littlefs/lfs_util.h: powers of two,
    trailing zeros, ones and binary length of natural numbers. */
module BitMath {
  import opened Bytes

  function Pow2(k: nat): (p: nat)
    ensures p >= 1
  {
    if k == 0 then 1 else 2 * Pow2(k - 1)
  }

  /** How many binary digits a number has. */
  function Bits(n: nat): nat {
    if n == 0 then 0 else 1 + Bits(n / 2)
  }

  /** How many of them are one. */
  function Popc(n: nat): nat {
    if n == 0 then 0 else n % 2 + Popc(n / 2)
  }

  /** How many zeros come before the lowest one. */
  function Ctz(n: nat): nat
    requires n > 0
  {
    if n % 2 == 1 then 0 else 1 + Ctz(n / 2)
  }

  lemma {:induction false} Pow2Grows(j: nat, k: nat)
    requires j <= k
    ensures Pow2(j) <= Pow2(k) && (j < k ==> 2 * Pow2(j) <= Pow2(k))
    decreases k - j
  {
    if j < k {
      Pow2Grows(j, k - 1);
    }
  }

  /** A number lies between the powers of two that its length says. */
  lemma {:induction false} BitsBound(n: nat)
    ensures n < Pow2(Bits(n)) && (n > 0 ==> Pow2(Bits(n) - 1) <= n)
    decreases n
  {
    if n > 1 {
      BitsBound(n / 2);
    }
  }

  lemma {:induction false} BitsGrows(m: nat, n: nat)
    requires m <= n
    ensures Bits(m) <= Bits(n)
    decreases m
  {
    if m > 0 {
      BitsGrows(m / 2, n / 2);
    }
  }

  /** Counting down by one turns the lowest one into zero and the zeros below it
      into ones. */
  lemma {:induction false} PopcPred(n: nat)
    requires n > 0
    ensures Popc(n - 1) + 1 == Popc(n) + Ctz(n)
    decreases n
  {
    if n % 2 == 1 {
      assert (n - 1) / 2 == n / 2;
    } else {
      assert (n - 1) / 2 == n / 2 - 1;
      PopcPred(n / 2);
    }
  }

  /** Only the number with nothing but ones has as many ones as digits. */
  lemma {:induction false} PopcBound(n: nat, k: nat)
    requires n < Pow2(k)
    ensures Popc(n) <= k && (n + 1 < Pow2(k) ==> Popc(n) < k)
    decreases k
  {
    if k > 0 {
      PopcBound(n / 2, k - 1);
    }
  }

  lemma {:induction false} CtzBound(n: nat)
    requires n > 0
    ensures Pow2(Ctz(n)) <= n
    decreases n
  {
    if n % 2 == 0 {
      CtzBound(n / 2);
    }
  }

  /** Stepping down by a power of two the number is a multiple of leaves at least
      that many trailing zeros, and more if it was the lowest one. */
  lemma {:induction false} CtzStep(n: nat, j: nat)
    requires n > 0 && j <= Ctz(n)
    ensures Pow2(j) <= n
    ensures n == Pow2(j) || Ctz(n - Pow2(j)) >= (if j == Ctz(n) then j + 1 else j)
    decreases j
  {
    if n % 2 == 0 && j > 0 {
      CtzStep(n / 2, j - 1);
      assert (n - Pow2(j)) / 2 == n / 2 - Pow2(j - 1);
    }
  }

  /** Dropping four, eight or sixteen digits shortens a number by as many. */
  lemma Shift2(x: nat)
    requires x > 3
    ensures x / 4 > 0 && Bits(x) == 2 + Bits(x / 4)
  {
    assert x / 2 / 2 == x / 4;
  }

  lemma SmallBits(x: nat)
    requires 0 < x <= 3
    ensures Bits(x) == x / 2 + 1
  {
  }

  lemma Shift4(x: nat)
    requires x > 0xf
    ensures x / 16 > 0 && Bits(x) == 4 + Bits(x / 16)
  {
    assert x / 2 / 2 == x / 4 && x / 4 / 2 == x / 8 && x / 8 / 2 == x / 16;
    assert Bits(x / 2) == 1 + Bits(x / 4);
    assert Bits(x / 4) == 1 + Bits(x / 8);
  }

  lemma Shift8(x: nat)
    requires x > 0xff
    ensures x / 0x100 > 0 && Bits(x) == 8 + Bits(x / 0x100)
  {
    hide Bits;
    Shift4(x);
    Shift4(x / 16);
    assert x / 16 / 16 == x / 0x100;
  }

  lemma Shift16(x: nat)
    requires x > 0xffff
    ensures x / 0x10000 > 0 && Bits(x) == 16 + Bits(x / 0x10000)
  {
    hide Bits;
    Shift8(x);
    Shift8(x / 0x100);
    assert x / 0x100 / 0x100 == x / 0x10000;
  }

  /** The result of lfs_npw2 is the exponent of the next power of two exactly for
      arguments from two on. */
  lemma Npw2Least(a: nat)
    requires a < WORD_SPACE
    ensures
      var r := if a == 0 then 32 else if a == 1 then 1 else Bits(a - 1);
      a <= Pow2(r) && Pow2(r - 1) < a <==> a >= 2
  {
    if a >= 2 {
      BitsBound(a - 1);
    }
  }

  /** The fallback lfs_npw2: binary search for the highest one. The shifts are
      multiples of powers of two, and the pieces of `r` never overlap. */
  method Npw2(a: nat) returns (r: nat)
    requires a < WORD_SPACE
    ensures r == if a == 0 then 32 else if a == 1 then 1 else Bits(a - 1)
  {
    hide Bits, Pow2;
    var x := if a == 0 then 0xffff_ffff else a - 1;
    ghost var x0 := x;
    r := 0;
    if x > 0xffff { Shift16(x); x, r := x / 0x10000, 16; }
    if x > 0xff { Shift8(x); x, r := x / 0x100, r + 8; }
    if x > 0xf { Shift4(x); x, r := x / 0x10, r + 4; }
    if x > 0x3 { Shift2(x); x, r := x / 4, r + 2; }
    if x > 0 { SmallBits(x); }
    r := r + x / 2 + 1;
  }

  /** The largest multiple that is not larger. */
  function AlignDown(x: nat, align: nat): nat
    requires align > 0
  {
    x - x % align
  }

  lemma MulLess(d: nat, q: nat, b: nat)
    requires d < q
    ensures d * b + b <= q * b
  {
    assert (d + 1) * b <= q * b;
  }

  /** Quotient and remainder are the only ones that fit. */
  lemma DivMod(x: nat, n: nat, q: nat, r: nat)
    requires n > 0 && x == q * n + r && r < n
    ensures x / n == q && x % n == r
  {
    assert x == x / n * n + x % n;
    if x / n < q {
      MulLess(x / n, q, n);
    } else if q < x / n {
      MulLess(q, x / n, n);
    }
  }
}
