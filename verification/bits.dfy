/** The bitwise operators, bit by bit, and the laws that tie them to arithmetic. */
module BitLaws {
  import opened Wrappers
  import opened Words

  /** Bit `k` of a number. */
  predicate Bit(v: nat, k: nat) {
    v / Pow2(k) % 2 == 1
  }

  lemma DivideTwice(v: int, p: nat)
    requires p > 0
    ensures v / (2 * p) == v / 2 / p
  {
    var q, r := v / 2 / p, v / 2 % p;
    assert v / 2 == p * q + r;
    var low := v % 2 + 2 * r;
    assert v == 2 * (v / 2) + v % 2;
    assert v == (2 * p) * q + low && 0 <= low < 2 * p;
    QuotientIs(v, 2 * p, q, low);
  }

  lemma QuotientIs(v: int, d: nat, q: int, r: nat)
    requires d > 0 && v == d * q + r && r < d
    ensures v / d == q
  {
    var x := v / d;
    assert v == d * x + v % d;
    assert d * (x + 1) == d * x + d && d * (q + 1) == d * q + d;
    if x < q {
      Scale(d, x + 1, q);
    } else if q < x {
      Scale(d, q + 1, x);
    }
  }

  /** Higher bits are the bits of the half. */
  lemma BitOfHalf(v: nat, k: nat)
    ensures Bit(v, k + 1) <==> Bit(v / 2, k)
    ensures Bit(v, 0) <==> v % 2 == 1
  {
    DivideTwice(v, Pow2(k));
    assert Pow2(0) == 1;
  }

  lemma {:induction false} BitsAt(f: (bool, bool) -> bool, n: nat, a: nat, b: nat, k: nat)
    requires k < n
    ensures Bit(Bits(f, n, a, b), k) <==> f(Bit(a, k), Bit(b, k))
    decreases k
  {
    var r := Bits(f, n, a, b);
    var low := if f(a % 2 == 1, b % 2 == 1) then 1 else 0;
    assert r == low + 2 * Bits(f, n - 1, a / 2, b / 2);
    assert r / 2 == Bits(f, n - 1, a / 2, b / 2) && r % 2 == low;
    if k == 0 {
      BitOfHalf(r, 0);
      BitOfHalf(a, 0);
      BitOfHalf(b, 0);
    } else {
      BitsAt(f, n - 1, a / 2, b / 2, k - 1);
      BitOfHalf(r, k - 1);
      BitOfHalf(a, k - 1);
      BitOfHalf(b, k - 1);
    }
  }

  /** Bit by bit: both, either, exactly one. */
  lemma BitwiseByBit(x: Word, y: Word, k: nat)
    requires k < 64
    ensures Bit(BitwiseAnd64(x, y), k) <==> Bit(x, k) && Bit(y, k)
    ensures Bit(BitwiseOr64(x, y), k) <==> Bit(x, k) || Bit(y, k)
    ensures Bit(BitwiseXor64(x, y), k) <==> Bit(x, k) != Bit(y, k)
  {
    hide Bits;
    hide Bit;
    BitsAt((x, y) => x && y, 64, x, y, k);
    BitsAt((x, y) => x || y, 64, x, y, k);
    BitsAt((x, y) => x != y, 64, x, y, k);
  }

  /** The words of the language, on the machine. */
  lemma BitwiseWords(x: Word, y: Word, k: nat)
    requires k < 64
    ensures MachineBinary(BitwiseAnd, x, y).Some? && MachineBinary(BitwiseOr, x, y).Some?
    ensures MachineBinary(BitwiseXor, x, y).Some?
    ensures Bit(MachineBinary(BitwiseAnd, x, y).value, k) <==> Bit(x, k) && Bit(y, k)
    ensures Bit(MachineBinary(BitwiseOr, x, y).value, k) <==> Bit(x, k) || Bit(y, k)
    ensures Bit(MachineBinary(BitwiseXor, x, y).value, k) <==> Bit(x, k) != Bit(y, k)
  {
    hide Bit;
    hide BitwiseAnd64;
    hide BitwiseOr64;
    hide BitwiseXor64;
    BitwiseByBit(x, y, k);
  }

  /** `and` looks for a common bit, `or` for any: on truth values they are what they say. */
  lemma BooleanWords(x: Word, y: Word)
    ensures MachineBinary(BooleanAnd, x, y) == Some(FromBool(Common(x, y)))
    ensures MachineBinary(BooleanOr, x, y) == Some(FromBool(x != 0 || y != 0))
  {
    hide BitwiseAnd64;
    hide BitwiseOr64;
    hide BitwiseXor64;
    hide Common;
    AndIsCommon(x, y);
    BitwiseLaws(x, y);
  }

  ghost predicate Common(x: Word, y: Word) {
    exists k :: 0 <= k < 64 && Bit(x, k) && Bit(y, k)
  }

  lemma AndIsCommon(x: Word, y: Word)
    ensures BitwiseAnd64(x, y) != 0 <==> Common(x, y)
  {
    hide Bit;
    hide BitwiseAnd64;
    hide BitwiseOr64;
    hide BitwiseXor64;
    forall k | 0 <= k < 64
      ensures Bit(BitwiseAnd64(x, y), k) <==> Bit(x, k) && Bit(y, k)
    {
      BitwiseByBit(x, y, k);
    }
    NonzeroBit(BitwiseAnd64(x, y));
  }

  lemma NonzeroBit(v: Word)
    ensures v != 0 <==> exists k :: 0 <= k < 64 && Bit(v, k)
  {
    hide Bit;
    Pow2Of64();
    forall k: nat
      ensures !Bit(0, k)
    {
      NoBits(k);
    }
    if forall k :: 0 <= k < 64 ==> !Bit(v, k) {
      BitsDecide(64, v, 0);
    }
  }

  /** Words with the same bits are the same. */
  lemma {:induction false} BitsDecide(n: nat, x: nat, y: nat)
    requires x < Pow2(n) && y < Pow2(n) && forall k :: 0 <= k < n ==> (Bit(x, k) <==> Bit(y, k))
    ensures x == y
    decreases n
  {
    if n > 0 {
      forall k | 0 <= k < n - 1
        ensures Bit(x / 2, k) <==> Bit(y / 2, k)
      {
        BitOfHalf(x, k);
        BitOfHalf(y, k);
        assert Bit(x, k + 1) <==> Bit(y, k + 1);
      }
      BitsDecide(n - 1, x / 2, y / 2);
      BitOfHalf(x, 0);
      BitOfHalf(y, 0);
    }
  }

  lemma {:induction false} BitsSum(n: nat, x: nat, y: nat)
    requires x < Pow2(n) && y < Pow2(n)
    ensures Bits((x, y) => x && y, n, x, y) + Bits((x, y) => x || y, n, x, y) == x + y
    ensures Bits((x, y) => x != y, n, x, y) == Bits((x, y) => x || y, n, x, y) - Bits((x, y) => x && y, n, x, y)
    decreases n
  {
    if n > 0 {
      BitsSum(n - 1, x / 2, y / 2);
    }
  }

  /** The laws that need no bits. */
  lemma BitwiseLaws(x: Word, y: Word)
    ensures BitwiseAnd64(x, y) + BitwiseOr64(x, y) == x + y
    ensures BitwiseXor64(x, y) == BitwiseOr64(x, y) - BitwiseAnd64(x, y)
    ensures BitwiseXor64(x, x) == 0 && BitwiseAnd64(x, x) == x && BitwiseOr64(x, x) == x
    ensures BitwiseXor64(BitwiseXor64(x, y), y) == x
  {
    hide Bits;
    Pow2Of64();
    BitsSum(64, x, y);
    SameWord(x);
    XorUndone(x, y);
  }

  lemma SameWord(x: Word)
    ensures BitwiseXor64(x, x) == 0 && BitwiseAnd64(x, x) == x && BitwiseOr64(x, x) == x
  {
    hide BitwiseAnd64;
    hide BitwiseOr64;
    hide BitwiseXor64;
    hide Bit;
    Pow2Of64();
    forall k | 0 <= k < 64
      ensures Bit(BitwiseXor64(x, x), k) <==> Bit(0, k)
      ensures Bit(BitwiseAnd64(x, x), k) <==> Bit(x, k)
      ensures Bit(BitwiseOr64(x, x), k) <==> Bit(x, k)
    {
      BitwiseByBit(x, x, k);
      NoBits(k);
    }
    BitsDecide(64, BitwiseXor64(x, x), 0);
    BitsDecide(64, BitwiseAnd64(x, x), x);
    BitsDecide(64, BitwiseOr64(x, x), x);
  }

  lemma NoBits(k: nat)
    ensures !Bit(0, k)
  {
  }

  lemma XorUndone(x: Word, y: Word)
    ensures BitwiseXor64(BitwiseXor64(x, y), y) == x
  {
    hide BitwiseXor64;
    hide Bit;
    Pow2Of64();
    var z := BitwiseXor64(x, y);
    forall k | 0 <= k < 64
      ensures Bit(BitwiseXor64(z, y), k) <==> Bit(x, k)
    {
      BitwiseByBit(x, y, k);
      BitwiseByBit(z, y, k);
    }
    BitsDecide(64, BitwiseXor64(z, y), x);
  }

  // ----- shifts -----

  /** `b a left-shift`: bits move up by the count modulo 64, zeros come in. */
  lemma LeftShiftByBit(b: Word, a: Word, k: nat)
    requires k < 64
    ensures var c := a % 64;
      Bit(MachineBinary(LeftShift, b, a).value, k) <==> k >= c && Bit(b, k - c)
  {
    var c := a % 64;
    ShiftedUp(b, c, k);
  }

  lemma {:induction false} ShiftedUp(b: nat, c: nat, k: nat)
    requires k < 64
    ensures Bit(Wrap(b * Pow2(c)), k) <==> k >= c && Bit(b, k - c)
    decreases c
  {
    LowBits(b * Pow2(c), k);
    if c > 0 {
      assert b * Pow2(c) == 2 * (b * Pow2(c - 1));
      var v := b * Pow2(c - 1);
      if k == 0 {
        BitOfHalf(2 * v, 0);
      } else {
        BitOfHalf(2 * v, k - 1);
        ShiftedUp(b, c - 1, k - 1);
        LowBits(v, k - 1);
      }
    }
  }

  /** Wrapping keeps the low 64 bits. */
  lemma LowBits(v: nat, k: nat)
    requires k < 64
    ensures Bit(Wrap(v), k) <==> Bit(v, k)
  {
    Pow2Of64();
    RemainderBits(v, 64, k);
  }

  lemma {:induction false} RemainderBits(v: nat, n: nat, k: nat)
    requires k < n
    ensures Bit(v % Pow2(n), k) <==> Bit(v, k)
    decreases k
  {
    HalfRemainder(v, Pow2(n - 1));
    var r := v % Pow2(n);
    if k == 0 {
      BitOfHalf(r, 0);
      BitOfHalf(v, 0);
    } else {
      RemainderBits(v / 2, n - 1, k - 1);
      BitOfHalf(r, k - 1);
      BitOfHalf(v, k - 1);
    }
  }

  lemma HalfRemainder(v: nat, p: nat)
    requires p > 0
    ensures v % (2 * p) / 2 == v / 2 % p && v % (2 * p) % 2 == v % 2
  {
    DivideTwice(v, p);
    var q := v / 2 / p;
    assert v == (2 * p) * q + v % (2 * p);
    assert v / 2 == p * q + v / 2 % p;
    assert (2 * p) * q == 2 * (p * q);
    assert v % (2 * p) == 2 * (v / 2 % p) + v % 2;
  }

  /** `b a right-shift`: bits move down, copies of the sign come in. */
  lemma RightShiftByBit(b: Word, a: Word, k: nat)
    requires k < 64
    ensures var c := a % 64;
      Bit(MachineBinary(RightShift, b, a).value, k) <==> Bit(b, if k + c < 64 then k + c else 63)
  {
    var c := a % 64;
    ShiftedDown(b, c, k);
  }

  lemma {:induction false} ShiftedDown(b: Word, c: nat, k: nat)
    requires k < 64
    ensures Bit(Wrap(ToSigned(b) / Pow2(c)), k) <==> Bit(b, if k + c < 64 then k + c else 63)
    decreases c
  {
    hide Bit;
    if c == 0 {
      assert ToSigned(b) / Pow2(0) == ToSigned(b) && Wrap(ToSigned(b)) == b;
    } else {
      var s := ToSigned(b) / 2;
      var half := ToWord(s);
      assert ToSigned(half) == s;
      DivideTwice(ToSigned(b), Pow2(c - 1));
      ShiftedDown(half, c - 1, k);
      HalfSigned(b, if k + c - 1 < 64 then k + c - 1 else 63);
    }
  }

  lemma Pow2Of63()
    ensures Pow2(63) == HALF_SIZE
  {
    hide Pow2;
    Pow2Of64();
    assert Pow2(64) == 2 * Pow2(63) by {
      DoubledPower(63);
    }
  }

  lemma DoubledPower(n: nat)
    ensures Pow2(n + 1) == 2 * Pow2(n)
  {
  }

  /** The sign bit. */
  lemma SignBit(b: Word)
    ensures Bit(b, 63) <==> b >= HALF_SIZE
  {
    hide Pow2;
    Pow2Of63();
    if b >= HALF_SIZE {
      QuotientIs(b, HALF_SIZE, 1, b - HALF_SIZE);
    } else {
      QuotientIs(b, HALF_SIZE, 0, b);
    }
  }

  lemma HalfSigned(b: Word, k: nat)
    requires k < 64
    ensures Bit(ToWord(ToSigned(b) / 2), k) <==> Bit(b, if k < 63 then k + 1 else 63)
  {
    hide Bit;
    hide Pow2;
    var half := ToWord(ToSigned(b) / 2);
    SignBit(b);
    SignBit(half);
    if k < 63 {
      Pow2Of63();
      RemainderBits(half, 63, k);
      BitOfHalf(b, k);
      assert half % HALF_SIZE == b / 2 by {
        HalfPlus(b / 2);
      }
    }
  }

  lemma HalfPlus(x: nat)
    requires x < HALF_SIZE
    ensures x % HALF_SIZE == x && (x + HALF_SIZE) % HALF_SIZE == x
  {
  }
}
