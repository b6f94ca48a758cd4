/**
 The folder computes on `std::int64_t`; the generated code computes on unsigned words. This module
 says, operator by operator, exactly when the two agree.
 */
module FoldArithmetic {
  import opened Wrappers
  import opened Words

  /** Operators the folder handles. */
  predicate Folds(op: BinaryOp) {
    op != BooleanAnd && op != BooleanOr
  }

  function Abs(x: int): nat {
    if x < 0 then -x else x
  }

  /** C++ integer division, truncating toward zero. */
  function TruncatedQuotient(b: int, a: int): int
    requires a != 0
  {
    if (b < 0) == (a < 0) then Abs(b) / Abs(a) else -(Abs(b) / Abs(a))
  }

  function TruncatedRemainder(b: int, a: int): int
    requires a != 0
  {
    if b < 0 then -(Abs(b) % Abs(a)) else Abs(b) % Abs(a)
  }

  /** `b op a` in the folder; `None` where C++ leaves the result undefined. Wrapping sums are assumed. */
  function FoldBinary(op: BinaryOp, b: SignedWord, a: SignedWord): Option<SignedWord>
    requires Folds(op)
  {
    match op
    case Add => Some(ToSigned(Wrap(b + a)))
    case Subtract => Some(ToSigned(Wrap(b - a)))
    case Mul => Some(ToSigned(Wrap(b * a)))
    case Div =>
      if a == 0 || (b == -HALF_SIZE && a == -1) then None
      else
        QuotientRange(b, a);
        Some(TruncatedQuotient(b, a))
    case Mod =>
      if a == 0 || (b == -HALF_SIZE && a == -1) then None
      else
        RemainderRange(Abs(b), Abs(a));
        Some(TruncatedRemainder(b, a))
    case BitwiseAnd => Some(ToSigned(BitwiseAnd64(ToWord(b), ToWord(a))))
    case BitwiseOr => Some(ToSigned(BitwiseOr64(ToWord(b), ToWord(a))))
    case BitwiseXor => Some(ToSigned(BitwiseXor64(ToWord(b), ToWord(a))))
    case LeftShift => if 0 <= a < 64 then Some(ToSigned(Wrap(b * Pow2(a)))) else None
    case RightShift =>
      if 0 <= a < 64 then
        ShiftRange(b, Pow2(a));
        Some(b / Pow2(a))
      else None
    case Equal => Some(FromBool(b == a))
    case NotEqual => Some(FromBool(b != a))
    case Less => Some(FromBool(b < a))
    case LessEq => Some(FromBool(b <= a))
    case Greater => Some(FromBool(b > a))
    case GreaterEq => Some(FromBool(b >= a))
    case Min => Some(if b < a then b else a)
    case Max => Some(if a < b then b else a)
  }

  lemma QuotientRange(b: SignedWord, a: SignedWord)
    requires a != 0 && !(b == -HALF_SIZE && a == -1)
    ensures -HALF_SIZE <= TruncatedQuotient(b, a) < HALF_SIZE
  {
    var y, x := Abs(b), Abs(a);
    QuotientBound(y, x);
    if y == HALF_SIZE && x > 1 {
      HalfQuotient(y, x);
    }
  }

  lemma MulMonotone(c: int, x: int, q: nat)
    requires c <= x
    ensures c * q <= x * q
  {
  }

  lemma HalfQuotient(y: nat, x: nat)
    requires x > 1
    ensures 2 * (y / x) <= y
  {
    QuotientBound(y, x);
    assert y == x * (y / x) + y % x;
    MulMonotone(2, x, y / x);
  }

  lemma RemainderRange(y: nat, x: nat)
    requires x > 0
    ensures 0 <= y % x < x
    ensures y % x <= y
  {
    QuotientBound(y, x);
    assert y == x * (y / x) + y % x;
  }

  lemma ShiftRange(b: int, p: nat)
    requires p >= 1
    ensures if b >= 0 then 0 <= b / p <= b else b <= b / p < 0
  {
    if b >= 0 {
      QuotientBound(b, p);
    } else {
      var q, r := b / p, b % p;
      assert b == p * q + r;
      NegativeQuotient(b, p, q, r);
    }
  }

  lemma NegativeQuotient(b: int, p: int, q: int, r: int)
    requires b < 0 && p >= 1 && b == p * q + r && 0 <= r < p
    ensures b <= q < 0
  {
    if q >= 0 {
      MulMonotone(0, p, q);
      assert false;
    }
    MulMonotone(1, -q, p - 1);
    assert (p - 1) * -q == q - p * q;
  }

  // ----- when the two agree -----

  /** Both operands below 2^63, or one of the few pairs beyond it on which truncation makes no difference. */
  predicate DivAgrees(b: Word, a: Word) {
    || (b < HALF_SIZE && a < HALF_SIZE)
    || (b < HALF_SIZE && a >= HALF_SIZE && b + a < WORD_SIZE)
    || (b >= HALF_SIZE && a == 1)
    || a == b
  }

  predicate ModAgrees(b: Word, a: Word) {
    || (b < HALF_SIZE && a < HALF_SIZE)
    || (b < HALF_SIZE && a >= HALF_SIZE && b + a < WORD_SIZE)
    || (b >= HALF_SIZE && 0 < a < HALF_SIZE && WORD_SIZE % a == 0 && b % a == 0)
    || a == b
  }

  /** The operands for which folding `b a op` is right. */
  predicate FoldAgrees(op: BinaryOp, b: Word, a: Word) {
    match op
    case Div => DivAgrees(b, a)
    case Mod => ModAgrees(b, a)
    case Less => (b < HALF_SIZE) == (a < HALF_SIZE)
    case LessEq => (b < HALF_SIZE) == (a < HALF_SIZE)
    case Greater => (b < HALF_SIZE) == (a < HALF_SIZE)
    case GreaterEq => (b < HALF_SIZE) == (a < HALF_SIZE)
    case Min => (b < HALF_SIZE) == (a < HALF_SIZE)
    case Max => (b < HALF_SIZE) == (a < HALF_SIZE)
    case _ => true
  }

  lemma MulLess(a: nat, q: int, q': int)
    requires q < q'
    ensures a * q + a <= a * q'
  {
    MulMonotone(1, q' - q, a);
    assert (q' - q) * a == a * q' - a * q;
  }

  lemma DivUnique(b: nat, a: nat, q: int)
    requires a > 0 && a * q <= b < a * q + a
    ensures b / a == q && b % a == b - a * q
  {
    var q' := b / a;
    assert b == a * q' + b % a;
    if q' < q {
      MulLess(a, q', q);
    } else if q < q' {
      MulLess(a, q, q');
    }
  }

  lemma DivAtLeastOne(b: nat, a: nat)
    requires 0 < a <= b
    ensures b / a >= 1
  {
    var q := b / a;
    assert b == a * q + b % a;
    if q < 1 {
      MulLess(a, q, 1);
    }
  }

  /** Signed quotient of a non-negative dividend by a divisor whose sign bit is set. */
  lemma DivByNegative(b: Word, a: Word)
    requires b < HALF_SIZE <= a
    ensures b / a == 0
    ensures b / (WORD_SIZE - a) == 0 <==> b + a < WORD_SIZE
    ensures 0 <= b / (WORD_SIZE - a) <= b
  {
    var x := WORD_SIZE - a;
    DivUnique(b, a, 0);
    QuotientBound(b, x);
    if b < x {
      DivUnique(b, x, 0);
    } else {
      DivAtLeastOne(b, x);
    }
  }

  lemma DivNegatives(b: Word, a: Word)
    requires b >= HALF_SIZE && a >= HALF_SIZE
    ensures b / a == if b >= a then 1 else 0
    ensures (WORD_SIZE - b) / (WORD_SIZE - a) == b / a <==> a == b
    ensures 0 <= (WORD_SIZE - b) / (WORD_SIZE - a) <= WORD_SIZE - b
  {
    var y, x := WORD_SIZE - b, WORD_SIZE - a;
    QuotientBound(y, x);
    if b >= a {
      DivUnique(b, a, 1);
      DivUnique(y, x, if b == a then 1 else 0);
    } else {
      DivUnique(b, a, 0);
      DivAtLeastOne(y, x);
    }
  }

  lemma DivOfNegative(b: Word, a: Word)
    requires 0 < a < HALF_SIZE <= b
    ensures var q := (WORD_SIZE - b) / a;
      && 0 <= q <= HALF_SIZE
      && (b / a == (if q == 0 then 0 else WORD_SIZE - q) <==> a == 1)
  {
    var y := WORD_SIZE - b;
    if a == 1 {
      DivUnique(b, 1, b);
      DivUnique(y, 1, y);
    } else {
      HalfQuotient(y, a);
      HalfQuotient(b, a);
      QuotientBound(y, a);
      DivAtLeastOne(b, a);
    }
  }

  lemma DivExact(b: Word, a: Word)
    requires a != 0 && !(b == HALF_SIZE && a == WORD_SIZE - 1)
    ensures -HALF_SIZE <= TruncatedQuotient(ToSigned(b), ToSigned(a)) < HALF_SIZE
    ensures Quotient(b, a) == ToWord(TruncatedQuotient(ToSigned(b), ToSigned(a))) <==> DivAgrees(b, a)
  {
    QuotientRange(ToSigned(b), ToSigned(a));
    if b < HALF_SIZE && a >= HALF_SIZE {
      DivByNegative(b, a);
    } else if b >= HALF_SIZE && a >= HALF_SIZE {
      DivNegatives(b, a);
    } else if b >= HALF_SIZE {
      DivOfNegative(b, a);
    }
  }

  lemma ModExact(b: Word, a: Word)
    requires a != 0
    ensures -HALF_SIZE <= TruncatedRemainder(ToSigned(b), ToSigned(a)) < HALF_SIZE
    ensures b % a == ToWord(TruncatedRemainder(ToSigned(b), ToSigned(a))) <==> ModAgrees(b, a)
  {
    var y, x := Abs(ToSigned(b)), Abs(ToSigned(a));
    RemainderRange(y, x);
    if b < HALF_SIZE && a >= HALF_SIZE {
      DivUnique(b, a, 0);
      if b < x {
        DivUnique(b, x, 0);
      }
    } else if b >= HALF_SIZE && a >= HALF_SIZE {
      if b >= a {
        DivUnique(b, a, 1);
        DivUnique(y, x, if b == a then 1 else 0);
      } else {
        DivUnique(b, a, 0);
      }
    } else if b >= HALF_SIZE {
      RemainderRange(b, a);
      if b % a == 0 {
        MultipleSum(b, y, a);
      }
    }
  }

  /** Adding a multiple of `a` does not change a remainder. */
  lemma MultipleSum(b: nat, y: nat, a: nat)
    requires a > 0 && b % a == 0
    ensures (b + y) % a == y % a
  {
    var k, j := b / a, y / a;
    assert b == a * k + b % a;
    assert y == a * j + y % a;
    assert a * (k + j) == a * k + a * j;
    DivUnique(b + y, a, k + j);
  }

  lemma MulExact(b: Word, a: Word)
    ensures Wrap(ToSigned(b) * ToSigned(a)) == Wrap(b * a)
  {
    var k := if b < HALF_SIZE then 0 else 1;
    var j := if a < HALF_SIZE then 0 else 1;
    calc {
      ToSigned(b) * ToSigned(a);
      (b - k * WORD_SIZE) * (a - j * WORD_SIZE);
      b * a + (-j * b - k * a + k * j * WORD_SIZE) * WORD_SIZE;
    }
    WrapShift(b * a, -j * b - k * a + k * j * WORD_SIZE);
  }

  lemma ShiftLeftExact(b: Word, p: nat)
    ensures Wrap(ToSigned(b) * p) == Wrap(b * p)
  {
    var k := if b < HALF_SIZE then 0 else 1;
    assert ToSigned(b) * p == b * p + (-k * p) * WORD_SIZE;
    WrapShift(b * p, -k * p);
  }

  lemma ToWordToSigned(w: Word)
    ensures ToWord(ToSigned(w)) == w
  {
  }

  lemma ToWordIsWrap(x: SignedWord)
    ensures ToWord(x) == Wrap(x)
  {
  }

  ghost predicate Agree(op: BinaryOp, b: Word, a: Word)
    requires Folds(op) && FoldBinary(op, ToSigned(b), ToSigned(a)).Some?
  {
    MachineBinary(op, b, a) == Some(ToWord(FoldBinary(op, ToSigned(b), ToSigned(a)).value))
  }

  lemma DivisionExact(op: BinaryOp, b: Word, a: Word)
    requires (op == Div || op == Mod) && FoldBinary(op, ToSigned(b), ToSigned(a)).Some?
    ensures Agree(op, b, a) <==> FoldAgrees(op, b, a)
  {
    hide TruncatedQuotient;
    hide TruncatedRemainder;
    hide Quotient;
    hide DivAgrees;
    hide ModAgrees;
    if op == Div {
      DivExact(b, a);
    } else {
      ModExact(b, a);
    }
  }

  lemma ShiftExact(op: BinaryOp, b: Word, a: Word)
    requires (op == LeftShift || op == RightShift) && FoldBinary(op, ToSigned(b), ToSigned(a)).Some?
    ensures Agree(op, b, a)
  {
    hide Pow2;
    assert a < 64 && a % 64 == a;
    if op == LeftShift {
      ShiftLeftExact(b, Pow2(a));
    } else {
      ShiftRange(ToSigned(b), Pow2(a));
      ToWordIsWrap(ToSigned(b) / Pow2(a));
    }
  }

  lemma OrderExact(op: BinaryOp, b: Word, a: Word)
    requires op in {Less, LessEq, Greater, GreaterEq, Min, Max}
    ensures Agree(op, b, a) <==> FoldAgrees(op, b, a)
  {
  }

  lemma BitwiseExact(op: BinaryOp, b: Word, a: Word)
    requires op in {BitwiseAnd, BitwiseOr, BitwiseXor, Equal, NotEqual}
    ensures Agree(op, b, a)
  {
    hide BitwiseAnd64;
    hide BitwiseOr64;
    hide BitwiseXor64;
    ToWordToSigned(b);
    ToWordToSigned(a);
  }

  lemma WrappingExact(op: BinaryOp, b: Word, a: Word)
    requires op in {Add, Subtract, Mul}
    ensures Agree(op, b, a)
  {
    hide Wrap;
    match op
    case Mul =>
      MulExact(b, a);
      ToWordToSigned(Wrap(b * a));
    case Add =>
      SumExact(b, a);
      ToWordToSigned(Wrap(b + a));
    case Subtract =>
      SumExact(b, a);
      ToWordToSigned(Wrap(b - a));
  }

  lemma SumExact(b: Word, a: Word)
    ensures Wrap(ToSigned(b) + ToSigned(a)) == Wrap(b + a)
    ensures Wrap(ToSigned(b) - ToSigned(a)) == Wrap(b - a)
  {
    var k := if b < HALF_SIZE then 0 else 1;
    var j := if a < HALF_SIZE then 0 else 1;
    WrapShift(b + a, -k - j);
    WrapShift(b - a, j - k);
  }

  /** Wherever the folder computes anything, it computes what the machine would exactly when `FoldAgrees`. */
  lemma FoldExact(op: BinaryOp, b: Word, a: Word)
    requires Folds(op) && FoldBinary(op, ToSigned(b), ToSigned(a)).Some?
    ensures MachineBinary(op, b, a) == Some(ToWord(FoldBinary(op, ToSigned(b), ToSigned(a)).value))
       <==> FoldAgrees(op, b, a)
  {
    hide FoldBinary;
    hide MachineBinary;
    match op
    case Div => DivisionExact(op, b, a);
    case Mod => DivisionExact(op, b, a);
    case LeftShift => ShiftExact(op, b, a);
    case RightShift => ShiftExact(op, b, a);
    case Less => OrderExact(op, b, a);
    case LessEq => OrderExact(op, b, a);
    case Greater => OrderExact(op, b, a);
    case GreaterEq => OrderExact(op, b, a);
    case Min => OrderExact(op, b, a);
    case Max => OrderExact(op, b, a);
    case Add => WrappingExact(op, b, a);
    case Subtract => WrappingExact(op, b, a);
    case Mul => WrappingExact(op, b, a);
    case _ => BitwiseExact(op, b, a);
  }

  /** `18446744073709551615 2 div` folds to 0, while the generated code leaves 2^63 - 1. */
  lemma FoldedDivisionDiffers()
    ensures FoldBinary(Div, ToSigned(0xFFFF_FFFF_FFFF_FFFF), 2) == Some(0)
    ensures MachineBinary(Div, 0xFFFF_FFFF_FFFF_FFFF, 2) == Some(0x7FFF_FFFF_FFFF_FFFF)
  {
  }
}
