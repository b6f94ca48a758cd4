/**
 The 64-bit words on the data stack, the unsigned operations of the generated code
 and the signed operations of the constant folder.
 */
module Words {
  import opened Wrappers

  const WORD_SIZE: int := 0x1_0000_0000_0000_0000
  const HALF_SIZE: int := 0x8000_0000_0000_0000

  type Word = x: int | 0 <= x < 0x1_0000_0000_0000_0000
  type SignedWord = x: int | -0x8000_0000_0000_0000 <= x < 0x8000_0000_0000_0000

  function Wrap(x: int): Word {
    x % WORD_SIZE
  }

  lemma WrapShift(x: int, k: int)
    ensures Wrap(x + k * WORD_SIZE) == Wrap(x)
  {
  }

  /** `std::int64_t(w)`: the two's complement reading of a word. */
  function ToSigned(w: Word): SignedWord {
    if w < HALF_SIZE then w else w - WORD_SIZE
  }

  /** `std::uint64_t(x)`. */
  function ToWord(x: SignedWord): Word {
    if x < 0 then x + WORD_SIZE else x
  }

  function FromBool(b: bool): Word {
    if b then 1 else 0
  }

  function Pow2(n: nat): (r: nat)
    ensures r >= 1
  {
    if n == 0 then 1 else 2 * Pow2(n - 1)
  }

  /** Applies `f` to each of the low `n` bits of `a` and `b`. */
  function Bits(f: (bool, bool) -> bool, n: nat, a: nat, b: nat): (r: nat)
    ensures r < Pow2(n)
  {
    if n == 0 then 0
    else (if f(a % 2 == 1, b % 2 == 1) then 1 else 0) + 2 * Bits(f, n - 1, a / 2, b / 2)
  }

  function Bits64(f: (bool, bool) -> bool, a: Word, b: Word): Word {
    Pow2Of64();
    Bits(f, 64, a, b)
  }

  lemma Pow2Add(m: nat, n: nat)
    ensures Pow2(m + n) == Pow2(m) * Pow2(n)
  {
    if m > 0 {
      Pow2Add(m - 1, n);
      assert 2 * (Pow2(m - 1) * Pow2(n)) == (2 * Pow2(m - 1)) * Pow2(n);
    }
  }

  lemma Pow2Of64()
    ensures Pow2(64) == WORD_SIZE
  {
    Pow2Of16();
    Pow2Add(16, 16);
    Pow2Add(32, 32);
    assert 0x1_0000 * 0x1_0000 == 0x1_0000_0000 && 0x1_0000_0000 * 0x1_0000_0000 == WORD_SIZE;
  }

  lemma Pow2Of16()
    ensures Pow2(16) == 0x1_0000
  {
    assert Pow2(4) == 16;
    Pow2Add(4, 4);
    Pow2Add(8, 8);
  }

  datatype BinaryOp =
    | Add | Subtract | Mul | Div | Mod
    | BitwiseAnd | BitwiseOr | BitwiseXor | LeftShift | RightShift
    | Equal | NotEqual | Less | LessEq | Greater | GreaterEq
    | Min | Max | BooleanAnd | BooleanOr

  function BitwiseAnd64(b: Word, a: Word): Word { Bits64((x, y) => x && y, b, a) }
  function BitwiseOr64(b: Word, a: Word): Word { Bits64((x, y) => x || y, b, a) }
  function BitwiseXor64(b: Word, a: Word): Word { Bits64((x, y) => x != y, b, a) }

  /**
   What the generated code computes for `b a op`: wrapping arithmetic, unsigned division and
   comparison, shift counts taken modulo 64. `None` is the divide fault.
   */
  function MachineBinary(op: BinaryOp, b: Word, a: Word): Option<Word> {
    match op
    case Add => Some(Wrap(b + a))
    case Subtract => Some(Wrap(b - a))
    case Mul => Some(Wrap(b * a))
    case Div => if a == 0 then None else Some(Quotient(b, a))
    case Mod => if a == 0 then None else Some(b % a)
    case BitwiseAnd => Some(BitwiseAnd64(b, a))
    case BitwiseOr => Some(BitwiseOr64(b, a))
    case BitwiseXor => Some(BitwiseXor64(b, a))
    case LeftShift => Some(Wrap(b * Pow2(a % 64)))
    case RightShift => Some(Wrap(ToSigned(b) / Pow2(a % 64)))
    case Equal => Some(FromBool(b == a))
    case NotEqual => Some(FromBool(b != a))
    case Less => Some(FromBool(b < a))
    case LessEq => Some(FromBool(b <= a))
    case Greater => Some(FromBool(b > a))
    case GreaterEq => Some(FromBool(b >= a))
    case Min => Some(if b > a then a else b)
    case Max => Some(if b < a then a else b)
    case BooleanAnd => Some(FromBool(BitwiseAnd64(b, a) != 0))
    case BooleanOr => Some(FromBool(BitwiseOr64(b, a) != 0))
  }

  function Quotient(b: Word, a: Word): Word
    requires a != 0
  {
    QuotientBound(b, a);
    b / a
  }

  lemma QuotientBound(b: nat, a: nat)
    requires a > 0
    ensures 0 <= b / a <= b
  {
    var q, r := b / a, b % a;
    assert b == a * q + r;
    QuotientSteps(b, a, q, r);
  }

  lemma QuotientSteps(b: nat, a: nat, q: int, r: int)
    requires a > 0 && b == a * q + r && 0 <= r < a
    ensures 0 <= q <= b
  {
    if q < 0 {
      Scale(a, q, -1);
    } else {
      Scale(q, 1, a);
    }
  }

  lemma {:induction false} Scale(k: nat, x: int, y: int)
    requires x <= y
    ensures k * x <= k * y
    decreases k
  {
    if k > 0 {
      Scale(k - 1, x, y);
      assert k * x == (k - 1) * x + x && k * y == (k - 1) * y + y;
    }
  }
}
