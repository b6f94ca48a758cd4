/** `digits10`, `putu` and `parse(u64)` of the standard library: decimal text out, decimal text in. */
module Decimal {
  import opened Words

  type Byte = x: int | 0 <= x < 256

  const ZERO: Byte := 48

  const MAX_DIGITS10: nat := 19

  // ----- decimal text -----

  function Pow10(k: nat): (r: nat)
    ensures r >= 1
  {
    if k == 0 then 1 else 10 * Pow10(k - 1)
  }

  function Text(n: nat): (s: seq<Byte>)
    ensures |s| >= 1 && forall k :: 0 <= k < |s| ==> IsDigit(s[k])
  {
    if n < 10 then [ZERO + n] else Text(n / 10) + [ZERO + n % 10]
  }

  predicate IsDigit(b: Byte) {
    ZERO <= b <= ZERO + 9
  }

  function Value(s: seq<Byte>): int {
    if s == [] then 0 else 10 * Value(s[..|s|-1]) + (s[|s|-1] - ZERO)
  }

  /** The digits a byte sequence starts with. */
  function DigitRun(s: seq<Byte>): seq<Byte> {
    if s == [] || !IsDigit(s[0]) then [] else [s[0]] + DigitRun(s[1..])
  }

  /** As many digits as the number needs. */
  lemma {:induction false} TextLength(n: nat, k: nat)
    requires k >= 1
    ensures |Text(n)| <= k <==> n < Pow10(k)
    decreases n
  {
    if n < 10 {
      PowGrows(k);
    } else if k > 1 {
      TextLength(n / 10, k - 1);
    } else {
      assert Pow10(1) == 10 * Pow10(0);
    }
  }

  lemma {:induction false} PowGrows(k: nat)
    requires k >= 1
    ensures Pow10(k) >= 10
  {
    if k > 1 {
      PowGrows(k - 1);
    }
  }

  lemma {:induction false} ValueOfText(n: nat)
    ensures Value(Text(n)) == n
    decreases n
  {
    if n < 10 {
      assert Value([]) == 0;
    } else {
      ValueOfText(n / 10);
      assert Text(n)[..|Text(n)|-1] == Text(n / 10);
    }
  }

  lemma {:induction false} DigitRunStops(s: seq<Byte>, t: Byte, rest: seq<Byte>)
    requires (forall k :: 0 <= k < |s| ==> IsDigit(s[k])) && !IsDigit(t)
    ensures DigitRun(s + [t] + rest) == s
    decreases |s|
  {
    var all := s + [t] + rest;
    if s != [] {
      assert all[1..] == s[1..] + [t] + rest;
      DigitRunStops(s[1..], t, rest);
    }
  }

  /** What `parse(u64)` makes of a number's text and any terminator is the number. */
  lemma PrintThenParse(n: Word, t: Byte, rest: seq<Byte>)
    requires !IsDigit(t)
    ensures Wrap(Value(DigitRun(Text(n) + [t] + rest))) == n
  {
    DigitRunStops(Text(n), t, rest);
    ValueOfText(n);
  }

  /** The declared buffer holds the text of exactly the numbers below 10^19. */
  lemma BufferSuffices(n: Word)
    ensures |Text(n)| <= MAX_DIGITS10 <==> n < 10_000_000_000_000_000_000
    ensures |Text(n)| <= MAX_DIGITS10 + 1
  {
    TextLength(n, 19);
    TextLength(n, 20);
    Pow10Of19();
  }

  lemma Pow10Of19()
    ensures Pow10(19) == 10_000_000_000_000_000_000 && Pow10(20) == 100_000_000_000_000_000_000
  {
    assert Pow10(5) == 100_000;
    assert Pow10(10) == 10_000_000_000;
    assert Pow10(15) == 1_000_000_000_000_000;
    assert Pow10(20) == 10 * Pow10(19);
  }

  lemma FourDigitsShorter(n: nat)
    requires n >= 10000
    ensures |Text(n)| == |Text(n / 10000)| + 4
  {
    var a, b, c := n / 10, n / 100, n / 1000;
    assert a / 10 == b && b / 10 == c && c / 10 == n / 10000;
    assert |Text(n)| == |Text(a)| + 1 && |Text(a)| == |Text(b)| + 1 && |Text(b)| == |Text(c)| + 1;
  }

  lemma ShortText(n: nat)
    ensures n < 10 ==> |Text(n)| == 1
    ensures 10 <= n < 100 ==> |Text(n)| == 2
    ensures 100 <= n < 1000 ==> |Text(n)| == 3
    ensures 1000 <= n < 10000 ==> |Text(n)| == 4
  {
    TextLength(n, 1);
    TextLength(n, 2);
    TextLength(n, 3);
    TextLength(n, 4);
    assert Pow10(1) == 10 && Pow10(2) == 100 && Pow10(3) == 1000 && Pow10(4) == 10000;
  }

  lemma LastDigit(n: nat)
    requires n >= 10
    ensures Text(n) == Text(n / 10) + [ZERO + n % 10] && |Text(n)| == |Text(n / 10)| + 1
  {
  }

  lemma OneDigit(n: nat)
    requires n < 10
    ensures Text(n) == [ZERO + n]
  {
  }

  // ----- the words -----

  method Digits10(n: Word) returns (digits: Word)
    ensures digits == |Text(n)|
  {
    hide Text;
    var acc: nat, rest: Word := 1, n;
    BufferSuffices(n);
    while true
      invariant acc - 1 + |Text(rest)| == |Text(n)|
      decreases rest
    {
      ShortText(rest);
      if rest < 10 {
        return acc;
      }
      if rest < 100 {
        return acc + 1;
      }
      if rest < 1000 {
        return acc + 2;
      }
      if rest < 10000 {
        return acc + 3;
      }
      FourDigitsShorter(rest);
      rest, acc := rest / 10000, acc + 4;
    }
  }

  /** `putu`: fills the buffer from the back, and hands that many bytes to `write`. */
  method PutU(memory: array<Byte>, buffer: nat, n: Word) returns (written: seq<Byte>)
    requires buffer + MAX_DIGITS10 + 1 <= memory.Length
    modifies memory
    ensures written == Text(n) && |Text(n)| <= MAX_DIGITS10 + 1
    ensures forall k :: 0 <= k < |Text(n)| ==> memory[buffer + k] == Text(n)[k]
    ensures forall k :: 0 <= k < memory.Length && !(buffer <= k < buffer + |Text(n)|) ==> memory[k] == old(memory[k])
  {
    hide Text;
    BufferSuffices(n);
    var digits := Digits10(n);
    var i: int, rest: Word := digits - 1, n;
    ghost var before, text := memory[..], Text(n);
    while rest >= 10
      invariant 0 <= i < digits && |Text(rest)| == i + 1
      invariant text[..i + 1] == Text(rest)
      invariant forall k :: i < k < digits ==> memory[buffer + k] == text[k]
      invariant forall k :: 0 <= k < buffer || buffer + digits <= k < memory.Length ==> memory[k] == before[k]
    {
      LastDigit(rest);
      PrefixLast(text, i, Text(rest / 10), ZERO + rest % 10);
      memory[buffer + i] := ZERO + rest % 10;
      i, rest := i - 1, rest / 10;
    }
    OneDigit(rest);
    assert text[0] == text[..1][0];
    memory[buffer] := ZERO + rest;
    written := memory[buffer..buffer + digits];
    assert written == text;
  }

  lemma PrefixLast(text: seq<Byte>, i: nat, front: seq<Byte>, last: Byte)
    requires i < |text| && text[..i + 1] == front + [last]
    ensures text[..i] == front && text[i] == last
  {
    assert text[..i] == text[..i + 1][..i] && text[i] == text[..i + 1][i];
  }

  /** `parse(u64)` from address `start`. */
  method ParseU64(memory: seq<Byte>, start: nat) returns (result: Word)
    requires exists k :: start <= k < |memory| && !IsDigit(memory[k])
    ensures result == Wrap(Value(DigitRun(memory[start..])))
  {
    hide Wrap;
    hide Value;
    hide DigitRun;
    NoDigits();
    ghost var stop :| start <= stop < |memory| && !IsDigit(memory[stop]);
    ghost var run := DigitRun(memory[start..]);
    var p := start;
    result := 0;
    assert memory[start..p] == [] && run == memory[start..p] + DigitRun(memory[p..]);
    while IsDigit(memory[p])
      invariant start <= p <= stop
      invariant result == Wrap(Value(memory[start..p]))
      invariant run == memory[start..p] + DigitRun(memory[p..])
      decreases stop - p
    {
      ValueNext(memory[start..p], memory[p]);
      assert memory[start..p + 1] == memory[start..p] + [memory[p]];
      DigitRunNext(memory, start, p);
      result := Wrap(memory[p] - ZERO + Wrap(result * 10));
      p := p + 1;
    }
    DigitRunEnd(memory, start, p);
  }

  lemma DigitRunEnd(memory: seq<Byte>, start: nat, p: nat)
    requires start <= p < |memory| && !IsDigit(memory[p])
    ensures memory[start..p] + DigitRun(memory[p..]) == memory[start..p]
  {
    assert memory[p..][0] == memory[p];
  }

  lemma DigitRunNext(memory: seq<Byte>, start: nat, p: nat)
    requires start <= p < |memory| && IsDigit(memory[p])
    ensures memory[start..p] + DigitRun(memory[p..]) == memory[start..p + 1] + DigitRun(memory[p + 1..])
  {
    assert memory[p..][1..] == memory[p + 1..];
    assert memory[start..p + 1] == memory[start..p] + [memory[p]];
  }

  lemma NoDigits()
    ensures Wrap(Value([])) == 0
  {
  }

  lemma ValueNext(s: seq<Byte>, b: Byte)
    ensures Value(s + [b]) == 10 * Value(s) + (b - ZERO)
    ensures Wrap(Value(s + [b])) == Wrap(b - ZERO + Wrap(Wrap(Value(s)) * 10))
  {
    assert (s + [b])[..|s|] == s;
    var v, d := Value(s), b - ZERO;
    assert v == WORD_SIZE * (v / WORD_SIZE) + Wrap(v);
    var x := Wrap(v) * 10;
    assert x == WORD_SIZE * (x / WORD_SIZE) + Wrap(x);
    assert 10 * v + d == WORD_SIZE * (10 * (v / WORD_SIZE) + x / WORD_SIZE) + (d + Wrap(x));
    WrapShift(d + Wrap(x), 10 * (v / WORD_SIZE) + x / WORD_SIZE);
  }
}
