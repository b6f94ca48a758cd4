/** `utf8::encode_rune`, a decoder for what it produces, and how it compares with section 3 of RFC 3629. */
module Utf8 {
  import opened Wrappers

  const RUNE_MAX_1: bv32 := 0x7F
  const RUNE_MAX_2: bv32 := 0x7FF
  const RUNE_MAX_3: bv32 := 0xFFFF

  function Low(r: bv32): bv8 {
    (r & 0xFF) as bv8
  }

  /** `Tx | char(r) & Maskx`. */
  function Continuation(r: bv32): bv8 {
    0x80 | (Low(r) & 0x3F)
  }

  function EncodeRune(r: bv32): (s: seq<bv8>)
    ensures 1 <= |s| <= 4
  {
    if r < RUNE_MAX_1 then [Low(r)]
    else if r < RUNE_MAX_2 then [0xC0 | Low(r >> 6), Continuation(r)]
    else if r < RUNE_MAX_3 then [0xE0 | Low(r >> 12), Continuation(r >> 6), Continuation(r)]
    else [0xF0 | Low(r >> 18), Continuation(r >> 12), Continuation(r >> 6), Continuation(r)]
  }

  function EncodeAll(rs: seq<bv32>): seq<bv8> {
    if rs == [] then [] else EncodeRune(rs[0]) + EncodeAll(rs[1..])
  }

  // ----- decoding -----

  function Bits(b: bv8): bv32 {
    (b as bv32) & 0x3F
  }

  /** How many bytes a first byte announces. */
  function Announced(b: bv8): nat {
    if b & 0x80 == 0 then 1
    else if b & 0xE0 == 0xC0 then 2
    else if b & 0xF0 == 0xE0 then 3
    else 4
  }

  function Join2(a: bv8, b: bv8): bv32 {
    (((a as bv32) & 0x1F) << 6) | Bits(b)
  }

  function Join3(a: bv8, b: bv8, c: bv8): bv32 {
    (((a as bv32) & 0x0F) << 12) | (Bits(b) << 6) | Bits(c)
  }

  function Join4(a: bv8, b: bv8, c: bv8, d: bv8): bv32 {
    (((a as bv32) & 0x07) << 18) | (Bits(b) << 12) | (Bits(c) << 6) | Bits(d)
  }

  function DecodeRune(s: seq<bv8>): bv32
    requires s != [] && |s| == Announced(s[0])
  {
    match |s|
    case 1 => s[0] as bv32
    case 2 => Join2(s[0], s[1])
    case 3 => Join3(s[0], s[1], s[2])
    case _ => Join4(s[0], s[1], s[2], s[3])
  }

  function DecodeAll(s: seq<bv8>): Option<seq<bv32>> {
    if s == [] then Some([])
    else
      var n := Announced(s[0]);
      if |s| < n then None
      else
        match DecodeAll(s[n..])
        case None => None
        case Some(rs) => Some([DecodeRune(s[..n])] + rs)
  }

  lemma OneByte(r: bv32)
    requires r < RUNE_MAX_1
    ensures Announced(Low(r)) == 1 && Low(r) as bv32 == r
  {
  }

  lemma TwoBytes(r: bv32)
    requires r < RUNE_MAX_2
    ensures Announced(0xC0 | Low(r >> 6)) == 2
    ensures Join2(0xC0 | Low(r >> 6), Continuation(r)) == r
  {
  }

  lemma ThreeBytes(r: bv32)
    requires r < RUNE_MAX_3
    ensures Announced(0xE0 | Low(r >> 12)) == 3
    ensures Join3(0xE0 | Low(r >> 12), Continuation(r >> 6), Continuation(r)) == r
  {
  }

  lemma FourBytes(r: bv32)
    ensures Announced(0xF0 | Low(r >> 18)) == 4
    ensures Join4(0xF0 | Low(r >> 18), Continuation(r >> 12), Continuation(r >> 6), Continuation(r)) == r
        <==> r < 0x20_0000
  {
  }

  /** A rune's first byte always announces its length, and its bytes decode to it exactly up to 21 bits. */
  lemma RuneRoundTrip(r: bv32)
    ensures Announced(EncodeRune(r)[0]) == |EncodeRune(r)|
    ensures DecodeRune(EncodeRune(r)) == r <==> r < 0x20_0000
  {
    hide Low;
    hide Continuation;
    hide Announced;
    hide Join2;
    hide Join3;
    hide Join4;
    if r < RUNE_MAX_1 {
      OneByte(r);
    } else if r < RUNE_MAX_2 {
      TwoBytes(r);
    } else if r < RUNE_MAX_3 {
      ThreeBytes(r);
    } else {
      FourBytes(r);
    }
  }

  /** Concatenated encodings decode to exactly the runes they came from. */
  lemma {:induction false} TextRoundTrip(rs: seq<bv32>)
    requires forall k :: 0 <= k < |rs| ==> rs[k] < 0x20_0000
    ensures DecodeAll(EncodeAll(rs)) == Some(rs)
    decreases |rs|
  {
    hide EncodeRune;
    hide DecodeRune;
    hide Announced;
    if rs != [] {
      var first, rest := EncodeRune(rs[0]), EncodeAll(rs[1..]);
      RuneRoundTrip(rs[0]);
      TextRoundTrip(rs[1..]);
      var s := first + rest;
      assert s[0] == first[0] && s[..|first|] == first && s[|first|..] == rest;
      assert rs == [rs[0]] + rs[1..];
    }
  }

  // ----- RFC 3629 -----

  /** What section 3 of RFC 3629 encodes: everything up to 0x10FFFF but the surrogates. */
  predicate IsScalar(r: bv32) {
    r <= 0x10_FFFF && !(0xD800 <= r <= 0xDFFF)
  }

  /** First column of its table: how many octets a character number takes. */
  function Octets(r: bv32): nat {
    if r <= 0x7F then 1 else if r <= 0x7FF then 2 else if r <= 0xFFFF then 3 else 4
  }

  /** Second column: `110xxxxx` and so on in the first octet. */
  predicate IsFirst(b: bv8, n: nat) {
    match n
    case 1 => b & 0x80 == 0
    case 2 => b & 0xE0 == 0xC0
    case 3 => b & 0xF0 == 0xE0
    case _ => b & 0xF8 == 0xF0
  }

  /** `10xxxxxx`. */
  predicate IsNext(b: bv8) {
    b & 0xC0 == 0x80
  }

  /** The bits marked `x` of octets in a row, the highest first. */
  function Marked(s: seq<bv8>): bv32
    requires 1 <= |s| <= 4
  {
    if |s| == 1 then (s[0] as bv32) & 0x7F
    else if |s| == 2 then (((s[0] as bv32) & 0x1F) << 6) + Tail(s[1])
    else if |s| == 3 then (((s[0] as bv32) & 0x0F) << 12) + (Tail(s[1]) << 6) + Tail(s[2])
    else (((s[0] as bv32) & 0x07) << 18) + (Tail(s[1]) << 12) + (Tail(s[2]) << 6) + Tail(s[3])
  }

  function Tail(b: bv8): bv32 {
    (b & 0x3F) as bv32
  }

  /** `s` is the encoding of `r` that section 3 of RFC 3629 prescribes. */
  predicate IsStandard(r: bv32, s: seq<bv8>) {
    && IsScalar(r) && |s| == Octets(r)
    && IsFirst(s[0], |s|) && (forall k :: 1 <= k < |s| ==> IsNext(s[k]))
    && Marked(s) == r
  }

  predicate LastOfLength(r: bv32) {
    r == RUNE_MAX_1 || r == RUNE_MAX_2 || r == RUNE_MAX_3
  }

  lemma StandardTwo(r: bv32)
    requires r < RUNE_MAX_2
    ensures IsFirst(0xC0 | Low(r >> 6), 2) && IsNext(Continuation(r))
    ensures Marked([0xC0 | Low(r >> 6), Continuation(r)]) == r
  {
  }

  lemma StandardThree(r: bv32)
    requires r < RUNE_MAX_3
    ensures IsFirst(0xE0 | Low(r >> 12), 3) && IsNext(Continuation(r >> 6)) && IsNext(Continuation(r))
    ensures Marked([0xE0 | Low(r >> 12), Continuation(r >> 6), Continuation(r)]) == r
  {
  }

  lemma StandardFour(r: bv32)
    requires r <= 0x10_FFFF
    ensures IsFirst(0xF0 | Low(r >> 18), 4) && IsNext(Continuation(r >> 12)) && IsNext(Continuation(r >> 6))
    ensures IsNext(Continuation(r))
    ensures Marked([0xF0 | Low(r >> 18), Continuation(r >> 12), Continuation(r >> 6), Continuation(r)]) == r
  {
  }

  lemma StandardOne(r: bv32)
    requires r < RUNE_MAX_1
    ensures IsFirst(Low(r), 1) && Marked([Low(r)]) == r
  {
  }

  /**
   The encoder is the standard's exactly on scalar values other than the last rune of each shorter length.
   There it takes an octet more; surrogates and numbers beyond 0x10FFFF it encodes though the standard has
   no encoding for them.
   */
  lemma StandardExcept(r: bv32)
    ensures IsStandard(r, EncodeRune(r)) <==> IsScalar(r) && !LastOfLength(r)
    ensures IsScalar(r) ==> |EncodeRune(r)| == Octets(r) + if LastOfLength(r) then 1 else 0
  {
    hide Low;
    hide Continuation;
    hide Marked;
    hide IsFirst;
    hide IsNext;
    if r < RUNE_MAX_1 {
      StandardOne(r);
    } else if r < RUNE_MAX_2 {
      StandardTwo(r);
    } else if r < RUNE_MAX_3 {
      StandardThree(r);
    } else if r <= 0x10_FFFF {
      StandardFour(r);
    }
  }

  /** No rune has two standard encodings. */
  lemma StandardUnique(r: bv32, s: seq<bv8>, s': seq<bv8>)
    requires IsStandard(r, s) && IsStandard(r, s')
    ensures s == s'
  {
    hide Marked;
    hide IsFirst;
    hide IsNext;
    Spelled(s);
    Spelled(s');
    match |s|
    case 1 => OneUnique(s[0], s'[0]);
    case 2 => TwoUnique(s[0], s[1], s'[0], s'[1]);
    case 3 => ThreeUnique(s[0], s[1], s[2], s'[0], s'[1], s'[2]);
    case _ => FourUnique(s[0], s[1], s[2], s[3], s'[0], s'[1], s'[2], s'[3]);
  }

  lemma Spelled(s: seq<bv8>)
    requires 1 <= |s| <= 4
    ensures |s| == 1 ==> s == [s[0]]
    ensures |s| == 2 ==> s == [s[0], s[1]]
    ensures |s| == 3 ==> s == [s[0], s[1], s[2]]
    ensures |s| == 4 ==> s == [s[0], s[1], s[2], s[3]]
  {
  }

  lemma OneUnique(a: bv8, a': bv8)
    requires IsFirst(a, 1) && IsFirst(a', 1) && Marked([a]) == Marked([a'])
    ensures a == a'
  {
  }

  lemma TwoUnique(a: bv8, b: bv8, a': bv8, b': bv8)
    requires IsFirst(a, 2) && IsFirst(a', 2) && IsNext(b) && IsNext(b') && Marked([a, b]) == Marked([a', b'])
    ensures a == a' && b == b'
  {
  }

  lemma ThreeUnique(a: bv8, b: bv8, c: bv8, a': bv8, b': bv8, c': bv8)
    requires IsFirst(a, 3) && IsFirst(a', 3) && IsNext(b) && IsNext(b') && IsNext(c) && IsNext(c')
    requires Marked([a, b, c]) == Marked([a', b', c'])
    ensures a == a' && b == b' && c == c'
  {
  }

  lemma FourUnique(a: bv8, b: bv8, c: bv8, d: bv8, a': bv8, b': bv8, c': bv8, d': bv8)
    requires IsFirst(a, 4) && IsFirst(a', 4) && IsNext(b) && IsNext(b') && IsNext(c) && IsNext(c') && IsNext(d)
    requires IsNext(d')
    requires Marked([a, b, c, d]) == Marked([a', b', c', d'])
    ensures a == a' && b == b' && c == c' && d == d'
  {
  }
}
