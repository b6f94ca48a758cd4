/** `parse_int` of the lexer: integer literals by a table of powers, against their Horner value. */
module Literals {
  import opened Wrappers
  import opened Words

  predicate KnownBase(base: nat) {
    base in {2, 6, 8, 10, 16}
  }

  function MaxDigits(base: nat): nat
    requires KnownBase(base)
  {
    match base
    case 2 => 64
    case 6 => 25
    case 8 => 22
    case 10 => 20
    case _ => 16
  }

  /** `Undefined`: more digits than the table has powers. */
  datatype Literal = Accepted(value: Word, byteSize: nat) | Rejected | Undefined

  // ----- powers -----

  function Power(x: nat, n: nat): (r: nat)
    ensures x > 0 ==> r > 0
  {
    if n == 0 then 1 else x * Power(x, n - 1)
  }

  lemma WrapTimes(x: int, y: int)
    ensures Wrap(Wrap(x) * y) == Wrap(x * y)
  {
    var q := x / WORD_SIZE;
    assert x == WORD_SIZE * q + Wrap(x);
    assert x * y == WORD_SIZE * (q * y) + Wrap(x) * y;
    WrapShift(Wrap(x) * y, q * y);
  }

  lemma WrapPlus(x: int, y: int)
    ensures Wrap(Wrap(x) + Wrap(y)) == Wrap(x + y)
  {
    assert x + y == WORD_SIZE * (x / WORD_SIZE + y / WORD_SIZE) + (Wrap(x) + Wrap(y));
    WrapShift(Wrap(x) + Wrap(y), x / WORD_SIZE + y / WORD_SIZE);
  }

  /** `pow`. */
  method Pow(x: Word, n: nat) returns (r: Word)
    ensures r == Wrap(Power(x, n))
  {
    hide Wrap;
    var k := 0;
    r := 1;
    assert Wrap(Power(x, 0)) == 1 by {
      OneFits();
    }
    while k < n
      invariant k <= n && r == Wrap(Power(x, k))
    {
      WrapTimes(Power(x, k), x);
      k := k + 1;
      assert Power(x, k) == Power(x, k - 1) * x;
      r := Wrap(r * x);
    }
  }

  lemma OneFits()
    ensures Wrap(1) == 1
  {
  }

  // ----- digits -----

  /** The digit a character stands for; 36 for none. */
  function Digit(c: char): nat {
    if '0' <= c <= '9' then (c - '0') as int
    else if 'a' <= c <= 'z' then (c - 'a') as int + 10
    else if 'A' <= c <= 'Z' then (c - 'A') as int + 10
    else 36
  }

  function Horner(base: nat, ds: string): nat {
    if ds == [] then 0 else Horner(base, ds[..|ds|-1]) * base + Digit(ds[|ds|-1])
  }

  predicate AllDigits(base: nat, ds: string) {
    forall k :: 0 <= k < |ds| ==> Digit(ds[k]) < base
  }

  /** The text without its underscores. */
  function Clean(s: string): (r: string)
    ensures |r| <= |s|
  {
    if s == [] then []
    else if s[|s|-1] == '_' then Clean(s[..|s|-1])
    else Clean(s[..|s|-1]) + [s[|s|-1]]
  }

  lemma {:induction false} CleanConcat(a: string, b: string)
    ensures Clean(a + b) == Clean(a) + Clean(b)
    decreases |b|
  {
    if b == [] {
      assert a + b == a;
    } else {
      var n := |b| - 1;
      assert (a + b)[..|a + b|-1] == a + b[..n];
      CleanConcat(a, b[..n]);
    }
  }

  // ----- literals -----

  function Strip(s: string): (r: string)
    ensures r == [] || (r[0] != '0' && r[0] != '_')
    ensures |r| <= |s| && r == s[|s|-|r|..]
  {
    if s != [] && (s[0] == '0' || s[0] == '_') then Strip(s[1..]) else s
  }

  /** The byte size a type suffix states; none if it is no type. */
  function Suffix(s: string): Option<(string, nat)> {
    var n := |s|;
    if n >= 2 && (s[n-2] == 'i' || s[n-2] == 'u') then
      if s[n-1] == '8' then Some((s[..n-2], 1)) else None
    else if n >= 3 && (s[n-3] == 'i' || s[n-3] == 'u') then
      if s[n-2..] == "16" then Some((s[..n-3], 2))
      else if s[n-2..] == "32" then Some((s[..n-3], 4))
      else if s[n-2..] == "64" then Some((s[..n-3], 8))
      else None
    else Some((s, 0))
  }

  function ReadDigits(base: nat, body: string, byteSize: nat): Literal
    requires KnownBase(base)
  {
    var ds := Clean(body);
    if |ds| > MaxDigits(base) then (if Digit(ds[0]) < base then Undefined else Rejected)
    else if AllDigits(base, ds) then Accepted(Wrap(Horner(base, ds)), byteSize)
    else Rejected
  }

  function WithoutPrefix(base: nat, text: string): string {
    if base != 10 && |text| >= 2 then text[2..] else text
  }

  /** What a literal means: leading zeros and underscores do not matter, the rest is read digit by digit. */
  function Meaning(base: nat, text: string): Literal
    requires KnownBase(base)
  {
    match Suffix(Strip(WithoutPrefix(base, text)))
    case None => Rejected
    case Some((body, size)) => ReadDigits(base, body, size)
  }

  // ----- the lexer's loops -----

  method SkipZeros(s: string) returns (r: string)
    ensures r == Strip(s)
  {
    r := s;
    while r != [] && (r[0] == '0' || r[0] == '_')
      invariant Strip(r) == Strip(s)
      decreases |r|
    {
      r := r[1..];
    }
  }

  method CountUnderscores(s: string) returns (n: nat)
    ensures n == |s| - |Clean(s)|
  {
    n := 0;
    assert s[..|s|] == s;
    for i := 0 to |s|
      invariant n == i - |Clean(s[..i])|
    {
      assert s[..i + 1][..i] == s[..i];
      if s[i] == '_' {
        n := n + 1;
      }
    }
  }

  lemma SuffixShape(s: string)
    requires Suffix(s).Some?
    ensures var body := Suffix(s).value.0;
      |body| <= |s| && s[..|body|] == body && forall k :: |body| <= k < |s| ==> s[k] != '_'
  {
    var n := |s|;
    if n >= 3 && (s[n-3] == 'i' || s[n-3] == 'u') {
      assert s[n-2] == s[n-2..][0] && s[n-1] == s[n-2..][1];
    }
  }

  /** A suffix has no underscore. */
  lemma SuffixClean(s: string)
    requires Suffix(s).Some?
    ensures var body := Suffix(s).value.0;
      |body| <= |s| && |s| - |Clean(s)| == |body| - |Clean(body)|
  {
    hide Suffix;
    hide Clean;
    SuffixShape(s);
    var body := Suffix(s).value.0;
    var tail := s[|body|..];
    assert s == body + tail;
    CleanConcat(body, tail);
    FlatClean(tail);
  }

  lemma {:induction false} FlatClean(s: string)
    requires forall k :: 0 <= k < |s| ==> s[k] != '_'
    ensures Clean(s) == s
    decreases |s|
  {
    if s != [] {
      FlatClean(s[..|s|-1]);
    }
  }

  lemma Distribute(h: int, b: int, p: int, d: int)
    ensures (h * b + d) * p == h * (b * p) + p * d
  {
  }

  lemma HornerNext(base: nat, ds: string, k: nat)
    requires k < |ds|
    ensures Horner(base, ds[..k + 1]) == Horner(base, ds[..k]) * base + Digit(ds[k])
  {
    assert ds[..k + 1][..k] == ds[..k];
  }

  lemma PowerNext(base: nat, n: nat)
    requires n > 0
    ensures Power(base, n) == base * Power(base, n - 1)
  {
  }

  /** One more digit, by the table of powers. */
  lemma TableStep(base: nat, ds: string, k: nat, n: nat, value: Word)
    requires k < n <= |ds| && value == Wrap(Horner(base, ds[..k]) * Power(base, n - k))
    ensures Wrap(value + Wrap(Wrap(Power(base, n - k - 1)) * Digit(ds[k])))
        == Wrap(Horner(base, ds[..k + 1]) * Power(base, n - k - 1))
  {
    hide Wrap;
    hide Horner;
    hide Power;
    hide Digit;
    var p, d, h := Power(base, n - k - 1), Digit(ds[k]), Horner(base, ds[..k]);
    HornerNext(base, ds, k);
    PowerNext(base, n - k);
    WrapTimes(p, d);
    WrapPlus(h * (base * p), p * d);
    Distribute(h, base, p, d);
  }

  /** The powers `Base^(Max_Digits - 1 - i)`, modulo 2^64. */
  method PowersLookup(base: nat) returns (powers: seq<Word>)
    requires KnownBase(base)
    ensures |powers| == MaxDigits(base)
    ensures forall i :: 0 <= i < |powers| ==> powers[i] == Wrap(Power(base, MaxDigits(base) - i - 1))
  {
    powers := [];
    for i := 0 to MaxDigits(base)
      invariant |powers| == i
      invariant forall j :: 0 <= j < i ==> powers[j] == Wrap(Power(base, MaxDigits(base) - j - 1))
    {
      var p := Pow(base, MaxDigits(base) - i - 1);
      powers := powers + [p];
    }
  }

  /** The digits of a literal, highest power first. */
  method SumDigits(base: nat, body: string, byteSize: nat, underscores: nat) returns (r: Literal)
    requires KnownBase(base) && underscores == |body| - |Clean(body)|
    ensures r == ReadDigits(base, body, byteSize)
  {
    hide Wrap;
    hide Horner;
    hide Digit;
    hide Power;
    hide MaxDigits;
    hide Clean;
    hide ReadDigits;
    hide AllDigits;
    var powers := PowersLookup(base);
    var value: Word := 0;
    var i := MaxDigits(base) - |body| + underscores;
    ghost var ds := Clean(body);
    ghost var n := |ds|;
    ghost var start := i;
    StartValue(base, n);
    EmptyClean(base);
    assert body[..0] == [] && ds[..0] == [];
    assert body[..|body|] == body;
    for j := 0 to |body|
      invariant start <= i <= start + n && i == start + |Clean(body[..j])|
      invariant Clean(body[..j]) == ds[..i - start] && AllDigits(base, ds[..i - start])
      invariant i > start ==> n <= MaxDigits(base)
      invariant value == Wrap(Horner(base, ds[..i - start]) * Power(base, n - (i - start)))
    {
      NextClean(body, j);
      if body[j] == '_' {
        continue;
      }
      var digit := Digit(body[j]);
      ghost var k := i - start;
      if digit >= base {
        BadDigit(base, body, byteSize, k);
        return Rejected;
      }
      if i < 0 {
        TooManyDigits(base, body, byteSize);
        return Undefined;
      }
      TableStep(base, ds, k, n, value);
      assert ds[..k + 1] == ds[..k] + [body[j]];
      MoreDigits(base, ds[..k], body[j]);
      value := Wrap(value + Wrap(powers[i] * digit));
      i := i + 1;
    }
    assert ds[..n] == ds;
    LastPower(base, ds);
    GoodDigits(base, body, byteSize);
    r := Accepted(value, byteSize);
  }

  lemma EmptyClean(base: nat)
    ensures Clean([]) == [] && AllDigits(base, [])
  {
  }

  lemma MoreDigits(base: nat, ds: string, c: char)
    requires AllDigits(base, ds) && Digit(c) < base
    ensures AllDigits(base, ds + [c])
  {
  }

  lemma BadDigit(base: nat, body: string, byteSize: nat, k: nat)
    requires KnownBase(base) && k < |Clean(body)| && Digit(Clean(body)[k]) >= base
    requires k > 0 ==> |Clean(body)| <= MaxDigits(base)
    ensures ReadDigits(base, body, byteSize) == Rejected
  {
  }

  lemma TooManyDigits(base: nat, body: string, byteSize: nat)
    requires KnownBase(base) && |Clean(body)| > MaxDigits(base) && Digit(Clean(body)[0]) < base
    ensures ReadDigits(base, body, byteSize) == Undefined
  {
  }

  lemma GoodDigits(base: nat, body: string, byteSize: nat)
    requires KnownBase(base) && AllDigits(base, Clean(body))
    requires Clean(body) == [] || |Clean(body)| <= MaxDigits(base)
    ensures ReadDigits(base, body, byteSize) == Accepted(Wrap(Horner(base, Clean(body))), byteSize)
  {
  }

  lemma StartValue(base: nat, n: nat)
    ensures Wrap(Horner(base, []) * Power(base, n)) == 0
  {
  }

  lemma LastPower(base: nat, ds: string)
    ensures Horner(base, ds) * Power(base, 0) == Horner(base, ds)
  {
  }

  /** How one more character shows in the cleaned text. */
  lemma NextClean(body: string, j: nat)
    requires j < |body|
    ensures body[j] == '_' ==> Clean(body[..j + 1]) == Clean(body[..j])
    ensures body[j] != '_' ==>
      var k := |Clean(body[..j])|;
      && Clean(body[..j + 1]) == Clean(body[..j]) + [body[j]]
      && k < |Clean(body)| && Clean(body)[k] == body[j] && Clean(body)[..k] == Clean(body[..j])
  {
    assert body[..j + 1][..j] == body[..j];
    CleanConcat(body[..j + 1], body[j + 1..]);
    assert body == body[..j + 1] + body[j + 1..];
  }

  method ParseInt(base: nat, text: string) returns (r: Literal)
    requires KnownBase(base)
    ensures r == Meaning(base, text)
  {
    var s := SkipZeros(WithoutPrefix(base, text));
    var underscores := CountUnderscores(s);
    var suffix := Suffix(s);
    if suffix.None? {
      return Rejected;
    }
    SuffixClean(s);
    r := SumDigits(base, suffix.value.0, suffix.value.1, underscores);
  }

  // ----- every word can be written -----

  function DigitChar(d: nat): (c: char)
    requires d < 16
    ensures Digit(c) == d && c != '_' && (c == '0' <==> d == 0)
  {
    "0123456789abcdef"[d]
  }

  /** The significant digits of a number; none for zero. */
  function Digits(base: nat, n: nat): (s: string)
    requires KnownBase(base)
    ensures AllDigits(base, s)
    ensures s != [] ==> s[0] != '0'
    ensures n > 0 ==> s != []
  {
    if n == 0 then [] else Digits(base, n / base) + [DigitChar(n % base)]
  }

  lemma {:induction false} HornerOfDigits(base: nat, n: nat)
    requires KnownBase(base)
    ensures Horner(base, Digits(base, n)) == n
    decreases n
  {
    if n > 0 {
      var s := Digits(base, n);
      assert s[..|s|-1] == Digits(base, n / base);
      HornerOfDigits(base, n / base);
    }
  }

  lemma PowerSum(x: nat, m: nat, n: nat)
    ensures Power(x, m + n) == Power(x, m) * Power(x, n)
    decreases m
  {
    if m > 0 {
      PowerSum(x, m - 1, n);
      var a, b := Power(x, m - 1), Power(x, n);
      assert x * (a * b) == (x * a) * b;
    }
  }

  lemma Power16(base: nat)
    requires base in {2, 8, 16}
    ensures Power(base, 16) == match base case 2 => 0x1_0000 case 8 => 0x1_0000_0000_0000
        case _ => 0x1_0000_0000_0000_0000
  {
    PowerSum(base, 8, 8);
    PowerSum(base, 4, 4);
    assert Power(base, 4) == base * (base * (base * (base * 1))) by {
      assert Power(base, 0) == 1;
      assert Power(base, 1) == base * Power(base, 0);
      assert Power(base, 2) == base * Power(base, 1);
      assert Power(base, 3) == base * Power(base, 2);
    }
  }

  lemma Power5(base: nat)
    ensures Power(base, 5) == base * (base * (base * (base * (base * 1))))
  {
    assert Power(base, 1) == base * Power(base, 0);
    assert Power(base, 2) == base * Power(base, 1);
    assert Power(base, 3) == base * Power(base, 2);
  }

  /** The table has a power for every digit a word can need. */
  lemma TableSuffices(base: nat)
    requires KnownBase(base)
    ensures Power(base, MaxDigits(base)) >= WORD_SIZE
  {
    match base
    case 2 =>
      Power16(2);
      PowerSum(2, 16, 16);
      PowerSum(2, 32, 32);
    case 6 =>
      Power5(6);
      PowerSum(6, 5, 5);
      PowerSum(6, 10, 10);
      PowerSum(6, 20, 5);
    case 8 =>
      Power16(8);
      Power5(8);
      PowerSum(8, 5, 1);
      PowerSum(8, 16, 6);
      assert Power(8, 1) == 8 * Power(8, 0);
    case 10 =>
      Power5(10);
      PowerSum(10, 5, 5);
      PowerSum(10, 10, 10);
    case _ => Power16(16);
  }

  predicate IsLead(s: string) {
    forall k :: 0 <= k < |s| ==> s[k] == '0' || s[k] == '_'
  }

  const TYPE_SUFFIXES: map<string, nat> := map["" := 0, "i8" := 1, "u8" := 1, "i16" := 2, "u16" := 2, "i32" := 4,
      "u32" := 4, "i64" := 8, "u64" := 8]

  lemma {:induction false} StripLead(lead: string, rest: string)
    requires IsLead(lead) && (rest == [] || (rest[0] != '0' && rest[0] != '_'))
    ensures Strip(lead + rest) == rest
    decreases |lead|
  {
    if lead == [] {
      assert lead + rest == rest;
    } else {
      assert (lead + rest)[1..] == lead[1..] + rest;
      StripLead(lead[1..], rest);
    }
  }

  lemma SuffixFound(body: string, suffix: string)
    requires suffix in TYPE_SUFFIXES
    requires forall k :: 0 <= k < |body| ==> body[k] != 'i' && body[k] != 'u'
    ensures Suffix(body + suffix) == Some((body, TYPE_SUFFIXES[suffix]))
  {
    var s, n := body + suffix, |body + suffix|;
    assert s[..|body|] == body;
    if |suffix| == 0 {
      assert s == body;
    } else if |suffix| == 2 {
      assert s[n-2] == suffix[0] && s[n-1] == suffix[1];
    } else {
      assert s[n-2..] == suffix[1..];
      assert s[n-3] == suffix[0] && s[n-2] == suffix[1];
      assert suffix[1..] == [suffix[1], suffix[2]];
    }
  }

  lemma SuffixStart(suffix: string)
    requires suffix in TYPE_SUFFIXES && suffix != []
    ensures suffix[0] == 'i' || suffix[0] == 'u'
  {
  }
}
