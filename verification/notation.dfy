/**
 How numbers are written in Stacky source, by itself, and that the lexer reads exactly what is written so: a prefix
 for the base, digits of either case with underscores anywhere, and a type suffix.
 */
module Notation {
  import opened Wrappers
  import opened Words
  import opened Literals

  // ----- notation -----

  predicate Shows(c: char, d: nat) {
    d < 16 && (c == "0123456789abcdef"[d] || c == "0123456789ABCDEF"[d])
  }

  /** The digits of `body`, underscores left out, denote `n`. */
  ghost predicate Denotes(base: nat, body: string, n: nat)
    decreases |body|
  {
    if body == [] then n == 0
    else
      var init, c := body[..|body|-1], body[|body|-1];
      if c == '_' then Denotes(base, init, n)
      else exists d, m :: NextDigit(base, c, d, m, n) && Denotes(base, init, m)
  }

  predicate NextDigit(base: nat, c: char, d: nat, m: nat, n: nat) {
    d < base && Shows(c, d) && n == m * base + d
  }

  const PREFIXES: map<nat, string> := map[2 := "0b", 6 := "0s", 8 := "0o", 10 := "", 16 := "0x"]

  /** How many digits the lexer has powers for. */
  const DIGITS: map<nat, nat> := map[2 := 64, 6 := 25, 8 := 22, 10 := 20, 16 := 16]

  const SIZES: map<string, nat> := map["" := 0, "i8" := 1, "u8" := 1, "i16" := 2, "u16" := 2, "i32" := 4, "u32" := 4,
    "i64" := 8, "u64" := 8]

  function ToThe(x: nat, n: nat): nat {
    if n == 0 then 1 else x * ToThe(x, n - 1)
  }

  /** `text` writes the number `n` with a suffix that states `size` bytes. */
  ghost predicate Written(base: nat, text: string, body: string, suffix: string, n: nat, size: nat) {
    && base in PREFIXES && suffix in SIZES && SIZES[suffix] == size
    && text == PREFIXES[base] + body + suffix && Denotes(base, body, n)
  }

  // ----- digits -----

  lemma ShownDigit(c: char, d: nat)
    requires d < 16
    ensures Shows(c, d) <==> Digit(c) == d
  {
    if '0' <= c <= '9' {
      assert "0123456789abcdef"[(c - '0') as int] == c;
    } else if 'a' <= c <= 'f' {
      assert "0123456789abcdef"[(c - 'a') as int + 10] == c;
    } else if 'A' <= c <= 'F' {
      assert "0123456789ABCDEF"[(c - 'A') as int + 10] == c;
    }
  }

  /** The number denoted is what the lexer's digits add up to. */
  lemma {:induction false} DenotesExactly(base: nat, body: string, n: nat)
    requires KnownBase(base)
    ensures Denotes(base, body, n) <==> AllDigits(base, Clean(body)) && n == Horner(base, Clean(body))
    decreases |body|
  {
    hide Digit;
    hide Shows;
    if body != [] {
      var init, c := body[..|body|-1], body[|body|-1];
      if c == '_' {
        DenotesExactly(base, init, n);
      } else {
        var ds := Clean(init);
        assert Clean(body) == ds + [c] && (ds + [c])[..|ds|] == ds;
        if d, m :| NextDigit(base, c, d, m, n) && Denotes(base, init, m) {
          DenotesExactly(base, init, m);
          ShownDigit(c, d);
        }
        if AllDigits(base, ds + [c]) && n == Horner(base, ds + [c]) {
          var d, m := Digit(c), Horner(base, ds);
          assert (ds + [c])[|ds|] == c && forall k :: 0 <= k < |ds| ==> (ds + [c])[k] == ds[k];
          ShownDigit(c, d);
          DenotesExactly(base, init, m);
          assert NextDigit(base, c, d, m, n);
        }
      }
    }
  }

  lemma {:induction false} ZerosCount(base: nat, zeros: string, ds: string)
    requires forall k :: 0 <= k < |zeros| ==> zeros[k] == '0'
    ensures Horner(base, zeros + ds) == Horner(base, ds)
    ensures AllDigits(base, zeros + ds) <==> AllDigits(base, ds) && (zeros != [] ==> base > 0)
    decreases |ds|, |zeros|
  {
    var all := zeros + ds;
    assert forall k :: 0 <= k < |zeros| ==> all[k] == '0';
    assert forall k :: 0 <= k < |ds| ==> all[|zeros| + k] == ds[k];
    if ds == [] {
      assert all == zeros;
      if zeros != [] {
        var n := |zeros| - 1;
        ZerosCount(base, zeros[..n], []);
        assert zeros[..n] + [] == zeros[..n];
      }
    } else {
      var n := |ds| - 1;
      assert all[..|all|-1] == zeros + ds[..n];
      ZerosCount(base, zeros, ds[..n]);
    }
  }

  lemma {:induction false} CleanLead(lead: string)
    requires IsLead(lead)
    ensures forall k :: 0 <= k < |Clean(lead)| ==> Clean(lead)[k] == '0'
    decreases |lead|
  {
    if lead != [] {
      CleanLead(lead[..|lead|-1]);
    }
  }

  /** Zeros and underscores in front do not change what is denoted. */
  lemma DenotesLead(base: nat, lead: string, body: string, n: nat)
    requires KnownBase(base) && IsLead(lead)
    ensures Denotes(base, lead + body, n) <==> Denotes(base, body, n)
  {
    hide Denotes;
    hide Horner;
    hide AllDigits;
    DenotesExactly(base, lead + body, n);
    DenotesExactly(base, body, n);
    CleanConcat(lead, body);
    CleanLead(lead);
    ZerosCount(base, Clean(lead), Clean(body));
  }

  // ----- how many digits -----

  lemma {:induction false} PowersAgree(x: nat, n: nat)
    ensures Power(x, n) == ToThe(x, n)
    decreases n
  {
    if n > 0 {
      PowersAgree(x, n - 1);
    }
  }

  lemma NextBelow(base: nat, h: nat, p: nat, d: nat)
    requires h < p && d < base
    ensures h * base + d < base * p
  {
    Scale(base, h + 1, p);
    assert base * (h + 1) == h * base + base;
  }

  lemma {:induction false} HornerBelow(base: nat, ds: string)
    requires base > 0 && AllDigits(base, ds)
    ensures Horner(base, ds) < Power(base, |ds|)
    decreases |ds|
  {
    hide Digit;
    if ds != [] {
      var n := |ds| - 1;
      HornerBelow(base, ds[..n]);
      assert Digit(ds[n]) < base;
      NextBelow(base, Horner(base, ds[..n]), Power(base, n), Digit(ds[n]));
    }
  }

  lemma {:induction false} HornerAbove(base: nat, ds: string)
    requires base > 0 && ds != [] && Digit(ds[0]) >= 1
    ensures Horner(base, ds) >= Power(base, |ds| - 1)
    decreases |ds|
  {
    var n := |ds| - 1;
    if n == 0 {
      assert ds[..0] == [];
    } else {
      assert ds[..n][0] == ds[0];
      HornerAbove(base, ds[..n]);
      Scale(base, Power(base, n - 1), Horner(base, ds[..n]));
      assert Horner(base, ds[..n]) * base == base * Horner(base, ds[..n]);
    }
  }

  lemma {:induction false} PowersGrow(base: nat, m: nat, n: nat)
    requires base >= 1 && m <= n
    ensures Power(base, m) <= Power(base, n)
    decreases n
  {
    if m < n {
      PowersGrow(base, m, n - 1);
      Scale(Power(base, n - 1), 1, base);
      assert Power(base, n - 1) * 1 <= Power(base, n - 1) * base;
      assert Power(base, n - 1) * base == base * Power(base, n - 1);
    }
  }

  /** Without leading zeros, as many digits as allowed means a number below that power. */
  lemma DigitsFit(base: nat, ds: string, k: nat)
    requires base >= 2 && AllDigits(base, ds) && (ds != [] ==> Digit(ds[0]) >= 1)
    ensures |ds| <= k <==> Horner(base, ds) < Power(base, k)
  {
    hide Horner;
    hide Power;
    if |ds| <= k {
      HornerBelow(base, ds);
      PowersGrow(base, |ds|, k);
    } else {
      HornerAbove(base, ds);
      PowersGrow(base, k, |ds| - 1);
    }
  }

  // ----- parts -----

  lemma {:induction false} StrippedLead(s: string, k: nat)
    requires k < |s| - |Strip(s)|
    ensures s[k] == '0' || s[k] == '_'
    decreases |s|
  {
    if k > 0 {
      StrippedLead(s[1..], k - 1);
    }
  }

  lemma StripSplits(s: string) returns (lead: string)
    ensures IsLead(lead) && s == lead + Strip(s)
  {
    hide Strip;
    lead := s[..|s| - |Strip(s)|];
    forall k | 0 <= k < |lead|
      ensures lead[k] == '0' || lead[k] == '_'
    {
      StrippedLead(s, k);
    }
  }

  lemma SizesSame()
    ensures TYPE_SUFFIXES == SIZES
  {
    assert TYPE_SUFFIXES.Keys == SIZES.Keys;
  }

  lemma ShortSuffix(c: char)
    requires c == 'i' || c == 'u'
    ensures [c, '8'] in SIZES && SIZES[[c, '8']] == 1
  {
    assert [c, '8'] == "i8" || [c, '8'] == "u8";
  }

  lemma LongSuffix(c: char, tail: string)
    requires (c == 'i' || c == 'u') && (tail == "16" || tail == "32" || tail == "64")
    ensures [c] + tail in SIZES && SIZES[[c] + tail] == if tail == "16" then 2 else if tail == "32" then 4 else 8
  {
    assert [c] + tail == [c, tail[0], tail[1]];
    if c == 'i' {
      assert [c] + tail == "i16" || [c] + tail == "i32" || [c] + tail == "i64";
    } else {
      assert [c] + tail == "u16" || [c] + tail == "u32" || [c] + tail == "u64";
    }
  }

  /** What is recognised as a suffix is one of the table. */
  lemma SuffixParts(s: string) returns (suffix: string)
    requires Suffix(s).Some?
    ensures suffix in SIZES && s == Suffix(s).value.0 + suffix && SIZES[suffix] == Suffix(s).value.1
  {
    var n := |s|;
    if n >= 2 && (s[n-2] == 'i' || s[n-2] == 'u') {
      suffix := [s[n-2], '8'];
      ShortSuffix(s[n-2]);
      assert s == s[..n-2] + suffix;
    } else if n >= 3 && (s[n-3] == 'i' || s[n-3] == 'u') {
      suffix := [s[n-3]] + s[n-2..];
      LongSuffix(s[n-3], s[n-2..]);
      assert s == s[..n-3] + suffix;
    } else {
      suffix := "";
      assert s == s + suffix;
    }
  }

  lemma DigitsTable(base: nat)
    requires KnownBase(base)
    ensures base in DIGITS && DIGITS[base] == MaxDigits(base)
  {
  }

  // ----- what the lexer reads -----

  /** The digits left when the zeros in front are gone. */
  lemma ReadExactly(base: nat, body: string, size: nat, n: nat)
    requires KnownBase(base) && (body == [] || (body[0] != '0' && body[0] != '_')) && Denotes(base, body, n)
    ensures ReadDigits(base, body, size) ==
      if n < ToThe(base, DIGITS[base]) then Accepted(Wrap(n), size) else Undefined
  {
    hide Denotes;
    hide Horner;
    hide Wrap;
    hide Digit;
    hide Power;
    hide ToThe;
    hide Clean;
    hide MaxDigits;
    DenotesExactly(base, body, n);
    DigitsTable(base);
    PowersAgree(base, MaxDigits(base));
    var ds := Clean(body);
    if ds != [] {
      FirstDigit(body);
      assert ds[0] == body[0] && Digit(ds[0]) < base;
      ShownDigit(ds[0], 0);
      ZeroShown(ds[0]);
    }
    DigitsFit(base, ds, MaxDigits(base));
  }

  lemma ZeroShown(c: char)
    ensures Shows(c, 0) <==> c == '0'
  {
  }

  lemma FirstDigit(body: string)
    requires body != [] && body[0] != '_'
    ensures Clean(body) != [] && Clean(body)[0] == body[0]
  {
    CleanConcat(body[..1], body[1..]);
    assert body == body[..1] + body[1..] && body[..1] == [body[0]];
    assert Clean([body[0]]) == [] + [body[0]] by {
      assert [body[0]][..0] == [];
    }
  }

  lemma NoSuffixLetter(base: nat, body: string, n: nat, k: nat)
    requires KnownBase(base) && Denotes(base, body, n) && k < |body|
    ensures body[k] != 'i' && body[k] != 'u'
  {
    hide Denotes;
    hide Clean;
    DenotesExactly(base, body, n);
    NextClean(body, k);
    if body[k] != '_' {
      var j := |Clean(body[..k])|;
      assert Digit(Clean(body)[j]) < base;
    }
  }

  lemma StripBoth(lead: string, body: string, suffix: string)
    requires IsLead(lead) && suffix in SIZES && (body == [] || (body[0] != '0' && body[0] != '_'))
    ensures Strip(lead + body + suffix) == body + suffix
  {
    hide Strip;
    SizesSame();
    if body == [] && suffix != [] {
      SuffixStart(suffix);
    }
    assert lead + body + suffix == lead + (body + suffix);
    StripLead(lead, body + suffix);
  }

  /** What stands behind the prefix is read as the number it denotes, modulo 2^64, if the table has powers for it. */
  lemma BodyRead(base: nat, text: string, body: string, suffix: string, n: nat)
    requires KnownBase(base) && suffix in SIZES && Denotes(base, body, n) && text == body + suffix
    ensures Suffix(Strip(text)).Some?
    ensures ReadDigits(base, Suffix(Strip(text)).value.0, Suffix(Strip(text)).value.1)
         == if n < ToThe(base, DIGITS[base]) then Accepted(Wrap(n), SIZES[suffix]) else Undefined
  {
    hide Denotes;
    hide Strip;
    hide Suffix;
    hide ReadDigits;
    hide Wrap;
    var lead := StripSplits(body);
    var rest := Strip(body);
    DenotesLead(base, lead, rest, n);
    assert lead + rest + suffix == text;
    StripBoth(lead, rest, suffix);
    SizesSame();
    forall k | 0 <= k < |rest|
      ensures rest[k] != 'i' && rest[k] != 'u'
    {
      NoSuffixLetter(base, rest, n, k);
    }
    SuffixFound(rest, suffix);
    ReadExactly(base, rest, SIZES[suffix], n);
  }

  /** Whatever is read was written. */
  lemma ReadWasWritten(base: nat, text: string) returns (body: string, suffix: string, n: nat)
    requires KnownBase(base) && Suffix(Strip(text)).Some?
    requires ReadDigits(base, Suffix(Strip(text)).value.0, Suffix(Strip(text)).value.1).Accepted?
    ensures suffix in SIZES && text == body + suffix && Denotes(base, body, n)
  {
    hide Denotes;
    hide Strip;
    hide Suffix;
    hide Horner;
    var s := Strip(text);
    var lead := StripSplits(text);
    suffix := SuffixParts(s);
    var rest := Suffix(s).value.0;
    body, n := lead + rest, Horner(base, Clean(rest));
    DenotesExactly(base, rest, n);
    DenotesLead(base, lead, rest, n);
    assert body + suffix == lead + (rest + suffix);
  }

  // ----- the lexer's choice of base -----

  function BaseOf(text: string): nat {
    if |text| >= 2 && text[0] == '0' then
      match text[1]
      case 'b' => 2
      case 's' => 6
      case 'o' => 8
      case 'x' => 16
      case _ => 10
    else 10
  }

  function LexedAs(text: string): Literal {
    var first := if BaseOf(text) != 10 then Meaning(BaseOf(text), text) else Rejected;
    if first == Rejected then Meaning(10, text) else first
  }

  /** A number that the lexer has powers for, and the word it stands for. */
  ghost predicate Reads(base: nat, text: string, body: string, suffix: string, n: nat, v: Word, size: nat) {
    && Written(base, text, body, suffix, n, size)
    && n < ToThe(base, DIGITS[base]) && v == n % 0x1_0000_0000_0000_0000
  }

  ghost predicate IsNumber(text: string, v: Word, size: nat) {
    exists base, body, suffix, n :: Reads(base, text, body, suffix, n, v, size)
  }

  lemma PrefixFound(base: nat, rest: string)
    requires base in PREFIXES && base != 10
    ensures var text := PREFIXES[base] + rest;
      BaseOf(text) == base && WithoutPrefix(base, text) == rest && KnownBase(base)
  {
    var text := PREFIXES[base] + rest;
    assert text[0] == PREFIXES[base][0] && text[1] == PREFIXES[base][1] && text[2..] == rest;
  }

  /** A decimal number does not look like one with a prefix. */
  lemma NoPrefix(body: string, suffix: string, n: nat)
    requires Denotes(10, body, n) && suffix in SIZES
    ensures BaseOf(body + suffix) == 10
  {
    hide Denotes;
    hide Clean;
    var text := body + suffix;
    if |text| >= 2 && text[0] == '0' {
      if |body| >= 2 {
        assert text[1] == body[1];
        DenotesExactly(10, body, n);
        NextClean(body, 1);
        if body[1] != '_' {
          var j := |Clean(body[..1])|;
          assert Digit(Clean(body)[j]) < 10;
        }
      } else {
        SizesSame();
        SuffixStart(suffix);
        assert text[|body|] == suffix[0];
      }
    }
  }

  lemma WrittenIsRead(base: nat, text: string, body: string, suffix: string, n: nat, v: Word, size: nat)
    requires Reads(base, text, body, suffix, n, v, size)
    ensures LexedAs(text) == Accepted(v, size)
  {
    hide Denotes;
    hide Strip;
    hide Suffix;
    hide ReadDigits;
    hide BaseOf;
    assert text == PREFIXES[base] + (body + suffix);
    BodyRead(base, body + suffix, body, suffix, n);
    if base == 10 {
      assert text == body + suffix;
      NoPrefix(body, suffix, n);
    } else {
      PrefixFound(base, body + suffix);
    }
  }

  lemma PrefixThere(text: string)
    requires BaseOf(text) != 10
    ensures BaseOf(text) in PREFIXES && text == PREFIXES[BaseOf(text)] + text[2..]
    ensures KnownBase(BaseOf(text)) && WithoutPrefix(BaseOf(text), text) == text[2..]
  {
    assert text == [text[0], text[1]] + text[2..];
  }

  lemma BaseKnown(text: string)
    ensures KnownBase(BaseOf(text))
  {
  }

  lemma ReadInBase(base: nat, text: string, rest: string, v: Word, size: nat)
    requires base in PREFIXES && KnownBase(base) && text == PREFIXES[base] + rest && Suffix(Strip(rest)).Some?
    requires ReadDigits(base, Suffix(Strip(rest)).value.0, Suffix(Strip(rest)).value.1) == Accepted(v, size)
    ensures IsNumber(text, v, size)
  {
    hide Denotes;
    hide Strip;
    hide Suffix;
    hide ReadDigits;
    hide ToThe;
    var body, suffix, n := ReadWasWritten(base, rest);
    BodyRead(base, rest, body, suffix, n);
    assert text == PREFIXES[base] + body + suffix;
    assert Reads(base, text, body, suffix, n, v, size);
  }

  lemma ReadIsWritten(text: string, v: Word, size: nat)
    requires LexedAs(text) == Accepted(v, size)
    ensures IsNumber(text, v, size)
  {
    hide Strip;
    hide Suffix;
    hide ReadDigits;
    hide BaseOf;
    hide IsNumber;
    var base := BaseOf(text);
    BaseKnown(text);
    if base != 10 && Meaning(base, text) != Rejected {
      PrefixThere(text);
      ReadInBase(base, text, text[2..], v, size);
    } else {
      assert text == PREFIXES[10] + text;
      ReadInBase(10, text, text, v, size);
    }
  }

  /**
   `lex`, where a token may be a number: read as `v` with `size` bytes if and only if the text writes a number, in one
   of the bases and with as many digits as the base allows, that is `v` modulo 2^64.
   */
  method LexInteger(text: string) returns (r: Literal)
    ensures forall v, size :: r == Accepted(v, size) <==> IsNumber(text, v, size)
  {
    hide Meaning;
    hide Reads;
    var base := BaseOf(text);
    r := Rejected;
    if base != 10 {
      r := ParseInt(base, text);
    }
    if r == Rejected {
      r := ParseInt(10, text);
    }
    assert r == LexedAs(text);
    forall v, size
      ensures r == Accepted(v, size) <==> IsNumber(text, v, size)
    {
      LexedExactly(text, v, size);
    }
  }

  lemma LexedExactly(text: string, v: Word, size: nat)
    ensures LexedAs(text) == Accepted(v, size) <==> IsNumber(text, v, size)
  {
    hide Meaning;
    hide Reads;
    if LexedAs(text) == Accepted(v, size) {
      ReadIsWritten(text, v, size);
    }
    if base, body, suffix, n :| Reads(base, text, body, suffix, n, v, size) {
      WrittenIsRead(base, text, body, suffix, n, v, size);
    }
  }

  // ----- every word can be written -----

  /** Every word has digits in every base. */
  lemma EveryWordWritten(base: nat, n: nat)
    requires KnownBase(base)
    ensures Denotes(base, Digits(base, n), n)
  {
    hide Denotes;
    HornerOfDigits(base, n);
    PlainDigits(base, n);
    FlatClean(Digits(base, n));
    DenotesExactly(base, Digits(base, n), n);
  }

  lemma {:induction false} PlainDigits(base: nat, n: nat)
    requires KnownBase(base)
    ensures forall k :: 0 <= k < |Digits(base, n)| ==> Digits(base, n)[k] != '_'
    decreases n
  {
    if n > 0 {
      PlainDigits(base, n / base);
    }
  }

  /**
   Every word, written in any of the bases, with digits of either case, with zeros in front, underscores and a type
   suffix, is read back as that word.
   */
  lemma LiteralRoundTrip(base: nat, n: Word, body: string, suffix: string)
    requires base in PREFIXES && suffix in SIZES && Denotes(base, body, n)
    ensures LexedAs(PREFIXES[base] + body + suffix) == Accepted(n, SIZES[suffix])
  {
    hide Denotes;
    hide LexedAs;
    hide ToThe;
    hide Power;
    assert KnownBase(base);
    TableSuffices(base);
    DigitsTable(base);
    PowersAgree(base, MaxDigits(base));
    WrittenIsRead(base, PREFIXES[base] + body + suffix, body, suffix, n, n, SIZES[suffix]);
  }

  // ----- numbers too large -----

  /** Base 2 and 16 stop at the largest word; the others read larger numbers and wrap, as this one does. */
  lemma TooLargeWraps()
    ensures IsNumber("99999999999999999999", 0x6BC7_5E2D_630F_FFFF, 0)
    ensures ToThe(2, DIGITS[2]) == ToThe(16, DIGITS[16]) == 0x1_0000_0000_0000_0000
  {
    NinesDenote();
    PowerTable();
    var text := "99999999999999999999";
    assert text == PREFIXES[10] + text + "";
    assert Reads(10, text, text, "", 99999999999999999999, 0x6BC7_5E2D_630F_FFFF, 0);
  }

  lemma PowerTable()
    ensures ToThe(2, 64) == ToThe(16, 16) == 0x1_0000_0000_0000_0000 && ToThe(10, 20) == 100_000_000_000_000_000_000
  {
    hide Power;
    hide ToThe;
    PowersAgree(2, 64);
    Power16(2);
    PowerSum(2, 16, 16);
    PowerSum(2, 32, 32);
    PowersAgree(16, 16);
    Power16(16);
    PowersAgree(10, 20);
    Power5(10);
    PowerSum(10, 5, 5);
    PowerSum(10, 10, 10);
  }

  function Nines(k: nat): (s: string)
    ensures |s| == k && forall i :: 0 <= i < k ==> s[i] == '9'
  {
    seq(k, i requires 0 <= i < k => '9')
  }

  lemma {:induction false} NinesDenoted(k: nat)
    ensures ToThe(10, k) >= 1 && Denotes(10, Nines(k), ToThe(10, k) - 1)
  {
    if k > 0 {
      NinesDenoted(k - 1);
      var s := Nines(k);
      assert s[..|s|-1] == Nines(k - 1);
      assert NextDigit(10, '9', 9, ToThe(10, k - 1) - 1, ToThe(10, k) - 1);
    }
  }

  lemma NinesDenote()
    ensures Denotes(10, "99999999999999999999", 99999999999999999999)
  {
    hide Denotes;
    hide ToThe;
    NinesDenoted(20);
    PowerTable();
    assert Nines(20) == "99999999999999999999";
  }
}
