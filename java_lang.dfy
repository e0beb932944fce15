/**
  The few pieces of the Java platform that the queue and run containers rely on:
  32-bit `int` arithmetic, `Long.toString` and `String.equalsIgnoreCase`.
 */
module JavaLang {

  /** Java's `int`. */
  newtype int32 = x: int | -0x8000_0000 <= x < 0x8000_0000

  const INT_MAX: int := 0x7fff_ffff

  /** The `int` that Java's two's-complement addition yields for the mathematical value `x`. */
  function WrapInt32(x: int): (r: int32)
    ensures -0x8000_0000 <= x <= INT_MAX ==> r as int == x
    ensures (x - r as int) % 0x1_0000_0000 == 0
  {
    var m := (x + 0x8000_0000) % 0x1_0000_0000;
    assert x - (m - 0x8000_0000) == 0x1_0000_0000 * ((x + 0x8000_0000) / 0x1_0000_0000);
    (m - 0x8000_0000) as int32
  }

  predicate IsDigit(c: char) { '0' <= c <= '9' }

  function DigitChar(d: nat): (c: char)
    requires d < 10
    ensures IsDigit(c)
  {
    ('0' as int + d) as char
  }

  /** The decimal digits of `n`, most significant first, without leading zeros. */
  function Digits(n: nat): (s: string)
    ensures |s| >= 1
    ensures |s| == 1 <==> n < 10
    ensures forall i :: 0 <= i < |s| ==> IsDigit(s[i])
    ensures s[0] == '0' ==> n == 0
    decreases n
  {
    if n < 10 then [DigitChar(n)] else Digits(n / 10) + [DigitChar(n % 10)]
  }

  /** `Long.toString(n)`: an optional minus sign followed by the decimal digits. */
  function LongToString(n: int): (s: string)
    ensures |s| >= 1
    ensures forall i :: 0 <= i < |s| ==> IsDigit(s[i]) || (i == 0 && s[i] == '-')
    ensures s[0] == '-' <==> n < 0
    ensures n < 0 ==> |s| >= 2
    ensures s[if n < 0 then 1 else 0] == '0' ==> s == "0"
  {
    if n < 0 then "-" + Digits(-n) else Digits(n)
  }

  /** Two concrete values: no padding, and a minus sign only for negative numbers. */
  lemma ExampleLongToString()
    ensures LongToString(42) == "42"
    ensures LongToString(-7) == "-7"
    ensures LongToString(0) == "0"
  {
    assert Digits(4) == "4";
    assert Digits(42) == Digits(4) + [DigitChar(2)];
  }

  /** The value of a string of decimal digits, read most significant first. */
  function DigitsValue(s: string): (v: int)
    requires forall i :: 0 <= i < |s| ==> IsDigit(s[i])
  {
    if s == [] then 0 else 10 * DigitsValue(s[..|s| - 1]) + (s[|s| - 1] as int - '0' as int)
  }

  /** The number a `Long.toString` form denotes: an optional minus sign, then decimal digits. */
  function DecimalValue(s: string): (v: int)
    requires |s| >= 1
    requires forall i :: 0 <= i < |s| ==> IsDigit(s[i]) || (i == 0 && s[i] == '-')
  {
    if s[0] == '-' then -DigitsValue(s[1..]) else DigitsValue(s)
  }

  lemma {:induction false} DigitsRoundTrip(n: nat)
    ensures DigitsValue(Digits(n)) == n
    decreases n
  {
    var s := Digits(n);
    if n >= 10 {
      assert s[..|s| - 1] == Digits(n / 10);
      DigitsRoundTrip(n / 10);
    }
  }

  /** `Long.toString(n)` reads back as `n`: it is the decimal representation of `n`. */
  lemma LongToStringRoundTrip(n: int)
    ensures DecimalValue(LongToString(n)) == n
  {
    var s := LongToString(n);
    if n < 0 {
      assert s[1..] == Digits(-n);
      DigitsRoundTrip(-n);
    } else {
      DigitsRoundTrip(n);
    }
  }

  /** Two queue ids with the same decimal form are the same id. */
  lemma LongToStringInjective(a: int, b: int)
    requires LongToString(a) == LongToString(b)
    ensures a == b
  {
    LongToStringRoundTrip(a);
    LongToStringRoundTrip(b);
  }

  predicate IsAsciiLetter(c: char) { 'a' <= c <= 'z' || 'A' <= c <= 'Z' }

  /** `Character.toUpperCase` on the ASCII range; every other character maps to itself. */
  function ToUpperCase(c: char): (u: char)
  {
    if 'a' <= c <= 'z' then (c as int - 32) as char else c
  }

  /** `Character.toLowerCase` on the ASCII range; every other character maps to itself. */
  function ToLowerCase(c: char): (l: char)
  {
    if 'A' <= c <= 'Z' then (c as int + 32) as char else c
  }

  /** The per-character test of `String.regionMatches(true, ...)`. */
  predicate CharEqualsIgnoreCase(a: char, b: char)
  {
    a == b
    || ToUpperCase(a) == ToUpperCase(b)
    || ToLowerCase(ToUpperCase(a)) == ToLowerCase(ToUpperCase(b))
  }

  /** `s.equalsIgnoreCase(t)` for non-null `s` and `t`. */
  predicate EqualsIgnoreCase(s: string, t: string)
    ensures EqualsIgnoreCase(s, t) ==> |s| == |t|
    ensures s == t ==> EqualsIgnoreCase(s, t)
  {
    |s| == |t| && forall i :: 0 <= i < |s| ==> CharEqualsIgnoreCase(s[i], t[i])
  }

  /** `s` with every ASCII upper-case letter replaced by its lower-case form. */
  function LowerAscii(s: string): (r: string)
    ensures |r| == |s|
  {
    if s == [] then [] else LowerAscii(s[..|s| - 1]) + [ToLowerCase(s[|s| - 1])]
  }

  lemma {:induction false} LowerAsciiIndex(s: string, i: nat)
    requires i < |s|
    ensures LowerAscii(s)[i] == ToLowerCase(s[i])
  {
    if i < |s| - 1 {
      LowerAsciiIndex(s[..|s| - 1], i);
    }
  }

  /**
    `equalsIgnoreCase` holds exactly when both strings agree once lower-cased:
    it ignores case, and nothing else.
   */
  lemma EqualsIgnoreCaseIffSameLowered(s: string, t: string)
    ensures EqualsIgnoreCase(s, t) <==> LowerAscii(s) == LowerAscii(t)
  {
    if |s| == |t| {
      forall i | 0 <= i < |s|
        ensures CharEqualsIgnoreCase(s[i], t[i]) <==> LowerAscii(s)[i] == LowerAscii(t)[i]
      {
        LowerAsciiIndex(s, i);
        LowerAsciiIndex(t, i);
      }
      if LowerAscii(s) == LowerAscii(t) {
        forall i | 0 <= i < |s| ensures CharEqualsIgnoreCase(s[i], t[i]) {
          assert LowerAscii(s)[i] == LowerAscii(t)[i];
        }
      }
    }
  }

  /** Case is ignored ("Abc" matches "aBC"), but other characters are not ("abc" does not match "abd"). */
  lemma ExampleEqualsIgnoreCase()
    ensures EqualsIgnoreCase("Abc", "aBC")
    ensures !EqualsIgnoreCase("abc", "abd")
  {
    assert !CharEqualsIgnoreCase("abc"[2], "abd"[2]);
  }

  predicate HasNoLetters(s: string)
  {
    forall i :: 0 <= i < |s| ==> !IsAsciiLetter(s[i])
  }

  /**
    Ignoring case changes nothing when one side has no letters: against such
    a string `equalsIgnoreCase` is plain equality.
   */
  lemma EqualsIgnoreCaseWithoutLetters(s: string, t: string)
    requires HasNoLetters(t)
    ensures EqualsIgnoreCase(s, t) <==> s == t
  {
    if EqualsIgnoreCase(s, t) {
      forall i | 0 <= i < |s| ensures s[i] == t[i] {
        assert CharEqualsIgnoreCase(s[i], t[i]) && !IsAsciiLetter(t[i]);
      }
    }
  }

  /** Comparing `Long.toString` forms while ignoring case decides whether two ids are equal. */
  lemma IdStringsMatchIgnoringCase(a: int, b: int)
    ensures EqualsIgnoreCase(LongToString(a), LongToString(b)) <==> a == b
  {
    EqualsIgnoreCaseWithoutLetters(LongToString(a), LongToString(b));
    if LongToString(a) == LongToString(b) {
      LongToStringInjective(a, b);
    }
  }
}
