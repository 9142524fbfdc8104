/** Decimal text for integers: `str(n)` as the encoder writes a MIDI number and
    `int(s)` as the decoder reads one back. */
module Numerals {
  import opened Wrappers
  import opened Strings

  predicate IsDigit(c: char) {
    '0' <= c <= '9'
  }

  predicate AllDigits(s: string) {
    forall i :: 0 <= i < |s| ==> IsDigit(s[i])
  }

  function DigitChar(d: nat): (c: char)
    requires d < 10
    ensures IsDigit(c)
  {
    ('0' as int + d) as char
  }

  function DigitValue(c: char): nat
    requires IsDigit(c)
  {
    c as int - '0' as int
  }

  /** The decimal digits of `n`, most significant first, without leading zeros. */
  function NatToString(n: nat): (s: string)
    ensures |s| > 0 && AllDigits(s)
    decreases n
  {
    if n < 10 then [DigitChar(n)] else NatToString(n / 10) + [DigitChar(n % 10)]
  }

  /** `str(n)`: a minus sign for negative numbers, then the decimal digits. */
  function IntToString(n: int): (s: string)
    ensures IsWord(s)
    ensures s != "r" && s != "_" && s != "/"
  {
    if n < 0 then "-" + NatToString(-n) else NatToString(n)
  }

  /** The number a string of decimal digits denotes. */
  function DigitsValue(s: string): nat
    requires AllDigits(s)
    decreases |s|
  {
    if s == [] then 0 else DigitsValue(s[..|s| - 1]) * 10 + DigitValue(s[|s| - 1])
  }

  /** The digits of `s`, dropping the underscores `int()` allows between them. */
  function Digits(s: string): (d: string)
    ensures AllDigits(d)
  {
    if s == [] then [] else (if IsDigit(s[0]) then [s[0]] else []) + Digits(s[1..])
  }

  /** A character of a signed numeral. */
  predicate IsNumeralChar(c: char) {
    IsDigit(c) || c == '_' || c == '+' || c == '-'
  }

  /** Position `i` of a numeral: a digit, or an underscore followed by a digit. */
  predicate NumeralAt(s: string, i: nat)
    requires i < |s|
  {
    IsDigit(s[i]) || (s[i] == '_' && i + 1 < |s| && IsDigit(s[i + 1]))
  }

  /** What `int()` accepts after the sign: digits, single underscores only between two digits. */
  predicate IsNumeral(s: string) {
    && |s| > 0
    && IsDigit(s[0])
    && forall i :: 0 <= i < |s| ==> NumeralAt(s, i)
  }

  /** The whitespace `int()` strips: ASCII space and `\t\n\v\f\r`, and the non-ASCII
      `str.isspace()` characters, which it reads as spaces. The ASCII separators
      U+001C to U+001F, which `str.split()` does split at, are not stripped. */
  predicate IntSpace(c: char) {
    IsSpace(c) && !('\U{1C}' <= c <= '\U{1F}')
  }

  /** `s` without its leading whitespace. */
  function StripStart(s: string): string
    decreases |s|
  {
    if s != [] && IntSpace(s[0]) then StripStart(s[1..]) else s
  }

  /** Stripping the start removes a run of whitespace and nothing else. */
  lemma {:induction false} StripStartShape(s: string)
    ensures var r := StripStart(s);
      && |r| <= |s| && r == s[|s| - |r|..]
      && (forall k :: 0 <= k < |s| - |r| ==> IntSpace(s[k]))
    decreases |s|
  {
    if s != [] && IntSpace(s[0]) {
      StripStartShape(s[1..]);
    }
  }

  /** `s` without its trailing whitespace. */
  function StripEnd(s: string): string
    decreases |s|
  {
    if s != [] && IntSpace(s[|s| - 1]) then StripEnd(s[..|s| - 1]) else s
  }

  /** Stripping the end removes a run of whitespace and nothing else. */
  lemma {:induction false} StripEndShape(s: string)
    ensures var r := StripEnd(s);
      && |r| <= |s| && r == s[..|r|]
      && (forall k :: |r| <= k < |s| ==> IntSpace(s[k]))
    decreases |s|
  {
    if s != [] && IntSpace(s[|s| - 1]) {
      var front := s[..|s| - 1];
      StripEndShape(front);
      var r := StripEnd(front);
      forall k | |r| <= k < |s| ensures IntSpace(s[k]) {
        if k < |s| - 1 {
          assert s[k] == front[k];
        }
      }
    }
  }

  /** `int()` on a string without surrounding whitespace: an optional sign, then a numeral. */
  function ParseStripped(t: string): Option<int> {
    if |t| > 0 && (t[0] == '+' || t[0] == '-') then
      if IsNumeral(t[1..]) then
        var magnitude: int := DigitsValue(Digits(t[1..]));
        Some(if t[0] == '-' then -magnitude else magnitude)
      else None
    else if IsNumeral(t) then Some(DigitsValue(Digits(t)))
    else None
  }

  /** An accepted string is a sign and a numeral, or a numeral: the numeral's position. */
  function NumeralStart(t: string): nat {
    if |t| > 0 && (t[0] == '+' || t[0] == '-') then 1 else 0
  }

  /** A numeral reads as its value, and what is accepted is a numeral after an optional sign. */
  lemma ParseStrippedNumeral(t: string)
    ensures IsNumeral(t) ==> ParseStripped(t) == Some(DigitsValue(Digits(t)))
    ensures ParseStripped(t).Some? ==> NumeralStart(t) <= |t| && IsNumeral(t[NumeralStart(t)..])
  {
  }

  /** An accepted string ends in a digit and holds only sign, digit and underscore characters. */
  lemma ParseStrippedAccepts(t: string)
    ensures ParseStripped(t).Some? ==> |t| > 0 && IsDigit(t[|t| - 1])
    ensures ParseStripped(t).Some? ==> forall k :: 0 <= k < |t| ==> IsNumeralChar(t[k])
  {
    ParseStrippedNumeral(t);
    if ParseStripped(t).Some? {
      var a := NumeralStart(t);
      var u := t[a..];
      forall k | 0 <= k < |t| ensures IsNumeralChar(t[k]) {
        if k >= a {
          assert t[k] == u[k - a];
          assert NumeralAt(u, k - a);
        }
      }
      assert NumeralAt(u, |u| - 1);
      assert t[|t| - 1] == u[|u| - 1];
    }
  }

  /** `int(s)` for a string: surrounding whitespace, an optional sign, then a numeral;
      anything else is a `ValueError`, here `None`. */
  function ParseInt(s: string): Option<int> {
    ParseStripped(StripEnd(StripStart(s)))
  }

  /** A plain numeral reads as its digits' value. */
  lemma ParseNumeral(s: string)
    requires IsNumeral(s)
    ensures ParseInt(s) == Some(DigitsValue(Digits(s)))
  {
    StrippedNumeral(s);
    ParseStrippedNumeral(s);
  }

  /** Which strings `int()` accepts: whatever is accepted holds a digit, and otherwise only
      whitespace, signs and underscores. */
  lemma ParseIntAccepts(s: string)
    requires ParseInt(s).Some?
    ensures exists k :: 0 <= k < |s| && IsDigit(s[k])
    ensures forall k :: 0 <= k < |s| ==> IsNumeralChar(s[k]) || IntSpace(s[k])
  {
    var t := StripEnd(StripStart(s));
    assert ParseStripped(t).Some?;
    ParseStrippedAccepts(t);
    StrippedChars(s);
    StrippedDigit(s);
  }

  /** `int()` does not take the separators U+001C to U+001F for whitespace, so a string
      holding one is a `ValueError` wherever it sits. */
  lemma SeparatorRejected(s: string)
    ensures (exists k :: 0 <= k < |s| && '\U{1C}' <= s[k] <= '\U{1F}') ==> ParseInt(s) == None
  {
    if ParseInt(s).Some? {
      ParseIntAccepts(s);
    }
  }

  /** Stripping leaves a numeral alone. */
  lemma StrippedNumeral(s: string)
    ensures IsNumeral(s) ==> StripEnd(StripStart(s)) == s
  {
    if IsNumeral(s) {
      forall i | 0 <= i < |s| ensures !IsSpace(s[i]) {
        assert NumeralAt(s, i);
      }
      StripWord(s);
    }
  }

  /** The stripped string sits in `s` at the offset of its first non-whitespace character. */
  lemma StrippedWithin(s: string)
    ensures var t := StripEnd(StripStart(s)); var a := |s| - |StripStart(s)|;
      && 0 <= a && a + |t| <= |s|
      && (forall k :: 0 <= k < |t| ==> s[a + k] == t[k])
      && (forall k :: 0 <= k < |s| && !(a <= k < a + |t|) ==> IntSpace(s[k]))
  {
    var u := StripStart(s);
    var t := StripEnd(u);
    var a := |s| - |u|;
    StripStartShape(s);
    StripEndShape(u);
    assert u == s[a..];
    assert t == u[..|t|];
    forall k | 0 <= k < |t| ensures s[a + k] == t[k] {
      assert t[k] == u[k] == s[a + k];
    }
    forall k | 0 <= k < |s| && !(a <= k < a + |t|) ensures IntSpace(s[k]) {
      if k >= a {
        assert u[k - a] == s[k];
        assert |t| <= k - a < |u|;
      }
    }
  }

  /** Stripping only removes whitespace, so the characters `int()` meets are those of `s`. */
  lemma StrippedChars(s: string)
    ensures var t := StripEnd(StripStart(s));
      (forall k :: 0 <= k < |t| ==> IsNumeralChar(t[k])) ==> forall k :: 0 <= k < |s| ==> IsNumeralChar(s[k]) || IntSpace(s[k])
  {
    var t := StripEnd(StripStart(s));
    var a := |s| - |StripStart(s)|;
    StrippedWithin(s);
    if forall k :: 0 <= k < |t| ==> IsNumeralChar(t[k]) {
      forall k | 0 <= k < |s| ensures IsNumeralChar(s[k]) || IntSpace(s[k]) {
        if a <= k < a + |t| {
          assert s[a + (k - a)] == t[k - a];
        }
      }
    }
  }

  /** A digit of the stripped string is a digit of `s`. */
  lemma StrippedDigit(s: string)
    ensures var t := StripEnd(StripStart(s));
      (|t| > 0 && IsDigit(t[|t| - 1])) ==> exists k :: 0 <= k < |s| && IsDigit(s[k])
  {
    var t := StripEnd(StripStart(s));
    var a := |s| - |StripStart(s)|;
    StrippedWithin(s);
    if |t| > 0 && IsDigit(t[|t| - 1]) {
      assert IsDigit(s[a + (|t| - 1)]);
    }
  }

  lemma {:induction false} DigitsOfDigits(s: string)
    requires AllDigits(s)
    ensures Digits(s) == s
    decreases |s|
  {
    if s != [] {
      DigitsOfDigits(s[1..]);
      assert s == [s[0]] + s[1..];
    }
  }

  lemma {:induction false} NatToStringValue(n: nat)
    ensures DigitsValue(NatToString(n)) == n
    decreases n
  {
    if n >= 10 {
      var s := NatToString(n);
      assert s[..|s| - 1] == NatToString(n / 10);
      NatToStringValue(n / 10);
    }
  }

  /** A word has no surrounding whitespace to strip. */
  lemma StripWord(s: string)
    requires IsWord(s)
    ensures StripEnd(StripStart(s)) == s
  {
    assert !IsSpace(s[0]) && !IsSpace(s[|s| - 1]);
  }

  /** The digits `str` writes for a natural number are a numeral denoting it. */
  lemma NaturalNumeral(n: nat)
    ensures IsNumeral(NatToString(n)) && DigitsValue(Digits(NatToString(n))) == n
  {
    DigitsOfDigits(NatToString(n));
    NatToStringValue(n);
  }

  /** Reading back what `str` wrote gives the same integer: `int(str(n)) == n`. */
  lemma ParseIntToString(n: int)
    ensures ParseInt(IntToString(n)) == Some(n)
  {
    var s := IntToString(n);
    StripWord(s);
    if n < 0 {
      NaturalNumeral(-n);
      assert s[1..] == NatToString(-n);
    } else {
      NaturalNumeral(n);
      assert s[0] != '+' && s[0] != '-';
    }
  }
}
