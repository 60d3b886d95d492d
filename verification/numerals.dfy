/** Python's `str(n)` for an integer and `int(s)` for a base-10 string:
    the rating store writes the first and reads with the second. */
module Numerals {
  import opened Wrappers
  import opened Text

  predicate IsDigit(c: char) {
    '0' <= c <= '9'
  }

  function DigitChar(d: nat): (c: char)
    requires d < 10
    ensures IsDigit(c)
  {
    ('0' as int + d) as char
  }

  function DigitValue(c: char): (d: nat)
    requires IsDigit(c)
    ensures d < 10 && DigitChar(d) == c
  {
    c as int - '0' as int
  }

  /** The decimal digits of `n`, most significant first, without leading zeros. */
  function NatToString(n: nat): (s: string)
    ensures |s| >= 1 && (forall i :: 0 <= i < |s| ==> IsDigit(s[i]))
    decreases n
  {
    if n < 10 then [DigitChar(n)] else NatToString(n / 10) + [DigitChar(n % 10)]
  }

  /** `str(n)`. */
  function IntToString(n: int): (s: string)
    ensures |s| >= 1 && IsDigit(s[|s| - 1])
    ensures s[0] == '-' || IsDigit(s[0])
    ensures forall i :: 0 <= i < |s| ==> s[i] == '-' || IsDigit(s[i])
  {
    if n < 0 then "-" + NatToString(-n) else NatToString(n)
  }

  /** The number a run of decimal digits spells. */
  function DigitsValue(s: string): nat
    requires forall i :: 0 <= i < |s| ==> IsDigit(s[i])
    decreases |s|
  {
    if |s| == 0 then 0 else DigitsValue(s[..|s| - 1]) * 10 + DigitValue(s[|s| - 1])
  }

  /** Digits with single underscores between them, as `int()` accepts. */
  predicate DigitGroups(s: string) {
    && |s| >= 1 && IsDigit(s[0]) && IsDigit(s[|s| - 1])
    && (forall i :: 0 <= i < |s| ==> IsDigit(s[i]) || s[i] == '_')
    && (forall i :: 0 <= i < |s| - 1 ==> !(s[i] == '_' && s[i + 1] == '_'))
  }

  function WithoutUnderscores(s: string): (r: string)
    ensures forall i :: 0 <= i < |r| ==> r[i] != '_'
    ensures (forall i :: 0 <= i < |s| ==> IsDigit(s[i]) || s[i] == '_') ==>
              (forall i :: 0 <= i < |r| ==> IsDigit(r[i]))
    ensures (forall i :: 0 <= i < |s| ==> s[i] != '_') ==> r == s
    decreases |s|
  {
    if |s| == 0 then ""
    else if s[0] == '_' then WithoutUnderscores(s[1..])
    else [s[0]] + WithoutUnderscores(s[1..])
  }

  /** `int(s)`: surrounding whitespace, an optional sign, then ASCII digit
      groups; anything else raises ValueError, here `None`. */
  function ParseInt(s: string): (r: Option<int>)
    ensures r.Some? ==> Strip(s) != []
  {
    ParseSigned(Strip(s))
  }

  /** `int` on the text without surrounding whitespace. */
  function ParseSigned(t: string): (r: Option<int>)
    ensures r.Some? ==> t != []
  {
    if |t| == 0 then None
    else
      var negative := t[0] == '-';
      var body := if t[0] == '-' || t[0] == '+' then t[1..] else t;
      if !DigitGroups(body) then None
      else
        var n: int := DigitsValue(WithoutUnderscores(body));
        Some(if negative then -n else n)
  }

  lemma {:induction false} DigitsOfNat(n: nat)
    ensures DigitsValue(NatToString(n)) == n
    decreases n
  {
    var s := NatToString(n);
    if n < 10 {
      assert s[..0] == [];
    } else {
      var init := NatToString(n / 10);
      DigitsOfNat(n / 10);
      assert s == init + [DigitChar(n % 10)];
      assert s[..|s| - 1] == init;
      assert DigitValue(s[|s| - 1]) == n % 10;
    }
  }

  /** Reading back what `str` wrote, with trailing whitespace such as the
      line's "\n", gives the number again. */
  lemma IntRoundTrip(n: int, tail: string)
    requires forall i :: 0 <= i < |tail| ==> IsSpace(tail[i])
    ensures ParseInt(IntToString(n) + tail) == Some(n)
  {
    var s := IntToString(n);
    IntToStringStripped(n);
    StripTrailing(s, tail);
    if n < 0 {
      NegativeRoundTrip(n);
    } else {
      NatRoundTrip(n);
    }
  }

  lemma IntToStringStripped(n: int)
    ensures var s := IntToString(n); !IsSpace(s[0]) && !IsSpace(s[|s| - 1])
  {
  }

  lemma DigitsAreGroups(s: string)
    requires |s| >= 1 && forall i :: 0 <= i < |s| ==> IsDigit(s[i])
    ensures DigitGroups(s)
  {
  }

  lemma DigitsPlain(s: string)
    requires |s| >= 1 && forall i :: 0 <= i < |s| ==> IsDigit(s[i])
    ensures DigitGroups(s) && WithoutUnderscores(s) == s
  {
    DigitsAreGroups(s);
  }

  lemma NatRoundTrip(n: nat)
    ensures ParseSigned(IntToString(n)) == Some(n)
  {
    var s := NatToString(n);
    DigitsPlain(s);
    DigitsOfNat(n);
    assert s[0] != '-' && s[0] != '+';
  }

  lemma NegativeRoundTrip(n: int)
    requires n < 0
    ensures ParseSigned(IntToString(n)) == Some(n)
  {
    var m: nat := -n;
    var digits := NatToString(m);
    assert IntToString(n) == "-" + digits;
    assert IntToString(m) == digits;
    NatRoundTrip(m);
    SignedParse(digits);
  }

  /** A leading sign applies to the unsigned number after it: `-x` parses
      to the negation of `x`, `+x` to `x`, and a sign on its own, or a
      second sign, is a ValueError. */
  lemma SignedParse(b: string)
    ensures ParseSigned("-" + b) == if b != [] && (b[0] == '-' || b[0] == '+') then None
      else if ParseSigned(b).Some? then Some(-ParseSigned(b).value) else None
    ensures ParseSigned("+" + b) == if b != [] && (b[0] == '-' || b[0] == '+') then None else ParseSigned(b)
  {
    assert ("-" + b)[1..] == b && ("+" + b)[1..] == b;
  }

  /** Underscores between digit groups do not change the number. */
  lemma UnderscoresIgnored(b: string)
    requires DigitGroups(b)
    ensures ParseSigned(b) == ParseSigned(WithoutUnderscores(b)) && ParseSigned(b).Some?
  {
    var d := WithoutUnderscores(b);
    assert d == [b[0]] + WithoutUnderscores(b[1..]);
    DigitsPlain(d);
  }

  /** `int()` raises ValueError on a bare sign, a doubled sign, and an
      underscore that does not sit between two digits. */
  lemma ParseSignedRejects()
    ensures ParseSigned("-") == None && ParseSigned("--1") == None
    ensures ParseSigned("-_1") == None && ParseSigned("1__0") == None && ParseSigned("1_") == None
  {
    assert "-"[1..] == [] && "--1"[1..] == "-1" && "-_1"[1..] == "_1";
    assert "1__0"[1] == '_' && "1__0"[2] == '_';
  }
}
