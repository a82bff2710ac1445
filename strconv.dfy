/**
 Decimal rendering of integers, as Go's `strconv.Itoa`, `strconv.FormatInt(n, 10)` and the
 `%d` / `%v` verbs of `fmt` print an `int` or `int64`: an optional minus sign followed by the
 digits of the magnitude, without leading zeros. `ParseInt` accepts exactly these renderings
 and is their inverse.
 */
module Strconv {
  import opened Wrappers

  predicate IsDigit(c: char) {
    '0' <= c <= '9'
  }

  /** The characters a decimal rendering may contain. */
  predicate IsDecimalChar(c: char) {
    c == '-' || IsDigit(c)
  }

  function Digit(d: nat): (c: char)
    requires d < 10
    ensures IsDigit(c)
  {
    ('0' as int + d) as char
  }

  function DigitValue(c: char): (r: Option<nat>)
    ensures r.Some? <==> IsDigit(c)
    ensures r.Some? ==> r.value < 10 && Digit(r.value) == c
  {
    if IsDigit(c) then Some(c as int - '0' as int) else None
  }

  /** The digits of `n`, most significant first. */
  function NatDigits(n: nat): (s: string)
    ensures |s| >= 1
    ensures forall i :: 0 <= i < |s| ==> IsDigit(s[i])
    ensures s[0] == '0' <==> n == 0
    ensures |s| > 1 ==> s[0] != '0'
  {
    if n < 10 then [Digit(n)] else NatDigits(n / 10) + [Digit(n % 10)]
  }

  function FormatInt(n: int): (s: string)
    ensures |s| >= 1
    ensures forall i :: 0 <= i < |s| ==> IsDecimalChar(s[i])
    ensures forall i :: 0 < i < |s| ==> IsDigit(s[i])
    ensures s[0] == '-' <==> n < 0
    ensures s[0] == '0' ==> s == "0"
    ensures n < 0 ==> |s| >= 2 && s[1] != '0'
  {
    if n < 0 then "-" + NatDigits(-n) else NatDigits(n)
  }

  /** The value of a non-empty string of digits, leading zeros accepted. */
  function ParseDigits(s: string): Option<nat>
  {
    if |s| == 0 then None
    else
      match DigitValue(s[|s| - 1])
      case None => None
      case Some(d) =>
        if |s| == 1 then Some(d)
        else
          match ParseDigits(s[..|s| - 1])
          case None => None
          case Some(h) => Some(10 * h + d)
  }

  /** The value of a canonical string of digits: a single `0`, or no leading zero. */
  function ParseNat(s: string): Option<nat>
  {
    if |s| > 1 && s[0] == '0' then None else ParseDigits(s)
  }

  /** The value of a canonical decimal rendering; `-0` is not one. */
  function ParseInt(s: string): Option<int>
  {
    if |s| > 0 && s[0] == '-' then
      match ParseNat(s[1..])
      case None => None
      case Some(n) => if n == 0 then None else Some(-(n as int))
    else ParseNat(s)
  }

  lemma {:induction false} ParseNatDigits(n: nat)
    ensures ParseDigits(NatDigits(n)) == Some(n)
  {
    if n >= 10 {
      var s := NatDigits(n);
      assert s[..|s| - 1] == NatDigits(n / 10);
      ParseNatDigits(n / 10);
    }
  }

  /** A canonical string of digits is the rendering of its value. */
  lemma {:induction false} DigitsCanonical(s: string, n: nat)
    requires ParseDigits(s) == Some(n)
    requires |s| > 1 ==> s[0] != '0'
    ensures s == NatDigits(n)
  {
    var d := DigitValue(s[|s| - 1]).value;
    if |s| > 1 {
      var p := s[..|s| - 1];
      var h := ParseDigits(p).value;
      DigitsCanonical(p, h);
      assert p[0] == s[0];
      assert h != 0;
      assert n / 10 == h && n % 10 == d;
      assert s == p + [s[|s| - 1]];
    }
  }

  /** Parsing inverts formatting. */
  lemma ParseFormat(n: int)
    ensures ParseInt(FormatInt(n)) == Some(n)
  {
    if n < 0 {
      assert FormatInt(n)[1..] == NatDigits(-n);
      ParseNatDigits(-n);
    } else {
      ParseNatDigits(n);
    }
  }

  /** Only the rendering of `n` parses to `n`. */
  lemma ParseUnique(s: string, n: int)
    requires ParseInt(s) == Some(n)
    ensures s == FormatInt(n)
  {
    if |s| > 0 && s[0] == '-' {
      var t := s[1..];
      var m := ParseNat(t).value;
      NatCanonical(t, m);
      assert n == -(m as int);
      assert s == "-" + t;
    } else {
      NatCanonical(s, ParseNat(s).value);
    }
  }

  lemma NatCanonical(s: string, n: nat)
    requires ParseNat(s) == Some(n)
    ensures s == NatDigits(n)
  {
    DigitsCanonical(s, n);
  }

  /** A string parses to `n` exactly when it is the rendering of `n`. */
  lemma ParseIffFormat(s: string, n: int)
    ensures ParseInt(s) == Some(n) <==> s == FormatInt(n)
  {
    if ParseInt(s) == Some(n) {
      ParseUnique(s, n);
    } else {
      ParseFormat(n);
    }
  }

  /** Distinct integers have distinct renderings. */
  lemma FormatIntInjective(a: int, b: int)
    ensures FormatInt(a) == FormatInt(b) <==> a == b
  {
    if FormatInt(a) == FormatInt(b) {
      ParseFormat(a);
      ParseFormat(b);
    }
  }
}
