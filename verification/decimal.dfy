/** Base-10 rendering of integers, as Go's `%d` verb writes them: an optional
    minus sign followed by the digits, most significant first, no leading zeros. */
module Decimal {

  import opened Wrappers

  function DigitChar(d: nat): (c: char)
    requires d < 10
    ensures '0' <= c <= '9'
  {
    "0123456789"[d]
  }

  function DigitValue(c: char): nat
  {
    if '0' <= c <= '9' then (c as int - '0' as int) else 0
  }

  predicate IsDigits(s: string)
  {
    forall i :: 0 <= i < |s| ==> '0' <= s[i] <= '9'
  }

  function FormatNat(n: nat): (s: string)
    ensures |s| > 0 && IsDigits(s)
    ensures |s| > 1 ==> s[0] != '0'
  {
    if n < 10 then [DigitChar(n)] else FormatNat(n / 10) + [DigitChar(n % 10)]
  }

  /** A minus sign exactly for negative numbers, then at least one digit
      and no leading zero. */
  function FormatInt(n: int): (s: string)
    ensures |s| > 0 && (s[0] == '-' <==> n < 0)
    ensures var digits := if n < 0 then s[1..] else s; |digits| > 0 && IsDigits(digits) && (|digits| > 1 ==> digits[0] != '0')
  {
    if n < 0 then "-" + FormatNat(-n) else FormatNat(n)
  }

  function ParseNat(s: string): nat
  {
    if s == [] then 0 else ParseNat(s[..|s| - 1]) * 10 + DigitValue(s[|s| - 1])
  }

  /** The texts `%d` can produce for a natural number: at least one digit
      and no leading zero. */
  predicate IsDecimal(s: string)
  {
    |s| > 0 && IsDigits(s) && (|s| > 1 ==> s[0] != '0')
  }

  /** Reads back exactly the texts `%d` writes; any other text, such as one
      with a leading zero, a stray character or `-0`, is `None`. */
  function ParseInt(s: string): Option<int>
  {
    if |s| > 0 && s[0] == '-' then
      if IsDecimal(s[1..]) && s[1..] != "0" then Some(0 - ParseNat(s[1..]) as int) else None
    else if IsDecimal(s) then Some(ParseNat(s) as int)
    else None
  }

  lemma {:induction false} ParseFormatNat(n: nat)
    ensures ParseNat(FormatNat(n)) == n
  {
    var s := FormatNat(n);
    if n < 10 {
      assert s[..|s| - 1] == [];
    } else {
      assert s[..|s| - 1] == FormatNat(n / 10);
      ParseFormatNat(n / 10);
    }
  }

  lemma DigitCharValue(c: char)
    requires '0' <= c <= '9'
    ensures DigitValue(c) < 10 && DigitChar(DigitValue(c)) == c
  {
  }

  lemma {:induction false} ParseNatPositive(s: string)
    requires |s| > 0 && IsDigits(s) && s[0] != '0'
    ensures ParseNat(s) > 0
  {
    if |s| > 1 {
      ParseNatPositive(s[..|s| - 1]);
    }
  }

  lemma DivModTen(m: nat, d: nat)
    requires d < 10
    ensures (m * 10 + d) / 10 == m && (m * 10 + d) % 10 == d
  {
  }

  lemma {:induction false} FormatParseNat(s: string)
    requires IsDecimal(s)
    ensures FormatNat(ParseNat(s)) == s
  {
    var init := s[..|s| - 1];
    var c := s[|s| - 1];
    DigitCharValue(c);
    var d := DigitValue(c);
    assert ParseNat(s) == ParseNat(init) * 10 + d;
    if |s| == 1 {
      assert init == [];
      assert s == [c];
    } else {
      assert IsDecimal(init);
      FormatParseNat(init);
      ParseNatPositive(init);
      var m := ParseNat(init);
      DivModTen(m, d);
      assert FormatNat(m * 10 + d) == FormatNat(m) + [DigitChar(d)];
      assert s == init + [c];
    }
  }

  lemma FormatNatZero()
    ensures FormatNat(0) == "0" && ParseNat("0") == 0
  {
    assert "0"[..0] == [];
  }

  /** `%d` loses nothing: the integer can be read back from its rendering. */
  lemma ParseFormatInt(n: int)
    ensures ParseInt(FormatInt(n)) == Some(n)
  {
    var s := FormatInt(n);
    if n < 0 {
      var digits := FormatNat(-n);
      assert s == "-" + digits;
      assert s[0] == '-' && s[1..] == digits;
      assert IsDecimal(digits);
      ParseFormatNat(-n);
      FormatNatZero();
      assert digits != "0";
    } else {
      assert s == FormatNat(n);
      assert IsDecimal(s);
      ParseFormatNat(n);
    }
  }

  /** The parser accepts nothing but renderings: a text that reads as an
      integer is exactly how `%d` writes that integer. */
  lemma FormatParseInt(s: string)
    ensures ParseInt(s).Some? ==> FormatInt(ParseInt(s).value) == s
  {
    if ParseInt(s).Some? {
      if |s| > 0 && s[0] == '-' {
        var digits := s[1..];
        FormatParseNat(digits);
        var m := ParseNat(digits);
        FormatNatZero();
        assert m != 0;
        assert s == "-" + digits;
      } else {
        FormatParseNat(s);
      }
    }
  }

  /** Hence distinct integers render differently. */
  lemma FormatIntInjective(a: int, b: int)
    requires FormatInt(a) == FormatInt(b)
    ensures a == b
  {
    ParseFormatInt(a);
    ParseFormatInt(b);
  }
}
