/** The `Total-Pages` response header: Java's `Integer.parseInt` on its text,
    and the rule that an absent header means a single page. */
module TotalPagesHeader {
  import opened Wrappers

  /** The range of a Java `int`. */
  const Int32Min: int := -0x8000_0000
  const Int32Max: int := 0x7FFF_FFFF

  predicate IsDigit(ch: char)
  {
    '0' <= ch <= '9'
  }

  predicate AllDigits(s: string)
  {
    forall i :: 0 <= i < |s| ==> IsDigit(s[i])
  }

  /** The decimal value of a run of digits, most significant first. */
  function DigitsValue(ds: string): nat
    requires AllDigits(ds)
    decreases |ds|
  {
    if ds == [] then 0
    else DigitsValue(ds[..|ds| - 1]) * 10 + (ds[|ds| - 1] as int - '0' as int)
  }

  /** The shape `Integer.parseInt` accepts: an optional `+` or `-`, then one
      or more decimal digits, and nothing else. */
  predicate Numeral(s: string)
  {
    && |s| > 0
    && var ds := if s[0] == '+' || s[0] == '-' then s[1..] else s;
       |ds| > 0 && AllDigits(ds)
  }

  /** The mathematical value a numeral denotes, before any range check. */
  function NumeralValue(s: string): int
    requires Numeral(s)
  {
    if s[0] == '-' then -(DigitsValue(s[1..]) as int)
    else if s[0] == '+' then DigitsValue(s[1..])
    else DigitsValue(s)
  }

  /** Java's digit loop: reads `s[i..]` as decimal digits onto `acc`, and
      gives up at the first character that is not a digit. */
  function AccumulateDigits(s: string, i: nat, acc: nat): Option<nat>
    requires i <= |s|
    decreases |s| - i
  {
    if i == |s| then Some(acc)
    else if IsDigit(s[i]) then AccumulateDigits(s, i + 1, acc * 10 + (s[i] as int - '0' as int))
    else None
  }

  /** `Integer.parseInt(s)`: `None` stands for the `NumberFormatException`
      thrown on an empty string, a lone sign, any non-digit character
      (spaces included) or a value outside the `int` range. Java checks the
      range digit by digit; as the magnitude only grows, that rejects exactly
      the numerals whose final value is out of range. */
  function ParseInt(s: string): (r: Option<int>)
    ensures r.Some? ==> Int32Min <= r.value <= Int32Max
  {
    if |s| == 0 then None
    else
      var start := if s[0] == '-' || s[0] == '+' then 1 else 0;
      if start == |s| then None
      else
        match AccumulateDigits(s, start, 0)
        case None => None
        case Some(m) =>
          var v: int := if s[0] == '-' then -(m as int) else m;
          if Int32Min <= v <= Int32Max then Some(v) else None
  }

  lemma {:induction false} AccumulateDigitsValue(s: string, start: nat, i: nat)
    requires start <= i <= |s|
    requires AllDigits(s[start..i])
    ensures AccumulateDigits(s, i, DigitsValue(s[start..i])).Some? <==> AllDigits(s[start..])
    ensures AllDigits(s[start..]) ==> AccumulateDigits(s, i, DigitsValue(s[start..i])) == Some(DigitsValue(s[start..]))
    decreases |s| - i
  {
    if i == |s| {
      assert s[start..i] == s[start..];
    } else if IsDigit(s[i]) {
      var next := s[start..i + 1];
      assert next[..|next| - 1] == s[start..i];
      assert AllDigits(next) by {
        forall j | 0 <= j < |next| ensures IsDigit(next[j]) {
          if j < i - start { assert next[j] == s[start..i][j]; }
        }
      }
      AccumulateDigitsValue(s, start, i + 1);
    } else {
      assert s[start..][i - start] == s[i];
    }
  }

  /** The parser accepts exactly the numerals whose value fits an `int`, and
      returns that value. */
  lemma ParseIntMeaning(s: string)
    ensures ParseInt(s).Some? <==> Numeral(s) && Int32Min <= NumeralValue(s) <= Int32Max
    ensures ParseInt(s).Some? ==> ParseInt(s).value == NumeralValue(s)
  {
    if |s| > 0 {
      var start := if s[0] == '-' || s[0] == '+' then 1 else 0;
      assert s[start..start] == [];
      AccumulateDigitsValue(s, start, start);
      if start == 0 {
        assert s[start..] == s;
      }
    }
  }

  /** The total page count a response announces: an absent header counts as
      one page, a present one must parse as an `int`. */
  function TotalPages(header: Option<string>): (r: Option<int>)
    ensures header.None? ==> r == Some(1)
    ensures r.Some? ==> Int32Min <= r.value <= Int32Max
  {
    match header
    case None => Some(1)
    case Some(text) => ParseInt(text)
  }

  // ---------------------------------------------------------------------
  // The inverse direction: `Integer.toString`, the way an upstream writes
  // the header, and the round trip through the parser.

  function DigitChar(d: nat): (ch: char)
    requires d < 10
    ensures IsDigit(ch)
  {
    ('0' as int + d) as char
  }

  /** Decimal digits of `n` without leading zeros. */
  function FormatNat(n: nat): (s: string)
    ensures |s| > 0 && AllDigits(s)
    decreases n
  {
    if n < 10 then [DigitChar(n)] else FormatNat(n / 10) + [DigitChar(n % 10)]
  }

  /** `Integer.toString(n)`. */
  function FormatInt(n: int): (s: string)
  {
    if n < 0 then "-" + FormatNat(-n) else FormatNat(n)
  }

  lemma {:induction false} FormatNatValue(n: nat)
    ensures DigitsValue(FormatNat(n)) == n
    decreases n
  {
    var s := FormatNat(n);
    if n >= 10 {
      FormatNatValue(n / 10);
      assert s[..|s| - 1] == FormatNat(n / 10);
    }
  }

  /** Every `int` written by `Integer.toString` is read back unchanged. */
  lemma ParseFormatRoundTrip(n: int)
    requires Int32Min <= n <= Int32Max
    ensures ParseInt(FormatInt(n)) == Some(n)
  {
    var s := FormatInt(n);
    ParseIntMeaning(s);
    if n < 0 {
      FormatNatValue(-n);
      assert s[1..] == FormatNat(-n);
    } else {
      FormatNatValue(n);
      assert IsDigit(s[0]);
    }
  }

  /** A leading `+` is accepted and changes nothing. */
  lemma PlusSignIgnored(ds: string)
    requires |ds| > 0 && AllDigits(ds)
    ensures ParseInt("+" + ds) == ParseInt(ds)
  {
    ParseIntMeaning(ds);
    ParseIntMeaning("+" + ds);
    assert ("+" + ds)[1..] == ds;
  }

  /** A numeral for a value outside the `int` range is rejected, however
      it is written (sign, leading zeros): the parser does not wrap around. */
  lemma OutOfRangeRejected(s: string)
    requires Numeral(s) && !(Int32Min <= NumeralValue(s) <= Int32Max)
    ensures ParseInt(s) == None
  {
    ParseIntMeaning(s);
  }

  /** Header texts the parser rejects: the empty text, a lone sign, surrounding
      spaces and a decimal point. */
  lemma RejectedHeaders()
    ensures ParseInt("") == None
    ensures ParseInt("-") == None
    ensures ParseInt("+") == None
    ensures ParseInt(" 2") == None
    ensures ParseInt("2 ") == None
    ensures ParseInt("2.0") == None
  {
  }
}
