/**
 * The parts of Go's `strconv` and `fmt` that the service relies on: base-10
 * integer parsing with a range check, decimal formatting, and quoting.
 */
module Strconv {
  import opened Wrappers

  const Int32Min: int := -0x8000_0000
  const Int32Max: int := 0x7fff_ffff
  const Int64Min: int := -0x8000_0000_0000_0000
  const Int64Max: int := 0x7fff_ffff_ffff_ffff

  predicate IsDigit(c: char)
  {
    '0' <= c <= '9'
  }

  predicate AllDigits(s: string)
  {
    forall i :: 0 <= i < |s| ==> IsDigit(s[i])
  }

  function DigitChar(d: nat): (c: char)
    requires d < 10
    ensures IsDigit(c)
  {
    (('0' as int) + d) as char
  }

  /** The number a string of decimal digits denotes (leading zeros allowed). */
  function DigitsValue(s: string): nat
    requires AllDigits(s)
  {
    if s == [] then 0
    else DigitsValue(s[..|s| - 1]) * 10 + ((s[|s| - 1] as int) - ('0' as int))
  }

  /** The shortest decimal representation of `n`, as `fmt` prints it. */
  function NatToDecimal(n: nat): (s: string)
    ensures |s| >= 1 && AllDigits(s)
    ensures s[0] == '0' <==> n == 0
    ensures n == 0 ==> s == "0"
  {
    if n < 10 then [DigitChar(n)] else NatToDecimal(n / 10) + [DigitChar(n % 10)]
  }

  /** Reading back a printed number gives the number. */
  lemma {:induction false} DecimalValue(n: nat)
    ensures DigitsValue(NatToDecimal(n)) == n
  {
    var s := NatToDecimal(n);
    if n >= 10 {
      DecimalValue(n / 10);
      assert s[..|s| - 1] == NatToDecimal(n / 10);
    }
  }

  /** `fmt.Sprintf("%d", i)` and `strconv.Itoa(i)`: a minus sign for negatives, no plus sign. */
  function FormatInt(i: int): (s: string)
    ensures |s| >= 1 && ' ' !in s
    ensures s[0] != '+'
    ensures s[0] == '-' <==> i < 0
    ensures IsInteger(s) && IntegerValue(s) == i
    ensures DigitsOf(s)[0] == '0' ==> DigitsOf(s) == "0"
  {
    if i < 0 then
      var digits := NatToDecimal(-i);
      DecimalValue(-i);
      assert ("-" + digits)[1..] == digits;
      "-" + digits
    else
      DecimalValue(i);
      NatToDecimal(i)
  }

  /** The digits of a base-10 integer literal, after its optional sign. */
  function DigitsOf(s: string): string
  {
    if s != "" && (s[0] == '-' || s[0] == '+') then s[1..] else s
  }

  /** An optional `+` or `-` followed by one or more decimal digits. */
  predicate IsInteger(s: string)
  {
    DigitsOf(s) != "" && AllDigits(DigitsOf(s))
  }

  /** The integer such a literal denotes: leading zeros allowed, "-0" is 0. */
  function IntegerValue(s: string): int
    requires IsInteger(s)
  {
    var magnitude: int := DigitsValue(DigitsOf(s));
    if s[0] == '-' then -magnitude else magnitude
  }

  /**
   * `strconv.ParseInt(s, 10, bitSize)` when `[lo, hi]` is the range of a signed
   * `bitSize`-bit integer: an optional `+` or `-`, then at least one decimal
   * digit and nothing else; any syntax or range error gives `None`.
   */
  function ParseIntIn(s: string, lo: int, hi: int): (r: Option<int>)
    ensures r.Some? ==> lo <= r.value <= hi
    ensures r.Some? ==> s != "" && AllDigits(if s[0] == '-' || s[0] == '+' then s[1..] else s)
    ensures r.Some? <==> IsInteger(s) && lo <= IntegerValue(s) <= hi
    ensures r.Some? ==> r.value == IntegerValue(s)
  {
    if s == "" then None
    else
      var digits := if s[0] == '-' || s[0] == '+' then s[1..] else s;
      if digits == "" || !AllDigits(digits) then None
      else
        var magnitude: int := DigitsValue(digits);
        var v := if s[0] == '-' then -magnitude else magnitude;
        if lo <= v <= hi then Some(v) else None
  }

  /** `strconv.ParseInt(s, 10, 32)`. */
  function ParseInt32(s: string): (r: Option<int>)
    ensures r.Some? <==> IsInteger(s) && Int32Min <= IntegerValue(s) <= Int32Max
    ensures r.Some? ==> r.value == IntegerValue(s)
  {
    ParseIntIn(s, Int32Min, Int32Max)
  }

  /** `strconv.ParseInt(s, 10, 64)`, and `strconv.Atoi(s)` where `int` has 64 bits. */
  function ParseInt64(s: string): (r: Option<int>)
    ensures r.Some? <==> IsInteger(s) && Int64Min <= IntegerValue(s) <= Int64Max
    ensures r.Some? ==> r.value == IntegerValue(s)
  {
    ParseIntIn(s, Int64Min, Int64Max)
  }

  /** Go accepts a plus sign, leading zeros and a negative zero. */
  lemma LiteralForms()
    ensures ParseInt64("+5") == Some(5)
    ensures ParseInt64("007") == Some(7)
    ensures ParseInt64("-0") == Some(0)
    ensures ParseInt64("5 ") == None && ParseInt64("-") == None && ParseInt64("") == None
  {
    assert DigitsOf("+5") == "5";
    assert DigitsOf("-0") == "0";
    assert DigitsValue("007") == 7 by {
      assert "007"[..2] == "00" && "00"[..1] == "0";
    }
  }

  /** Parsing what `FormatInt` printed gives back the number when it is in range. */
  lemma FormatParse(i: int, lo: int, hi: int)
    requires lo <= i <= hi
    ensures ParseIntIn(FormatInt(i), lo, hi) == Some(i)
  {
    var s := FormatInt(i);
    if i < 0 {
      assert s[1..] == NatToDecimal(-i);
      DecimalValue(-i);
    } else {
      DecimalValue(i);
    }
  }

  /** A string `strconv.Quote` leaves unescaped: printable ASCII other than `"` and `\`. */
  predicate Plain(s: string)
  {
    forall i :: 0 <= i < |s| ==> ' ' <= s[i] <= '~' && s[i] != '"' && s[i] != '\\'
  }

  /** `strconv.Quote(s)` for a plain string: `s` between double quotes. */
  function Quote(s: string): (q: string)
    requires Plain(s)
    ensures |q| == |s| + 2 && q[0] == '"' && q[|q| - 1] == '"' && q[1..|q| - 1] == s
  {
    "\"" + s + "\""
  }

  /**
   * `strconv.Unquote(q)` restricted to double-quoted strings without escape
   * sequences: the text between the quotes, which may hold neither a quote
   * nor a newline; anything else is a syntax error.
   */
  function Unquote(q: string): (r: Option<string>)
    ensures r.Some? ==> "\"" + r.value + "\"" == q
  {
    if |q| >= 2 && q[0] == '"' && q[|q| - 1] == '"' then
      var body := q[1..|q| - 1];
      if '"' in body || '\\' in body || '\n' in body then None else Some(body)
    else None
  }

  lemma UnquoteQuote(s: string)
    requires Plain(s)
    ensures Unquote(Quote(s)) == Some(s)
  {
    var q := Quote(s);
    assert q[1..|q| - 1] == s;
  }
}
