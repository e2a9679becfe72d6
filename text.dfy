/** Strings as JavaScript sees them: decimal rendering of integers (what
    `toString()` and `${n}` give), decimal parsing (what `new BigNumber(s)`
    does with an integer string), the relational operators on strings,
    `split` and lower-case hex. */
module Text {
  import opened Wrappers
  import opened Bytes

  function DigitChar(d: int): char
    requires 0 <= d < 10
  {
    "0123456789"[d]
  }

  predicate IsDigit(c: char) { '0' <= c <= '9' }

  predicate AllDigits(s: string) { forall i :: 0 <= i < |s| ==> IsDigit(s[i]) }

  /** The decimal digits of `n`, no leading zero. */
  function NatToDecimal(n: nat): (r: string)
    ensures |r| >= 1 && AllDigits(r)
    ensures (|r| == 1) == (n < 10)
    ensures r[0] != '0' || n == 0
    decreases n
  {
    if n < 10 then [DigitChar(n)] else NatToDecimal(n / 10) + [DigitChar(n % 10)]
  }

  /** `String(n)` for an integer `n`. */
  function IntToDecimal(n: int): string
  {
    if n < 0 then "-" + NatToDecimal(-n) else NatToDecimal(n)
  }

  /** The value of a string of decimal digits. */
  function DigitsValue(s: string): nat
    requires AllDigits(s)
  {
    if |s| == 0 then 0 else DigitsValue(s[..|s| - 1]) * 10 + (s[|s| - 1] as int - '0' as int)
  }

  /** An optional minus sign followed by at least one digit, as
      `new BigNumber(s)` reads an integer string; every other string
      gives `None`. */
  function ParseInteger(s: string): Option<int>
  {
    if |s| > 1 && s[0] == '-' && AllDigits(s[1..]) then Some(0 - DigitsValue(s[1..]) as int)
    else if |s| > 0 && AllDigits(s) then Some(DigitsValue(s))
    else None
  }

  /** The strings `IntToDecimal` produces: no leading zero, no "-0". */
  predicate IsCanonicalDecimal(s: string)
  {
    && |s| > 0
    && (if s[0] == '-'
        then |s| > 1 && AllDigits(s[1..]) && s[1] != '0'
        else AllDigits(s) && (s[0] != '0' || |s| == 1))
  }

  lemma {:induction false} DigitsOfNat(n: nat)
    ensures DigitsValue(NatToDecimal(n)) == n
    decreases n
  {
    var r := NatToDecimal(n);
    if n >= 10 {
      DigitsOfNat(n / 10);
      assert r[..|r| - 1] == NatToDecimal(n / 10);
    }
  }

  /** Parsing the decimal rendering of an integer gives the integer back. */
  lemma ParseRendered(n: int)
    ensures ParseInteger(IntToDecimal(n)) == Some(n)
  {
    if n < 0 {
      var d := NatToDecimal(-n);
      assert IntToDecimal(n) == "-" + d;
      ParseNegated(d);
      DigitsOfNat(-n);
      assert DigitsValue(d) == -n;
    } else {
      var d := NatToDecimal(n);
      assert IntToDecimal(n) == d;
      ParseDigits(d);
      DigitsOfNat(n);
    }
  }

  lemma ParseDigits(d: string)
    requires AllDigits(d) && |d| > 0
    ensures ParseInteger(d) == Some(DigitsValue(d))
  {
    assert IsDigit(d[0]);
  }

  lemma ParseNegated(d: string)
    requires AllDigits(d) && |d| > 0
    ensures ParseInteger("-" + d) == Some(0 - DigitsValue(d) as int)
  {
    var s := "-" + d;
    assert s[0] == '-' && s[1..] == d;
  }

  lemma {:induction false} RenderDigits(s: string)
    requires AllDigits(s) && |s| > 0 && (s[0] != '0' || |s| == 1)
    ensures NatToDecimal(DigitsValue(s)) == s
    decreases |s|
  {
    var c := s[|s| - 1];
    var d := c as int - '0' as int;
    DigitCharOf(c);
    if |s| > 1 {
      var p := s[..|s| - 1];
      assert s == p + [c];
      RenderDigits(p);
      var v := DigitsValue(p);
      assert v >= 1;
      assert DigitsValue(s) == v * 10 + d;
      LastDigit(v, d);
    }
  }

  lemma DigitCharOf(c: char)
    requires IsDigit(c)
    ensures DigitChar(c as int - '0' as int) == c
  {
  }

  /** Appending digit `d` to `v`: dividing by ten drops it again. */
  lemma LastDigit(v: nat, d: int)
    requires 0 <= d < 10
    ensures (v * 10 + d) / 10 == v && (v * 10 + d) % 10 == d
  {
  }

  /** Rendering a parsed canonical decimal string gives the string back. */
  lemma RenderParsed(s: string)
    requires IsCanonicalDecimal(s)
    ensures ParseInteger(s).Some? && IntToDecimal(ParseInteger(s).value) == s
  {
    if s[0] == '-' {
      RenderDigits(s[1..]);
      assert DigitsValue(s[1..]) != 0;
      assert s == "-" + s[1..];
    } else {
      RenderDigits(s);
    }
  }

  /** JavaScript's `a < b` on two strings: code-unit order, a proper prefix
      is smaller. (`a >= b` is `!(a < b)`.) */
  predicate LexLess(a: string, b: string)
  {
    if |a| == 0 then |b| > 0
    else if |b| == 0 then false
    else if a[0] != b[0] then a[0] < b[0]
    else LexLess(a[1..], b[1..])
  }

  predicate LexLessOrEqual(a: string, b: string) { !LexLess(b, a) }

  lemma {:induction false} LexLessSnoc(a: string, b: string, x: char, y: char)
    requires |a| == |b|
    ensures LexLess(a + [x], b + [y]) == (LexLess(a, b) || (a == b && x < y))
    decreases |a|
  {
    if |a| > 0 {
      assert (a + [x])[1..] == a[1..] + [x];
      assert (b + [y])[1..] == b[1..] + [y];
      LexLessSnoc(a[1..], b[1..], x, y);
      if a[0] == b[0] && a[1..] == b[1..] { assert a == b; }
    }
  }

  lemma DecimalInjective(m: nat, n: nat)
    requires NatToDecimal(m) == NatToDecimal(n)
    ensures m == n
  {
    DigitsOfNat(m);
    DigitsOfNat(n);
  }

  /** For two decimal strings of the same length, string order is numeric
      order. */
  lemma {:induction false} SameLengthOrder(m: nat, n: nat)
    requires |NatToDecimal(m)| == |NatToDecimal(n)|
    ensures LexLess(NatToDecimal(m), NatToDecimal(n)) == (m < n)
    decreases m
  {
    if m >= 10 {
      var a, b, x, y := NatToDecimal(m / 10), NatToDecimal(n / 10), DigitChar(m % 10), DigitChar(n % 10);
      assert NatToDecimal(m) == a + [x] && NatToDecimal(n) == b + [y];
      assert |a| == |b|;
      SameLengthOrder(m / 10, n / 10);
      LexLessSnoc(a, b, x, y);
      assert a == b <==> m / 10 == n / 10 by {
        if a == b {
          DecimalInjective(m / 10, n / 10);
        }
      }
      DigitCharOrder(m % 10, n % 10);
      DecimalOrder(m, n);
    }
  }

  lemma DigitCharOrder(d: int, e: int)
    requires 0 <= d < 10 && 0 <= e < 10
    ensures DigitChar(d) < DigitChar(e) <==> d < e
  {
    DigitCharValue(d);
    DigitCharValue(e);
  }

  lemma DigitCharValue(d: int)
    requires 0 <= d < 10
    ensures DigitChar(d) as int == '0' as int + d
  {
  }

  /** Numeric order by leading digits, then by the last digit. */
  lemma DecimalOrder(m: nat, n: nat)
    ensures m < n <==> (m / 10 < n / 10 || (m / 10 == n / 10 && m % 10 < n % 10))
  {
  }

  /** `s.split(sep)`: the pieces between separators, at least one. */
  function Split(s: string, sep: char): (r: seq<string>)
    ensures |r| >= 1
    decreases |s|
  {
    if |s| == 0 then [""]
    else
      var rest := Split(s[1..], sep);
      if s[0] == sep then [""] + rest else [[s[0]] + rest[0]] + rest[1..]
  }

  function HexDigit(d: int): char
    requires 0 <= d < 16
  {
    "0123456789abcdef"[d]
  }

  /** `Converter.bytesToHex(bytes)`: two lower-case hex digits per byte. */
  function ToHex(bytes: seq<byte>): (r: string)
    ensures |r| == 2 * |bytes|
  {
    if |bytes| == 0 then "" else [HexDigit(bytes[0] / 16), HexDigit(bytes[0] % 16)] + ToHex(bytes[1..])
  }
}
