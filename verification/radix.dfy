/**
 * Number/string conversions the source takes from the JavaScript runtime:
 * `n.toString(36)` for a non-negative integer (session keys and task ids)
 * and the global `parseInt(s)` with no radix (slot capacity).
 */
module Radix {
  import opened Wrappers
  import opened Strings

  // ---------------------------------------------------------------------------
  // Base 36
  // ---------------------------------------------------------------------------

  /** The lower-case base-36 digit for `d`. */
  function Digit36(d: nat): (c: char)
    requires d < 36
    ensures IsDigit36(c) && DigitValue36(c) == d
  {
    if d < 10 then ('0' as int + d) as char else ('a' as int + d - 10) as char
  }

  predicate IsDigit36(c: char) {
    '0' <= c <= '9' || 'a' <= c <= 'z'
  }

  function DigitValue36(c: char): (d: nat)
    requires IsDigit36(c)
    ensures d < 36
  {
    if '0' <= c <= '9' then c as int - '0' as int else c as int - 'a' as int + 10
  }

  predicate AllDigits36(s: string) {
    forall i :: 0 <= i < |s| ==> IsDigit36(s[i])
  }

  /** `n.toString(36)`: most significant digit first, no leading zero. */
  function Base36(n: nat): (s: string)
    ensures |s| >= 1 && AllDigits36(s)
    ensures |s| > 1 ==> s[0] != '0'
  {
    if n < 36 then [Digit36(n)]
    else Base36(n / 36) + [Digit36(n % 36)]
  }

  /** The value of a base-36 numeral. */
  function ParseBase36(s: string): nat
    requires AllDigits36(s)
  {
    if |s| == 0 then 0
    else 36 * ParseBase36(s[..|s| - 1]) + DigitValue36(s[|s| - 1])
  }

  function Pow36(k: nat): (p: nat)
    ensures p >= 1
  {
    if k == 0 then 1 else 36 * Pow36(k - 1)
  }

  /** Reading a numeral back gives the number it was written from. */
  lemma {:induction false} Base36RoundTrip(n: nat)
    ensures ParseBase36(Base36(n)) == n
  {
    if n >= 36 {
      Base36RoundTrip(n / 36);
      var s := Base36(n);
      assert s[..|s| - 1] == Base36(n / 36);
    }
  }

  /** The last `k` digits of `n.toString(36)` spell `n` modulo 36^k. */
  lemma {:induction false} Base36Suffix(n: nat, k: nat)
    requires k <= |Base36(n)|
    ensures ParseBase36(Base36(n)[|Base36(n)| - k..]) == n % Pow36(k)
  {
    var s := Base36(n);
    if k == 0 {
      assert s[|s| - k..] == [];
    } else if n < 36 {
      assert s[|s| - k..] == [] + [Digit36(n)];
      ParseSnoc([], Digit36(n));
    } else {
      Base36Suffix(n / 36, k - 1);
      Base36SuffixStep(n, k);
    }
  }

  /** A number of at least 36^k needs more than k base-36 digits. */
  lemma {:induction false} Base36Length(n: nat, k: nat)
    requires n >= Pow36(k)
    ensures |Base36(n)| > k
  {
    if k > 0 {
      assert n / 36 >= Pow36(k - 1);
      Base36Length(n / 36, k - 1);
    }
  }

  /** Numerals of the same length are equal exactly when their values are. */
  lemma {:induction false} ParseBase36Injective(a: string, b: string)
    requires AllDigits36(a) && AllDigits36(b) && |a| == |b|
    requires ParseBase36(a) == ParseBase36(b)
    ensures a == b
    decreases |a|
  {
    if |a| > 0 {
      var k := |a| - 1;
      var x := DigitValue36(a[k]);
      var y := DigitValue36(b[k]);
      ModUnique(ParseBase36(a), 36, ParseBase36(a[..k]), x);
      ModUnique(ParseBase36(b), 36, ParseBase36(b[..k]), y);
      assert x == y;
      assert a[k] == b[k];
      assert ParseBase36(a[..k]) == ParseBase36(b[..k]);
      ParseBase36Injective(a[..k], b[..k]);
      assert a == a[..k] + [a[k]];
      assert b == b[..k] + [b[k]];
    }
  }

  /** One step of the induction: drop the last digit. */
  lemma Base36SuffixStep(n: nat, k: nat)
    requires n >= 36 && 1 <= k <= |Base36(n)|
    requires ParseBase36(Base36(n / 36)[|Base36(n / 36)| - (k - 1)..]) == (n / 36) % Pow36(k - 1)
    ensures ParseBase36(Base36(n)[|Base36(n)| - k..]) == n % Pow36(k)
  {
    var h := Base36(n / 36);
    var c := Digit36(n % 36);
    var u := h[|h| - (k - 1)..];
    var s := Base36(n);
    assert s == h + [c];
    assert s[|s| - k..] == u + [c];
    ParseSnoc(u, c);
    DivModStep(n, Pow36(k - 1));
  }

  lemma ParseSnoc(h: string, c: char)
    requires AllDigits36(h) && IsDigit36(c)
    ensures AllDigits36(h + [c])
    ensures ParseBase36(h + [c]) == 36 * ParseBase36(h) + DigitValue36(c)
  {
    assert (h + [c])[..|h|] == h;
  }

  /** 36 * ((n / 36) % m) + n % 36 == n % (36 * m) */
  lemma DivModStep(n: nat, m: nat)
    requires m >= 1
    ensures 36 * ((n / 36) % m) + n % 36 == n % (36 * m)
  {
    var q := n / 36;
    var r := n % 36;
    var a := q / m;
    var b := q % m;
    assert q == m * a + b;
    assert 36 * q == (36 * m) * a + 36 * b by {
      MulDistrib(36, m * a, b);
      assert 36 * (m * a) == (36 * m) * a;
    }
    assert n == (36 * m) * a + (36 * b + r);
    assert 36 * b + r < 36 * m by {
      assert b <= m - 1;
      assert 36 * b <= 36 * (m - 1);
    }
    ModUnique(n, 36 * m, a, 36 * b + r);
  }

  lemma MulDistrib(x: int, y: int, z: int)
    ensures x * (y + z) == x * y + x * z
  {
  }

  /** The remainder is the unique r with n == d * q + r and 0 <= r < d. */
  lemma ModUnique(n: nat, d: nat, q: nat, r: nat)
    requires d >= 1 && r < d && n == d * q + r
    ensures n % d == r
  {
    var q' := n / d;
    assert d * (q - q') == n % d - r;
    MulBounded(d, q - q');
  }

  /** A multiple of d strictly between -d and d is zero. */
  lemma MulBounded(d: nat, x: int)
    requires d >= 1 && -(d as int) < d * x < d
    ensures x == 0
  {
  }

  // ---------------------------------------------------------------------------
  // parseInt(s) without a radix
  // ---------------------------------------------------------------------------

  /** A JavaScript number restricted to what parseInt can produce here:
      an integer, or NaN. */
  datatype JsNumber = Num(value: int) | NaN

  predicate IsDecimalDigit(c: char) { '0' <= c <= '9' }

  predicate IsHexDigit(c: char) {
    '0' <= c <= '9' || 'a' <= c <= 'f' || 'A' <= c <= 'F'
  }

  predicate IsDigitIn(c: char, radix: nat) {
    if radix == 16 then IsHexDigit(c) else IsDecimalDigit(c)
  }

  function DigitValue(c: char, radix: nat): (d: nat)
    requires IsDigitIn(c, radix)
    ensures d < (if radix == 16 then 16 else 10)
  {
    if '0' <= c <= '9' then c as int - '0' as int
    else if 'a' <= c <= 'f' then c as int - 'a' as int + 10
    else c as int - 'A' as int + 10
  }

  /** Length of the longest prefix of `s` made of digits of `radix`. */
  function DigitRun(s: string, radix: nat): (n: nat)
    ensures n <= |s|
    ensures forall i :: 0 <= i < n ==> IsDigitIn(s[i], radix)
    ensures n < |s| ==> !IsDigitIn(s[n], radix)
  {
    if |s| == 0 || !IsDigitIn(s[0], radix) then 0
    else 1 + DigitRun(s[1..], radix)
  }

  /** The value of a numeral in `radix`, most significant digit first. */
  function NumeralValue(s: string, radix: nat): nat
    requires forall i :: 0 <= i < |s| ==> IsDigitIn(s[i], radix)
  {
    if |s| == 0 then 0
    else (if radix == 16 then 16 else 10) * NumeralValue(s[..|s| - 1], radix)
         + DigitValue(s[|s| - 1], radix)
  }

  predicate HasHexPrefix(s: string) {
    |s| >= 2 && s[0] == '0' && (s[1] == 'x' || s[1] == 'X')
  }

  /** The digits after the sign: a `0x`/`0X` prefix switches to radix 16, then
      the longest run of digits is read and the rest ignored; None when that
      run is empty. */
  function ParseMagnitude(v: string): Option<nat>
  {
    var radix := if HasHexPrefix(v) then 16 else 10;
    var w := if radix == 16 then v[2..] else v;
    var n := DigitRun(w, radix);
    if n == 0 then None else Some(NumeralValue(w[..n], radix))
  }

  /** `parseInt(s)`: skip leading whitespace, take an optional sign, then read
      the magnitude; NaN when there is no digit to read. */
  function ParseInt(s: string): JsNumber
  {
    var u := TrimStart(s);
    var negative := |u| > 0 && u[0] == '-';
    var v := if |u| > 0 && (u[0] == '-' || u[0] == '+') then u[1..] else u;
    match ParseMagnitude(v)
    case None => NaN
    case Some(m) => Num(if negative then -(m as int) else m)
  }

  /** `n.toString()` for a non-negative integer. */
  function Decimal(n: nat): (s: string)
    ensures |s| >= 1
    ensures forall i :: 0 <= i < |s| ==> IsDecimalDigit(s[i])
    ensures |s| > 1 ==> s[0] != '0'
  {
    if n < 10 then [('0' as int + n) as char]
    else Decimal(n / 10) + [('0' as int + n % 10) as char]
  }

  lemma {:induction false} DecimalValue(n: nat)
    ensures NumeralValue(Decimal(n), 10) == n
  {
    if n >= 10 {
      var s := Decimal(n);
      assert s[..|s| - 1] == Decimal(n / 10);
      DecimalValue(n / 10);
    }
  }

  /** parseInt reads back the decimal rendering of a number, with or without
      a minus sign, and ignores a trailing non-digit tail. A rendering of 0
      followed by `x` would instead be taken as a hexadecimal prefix. */
  lemma ParseIntDecimal(n: nat, negative: bool, tail: string)
    requires tail == [] || !IsDecimalDigit(tail[0])
    requires n == 0 && tail != [] ==> tail[0] != 'x' && tail[0] != 'X'
    ensures ParseInt((if negative then "-" else "") + (Decimal(n) + tail))
            == Num(if negative then -(n as int) else n)
  {
    MagnitudeDecimal(n, tail);
    ParseIntSigned(Decimal(n) + tail, negative, n);
  }

  /** parseInt reads back `n.toString()`. */
  lemma ParseIntOfDecimal(n: nat)
    ensures ParseInt(Decimal(n)) == Num(n)
  {
    ParseIntDecimal(n, false, "");
    assert "" + (Decimal(n) + "") == Decimal(n);
  }

  /** An optional minus sign in front of a magnitude negates it. */
  lemma ParseIntSigned(v: string, negative: bool, m: nat)
    requires v != [] && IsDecimalDigit(v[0])
    requires ParseMagnitude(v) == Some(m)
    ensures ParseInt((if negative then "-" else "") + v) == Num(if negative then -(m as int) else m)
  {
    var s := (if negative then "-" else "") + v;
    NoLeadingSpace(s);
    if negative {
      assert s[1..] == v;
    } else {
      assert s == v;
    }
  }

  lemma NoLeadingSpace(s: string)
    requires s != [] && !IsSpace(s[0])
    ensures TrimStart(s) == s
  {
    assert LeadingSpaces(s) == 0;
  }

  lemma MagnitudeDecimal(n: nat, tail: string)
    requires tail == [] || !IsDecimalDigit(tail[0])
    requires n == 0 && tail != [] ==> tail[0] != 'x' && tail[0] != 'X'
    ensures ParseMagnitude(Decimal(n) + tail) == Some(n)
  {
    var d := Decimal(n);
    var v := d + tail;
    assert !HasHexPrefix(v) by {
      if |d| > 1 {
        assert v[0] == d[0];
      } else {
        assert |v| >= 2 ==> v[1] == tail[0];
      }
    }
    DigitRunPrefix(d, tail);
    assert v[..|d|] == d;
    DecimalValue(n);
  }

  lemma {:induction false} DigitRunPrefix(d: string, tail: string)
    requires forall i :: 0 <= i < |d| ==> IsDecimalDigit(d[i])
    requires tail == [] || !IsDecimalDigit(tail[0])
    ensures DigitRun(d + tail, 10) == |d|
  {
    if |d| > 0 {
      assert (d + tail)[1..] == d[1..] + tail;
      DigitRunPrefix(d[1..], tail);
    }
  }

  /** A string with no digit after its whitespace and sign is NaN. */
  lemma ParseIntNaN(s: string)
    requires forall i :: 0 <= i < |s| ==> !IsDecimalDigit(s[i])
    ensures ParseInt(s) == NaN
  {
  }
}
