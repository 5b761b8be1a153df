/** The parts of printf and scanf that the transport and the codec use: decimal integers and words.
    Integers are unbounded. */
module Text {
  import opened Options

  predicate IsDigit(c: char) {
    '0' <= c <= '9'
  }

  /** isspace in the C locale. */
  predicate IsSpace(c: char) {
    c == ' ' || '\t' <= c <= '\r'
  }

  function DigitChar(d: nat): (c: char)
    requires d < 10
    ensures IsDigit(c) && c as int - '0' as int == d
  {
    '0' + d as char
  }

  /** "%d" of a natural number. */
  function PrintNat(n: nat): (s: string)
    ensures s != [] && forall i :: 0 <= i < |s| ==> IsDigit(s[i])
  {
    if n < 10 then [DigitChar(n)] else PrintNat(n / 10) + [DigitChar(n % 10)]
  }

  /** "%d" */
  function PrintInt(n: int): string {
    if n < 0 then "-" + PrintNat(-n) else PrintNat(n)
  }

  function DigitValue(c: char): (d: nat)
    requires IsDigit(c)
    ensures d < 10 && DigitChar(d) == c
  {
    c as int - '0' as int
  }

  function SkipSpaces(s: string): string {
    if s != [] && IsSpace(s[0]) then SkipSpaces(s[1..]) else s
  }

  /** The digits at the start of s continue the number acc. */
  function TakeDigits(s: string, acc: nat): (nat, string) {
    if s != [] && IsDigit(s[0]) then TakeDigits(s[1..], 10 * acc + DigitValue(s[0])) else (acc, s)
  }

  /** "%d" of scanf: the value and what follows it. */
  function ScanInt(s: string): Option<(int, string)> {
    // An optional sign, then at least one digit.
    var t := SkipSpaces(s);
    var negative := t != [] && t[0] == '-';
    var u := if t != [] && (t[0] == '-' || t[0] == '+') then t[1..] else t;
    if u == [] || !IsDigit(u[0]) then None
    else
      var (n, rest) := TakeDigits(u, 0);
      Some((if negative then 0 - n else n, rest))
  }

  function WordLength(s: string): (n: nat)
    ensures n <= |s| && forall i :: 0 <= i < n ==> !IsSpace(s[i])
    ensures n < |s| ==> IsSpace(s[n])
  {
    if s == [] || IsSpace(s[0]) then 0 else 1 + WordLength(s[1..])
  }

  /** "%s" of scanf: the next word and what follows it. */
  function ScanWord(s: string): Option<(string, string)> {
    var t := SkipSpaces(s);
    var n := WordLength(t);
    if n == 0 then None else Some((t[..n], t[n..]))
  }

  predicate IsWord(s: string) {
    s != [] && forall i :: 0 <= i < |s| ==> !IsSpace(s[i])
  }

  function Pow10(k: nat): nat {
    if k == 0 then 1 else 10 * Pow10(k - 1)
  }

  lemma {:induction false} TakePrinted(n: nat, acc: nat, rest: string)
    requires rest != [] ==> !IsDigit(rest[0])
    ensures TakeDigits(PrintNat(n) + rest, acc) == (acc * Pow10(|PrintNat(n)|) + n, rest)
  {
    TakeMore(PrintNat(n), acc, rest);
    PrintedValue(n);
    assert TakeDigits(rest, Value(PrintNat(n), acc)) == (Value(PrintNat(n), acc), rest);
    ValueShift(PrintNat(n), acc);
  }

  /** The number acc continued by digits. */
  ghost function Value(digits: string, acc: nat): nat
    requires forall i :: 0 <= i < |digits| ==> IsDigit(digits[i])
  {
    if digits == [] then acc else Value(digits[1..], 10 * acc + DigitValue(digits[0]))
  }

  lemma {:induction false} TakeMore(digits: string, acc: nat, rest: string)
    requires forall i :: 0 <= i < |digits| ==> IsDigit(digits[i])
    ensures TakeDigits(digits + rest, acc) == TakeDigits(rest, Value(digits, acc))
  {
    if digits == [] {
      assert digits + rest == rest;
    } else {
      assert (digits + rest)[1..] == digits[1..] + rest;
      TakeMore(digits[1..], 10 * acc + DigitValue(digits[0]), rest);
    }
  }

  lemma {:induction false} ValueShift(digits: string, acc: nat)
    requires forall i :: 0 <= i < |digits| ==> IsDigit(digits[i])
    ensures Value(digits, acc) == acc * Pow10(|digits|) + Value(digits, 0)
  {
    if digits != [] {
      var d := DigitValue(digits[0]);
      ValueShift(digits[1..], 10 * acc + d);
      ValueShift(digits[1..], d);
      Shifted(acc, d, Pow10(|digits| - 1));
    }
  }

  lemma Shifted(acc: nat, d: nat, p: nat)
    ensures (10 * acc + d) * p == acc * (10 * p) + d * p
  {
  }

  lemma {:induction false} ValueSnoc(digits: string, c: char, acc: nat)
    requires IsDigit(c) && forall i :: 0 <= i < |digits| ==> IsDigit(digits[i])
    ensures Value(digits + [c], acc) == 10 * Value(digits, acc) + DigitValue(c)
  {
    if digits == [] {
      assert digits + [c] == [c] && [c][1..] == [];
    } else {
      assert (digits + [c])[1..] == digits[1..] + [c];
      ValueSnoc(digits[1..], c, 10 * acc + DigitValue(digits[0]));
    }
  }

  lemma {:induction false} PrintedValue(n: nat)
    ensures Value(PrintNat(n), 0) == n
  {
    if n >= 10 {
      PrintedValue(n / 10);
      ValueSnoc(PrintNat(n / 10), DigitChar(n % 10), 0);
    } else {
      assert Value([DigitChar(n)], 0) == Value([], n);
    }
  }

  lemma LeadingSpace(s: string)
    ensures ScanInt(" " + s) == ScanInt(s)
  {
    assert (" " + s)[1..] == s;
  }

  /** Scanning a printed integer gives it back, whatever non-digit follows. */
  lemma {:induction false} ScanPrintedInt(n: int, rest: string)
    requires rest != [] ==> !IsDigit(rest[0])
    ensures ScanInt(PrintInt(n) + rest) == Some((n, rest))
  {
    hide TakeDigits, PrintNat;
    var m := if n < 0 then -n else n;
    TakePrinted(m, 0, rest);
    var s := PrintInt(n) + rest;
    assert IsDigit(PrintNat(m)[0]);
    assert SkipSpaces(s) == s;
    if n < 0 {
      assert s[1..] == PrintNat(m) + rest;
    }
  }

  lemma ScanSpacedInt(n: int, rest: string)
    requires rest != [] ==> !IsDigit(rest[0])
    ensures ScanInt(" " + PrintInt(n) + rest) == Some((n, rest))
  {
    hide *;
    ScanPrintedInt(n, rest);
    LeadingSpace(PrintInt(n) + rest);
    assert " " + PrintInt(n) + rest == " " + (PrintInt(n) + rest);
  }

  lemma {:induction false} WordLengthOf(w: string, rest: string)
    requires forall i :: 0 <= i < |w| ==> !IsSpace(w[i])
    requires rest != [] ==> IsSpace(rest[0])
    ensures WordLength(w + rest) == |w|
  {
    if w == [] {
      assert w + rest == rest;
    } else {
      assert (w + rest)[1..] == w[1..] + rest;
      WordLengthOf(w[1..], rest);
    }
  }

  lemma {:induction false} ScanWritten(w: string, rest: string)
    requires IsWord(w) && (rest != [] ==> IsSpace(rest[0]))
    ensures ScanWord(" " + w + rest) == Some((w, rest))
  {
    WordLengthOf(w, rest);
    assert (" " + w + rest)[1..] == w + rest;
    assert SkipSpaces(w + rest) == w + rest;
  }

  lemma ScannedIsWord(s: string)
    ensures ScanWord(s).Some? ==> IsWord(ScanWord(s).value.0)
  {
  }

  // Decimal numbers, in millionths.

  /** The last k digits of n. */
  function Digits(n: nat, k: nat): (s: string)
    ensures |s| == k && forall i :: 0 <= i < k ==> IsDigit(s[i])
  {
    if k == 0 then "" else Digits(n / 10, k - 1) + [DigitChar(n % 10)]
  }

  function PrintFixed(m: nat): string {
    PrintNat(m / 1000000) + "." + Digits(m % 1000000, 6)
  }

  /** "%lf" */
  function PrintDouble(m: int): string {
    if m < 0 then "-" + PrintFixed(-m) else PrintFixed(m)
  }

  /** The first k digits of s as an integer, those that are missing being 0. */
  function Fraction(s: string, k: nat): nat {
    if k == 0 || s == "" || !IsDigit(s[0]) then 0
    else DigitValue(s[0]) * Pow10(k - 1) + Fraction(s[1..], k - 1)
  }

  /** "%lf" of scanf for decimal numbers without an exponent; decimals after the sixth are dropped. */
  function ScanDouble(s: string): Option<int> {
    var t := SkipSpaces(s);
    var negative := t != [] && t[0] == '-';
    var u := if t != [] && (t[0] == '-' || t[0] == '+') then t[1..] else t;
    var (whole, rest) := TakeDigits(u, 0);
    var decimals := if rest != [] && rest[0] == '.' then rest[1..] else "";
    if (u != [] && IsDigit(u[0])) || (decimals != [] && IsDigit(decimals[0])) then
      var m := whole * 1000000 + Fraction(decimals, 6);
      Some(if negative then 0 - m else m)
    else None
  }

  lemma {:induction false} FractionValue(s: string)
    requires forall i :: 0 <= i < |s| ==> IsDigit(s[i])
    ensures Fraction(s, |s|) == Value(s, 0)
  {
    if s != "" {
      FractionValue(s[1..]);
      ValueShift(s[1..], DigitValue(s[0]));
    }
  }

  lemma {:induction false} DigitsValue(n: nat, k: nat)
    requires n < Pow10(k)
    ensures Value(Digits(n, k), 0) == n
  {
    if k > 0 {
      DigitsValue(n / 10, k - 1);
      ValueSnoc(Digits(n / 10, k - 1), DigitChar(n % 10), 0);
    }
  }

  lemma ScanPrintedFixed(m: nat)
    ensures var (whole, rest) := TakeDigits(PrintFixed(m), 0);
            && whole == m / 1000000 && rest != [] && rest[0] == '.'
            && Fraction(rest[1..], 6) == m % 1000000
            && PrintFixed(m) != "" && IsDigit(PrintFixed(m)[0])
  {
    hide TakeDigits, PrintNat, Digits, Fraction;
    var d := Digits(m % 1000000, 6);
    TakePrinted(m / 1000000, 0, "." + d);
    assert PrintFixed(m) == PrintNat(m / 1000000) + ("." + d);
    assert ("." + d)[1..] == d;
    assert Pow10(6) == 1000000;
    DigitsValue(m % 1000000, 6);
    FractionValue(d);
  }

  /** Scanning a printed decimal number gives it back. */
  lemma ScanPrintedDouble(m: int)
    ensures ScanDouble(PrintDouble(m)) == Some(m)
  {
    hide TakeDigits, PrintFixed, Fraction, Pow10;
    var n := if m < 0 then -m else m;
    ScanPrintedFixed(n);
    var s := PrintDouble(m);
    assert SkipSpaces(s) == s;
    if m < 0 {
      assert s[1..] == PrintFixed(n);
    }
  }

  // Decimal numbers that others wrote.

  lemma {:induction false} PowersMultiply(a: nat, b: nat)
    ensures Pow10(a) * Pow10(b) == Pow10(a + b)
  {
    if a > 0 {
      PowersMultiply(a - 1, b);
      Shifted(Pow10(a - 1), 0, Pow10(b));
    }
  }

  lemma SumTimes(a: nat, b: nat, v: nat, c: nat, whole: nat)
    requires whole == a * b + v
    ensures whole * c == a * (b * c) + v * c
  {
  }

  /** The missing decimals count as 0. */
  lemma {:induction false} FractionOf(s: string, rest: string, k: nat)
    requires |s| <= k && (forall i :: 0 <= i < |s| ==> IsDigit(s[i])) && (rest != "" ==> !IsDigit(rest[0]))
    ensures Fraction(s + rest, k) == Value(s, 0) * Pow10(k - |s|)
  {
    hide Pow10, Value;
    if s == "" {
      assert s + rest == rest;
      NoDigits();
    } else {
      assert (s + rest)[1..] == s[1..] + rest;
      FractionOf(s[1..], rest, k - 1);
      ValueStart(s);
      PowersMultiply(|s| - 1, k - |s|);
      SumTimes(DigitValue(s[0]), Pow10(|s| - 1), Value(s[1..], 0), Pow10(k - |s|), Value(s, 0));
    }
  }

  lemma NoDigits()
    ensures Value("", 0) == 0 && Pow10(0) == 1
  {
  }

  lemma ValueStart(s: string)
    requires s != "" && forall i :: 0 <= i < |s| ==> IsDigit(s[i])
    ensures Value(s, 0) == DigitValue(s[0]) * Pow10(|s| - 1) + Value(s[1..], 0)
  {
    ValueShift(s[1..], DigitValue(s[0]));
  }

  /** What is behind the whole part. */
  lemma DecimalsOf(k: nat, n: nat, point: bool, rest: string)
    requires k <= 6 && n < Pow10(k) && (k > 0 ==> point)
    requires rest != "" ==> !IsDigit(rest[0]) && (point || rest[0] != '.')
    ensures var tail := (if point then "." + Digits(n, k) else "") + rest;
            && (tail != "" ==> !IsDigit(tail[0]))
            && Fraction(if tail != "" && tail[0] == '.' then tail[1..] else "", 6) == n * Pow10(6 - k)
  {
    hide Fraction, Value, Pow10, Digits;
    NoDigits();
    if point {
      var tail := "." + Digits(n, k) + rest;
      assert tail[0] == '.' && tail[1..] == Digits(n, k) + rest;
      DigitsValue(n, k);
      FractionOf(Digits(n, k), rest, 6);
    } else {
      assert k == 0 && n * Pow10(6) == 0;
      assert "" + rest == rest && "" + "" == "";
      FractionOf("", "", 6);
    }
  }

  /** The parts of a number. */
  lemma ScanDoubleIs(s: string, u: string, negative: bool, whole: nat, tail: string)
    requires u != "" && IsDigit(u[0]) && TakeDigits(u, 0) == (whole, tail)
    requires if negative then s != "" && s[0] == '-' && s[1..] == u else s == u
    ensures var m := whole * 1000000 + Fraction(if tail != "" && tail[0] == '.' then tail[1..] else "", 6);
            ScanDouble(s) == Some(if negative then -m else m)
  {
    hide TakeDigits, Fraction;
    assert SkipSpaces(s) == s;
  }

  /** A number with k <= 6 decimals, the digits of n, and with or without a sign, is scanned exactly, whatever follows it;
      without decimals it need not have a point. */
  lemma ScanDecimal(negative: bool, whole: nat, k: nat, n: nat, point: bool, rest: string)
    requires k <= 6 && n < Pow10(k) && (k > 0 ==> point)
    requires rest != "" ==> !IsDigit(rest[0]) && (point || rest[0] != '.')
    ensures var m := whole * 1000000 + n * Pow10(6 - k);
            ScanDouble((if negative then "-" else "") + (PrintNat(whole) + ((if point then "." + Digits(n, k) else "") + rest)))
            == Some(if negative then -m else m)
  {
    hide TakeDigits, PrintNat, Digits, Fraction, Pow10;
    var tail := (if point then "." + Digits(n, k) else "") + rest;
    DecimalsOf(k, n, point, rest);
    TakePrinted(whole, 0, tail);
    var u := PrintNat(whole) + tail;
    var s := (if negative then "-" else "") + u;
    assert IsDigit(PrintNat(whole)[0]) && u[0] == PrintNat(whole)[0];
    assert TakeDigits(u, 0) == (whole, tail);
    if negative {
      assert s[0] == '-' && s[1..] == u;
    } else {
      assert s == u;
    }
    ScanDoubleIs(s, u, negative, whole, tail);
  }
}
