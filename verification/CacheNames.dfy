/** The names of spool files of src/transport_cache.c. */
module CacheNames {
  import opened FileIds
  import opened Options
  import opened Text

  /** Ids whose names have their usual length. */
  predicate IsId(a: Fid) {
    0 <= a.majId < Pow10(8) && 0 <= a.minId < Pow10(10)
  }

  /** SPOOL_FILE_PREFIX */
  const PREFIX := "samples_"

  /** "%0kd" of a natural number. */
  function Padded(n: nat, k: nat): string {
    if n < Pow10(k) then Digits(n, k) else PrintNat(n)
  }

  /** TR_cache_file_name, without the directory. */
  function FileName(a: Fid): string
    requires a.majId >= 0 && a.minId >= 0
  {
    PREFIX + Padded(a.majId, 8) + "_" + Padded(a.minId, 10)
  }

  /** The id in the name of a spool file. */
  function ParseName(name: string): Option<Fid> {
    if !(PREFIX <= name) then None
    else
      match ScanInt(name[|PREFIX|..])
      case None => None
      case Some((majId, rest)) =>
        if rest == "" || rest[0] != '_' then None
        else
          match ScanInt(rest[1..])
          case None => None
          case Some((minId, _)) => Some(Fid(majId, minId))
  }

  /** strcmp(s, t) < 0 */
  predicate Less(s: string, t: string) {
    if t == "" then false
    else if s == "" then true
    else s[0] < t[0] || (s[0] == t[0] && Less(s[1..], t[1..]))
  }

  lemma {:induction false} LessAfterPrefix(p: string, s: string, t: string)
    ensures Less(p + s, p + t) <==> Less(s, t)
  {
    if p == "" {
      assert p + s == s && p + t == t;
    } else {
      assert (p + s)[1..] == p[1..] + s && (p + t)[1..] == p[1..] + t;
      LessAfterPrefix(p[1..], s, t);
    }
  }

  lemma {:induction false} ValueBound(x: string)
    requires forall i :: 0 <= i < |x| ==> IsDigit(x[i])
    ensures Value(x, 0) < Pow10(|x|)
  {
    if x != "" {
      ValueBound(x[1..]);
      ValueShift(x[1..], DigitValue(x[0]));
    }
  }

  /** Digits of the same length sort like numbers. */
  lemma {:induction false} LessDigits(x: string, y: string, s: string, t: string)
    requires |x| == |y| && forall i :: 0 <= i < |x| ==> IsDigit(x[i]) && IsDigit(y[i])
    ensures Less(x + s, y + t) <==> Value(x, 0) < Value(y, 0) || (Value(x, 0) == Value(y, 0) && Less(s, t))
  {
    hide Less;
    if x == "" {
      assert x + s == s && y + t == t;
    } else {
      var d, e := DigitValue(x[0]), DigitValue(y[0]);
      ValueShift(x[1..], d);
      ValueShift(y[1..], e);
      ValueBound(x[1..]);
      ValueBound(y[1..]);
      assert (x + s)[1..] == x[1..] + s && (y + t)[1..] == y[1..] + t;
      LessDigits(x[1..], y[1..], s, t);
      LessUnfolds(x + s, y + t);
      LeadingDigit(d, e, Pow10(|x| - 1), Value(x[1..], 0), Value(y[1..], 0));
    }
  }

  lemma LessUnfolds(s: string, t: string)
    requires s != "" && t != ""
    ensures Less(s, t) <==> s[0] < t[0] || (s[0] == t[0] && Less(s[1..], t[1..]))
  {
  }

  lemma LeadingDigit(d: nat, e: nat, p: nat, v: nat, w: nat)
    requires v < p && w < p
    ensures d * p + v < e * p + w <==> d < e || (d == e && v < w)
    ensures d * p + v == e * p + w <==> d == e && v == w
  {
    if d < e {
      assert (d + 1) * p <= e * p;
    } else if e < d {
      assert (e + 1) * p <= d * p;
    }
  }

  /** Zero-padded names sort like ids. */
  lemma NamesSortLikeIds(a: Fid, b: Fid)
    requires IsId(a) && IsId(b)
    ensures Less(FileName(a), FileName(b)) <==> After(b, a)
  {
    hide Less, Pow10, Digits;
    var x, y := Digits(a.majId, 8), Digits(b.majId, 8);
    var s, t := Digits(a.minId, 10), Digits(b.minId, 10);
    assert FileName(a) == PREFIX + (x + ("_" + s)) && FileName(b) == PREFIX + (y + ("_" + t));
    LessAfterPrefix(PREFIX, x + ("_" + s), y + ("_" + t));
    LessDigits(x, y, "_" + s, "_" + t);
    LessAfterPrefix("_", s, t);
    assert s + "" == s && t + "" == t;
    LessDigits(s, t, "", "");
    DigitsValue(a.majId, 8);
    DigitsValue(b.majId, 8);
    DigitsValue(a.minId, 10);
    DigitsValue(b.minId, 10);
    assert !Less("", "") by {
      NothingLess();
    }
  }

  lemma NothingLess()
    ensures !Less("", "")
  {
  }

  lemma ScanPadded(n: nat, k: nat, rest: string)
    requires n < Pow10(k) && k > 0 && (rest != "" ==> !IsDigit(rest[0]))
    ensures ScanInt(Digits(n, k) + rest) == Some((n, rest))
  {
    hide TakeDigits, Digits, Pow10;
    var s := Digits(n, k) + rest;
    assert IsDigit(s[0]) && SkipSpaces(s) == s;
    TakeMore(Digits(n, k), 0, rest);
    DigitsValue(n, k);
    NothingTaken(rest, n);
  }

  lemma NothingTaken(rest: string, n: nat)
    requires rest != "" ==> !IsDigit(rest[0])
    ensures TakeDigits(rest, n) == (n, rest)
  {
  }

  /** The id is read back from the name. */
  lemma NameReadBack(a: Fid)
    requires IsId(a)
    ensures ParseName(FileName(a)) == Some(a)
  {
    hide ScanInt, Pow10, Digits;
    var s := Digits(a.minId, 10);
    assert FileName(a) == PREFIX + (Digits(a.majId, 8) + ("_" + s));
    assert FileName(a)[|PREFIX|..] == Digits(a.majId, 8) + ("_" + s);
    ScanPadded(a.majId, 8, "_" + s);
    ScanPadded(a.minId, 10, "");
    assert s + "" == s && ("_" + s)[1..] == s;
  }
}
