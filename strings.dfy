/** The few operations on Python `str` values that the bot's rules use:
    `sep.join(parts)` and its inverse `s.split(sep)`, `s.upper()` on ASCII
    letters, `s.replace(pat, "")`, `str(n)` for integers, and the ordering
    `<` that `sorted` applies to string keys. */
module Strings {

  /** Number of occurrences of `c` in `s`. */
  function Count(s: string, c: char): nat
  {
    if s == [] then 0 else (if s[0] == c then 1 else 0) + Count(s[1..], c)
  }

  lemma {:induction false} CountConcat(a: string, b: string, c: char)
    ensures Count(a + b, c) == Count(a, c) + Count(b, c)
  {
    if a != [] {
      assert (a + b)[1..] == a[1..] + b;
      CountConcat(a[1..], b, c);
    } else {
      assert a + b == b;
    }
  }

  lemma {:induction false} CountAbsent(s: string, c: char)
    ensures Count(s, c) == 0 <==> c !in s
  {
    if s != [] {
      CountAbsent(s[1..], c);
      assert s == [s[0]] + s[1..];
    }
  }

  /** `sep.join(parts)`: the parts in order with one `sep` between neighbours. */
  function Join(parts: seq<string>, sep: char): (r: string)
    ensures |parts| > 0 && (forall i :: 0 <= i < |parts| ==> sep !in parts[i]) ==> Count(r, sep) == |parts| - 1
  {
    if |parts| == 0 then ""
    else if |parts| == 1 then CountAbsent(parts[0], sep); parts[0]
    else
      var rest := Join(parts[1..], sep);
      CountConcat(parts[0], [sep], sep);
      CountConcat(parts[0] + [sep], rest, sep);
      CountAbsent(parts[0], sep);
      parts[0] + [sep] + rest
  }

  /** `s.split(sep)` for a one-character separator: always at least one piece,
      and no piece contains the separator. */
  function Split(s: string, sep: char): (r: seq<string>)
    ensures |r| == Count(s, sep) + 1
    ensures forall i :: 0 <= i < |r| ==> sep !in r[i]
  {
    if s == [] then [""]
    else
      var rest := Split(s[1..], sep);
      if s[0] == sep then [""] + rest
      else [[s[0]] + rest[0]] + rest[1..]
  }

  lemma {:induction false} SplitNoSeparator(p: string, sep: char)
    requires sep !in p
    ensures Split(p, sep) == [p]
  {
    if p != [] {
      SplitNoSeparator(p[1..], sep);
      assert [p[0]] + p[1..] == p;
    }
  }

  lemma {:induction false} SplitAtFirstSeparator(p: string, q: string, sep: char)
    requires sep !in p
    ensures Split(p + [sep] + q, sep) == [p] + Split(q, sep)
  {
    var s := p + [sep] + q;
    if p == [] {
      assert s[0] == sep && s[1..] == q;
    } else {
      assert s[0] == p[0] && s[1..] == p[1..] + [sep] + q;
      SplitAtFirstSeparator(p[1..], q, sep);
      assert [p[0]] + p[1..] == p;
    }
  }

  /** Splitting a join on the same separator gives the parts back, provided
      no part contains the separator. */
  lemma {:induction false} SplitJoin(parts: seq<string>, sep: char)
    requires |parts| > 0
    requires forall i :: 0 <= i < |parts| ==> sep !in parts[i]
    ensures Split(Join(parts, sep), sep) == parts
  {
    if |parts| == 1 {
      SplitNoSeparator(parts[0], sep);
    } else {
      SplitJoin(parts[1..], sep);
      SplitAtFirstSeparator(parts[0], Join(parts[1..], sep), sep);
      assert [parts[0]] + parts[1..] == parts;
    }
  }

  predicate IsAsciiLower(c: char)
  {
    'a' <= c <= 'z'
  }

  /** `c.upper()` restricted to ASCII: a lower-case Latin letter becomes its
      capital, every other character is left alone. */
  function UpperChar(c: char): char
  {
    if IsAsciiLower(c) then (c as int - 32) as char else c
  }

  /** `s.upper()` on ASCII text. */
  function Upper(s: string): (r: string)
    ensures |r| == |s|
    ensures forall i :: 0 <= i < |r| ==> !IsAsciiLower(r[i])
    ensures forall i :: 0 <= i < |s| && !IsAsciiLower(s[i]) ==> r[i] == s[i]
    ensures forall i :: 0 <= i < |s| && IsAsciiLower(s[i]) ==> r[i] as int == s[i] as int - 32
  {
    if s == [] then [] else [UpperChar(s[0])] + Upper(s[1..])
  }

  lemma {:induction false} UpperConcat(a: string, b: string)
    ensures Upper(a + b) == Upper(a) + Upper(b)
  {
    var u, v := Upper(a + b), Upper(a) + Upper(b);
    assert |u| == |v|;
    forall i | 0 <= i < |u| ensures u[i] == v[i] {
      if i < |a| {
        assert (a + b)[i] == a[i];
      } else {
        assert (a + b)[i] == b[i - |a|];
      }
    }
  }

  lemma UpperIdempotent(s: string)
    ensures Upper(Upper(s)) == Upper(s)
  {
  }

  /** `s.startswith(p)`. */
  predicate StartsWith(s: string, p: string)
  {
    |p| <= |s| && s[..|p|] == p
  }

  /** `p in s` for a non-empty pattern. */
  predicate Contains(s: string, p: string)
    requires |p| > 0
  {
    StartsWith(s, p) || (s != [] && Contains(s[1..], p))
  }

  /** `s.replace(pat, "")`: scans left to right and deletes each
      non-overlapping occurrence of `pat` it meets. */
  function RemoveAll(s: string, pat: string): (r: string)
    requires |pat| > 0
    ensures |r| <= |s|
  {
    if StartsWith(s, pat) then RemoveAll(s[|pat|..], pat)
    else if s == [] then []
    else [s[0]] + RemoveAll(s[1..], pat)
  }

  /** Deleting only removes characters: what is left is drawn from `s`. */
  lemma {:induction false} RemoveAllKeepsCharacters(s: string, pat: string)
    requires |pat| > 0
    ensures multiset(RemoveAll(s, pat)) <= multiset(s)
  {
    if StartsWith(s, pat) {
      RemoveAllKeepsCharacters(s[|pat|..], pat);
      assert s == s[..|pat|] + s[|pat|..];
    } else if s != [] {
      RemoveAllKeepsCharacters(s[1..], pat);
      assert s == [s[0]] + s[1..];
    }
  }

  lemma {:induction false} RemoveAllAbsent(s: string, pat: string)
    requires |pat| > 0
    requires !Contains(s, pat)
    ensures RemoveAll(s, pat) == s
  {
    if s != [] {
      RemoveAllAbsent(s[1..], pat);
      assert [s[0]] + s[1..] == s;
    }
  }

  /** The first occurrence is deleted and what precedes it is kept: when no
      occurrence of `pat` starts inside `x` (none lies within `x` followed by
      all but the last character of `pat`), deleting from `x + pat + y`
      leaves `x` followed by the deletion from `y`. With `RemoveAllAbsent`
      this determines the result on every string. */
  lemma {:induction false} RemoveAllFirstOccurrence(x: string, pat: string, y: string)
    requires |pat| > 0
    requires !Contains(x + pat[..|pat| - 1], pat)
    ensures RemoveAll(x + pat + y, pat) == x + RemoveAll(y, pat)
  {
    var s := x + pat + y;
    if x == [] {
      assert s[..|pat|] == pat && s[|pat|..] == y;
    } else {
      var t := x + pat[..|pat| - 1];
      assert s[..|pat|] == t[..|pat|];
      assert !StartsWith(s, pat);
      assert t[1..] == x[1..] + pat[..|pat| - 1];
      assert s[1..] == x[1..] + pat + y;
      RemoveAllFirstOccurrence(x[1..], pat, y);
      assert [x[0]] + x[1..] == x;
    }
  }

  /** Python's `<` on strings: lexicographic by code point, a proper prefix
      coming first. */
  predicate Less(a: string, b: string)
    ensures StartsWith(b, a) ==> (Less(a, b) <==> |a| < |b|)
    ensures Less(a, b) ==> |b| > 0 && (a == [] || a[0] <= b[0])
  {
    if b == [] then false
    else if a == [] then true
    else if a[0] != b[0] then a[0] < b[0]
    else Less(a[1..], b[1..])
  }

  lemma {:induction false} LessIrreflexive(a: string)
    ensures !Less(a, a)
  {
    if a != [] {
      LessIrreflexive(a[1..]);
    }
  }

  lemma {:induction false} LessTransitive(a: string, b: string, c: string)
    requires Less(a, b) && Less(b, c)
    ensures Less(a, c)
  {
    if a != [] && a[0] == b[0] && b[0] == c[0] {
      LessTransitive(a[1..], b[1..], c[1..]);
    }
  }

  lemma {:induction false} LessTotal(a: string, b: string)
    ensures a == b || Less(a, b) || Less(b, a)
  {
    if a != [] && b != [] && a[0] == b[0] {
      LessTotal(a[1..], b[1..]);
      if a[1..] == b[1..] {
        assert a == [a[0]] + a[1..] && b == [b[0]] + b[1..];
      }
    }
  }

  /** `Less` is a strict total order on strings. */
  lemma LessIsStrictTotalOrder()
    ensures forall a :: !Less(a, a)
    ensures forall a, b, c :: Less(a, b) && Less(b, c) ==> Less(a, c)
    ensures forall a, b :: a == b || Less(a, b) || Less(b, a)
  {
    forall a ensures !Less(a, a) {
      LessIrreflexive(a);
    }
    forall a, b, c | Less(a, b) && Less(b, c) ensures Less(a, c) {
      LessTransitive(a, b, c);
    }
    forall a, b ensures a == b || Less(a, b) || Less(b, a) {
      LessTotal(a, b);
    }
  }

  predicate IsDigit(c: char)
  {
    '0' <= c <= '9'
  }

  function DigitChar(d: nat): (c: char)
    requires d < 10
    ensures IsDigit(c) && c as int - '0' as int == d
  {
    ('0' as int + d) as char
  }

  /** `str(n)` for a natural number: decimal digits, most significant first,
      without leading zeros. */
  function NatDecimal(n: nat): (r: string)
    ensures |r| > 0
    ensures forall i :: 0 <= i < |r| ==> IsDigit(r[i])
    ensures r[0] == '0' ==> n == 0
    ensures r[0] == '0' ==> r == "0"
  {
    if n < 10 then [DigitChar(n)] else NatDecimal(n / 10) + [DigitChar(n % 10)]
  }

  /** The number a string of decimal digits denotes. */
  function DecimalValue(s: string): nat
    requires forall i :: 0 <= i < |s| ==> IsDigit(s[i])
  {
    if s == [] then 0
    else
      assert IsDigit(s[|s| - 1]);
      10 * DecimalValue(s[..|s| - 1]) + (s[|s| - 1] as int - '0' as int)
  }

  lemma {:induction false} DecimalRoundTrip(n: nat)
    ensures DecimalValue(NatDecimal(n)) == n
  {
    if n >= 10 {
      var r := NatDecimal(n);
      assert r[..|r| - 1] == NatDecimal(n / 10);
      DecimalRoundTrip(n / 10);
    }
  }

  /** `str(n)` for any integer: the decimal digits of `n`, with a minus sign
      in front exactly when `n` is negative. */
  function IntDecimal(n: int): (r: string)
    ensures |r| > 0
    ensures forall i :: 0 <= i < |r| ==> IsDigit(r[i]) || (i == 0 && r[i] == '-' && n < 0)
    ensures n >= 0 ==> DecimalValue(r) == n
    ensures n < 0 ==> |r| > 1 && r[0] == '-' && DecimalValue(r[1..]) == -n
    // no leading zero: "0" is the only text starting with one
    ensures n >= 0 ==> (r[0] == '0' ==> r == "0")
    ensures n < 0 ==> r[1] != '0'
  {
    if n < 0 then
      DecimalRoundTrip(-n);
      assert ("-" + NatDecimal(-n))[1..] == NatDecimal(-n);
      "-" + NatDecimal(-n)
    else
      DecimalRoundTrip(n);
      NatDecimal(n)
  }
}
