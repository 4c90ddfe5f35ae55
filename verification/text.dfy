/** Character-level helpers over Python strings (`seq<char>`): occurrence
    counts, `sep.join(parts)`, `str.startswith`, substring tests, ASCII
    lower-casing, and the decimal rendering of naturals used by `'%d'` and
    `'%015d'`. */
module Text {

  /** Number of occurrences of `c` in `s`. */
  function Count(c: char, s: string): nat
  {
    if |s| == 0 then 0 else (if s[0] == c then 1 else 0) + Count(c, s[1..])
  }

  lemma {:induction false} CountAppend(c: char, a: string, b: string)
    ensures Count(c, a + b) == Count(c, a) + Count(c, b)
  {
    if |a| == 0 {
      assert a + b == b;
    } else {
      assert (a + b)[1..] == a[1..] + b;
      CountAppend(c, a[1..], b);
    }
  }

  /** Occurrences in a concatenation of seven pieces. */
  lemma CountPieces(c: char, p1: string, p2: string, p3: string, p4: string, p5: string, p6: string, p7: string)
    ensures Count(c, p1 + p2 + p3 + p4 + p5 + p6 + p7)
      == Count(c, p1) + Count(c, p2) + Count(c, p3) + Count(c, p4) + Count(c, p5) + Count(c, p6) + Count(c, p7)
  {
    CountAppend(c, p1, p2);
    CountAppend(c, p1 + p2, p3);
    CountAppend(c, p1 + p2 + p3, p4);
    CountAppend(c, p1 + p2 + p3 + p4, p5);
    CountAppend(c, p1 + p2 + p3 + p4 + p5, p6);
    CountAppend(c, p1 + p2 + p3 + p4 + p5 + p6, p7);
  }

  /** A character that does not occur is counted zero times, and conversely. */
  lemma {:induction false} CountAbsent(c: char, s: string)
    ensures c !in s <==> Count(c, s) == 0
  {
    if |s| > 0 {
      CountAbsent(c, s[1..]);
      assert s == [s[0]] + s[1..];
    }
  }

  /** One occurrence of `c` between text free of it. */
  lemma SingleMark(c: char, pre: string, post: string)
    requires c !in pre && c !in post
    ensures Count(c, pre + [c] + post) == 1
  {
    CountAbsent(c, pre);
    CountAbsent(c, post);
    CountAppend(c, pre + [c], post);
    CountAppend(c, pre, [c]);
    assert [c][1..] == [];
  }

  /** `sep.join(parts)`. */
  function Join(parts: seq<string>, sep: string): string
  {
    if |parts| == 0 then ""
    else if |parts| == 1 then parts[0]
    else parts[0] + sep + Join(parts[1..], sep)
  }

  /** Total occurrences of `c` over all of `parts`. */
  function CountAll(c: char, parts: seq<string>): nat
  {
    if |parts| == 0 then 0 else Count(c, parts[0]) + CountAll(c, parts[1..])
  }

  /** Joining adds the separator's occurrences once between each two parts. */
  lemma {:induction false} CountJoin(c: char, parts: seq<string>, sep: string)
    ensures Count(c, Join(parts, sep))
         == CountAll(c, parts) + (if |parts| == 0 then 0 else (|parts| - 1) * Count(c, sep))
  {
    if |parts| == 1 {
      assert CountAll(c, parts[1..]) == 0;
    } else if |parts| > 1 {
      CountJoin(c, parts[1..], sep);
      CountAppend(c, parts[0], sep);
      CountAppend(c, parts[0] + sep, Join(parts[1..], sep));
    }
  }

  /** When every part holds `c` exactly `k` times the total is `k` per part. */
  lemma {:induction false} CountAllUniform(c: char, parts: seq<string>, k: nat)
    requires forall i :: 0 <= i < |parts| ==> Count(c, parts[i]) == k
    ensures CountAll(c, parts) == k * |parts|
  {
    if |parts| > 0 {
      CountAllUniform(c, parts[1..], k);
    }
  }

  /** Count of `c` in a join whose separator does not contain `c`. */
  lemma CountJoinUniform(c: char, parts: seq<string>, sep: string, k: nat)
    requires forall i :: 0 <= i < |parts| ==> Count(c, parts[i]) == k
    requires c !in sep
    ensures Count(c, Join(parts, sep)) == k * |parts|
  {
    CountAbsent(c, sep);
    var z := Count(c, sep);
    assert z == 0;
    CountJoin(c, parts, sep);
    assert (if |parts| == 0 then 0 else (|parts| - 1) * z) == 0;
    CountAllUniform(c, parts, k);
  }

  /** `n` copies of `x`. */
  function Repeat<T>(x: T, n: nat): (r: seq<T>)
    ensures |r| == n
    ensures forall i :: 0 <= i < n ==> r[i] == x
  {
    seq(n, _ => x)
  }

  /** `s.startswith(p)`. */
  predicate StartsWith(s: string, p: string)
  {
    |p| <= |s| && s[..|p|] == p
  }

  /** `sub in s` for strings: some suffix of `s` starts with `sub`. */
  predicate Contains(s: string, sub: string)
  {
    StartsWith(s, sub) || (|s| > 0 && Contains(s[1..], sub))
  }

  /** ASCII part of `str.lower()`. */
  function LowerChar(c: char): char
  {
    if 'A' <= c <= 'Z' then (c as int + 32) as char else c
  }

  function Lower(s: string): string
  {
    seq(|s|, i requires 0 <= i < |s| => LowerChar(s[i]))
  }

  predicate IsDigit(c: char)
  {
    '0' <= c <= '9'
  }

  predicate IsDigits(s: string)
  {
    forall i :: 0 <= i < |s| ==> IsDigit(s[i])
  }

  function DigitChar(d: nat): (c: char)
    requires d < 10
    ensures IsDigit(c) && c as int - '0' as int == d
  {
    ('0' as int + d) as char
  }

  /** `'%d' % n` for a natural `n`: shortest decimal digits, no sign. */
  function Decimal(n: nat): (s: string)
    ensures 1 <= |s| && IsDigits(s)
    ensures 1 < |s| ==> s[0] != '0'
  {
    if n < 10 then [DigitChar(n)] else Decimal(n / 10) + [DigitChar(n % 10)]
  }

  /** The natural a digit string denotes (leading zeros allowed). */
  function DigitsValue(s: string): nat
    requires IsDigits(s)
  {
    if |s| == 0 then 0
    else DigitsValue(s[..|s| - 1]) * 10 + (s[|s| - 1] as int - '0' as int)
  }

  /** Reading back the decimal rendering gives the number. */
  lemma {:induction false} DecimalRoundTrip(n: nat)
    ensures DigitsValue(Decimal(n)) == n
  {
    if n >= 10 {
      var s := Decimal(n / 10) + [DigitChar(n % 10)];
      assert s[..|s| - 1] == Decimal(n / 10);
      DecimalRoundTrip(n / 10);
    }
  }

  function Pow10(k: nat): nat
  {
    if k == 0 then 1 else 10 * Pow10(k - 1)
  }

  /** A number below `10^k` (`k >= 1`) has at most `k` decimal digits. */
  lemma {:induction false} DecimalLength(n: nat, k: nat)
    requires 1 <= k && n < Pow10(k)
    ensures |Decimal(n)| <= k
  {
    if n >= 10 {
      assert k > 1;
      DecimalLength(n / 10, k - 1);
    }
  }

  /** `'%0<width>d'`-style left padding of a digit string with zeros. */
  function ZeroPad(s: string, width: nat): (r: string)
    ensures |r| == if |s| < width then width else |s|
  {
    if |s| < width then Repeat('0', width - |s|) + s else s
  }

  /** Digit strings read left to right: the value of `a + b` shifts `a` by `|b|` places. */
  lemma {:induction false} DigitsValueAppend(a: string, b: string)
    requires IsDigits(a) && IsDigits(b)
    ensures IsDigits(a + b)
    ensures DigitsValue(a + b) == DigitsValue(a) * Pow10(|b|) + DigitsValue(b)
  {
    if |b| > 0 {
      var b' := b[..|b| - 1];
      var ab := a + b;
      assert ab[..|ab| - 1] == a + b';
      assert ab[|ab| - 1] == b[|b| - 1];
      DigitsValueAppend(a, b');
      var x, p, y := DigitsValue(a), Pow10(|b'|), DigitsValue(b');
      var last := b[|b| - 1] as int - '0' as int;
      assert DigitsValue(ab) == (x * p + y) * 10 + last;
      ShiftDigit(x, p, y, last);
      assert Pow10(|b|) == p * 10;
    } else {
      assert a + b == a;
    }
  }

  lemma ShiftDigit(x: int, p: int, y: int, last: int)
    ensures (x * p + y) * 10 + last == x * (p * 10) + (y * 10 + last)
  {
  }

  lemma {:induction false} DigitsValueZeros(n: nat)
    ensures IsDigits(Repeat('0', n))
    ensures DigitsValue(Repeat('0', n)) == 0
  {
    if n > 0 {
      assert Repeat('0', n)[..n - 1] == Repeat('0', n - 1);
      DigitsValueZeros(n - 1);
    }
  }

  /** Zero padding does not change the number a digit string denotes. */
  lemma ZeroPadValue(s: string, width: nat)
    requires IsDigits(s)
    ensures IsDigits(ZeroPad(s, width))
    ensures DigitsValue(ZeroPad(s, width)) == DigitsValue(s)
  {
    if |s| < width {
      DigitsValueZeros(width - |s|);
      DigitsValueAppend(Repeat('0', width - |s|), s);
    }
  }
}
