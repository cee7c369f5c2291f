/**
 * The Python `str` operations the scripts rely on, over `string`
 * (a sequence of Unicode scalar values): `in`, `startswith`/`endswith`,
 * `lower`, `find`, `count`, `replace`, `split`/`join`, `strip` and
 * integer formatting with a zero-padded width (`{n:03d}`).
 */
module Text {

  // ---------------------------------------------------------------------------
  // Prefixes, suffixes and substrings

  /** `s.startswith(p)` */
  predicate StartsWith(s: string, p: string) {
    |p| <= |s| && s[..|p|] == p
  }

  /** `s.endswith(p)` */
  predicate EndsWith(s: string, p: string) {
    |p| <= |s| && s[|s| - |p|..] == p
  }

  /** `t` occurs in `s` starting at index `i` */
  predicate OccursAt(s: string, t: string, i: int) {
    0 <= i && i + |t| <= |s| && s[i..i + |t|] == t
  }

  /** `t in s` */
  predicate Contains(s: string, t: string) {
    exists i :: 0 <= i <= |s| - |t| && OccursAt(s, t, i)
  }

  /** an occurrence seen through a suffix is an occurrence in the whole text */
  lemma OccursShift(s: string, t: string, m: int, j: int)
    requires 0 <= m <= |s| && 0 <= j
    ensures OccursAt(s[m..], t, j) <==> OccursAt(s, t, j + m)
  {
    if j + |t| <= |s| - m {
      assert s[m..][j..j + |t|] == s[j + m..j + m + |t|];
    }
  }

  lemma ContainsInside(a: string, t: string, b: string)
    ensures Contains(a + t + b, t)
  {
    assert (a + t + b)[|a|..|a| + |t|] == t;
    assert OccursAt(a + t + b, t, |a|);
  }

  lemma ContainsWidens(a: string, s: string, b: string, t: string)
    requires Contains(s, t)
    ensures Contains(a + s + b, t)
  {
    var i :| 0 <= i <= |s| - |t| && OccursAt(s, t, i);
    assert (a + s + b)[|a| + i..|a| + i + |t|] == t;
    assert OccursAt(a + s + b, t, |a| + i);
  }

  lemma EndsWithConcat(x: string, p: string)
    ensures EndsWith(x + p, p)
  {
    assert (x + p)[|x + p| - |p|..] == p;
  }

  lemma EndsWithContains(s: string, t: string)
    requires EndsWith(s, t)
    ensures Contains(s, t)
  {
    assert OccursAt(s, t, |s| - |t|);
  }

  /** what a suffix starts with occurs in the whole text */
  lemma SuffixStartsWith(s: string, t: string, p: string)
    requires EndsWith(s, t) && StartsWith(t, p)
    ensures Contains(s, p)
  {
    var at := |s| - |t|;
    assert s[at..at + |p|] == t[..|p|];
    assert OccursAt(s, p, at);
  }

  lemma ContainsExtends(s: string, b: string, t: string)
    requires Contains(s, t)
    ensures Contains(s + b, t)
  {
    var i :| 0 <= i <= |s| - |t| && OccursAt(s, t, i);
    assert (s + b)[i..i + |t|] == s[i..i + |t|];
    assert OccursAt(s + b, t, i);
  }

  lemma StartsWithContains(s: string, t: string)
    requires StartsWith(s, t)
    ensures Contains(s, t)
  {
    assert OccursAt(s, t, 0);
  }

  /** the index of the last `c` in `s`, or -1 (`str.rfind`) */
  function LastIndex(s: string, c: char): (k: int)
    ensures -1 <= k < |s|
    ensures k >= 0 ==> s[k] == c
    ensures forall j :: k < j < |s| ==> s[j] != c
  {
    if s == [] then -1
    else if s[|s| - 1] == c then |s| - 1
    else LastIndex(s[..|s| - 1], c)
  }

  // ---------------------------------------------------------------------------
  // Case folding (`str.lower`), for the letters A-Z

  function LowerChar(c: char): char {
    if 'A' <= c <= 'Z' then (c as int + 32) as char else c
  }

  /** `s.lower()`: every character folded, length unchanged */
  function Lower(s: string): (r: string)
    ensures |r| == |s|
    ensures forall i :: 0 <= i < |s| ==> r[i] == LowerChar(s[i])
  {
    seq(|s|, i requires 0 <= i < |s| => LowerChar(s[i]))
  }

  /** `s` has no upper-case letter, so `s.lower() == s` */
  predicate Folded(s: string) {
    forall i :: 0 <= i < |s| ==> !('A' <= s[i] <= 'Z')
  }

  lemma FoldedLower(s: string)
    requires Folded(s)
    ensures Lower(s) == s
  {
  }

  lemma LowerIsFolded(s: string)
    ensures Folded(Lower(s))
  {
  }

  lemma LowerConcat(a: string, b: string)
    ensures Lower(a + b) == Lower(a) + Lower(b)
  {
  }

  /** folding both sides keeps a substring a substring */
  lemma ContainsLower(s: string, t: string)
    requires Contains(s, t)
    ensures Contains(Lower(s), Lower(t))
  {
    var i :| 0 <= i <= |s| - |t| && OccursAt(s, t, i);
    assert Lower(s)[i..i + |t|] == Lower(t);
    assert OccursAt(Lower(s), Lower(t), i);
  }

  /** a folded text never contains a string with an upper-case letter */
  lemma FoldedExcludesUpper(s: string, t: string, k: int)
    requires Folded(s)
    requires 0 <= k < |t| && 'A' <= t[k] <= 'Z'
    ensures !Contains(s, t)
  {
    forall i ensures !OccursAt(s, t, i) {
      if 0 <= i && i + |t| <= |s| {
        assert s[i..i + |t|][k] == s[i + k];
      }
    }
  }

  // ---------------------------------------------------------------------------
  // `find`, `count` and `replace` (left-to-right, non-overlapping)

  /** `s.find(p)`: the first index at which `p` occurs, or -1 */
  function Find(s: string, p: string): (k: int)
    requires p != []
    ensures -1 <= k
    ensures k >= 0 ==> OccursAt(s, p, k) && forall j :: 0 <= j < k ==> !OccursAt(s, p, j)
    ensures k < 0 ==> forall j :: !OccursAt(s, p, j)
    decreases |s|
  {
    if |s| < |p| then -1
    else if s[..|p|] == p then 0
    else
      var k := Find(s[1..], p);
      assert forall j :: 1 <= j ==> (OccursAt(s, p, j) <==> OccursAt(s[1..], p, j - 1)) by {
        forall j | 1 <= j ensures OccursAt(s, p, j) <==> OccursAt(s[1..], p, j - 1) {
          OccursShift(s, p, 1, j - 1);
        }
      }
      assert !OccursAt(s, p, 0);
      if k < 0 then -1 else k + 1
  }

  /** `s.count(p)` */
  function Count(s: string, p: string): nat
    requires p != []
    decreases |s|
  {
    if |s| < |p| then 0
    else if s[..|p|] == p then 1 + Count(s[|p|..], p)
    else Count(s[1..], p)
  }

  /** `s.replace(p, r)` */
  function Replace(s: string, p: string, r: string): string
    requires p != []
    decreases |s|
  {
    if |s| < |p| then s
    else if s[..|p|] == p then r + Replace(s[|p|..], p, r)
    else [s[0]] + Replace(s[1..], p, r)
  }

  /** no occurrence of `p` in `x + y` starts in `x` and ends in `y` */
  predicate NoStraddle(x: string, y: string, p: string) {
    forall j :: |x| - |p| < j < |x| ==> !OccursAt(x + y, p, j)
  }

  /** `p` has no proper prefix that is also a suffix, so occurrences of `p` cannot overlap */
  predicate BorderFree(p: string) {
    forall k :: 0 < k < |p| ==> Prefix(p, k) != p[|p| - k..]
  }

  function Prefix(p: string, k: nat): string
    requires k <= |p|
  {
    p[..k]
  }

  lemma NoStraddleDrop(x: string, y: string, p: string, m: nat)
    requires m <= |x| && NoStraddle(x, y, p)
    ensures NoStraddle(x[m..], y, p)
  {
    assert (x + y)[m..] == x[m..] + y;
    forall j | |x[m..]| - |p| < j < |x[m..]| ensures !OccursAt(x[m..] + y, p, j) {
      if j >= 0 {
        OccursShift(x + y, p, m, j);
      }
    }
  }

  lemma {:induction false} CountConcat(x: string, y: string, p: string)
    requires p != []
    requires NoStraddle(x, y, p)
    ensures Count(x + y, p) == Count(x, p) + Count(y, p)
    decreases |x|
  {
    var s := x + y;
    if |x| == 0 {
      assert s == y;
    } else if |s| >= |p| {
      assert |x| < |p| ==> s[..|p|] != p by {
        if |x| < |p| {
          assert !OccursAt(s, p, 0);
        }
      }
      if s[..|p|] == p {
        assert x[..|p|] == p;
        assert s[|p|..] == x[|p|..] + y;
        NoStraddleDrop(x, y, p, |p|);
        CountConcat(x[|p|..], y, p);
      } else {
        assert s[1..] == x[1..] + y;
        NoStraddleDrop(x, y, p, 1);
        CountConcat(x[1..], y, p);
        if |x| >= |p| {
          assert x[..|p|] == s[..|p|];
        }
      }
    }
  }

  /** the first character of `y` is not in `p`: nothing straddles */
  lemma NoStraddleBeforeForeign(x: string, y: string, p: string)
    requires |y| > 0 && y[0] !in p
    ensures NoStraddle(x, y, p)
  {
    forall j | |x| - |p| < j < |x| ensures !OccursAt(x + y, p, j) {
      if 0 <= j && j + |p| <= |x + y| {
        var d := |x| - j;
        assert (x + y)[j..j + |p|][d] == y[0];
        assert p[d] in p;
      }
    }
  }

  /** `x` ends with a border-free `p`: nothing straddles */
  lemma NoStraddleAfterPattern(x: string, y: string, p: string)
    requires EndsWith(x, p) && BorderFree(p)
    ensures NoStraddle(x, y, p)
  {
    forall j | |x| - |p| < j < |x| ensures !OccursAt(x + y, p, j) {
      if 0 <= j && j + |p| <= |x + y| {
        var k := |x| - j;
        assert Prefix(p, k) != p[|p| - k..];
        assert (x + y)[j..j + |p|][..k] == x[j..] == p[|p| - k..];
      }
    }
  }

  /** a text in which `p` never occurs counts none and is left alone by `replace` */
  lemma {:induction false} NoOccurrence(s: string, p: string, r: string)
    requires p != []
    requires forall j :: !OccursAt(s, p, j)
    ensures Count(s, p) == 0 && Replace(s, p, r) == s
    decreases |s|
  {
    if |s| >= |p| {
      assert !OccursAt(s, p, 0);
      forall j ensures !OccursAt(s[1..], p, j) {
        if j >= 0 {
          OccursShift(s, p, 1, j);
        }
      }
      NoOccurrence(s[1..], p, r);
    }
  }

  /** a prefix before the first occurrence holds no occurrence */
  lemma BeforeFirst(s: string, p: string, i: nat)
    requires p != [] && i <= |s|
    requires forall j :: 0 <= j < i ==> !OccursAt(s, p, j)
    ensures forall j :: !OccursAt(s[..i], p, j)
  {
    forall j ensures !OccursAt(s[..i], p, j) {
      if 0 <= j && j + |p| <= i {
        assert s[..i][j..j + |p|] == s[j..j + |p|];
        assert !OccursAt(s, p, j);
      }
    }
  }

  /** at the first occurrence, `count` steps over `p` */
  lemma CountFirst(s: string, p: string, i: nat)
    requires p != []
    requires OccursAt(s, p, i) && forall j :: 0 <= j < i ==> !OccursAt(s, p, j)
    ensures Count(s, p) == 1 + Count(s[i + |p|..], p)
  {
    CountFrom(s, p, 0, i);
    assert s[0..] == s;
  }

  /** from any start up to the first occurrence, `count` finds that occurrence first */
  lemma {:induction false} CountFrom(s: string, p: string, k: nat, i: nat)
    requires p != [] && k <= i && OccursAt(s, p, i)
    requires forall j :: k <= j < i ==> !OccursAt(s, p, j)
    ensures Count(s[k..], p) == 1 + Count(s[i + |p|..], p)
    decreases i - k
  {
    if k < i {
      CountFrom(s, p, k + 1, i);
      CountSkip(s, p, k);
    } else {
      CountAt(s, p, i);
    }
  }

  /** a position that does not start `p` adds nothing to the count */
  lemma CountSkip(s: string, p: string, k: nat)
    requires p != [] && k < |s| && !OccursAt(s, p, k)
    ensures Count(s[k..], p) == Count(s[k + 1..], p)
  {
    var t := s[k..];
    assert t[1..] == s[k + 1..];
    if |t| >= |p| {
      assert t[..|p|] == s[k..k + |p|];
    }
  }

  /** an occurrence of `p` is counted and stepped over */
  lemma CountAt(s: string, p: string, i: nat)
    requires p != [] && OccursAt(s, p, i)
    ensures Count(s[i..], p) == 1 + Count(s[i + |p|..], p)
  {
    var t := s[i..];
    assert t[..|p|] == s[i..i + |p|];
    assert t[|p|..] == s[i + |p|..];
  }

  /** at the first occurrence, `replace` keeps the text before it and substitutes `r` */
  lemma ReplaceFirst(s: string, p: string, r: string, i: nat)
    requires p != []
    requires OccursAt(s, p, i) && forall j :: 0 <= j < i ==> !OccursAt(s, p, j)
    ensures Replace(s, p, r) == s[..i] + r + Replace(s[i + |p|..], p, r)
  {
    ReplaceFrom(s, p, r, 0, i);
    assert s[0..] == s && s[0..i] == s[..i];
  }

  /** from any start up to the first occurrence, `replace` copies the text and then substitutes `r` */
  lemma {:induction false} ReplaceFrom(s: string, p: string, r: string, k: nat, i: nat)
    requires p != [] && k <= i && OccursAt(s, p, i)
    requires forall j :: k <= j < i ==> !OccursAt(s, p, j)
    ensures Replace(s[k..], p, r) == s[k..i] + r + Replace(s[i + |p|..], p, r)
    decreases i - k
  {
    if k < i {
      ReplaceFrom(s, p, r, k + 1, i);
      ReplaceSkip(s, p, r, k);
      ConsSlice(s, k, i, r + Replace(s[i + |p|..], p, r));
    } else {
      ReplaceAt(s, p, r, i);
    }
  }

  /** a position that does not start `p` is copied */
  lemma ReplaceSkip(s: string, p: string, r: string, k: nat)
    requires p != [] && k < |s| && !OccursAt(s, p, k)
    ensures Replace(s[k..], p, r) == [s[k]] + Replace(s[k + 1..], p, r)
  {
    var t := s[k..];
    assert t[1..] == s[k + 1..];
    if |t| >= |p| {
      assert t[..|p|] == s[k..k + |p|];
    } else {
      assert [s[k]] + s[k + 1..] == t;
    }
  }

  /** an occurrence of `p` is replaced by `r` */
  lemma ReplaceAt(s: string, p: string, r: string, i: nat)
    requires p != [] && OccursAt(s, p, i)
    ensures Replace(s[i..], p, r) == s[i..i] + r + Replace(s[i + |p|..], p, r)
  {
    var t := s[i..];
    assert t[..|p|] == s[i..i + |p|];
    assert t[|p|..] == s[i + |p|..];
    assert s[i..i] + r == r;
  }

  /** a character in front of the copied stretch that follows it */
  lemma ConsSlice(s: string, k: nat, i: nat, tail: string)
    requires k < i <= |s|
    ensures [s[k]] + (s[k + 1..i] + tail) == s[k..i] + tail
  {
    assert [s[k]] + s[k + 1..i] == s[k..i];
  }

  /**
   * Replacing every `p` by a block `r` that ends with `p` (and holds it `n`
   * times), where `p` is border-free and `r` starts with a character foreign
   * to `p`, multiplies the number of occurrences by `n`.
   */
  lemma {:induction false} ReplaceCount(s: string, p: string, r: string, n: nat)
    requires p != [] && BorderFree(p)
    requires EndsWith(r, p) && r[0] !in p && Count(r, p) == n
    ensures Count(Replace(s, p, r), p) == Count(s, p) * n
    decreases |s|
  {
    var i := Find(s, p);
    if i < 0 {
      NoOccurrence(s, p, r);
    } else {
      var rest := s[i + |p|..];
      ReplaceCount(rest, p, r, n);
      CountFirst(s, p, i);
      CountAfterFirst(s, p, r, n, i);
      MulSucc(Count(rest, p), n);
    }
  }

  /** the first occurrence contributes the `n` copies of its block, the rest is replaced on its own */
  lemma CountAfterFirst(s: string, p: string, r: string, n: nat, i: nat)
    requires p != [] && BorderFree(p)
    requires EndsWith(r, p) && r[0] !in p && Count(r, p) == n
    requires OccursAt(s, p, i) && forall j :: 0 <= j < i ==> !OccursAt(s, p, j)
    ensures Count(Replace(s, p, r), p) == n + Count(Replace(s[i + |p|..], p, r), p)
  {
    var tail := Replace(s[i + |p|..], p, r);
    ReplaceFirst(s, p, r, i);
    BeforeFirst(s, p, i);
    CountAround(s[..i], r, tail, p, n);
  }

  /** a stretch free of `p`, then the block, then the rest: the block's `n` copies and the rest's */
  lemma CountAround(head: string, r: string, tail: string, p: string, n: nat)
    requires p != [] && BorderFree(p)
    requires EndsWith(r, p) && r[0] !in p && Count(r, p) == n
    requires forall j :: !OccursAt(head, p, j)
    ensures Count(head + r + tail, p) == n + Count(tail, p)
  {
    assert head + r + tail == head + (r + tail);
    NoOccurrence(head, p, r);
    NoStraddleBeforeForeign(head, r + tail, p);
    CountConcat(head, r + tail, p);
    NoStraddleAfterPattern(r, tail, p);
    CountConcat(r, tail, p);
  }

  lemma MulSucc(c: nat, n: nat)
    ensures (1 + c) * n == n + c * n
  {
  }

  /** replacing `p` by a block that contains `m` leaves `m` in the result whenever `p` occurred */
  lemma ReplaceIntroduces(s: string, p: string, r: string, m: string)
    requires p != [] && Contains(s, p) && Contains(r, m)
    ensures Contains(Replace(s, p, r), m)
  {
    var i := Find(s, p);
    ReplaceFirst(s, p, r, i);
    ContainsWidens(s[..i], r, Replace(s[i + |p|..], p, r), m);
  }

  /** `replace` introduces no character that neither the text nor the replacement holds */
  lemma {:induction false} ReplaceKeepsOut(s: string, p: string, r: string, c: char)
    requires p != [] && c !in s && c !in r
    ensures c !in Replace(s, p, r)
    decreases |s|
  {
    if |s| >= |p| {
      if s[..|p|] == p {
        ReplaceKeepsOut(s[|p|..], p, r, c);
      } else {
        ReplaceKeepsOut(s[1..], p, r, c);
      }
    }
  }

  /** replacing a character by text without it removes every occurrence of the character */
  lemma {:induction false} ReplaceCharGone(s: string, c: char, r: string)
    requires c !in r
    ensures c !in Replace(s, [c], r)
    decreases |s|
  {
    if |s| >= 1 {
      if s[..1] == [c] {
        ReplaceCharGone(s[1..], c, r);
      } else {
        assert s[0] != c;
        ReplaceCharGone(s[1..], c, r);
      }
    }
  }

  // ---------------------------------------------------------------------------
  // Decimal formatting: `str(n)` and `f"{n:0Wd}"`

  predicate IsDigits(s: string) {
    forall i :: 0 <= i < |s| ==> '0' <= s[i] <= '9'
  }

  function DigitChar(d: nat): (c: char)
    requires d < 10
    ensures '0' <= c <= '9'
  {
    ('0' as int + d) as char
  }

  /** `str(n)` for a natural number: no leading zero, at least one digit */
  function Decimal(n: nat): (r: string)
    ensures |r| >= 1 && IsDigits(r)
    ensures n < 10 <==> |r| == 1
    decreases n
  {
    if n < 10 then [DigitChar(n)] else Decimal(n / 10) + [DigitChar(n % 10)]
  }

  /** the number a string of digits denotes */
  function DecimalValue(s: string): nat
    requires IsDigits(s)
    decreases |s|
  {
    if s == [] then 0 else DecimalValue(s[..|s| - 1]) * 10 + (s[|s| - 1] as int - '0' as int)
  }

  function Zeros(k: nat): (z: string)
    ensures |z| == k && IsDigits(z)
  {
    seq(k, _ => '0')
  }

  /** `f"{n:0{width}d}"`: `str(n)` left-padded with zeros to at least `width` characters */
  function ZeroPad(n: nat, width: nat): (r: string)
    ensures IsDigits(r) && |r| >= width
  {
    var d := Decimal(n);
    if |d| >= width then d else Zeros(width - |d|) + d
  }

  lemma {:induction false} DecimalValueOfDecimal(n: nat)
    ensures DecimalValue(Decimal(n)) == n
    decreases n
  {
    if n >= 10 {
      DecimalValueOfDecimal(n / 10);
      var d := Decimal(n);
      assert d[..|d| - 1] == Decimal(n / 10);
    }
  }

  lemma {:induction false} LeadingZeros(k: nat, s: string)
    requires IsDigits(s)
    ensures DecimalValue(Zeros(k) + s) == DecimalValue(s)
    decreases |s|
  {
    var t := Zeros(k) + s;
    if s == [] {
      assert t == Zeros(k);
      ZerosValue(k);
    } else {
      assert t[..|t| - 1] == Zeros(k) + s[..|s| - 1];
      LeadingZeros(k, s[..|s| - 1]);
    }
  }

  lemma {:induction false} ZerosValue(k: nat)
    ensures DecimalValue(Zeros(k)) == 0
    decreases k
  {
    if k > 0 {
      assert Zeros(k)[..k - 1] == Zeros(k - 1);
      ZerosValue(k - 1);
    }
  }

  /** padding never changes the number that is written */
  lemma ZeroPadValue(n: nat, width: nat)
    ensures DecimalValue(ZeroPad(n, width)) == n
  {
    var d := Decimal(n);
    var z := ZeroPad(n, width);
    if |d| < width {
      assert z == Zeros(width - |d|) + d;
      LeadingZeros(width - |d|, d);
    } else {
      assert z == d;
    }
    assert DecimalValue(z) == DecimalValue(d);
    DecimalValueOfDecimal(n);
  }

  /** distinct numbers are formatted differently */
  lemma ZeroPadInjective(m: nat, n: nat, width: nat)
    requires ZeroPad(m, width) == ZeroPad(n, width)
    ensures m == n
  {
    ZeroPadValue(m, width);
    ZeroPadValue(n, width);
  }

  /**
   * A name of the form `f"{stem}_{n:0{width}d}"` determines its number:
   * the digits after the last `_` are the padded number, whatever the stem.
   */
  /** a common ending cancels */
  lemma SuffixCancels(a: string, b: string, t: string)
    requires a + t == b + t
    ensures a == b
  {
    assert |a| == |b|;
    assert a == (a + t)[..|a|];
    assert b == (b + t)[..|b|];
  }

  /** a common beginning cancels */
  lemma PrefixCancels(t: string, a: string, b: string)
    requires t + a == t + b
    ensures a == b
  {
    assert a == (t + a)[|t|..];
    assert b == (t + b)[|t|..];
  }

  lemma NumberedNameInjective(a: string, b: string, m: nat, n: nat, width: nat)
    requires a + "_" + ZeroPad(m, width) == b + "_" + ZeroPad(n, width)
    ensures m == n
  {
    var s := a + "_" + ZeroPad(m, width);
    LastUnderscore(a, ZeroPad(m, width));
    LastUnderscore(b, ZeroPad(n, width));
    assert |a| == |b|;
    assert s[|a| + 1..] == ZeroPad(m, width);
    assert (b + "_" + ZeroPad(n, width))[|b| + 1..] == ZeroPad(n, width);
    ZeroPadInjective(m, n, width);
  }

  lemma LastUnderscore(a: string, d: string)
    requires IsDigits(d)
    ensures LastIndex(a + "_" + d, '_') == |a|
  {
    var p := a + "_";
    var s := p + d;
    assert p[|a|] == '_';
    assert s[|a|] == p[|a|];
    assert s[|p|..] == d;
    forall j | |p| <= j < |s| ensures s[j] != '_' {
      assert s[j] == s[|p|..][j - |p|];
    }
    LastIndexAt(s, '_', |a|);
  }

  /** the last `c` is at `i` when `s[i]` is `c` and no later character is */
  lemma LastIndexAt(s: string, c: char, i: int)
    requires 0 <= i < |s| && s[i] == c
    requires forall j :: i < j < |s| ==> s[j] != c
    ensures LastIndex(s, c) == i
  {
    var k := LastIndex(s, c);
    assert k >= i;
  }

  /** a number below 10^2 is padded to exactly two digits */
  lemma ZeroPadTwo(n: nat)
    requires n < 100
    ensures |ZeroPad(n, 2)| == 2
  {
    if n >= 10 {
      assert |Decimal(n / 10)| == 1;
    }
  }

  // ---------------------------------------------------------------------------
  // Whitespace and `strip`

  /** `c.isspace()`, which is also what `\s` matches in a `str` regular expression */
  predicate IsSpace(c: char) {
    || '\t' <= c <= '\r'
    || '\U{1C}' <= c <= '\U{1F}'
    || c == ' '
    || c == '\U{85}'
    || c == '\U{A0}'
    || c == '\U{1680}'
    || '\U{2000}' <= c <= '\U{200A}'
    || c == '\U{2028}'
    || c == '\U{2029}'
    || c == '\U{202F}'
    || c == '\U{205F}'
    || c == '\U{3000}'
  }

  predicate AllSpace(s: string) {
    forall i :: 0 <= i < |s| ==> IsSpace(s[i])
  }

  /** every character of `s[i..j]` is a blank */
  predicate Blank(s: string, i: int, j: int) {
    0 <= i <= j <= |s| && forall k :: i <= k < j ==> IsSpace(s[k])
  }

  /** the end of the run of blanks that starts at `i` */
  function BlanksFrom(s: string, i: nat): (j: nat)
    requires i <= |s|
    ensures i <= j <= |s| && Blank(s, i, j) && (j == |s| || !IsSpace(s[j]))
    decreases |s| - i
  {
    if i < |s| && IsSpace(s[i]) then BlanksFrom(s, i + 1) else i
  }

  /** the start of the run of blanks that ends at `j` */
  function BlanksBefore(s: string, j: nat): (i: nat)
    requires j <= |s|
    ensures i <= j && Blank(s, i, j) && (i == 0 || !IsSpace(s[i - 1]))
    decreases j
  {
    if 0 < j && IsSpace(s[j - 1]) then BlanksBefore(s, j - 1) else j
  }

  /** the run of blanks from `i` ends at the first non-blank at or after `i`, and nowhere else */
  lemma BlanksFromUnique(s: string, i: nat, j: nat)
    requires i <= j <= |s| && Blank(s, i, j) && (j == |s| || !IsSpace(s[j]))
    ensures BlanksFrom(s, i) == j
  {
  }

  /** the run of blanks that ends at `j` starts at or before any blank stretch ending there */
  lemma {:induction false} BlanksBeforeLeast(s: string, k: nat, j: nat)
    requires Blank(s, k, j)
    ensures BlanksBefore(s, j) <= k
    decreases j
  {
    if k < j {
      BlanksBeforeLeast(s, k, j - 1);
    }
  }

  /** `s.lstrip()`: everything from the first non-blank on */
  function TrimLeft(s: string): string {
    s[BlanksFrom(s, 0)..]
  }

  /** `s.rstrip()`: everything up to the last non-blank */
  function TrimRight(s: string): string {
    s[..BlanksBefore(s, |s|)]
  }

  /** `s.strip()` */
  function Strip(s: string): string {
    TrimRight(TrimLeft(s))
  }

  /** leading blanks make no difference to `lstrip` */
  lemma TrimLeftSkipsSpace(w: string, s: string)
    requires AllSpace(w)
    ensures TrimLeft(w + s) == TrimLeft(s)
  {
    var n := BlanksFrom(s, 0);
    var ws := w + s;
    forall k | 0 <= k < |w| + n
      ensures IsSpace(ws[k])
    {
      if k >= |w| {
        assert ws[k] == s[k - |w|];
      }
    }
    if |w| + n < |ws| {
      assert ws[|w| + n] == s[n];
    }
    BlanksFromUnique(ws, 0, |w| + n);
    assert ws[|w| + n..] == s[n..];
  }

  lemma TrimLeftStopsAtText(s: string)
    requires s != [] && !IsSpace(s[0])
    ensures TrimLeft(s) == s
  {
  }

  /** `rstrip` keeps a prefix that ends in a non-blank */
  lemma TrimRightKeepsStart(s: string, p: string)
    requires StartsWith(s, p) && p != [] && !IsSpace(p[|p| - 1])
    ensures StartsWith(TrimRight(s), p)
  {
    assert s[|p| - 1] == p[|p| - 1];
    var b := BlanksBefore(s, |s|);
    assert b >= |p|;
    assert TrimRight(s)[..|p|] == s[..|p|];
  }

  // ---------------------------------------------------------------------------
  // `s.split(sep)` and `sep.join(parts)` for a one-character separator

  /** `s.split(sep)`: the pieces between separators, at least one */
  function Split(s: string, sep: char): (parts: seq<string>)
    ensures |parts| >= 1
    ensures forall k :: 0 <= k < |parts| ==> sep !in parts[k]
    decreases |s|
  {
    if s == [] then [""]
    else
      var rest := Split(s[1..], sep);
      if s[0] == sep then [""] + rest
      else [[s[0]] + rest[0]] + rest[1..]
  }

  /** `sep.join(parts)` */
  function Join(parts: seq<string>, sep: char): string
    decreases |parts|
  {
    if parts == [] then ""
    else if |parts| == 1 then parts[0]
    else parts[0] + [sep] + Join(parts[1..], sep)
  }

  lemma JoinCons(x: string, parts: seq<string>, sep: char)
    requires parts != []
    ensures Join([x] + parts, sep) == x + [sep] + Join(parts, sep)
  {
    assert ([x] + parts)[1..] == parts;
  }

  lemma JoinPrepend(c: char, parts: seq<string>, sep: char)
    requires parts != []
    ensures Join([[c] + parts[0]] + parts[1..], sep) == [c] + Join(parts, sep)
  {
    if |parts| > 1 {
      assert ([[c] + parts[0]] + parts[1..])[1..] == parts[1..];
    }
  }

  /** joining the pieces of a split gives the text back */
  lemma {:induction false} JoinSplit(s: string, sep: char)
    ensures Join(Split(s, sep), sep) == s
    decreases |s|
  {
    if s != [] {
      var rest := Split(s[1..], sep);
      JoinSplit(s[1..], sep);
      if s[0] == sep {
        JoinCons("", rest, sep);
        assert "" + [sep] + s[1..] == s;
      } else {
        JoinPrepend(s[0], rest, sep);
        assert [s[0]] + s[1..] == s;
      }
    }
  }

  /** `s[:n]`: the first `n` items, or all of them when there are fewer */
  function Take<T>(s: seq<T>, n: nat): (r: seq<T>)
    ensures |r| <= n && |r| <= |s| && r == s[..|r|]
    ensures |r| < n ==> r == s
  {
    if |s| <= n then s else s[..n]
  }
}
