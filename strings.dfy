/** Character-level helpers the models and views rely on: the ASCII case
    folding behind Django's `icontains` lookup, `os.path.basename` on a stored
    file name, and the decimal text of a primary key inside a URL. */
module Strings {
  import opened Maybe

  /** Python's truth test on an optional string: present and not empty. */
  predicate Truthy(o: Option<string>) {
    o.Some? && o.value != ""
  }

  /** ASCII lower-casing of one character; every other character is kept. */
  function LowerChar(c: char): char {
    if 'A' <= c <= 'Z' then (c as int + 32) as char else c
  }

  function Lower(s: string): (r: string)
    ensures |r| == |s|
    ensures forall i :: 0 <= i < |s| ==> r[i] == LowerChar(s[i])
  {
    seq(|s|, i requires 0 <= i < |s| => LowerChar(s[i]))
  }

  /** `q` occurs in `s` starting at index `i`. */
  predicate OccursAt(q: string, s: string, i: int) {
    0 <= i && i + |q| <= |s| && s[i..i + |q|] == q
  }

  /** Substring search, as SQL `LIKE '%q%'` once `%` and `_` in `q` are escaped. */
  function Contains(s: string, q: string): (b: bool)
    ensures b <==> exists i :: OccursAt(q, s, i)
    decreases |s|
  {
    if |q| > |s| then false
    else if s[..|q|] == q then assert OccursAt(q, s, 0); true
    else ShiftOccurrence(q, s); Contains(s[1..], q)
  }

  /** When `q` is not at the front of `s`, it occurs in `s` iff it occurs in `s[1..]`. */
  lemma ShiftOccurrence(q: string, s: string)
    requires |q| <= |s| && s[..|q|] != q
    ensures (exists i :: OccursAt(q, s, i)) <==> (exists j :: OccursAt(q, s[1..], j))
  {
    if i :| OccursAt(q, s, i) {
      assert i != 0;
      assert s[1..][i - 1..i - 1 + |q|] == s[i..i + |q|];
      assert OccursAt(q, s[1..], i - 1);
    }
    if j :| OccursAt(q, s[1..], j) {
      assert s[j + 1..j + 1 + |q|] == s[1..][j..j + |q|];
      assert OccursAt(q, s, j + 1);
    }
  }

  /** Django's `icontains`: case-insensitive substring test (ASCII folding). */
  predicate IContains(s: string, q: string) {
    Contains(Lower(s), Lower(q))
  }

  /** `q` matches `s` at index `i` when corresponding characters agree up to ASCII case. */
  predicate FoldedAt(s: string, q: string, i: int) {
    0 <= i && i + |q| <= |s| && forall k :: 0 <= k < |q| ==> LowerChar(s[i + k]) == LowerChar(q[k])
  }

  /** `icontains` finds `q` in `s` exactly when some window of `s` agrees with
      `q` character by character, ignoring ASCII case. */
  lemma IContainsIgnoresCase(s: string, q: string)
    ensures IContains(s, q) <==> exists i :: FoldedAt(s, q, i)
  {
    var ls, lq := Lower(s), Lower(q);
    forall i
      ensures OccursAt(lq, ls, i) <==> FoldedAt(s, q, i)
    {
      if 0 <= i && i + |q| <= |s| {
        if OccursAt(lq, ls, i) {
          forall k | 0 <= k < |q|
            ensures LowerChar(s[i + k]) == LowerChar(q[k])
          {
            assert ls[i..i + |q|][k] == lq[k];
          }
        }
        if FoldedAt(s, q, i) {
          assert ls[i..i + |q|] == lq;
        }
      }
    }
  }

  /** `os.path.basename`: the part of `p` after its last '/'. */
  function Basename(p: string): (r: string)
    ensures |r| <= |p| && r == p[|p| - |r|..]
    ensures '/' !in r
    ensures |r| < |p| ==> p[|p| - |r| - 1] == '/'
    decreases |p|
  {
    if p == [] then []
    else if p[|p| - 1] == '/' then []
    else
      var init, last := p[..|p| - 1], p[|p| - 1];
      var b := Basename(init);
      assert p == init + [last];
      assert p[|p| - |b| - 1..] == init[|init| - |b|..] + [last];
      assert |b| < |init| ==> p[|p| - |b| - 2] == init[|init| - |b| - 1];
      b + [last]
  }

  predicate IsDigit(c: char) {
    '0' <= c <= '9'
  }

  predicate AllDigits(s: string) {
    forall i :: 0 <= i < |s| ==> IsDigit(s[i])
  }

  function DigitChar(d: nat): (c: char)
    requires d < 10
    ensures IsDigit(c)
  {
    ('0' as int + d) as char
  }

  /** Python's `str(n)` for a non-negative integer. */
  function Decimal(n: nat): (s: string)
    ensures s != [] && AllDigits(s)
    decreases n
  {
    if n < 10 then [DigitChar(n)] else Decimal(n / 10) + [DigitChar(n % 10)]
  }

  /** Python's `int(s)` on a string of decimal digits. */
  function DigitsValue(s: string): nat
    requires AllDigits(s)
    decreases |s|
  {
    if s == [] then 0 else DigitsValue(s[..|s| - 1]) * 10 + (s[|s| - 1] as int - '0' as int)
  }

  /** Reading back the decimal text of `n` gives `n`. */
  lemma {:induction false} DecimalRoundTrip(n: nat)
    ensures DigitsValue(Decimal(n)) == n
  {
    var s := Decimal(n);
    if n < 10 {
      assert s[..|s| - 1] == [];
    } else {
      DecimalRoundTrip(n / 10);
      assert s[..|s| - 1] == Decimal(n / 10);
    }
  }
}
