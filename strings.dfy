/**
 * The string primitives the scanner and the crawler rely on, over `seq<char>`:
 * ASCII lower-casing (`str.lower`), substring containment (`p in s`),
 * deletion of every occurrence of a phrase (`s.replace(p, "")`), and the
 * decimal conversions `str.isdigit`, `int(s)` and `str(n)`.
 */
module Strings {

  /** ASCII lower-casing of one character; every other character is left alone. */
  function LowerChar(c: char): char {
    if 'A' <= c <= 'Z' then (c as int + 32) as char else c
  }

  /** `s.lower()`, restricted to ASCII letters. */
  function Lower(s: string): string {
    seq(|s|, i requires 0 <= i < |s| => LowerChar(s[i]))
  }

  /** Lower-casing twice is lower-casing once. */
  lemma LowerIdempotent(s: string)
    ensures Lower(Lower(s)) == Lower(s)
  {
  }

  /** `s.startswith(p)`. */
  predicate StartsWith(s: string, p: string) {
    |p| <= |s| && s[..|p|] == p
  }

  /** `p in s`: `p` occurs in `s` as a contiguous substring; the empty string occurs everywhere. */
  predicate Contains(s: string, p: string)
    decreases |s|
  {
    StartsWith(s, p) || (s != [] && Contains(s[1..], p))
  }

  /** A text shorter than `p` does not contain it. */
  lemma {:induction false} ShorterNotContains(s: string, p: string)
    requires |s| < |p|
    ensures !Contains(s, p)
    decreases |s|
  {
    if s != [] {
      ShorterNotContains(s[1..], p);
    }
  }

  /** `p` occurs in `s` starting at position `i`. */
  predicate OccursAt(s: string, p: string, i: int) {
    0 <= i <= |s| - |p| && s[i..i + |p|] == p
  }

  /** `Contains` agrees with the positional reading of `p in s`: some window of `s` equals `p`. */
  lemma {:induction false} ContainsAt(s: string, p: string)
    ensures Contains(s, p) <==> exists i :: OccursAt(s, p, i)
    decreases |s|
  {
    if s == [] {
      if exists i :: OccursAt(s, p, i) {
        var i :| OccursAt(s, p, i);
        assert StartsWith(s, p);
      }
      if Contains(s, p) {
        assert OccursAt(s, p, 0);
      }
    } else {
      ContainsAt(s[1..], p);
      if StartsWith(s, p) {
        assert OccursAt(s, p, 0);
      } else if Contains(s[1..], p) {
        var i :| OccursAt(s[1..], p, i);
        assert s[i + 1..i + 1 + |p|] == s[1..][i..i + |p|];
        assert OccursAt(s, p, i + 1);
      }
      if exists i :: OccursAt(s, p, i) {
        var i :| OccursAt(s, p, i);
        if i > 0 {
          assert s[1..][i - 1..i - 1 + |p|] == s[i..i + |p|];
          assert OccursAt(s[1..], p, i - 1);
        } else {
          assert StartsWith(s, p);
        }
      }
    }
  }

  /**
   * `s.replace(p, "")`: scanning left to right, every occurrence of `p` that
   * does not overlap an earlier deleted one is deleted. An empty `p` leaves
   * `s` as it is. Deleting never lengthens the text, deletes something
   * whenever `p` occurs, and is the identity when `p` does not occur.
   */
  function ReplaceAll(s: string, p: string): (r: string)
    ensures |r| <= |s|
    ensures p != [] && Contains(s, p) ==> |r| < |s|
    ensures !Contains(s, p) ==> r == s
    ensures p == [] ==> r == s
    decreases |s|
  {
    if p == [] || s == [] then s
    else if StartsWith(s, p) then ReplaceAll(s[|p|..], p)
    else [s[0]] + ReplaceAll(s[1..], p)
  }

  /** A prefix that cannot start `p` is kept as it is, and the rest is edited on its own. */
  lemma {:induction false} ReplaceAllSkip(a: string, b: string, p: string)
    requires p != [] && p[0] !in a
    ensures ReplaceAll(a + b, p) == a + ReplaceAll(b, p)
  {
    if a != [] {
      assert (a + b)[1..] == a[1..] + b;
      assert !StartsWith(a + b, p) by {
        assert (a + b)[0] == a[0];
      }
      ReplaceAllSkip(a[1..], b, p);
    } else {
      assert a + b == b;
    }
  }

  /** A prefix that cannot start `p` holds no occurrence of it. */
  lemma {:induction false} ContainsSkip(a: string, b: string, p: string)
    requires p != [] && p[0] !in a
    ensures Contains(a + b, p) == Contains(b, p)
  {
    if a != [] {
      assert (a + b)[1..] == a[1..] + b;
      assert !StartsWith(a + b, p) by {
        assert (a + b)[0] == a[0];
      }
      ContainsSkip(a[1..], b, p);
    } else {
      assert a + b == b;
    }
  }

  /** A phrase in either part of a concatenation is in the whole. */
  lemma ContainsConcat(a: string, b: string, p: string)
    requires Contains(a, p) || Contains(b, p)
    ensures Contains(a + b, p)
  {
    ContainsAt(a, p);
    ContainsAt(b, p);
    ContainsAt(a + b, p);
    if Contains(a, p) {
      var i :| OccursAt(a, p, i);
      assert (a + b)[i..i + |p|] == a[i..i + |p|];
      assert OccursAt(a + b, p, i);
    } else {
      var i :| OccursAt(b, p, i);
      assert (a + b)[|a| + i..|a| + i + |p|] == b[i..i + |p|];
      assert OccursAt(a + b, p, |a| + i);
    }
  }

  /** Lower-casing works character by character, so it distributes over concatenation. */
  lemma LowerConcat(a: string, b: string)
    ensures Lower(a + b) == Lower(a) + Lower(b)
  {
  }

  /** ASCII decimal digit. */
  predicate IsDigit(c: char) {
    '0' <= c <= '9'
  }

  /** `s.isdigit()` over ASCII: non-empty and made only of digits. */
  predicate IsDigits(s: string) {
    s != [] && forall i :: 0 <= i < |s| ==> IsDigit(s[i])
  }

  /** `int(s)` for a string of decimal digits, leading zeros allowed. */
  function DecimalValue(s: string): nat
    requires forall i :: 0 <= i < |s| ==> IsDigit(s[i])
  {
    if s == [] then 0
    else
      assert IsDigit(s[|s| - 1]);
      DecimalValue(s[..|s| - 1]) * 10 + (s[|s| - 1] as int - '0' as int)
  }

  /** The digit character for `d`. */
  function DigitChar(d: nat): char
    requires d < 10
  {
    ('0' as int + d) as char
  }

  /** `str(n)`: the decimal spelling of `n`, which `int` reads back as `n`. */
  function NatToString(n: nat): (r: string)
    ensures IsDigits(r)
    ensures DecimalValue(r) == n
    ensures r[0] == '0' ==> r == "0"
  {
    if n < 10 then [DigitChar(n)]
    else
      var front := NatToString(n / 10);
      assert (front + [DigitChar(n % 10)])[..|front|] == front;
      front + [DigitChar(n % 10)]
  }
}
