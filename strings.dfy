/** The string rules the services rely on: JavaScript's `split(c).pop()`,
    an unanchored regular-expression alternative test, `slice(0, n)`,
    `toLowerCase()` on ASCII letters, and decimal printing and parsing of
    natural numbers (template literals and `parseInt(s, 10)`). */
module Strings {

  predicate IsDigit(c: char) { '0' <= c <= '9' }

  predicate AllDigits(s: string) { forall i :: 0 <= i < |s| ==> IsDigit(s[i]) }

  function DigitChar(d: nat): (c: char)
    requires d < 10
    ensures IsDigit(c)
  {
    (48 + d) as char
  }

  function DigitValue(c: char): (d: nat)
    requires IsDigit(c)
    ensures d < 10
  {
    (c as int) - 48
  }

  /** Decimal rendering of `n`, as a template literal prints a number. */
  function NatToString(n: nat): (s: string)
    ensures 1 <= |s| && AllDigits(s)
  {
    if n < 10 then [DigitChar(n)] else NatToString(n / 10) + [DigitChar(n % 10)]
  }

  /** `parseInt(s, 10)` on a string of decimal digits. */
  function ParseDecimal(s: string): nat
    requires AllDigits(s)
  {
    if s == [] then 0 else 10 * ParseDecimal(s[..|s| - 1]) + DigitValue(s[|s| - 1])
  }

  /** Parsing what was printed gives the number back. */
  lemma {:induction false} ParseNatToString(n: nat)
    ensures ParseDecimal(NatToString(n)) == n
  {
    var s := NatToString(n);
    if n < 10 {
      assert s[..|s| - 1] == [];
    } else {
      var p := NatToString(n / 10);
      assert s == p + [DigitChar(n % 10)];
      assert s[..|s| - 1] == p;
      ParseNatToString(n / 10);
    }
  }

  predicate StartsWith(s: string, prefix: string) {
    |prefix| <= |s| && s[..|prefix|] == prefix
  }

  /** `t` occurs in `s` starting at index `i`. */
  ghost predicate OccursAt(s: string, t: string, i: int) {
    0 <= i && i + |t| <= |s| && s[i..i + |t|] == t
  }

  /** Unanchored search, left to right, as a regular expression without
      anchors matches anywhere in its subject. */
  predicate Contains(s: string, t: string)
    decreases |s|
  {
    StartsWith(s, t) || (0 < |s| && Contains(s[1..], t))
  }

  /** The search finds `t` exactly when `t` occurs at some index of `s`. */
  lemma {:induction false} ContainsIffOccurs(s: string, t: string)
    ensures Contains(s, t) <==> exists i :: OccursAt(s, t, i)
    decreases |s|
  {
    if StartsWith(s, t) {
      assert OccursAt(s, t, 0);
    } else if 0 < |s| {
      ContainsIffOccurs(s[1..], t);
      if Contains(s[1..], t) {
        var j :| OccursAt(s[1..], t, j);
        assert s[1..][j..j + |t|] == s[j + 1..j + 1 + |t|];
        assert OccursAt(s, t, j + 1);
      } else {
        forall i | OccursAt(s, t, i) ensures false {
          assert i != 0;
          assert s[1..][i - 1..i - 1 + |t|] == s[i..i + |t|];
          assert OccursAt(s[1..], t, i - 1);
        }
      }
    } else {
      forall i | OccursAt(s, t, i) ensures false { }
    }
  }

  /** An occurrence of `t` carries every character of `t` into `s`. */
  lemma OccurrenceChars(s: string, t: string, i: int, k: int)
    requires OccursAt(s, t, i) && 0 <= k < |t|
    ensures t[k] in s
  {
    assert s[i..i + |t|][k] == s[i + k];
  }

  /** A pattern holding a character its subject lacks is not found. */
  lemma {:induction false} MissingCharNotContained(s: string, t: string, k: int)
    requires 0 <= k < |t| && t[k] !in s
    ensures !Contains(s, t)
    ensures forall i :: !OccursAt(s, t, i)
  {
    ContainsIffOccurs(s, t);
    forall i | OccursAt(s, t, i) ensures false {
      OccurrenceChars(s, t, i, k);
    }
  }

  /** JavaScript's `s.split(c).pop()`: the text after the last `c`, or all
      of `s` when `c` does not occur in it. */
  function AfterLast(s: string, c: char): (r: string)
    ensures c !in r
    ensures |r| <= |s| && r == s[|s| - |r|..]
    ensures |r| < |s| ==> s[|s| - |r| - 1] == c
  {
    if s == [] then []
    else if s[|s| - 1] == c then []
    else AfterLast(s[..|s| - 1], c) + [s[|s| - 1]]
  }

  /** A `c`-free string is its own last segment. */
  lemma {:induction false} AfterLastWithout(s: string, c: char)
    requires c !in s
    ensures AfterLast(s, c) == s
  {
    if s != [] {
      AfterLastWithout(s[..|s| - 1], c);
      assert s[..|s| - 1] + [s[|s| - 1]] == s;
    }
  }

  /** After a `c` and a `c`-free tail, the last segment is that tail,
      whatever comes before. */
  lemma {:induction false} AfterLastOfJoin(head: string, c: char, tail: string)
    requires c !in tail
    ensures AfterLast(head + [c] + tail, c) == tail
  {
    var s := head + [c] + tail;
    if tail != [] {
      var t' := tail[..|tail| - 1];
      assert s[..|s| - 1] == head + [c] + t';
      AfterLastOfJoin(head, c, t');
      assert t' + [tail[|tail| - 1]] == tail;
    }
  }

  /** JavaScript's `s.slice(0, n)`. */
  function Take(s: string, n: nat): string {
    if n <= |s| then s[..n] else s
  }

  function LowerChar(c: char): char {
    if 'A' <= c <= 'Z' then (c as int + 32) as char else c
  }

  /** `toLowerCase()` restricted to the ASCII letters. */
  function ToLower(s: string): string {
    seq(|s|, i requires 0 <= i < |s| => LowerChar(s[i]))
  }
}
