/**
 * The few string operations of the Java library that the modelled code relies on:
 * decimal rendering of an index ("instance-" + i), ASCII lower-casing and substring search.
 */
module Strings {

  function DigitChar(d: nat): char
    requires d < 10
  {
    "0123456789"[d]
  }

  /** Decimal rendering of a non-negative int, as Java's string concatenation produces it. */
  function NatToString(n: nat): (s: string)
    ensures 1 <= |s|
    ensures n < 10 <==> |s| == 1
    decreases n
  {
    if n < 10 then [DigitChar(n)] else NatToString(n / 10) + [DigitChar(n % 10)]
  }

  /** Distinct indexes render as distinct strings. */
  lemma {:induction false} NatToStringInjective(a: nat, b: nat)
    requires NatToString(a) == NatToString(b)
    ensures a == b
    decreases a
  {
    var s := NatToString(a);
    if a < 10 || b < 10 {
      assert a < 10 && b < 10;
      assert DigitChar(a) == s[0] == DigitChar(b);
    } else {
      var pa, pb := NatToString(a / 10), NatToString(b / 10);
      assert s == pa + [DigitChar(a % 10)] == pb + [DigitChar(b % 10)];
      assert DigitChar(a % 10) == s[|s| - 1] == DigitChar(b % 10);
      assert pa == s[..|s| - 1] == pb;
      NatToStringInjective(a / 10, b / 10);
    }
  }

  /** Lower-casing of one character; only the ASCII letters A-Z change. */
  function LowerChar(c: char): char
  {
    if 'A' <= c <= 'Z' then (c as int - 'A' as int + 'a' as int) as char else c
  }

  function ToLower(s: string): string
  {
    seq(|s|, i requires 0 <= i < |s| => LowerChar(s[i]))
  }

  /** `t` occurs in `s` starting at position `i`. */
  predicate OccursAt(s: string, t: string, i: int)
  {
    0 <= i && i + |t| <= |s| && s[i..i + |t|] == t
  }

  /** Java's `s.contains(t)`, as a left-to-right scan. */
  function Contains(s: string, t: string): (b: bool)
    ensures b <==> exists i :: OccursAt(s, t, i)
    decreases |s|
  {
    if |s| < |t| then
      assert forall i :: !OccursAt(s, t, i);
      false
    else if s[..|t|] == t then
      assert OccursAt(s, t, 0);
      true
    else
      var rest := Contains(s[1..], t);
      assert forall i :: OccursAt(s[1..], t, i) <==> OccursAt(s, t, i + 1) by {
        forall i ensures OccursAt(s[1..], t, i) <==> OccursAt(s, t, i + 1) {
          if 0 <= i && i + |t| <= |s| - 1 {
            assert s[1..][i..i + |t|] == s[i + 1..i + 1 + |t|];
          }
        }
      }
      assert !OccursAt(s, t, 0);
      assert rest ==> exists i :: OccursAt(s, t, i) by {
        if rest {
          var j :| OccursAt(s[1..], t, j);
          assert OccursAt(s, t, j + 1);
        }
      }
      assert (exists i :: OccursAt(s, t, i)) ==> rest by {
        if exists i :: OccursAt(s, t, i) {
          var j :| OccursAt(s, t, j);
          assert j != 0;
          assert OccursAt(s[1..], t, j - 1);
        }
      }
      rest
  }
}
