/**
 * Python's ordering of strings (lexicographic by code point, a proper prefix
 * first) and sorted, duplicate-free insertion under that order: the
 * `sorted(...)` of distinct strings that the tower-address listing returns.
 */
module TextOrder {

  /** `a < b` on Python strings. */
  predicate Less(a: string, b: string) {
    if |a| == 0 then |b| > 0
    else if |b| == 0 then false
    else if a[0] == b[0] then Less(a[1..], b[1..])
    else a[0] < b[0]
  }

  lemma {:induction false} LessIrreflexive(a: string)
    ensures !Less(a, a)
  {
    if |a| > 0 {
      LessIrreflexive(a[1..]);
    }
  }

  lemma LessAsymmetric(a: string, b: string)
    requires Less(a, b)
    ensures !Less(b, a)
  {
    if Less(b, a) {
      LessTransitive(a, b, a);
      LessIrreflexive(a);
    }
  }

  /** Two different strings are ordered one way or the other. */
  lemma {:induction false} LessTotal(a: string, b: string)
    requires a != b
    ensures Less(a, b) || Less(b, a)
  {
    if |a| > 0 && |b| > 0 && a[0] == b[0] {
      assert a == [a[0]] + a[1..] && b == [b[0]] + b[1..];
      LessTotal(a[1..], b[1..]);
    }
  }

  lemma {:induction false} LessTransitive(a: string, b: string, c: string)
    requires Less(a, b) && Less(b, c)
    ensures Less(a, c)
  {
    if |a| > 0 && |b| > 0 && |c| > 0 && a[0] == b[0] && b[0] == c[0] {
      LessTransitive(a[1..], b[1..], c[1..]);
    }
  }

  /** Each string is strictly below its successor. */
  predicate StrictlySorted(s: seq<string>) {
    forall i :: 0 < i < |s| ==> Less(s[i - 1], s[i])
  }

  /**
   * A strictly sorted list is ordered between any two positions, and so
   * holds no string twice.
   */
  lemma {:induction false} StrictlySortedIsDistinct(s: seq<string>, i: nat, j: nat)
    requires StrictlySorted(s)
    requires i < j < |s|
    ensures Less(s[i], s[j]) && s[i] != s[j]
    decreases j - i
  {
    if i + 1 < j {
      StrictlySortedIsDistinct(s, i + 1, j);
      LessTransitive(s[i], s[i + 1], s[j]);
    }
    if s[i] == s[j] {
      LessIrreflexive(s[i]);
    }
  }

  /** Places `x` in the sorted list `s`, unless it is already there. */
  function Insert(s: seq<string>, x: string): (r: seq<string>)
    requires StrictlySorted(s)
    ensures StrictlySorted(r)
    ensures forall y :: y in r <==> y in s || y == x
    ensures |r| > 0 && r[0] == if |s| > 0 && Less(s[0], x) then s[0] else x
  {
    if |s| == 0 then [x]
    else if x == s[0] then s
    else if Less(x, s[0]) then
      LessAsymmetric(x, s[0]);
      [x] + s
    else
      LessTotal(x, s[0]);
      var tail := Insert(s[1..], x);
      assert Less(s[0], tail[0]) by {
        if |s| > 1 && Less(s[1], x) {
          assert tail[0] == s[1];
        }
      }
      [s[0]] + tail
  }
}
