/**
 * The Levenshtein edit distance between two strings (unit-cost insertion,
 * deletion and substitution of single characters), the measure the address
 * de-duplication uses to decide that two spellings name the same tower.
 */
module Levenshtein {

  function Min3(x: nat, y: nat, z: nat): nat {
    if x <= y && x <= z then x else if y <= z then y else z
  }

  /**
   * The fewest single-character edits that turn `a` into `b`.  It is at least
   * the difference of the lengths (so spellings whose lengths differ by three
   * or more are never near duplicates) and at most the longer length.
   */
  function EditDistance(a: string, b: string): (d: nat)
    ensures |a| - |b| <= d && |b| - |a| <= d
    ensures d <= if |a| <= |b| then |b| else |a|
    decreases |a| + |b|
  {
    if |a| == 0 then |b|
    else if |b| == 0 then |a|
    else Min3(EditDistance(a[1..], b) + 1,
              EditDistance(a, b[1..]) + 1,
              EditDistance(a[1..], b[1..]) + (if a[0] == b[0] then 0 else 1))
  }

  /** A string is at distance zero from itself. */
  lemma {:induction false} EditDistanceSelf(a: string)
    ensures EditDistance(a, a) == 0
  {
    if |a| > 0 {
      EditDistanceSelf(a[1..]);
    }
  }

  /** Distance zero means the strings are equal. */
  lemma {:induction false} EditDistanceZeroOnlyIfEqual(a: string, b: string)
    requires EditDistance(a, b) == 0
    ensures a == b
    decreases |a| + |b|
  {
    if |a| > 0 && |b| > 0 {
      EditDistanceZeroOnlyIfEqual(a[1..], b[1..]);
      assert a == [a[0]] + a[1..] && b == [b[0]] + b[1..];
    }
  }

  /** The edit distance is zero exactly for equal strings. */
  lemma EditDistanceZeroIff(a: string, b: string)
    ensures EditDistance(a, b) == 0 <==> a == b
  {
    if a == b {
      EditDistanceSelf(a);
    } else if EditDistance(a, b) == 0 {
      EditDistanceZeroOnlyIfEqual(a, b);
    }
  }

  /** Turning `a` into `b` costs as much as turning `b` into `a`. */
  lemma {:induction false} EditDistanceSymmetric(a: string, b: string)
    ensures EditDistance(a, b) == EditDistance(b, a)
    decreases |a| + |b|
  {
    if |a| > 0 && |b| > 0 {
      EditDistanceSymmetric(a[1..], b);
      EditDistanceSymmetric(a, b[1..]);
      EditDistanceSymmetric(a[1..], b[1..]);
    }
  }
}
