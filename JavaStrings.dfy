/**
 * The few java.lang.String operations the model relies on: indexOf,
 * compareTo and joining with a separator.  A Java string is modelled as a
 * sequence of chars; compareTo compares chars by their numeric codes.
 */
module JavaStrings {

  /** `sub` occurs in `s` starting at index `i`. */
  predicate OccursAt(s: string, sub: string, i: int) {
    0 <= i && i + |sub| <= |s| && s[i..i + |sub|] == sub
  }

  /** s.indexOf(sub, from): the least index at or after `from` where `sub` occurs, or -1. */
  function IndexFrom(s: string, sub: string, from: nat): (r: int)
    requires from <= |s|
    ensures r == -1 || (from <= r && OccursAt(s, sub, r))
    ensures r == -1 ==> forall i {:trigger OccursAt(s, sub, i)} :: from <= i ==> !OccursAt(s, sub, i)
    ensures r != -1 ==> forall i {:trigger OccursAt(s, sub, i)} :: from <= i < r ==> !OccursAt(s, sub, i)
    decreases |s| - from
  {
    if from + |sub| > |s| then -1
    else if s[from..from + |sub|] == sub then from
    else if from == |s| then -1
    else IndexFrom(s, sub, from + 1)
  }

  /** s.indexOf(sub): the least index where `sub` occurs in `s`, or -1 when it does not occur. */
  function IndexOf(s: string, sub: string): (r: int)
    ensures r == -1 <==> forall i {:trigger OccursAt(s, sub, i)} :: !OccursAt(s, sub, i)
    ensures r != -1 ==> 0 <= r <= |s| - |sub| && s[r..r + |sub|] == sub
    ensures r != -1 ==> forall i {:trigger OccursAt(s, sub, i)} :: i < r ==> !OccursAt(s, sub, i)
  {
    IndexFrom(s, sub, 0)
  }

  /** s.indexOf(sub) != -1 */
  predicate Contains(s: string, sub: string) {
    IndexOf(s, sub) != -1
  }

  /** The prefix of `s` before the first occurrence of `sub`, when there is one. */
  function PrefixBefore(s: string, sub: string): (r: string)
    requires Contains(s, sub)
    ensures r + sub <= s
    ensures forall i {:trigger OccursAt(s, sub, i)} :: i < |r| ==> !OccursAt(s, sub, i)
  {
    s[..IndexOf(s, sub)]
  }

  /** k is the first index at which a and b differ. */
  predicate FirstDifference(a: string, b: string, k: int) {
    0 <= k < |a| && k < |b| && a[k] != b[k] && a[..k] == b[..k]
  }

  /**
   * String.compareTo: the difference of the first differing chars, or the
   * difference of the lengths when one string is a prefix of the other.
   */
  function CompareTo(a: string, b: string): (r: int)
    ensures a <= b || b <= a ==> r == |a| - |b|
    ensures forall k :: FirstDifference(a, b, k) ==> r == a[k] as int - b[k] as int
    decreases |a|
  {
    if |a| == 0 || |b| == 0 then |a| - |b|
    else if a[0] != b[0] then a[0] as int - b[0] as int
    else
      assert forall k :: FirstDifference(a, b, k) ==> FirstDifference(a[1..], b[1..], k - 1) by {
        forall k | FirstDifference(a, b, k) ensures FirstDifference(a[1..], b[1..], k - 1) {
          assert a[1..][..k - 1] == a[1..k] && b[1..][..k - 1] == b[1..k];
        }
      }
      CompareTo(a[1..], b[1..])
  }

  /** The strict order a TreeSet of strings keeps. */
  predicate Less(a: string, b: string) {
    CompareTo(a, b) < 0
  }

  lemma {:induction false} CompareToZero(a: string, b: string)
    ensures CompareTo(a, b) == 0 <==> a == b
    decreases |a|
  {
    if |a| == 0 || |b| == 0 {
    } else if a[0] != b[0] {
    } else {
      CompareToZero(a[1..], b[1..]);
      assert a == [a[0]] + a[1..] && b == [b[0]] + b[1..];
    }
  }

  lemma {:induction false} CompareToAntisymmetric(a: string, b: string)
    ensures CompareTo(a, b) == -CompareTo(b, a)
    decreases |a|
  {
    if |a| == 0 || |b| == 0 {
    } else if a[0] != b[0] {
    } else {
      CompareToAntisymmetric(a[1..], b[1..]);
    }
  }

  lemma {:induction false} LessTransitive(a: string, b: string, c: string)
    requires Less(a, b) && Less(b, c)
    ensures Less(a, c)
    decreases |a|
  {
    if |a| == 0 || |b| == 0 || |c| == 0 {
    } else if a[0] == b[0] && b[0] == c[0] {
      LessTransitive(a[1..], b[1..], c[1..]);
    }
  }

  lemma LessTotal(a: string, b: string)
    ensures a == b || Less(a, b) || Less(b, a)
  {
    CompareToZero(a, b);
    CompareToAntisymmetric(a, b);
  }

  lemma LessIrreflexive(a: string)
    ensures !Less(a, a)
  {
    CompareToZero(a, a);
  }

  /** The parts joined with `sep` between neighbours, as a StringBuffer loop builds it. */
  function Join(parts: seq<string>, sep: string): string {
    if |parts| == 0 then ""
    else if |parts| == 1 then parts[0]
    else parts[0] + sep + Join(parts[1..], sep)
  }

  /** Appending one more part extends the joined string by the separator and that part. */
  lemma {:induction false} JoinSnoc(parts: seq<string>, last: string, sep: string)
    requires |parts| > 0
    ensures Join(parts + [last], sep) == Join(parts, sep) + sep + last
    decreases |parts|
  {
    if |parts| == 1 {
      assert (parts + [last])[1..] == [last];
    } else {
      assert (parts + [last])[1..] == parts[1..] + [last];
      JoinSnoc(parts[1..], last, sep);
    }
  }
}
