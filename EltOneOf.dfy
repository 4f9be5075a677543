/**
 * daikon.inv.unary.sequence.EltOneOf: the invariant "every element of the
 * sequence is one of at most LIMIT values".  The values seen so far live
 * in the prefix elts[0..num_elts) of a fixed array of LIMIT longs; a new
 * value arriving when the array is full falsifies the invariant instead of
 * being dropped.
 */
module EltOneOfInv {
  import opened Wrappers
  import opened Numerals
  import opened JavaStrings

  /** The maximum number of distinct values the invariant keeps. */
  const LIMIT: int := 5

  predicate Distinct(s: seq<Long>) {
    forall i, j :: 0 <= i < j < |s| ==> s[i] != s[j]
  }

  predicate Sorted(s: seq<Long>) {
    forall i, j :: 0 <= i < j < |s| ==> s[i] <= s[j]
  }

  /** `x` placed into the ascending sequence `s` before the first element not below it. */
  function Insert(x: Long, s: seq<Long>): (r: seq<Long>)
    ensures |r| == |s| + 1
    ensures multiset(r) == multiset(s) + multiset{x}
  {
    if |s| == 0 || x <= s[0] then [x] + s
    else
      assert s == [s[0]] + s[1..];
      [s[0]] + Insert(x, s[1..])
  }

  lemma {:induction false} InsertSorted(x: Long, s: seq<Long>)
    requires Sorted(s)
    ensures Sorted(Insert(x, s))
  {
    if |s| > 0 && x > s[0] {
      var rest := Insert(x, s[1..]);
      InsertSorted(x, s[1..]);
      forall y | y in rest ensures s[0] <= y {
        assert y in multiset(rest);
        assert y == x || y in multiset(s[1..]);
      }
      var r := [s[0]] + rest;
      forall i, j | 0 <= i < j < |r| ensures r[i] <= r[j] {
        if i == 0 {
          assert r[j] == rest[j - 1];
          assert r[j] in rest;
        } else {
          assert r[i] == rest[i - 1] && r[j] == rest[j - 1];
        }
      }
    }
  }

  /**
   * Arrays.sort on a prefix: the values in ascending order.  Written as an
   * insertion sort; only its result matters to the model.
   */
  function SortSeq(s: seq<Long>): (r: seq<Long>)
    ensures |r| == |s|
    ensures multiset(r) == multiset(s)
  {
    if |s| == 0 then []
    else
      assert s == [s[0]] + s[1..];
      Insert(s[0], SortSeq(s[1..]))
  }

  /** The result of SortSeq is ascending. */
  lemma {:induction false} SortSeqSorted(s: seq<Long>)
    ensures Sorted(SortSeq(s))
  {
    if |s| > 0 {
      SortSeqSorted(s[1..]);
      InsertSorted(s[0], SortSeq(s[1..]));
    }
  }

  /** Sorting an ascending sequence leaves it as it is. */
  lemma {:induction false} SortSorted(s: seq<Long>)
    requires Sorted(s)
    ensures SortSeq(s) == s
  {
    if |s| > 0 {
      SortSorted(s[1..]);
    }
  }

  /** A distinct sequence holds each value at most once. */
  lemma {:induction false} DistinctCounts(s: seq<Long>, v: Long)
    requires Distinct(s)
    ensures multiset(s)[v] <= 1
  {
    if |s| > 0 {
      assert s == [s[0]] + s[1..];
      DistinctCounts(s[1..], v);
      if s[0] == v {
        assert v !in s[1..];
      }
    }
  }

  /** A permutation of a distinct sequence is distinct. */
  lemma PermutationKeepsDistinct(a: seq<Long>, b: seq<Long>)
    requires Distinct(a) && multiset(a) == multiset(b)
    ensures Distinct(b)
  {
    forall i, j | 0 <= i < j < |b| ensures b[i] != b[j] {
      if b[i] == b[j] {
        assert b == b[..i] + [b[i]] + b[i + 1..j] + [b[j]] + b[j + 1..];
        assert multiset(b)[b[i]] >= 2;
        DistinctCounts(a, b[i]);
      }
    }
  }

  /** The values the prefix holds and whether the invariant was destroyed, after one sample. */
  datatype Absorbed = Absorbed(values: seq<Long>, destroyed: bool)

  /**
   * add_modified on the values `s` already recorded, for the sample `a`:
   * each element not yet recorded is appended; the first element already
   * recorded ends the whole call; a new element arriving when LIMIT values
   * are recorded destroys the invariant and ends the call.
   */
  function Absorb(s: seq<Long>, a: seq<Long>): (r: Absorbed)
    requires |s| <= LIMIT
    ensures |r.values| <= LIMIT
    ensures s <= r.values
    ensures Distinct(s) ==> Distinct(r.values)
    ensures r.destroyed ==> |r.values| == LIMIT
    decreases |a|
  {
    if |a| == 0 then Absorbed(s, false)
    else if a[0] in s then Absorbed(s, false)
    else if |s| == LIMIT then Absorbed(s, true)
    else Absorb(s + [a[0]], a[1..])
  }

  /**
   * What one sample does, in full, when it stops after m of its elements:
   * a[..m] is appended; if the sample was not used up, a[m] stopped it, and
   * the invariant was destroyed exactly when a[m] is a value not recorded.
   */
  ghost predicate StopsAfter(s: seq<Long>, a: seq<Long>, m: int)
    requires |s| <= LIMIT
  {
    StopsWith(s, a, m, Absorb(s, a))
  }

  /** The outcome `r` keeps s followed by the first m elements of `a`, and a[m], if any, is why it stopped. */
  ghost predicate StopsWith(s: seq<Long>, a: seq<Long>, m: int, r: Absorbed) {
    && 0 <= m <= |a|
    && r.values == s + a[..m]
    && (m == |a| ==> !r.destroyed)
    && (m < |a| ==> (r.destroyed <==> a[m] !in r.values))
  }

  /** Every sample stops after some number of its elements. */
  lemma {:induction false} AbsorbShape(s: seq<Long>, a: seq<Long>)
    requires |s| <= LIMIT
    ensures exists m :: StopsAfter(s, a, m)
    decreases |a|
  {
    if |a| == 0 || a[0] in s || |s| == LIMIT {
      assert s + a[..0] == s;
      assert StopsAfter(s, a, 0);
    } else {
      var t := s + [a[0]];
      AbsorbShape(t, a[1..]);
      var m' :| StopsAfter(t, a[1..], m');
      assert Absorb(s, a) == Absorb(t, a[1..]);
      StopsAfterStep(s, a, m', Absorb(s, a));
      assert StopsAfter(s, a, m' + 1);
    }
  }

  /** A sample that records its first element stops one element later than the rest of it. */
  lemma StopsAfterStep(s: seq<Long>, a: seq<Long>, m: int, r: Absorbed)
    requires |a| > 0
    requires StopsWith(s + [a[0]], a[1..], m, r)
    ensures StopsWith(s, a, m + 1, r)
  {
    var rest := a[1..];
    assert a[..m + 1] == [a[0]] + rest[..m];
    assert s + [a[0]] + rest[..m] == s + a[..m + 1];
    if m < |rest| {
      assert rest[m] == a[m + 1];
    }
  }

  /** With LIMIT values recorded, a value not among them destroys the invariant and changes nothing else. */
  lemma SixthValueDestroys(s: seq<Long>, v: Long, rest: seq<Long>)
    requires |s| == LIMIT && v !in s
    ensures Absorb(s, [v] + rest) == Absorbed(s, true)
  {
  }

  /** The early return: after 1 and 2, the repeated 1 ends the call, so 3 is never recorded. */
  lemma RepeatEndsSample()
    ensures Absorb([], [1, 2, 1, 3]) == Absorbed([1, 2], false)
  {
    assert [1, 2, 1, 3][1..] == [2, 1, 3];
    assert [2, 1, 3][1..] == [1, 3];
  }

  /** A sample with an element always leaves something recorded. */
  lemma {:induction false} AbsorbNonEmpty(s: seq<Long>, a: seq<Long>)
    requires |s| <= LIMIT && |s| + |a| > 0
    ensures |Absorb(s, a).values| > 0
  {
    if |s| == 0 {
      assert a[0] !in s;
      assert (s + [a[0]])[0] == a[0];
    }
  }

  /** `n` unused slots. */
  function Zeros(n: nat): (r: seq<Long>)
    ensures |r| == n && forall i :: 0 <= i < n ==> r[i] == 0
  {
    seq(n, _ => 0)
  }

  /** All LIMIT slots as isSameFormula reads them after sort_rep: sorted values, then the zero slots. */
  function Slots(values: seq<Long>): (r: seq<Long>)
    requires |values| <= LIMIT
    ensures |r| == LIMIT
  {
    SortSeq(values) + Zeros(LIMIT - |values|)
  }

  /** A sequence whose tail after `p` is all zeros is `p` followed by zeros. */
  lemma PrefixThenZeros(a: seq<Long>, p: seq<Long>)
    requires |p| <= |a| && a[..|p|] == p
    requires forall i :: |p| <= i < |a| ==> a[i] == 0
    ensures a == p + Zeros(|a| - |p|)
  {
    assert a[|p|..] == Zeros(|a| - |p|);
    assert a == a[..|p|] + a[|p|..];
  }

  /** getProbability's two outcomes used here: Invariant.PROBABILITY_UNKNOWN and PROBABILITY_JUSTIFIED. */
  datatype Probability = Unknown | Justified

  class EltOneOf {
    /** var().name and var().type.isIntegral() of the variable the invariant is about. */
    const varName: string
    const isIntegral: bool
    const elts: array<Long>
    var numElts: int
    /** Set by destroy(): the invariant has been falsified. */
    var falsified: bool

    ghost predicate Valid()
      reads this, elts
    {
      && elts.Length == LIMIT
      && 0 <= numElts <= LIMIT
      && Distinct(elts[..numElts])
      && forall i :: numElts <= i < LIMIT ==> elts[i] == 0
    }

    /** The values recorded so far, in slot order. */
    ghost function Values(): seq<Long>
      reads this, elts
      requires Valid()
    {
      elts[..numElts]
    }

    constructor (varName: string, isIntegral: bool)
      ensures Valid() && fresh(elts)
      ensures Values() == [] && !falsified
      ensures this.varName == varName && this.isIntegral == isIntegral
    {
      this.varName := varName;
      this.isIntegral := isIntegral;
      elts := new Long[LIMIT](_ => 0);
      numElts := 0;
      falsified := false;
    }

    /** num_elts() */
    function NumElts(): (n: int)
      reads this, elts
      requires Valid()
      ensures 0 <= n <= LIMIT && n == |Values()|
    {
      numElts
    }

    /** elt(): the single value when exactly one is recorded; any other count is an error. */
    function Elt(): (r: Result<Long, int>)
      reads this, elts
      requires Valid()
      ensures r.Success? <==> |Values()| == 1
      ensures r.Success? ==> Values() == [r.value]
      ensures r.Failure? ==> r.error == |Values()|
    {
      if numElts != 1 then Failure(numElts) else Success(elts[0])
    }

    /** computeProbability(): unknown before any value is recorded, justified after. */
    function ComputeProbability(): (p: Probability)
      reads this, elts
      requires Valid()
      ensures p == Unknown <==> Values() == []
      ensures p == Justified <==> |Values()| > 0
    {
      if numElts == 0 then Unknown else Justified
    }

    /** add_modified(a, count): record the sample's values; `count` is not used. */
    method AddModified(a: seq<Long>, count: int)
      requires Valid()
      modifies this, elts
      ensures Valid()
      ensures Values() == Absorb(old(Values()), a).values
      ensures falsified == (old(falsified) || Absorb(old(Values()), a).destroyed)
    {
      for ai := 0 to |a|
        invariant Valid() && falsified == old(falsified)
        invariant Absorb(old(Values()), a) == Absorb(elts[..numElts], a[ai..])
      {
        var v := a[ai];
        assert a[ai..] == [v] + a[ai + 1..];
        var seen := Recorded(v);
        if seen {
          return;
        }
        if numElts == LIMIT {
          falsified := true;  // destroy()
          return;
        }
        ghost var before := elts[..numElts];
        elts[numElts] := v;
        numElts := numElts + 1;
        assert elts[..numElts] == before + [v];
      }
      assert a[|a|..] == [];
    }

    /** The scan of add_modified over the recorded values for one sample element. */
    method Recorded(v: Long) returns (seen: bool)
      requires Valid()
      ensures seen <==> v in Values()
    {
      for i := 0 to numElts
        invariant v !in elts[..i]
      {
        if elts[i] == v {
          assert elts[..numElts][i] == v;
          return true;
        }
        assert elts[..i + 1] == elts[..i] + [elts[i]];
      }
      return false;
    }

    /** sort_rep(): sorts the prefix elts[0..num_elts) in place and leaves the other slots alone. */
    method SortRep()
      requires Valid()
      modifies elts
      ensures Valid()
      ensures Values() == SortSeq(old(Values()))
      ensures elts[numElts..] == old(elts[numElts..])
    {
      var n := numElts;
      ghost var prefix := elts[..n];
      var sorted := SortSeq(elts[..n]);
      PermutationKeepsDistinct(prefix, sorted);
      CopyPrefix(elts, sorted);
      assert elts[..n] == sorted;
      assert elts[n..] == old(elts[n..]);
    }

    /** The copy back into the array: its first |p| slots become `p`, the others stay. */
    static method CopyPrefix(a: array<Long>, p: seq<Long>)
      requires |p| <= a.Length
      modifies a
      ensures forall j :: 0 <= j < |p| ==> a[j] == p[j]
      ensures forall j :: |p| <= j < a.Length ==> a[j] == old(a[j])
    {
      for i := 0 to |p|
        invariant forall j :: 0 <= j < i ==> a[j] == p[j]
        invariant forall j :: i <= j < a.Length ==> a[j] == old(a[j])
      {
        a[i] := p[i];
      }
    }

    /** How one value is printed: 0 is "null" for a variable of non-integral type, else Long.toString. */
    function Show(v: Long): (r: string)
      ensures r == "null" <==> !isIntegral && v == 0
      ensures r != "null" ==> |r| >= 1 && (r[0] == '-' <==> v < 0)
    {
      assert LongToString(v)[0] != 'n';
      if !isIntegral && v == 0 then "null" else LongToString(v)
    }

    /** Every printed value other than "null" reads back as the value it came from. */
    lemma ShowReadsBack(v: Long)
      ensures Show(v) == "null" <==> !isIntegral && v == 0
      ensures Show(v) != "null" ==> ParseLong(Show(v)) == v
    {
      LongToStringRoundTrip(v);
      if isIntegral || v != 0 {
        assert LongToString(v)[0] != 'n';
      }
    }

    /** A set literal as subarray_rep writes it: "{ ", the parts separated by ", ", then " }". */
    static function Braced(parts: seq<string>): (r: string)
      ensures |r| == |Join(parts, ", ")| + 4
      ensures r[..2] == "{ " && r[|r| - 2..] == " }"
    {
      "{ " + Join(parts, ", ") + " }"
    }

    function ShowAll(values: seq<Long>): (r: seq<string>)
      ensures |r| == |values|
      ensures forall i :: 0 <= i < |values| ==> r[i] == Show(values[i])
    {
      seq(|values|, i requires 0 <= i < |values| => Show(values[i]))
    }

    /** The loop of subarray_rep: "{ ", the printed values separated by ", ", then " }". */
    static method ListParts(parts: seq<string>) returns (s: string)
      ensures s == Braced(parts)
    {
      s := "{ ";
      for i := 0 to |parts|
        invariant s == "{ " + Join(parts[..i], ", ")
      {
        assert parts[..i + 1] == parts[..i] + [parts[i]];
        if i != 0 {
          JoinSnoc(parts[..i], parts[i], ", ");
          s := s + ", ";
        }
        s := s + parts[i];
      }
      assert parts[..|parts|] == parts;
      s := s + " }";
    }

    /** subarray_rep(): sorts, then lists the values as "{ v1, v2 }". */
    method SubarrayRep() returns (s: string)
      requires Valid()
      modifies elts
      ensures Valid()
      ensures Values() == SortSeq(old(Values()))
      ensures s == Braced(ShowAll(SortSeq(old(Values()))))
    {
      SortRep();
      s := ListParts(ShowAll(elts[..numElts]));
    }

    /** format(): "name elements = v" for one value, else "name elements one of { ... }" in ascending order. */
    method Format() returns (s: string)
      requires Valid()
      modifies elts
      ensures Valid()
      ensures Values() == SortSeq(old(Values()))
      ensures old(numElts) == 1 ==> s == varName + " elements = " + Show(old(elts[0]))
      ensures old(numElts) != 1 ==>
        s == varName + " elements one of " + Braced(ShowAll(SortSeq(old(Values()))))
    {
      if numElts == 1 {
        ghost var vals := Values();
        assert vals == [elts[0]];
        SortSorted(vals);
        s := varName + " elements = " + Show(elts[0]);
        assert Values() == SortSeq(old(Values()));
      } else {
        var rep := SubarrayRep();
        s := varName + " elements one of " + rep;
      }
    }

    /**
     * isSameFormula(other): sorts both invariants' prefixes, then compares
     * all LIMIT slots, the unused zero slots included.  The source's
     * comparison of the two array lengths always succeeds, both being LIMIT.
     * Distinct invariants own distinct arrays, each allocated by its constructor.
     */
    method IsSameFormula(other: EltOneOf) returns (r: bool)
      requires Valid() && other.Valid()
      requires other == this || other.elts != elts
      modifies elts, other.elts
      ensures Valid() && other.Valid()
      ensures Values() == SortSeq(old(Values()))
      ensures other.Values() == SortSeq(old(other.Values()))
      ensures r <==> Slots(old(Values())) == Slots(old(other.Values()))
    {
      ghost var mine := Values();
      ghost var theirs := other.Values();
      SortRep();
      other.SortRep();
      if other == this {
        SortSeqSorted(mine);
        SortSorted(SortSeq(mine));
      }
      SlotsAfterSort(mine);
      other.SlotsAfterSort(theirs);
      r := SameSlots(other);
    }

    /**
     * isSameFormula as evidently intended: sort both invariants, then
     * require the same number of recorded values as well as the same slots.
     */
    method IsSameFormulaCorrected(other: EltOneOf) returns (r: bool)
      requires Valid() && other.Valid()
      requires other == this || other.elts != elts
      modifies elts, other.elts
      ensures Valid() && other.Valid()
      ensures Values() == SortSeq(old(Values()))
      ensures other.Values() == SortSeq(old(other.Values()))
      ensures r <==> SameFormulaIntended(old(Values()), old(other.Values()))
      ensures r <==> forall x :: x in old(Values()) <==> x in old(other.Values())
    {
      SameFormulaIntendedIffSameValues(Values(), other.Values());
      var sameSlots := IsSameFormula(other);
      r := sameSlots && numElts == other.numElts;
    }

    /** After sort_rep, the array holds exactly the slots of the values sorted. */
    lemma SlotsAfterSort(vals: seq<Long>)
      requires Valid() && |vals| <= LIMIT && Values() == SortSeq(vals)
      ensures elts[..] == Slots(vals)
    {
      var a, p := elts[..], SortSeq(vals);
      assert a[..numElts] == p;
      forall i | numElts <= i < LIMIT ensures a[i] == 0 {
        assert a[i] == elts[i];
      }
      PrefixThenZeros(a, p);
    }

    /** The comparison loop of isSameFormula: all LIMIT slots, one by one. */
    method SameSlots(other: EltOneOf) returns (r: bool)
      requires elts.Length == LIMIT && other.elts.Length == LIMIT
      ensures r <==> elts[..] == other.elts[..]
    {
      for i := 0 to LIMIT
        invariant elts[..i] == other.elts[..i]
      {
        if elts[i] != other.elts[i] {
          assert elts[..][i] != other.elts[..][i];
          return false;
        }
        assert elts[..i + 1] == elts[..i] + [elts[i]];
        assert other.elts[..i + 1] == other.elts[..i] + [other.elts[i]];
      }
      assert elts[..] == elts[..LIMIT];
      assert other.elts[..] == other.elts[..LIMIT];
      return true;
    }
  }

  /** As written, isSameFormula equates {-1} with {-1, 0}: the recorded 0 looks like an unused slot. */
  lemma SameFormulaConflatesZero()
    ensures Slots([-1]) == Slots([-1, 0])
    ensures 0 !in [-1] && 0 in [-1, 0]
  {
    assert SortSeq([0]) == [0];
    assert [-1, 0][1..] == [0];
    assert SortSeq([-1, 0]) == Insert(-1, [0]) == [-1, 0];
  }

  /** What isSameFormula evidently means: the same number of values, and the same slots. */
  predicate SameFormulaIntended(p: seq<Long>, q: seq<Long>)
    requires |p| <= LIMIT && |q| <= LIMIT
  {
    |p| == |q| && Slots(p) == Slots(q)
  }

  /** Two ascending distinct sequences with the same elements are equal. */
  lemma {:induction false} StrictSortedUnique(a: seq<Long>, b: seq<Long>)
    requires Sorted(a) && Distinct(a) && Sorted(b) && Distinct(b)
    requires forall x :: x in a <==> x in b
    ensures a == b
    decreases |a|
  {
    if |a| > 0 {
      assert a[0] in b;
    }
    if |b| > 0 {
      assert b[0] in a;
    }
    if |a| > 0 && |b| > 0 {
      assert a[0] == b[0];
      forall x ensures x in a[1..] <==> x in b[1..] {
        assert x in a <==> x == a[0] || x in a[1..];
        assert x in b <==> x == b[0] || x in b[1..];
        assert a[0] !in a[1..] && b[0] !in b[1..];
      }
      StrictSortedUnique(a[1..], b[1..]);
    }
  }

  /** The corrected comparison holds exactly when the two invariants record the same values. */
  lemma SameFormulaIntendedIffSameValues(p: seq<Long>, q: seq<Long>)
    requires |p| <= LIMIT && |q| <= LIMIT && Distinct(p) && Distinct(q)
    ensures SameFormulaIntended(p, q) <==> (forall x :: x in p <==> x in q)
  {
    var sp, sq := SortSeq(p), SortSeq(q);
    assert forall x :: x in sp <==> x in p by {
      forall x ensures x in sp <==> x in p {
        assert x in sp <==> x in multiset(sp);
      }
    }
    assert forall x :: x in sq <==> x in q by {
      forall x ensures x in sq <==> x in q {
        assert x in sq <==> x in multiset(sq);
      }
    }
    if forall x :: x in p <==> x in q {
      SortSeqSorted(p);
      SortSeqSorted(q);
      PermutationKeepsDistinct(p, sp);
      PermutationKeepsDistinct(q, sq);
      StrictSortedUnique(sp, sq);
    }
    if SameFormulaIntended(p, q) {
      assert Slots(p)[..|p|] == Slots(q)[..|q|];
    }
  }
}
