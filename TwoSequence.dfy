/**
 * TwoSequenceFactory.instantiate: the rule that picks which candidate
 * invariants to create over a pair of integer-array variables, on each of
 * the two instantiation passes.
 */
module TwoSequence {
  import opened Wrappers
  import opened VarInfos

  /** The invariant kinds the factory creates, as tags. */
  datatype InvKind =
    | SeqComparison
    | Reverse
    | SubSequence
    | PairwiseIntComparison
    | PairwiseLinearBinary
    | PairwiseFunctionUnary(functionName: string, inverted: bool)

  /** Global.implied_false_noninstantiated_invariants and Global.subexact_noninstantiated_invariants. */
  datatype Counters = Counters(impliedFalse: int, subexact: int)

  /** The super-sequence the factory uses for a variable: the one it is derived from, else itself. */
  function SuperOf(v: VarInfo): (r: VarRef)
    ensures v.derivedSubSequenceOf.Some? ==> r == v.derivedSubSequenceOf.value
    ensures v.derivedSubSequenceOf.None? ==> r == v.ref
  {
    v.derivedSubSequenceOf.GetOr(v.ref)
  }

  /** The kinds created on pass 2 for two variables with different super-sequences. */
  ghost predicate IsPass2Distinct(r: seq<InvKind>, unaryFunctionNames: seq<string>) {
    var n := |unaryFunctionNames|;
    && |r| == 4 + 2 * n
    && r[..4] == [Reverse, SubSequence, PairwiseIntComparison, PairwiseLinearBinary]
    && (forall j :: 0 <= j < n ==> r[4 + j] == PairwiseFunctionUnary(unaryFunctionNames[j], false))
    && (forall j :: 0 <= j < n ==> r[4 + n + j] == PairwiseFunctionUnary(unaryFunctionNames[j], true))
  }

  /**
   * instantiate(ppt, pass) for a slice over `varInfos`.  `compatible` is
   * VarInfo.compatible; `unaryFunctionNames` is Functions.unaryFunctionNames.
   * None is the source's null result; the global counters are threaded
   * through as ghost values.
   */
  method Instantiate(
    varInfos: seq<VarInfo>,
    pass: int,
    unaryFunctionNames: seq<string>,
    compatible: (VarInfo, VarInfo) -> bool,
    ghost counters: Counters)
    returns (result: Option<seq<InvKind>>, ghost counters': Counters)
    requires |varInfos| == 2
    requires varInfos[0].repType == IntArray && varInfos[1].repType == IntArray
    requires pass == 2 && SuperOf(varInfos[0]) != SuperOf(varInfos[1])
             ==> SuperOf(varInfos[0]).name != SuperOf(varInfos[1]).name
    ensures result.None? <==> !compatible(varInfos[0], varInfos[1])
    ensures result.None? ==> counters' == counters
    ensures result.Some? && pass != 1 && pass != 2 ==> result.value == [] && counters' == counters
    ensures result.Some? && pass == 1 ==>
      if SuperOf(varInfos[0]) == SuperOf(varInfos[1])
      then result.value == [] && counters' == counters.(impliedFalse := counters.impliedFalse + 1)
      else result.value == [SeqComparison] && counters' == counters
    ensures result.Some? && pass == 2 ==> |result.value| >= 1 && result.value[0] == Reverse
    ensures result.Some? && pass == 2 && SuperOf(varInfos[0]) == SuperOf(varInfos[1]) ==>
      && result.value == [Reverse]
      && counters' == Counters(counters.impliedFalse + 2 + 2 * |unaryFunctionNames|, counters.subexact + 2)
    ensures result.Some? && pass == 2 && SuperOf(varInfos[0]) != SuperOf(varInfos[1]) ==>
      IsPass2Distinct(result.value, unaryFunctionNames) && counters' == counters
  {
    var var1 := varInfos[0];
    var var2 := varInfos[1];
    counters' := counters;
    if !compatible(var1, var2) {
      return None, counters';
    }
    var super1 := var1.derivedSubSequenceOf.GetOr(var1.ref);
    var super2 := var2.derivedSubSequenceOf.GetOr(var2.ref);
    var r: seq<InvKind> := [];
    if pass == 1 {
      if super1 == super2 {
        counters' := counters'.(impliedFalse := counters'.impliedFalse + 1);
      } else {
        r := r + [SeqComparison];
      }
    } else if pass == 2 {
      r := r + [Reverse];
      if super1 == super2 {
        counters' := counters'.(subexact := counters'.subexact + 2);
        counters' := counters'.(impliedFalse := counters'.impliedFalse + 2 + 2 * |unaryFunctionNames|);
      } else {
        r := r + [SubSequence];
        r := r + [PairwiseIntComparison];
        r := r + [PairwiseLinearBinary];
        var n := |unaryFunctionNames|;
        for i := 0 to 2
          invariant |r| == 4 + i * n
          invariant r[..4] == [Reverse, SubSequence, PairwiseIntComparison, PairwiseLinearBinary]
          invariant i >= 1 ==> forall j :: 0 <= j < n ==> r[4 + j] == PairwiseFunctionUnary(unaryFunctionNames[j], false)
          invariant i >= 2 ==> forall j :: 0 <= j < n ==> r[4 + n + j] == PairwiseFunctionUnary(unaryFunctionNames[j], true)
        {
          var invert := i == 1;
          ghost var before := r;
          for j := 0 to n
            invariant |r| == 4 + i * n + j
            invariant r[..4 + i * n] == before
            invariant forall m :: 0 <= m < j ==>
                        r[4 + i * n + m] == PairwiseFunctionUnary(unaryFunctionNames[m], invert)
          {
            r := r + [PairwiseFunctionUnary(unaryFunctionNames[j], invert)];
          }
        }
      }
    }
    return Some(r), counters';
  }
}
