/**
 * daikon.Ppt: the program-point helpers.  Function-name extraction,
 * rendering and cached rendering of the variable list, lookup of a
 * variable by name, the variables common to several program points, and
 * the comparator that orders program points by name with '.' and ':'
 * exchanged.
 */
module Ppts {
  import opened Wrappers
  import opened JavaStrings
  import opened VarInfos

  /** fn_name(ppt_name): the part of the name before the first tag separator, or null without one. */
  function FnName(pptName: string, sep: string): (r: Option<string>)
    ensures r.None? <==> !Contains(pptName, sep)
    ensures r.Some? ==> r.value + sep <= pptName
    ensures r.Some? ==> forall i {:trigger OccursAt(pptName, sep, i)} :: i < |r.value| ==> !OccursAt(pptName, sep, i)
  {
    var fnNameEnd := IndexOf(pptName, sep);
    if fnNameEnd == -1 then None else Some(pptName[..fnNameEnd])
  }

  /** The names of the variables, in order. */
  function Names(infos: seq<VarInfo>): (r: seq<string>)
    ensures |r| == |infos|
    ensures forall i :: 0 <= i < |infos| ==> r[i] == infos[i].Name()
  {
    seq(|infos|, i requires 0 <= i < |infos| => infos[i].Name())
  }

  /** varNames(infos): the names in parentheses separated by ", ", or "(<implication slice>)" for none. */
  method VarNames(infos: seq<VarInfo>) returns (s: string)
    ensures |infos| == 0 ==> s == "(<implication slice>)"
    ensures |infos| > 0 ==> s == "(" + Join(Names(infos), ", ") + ")"
  {
    if |infos| == 0 {
      return "(<implication slice>)";
    }
    var body := infos[0].Name();
    assert Names(infos[..1]) == [infos[0].Name()];
    for i := 1 to |infos|
      invariant body == Join(Names(infos[..i]), ", ")
    {
      assert Names(infos[..i + 1]) == Names(infos[..i]) + [infos[i].Name()];
      JoinSnoc(Names(infos[..i]), infos[i].Name(), ", ");
      body := body + ", " + infos[i].Name();
    }
    assert infos[..|infos|] == infos;
    s := "(" + body + ")";
  }

  /** A variable whose name is `name`, and no earlier variable of `vars` has that name. */
  ghost predicate IsFirstNamed(vars: seq<VarInfo>, name: string, v: VarInfo) {
    exists i :: 0 <= i < |vars| && vars[i] == v && v.Name() == name
                && forall j :: 0 <= j < i ==> vars[j].Name() != name
  }

  /** Some variable of `vars` is comparable2 with `v`. */
  predicate ComparableIn(v: VarInfo, vars: seq<VarInfo>, comparable2: (VarInfo, VarInfo) -> bool) {
    exists j :: 0 <= j < |vars| && comparable2(v, vars[j])
  }

  /** `v` survives common_vars after the program points ppts[1..upto] have been processed. */
  predicate KeptUpTo(v: VarInfo, ppts: seq<seq<VarInfo>>, upto: nat, comparable2: (VarInfo, VarInfo) -> bool)
    requires upto <= |ppts|
  {
    && !v.isStaticConstant
    && forall k :: 1 <= k < upto ==> ComparableIn(v, ppts[k], comparable2)
  }

  /** The variables of `vars` that survive up to `upto`, keeping their order. */
  function Common(vars: seq<VarInfo>, ppts: seq<seq<VarInfo>>, upto: nat, comparable2: (VarInfo, VarInfo) -> bool): (r: seq<VarInfo>)
    requires upto <= |ppts|
    ensures forall v :: v in r <==> v in vars && KeptUpTo(v, ppts, upto, comparable2)
    ensures IsSubsequence(r, vars)
  {
    if |vars| == 0 then []
    else
      var rest := Common(vars[1..], ppts, upto, comparable2);
      assert forall v :: v in vars <==> v == vars[0] || v in vars[1..];
      if KeptUpTo(vars[0], ppts, upto, comparable2) then [vars[0]] + rest else rest
  }

  /** The variables of `vars` comparable2 with some variable of `other`, keeping their order. */
  function ComparableOnly(vars: seq<VarInfo>, other: seq<VarInfo>, comparable2: (VarInfo, VarInfo) -> bool): seq<VarInfo> {
    if |vars| == 0 then []
    else (if ComparableIn(vars[0], other, comparable2) then [vars[0]] else []) + ComparableOnly(vars[1..], other, comparable2)
  }

  /** `a` is `b` with some elements left out, the rest in their order. */
  predicate IsSubsequence<T(==)>(a: seq<T>, b: seq<T>) {
    if |a| == 0 then true
    else if |b| == 0 then false
    else if a[0] == b[0] then IsSubsequence(a[1..], b[1..])
    else IsSubsequence(a, b[1..])
  }

  lemma {:induction false} ComparableOnlyAppend(a: seq<VarInfo>, b: seq<VarInfo>, other: seq<VarInfo>, comparable2: (VarInfo, VarInfo) -> bool)
    ensures ComparableOnly(a + b, other, comparable2) == ComparableOnly(a, other, comparable2) + ComparableOnly(b, other, comparable2)
    decreases |a|
  {
    if |a| == 0 {
      assert a + b == b;
    } else {
      var head := if ComparableIn(a[0], other, comparable2) then [a[0]] else [];
      assert (a + b)[0] == a[0] && (a + b)[1..] == a[1..] + b;
      assert ComparableOnly(a + b, other, comparable2) == head + ComparableOnly(a[1..] + b, other, comparable2);
      ComparableOnlyAppend(a[1..], b, other, comparable2);
    }
  }

  /** Removing the variables without a comparable partner at ppts[upto] is one more step of common_vars. */
  lemma {:induction false} ComparableOnlyStep(vars: seq<VarInfo>, ppts: seq<seq<VarInfo>>, upto: nat, comparable2: (VarInfo, VarInfo) -> bool)
    requires 1 <= upto < |ppts|
    ensures ComparableOnly(Common(vars, ppts, upto, comparable2), ppts[upto], comparable2) == Common(vars, ppts, upto + 1, comparable2)
    decreases |vars|
  {
    if |vars| > 0 {
      var v := vars[0];
      var rest := Common(vars[1..], ppts, upto, comparable2);
      ComparableOnlyStep(vars[1..], ppts, upto, comparable2);
      assert KeptUpTo(v, ppts, upto + 1, comparable2) <==> KeptUpTo(v, ppts, upto, comparable2) && ComparableIn(v, ppts[upto], comparable2);
      if KeptUpTo(v, ppts, upto, comparable2) {
        ComparableOnlyAppend([v], rest, ppts[upto], comparable2);
      }
    }
  }

  /**
   * common_vars(ppts): for a single program point its whole variable array;
   * otherwise the non-static-constant variables of the first that are
   * comparable2 with some variable of every other one, in their order.
   * `ppts` holds each program point's var_infos.
   */
  method CommonVars(ppts: seq<seq<VarInfo>>, comparable2: (VarInfo, VarInfo) -> bool) returns (r: seq<VarInfo>)
    requires |ppts| >= 1
    ensures |ppts| == 1 ==> r == ppts[0]
    ensures |ppts| > 1 ==> r == Common(ppts[0], ppts, |ppts|, comparable2)
    ensures |ppts| > 1 ==> IsSubsequence(r, ppts[0])
    ensures |ppts| > 1 ==> forall v :: v in r <==>
      v in ppts[0] && !v.isStaticConstant && forall k :: 1 <= k < |ppts| ==> ComparableIn(v, ppts[k], comparable2)
  {
    if |ppts| == 1 {
      return ppts[0];
    }
    var vars := ppts[0];
    var result := NonStaticConstants(vars, ppts);
    for i := 1 to |ppts|
      invariant result == Common(vars, ppts, i, comparable2)
    {
      result := RemoveIncomparable(result, ppts[i], comparable2);
      ComparableOnlyStep(vars, ppts, i, comparable2);
    }
    r := result;
  }

  /** The first loop of common_vars: the variables that are not static constants, in order. */
  method NonStaticConstants(vars: seq<VarInfo>, ghost ppts: seq<seq<VarInfo>>) returns (result: seq<VarInfo>)
    requires |ppts| >= 1
    ensures forall comparable2 :: result == Common(vars, ppts, 1, comparable2)
  {
    result := [];
    for i := 0 to |vars|
      invariant forall comparable2 :: result == Common(vars[..i], ppts, 1, comparable2)
    {
      forall comparable2 {
        CommonAppendOne(vars[..i], vars[i], ppts, 1, comparable2);
      }
      assert vars[..i + 1] == vars[..i] + [vars[i]];
      if vars[i].isStaticConstant {
        continue;
      }
      result := result + [vars[i]];
    }
    assert vars[..|vars|] == vars;
  }

  /** One pass of the second loop of common_vars: walking backwards, drop each variable with no comparable partner in `others`. */
  method RemoveIncomparable(before: seq<VarInfo>, others: seq<VarInfo>, comparable2: (VarInfo, VarInfo) -> bool) returns (result: seq<VarInfo>)
    ensures result == ComparableOnly(before, others, comparable2)
  {
    result := before;
    var rindex := |result| - 1;
    while rindex >= 0
      invariant -1 <= rindex < |before|
      invariant result == before[..rindex + 1] + ComparableOnly(before[rindex + 1..], others, comparable2)
    {
      var rvar := result[rindex];
      var found := HasComparable(rvar, others, comparable2);
      assert before[rindex..] == [rvar] + before[rindex + 1..];
      ComparableOnlyAppend([rvar], before[rindex + 1..], others, comparable2);
      if !found {
        result := result[..rindex] + result[rindex + 1..];
      }
      assert before[..rindex + 1] == before[..rindex] + [rvar];
      rindex := rindex - 1;
    }
    assert before[0..] == before;
  }

  /** The innermost loop of common_vars: does some variable of `others` pass comparable2 with `v`? */
  method HasComparable(v: VarInfo, others: seq<VarInfo>, comparable2: (VarInfo, VarInfo) -> bool) returns (found: bool)
    ensures found <==> ComparableIn(v, others, comparable2)
  {
    found := false;
    for vindex := 0 to |others|
      invariant forall j :: 0 <= j < vindex ==> !comparable2(v, others[j])
    {
      if comparable2(v, others[vindex]) {
        return true;
      }
    }
  }

  lemma {:induction false} CommonAppendOne(vars: seq<VarInfo>, v: VarInfo, ppts: seq<seq<VarInfo>>, upto: nat, comparable2: (VarInfo, VarInfo) -> bool)
    requires upto <= |ppts|
    ensures Common(vars + [v], ppts, upto, comparable2)
            == Common(vars, ppts, upto, comparable2) + (if KeptUpTo(v, ppts, upto, comparable2) then [v] else [])
    decreases |vars|
  {
    if |vars| == 0 {
      assert (vars + [v])[1..] == [];
    } else {
      assert (vars + [v])[1..] == vars[1..] + [v];
      CommonAppendOne(vars[1..], v, ppts, upto, comparable2);
    }
  }

  /** A program point: its name, its variables, and the cached rendering of their names. */
  class Ppt {
    const name: string
    var varInfos: seq<VarInfo>
    var varNamesCache: Option<string>

    constructor (name: string, varInfos: seq<VarInfo>)
      ensures this.name == name && this.varInfos == varInfos && varNamesCache.None?
    {
      this.name := name;
      this.varInfos := varInfos;
      varNamesCache := None;
    }

    /** fn_name(): fn_name of this program point's name. */
    function FnNameOfPpt(sep: string): (r: Option<string>)
      ensures r == FnName(name, sep)
    {
      FnName(name, sep)
    }

    /**
     * varNames(): computed from var_infos on the first call and cached; every
     * later call returns the cached string.
     */
    method CachedVarNames() returns (s: string)
      modifies this`varNamesCache
      ensures old(varNamesCache).Some? ==> s == old(varNamesCache).value
      ensures old(varNamesCache).None? && |varInfos| == 0 ==> s == "(<implication slice>)"
      ensures old(varNamesCache).None? && |varInfos| > 0 ==> s == "(" + Join(Names(varInfos), ", ") + ")"
      ensures varNamesCache == Some(s)
    {
      if varNamesCache.None? {
        var computed := VarNames(varInfos);
        varNamesCache := Some(computed);
      }
      s := varNamesCache.value;
    }

    /** findVar(name): the first variable with that name, or null when none has it. */
    method FindVar(varName: string) returns (r: Option<VarInfo>)
      ensures r.None? <==> forall i :: 0 <= i < |varInfos| ==> varInfos[i].Name() != varName
      ensures r.Some? ==> IsFirstNamed(varInfos, varName, r.value)
    {
      for i := 0 to |varInfos|
        invariant forall j :: 0 <= j < i ==> varInfos[j].Name() != varName
      {
        if varName == varInfos[i].Name() {
          return Some(varInfos[i]);
        }
      }
      return None;
    }
  }

  /** The char Ppt.NameComparator.swap uses as a temporary: the octal escape '\255', that is U+00AD. */
  const Magic: char := '\U{AD}'

  /** String.replace(from, to) on chars: every `from` becomes `to`. */
  function Replace(s: string, from: char, to: char): (r: string)
    ensures |r| == |s|
    ensures forall i :: 0 <= i < |s| ==> r[i] == if s[i] == from then to else s[i]
  {
    seq(|s|, i requires 0 <= i < |s| => if s[i] == from then to else s[i])
  }

  /** NameComparator.swap(s, a, b): a to the magic char, b to a, the magic char to b. */
  function Swap(s: string, a: char, b: char): (r: string)
    ensures |r| == |s|
    ensures a != Magic && b != Magic ==> forall i :: 0 <= i < |s| ==>
      r[i] == if s[i] == a || s[i] == Magic then b else if s[i] == b then a else s[i]
  {
    Replace(Replace(Replace(s, a, Magic), b, a), Magic, b)
  }

  /** Without the magic char in `s`, swap exchanges every a with b and leaves every other char. */
  lemma SwapExchanges(s: string, a: char, b: char)
    requires Magic !in s && a != Magic && b != Magic
    ensures |Swap(s, a, b)| == |s|
    ensures forall i :: 0 <= i < |s| ==>
      Swap(s, a, b)[i] == if s[i] == a then b else if s[i] == b then a else s[i]
  {
  }

  lemma SwapInvolution(s: string, a: char, b: char)
    requires Magic !in s && a != Magic && b != Magic
    ensures Swap(Swap(s, a, b), a, b) == s
  {
    SwapExchanges(s, a, b);
    var t := Swap(s, a, b);
    assert forall i :: 0 <= i < |t| ==> t[i] != Magic;
    assert Magic !in t;
    SwapExchanges(t, a, b);
  }

  /** A magic char already in the name is turned into b, so swapping twice does not restore it. */
  lemma SwapMagicNotRestored()
    ensures Swap([Magic], '.', ':') == ":"
    ensures Swap(Swap([Magic], '.', ':'), '.', ':') == "."
  {
  }

  /** NameComparator.compare: String.compareTo of the names with '.' and ':' exchanged. */
  function Compare(name1: string, name2: string): (r: int)
    ensures r == 0 <==> Swap(name1, '.', ':') == Swap(name2, '.', ':')
  {
    CompareToZero(Swap(name1, '.', ':'), Swap(name2, '.', ':'));
    CompareTo(Swap(name1, '.', ':'), Swap(name2, '.', ':'))
  }

  lemma CompareReflexive(name: string)
    ensures Compare(name, name) == 0
  {
    CompareToZero(Swap(name, '.', ':'), Swap(name, '.', ':'));
  }

  lemma CompareAntisymmetric(name1: string, name2: string)
    ensures Compare(name1, name2) == -Compare(name2, name1)
  {
    CompareToAntisymmetric(Swap(name1, '.', ':'), Swap(name2, '.', ':'));
  }

  lemma CompareTransitive(name1: string, name2: string, name3: string)
    requires Compare(name1, name2) < 0 && Compare(name2, name3) < 0
    ensures Compare(name1, name3) < 0
  {
    LessTransitive(Swap(name1, '.', ':'), Swap(name2, '.', ':'), Swap(name3, '.', ':'));
  }

  /** For names without the magic char the comparator identifies only equal names. */
  lemma CompareZeroIffEqual(name1: string, name2: string)
    requires Magic !in name1 && Magic !in name2
    ensures Compare(name1, name2) == 0 <==> name1 == name2
  {
    CompareToZero(Swap(name1, '.', ':'), Swap(name2, '.', ':'));
    if Swap(name1, '.', ':') == Swap(name2, '.', ':') {
      SwapInvolution(name1, '.', ':');
      SwapInvolution(name2, '.', ':');
    }
  }

  /** With the magic char present the comparator identifies different names: "." and the lone magic char compare 0. */
  lemma CompareConflatesMagic()
    ensures "." != [Magic] && Compare(".", [Magic]) == 0
  {
    assert Swap(".", '.', ':') == ":";
    assert Swap([Magic], '.', ':') == ":";
  }

  /** The ordering the comparator exists for: Foo:::OBJECT before Foo.method. */
  lemma ObjectPointBeforeMethods()
    ensures Compare("Foo:::OBJECT", "Foo.method") < 0
  {
    assert Swap("Foo:::OBJECT", '.', ':') == "Foo...OBJECT";
    assert Swap("Foo.method", '.', ':') == "Foo:method";
  }
}
