/**
 * daikon.split.SplitterList: the table from program-point names to the
 * splitters to use there, with insert-once `put` and a `get` that falls
 * back to successively shorter forms of the name.
 */
module Split {
  import opened Wrappers
  import opened JavaStrings

  /**
   * The keys `get` tries, in order, for `name` when the tag separator is
   * `sep`: the name itself; the part before the first `sep`; the part of
   * the (possibly shortened) name before its first "("; and the part of
   * that before its first ".".  A step whose marker is absent adds no key
   * and leaves the name as it was.
   */
  function Candidates(name: string, sep: string): (r: seq<string>)
    ensures 1 <= |r| <= 4 && r[0] == name
    ensures forall k :: 0 <= k < |r| ==> r[k] <= name
  {
    var afterTag := Shorten(name, sep);
    var afterParen := Shorten(afterTag, "(");
    assert afterParen <= name && Shorten(afterParen, ".") <= name;
    [name] + Step(name, sep) + Step(afterTag, "(") + Step(afterParen, ".")
  }

  /** One fallback step: the part of `s` before the first `marker`, or `s` itself when there is none. */
  function Shorten(s: string, marker: string): (r: string)
    ensures r <= s
    ensures |marker| > 0 && Contains(s, marker) ==> r < s
  {
    if Contains(s, marker) then PrefixBefore(s, marker) else s
  }

  /** The key one fallback step adds: the shortened name, when the marker occurs. */
  function Step(s: string, marker: string): (r: seq<string>)
    ensures |r| <= 1
    ensures |r| == 1 <==> Contains(s, marker)
    ensures |r| == 1 ==> r[0] == Shorten(s, marker)
  {
    if Contains(s, marker) then [Shorten(s, marker)] else []
  }

  /** The value of the first of `keys` that `m` holds, or None when it holds none of them. */
  function FirstPresent<V>(m: map<string, V>, keys: seq<string>): (r: Option<V>)
    ensures r.None? <==> forall i :: 0 <= i < |keys| ==> keys[i] !in m
    ensures r.Some? ==> exists i :: 0 <= i < |keys| && keys[i] in m && r.value == m[keys[i]]
                                    && forall j :: 0 <= j < i ==> keys[j] !in m
  {
    if |keys| == 0 then None
    else if keys[0] in m then Some(m[keys[0]])
    else
      var r := FirstPresent(m, keys[1..]);
      assert forall i :: 1 <= i < |keys| ==> keys[i] == keys[1..][i - 1];
      r
  }

  /** `get` starts from the full name, and with a non-empty separator each later key is a proper prefix of the one before. */
  lemma CandidatesShrink(name: string, sep: string)
    requires |sep| > 0
    ensures |Candidates(name, sep)| <= 4 && Candidates(name, sep)[0] == name
    ensures forall i :: 0 < i < |Candidates(name, sep)| ==> Candidates(name, sep)[i] < Candidates(name, sep)[i - 1]
  {
    var afterTag := Shorten(name, sep);
    var afterParen := Shorten(afterTag, "(");
    var front := [name] + Step(name, sep);
    assert front[|front| - 1] == afterTag;
    var middle := front + Step(afterTag, "(");
    assert middle[|middle| - 1] == afterParen;
    assert forall i :: 0 < i < |front| ==> front[i] < front[i - 1];
    assert forall i :: 0 < i < |middle| ==> middle[i] < middle[i - 1];
  }

  /** The example in the source's comment: four keys, from the full name down to the class. */
  lemma CandidatesExample()
    ensures Candidates("Foo.bar(IZ)V:::EXIT2", ":::") == ["Foo.bar(IZ)V:::EXIT2", "Foo.bar(IZ)V", "Foo.bar", "Foo"]
  {
    ExampleTag();
    ExampleParen();
    ExampleDot();
    ChainOfSteps("Foo.bar(IZ)V:::EXIT2", ":::", "Foo.bar(IZ)V", "Foo.bar", "Foo");
  }

  /** Candidates when all three markers occur, from the three shortened names. */
  lemma ChainOfSteps(name: string, sep: string, a: string, b: string, c: string)
    requires Step(name, sep) == [a] && Step(a, "(") == [b] && Step(b, ".") == [c]
    ensures Candidates(name, sep) == [name, a, b, c]
  {
    assert Shorten(name, sep) == a && Shorten(a, "(") == b;
    assert [name] + [a] + [b] + [c] == [name, a, b, c];
  }

  lemma ExampleTag()
    ensures Step("Foo.bar(IZ)V:::EXIT2", ":::") == ["Foo.bar(IZ)V"]
  {
    var name := "Foo.bar(IZ)V:::EXIT2";
    assert name[12..15] == ":::";
    FirstOccurrence(name, ":::", 12);
    assert name[..12] == "Foo.bar(IZ)V";
  }

  lemma ExampleParen()
    ensures Step("Foo.bar(IZ)V", "(") == ["Foo.bar"]
  {
    var name := "Foo.bar(IZ)V";
    assert name[7..8] == "(";
    FirstOccurrence(name, "(", 7);
    assert name[..7] == "Foo.bar";
  }

  lemma ExampleDot()
    ensures Step("Foo.bar", ".") == ["Foo"]
  {
    var name := "Foo.bar";
    assert name[3..4] == ".";
    FirstOccurrence(name, ".", 3);
    assert name[..3] == "Foo";
  }

  /** When `sub` occurs at `k` and no earlier index starts with its first char, indexOf is `k`. */
  lemma FirstOccurrence(s: string, sub: string, k: nat)
    requires |sub| > 0 && OccursAt(s, sub, k)
    requires forall i :: 0 <= i < k ==> s[i] != sub[0]
    ensures IndexOf(s, sub) == k
  {
    forall i | 0 <= i < k ensures !OccursAt(s, sub, i) {
      if i + |sub| <= |s| {
        assert s[i..i + |sub|][0] != sub[0];
      }
    }
  }

  lemma FirstPresentAppend<V>(m: map<string, V>, a: seq<string>, b: seq<string>)
    ensures FirstPresent(m, a + b) == if FirstPresent(m, a).Some? then FirstPresent(m, a) else FirstPresent(m, b)
  {
    if |a| > 0 {
      assert (a + b)[1..] == a[1..] + b;
      FirstPresentAppend(m, a[1..], b);
    } else {
      assert a + b == b;
    }
  }

  /** The static ppt_splitters table, as an object holding the map. */
  class SplitterList<V> {
    var pptSplitters: map<string, V>

    constructor ()
      ensures pptSplitters == map[]
    {
      pptSplitters := map[];
    }

    /** get_raw: the splitters stored for exactly this name, or null. */
    function GetRaw(pptname: string): (r: Option<V>)
      reads this
      ensures r.Some? <==> pptname in pptSplitters
      ensures r.Some? ==> r.value == pptSplitters[pptname]
    {
      if pptname in pptSplitters then Some(pptSplitters[pptname]) else None
    }

    /** put: the name must not have splitters yet; afterwards it has these, and no other entry changes. */
    method Put(pptname: string, splits: V)
      requires pptname !in pptSplitters
      modifies this
      ensures GetRaw(pptname) == Some(splits)
      ensures forall k :: k != pptname ==> GetRaw(k) == old(GetRaw(k))
      ensures pptSplitters == old(pptSplitters)[pptname := splits]
    {
      pptSplitters := pptSplitters[pptname := splits];
    }

    /** get: the splitters of the first key in the fallback chain that has any, or null. */
    method Get(name: string, sep: string) returns (result: Option<V>)
      ensures result == FirstPresent(pptSplitters, Candidates(name, sep))
      ensures name in pptSplitters ==> result == Some(pptSplitters[name])
    {
      ghost var m := pptSplitters;
      ghost var s1 := Step(name, sep);
      ghost var s2 := Step(Shorten(name, sep), "(");
      ghost var s3 := Step(Shorten(Shorten(name, sep), "("), ".");
      assert Candidates(name, sep) == [name] + (s1 + (s2 + s3));
      result := GetRaw(name);
      FirstPresentAppend(m, [name], s1 + (s2 + s3));
      if result.Some? {
        return;
      }
      var current := name;
      current, result := LookupShortened(current, sep);
      FirstPresentAppend(m, s1, s2 + s3);
      if result.Some? {
        return;
      }
      current, result := LookupShortened(current, "(");
      FirstPresentAppend(m, s2, s3);
      if result.Some? {
        return;
      }
      current, result := LookupShortened(current, ".");
      if result.Some? {
        return;
      }
      return None;
    }

    /** One fallback block of get: cut the name at the first `marker`, when it occurs, and look the rest up. */
    method LookupShortened(current: string, marker: string) returns (next: string, result: Option<V>)
      ensures next == Shorten(current, marker)
      ensures result == FirstPresent(pptSplitters, Step(current, marker))
    {
      next := current;
      result := None;
      var index := IndexOf(current, marker);
      if index != -1 {
        next := current[..index];
        result := GetRaw(next);
      }
    }
  }
}
