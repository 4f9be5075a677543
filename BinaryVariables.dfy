/**
 * binary_variables.Addressable: an immutable (module, address) pair,
 * ordered by module name and then by signed address, hashed by the low 32
 * bits of the address and printed as module_0x<unsigned hex address>.
 */
module BinaryVariables {
  import opened Numerals
  import JavaStrings
  import opened Wrappers

  datatype Addressable = Addressable(address: Long, moduleName: string)

  /** new Addressable(addr): the copy constructor. */
  function Copy(addr: Addressable): (r: Addressable)
    ensures Equals(r, addr) && r.address == addr.address && r.moduleName == addr.moduleName
  {
    Addressable(addr.address, addr.moduleName)
  }

  /** new Addressable(address, module); interning the module name has no effect on its value. */
  function New(address: Long, moduleName: string): (r: Addressable)
    ensures r.address == address && r.moduleName == moduleName
  {
    Addressable(address, moduleName)
  }

  /** compareTo: the module names' String.compareTo, or -1/0/1 from the signed addresses. */
  function CompareTo(a: Addressable, o: Addressable): (r: int)
    ensures a.moduleName != o.moduleName ==> r != 0 && (r < 0 <==> JavaStrings.Less(a.moduleName, o.moduleName))
    ensures a.moduleName == o.moduleName ==> -1 <= r <= 1 && (r < 0 <==> a.address < o.address)
  {
    JavaStrings.CompareToZero(a.moduleName, o.moduleName);
    var res := JavaStrings.CompareTo(a.moduleName, o.moduleName);
    if res != 0 then res
    else if a.address == o.address then 0
    else if a.address > o.address then 1
    else -1
  }

  /** equals: the same address and the same module name. */
  function Equals(a: Addressable, o: Addressable): (r: bool)
    ensures r <==> a == o
  {
    o.address == a.address && o.moduleName == a.moduleName
  }

  /** hashCode: the long narrowed to an int, that is its low 32 bits read as a signed int. */
  function HashCode(a: Addressable): (h: Int32)
    ensures (h - a.address) % TwoTo32 == 0
  {
    var low := a.address % TwoTo32;
    if low >= TwoTo31 then low - TwoTo32 else low
  }

  /** getAddr: module + "_0x" + Long.toHexString(address). */
  function GetAddr(a: Addressable): (s: string)
    ensures |s| > |a.moduleName| + 3
    ensures s[..|a.moduleName|] == a.moduleName && s[|a.moduleName|..|a.moduleName| + 3] == "_0x"
    ensures forall i :: |a.moduleName| + 3 <= i < |s| ==> IsDigit(s[i], 16)
  {
    a.moduleName + "_0x" + LongToHexString(a.address)
  }

  /** toString delegates to getAddr. */
  function ToString(a: Addressable): (s: string)
    ensures s == GetAddr(a)
  {
    GetAddr(a)
  }

  lemma CompareToZeroIffEquals(a: Addressable, b: Addressable)
    ensures CompareTo(a, b) == 0 <==> Equals(a, b)
  {
    JavaStrings.CompareToZero(a.moduleName, b.moduleName);
  }

  lemma EqualsIsValueEquality(a: Addressable, b: Addressable)
    ensures Equals(a, b) <==> a == b
  {
  }

  lemma CompareToAntisymmetric(a: Addressable, b: Addressable)
    ensures CompareTo(a, b) < 0 <==> CompareTo(b, a) > 0
    ensures CompareTo(a, b) == 0 <==> CompareTo(b, a) == 0
  {
    JavaStrings.CompareToAntisymmetric(a.moduleName, b.moduleName);
  }

  /** On equal modules the address part is exactly -1, 0 or 1 and follows the signed order. */
  lemma CompareToAddressPart(a: Addressable, b: Addressable)
    requires a.moduleName == b.moduleName
    ensures CompareTo(a, b) == (if a.address < b.address then -1 else if a.address == b.address then 0 else 1)
  {
    JavaStrings.CompareToZero(a.moduleName, b.moduleName);
  }

  lemma CompareToTransitive(a: Addressable, b: Addressable, c: Addressable)
    requires CompareTo(a, b) < 0 && CompareTo(b, c) < 0
    ensures CompareTo(a, c) < 0
  {
    JavaStrings.CompareToZero(a.moduleName, b.moduleName);
    JavaStrings.CompareToZero(b.moduleName, c.moduleName);
    JavaStrings.CompareToZero(a.moduleName, c.moduleName);
    if a.moduleName != b.moduleName && b.moduleName != c.moduleName {
      JavaStrings.LessTransitive(a.moduleName, b.moduleName, c.moduleName);
    }
  }

  lemma EqualsImpliesSameHash(a: Addressable, b: Addressable)
    requires Equals(a, b)
    ensures HashCode(a) == HashCode(b)
  {
  }

  /** The index of the last '_' in `s`, or -1. */
  function LastUnderscore(s: string): (r: int)
    ensures -1 <= r < |s|
    ensures r >= 0 ==> s[r] == '_'
    ensures forall i :: r < i < |s| ==> s[i] != '_'
  {
    if |s| == 0 then -1
    else if s[|s| - 1] == '_' then |s| - 1
    else LastUnderscore(s[..|s| - 1])
  }

  /**
   * Reading an address back from its getAddr text: the module is what
   * precedes the last '_', the address the hex digits after "_0x".
   */
  function ParseAddr(s: string): Option<Addressable> {
    var u := LastUnderscore(s);
    if u < 0 || |s| < u + 4 || s[u + 1..u + 3] != "0x" then None
    else
      var hex := s[u + 3..];
      if (forall i :: 0 <= i < |hex| ==> IsDigit(hex[i], 16)) && ParseDigits(hex, 16) < TwoTo64
      then Some(Addressable(ParseHexLong(hex), s[..u]))
      else None
  }

  /** getAddr loses nothing: the module and the address can be read back from it. */
  lemma GetAddrRoundTrip(a: Addressable)
    ensures ParseAddr(GetAddr(a)) == Some(a)
  {
    var hex := LongToHexString(a.address);
    var s := GetAddr(a);
    var u := |a.moduleName|;
    assert s == a.moduleName + "_0x" + hex;
    assert s[u] == "_0x"[0];
    forall i | u < i < |s| ensures s[i] != '_' {
      if i < u + 3 {
        assert s[i] == "_0x"[i - u];
      } else {
        assert IsDigit(s[i], 16);
      }
    }
    assert LastUnderscore(s) == u;
    assert s[u + 1..u + 3] == "0x";
    assert s[u + 3..] == hex;
    assert s[..u] == a.moduleName;
    LongToHexStringRoundTrip(a.address);
  }
}
