/**
 * The parts of a traced variable's descriptor (VarInfo) that the modelled
 * code reads.  VarInfo itself is not part of this model: its comparability
 * queries are passed to the operations that use them as relations.
 */
module VarInfos {
  import opened Wrappers

  /** The representation types of traced values. */
  datatype RepType = Int | Double | Str | IntArray | DoubleArray | StrArray

  /**
   * The identity of a variable object.  Two descriptors denote the same
   * variable exactly when their references are equal; the source compares
   * VarInfo objects with ==.
   */
  datatype VarRef = VarRef(id: nat, name: string)

  datatype VarInfo = VarInfo(
    ref: VarRef,
    repType: RepType,
    isStaticConstant: bool,
    /** isDerivedSubSequenceOf(): the sequence this one is a subsequence of, or null. */
    derivedSubSequenceOf: Option<VarRef>)
  {
    function Name(): string {
      ref.name
    }
  }
}
