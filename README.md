# Daikon core helpers, modelled in Dafny

Daikon is a dynamic invariant detector. It reads program-point declarations
and value traces, instantiates candidate invariants over the traced variables
and keeps the ones the data never falsifies. This project models six small,
self-contained parts of that machinery and proves what they promise.

- **`EltOneOfInv`** (`EltOneOf.dfy`): the "every element is one of at most
  five values" invariant. The class keeps the fixed array `elts` of `LIMIT = 5`
  longs, the counter `numElts` and a `falsified` flag.
  - `AddModified` absorbs a sample. A sixth distinct value falsifies the
    invariant. The first value already recorded ends the whole call.
  - `SortRep` sorts the used prefix in place.
  - `Format` and `SubarrayRep` print the values.
  - `IsSameFormula` compares all five slots.
- **`TwoSequence`** (`TwoSequence.dfy`): the rule that picks the invariant
  kinds for a pair of integer-array variables on each instantiation pass. The
  kinds are tags. The global "non-instantiated" counters are ghost values.
- **`Ppts`** (`Ppts.dfy`): program-point helpers.
  - `FnName` takes the function name.
  - `VarNames` renders the variable list; `Ppt.CachedVarNames` caches it.
  - `Ppt.FindVar` looks a variable up by name.
  - `CommonVars` is the order-preserving intersection of variables.
  - `Compare` is the name comparator that exchanges `.` and `:`.
- **`Split`** (`Split.dfy`): the splitter table. `Put` inserts a name once.
  `Get` falls back from the full name to the part before the tag separator,
  then before `(`, then before `.`.
- **`BinaryVariables`** (`BinaryVariables.dfy`): the `(module, address)` value
  type with its order, equality, hash and unsigned-hex rendering.
- **`DaikonOptions`** (`DaikonOptions.dfy`): the pure selection logic of the
  driver.
  - File names are classified by the first of `.decls`, `.dtrace`,
    `.spinfo` and `.map` they contain.
  - `--omit_from_output` letters are checked.
  - `setup_ppt_perc` scans the decls files for the names after each
    `DECLARE`, orders them as a `TreeSet` does, and cuts off at the given
    percentage, extended to the end of an EXIT group.

Four shared modules support them:
- `Wrappers` holds Option and Result.
- `JavaStrings` models `String.indexOf`, `String.compareTo` and joining with a
  separator.
- `Numerals` models `Long.toString` and `Long.toHexString`, each with a parser
  and a round-trip lemma.
- `VarInfos` holds the parts of a variable descriptor that the modelled code
  reads.

Calls into code outside the model are parameters of the operations that make
them:
- `File.exists`
- `FileIO.isComment`
- `FileIO.ppt_tag_separator`, given to `Split` as the separator
- `VarInfo.compatible` and `VarInfo.comparable2`

## Model

| member | source | states |
|---|---|---|
| `EltOneOfInv.EltOneOf.constructor` | java/daikon/inv/unary/sequence/EltOneOf.java:29-36 | A fresh invariant has a fresh array of LIMIT zero slots, no recorded values and is not falsified. |
| `EltOneOfInv.EltOneOf.NumElts` | java/daikon/inv/unary/sequence/EltOneOf.java:42-44 | The count lies in 0..LIMIT and is the number of recorded values. |
| `EltOneOfInv.EltOneOf.Elt` | java/daikon/inv/unary/sequence/EltOneOf.java:46-54 | Succeeds exactly when one value is recorded, and then returns that value. Otherwise it is an error carrying the count. |
| `EltOneOfInv.EltOneOf.SortRep` | java/daikon/inv/unary/sequence/EltOneOf.java:56-59 | The prefix becomes its own sorted permutation. It stays distinct, and the slots after the prefix are untouched. |
| `EltOneOfInv.SortSeq` | java/daikon/inv/unary/sequence/EltOneOf.java:58 | Sorting keeps the length and the multiset of the values. |
| `EltOneOfInv.InsertSorted` | java/daikon/inv/unary/sequence/EltOneOf.java:58 | Inserting into an ascending sequence keeps it ascending. |
| `EltOneOfInv.SortSeqSorted` | java/daikon/inv/unary/sequence/EltOneOf.java:58 | The sorted result is ascending. |
| `EltOneOfInv.SortSorted` | java/daikon/inv/unary/sequence/EltOneOf.java:58 | Sorting an ascending sequence changes nothing. |
| `EltOneOfInv.PermutationKeepsDistinct` | java/daikon/inv/unary/sequence/EltOneOf.java:56-59 | A permutation of distinct values is distinct, so sorting keeps the values pairwise different. |
| `EltOneOfInv.EltOneOf.Show` | java/daikon/inv/unary/sequence/EltOneOf.java:70 | A value prints as "null" exactly when the type is not integral and the value is 0. Any other text starts with '-' exactly for a negative value. |
| `EltOneOfInv.EltOneOf.ShowReadsBack` | java/daikon/inv/unary/sequence/EltOneOf.java:70 | A value prints as "null" exactly when the type is not integral and the value is 0. Any other printed value parses back to the value itself. |
| `EltOneOfInv.EltOneOf.ListParts` | java/daikon/inv/unary/sequence/EltOneOf.java:65-72 | The loop builds "{ ", then the parts separated by ", ", then " }". |
| `EltOneOfInv.EltOneOf.SubarrayRep` | java/daikon/inv/unary/sequence/EltOneOf.java:61-74 | Sorts the prefix, then lists the printed values in ascending order inside braces. |
| `EltOneOfInv.EltOneOf.Format` | java/daikon/inv/unary/sequence/EltOneOf.java:84-92 | One value gives "name elements = v". Any other count gives "name elements one of { ... }" in ascending order. The prefix is left sorted. |
| `EltOneOfInv.Absorb` | java/daikon/inv/unary/sequence/EltOneOf.java:94-110 | Absorbing a sample records at most LIMIT values and only appends to the old ones. It keeps them distinct, and destroys only at LIMIT values. |
| `EltOneOfInv.EltOneOf.AddModified` | java/daikon/inv/unary/sequence/EltOneOf.java:94-110 | The class invariant holds after the call: 0..LIMIT distinct values, then zero slots. The values become those `Absorb` gives. The flag is set when the sample destroys the invariant, and is never cleared. |
| `EltOneOfInv.EltOneOf.Recorded` | java/daikon/inv/unary/sequence/EltOneOf.java:98-100 | The scan finds `v` exactly when `v` is already recorded. |
| `EltOneOfInv.AbsorbShape` | java/daikon/inv/unary/sequence/EltOneOf.java:95-107 | A sample adds its first m elements, for some m, and never truncates. If the sample stops early, a[m] is already recorded, or a[m] is new and destroys the invariant. |
| `EltOneOfInv.SixthValueDestroys` | java/daikon/inv/unary/sequence/EltOneOf.java:101-104 | With LIMIT values recorded, a new value destroys the invariant and leaves the values unchanged. |
| `EltOneOfInv.RepeatEndsSample` | java/daikon/inv/unary/sequence/EltOneOf.java:98-100 | The return leaves the whole method. For the sample 1, 2, 1, 3, the repeated 1 ends it, so 3 is never recorded. |
| `EltOneOfInv.AbsorbNonEmpty` | java/daikon/inv/unary/sequence/EltOneOf.java:94-110 | After a non-empty sample, at least one value is recorded. |
| `EltOneOfInv.EltOneOf.ComputeProbability` | java/daikon/inv/unary/sequence/EltOneOf.java:112-120 | UNKNOWN exactly when no value is recorded, JUSTIFIED otherwise. |
| `EltOneOfInv.EltOneOf.IsSameFormula` | java/daikon/inv/unary/sequence/EltOneOf.java:122-135 | Sorts both prefixes. The answer is true exactly when all LIMIT slots agree, the sorted values followed by the zero slots. |
| `EltOneOfInv.EltOneOf.SlotsAfterSort` | java/daikon/inv/unary/sequence/EltOneOf.java:128-130 | After sorting, the whole array is the sorted values followed by zeros. |
| `EltOneOfInv.EltOneOf.SameSlots` | java/daikon/inv/unary/sequence/EltOneOf.java:130-134 | The comparison loop answers true exactly when the two arrays are equal. |
| `EltOneOfInv.SameFormulaConflatesZero` | java/daikon/inv/unary/sequence/EltOneOf.java:125-134 | As written, {-1} and {-1, 0} have equal slots, though only one of them records 0. |
| `EltOneOfInv.SameFormulaIntendedIffSameValues` | java/daikon/inv/unary/sequence/EltOneOf.java:122-135 | With the counts compared too, two invariants compare the same exactly when they record the same values. |
| `EltOneOfInv.EltOneOf.IsSameFormulaCorrected` | java/daikon/inv/unary/sequence/EltOneOf.java:122-135 | The corrected comparison answers true exactly when both invariants record the same set of values. |
| `TwoSequence.SuperOf` | java/daikon/inv/binary/twoSequence/TwoSequenceFactory.java:34-39 | The super-sequence is the one the variable is derived from, or else the variable itself. |
| `TwoSequence.Instantiate` | java/daikon/inv/binary/twoSequence/TwoSequenceFactory.java:22-96 | Null exactly when the variables are incompatible. Pass 1 gives [SeqComparison] for different supers and nothing for the same super. Pass 2 starts with Reverse: alone for the same super, else 4 + 2n kinds in the source's order. Any other pass gives nothing. The counters grow by 1, or by 2 and 2 + 2n, only on the same-super branches. |
| `Ppts.FnName` | java/daikon/Ppt.java:122-127 | Null exactly when the separator does not occur. Otherwise the result is the part before its first occurrence. |
| `Ppts.Ppt.constructor` | java/daikon/Ppt.java:34-39 | The new program point holds the given name and variables, and its variable-name cache starts empty. |
| `Ppts.Ppt.FnNameOfPpt` | java/daikon/Ppt.java:118-120 | The instance form applies the static one to the program point's name. |
| `Ppts.VarNames` | java/daikon/Ppt.java:129-143 | "(<implication slice>)" for no variables. Otherwise "(", the names joined by ", ", then ")". |
| `Ppts.Ppt.CachedVarNames` | java/daikon/Ppt.java:146-154 | The first call computes the rendering and caches it. Every later call returns the cached string. |
| `Ppts.Ppt.FindVar` | java/daikon/Ppt.java:156-162 | Null exactly when no variable has the name. Otherwise the first variable with that name. |
| `Ppts.Common` | java/daikon/Ppt.java:179-209 | An order-preserving subsequence of the first point's variables. It holds exactly the non-static-constant ones that are comparable2 with some variable of every other point. |
| `Ppts.CommonVars` | java/daikon/Ppt.java:174-211 | One point gives its variables unchanged. Several points give `Common`: a subsequence that holds exactly the kept variables. |
| `Ppts.NonStaticConstants` | java/daikon/Ppt.java:180-189 | The first loop keeps the variables that are not static constants, in order. |
| `Ppts.RemoveIncomparable` | java/daikon/Ppt.java:194-208 | The backward removal loop keeps, in order, the variables with a comparable2 partner among the others. |
| `Ppts.HasComparable` | java/daikon/Ppt.java:196-204 | The inner search finds a partner exactly when one exists. |
| `Ppts.ComparableOnlyStep` | java/daikon/Ppt.java:190-209 | One pass of the outer loop extends the survivors from the first i points to the first i + 1. |
| `Ppts.Replace` | java/daikon/Ppt.java:252 | String.replace(char, char) changes every `from` into `to` and leaves all other chars. |
| `Ppts.Swap` | java/daikon/Ppt.java:250-253 | The length is kept. With a and b other than the magic char, every a and every magic char become b, every b becomes a, and all other chars stay. |
| `Ppts.SwapExchanges` | java/daikon/Ppt.java:250-253 | Without the magic char, swap exchanges every '.' with ':' and leaves all other chars. |
| `Ppts.SwapInvolution` | java/daikon/Ppt.java:250-253 | Without the magic char, swapping twice gives back the name. |
| `Ppts.SwapMagicNotRestored` | java/daikon/Ppt.java:251-252 | A magic char already in the name is not restored by swapping twice. |
| `Ppts.Compare` | java/daikon/Ppt.java:236-248 | The comparison is 0 exactly when the two names are equal after exchanging '.' and ':'. |
| `Ppts.CompareConflatesMagic` | java/daikon/Ppt.java:244-252 | "." and the lone magic char are different names that compare 0, so the comparator is not consistent with equals once the magic char occurs. |
| `Ppts.CompareReflexive` | java/daikon/Ppt.java:236-248 | A name compares equal to itself. |
| `Ppts.CompareAntisymmetric` | java/daikon/Ppt.java:236-248 | Comparing in the other order negates the result. |
| `Ppts.CompareTransitive` | java/daikon/Ppt.java:236-248 | The comparator's strict order is transitive. |
| `Ppts.CompareZeroIffEqual` | java/daikon/Ppt.java:244-247 | For names without the magic char, the comparison is 0 exactly when the names are equal. |
| `Ppts.ObjectPointBeforeMethods` | java/daikon/Ppt.java:232-233 | Foo:::OBJECT is ordered before Foo.method, which is what the comparator is for. |
| `Split.SplitterList.constructor` | java/daikon/split/SplitterList.java:15 | The table starts empty. |
| `Split.SplitterList.GetRaw` | java/daikon/split/SplitterList.java:23-25 | The stored value for exactly this name, or null when there is none. |
| `Split.SplitterList.Put` | java/daikon/split/SplitterList.java:17-21 | Requires the name to be absent. Afterwards it maps to the splitters and no other entry changes. |
| `Split.Shorten` | java/daikon/split/SplitterList.java:46-48 | The cut name is a prefix of the name, and a proper prefix when the marker occurs. |
| `Split.Step` | java/daikon/split/SplitterList.java:46-56 | A fallback block adds a key exactly when its marker occurs, and the key is the cut name. |
| `Split.Candidates` | java/daikon/split/SplitterList.java:27-33 | The fallback chain starts with the name itself and has one to four keys, each a prefix of the name. |
| `Split.FirstPresent` | java/daikon/split/SplitterList.java:35-85 | The value of the first present key, or null exactly when no key is present. |
| `Split.SplitterList.LookupShortened` | java/daikon/split/SplitterList.java:46-56 | One block cuts the current name at its first marker and looks the cut name up. |
| `Split.SplitterList.Get` | java/daikon/split/SplitterList.java:35-86 | The value of the first present key of the fallback chain, or null. The exact entry wins when it exists. The table is not modified. |
| `Split.CandidatesShrink` | java/daikon/split/SplitterList.java:27-33 | The chain starts with the name and has at most four keys, each a proper prefix of the one before. |
| `Split.CandidatesExample` | java/daikon/split/SplitterList.java:28-33 | For Foo.bar(IZ)V:::EXIT2 the keys are the four names of the source's comment, in order. |
| `BinaryVariables.Copy` | java/binary_variables/Addressable.java:10-13 | The copy is equal to its source, field by field. |
| `BinaryVariables.New` | java/binary_variables/Addressable.java:14-17 | The value holds the given address and module name. |
| `BinaryVariables.CompareTo` | java/binary_variables/Addressable.java:18-22 | Different modules: never 0, and negative exactly when the module name is less. The same module: -1, 0 or 1, negative exactly when the address is less as a signed long. |
| `BinaryVariables.Equals` | java/binary_variables/Addressable.java:23-26 | equals holds exactly for the same (address, module) value. |
| `BinaryVariables.CompareToZeroIffEquals` | java/binary_variables/Addressable.java:18-26 | compareTo is 0 exactly when equals holds. |
| `BinaryVariables.CompareToAntisymmetric` | java/binary_variables/Addressable.java:18-22 | The sign of a.compareTo(b) is the negation of the sign of b.compareTo(a). |
| `BinaryVariables.CompareToAddressPart` | java/binary_variables/Addressable.java:19-21 | With equal modules the result is -1, 0 or 1, following the signed addresses. |
| `BinaryVariables.CompareToTransitive` | java/binary_variables/Addressable.java:18-22 | The order is transitive. |
| `BinaryVariables.EqualsIsValueEquality` | java/binary_variables/Addressable.java:23-26 | equals is equality of the (address, module) value. |
| `BinaryVariables.HashCode` | java/binary_variables/Addressable.java:27-29 | The hash is an int congruent to the address modulo 2^32, that is its low 32 bits. |
| `BinaryVariables.EqualsImpliesSameHash` | java/binary_variables/Addressable.java:23-29 | Equal values have equal hashes. |
| `BinaryVariables.ToString` | java/binary_variables/Addressable.java:30-32 | toString is getAddr. |
| `BinaryVariables.GetAddr` | java/binary_variables/Addressable.java:33-35 | The text starts with the module name, then "_0x", then at least one hex digit and nothing but hex digits. |
| `BinaryVariables.GetAddrRoundTrip` | java/binary_variables/Addressable.java:33-35 | The module and the address can be read back from getAddr's text. |
| `Numerals.LongToHexString` | java/binary_variables/Addressable.java:34 | Lower-case hex digits of the unsigned value, with no leading zeros. |
| `Numerals.LongToHexStringRoundTrip` | java/binary_variables/Addressable.java:34 | The hex text fits 64 bits and reads back as the same long, negative values included. |
| `Numerals.LongToString` | java/daikon/inv/unary/sequence/EltOneOf.java:70 | The canonical numeral: a '-' exactly for negative values, then decimal digits with no leading zero (0 is "0"). |
| `Numerals.LongToStringRoundTrip` | java/daikon/inv/unary/sequence/EltOneOf.java:70 | The decimal text reads back as the same long. |
| `JavaStrings.IndexOf` | java/daikon/Ppt.java:123 | The least index where the substring occurs, or -1 exactly when it never occurs. |
| `JavaStrings.CompareTo` | java/binary_variables/Addressable.java:19 | At the first index where the strings differ, String.compareTo is the difference of those chars. When one string is a prefix of the other, it is the difference of the lengths. |
| `JavaStrings.CompareToZero` | java/binary_variables/Addressable.java:19 | String.compareTo is 0 exactly for equal strings. |
| `JavaStrings.CompareToAntisymmetric` | java/binary_variables/Addressable.java:19 | String.compareTo in the other order is the negation. |
| `JavaStrings.LessTransitive` | java/daikon/Daikon.java:1483 | The strict string order that the TreeSet keeps is transitive. |
| `JavaStrings.JoinSnoc` | java/daikon/Ppt.java:136-139 | Appending a separator and a part extends the joined string by exactly that. |
| `DaikonOptions.ClassifyFirstMatch` | java/daikon/Daikon.java:736-746 | The kind is that of the first marker the name contains, in the order .decls, .dtrace, .spinfo, .map. A name containing none has no kind. |
| `DaikonOptions.ClassifyExamples` | java/daikon/Daikon.java:730-731 | The test is containment, not suffix: a dated decls file is a decls file, and .decls outranks .dtrace. |
| `DaikonOptions.ClassifyNeedsDot` | java/daikon/Daikon.java:669-679 | A marker word without its dot does not count. |
| `DaikonOptions.Classify` | java/daikon/Daikon.java:736-746 | A kind comes from a marker the name contains. No kind means the name contains none of the four markers. |
| `DaikonOptions.CheckName` | java/daikon/Daikon.java:732-746 | One iteration of the loop body: the error is the one the name raises, if any, and without one the kind is the name's classification. |
| `DaikonOptions.FileSets.Add` | java/daikon/Daikon.java:737-743 | Adding a file grows the set of its kind by that file and leaves the other sets alone. |
| `DaikonOptions.AddFiles` | java/daikon/Daikon.java:728-747 | Succeeds exactly when every name that is not skipped exists and has a kind. Each set then gains exactly its names. Otherwise the error is that of the first bad name. |
| `DaikonOptions.Marked` | java/daikon/Daikon.java:693 | A flag is set afterwards exactly when it was set before or its letter occurs. |
| `DaikonOptions.Omissions.constructor` | java/daikon/Daikon.java:270 | omit_types starts as 256 cleared flags. |
| `DaikonOptions.Omissions.OmitFromOutput` | java/daikon/Daikon.java:687-695 | No error exactly when every letter is one of 0, r and s. Then those flags are set and omit_from_output too. Otherwise the error names the first bad letter: the letters before it are set and omit_from_output is unchanged. |
| `DaikonOptions.Scan` | java/daikon/Daikon.java:1494-1501 | Every collected name is the line right after some DECLARE line. |
| `DaikonOptions.ScanComplete` | java/daikon/Daikon.java:1494-1501 | When every DECLARE has a following line that is not itself DECLARE, the scan succeeds and collects exactly the lines that follow a DECLARE. |
| `DaikonOptions.BlankNameKept` | java/daikon/Daikon.java:1495-1499 | Blank and comment lines are skipped only while looking for DECLARE: a blank line after DECLARE is read as a name. |
| `DaikonOptions.ReadDeclFile` | java/daikon/Daikon.java:1491-1503 | The read loop adds the scanned names of one file to the TreeSet, or fails when DECLARE is the last line. |
| `DaikonOptions.ReadPptNames` | java/daikon/Daikon.java:1483-1504 | All files together build the TreeSet of the scanned names, or the first failure. |
| `DaikonOptions.InsertName` | java/daikon/Daikon.java:1500 | TreeSet.add: afterwards the elements are the old ones plus the name. |
| `DaikonOptions.InsertNameAscending` | java/daikon/Daikon.java:1500 | Adding keeps the set strictly ascending. |
| `DaikonOptions.TreeSetOf` | java/daikon/Daikon.java:1483-1501 | The set is strictly ascending and holds exactly the names read. |
| `DaikonOptions.AscendingUnique` | java/daikon/Daikon.java:1483 | A strictly ascending sequence is determined by its elements. |
| `DaikonOptions.TreeSetOrderFree` | java/daikon/Daikon.java:1487 | The order in which the decls files are read does not change the set. |
| `DaikonOptions.PptCount` | java/daikon/Daikon.java:1513-1516 | size * perc / 100 is at most size, and below size for perc < 100. It is 0 exactly when size * perc < 100. |
| `DaikonOptions.CutOff` | java/daikon/Daikon.java:1517-1529 | The index from k on: the first one ending an EXIT group, or else the last index. The result is never before k. |
| `DaikonOptions.GroupEndFrom` | java/daikon/Daikon.java:1520-1528 | The inner walk returns the name at CutOff from its start. |
| `DaikonOptions.MaxPptName` | java/daikon/Daikon.java:1513-1531 | A zero count is the error. Otherwise the result is the name at CutOff from the ppt_cnt-th name. The final throw is unreachable. |
| `DaikonOptions.SetupPptPerc` | java/daikon/Daikon.java:1474-1532 | Outside 1..100 an error, and null for 100. A DECLARE on the last line is an error. Otherwise the result is the cut-off name over the ascending set of the scanned names, or the error for a zero count. |

## Left out

- `Daikon.main`, getopt, configuration files, the loading and processing of
  decls and trace files, `FileIOProgress`, `MemMonitor` and the other
  orchestration: I/O and threads around classes that are outside this model.
- `setup_proto_invs`, `FunctionUnary`, `InvNode` and `kmeans.h`: they delegate
  to code that is not part of this model, or only declare things.
- `EltOneOf.repr`, `EltOneOf.find` and `EltOneOf.instantiate`. The first only
  prints, the second searches a slice's invariant list (not part of this
  model), and the third calls the constructor.
- `Ppt.findVar(String)`: it parses the name with `VarInfoName.parse`, which is
  not part of this model. `FindVar` compares names as strings.
- Debug printing, logging and `Intern` interning: they have no effect on the
  values computed.
- `destroy()` is modelled only as setting the `falsified` flag.
- `File` objects are their names: path normalisation by `new File(name)` is
  taken as the identity. File contents are sequences of lines.
- I/O errors while reading files are not modelled. `IOException` paths are
  left out.
- `DaikonOptions.AddFiles`: both "Unrecognized argument" (file arguments) and
  "Unrecognized file extension" (--files_from lines) are the one error
  `UnrecognizedFile`; the message texts are not modelled.
- `DaikonOptions.ReadDeclFile`: a `DECLARE` on the last line makes `readLine()`
  return null, and the source then adds null to the TreeSet. That throws
  unless the set is still empty. The model treats it as the error
  `MissingPptName` in every case. The empty-set case, where the null is kept,
  is not modelled.
- `DaikonOptions.PptCount`: does not model the 32-bit overflow of
  `size * perc`. That overflow needs more than about 21 million program-point
  names.
- `JavaStrings.CompareTo` compares chars as code points. Java compares UTF-16
  code units, and the two orders differ only on chars outside the Basic
  Multilingual Plane.
- `TwoSequence.Instantiate`: the `Global` counters are ghost values passed in
  and out. The source's assertions are preconditions:
  - the arity is 2;
  - both variables are integer arrays;
  - distinct supers have distinct names.
- `EltOneOfInv.EltOneOf.IsSameFormula`: the source first compares the two
  array lengths. Both arrays always have LIMIT slots, so that comparison always
  passes and is not modelled.
- `EltOneOfInv.EltOneOf.IsSameFormula`: the argument is an `EltOneOf`, so the
  `(EltOneOf) o` cast and its `ClassCastException` for another kind of
  invariant are not modelled.
- `BinaryVariables.Equals`: the argument is an `Addressable`, so the
  `(Addressable)o` cast and its `ClassCastException` are not modelled. Neither
  is the `NullPointerException` that a null argument raises when `b.address` is
  read.
- `BinaryVariables.New`: the module name is a string, never null, so the
  `NullPointerException` that `module.intern()` raises for null is not
  modelled.
- `BinaryVariables.Copy`: a null `addr` and its `NullPointerException` are not
  modelled.
- `BinaryVariables.CompareTo`: a null `o` and its `NullPointerException` are
  not modelled. Neither is a null module field, which the constructors above
  never produce from a string.
- `Ppts.CommonVars`: for a single program point the source returns the very
  `var_infos` array of that point, an alias. The model returns a sequence
  value, so later writes through that alias are not modelled.
- Java `long` values are integers between -2^63 and 2^63 - 1; no operation of
  the model does arithmetic on them that could wrap around.

## Findings

| source | as written | input that shows it | evidently intended | confidence | as-written member | corrected member |
|---|---|---|---|---|---|---|
| java/daikon/inv/unary/sequence/EltOneOf.java:122-135 | isSameFormula compares all LIMIT slots, and an unused slot holds 0 | one invariant records {-1}, the other {-1, 0}; both arrays read -1, 0, 0, 0, 0 after sorting, and isSameFormula answers true | two invariants have the same formula exactly when they record the same values, so the counts must be compared too | not executed | `EltOneOfInv.SameFormulaConflatesZero` | `EltOneOfInv.EltOneOf.IsSameFormulaCorrected` |
