/**
 * The selection logic of daikon.Daikon that does not depend on the rest of
 * the system: how read_options sorts file names into kinds, how it checks
 * the letters of --omit_from_output, and how setup_ppt_perc picks the last
 * program point to process from the program point names of the decls files.
 * Files are modelled by their contents (a sequence of lines) or their names;
 * File.exists and FileIO.isComment are parameters.
 */
module DaikonOptions {
  import opened Wrappers
  import opened JavaStrings

  datatype FileKind = Decls | Dtrace | Spinfo | MapFile

  /** The errors read_options and setup_ppt_perc throw, one per message. */
  datatype OptionError =
    | FileNotFound(file: string)
    | UnrecognizedFile(file: string)
    | UnknownOmitLetter(letter: char)
    | PercOutOfRange(perc: int)
    | NoPpts(perc: int, size: int)
    | MissingPptName

  // ---------------------------------------------------------------------
  // File kinds

  /** The markers a file name is searched for, in the order they are tried, and the kinds they stand for. */
  const Markers: seq<string> := [".decls", ".dtrace", ".spinfo", ".map"]
  const Kinds: seq<FileKind> := [Decls, Dtrace, Spinfo, MapFile]

  /** The chain of indexOf tests: the kind of the first marker contained anywhere in the name. */
  function Classify(name: string): (r: Option<FileKind>)
    ensures r.Some? ==> exists i :: 0 <= i < |Kinds| && Kinds[i] == r.value && Contains(name, Markers[i])
    ensures r.None? ==> forall j :: 0 <= j < |Markers| ==> !Contains(name, Markers[j])
  {
    if Contains(name, ".decls") then assert Markers[0] == ".decls"; Some(Decls)
    else if Contains(name, ".dtrace") then assert Markers[1] == ".dtrace"; Some(Dtrace)
    else if Contains(name, ".spinfo") then assert Markers[2] == ".spinfo"; Some(Spinfo)
    else if Contains(name, ".map") then assert Markers[3] == ".map"; Some(MapFile)
    else None
  }

  /** Classify is the first match in the marker table, and a name with no marker has no kind. */
  lemma ClassifyFirstMatch(name: string)
    ensures forall i :: 0 <= i < |Kinds| ==>
      (Classify(name) == Some(Kinds[i]) <==>
         Contains(name, Markers[i]) && forall j :: 0 <= j < i ==> !Contains(name, Markers[j]))
    ensures Classify(name) == None <==> forall j :: 0 <= j < |Markers| ==> !Contains(name, Markers[j])
  {
    assert Markers[0] == ".decls" && Markers[1] == ".dtrace";
    assert Markers[2] == ".spinfo" && Markers[3] == ".map";
  }

  /** Containment, not suffix: a dated decls file is still a decls file, and ".decls" wins over ".dtrace". */
  lemma ClassifyExamples()
    ensures Classify("prog.decls-2001") == Some(Decls)
    ensures Classify("a.dtrace.decls") == Some(Decls)
  {
    assert OccursAt("prog.decls-2001", ".decls", 4);
    assert OccursAt("a.dtrace.decls", ".decls", 8);
  }

  /** Without its dot a marker does not count. */
  lemma ClassifyNeedsDot()
    ensures Classify("mydtrace") == None
  {
    NotContained("mydtrace", ".decls");
    NotContained("mydtrace", ".dtrace");
    NotContained("mydtrace", ".spinfo");
    NotContained("mydtrace", ".map");
  }

  /** A string in which no char of `s` equals the first char of `sub` does not contain `sub`. */
  lemma NotContained(s: string, sub: string)
    requires |sub| > 0 && forall i :: 0 <= i < |s| ==> s[i] != sub[0]
    ensures !Contains(s, sub)
  {
    forall i | 0 <= i && i + |sub| <= |s| ensures !OccursAt(s, sub, i) {
      assert s[i..i + |sub|][0] == s[i];
    }
  }

  /** The four sets of files read_options collects. */
  datatype FileSets = FileSets(decls: set<string>, dtraces: set<string>, spinfos: set<string>, maps: set<string>) {
    function Of(kind: FileKind): set<string> {
      match kind
      case Decls => decls
      case Dtrace => dtraces
      case Spinfo => spinfos
      case MapFile => maps
    }

    function Add(kind: FileKind, name: string): (r: FileSets)
      ensures r.Of(kind) == Of(kind) + {name}
      ensures forall k :: k != kind ==> r.Of(k) == Of(k)
    {
      match kind
      case Decls => this.(decls := decls + {name})
      case Dtrace => this.(dtraces := dtraces + {name})
      case Spinfo => this.(spinfos := spinfos + {name})
      case MapFile => this.(maps := maps + {name})
    }
  }

  /** A blank line of a --files_from file is ignored; a blank argument is not. */
  predicate Skipped(name: string, skipBlank: bool) {
    skipBlank && name == ""
  }

  /** What is wrong with one file name: it does not exist, or none of the markers occurs in it. */
  function FileError(name: string, fileExists: string -> bool): Option<OptionError> {
    if !fileExists(name) then Some(FileNotFound(name))
    else if Classify(name).None? then Some(UnrecognizedFile(name))
    else None
  }

  /** The names among `names` that are not skipped and are of kind `kind`. */
  function Listed(names: seq<string>, kind: FileKind, skipBlank: bool): set<string> {
    set i | 0 <= i < |names| && !Skipped(names[i], skipBlank) && Classify(names[i]) == Some(kind) :: names[i]
  }

  lemma ListedSnoc(names: seq<string>, name: string, kind: FileKind, skipBlank: bool)
    ensures Listed(names + [name], kind, skipBlank) ==
      Listed(names, kind, skipBlank) + (if !Skipped(name, skipBlank) && Classify(name) == Some(kind) then {name} else {})
  {
    var ns := names + [name];
    assert forall i :: 0 <= i < |names| ==> ns[i] == names[i];
    assert ns[|names|] == name;
  }

  /** `acc` is `files` with the names of `names` of each kind added. */
  ghost predicate Collected(acc: FileSets, files: FileSets, names: seq<string>, skipBlank: bool) {
    forall k :: acc.Of(k) == files.Of(k) + Listed(names, k, skipBlank)
  }

  /** One more name: skipped, it changes nothing; with a kind, it goes into the set of that kind. */
  lemma CollectedNext(acc: FileSets, files: FileSets, names: seq<string>, i: nat, skipBlank: bool)
    requires i < |names| && Collected(acc, files, names[..i], skipBlank)
    ensures Skipped(names[i], skipBlank) ==> Collected(acc, files, names[..i + 1], skipBlank)
    ensures !Skipped(names[i], skipBlank) && Classify(names[i]).Some? ==>
      Collected(acc.Add(Classify(names[i]).value, names[i]), files, names[..i + 1], skipBlank)
  {
    assert names[..i + 1] == names[..i] + [names[i]];
    forall k {
      ListedSnoc(names[..i], names[i], k, skipBlank);
    }
  }

  /**
   * The loop over the file arguments (skipBlank false) or over the lines of
   * a --files_from file (skipBlank true): each name goes into the set of
   * its kind; the first name that does not exist or has no kind is the error.
   */
  method AddFiles(names: seq<string>, skipBlank: bool, fileExists: string -> bool, files: FileSets)
    returns (r: Result<FileSets, OptionError>)
    ensures r.Success? <==> AllFine(names, |names|, skipBlank, fileExists)
    ensures r.Success? ==> forall k :: r.value.Of(k) == files.Of(k) + Listed(names, k, skipBlank)
    ensures r.Failure? ==> exists i :: FirstBad(names, i, skipBlank, fileExists, r.error)
  {
    var acc := files;
    assert Collected(acc, files, names[..0], skipBlank);
    for i := 0 to |names|
      invariant AllFine(names, i, skipBlank, fileExists)
      invariant Collected(acc, files, names[..i], skipBlank)
    {
      var name := names[i];
      CollectedNext(acc, files, names, i, skipBlank);
      if skipBlank && name == "" {
        AllFineNext(names, i, skipBlank, fileExists);
        continue;
      }
      var err, kind := CheckName(name, fileExists);
      if err.Some? {
        assert FirstBad(names, i, skipBlank, fileExists, err.value);
        FirstBadBlocks(names, i, skipBlank, fileExists, err.value);
        return Failure(err.value);
      }
      AllFineNext(names, i, skipBlank, fileExists);
      acc := acc.Add(kind, name);
    }
    assert names[..|names|] == names;
    return Success(acc);
  }

  /** No name among the first n that is not skipped has anything wrong with it. */
  predicate AllFine(names: seq<string>, n: nat, skipBlank: bool, fileExists: string -> bool)
    requires n <= |names|
  {
    forall j :: 0 <= j < n && !Skipped(names[j], skipBlank) ==> FileError(names[j], fileExists).None?
  }

  lemma AllFineNext(names: seq<string>, i: nat, skipBlank: bool, fileExists: string -> bool)
    requires i < |names| && AllFine(names, i, skipBlank, fileExists)
    requires Skipped(names[i], skipBlank) || FileError(names[i], fileExists).None?
    ensures AllFine(names, i + 1, skipBlank, fileExists)
  {
  }

  /** names[i] is the first name that is not skipped and has something wrong with it, namely `e`. */
  predicate FirstBad(names: seq<string>, i: int, skipBlank: bool, fileExists: string -> bool, e: OptionError) {
    && 0 <= i < |names|
    && !Skipped(names[i], skipBlank)
    && FileError(names[i], fileExists) == Some(e)
    && AllFine(names, i, skipBlank, fileExists)
  }

  lemma FirstBadBlocks(names: seq<string>, i: int, skipBlank: bool, fileExists: string -> bool, e: OptionError)
    requires FirstBad(names, i, skipBlank, fileExists, e)
    ensures !AllFine(names, |names|, skipBlank, fileExists)
  {
  }

  /** The two checks on one name, as the loop body performs them: the imperative form of FileError and Classify. */
  method CheckName(name: string, fileExists: string -> bool) returns (err: Option<OptionError>, kind: FileKind)
    ensures err == FileError(name, fileExists)
    ensures err.None? ==> Classify(name) == Some(kind)
  {
    kind := Decls;
    if !fileExists(name) {
      return Some(FileNotFound(name)), kind;
    }
    var found := Classify(name);
    if found.None? {
      return Some(UnrecognizedFile(name)), kind;
    }
    return None, found.value;
  }

  // ---------------------------------------------------------------------
  // --omit_from_output

  /** The letters --omit_from_output accepts. */
  const OmitLetters: string := "0rs"

  /** `flags` with the entry of every letter in `letters` set. */
  function Marked(flags: seq<bool>, letters: string): (r: seq<bool>)
    requires forall i :: 0 <= i < |letters| ==> letters[i] as int < |flags|
    ensures |r| == |flags|
    ensures forall c :: 0 <= c < |flags| ==>
      (r[c] <==> flags[c] || exists i :: 0 <= i < |letters| && letters[i] as int == c)
    decreases |letters|
  {
    if |letters| == 0 then flags
    else
      var front := Marked(flags, letters[..|letters| - 1]);
      front[letters[|letters| - 1] as int := true]
  }

  /** The static state read_options writes for --omit_from_output. */
  class Omissions {
    /** omit_types: one flag per char code below 256. */
    const omitTypes: array<bool>
    var omitFromOutput: bool

    ghost predicate Valid()
      reads this
    {
      omitTypes.Length == 256
    }

    constructor ()
      ensures Valid() && fresh(omitTypes)
      ensures forall c :: 0 <= c < 256 ==> !omitTypes[c]
      ensures !omitFromOutput
    {
      omitTypes := new bool[256](_ => false);
      omitFromOutput := false;
    }

    /**
     * --omit_from_output f: every letter must be one of "0rs" and sets its
     * flag; the first other letter is the error, and the letters before it
     * have already been set.
     */
    method OmitFromOutput(f: string) returns (err: Option<OptionError>)
      requires Valid()
      modifies this, omitTypes
      ensures Valid()
      ensures err.None? <==> forall i :: 0 <= i < |f| ==> f[i] in OmitLetters
      ensures err.None? ==> omitTypes[..] == Marked(old(omitTypes[..]), f) && omitFromOutput
      ensures err.Some? ==> exists i :: (
        && 0 <= i < |f| && f[i] !in OmitLetters
        && (forall j :: 0 <= j < i ==> f[j] in OmitLetters)
        && err == Some(UnknownOmitLetter(f[i]))
        && omitTypes[..] == Marked(old(omitTypes[..]), f[..i]))
      ensures err.Some? ==> omitFromOutput == old(omitFromOutput)
    {
      for i := 0 to |f|
        invariant forall j :: 0 <= j < i ==> f[j] in OmitLetters
        invariant omitTypes[..] == Marked(old(omitTypes[..]), f[..i])
        invariant omitFromOutput == old(omitFromOutput)
      {
        if f[i] !in OmitLetters {
          return Some(UnknownOmitLetter(f[i]));
        }
        assert f[..i + 1][..i] == f[..i];
        omitTypes[f[i] as int] := true;
      }
      assert f[..|f|] == f;
      omitFromOutput := true;
      return None;
    }
  }

  // ---------------------------------------------------------------------
  // setup_ppt_perc

  /** `p` in front of the names of a successful scan; a failure stays as it is. */
  function Prepend(p: seq<string>, r: Result<seq<string>, OptionError>): Result<seq<string>, OptionError> {
    if r.Success? then Success(p + r.value) else r
  }

  /** Line j of `lines` is "DECLARE" and the next one is `name`. */
  predicate NameAfterDeclare(lines: seq<string>, j: int, name: string) {
    0 <= j < |lines| - 1 && lines[j] == "DECLARE" && lines[j + 1] == name
  }

  /**
   * The read loop over one decls file, from line i on: blank and comment
   * lines and lines other than "DECLARE" are passed over; the line after a
   * "DECLARE" is read as a program point name, whatever it holds.  A
   * "DECLARE" on the last line leaves readLine() with nothing to return.
   */
  function Scan(lines: seq<string>, isComment: string -> bool, i: nat): (r: Result<seq<string>, OptionError>)
    requires i <= |lines|
    ensures r.Success? ==> forall x :: x in r.value ==>
      exists j {:trigger NameAfterDeclare(lines, j, x)} :: i <= j && NameAfterDeclare(lines, j, x)
    decreases |lines| - i
  {
    if i == |lines| then Success([])
    else if lines[i] == "" || isComment(lines[i]) then Scan(lines, isComment, i + 1)
    else if lines[i] != "DECLARE" then Scan(lines, isComment, i + 1)
    else if i + 1 == |lines| then Failure(MissingPptName)
    else
      var rest := Scan(lines, isComment, i + 2);
      assert NameAfterDeclare(lines, i, lines[i + 1]);
      Prepend([lines[i + 1]], rest)
  }

  /**
   * When no name line is itself "DECLARE" and no "DECLARE" ends the file,
   * the scan collects exactly the lines that follow a "DECLARE" line.
   */
  lemma {:induction false} ScanComplete(lines: seq<string>, isComment: string -> bool, i: nat)
    requires i <= |lines| && !isComment("DECLARE")
    requires forall j :: i <= j < |lines| && lines[j] == "DECLARE" ==> j + 1 < |lines| && lines[j + 1] != "DECLARE"
    ensures Scan(lines, isComment, i).Success?
    ensures forall x :: x in Scan(lines, isComment, i).value <==>
      exists j {:trigger NameAfterDeclare(lines, j, x)} :: i <= j && NameAfterDeclare(lines, j, x)
    decreases |lines| - i
  {
    if i < |lines| {
      var next := if lines[i] == "DECLARE" then i + 2 else i + 1;
      ScanComplete(lines, isComment, next);
      forall x, j | i <= j && NameAfterDeclare(lines, j, x)
        ensures x in Scan(lines, isComment, i).value
      {
        if j == i && lines[i] == "DECLARE" {
          assert x == lines[i + 1];
        }
      }
    }
  }

  /** A blank line after "DECLARE" is read as a name: skipping applies only while looking for "DECLARE". */
  lemma BlankNameKept(isComment: string -> bool)
    requires !isComment("DECLARE")
    ensures Scan(["DECLARE", ""], isComment, 0) == Success([""])
  {
    var lines := ["DECLARE", ""];
    assert lines[0] == "DECLARE" && lines[1] == "";
    assert Scan(lines, isComment, 2) == Success([]);
    assert [""] + [] == [""];
  }

  lemma PrependPrepend(p: seq<string>, q: seq<string>, r: Result<seq<string>, OptionError>)
    ensures Prepend(p, Prepend(q, r)) == Prepend(p + q, r)
  {
    if r.Success? {
      assert p + (q + r.value) == (p + q) + r.value;
    }
  }

  /** The names of all decls files in turn; a failing file ends the scan. */
  function ScanFiles(files: seq<seq<string>>, isComment: string -> bool): Result<seq<string>, OptionError>
    decreases |files|
  {
    if |files| == 0 then Success([])
    else
      var first := Scan(files[0], isComment, 0);
      if first.Failure? then first else Prepend(first.value, ScanFiles(files[1..], isComment))
  }

  /** The TreeSet's order: strictly ascending by String.compareTo. */
  predicate Ascending(s: seq<string>) {
    forall i, j :: 0 <= i < j < |s| ==> Less(s[i], s[j])
  }

  /** TreeSet.add: `x` in its place, unless it is already there. */
  function InsertName(x: string, s: seq<string>): (r: seq<string>)
    ensures forall y :: y in r <==> y == x || y in s
  {
    if |s| == 0 then [x]
    else if x == s[0] then s
    else if Less(x, s[0]) then [x] + s
    else [s[0]] + InsertName(x, s[1..])
  }

  lemma {:induction false} InsertNameAscending(x: string, s: seq<string>)
    requires Ascending(s)
    ensures Ascending(InsertName(x, s))
  {
    if |s| > 0 && x != s[0] {
      if Less(x, s[0]) {
        forall k | 0 <= k < |s| ensures Less(x, s[k]) {
          if k > 0 {
            LessTransitive(x, s[0], s[k]);
          }
        }
        ConsAscending(x, s);
      } else {
        LessTotal(x, s[0]);
        var rest := InsertName(x, s[1..]);
        InsertNameAscending(x, s[1..]);
        forall k | 0 <= k < |rest| ensures Less(s[0], rest[k]) {
          assert rest[k] in rest;
          if rest[k] != x {
            var m :| 0 <= m < |s[1..]| && s[1..][m] == rest[k];
            assert s[m + 1] == rest[k];
          }
        }
        ConsAscending(s[0], rest);
      }
    }
  }

  /** A head below every element of an ascending sequence keeps it ascending. */
  lemma ConsAscending(h: string, rest: seq<string>)
    requires Ascending(rest)
    requires forall k :: 0 <= k < |rest| ==> Less(h, rest[k])
    ensures Ascending([h] + rest)
  {
    var r := [h] + rest;
    forall i, j | 0 <= i < j < |r| ensures Less(r[i], r[j]) {
      assert r[j] == rest[j - 1];
      if i > 0 {
        assert r[i] == rest[i - 1];
      }
    }
  }

  /** Every element of an ascending sequence other than its head comes after the head. */
  lemma AscendingHeadLeast(s: seq<string>, y: string)
    requires Ascending(s) && y in s
    ensures y == s[0] || Less(s[0], y)
  {
  }

  /** A TreeSet's order is determined by its elements. */
  lemma {:induction false} AscendingUnique(a: seq<string>, b: seq<string>)
    requires Ascending(a) && Ascending(b)
    requires forall x :: x in a <==> x in b
    ensures a == b
    decreases |a|
  {
    if |a| > 0 {
      assert a[0] in b;
    }
    if |b| > 0 {
      assert b[0] in a;
    }
    if |a| > 0 && |b| > 0 {
      AscendingHeadLeast(a, b[0]);
      AscendingHeadLeast(b, a[0]);
      LessIrreflexive(a[0]);
      if Less(a[0], b[0]) && Less(b[0], a[0]) {
        LessTransitive(a[0], b[0], a[0]);
      }
      assert a[0] == b[0];
      forall x ensures x in a[1..] <==> x in b[1..] {
        assert x in a <==> x == a[0] || x in a[1..];
        assert x in b <==> x == b[0] || x in b[1..];
        LessIrreflexive(x);
      }
      AscendingUnique(a[1..], b[1..]);
    }
  }

  /** The TreeSet after adding `names` one by one, in the order they were read. */
  function TreeSetOf(names: seq<string>): (r: seq<string>)
    ensures Ascending(r)
    ensures forall y :: y in r <==> y in names
  {
    if |names| == 0 then []
    else
      var front := names[..|names| - 1];
      assert names == front + [names[|names| - 1]];
      InsertNameAscending(names[|names| - 1], TreeSetOf(front));
      InsertName(names[|names| - 1], TreeSetOf(front))
  }

  /**
   * decl_files is a HashSet, read in no fixed order: the TreeSet built
   * from the names depends only on which names were read.
   */
  lemma TreeSetOrderFree(a: seq<string>, b: seq<string>)
    requires forall x :: x in a <==> x in b
    ensures TreeSetOf(a) == TreeSetOf(b)
  {
    AscendingUnique(TreeSetOf(a), TreeSetOf(b));
  }

  /** ppt_cnt = size * perc / 100: fewer than size when perc is below 100, and 0 exactly when size * perc < 100. */
  function PptCount(size: nat, perc: int): (c: nat)
    requires 1 <= perc <= 100
    ensures c <= size
    ensures perc < 100 && size > 0 ==> c < size
    ensures c == 0 <==> size * perc < 100
  {
    assert size * perc <= size * 100;
    assert perc < 100 && size > 0 ==> size * perc < size * 100;
    size * perc / 100
  }

  /** A group of EXIT points ends at j: names[j] is an exit and names[j + 1] is not. */
  predicate GroupEnd(names: seq<string>, j: int)
    requires 0 <= j < |names| - 1
  {
    Contains(names[j], "EXIT") && !Contains(names[j + 1], "EXIT")
  }

  /**
   * The index setup_ppt_perc answers with, starting from index k: the first
   * index from k on that ends a group of EXIT points, else the last index.
   */
  function CutOff(names: seq<string>, k: nat): (j: nat)
    requires k < |names|
    ensures k <= j < |names|
    ensures j < |names| - 1 ==> GroupEnd(names, j)
    ensures forall m :: k <= m < j ==> !GroupEnd(names, m)
    decreases |names| - k
  {
    if k == |names| - 1 then k
    else if GroupEnd(names, k) then k
    else CutOff(names, k + 1)
  }

  /**
   * The read loop over one decls file: each name read goes into the TreeSet
   * `ppts`, which holds the names `seen` in the files before.
   */
  method ReadDeclFile(lines: seq<string>, isComment: string -> bool, ppts: seq<string>, ghost seen: seq<string>)
    returns (r: Result<seq<string>, OptionError>)
    requires ppts == TreeSetOf(seen)
    ensures Scan(lines, isComment, 0).Failure? ==> r == Failure(MissingPptName)
    ensures Scan(lines, isComment, 0).Success? ==> r == Success(TreeSetOf(seen + Scan(lines, isComment, 0).value))
  {
    var names := ppts;
    var i := 0;
    ghost var cur: seq<string> := [];
    assert Scan(lines, isComment, 0) == Prepend(cur, Scan(lines, isComment, 0)) by {
      if Scan(lines, isComment, 0).Success? {
        assert [] + Scan(lines, isComment, 0).value == Scan(lines, isComment, 0).value;
      }
    }
    assert seen + cur == seen;
    while i < |lines|
      invariant 0 <= i <= |lines|
      invariant names == TreeSetOf(seen + cur)
      invariant Scan(lines, isComment, 0) == Prepend(cur, Scan(lines, isComment, i))
      decreases |lines| - i
    {
      var line := lines[i];
      i := i + 1;
      if line == "" || isComment(line) {
        continue;
      }
      if line != "DECLARE" {
        continue;
      }
      if i == |lines| {
        // readLine() returns null: there is no name to add
        return Failure(MissingPptName);
      }
      var name := lines[i];
      i := i + 1;
      names := InsertName(name, names);
      PrependPrepend(cur, [name], Scan(lines, isComment, i));
      assert (seen + cur) + [name] == seen + (cur + [name]);
      cur := cur + [name];
    }
    assert cur + [] == cur;
    return Success(names);
  }

  /** The read loops over all decls files, into one TreeSet. */
  method ReadPptNames(declFiles: seq<seq<string>>, isComment: string -> bool) returns (r: Result<seq<string>, OptionError>)
    ensures ScanFiles(declFiles, isComment).Failure? ==> r == Failure(MissingPptName)
    ensures ScanFiles(declFiles, isComment).Success? ==> r == Success(TreeSetOf(ScanFiles(declFiles, isComment).value))
  {
    var ppts: seq<string> := [];
    ghost var seen: seq<string> := [];
    assert declFiles[0..] == declFiles;
    assert ScanFiles(declFiles, isComment) == Prepend(seen, ScanFiles(declFiles, isComment)) by {
      if ScanFiles(declFiles, isComment).Success? {
        assert [] + ScanFiles(declFiles, isComment).value == ScanFiles(declFiles, isComment).value;
      }
    }
    for f := 0 to |declFiles|
      invariant ppts == TreeSetOf(seen)
      invariant ScanFiles(declFiles, isComment) == Prepend(seen, ScanFiles(declFiles[f..], isComment))
    {
      assert declFiles[f..][0] == declFiles[f] && declFiles[f..][1..] == declFiles[f + 1..];
      var file := ReadDeclFile(declFiles[f], isComment, ppts, seen);
      if file.Failure? {
        return file;
      }
      ghost var cur := Scan(declFiles[f], isComment, 0).value;
      PrependPrepend(seen, cur, ScanFiles(declFiles[f + 1..], isComment));
      ppts := file.value;
      seen := seen + cur;
    }
    assert seen + [] == seen;
    return Success(ppts);
  }

  /**
   * The inner loop of the walk: from the name at `start` on, the first
   * name that ends a group of EXIT points, else the last name.
   */
  method GroupEndFrom(ppts: seq<string>, start: nat) returns (name: string)
    requires start < |ppts|
    ensures name == ppts[CutOff(ppts, start)]
  {
    name := ppts[start];
    var k := start + 1;
    var last := name;
    while k < |ppts|
      invariant start < k <= |ppts|
      invariant last == ppts[k - 1] && name == last
      invariant CutOff(ppts, start) >= k - 1
    {
      name := ppts[k];
      k := k + 1;
      if Contains(last, "EXIT") && !Contains(name, "EXIT") {
        assert GroupEnd(ppts, k - 2);
        return last;
      }
      last := name;
    }
  }

  /**
   * The iterator walk of setup_ppt_perc over the TreeSet `ppts`: the
   * ppt_cnt-th name, extended to the end of its EXIT group.  The throw
   * after the walk cannot be reached.
   */
  method MaxPptName(ppts: seq<string>, perc: int) returns (r: Result<string, OptionError>)
    requires 1 <= perc < 100
    ensures PptCount(|ppts|, perc) == 0 ==> r == Failure(NoPpts(perc, |ppts|))
    ensures PptCount(|ppts|, perc) > 0 ==> r == Success(ppts[CutOff(ppts, PptCount(|ppts|, perc) - 1)])
  {
    var cnt := PptCount(|ppts|, perc);
    if cnt == 0 {
      return Failure(NoPpts(perc, |ppts|));
    }
    ghost var start := cnt - 1;
    var k := 0;
    while k < |ppts|
      invariant 0 <= k <= |ppts|
      invariant cnt == start + 1 - k && cnt >= 1
    {
      var name := ppts[k];
      k := k + 1;
      cnt := cnt - 1;
      if cnt <= 0 {
        name := GroupEndFrom(ppts, k - 1);
        return Success(name);
      }
    }
    // every name has been counted and ppt_cnt is still positive
    assert false;
  }

  /**
   * setup_ppt_perc(decl_files, ppt_perc): an error outside 1..100, None
   * for 100; otherwise the names of all files in the TreeSet's ascending
   * order, of which the ppt_cnt-th is extended to the end of its EXIT group.
   */
  method SetupPptPerc(declFiles: seq<seq<string>>, perc: int, isComment: string -> bool)
    returns (r: Result<Option<string>, OptionError>)
    ensures !(1 <= perc <= 100) ==> r == Failure(PercOutOfRange(perc))
    ensures perc == 100 ==> r == Success(None)
    ensures 1 <= perc < 100 && ScanFiles(declFiles, isComment).Failure? ==> r == Failure(MissingPptName)
    ensures 1 <= perc < 100 && ScanFiles(declFiles, isComment).Success? ==>
      var order := TreeSetOf(ScanFiles(declFiles, isComment).value);
      && (PptCount(|order|, perc) == 0 ==> r == Failure(NoPpts(perc, |order|)))
      && (PptCount(|order|, perc) > 0 ==> r == Success(Some(order[CutOff(order, PptCount(|order|, perc) - 1)])))
  {
    if perc < 1 || perc > 100 {
      return Failure(PercOutOfRange(perc));
    }
    if perc == 100 {
      return Success(None);
    }
    var ppts := ReadPptNames(declFiles, isComment);
    if ppts.Failure? {
      return Failure(ppts.error);
    }
    var name := MaxPptName(ppts.value, perc);
    if name.Failure? {
      return Failure(name.error);
    }
    return Success(Some(name.value));
  }
}
