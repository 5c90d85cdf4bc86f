/** `writeFiles` of bin/compile.ts: where the artifacts of one compiled contract go,
    what is written there, and the duplicate-name warning. */
module Artifacts {
  import opened Wrappers
  import opened Strings
  import opened Paths

  /** One entry of the compiler's `contracts` object. */
  datatype CompiledUnit = CompiledUnit(bytecode: string, abi: string, gasEstimates: string)

  /** What a file holds: text written as is, or the two-space-indented
      `JSON.stringify` of a JSON value (its layout is the JavaScript runtime's). */
  datatype Content = Raw(text: string) | PrettyJson(json: string)

  /** The output tree: file path to contents. Directories are implicit
      (`mkdirp` never fails on an existing directory). */
  type FileSystem = map<Path, Content>

  /** A qualified name without `:` leaves the contract name undefined, and
      `path.join` throws on it. */
  datatype ArtifactError = MissingContractName(qualifiedName: string)

  const BinExt: string := ".bin"
  const AbiJsonExt: string := ".abi.json"
  const AbiExt: string := ".abi"
  const GasExt: string := ".gasEstimates.json"

  /** bin/compile.ts:59-62: `<outDir>/<dir of source>/<contract>` for `source:contract`
      (a third `:`-separated part is ignored, as destructuring does). */
  function ArtifactBase(outDir: Path, qualifiedName: string): (r: Result<Path, ArtifactError>)
    ensures r.Failure? <==> ':' !in qualifiedName
  {
    var parts := Split(qualifiedName, ':');
    SplitCount(qualifiedName, ':');
    if |parts| < 2 then Failure(MissingContractName(qualifiedName))
    else Success(Join(Join(outDir, Dir(parts[0])), parts[1]))
  }

  /** For `S:C` the base path is the output directory, then the directory of S, then C. */
  lemma ArtifactBaseOfQualified(outDir: Path, source: string, contract: string)
    requires ':' !in source && ':' !in contract
    ensures ArtifactBase(outDir, source + ":" + contract) == Success(Join(Join(outDir, Dir(source)), contract))
  {
    var parts := [source, contract];
    assert JoinWith([':'], parts) == source + ":" + contract;
    SplitJoin(parts, ':');
  }

  /** A contract of a source at the top of the tree (no directory part, as every
      source keyed by base name is) lands directly in the output directory. */
  lemma TopLevelArtifactBase(outDir: Path, source: string, contract: string)
    requires ':' !in source && ':' !in contract && Sep !in source
    ensures ArtifactBase(outDir, source + ":" + contract) == Success(Join(outDir, contract))
  {
    ArtifactBaseOfQualified(outDir, source, contract);
    NoSepIsBasename(source);
  }

  /** The four artifact files, in the order they are written. */
  function ArtifactPaths(base: Path): seq<Path> {
    [base + BinExt, base + AbiJsonExt, base + AbiExt, base + GasExt]
  }

  predicate IsArtifactPath(p: Path) {
    EndsWith(p, BinExt) || EndsWith(p, AbiJsonExt) || EndsWith(p, AbiExt) || EndsWith(p, GasExt)
  }

  lemma EndsWithAppended(a: string, b: string)
    ensures EndsWith(a + b, b)
  {
    assert (a + b)[|a + b| - |b|..] == b;
  }

  /** Exactly four distinct files are written for one base path, all artifact paths. */
  lemma ArtifactPathsDistinct(base: Path)
    ensures |set p | p in ArtifactPaths(base)| == 4
    ensures base + BinExt != base + AbiJsonExt && base + BinExt != base + AbiExt && base + BinExt != base + GasExt
    ensures base + AbiJsonExt != base + AbiExt && base + AbiJsonExt != base + GasExt && base + AbiExt != base + GasExt
    ensures forall p :: p in ArtifactPaths(base) ==> IsArtifactPath(p)
  {
    assert BinExt[1] == 'b' && AbiJsonExt[1] == 'a' && AbiExt[1] == 'a' && GasExt[1] == 'g';
    AppendedDiffer(base, BinExt, AbiJsonExt);
    AppendedDiffer(base, BinExt, AbiExt);
    AppendedDiffer(base, BinExt, GasExt);
    AppendedDiffer(base, AbiJsonExt, AbiExt);
    AppendedDiffer(base, AbiJsonExt, GasExt);
    AppendedDiffer(base, AbiExt, GasExt);
    FourPaths(ArtifactPaths(base));
    ArtifactPathsNamed(base);
  }

  lemma FourPaths(ps: seq<Path>)
    requires |ps| == 4
    requires ps[0] != ps[1] && ps[0] != ps[2] && ps[0] != ps[3] && ps[1] != ps[2] && ps[1] != ps[3] && ps[2] != ps[3]
    ensures |set p | p in ps| == 4
  {
    assert (set p | p in ps) == {ps[0], ps[1], ps[2], ps[3]};
  }

  lemma ArtifactPathsNamed(base: Path)
    ensures forall p :: p in ArtifactPaths(base) ==> IsArtifactPath(p)
  {
    EndsWithAppended(base, BinExt);
    EndsWithAppended(base, AbiJsonExt);
    EndsWithAppended(base, AbiExt);
    EndsWithAppended(base, GasExt);
  }

  /** Two suffixes that differ in length or in their second character give
      different paths. */
  lemma AppendedDiffer(base: Path, x: string, y: string)
    requires |x| > 1 && |y| > 1 && (|x| != |y| || x[1] != y[1])
    ensures base + x != base + y
  {
    if |x| == |y| {
      assert (base + x)[|base| + 1] == x[1];
      assert (base + y)[|base| + 1] == y[1];
    }
  }

  /** The message bin/compile.ts:69-72 prints (its spelling kept). */
  function DuplicateWarning(base: Path): string {
    "Contract name duplication detected: " + base + AbiExt +
    ". Please make sure that every contract is uniquely named across all dirctories."
  }

  datatype Written = Written(fs: FileSystem, warning: Option<string>)

  /** `w` is the tree after writing `unit`'s four files at `base` into `fs`, with
      the warning given exactly when `<base>.abi` was already there. */
  ghost predicate WroteArtifacts(fs: FileSystem, base: Path, unit: CompiledUnit, w: Written) {
    && (w.warning.Some? <==> base + AbiExt in fs)
    && (w.warning.Some? ==> w.warning.value == DuplicateWarning(base))
    && (forall p :: p in w.fs <==> p in fs || p in ArtifactPaths(base))
    && w.fs[base + BinExt] == Raw(unit.bytecode)
    && w.fs[base + AbiJsonExt] == PrettyJson(unit.abi)
    && w.fs[base + AbiExt] == Raw(unit.abi)
    && w.fs[base + GasExt] == PrettyJson(unit.gasEstimates)
    && forall p :: p in fs && p !in ArtifactPaths(base) ==> w.fs[p] == fs[p]
  }

  /** bin/compile.ts:66-84 once the base path is known. */
  function WriteAt(fs: FileSystem, base: Path, unit: CompiledUnit): Written {
    var warning := if base + AbiExt in fs then Some(DuplicateWarning(base)) else None;
    var fs1 := fs[base + BinExt := Raw(unit.bytecode)];
    var fs2 := fs1[base + AbiJsonExt := PrettyJson(unit.abi)];
    var fs3 := fs2[base + AbiExt := Raw(unit.abi)];
    var fs4 := fs3[base + GasExt := PrettyJson(unit.gasEstimates)];
    Written(fs4, warning)
  }

  /** Writing at `base` warns exactly on an existing `.abi`, stores the four
      artifacts and leaves every other file as it was. */
  lemma WriteAtWrote(fs: FileSystem, base: Path, unit: CompiledUnit)
    ensures WroteArtifacts(fs, base, unit, WriteAt(fs, base, unit))
  {
    ArtifactPathsDistinct(base);
  }

  /** bin/compile.ts:58-85: warn when `<base>.abi` already exists, then write the
      four files whatever the warning said. */
  function WriteFiles(fs: FileSystem, outDir: Path, qualifiedName: string, unit: CompiledUnit): (r: Result<Written, ArtifactError>)
    ensures r.Failure? <==> ':' !in qualifiedName
    ensures r.Success? ==> r.value == WriteAt(fs, ArtifactBase(outDir, qualifiedName).value, unit)
  {
    match ArtifactBase(outDir, qualifiedName)
    case Failure(e) => Failure(e)
    case Success(base) => Success(WriteAt(fs, base, unit))
  }

  // ---------------------------------------------------------------------------
  // Distinct base paths never share an artifact file

  lemma SuffixChar(x: string, s1: string, y: string, s2: string, k: nat)
    requires x + s1 == y + s2
    requires 0 < k <= |s1| && k <= |s2|
    ensures s1[|s1| - k] == s2[|s2| - k]
  {
    assert (x + s1)[|x + s1| - k] == s1[|s1| - k];
    assert (y + s2)[|y + s2| - k] == s2[|s2| - k];
  }

  lemma SameSuffixSamePrefix(x: string, y: string, e: string)
    requires x + e == y + e
    ensures x == y
  {
    assert x == (x + e)[..|x|];
    assert y == (y + e)[..|y|];
  }

  /** An artifact path determines its base: `b + e1 == c + e2` only when both the
      base and the extension agree. */
  lemma ArtifactPathsInjective(b: Path, c: Path)
    requires b != c
    ensures forall p :: p in ArtifactPaths(b) ==> p !in ArtifactPaths(c)
  {
    var exts := [BinExt, AbiJsonExt, AbiExt, GasExt];
    forall i, j | 0 <= i < 4 && 0 <= j < 4
      ensures b + exts[i] != c + exts[j]
    {
      if b + exts[i] == c + exts[j] {
        if i == j {
          SameSuffixSamePrefix(b, c, exts[i]);
        } else if (i == 1 && j == 3) || (i == 3 && j == 1) {
          SuffixChar(b, exts[i], c, exts[j], 9);
        } else {
          SuffixChar(b, exts[i], c, exts[j], 3);
        }
      }
    }
    assert ArtifactPaths(b) == [b + exts[0], b + exts[1], b + exts[2], b + exts[3]];
    assert ArtifactPaths(c) == [c + exts[0], c + exts[1], c + exts[2], c + exts[3]];
  }

  // ---------------------------------------------------------------------------
  // Writing every compiled contract

  /** One `[qualifiedName, unit]` entry of `output.contracts`, in key order. */
  datatype Entry = Entry(name: string, unit: CompiledUnit)

  /** The tree after writing, the duplicate warnings printed, and the error that
      stopped the loop, if any (files already written stay). */
  datatype WriteAllResult = WriteAllResult(fs: FileSystem, warnings: seq<string>, failure: Option<ArtifactError>)

  /** `R.forEachObjIndexed(writeFiles, output.contracts)` (bin/compile.ts:150). */
  function WriteAll(fs: FileSystem, outDir: Path, entries: seq<Entry>): WriteAllResult
    decreases |entries|
  {
    if |entries| == 0 then WriteAllResult(fs, [], None)
    else
      match WriteFiles(fs, outDir, entries[0].name, entries[0].unit)
      case Failure(e) => WriteAllResult(fs, [], Some(e))
      case Success(w) =>
        var rest := WriteAll(w.fs, outDir, entries[1..]);
        var warned := if w.warning.Some? then [w.warning.value] else [];
        WriteAllResult(rest.fs, warned + rest.warnings, rest.failure)
  }

  /** The loop stops with an error exactly when some contract name has no `:`. */
  lemma {:induction false} WriteAllFails(fs: FileSystem, outDir: Path, entries: seq<Entry>)
    ensures WriteAll(fs, outDir, entries).failure.Some? <==> !AllNamed(entries)
    decreases |entries|
  {
    if |entries| > 0 {
      AllNamedCons(entries);
      var e := entries[0];
      if ':' in e.name {
        var w := WriteFiles(fs, outDir, e.name, e.unit).value;
        WriteAllFailureStep(fs, outDir, entries);
        WriteAllFails(w.fs, outDir, entries[1..]);
      } else {
        WriteAllFailureHead(fs, outDir, entries);
      }
    }
  }

  lemma WriteAllFailureStep(fs: FileSystem, outDir: Path, entries: seq<Entry>)
    requires |entries| > 0 && ':' in entries[0].name
    ensures var w := WriteFiles(fs, outDir, entries[0].name, entries[0].unit).value;
      WriteAll(fs, outDir, entries).failure == WriteAll(w.fs, outDir, entries[1..]).failure
  {
  }

  lemma WriteAllFailureHead(fs: FileSystem, outDir: Path, entries: seq<Entry>)
    requires |entries| > 0 && ':' !in entries[0].name
    ensures WriteAll(fs, outDir, entries).failure.Some?
  {
  }

  /** A list is all qualified when its head is and its tail is. */
  lemma AllNamedCons(entries: seq<Entry>)
    requires |entries| > 0
    ensures AllNamed(entries) <==> ':' in entries[0].name && AllNamed(entries[1..])
  {
    if ':' in entries[0].name && AllNamed(entries[1..]) {
      forall i | 0 <= i < |entries| ensures ':' in entries[i].name {
        if i > 0 {
          assert entries[1..][i - 1] == entries[i];
        }
      }
    }
    if AllNamed(entries) {
      AllNamedRest(entries);
    }
  }

  /** One step of the loop: write the first entry, then the others into the result. */
  lemma WriteAllStep(fs: FileSystem, outDir: Path, entries: seq<Entry>)
    requires |entries| > 0 && ':' in entries[0].name
    ensures var w := WriteFiles(fs, outDir, entries[0].name, entries[0].unit).value;
      var rest := WriteAll(w.fs, outDir, entries[1..]);
      && WriteAll(fs, outDir, entries).fs == rest.fs
      && WriteAll(fs, outDir, entries).warnings == (if w.warning.Some? then [w.warning.value] else []) + rest.warnings
  {
  }

  /** What writing the first entry did, stated separately for the proofs below. */
  lemma FirstWrite(fs: FileSystem, outDir: Path, e: Entry)
    requires ':' in e.name
    ensures var w := WriteFiles(fs, outDir, e.name, e.unit).value;
      WroteArtifacts(fs, BaseOf(outDir, e), e.unit, w)
  {
    WriteAtWrote(fs, BaseOf(outDir, e), e.unit);
  }

  /** Files other than artifacts (such as the compiler result and messages) are
      neither created, removed nor changed by writing the contracts. */
  lemma {:induction false} WriteAllKeepsOtherFiles(fs: FileSystem, outDir: Path, entries: seq<Entry>)
    ensures var r := WriteAll(fs, outDir, entries);
      && fs.Keys <= r.fs.Keys
      && forall p :: !IsArtifactPath(p) ==> (p in r.fs <==> p in fs) && (p in fs ==> r.fs[p] == fs[p])
    decreases |entries|
  {
    if |entries| > 0 && ':' in entries[0].name {
      WriteAllStep(fs, outDir, entries);
      FirstWrite(fs, outDir, entries[0]);
      var b := BaseOf(outDir, entries[0]);
      var w := WriteFiles(fs, outDir, entries[0].name, entries[0].unit).value;
      ArtifactPathsDistinct(b);
      WriteAllKeepsOtherFiles(w.fs, outDir, entries[1..]);
    }
  }

  predicate AllNamed(entries: seq<Entry>) {
    forall i :: 0 <= i < |entries| ==> ':' in entries[i].name
  }

  function BaseOf(outDir: Path, e: Entry): Path
    requires ':' in e.name
  {
    ArtifactBase(outDir, e.name).value
  }

  /** With distinct base paths and none already present, nothing is reported. */
  lemma {:induction false} DistinctBasesNoWarnings(fs: FileSystem, outDir: Path, entries: seq<Entry>)
    requires AllNamed(entries)
    requires forall i, j :: 0 <= i < j < |entries| ==> BaseOf(outDir, entries[i]) != BaseOf(outDir, entries[j])
    requires forall i :: 0 <= i < |entries| ==> BaseOf(outDir, entries[i]) + AbiExt !in fs
    ensures WriteAll(fs, outDir, entries).warnings == []
    decreases |entries|
  {
    if |entries| > 0 {
      var b := BaseOf(outDir, entries[0]);
      var w := WriteFiles(fs, outDir, entries[0].name, entries[0].unit).value;
      var rest := entries[1..];
      WriteAllStep(fs, outDir, entries);
      assert w.warning.None? && forall p :: p in w.fs <==> p in fs || p in ArtifactPaths(b) by {
        FirstWrite(fs, outDir, entries[0]);
      }
      forall i | 0 <= i < |rest|
        ensures BaseOf(outDir, rest[i]) + AbiExt !in w.fs
      {
        assert rest[i] == entries[i + 1];
        var c := BaseOf(outDir, rest[i]);
        ArtifactPathsInjective(c, b);
        assert c + AbiExt in ArtifactPaths(c);
      }
      AllNamedRest(entries);
      forall i, j | 0 <= i < j < |rest|
        ensures BaseOf(outDir, rest[i]) != BaseOf(outDir, rest[j])
      {
        assert rest[i] == entries[i + 1] && rest[j] == entries[j + 1];
      }
      DistinctBasesNoWarnings(w.fs, outDir, rest);
    }
  }

  lemma AllNamedRest(entries: seq<Entry>)
    requires |entries| > 0 && AllNamed(entries)
    ensures AllNamed(entries[1..])
  {
    forall k | 0 <= k < |entries[1..]| ensures ':' in entries[1..][k].name {
      assert entries[1..][k] == entries[k + 1];
    }
  }

  /** The base paths of a list of qualified entries, in order. */
  function Bases(outDir: Path, entries: seq<Entry>): (bs: seq<Path>)
    requires AllNamed(entries)
    ensures |bs| == |entries|
    ensures forall i :: 0 <= i < |entries| ==> bs[i] == BaseOf(outDir, entries[i])
  {
    seq(|entries|, i requires 0 <= i < |entries| && AllNamed(entries) => BaseOf(outDir, entries[i]))
  }

  function ArtifactSet(base: Path): set<Path> {
    {base + BinExt, base + AbiJsonExt, base + AbiExt, base + GasExt}
  }

  /** The artifact paths the loop writes: the four of each entry's base, up to
      the first entry whose name has no `:`. */
  function WrittenPaths(outDir: Path, entries: seq<Entry>): set<Path>
    decreases |entries|
  {
    if |entries| == 0 || ':' !in entries[0].name then {}
    else ArtifactSet(BaseOf(outDir, entries[0])) + WrittenPaths(outDir, entries[1..])
  }

  /** The files after writing are those before and the artifacts written, no more. */
  lemma {:induction false} WriteAllKeys(fs: FileSystem, outDir: Path, entries: seq<Entry>)
    ensures WriteAll(fs, outDir, entries).fs.Keys == fs.Keys + WrittenPaths(outDir, entries)
    decreases |entries|
  {
    if |entries| > 0 {
      if ':' in entries[0].name {
        var b := BaseOf(outDir, entries[0]);
        var w := WriteFiles(fs, outDir, entries[0].name, entries[0].unit).value;
        WriteAllStep(fs, outDir, entries);
        AfterFirstKeys(fs, outDir, entries[0]);
        WriteAllKeys(w.fs, outDir, entries[1..]);
        UnionAssoc(fs.Keys, ArtifactSet(b), WrittenPaths(outDir, entries[1..]));
      } else {
        WriteAllFailureFs(fs, outDir, entries);
      }
    }
  }

  /** A written path is one of the four artifact files of some qualified entry. */
  lemma {:induction false} WrittenPathOfEntry(outDir: Path, entries: seq<Entry>, p: Path)
    requires p in WrittenPaths(outDir, entries)
    ensures exists i :: 0 <= i < |entries| && ':' in entries[i].name && p in ArtifactSet(BaseOf(outDir, entries[i]))
    decreases |entries|
  {
    if p !in ArtifactSet(BaseOf(outDir, entries[0])) {
      WrittenPathOfEntry(outDir, entries[1..], p);
      var i :| 0 <= i < |entries[1..]| && ':' in entries[1..][i].name && p in ArtifactSet(BaseOf(outDir, entries[1..][i]));
      assert entries[1..][i] == entries[i + 1];
    }
  }

  lemma WriteAllFailureFs(fs: FileSystem, outDir: Path, entries: seq<Entry>)
    requires |entries| > 0 && ':' !in entries[0].name
    ensures WriteAll(fs, outDir, entries).fs == fs
  {
  }

  lemma UnionAssoc<T>(a: set<T>, b: set<T>, c: set<T>)
    ensures (a + b) + c == a + (b + c)
  {
  }

  /** The warnings printed for writing at `bases` in turn into a tree whose files
      are `keys`: one for every base whose `.abi` is already there. */
  function Warnings(keys: set<Path>, bases: seq<Path>): seq<string>
    decreases |bases|
  {
    if |bases| == 0 then []
    else HeadWarning(keys, bases[0]) + Warnings(keys + ArtifactSet(bases[0]), bases[1..])
  }

  /** The warning, if any, for writing at `base` into a tree whose files are `keys`. */
  function HeadWarning(keys: set<Path>, base: Path): seq<string> {
    if base + AbiExt in keys then [DuplicateWarning(base)] else []
  }

  lemma HeadWarned(keys: set<Path>, base: Path)
    requires base + AbiExt in keys
    ensures DuplicateWarning(base) in HeadWarning(keys, base)
  {
  }

  lemma InEither<T>(x: T, a: seq<T>, b: seq<T>)
    requires x in a || x in b
    ensures x in a + b
  {
  }

  lemma InUnion<T>(x: T, a: set<T>, b: set<T>)
    requires x in a
    ensures x in a + b
  {
  }

  lemma TailIndex<T>(s: seq<T>, k: nat)
    requires 0 < k < |s|
    ensures s[1..][k - 1] == s[k]
  {
  }

  /** The warnings of writing all qualified entries are those `Warnings` predicts
      from the files present at the start. */
  lemma {:induction false} WriteAllWarnings(fs: FileSystem, outDir: Path, entries: seq<Entry>)
    requires AllNamed(entries)
    ensures WriteAll(fs, outDir, entries).warnings == Warnings(fs.Keys, Bases(outDir, entries))
    decreases |entries|
  {
    if |entries| > 0 {
      var b := BaseOf(outDir, entries[0]);
      var w := WriteFiles(fs, outDir, entries[0].name, entries[0].unit).value;
      WriteAllStep(fs, outDir, entries);
      FirstWrite(fs, outDir, entries[0]);
      AfterFirstKeys(fs, outDir, entries[0]);
      AllNamedRest(entries);
      BasesRest(outDir, entries);
      WriteAllWarnings(w.fs, outDir, entries[1..]);
    }
  }

  lemma AfterFirstKeys(fs: FileSystem, outDir: Path, e: Entry)
    requires ':' in e.name
    ensures WriteFiles(fs, outDir, e.name, e.unit).value.fs.Keys == fs.Keys + ArtifactSet(BaseOf(outDir, e))
  {
    FirstWrite(fs, outDir, e);
  }

  lemma BasesRest(outDir: Path, entries: seq<Entry>)
    requires |entries| > 0 && AllNamed(entries) && AllNamed(entries[1..])
    ensures Bases(outDir, entries)[1..] == Bases(outDir, entries[1..])
    ensures Bases(outDir, entries)[0] == BaseOf(outDir, entries[0])
  {
    var bs := Bases(outDir, entries);
    var rs := Bases(outDir, entries[1..]);
    forall k | 0 <= k < |rs| ensures bs[1..][k] == rs[k] {
      assert entries[1..][k] == entries[k + 1];
    }
  }

  /** A warning of the first write or of the later ones is a warning of the whole. */
  lemma WarnedIn(keys: set<Path>, bases: seq<Path>, x: string)
    requires |bases| > 0
    requires x in HeadWarning(keys, bases[0]) || x in Warnings(keys + ArtifactSet(bases[0]), bases[1..])
    ensures x in Warnings(keys, bases)
  {
    var head, later := HeadWarning(keys, bases[0]), Warnings(keys + ArtifactSet(bases[0]), bases[1..]);
    assert Warnings(keys, bases) == head + later;
    InEither(x, head, later);
  }

  /** A base whose `.abi` is present when its turn comes is reported. */
  lemma {:induction false} PresentWarned(keys: set<Path>, bases: seq<Path>, j: nat, b: Path)
    requires j < |bases| && bases[j] == b && b + AbiExt in keys
    ensures DuplicateWarning(b) in Warnings(keys, bases)
    decreases |bases|
  {
    if j > 0 {
      TailIndex(bases, j);
      InUnion(b + AbiExt, keys, ArtifactSet(bases[0]));
      PresentWarned(keys + ArtifactSet(bases[0]), bases[1..], j - 1, b);
    } else {
      assert bases[0] == b;
      HeadWarned(keys, bases[0]);
    }
    WarnedIn(keys, bases, DuplicateWarning(b));
  }

  /** A base repeated later in the list is reported at its repeat. */
  lemma {:induction false} RepeatedWarned(keys: set<Path>, bases: seq<Path>, i: nat, j: nat, b: Path)
    requires i < j < |bases| && bases[i] == b && bases[j] == b
    ensures DuplicateWarning(b) in Warnings(keys, bases)
    decreases |bases|
  {
    var keys' := keys + ArtifactSet(bases[0]);
    TailIndex(bases, j);
    if i == 0 {
      assert b + AbiExt in ArtifactSet(b);
      PresentWarned(keys', bases[1..], j - 1, b);
    } else {
      TailIndex(bases, i);
      RepeatedWarned(keys', bases[1..], i - 1, j - 1, b);
    }
    WarnedIn(keys, bases, DuplicateWarning(b));
  }

  /** An entry whose `.abi` file is already present is reported. */
  lemma PresentBaseWarned(fs: FileSystem, outDir: Path, entries: seq<Entry>, j: nat)
    requires AllNamed(entries)
    requires j < |entries|
    requires BaseOf(outDir, entries[j]) + AbiExt in fs
    ensures DuplicateWarning(BaseOf(outDir, entries[j])) in WriteAll(fs, outDir, entries).warnings
  {
    WriteAllWarnings(fs, outDir, entries);
    PresentWarned(fs.Keys, Bases(outDir, entries), j, BaseOf(outDir, entries[j]));
  }

  /** A later entry with the same base path as an earlier one is reported. */
  lemma RepeatedBaseWarned(fs: FileSystem, outDir: Path, entries: seq<Entry>, i: nat, j: nat)
    requires AllNamed(entries)
    requires i < j < |entries|
    requires BaseOf(outDir, entries[i]) == BaseOf(outDir, entries[j])
    ensures DuplicateWarning(BaseOf(outDir, entries[j])) in WriteAll(fs, outDir, entries).warnings
  {
    WriteAllWarnings(fs, outDir, entries);
    RepeatedWarned(fs.Keys, Bases(outDir, entries), i, j, BaseOf(outDir, entries[j]));
  }

  /** The files at a base path hold the last entry written there: later writes
      overwrite, other entries leave them alone. */
  lemma {:induction false} LastWriteWins(fs: FileSystem, outDir: Path, entries: seq<Entry>, i: nat)
    requires AllNamed(entries)
    requires i < |entries|
    requires forall j :: i < j < |entries| ==> BaseOf(outDir, entries[j]) != BaseOf(outDir, entries[i])
    ensures var r := WriteAll(fs, outDir, entries);
      var b := BaseOf(outDir, entries[i]);
      var u := entries[i].unit;
      && b + BinExt in r.fs && b + AbiJsonExt in r.fs && b + AbiExt in r.fs && b + GasExt in r.fs
      && r.fs[b + BinExt] == Raw(u.bytecode)
      && r.fs[b + AbiJsonExt] == PrettyJson(u.abi)
      && r.fs[b + AbiExt] == Raw(u.abi)
      && r.fs[b + GasExt] == PrettyJson(u.gasEstimates)
    decreases |entries|
  {
    var w := WriteFiles(fs, outDir, entries[0].name, entries[0].unit).value;
    var rest := entries[1..];
    WriteAllStep(fs, outDir, entries);
    AllNamedRest(entries);
    if i == 0 {
      var b := BaseOf(outDir, entries[0]);
      var u := entries[0].unit;
      assert && w.fs[b + BinExt] == Raw(u.bytecode)
             && w.fs[b + AbiJsonExt] == PrettyJson(u.abi)
             && w.fs[b + AbiExt] == Raw(u.abi)
             && w.fs[b + GasExt] == PrettyJson(u.gasEstimates)
             && b + BinExt in w.fs && b + AbiJsonExt in w.fs && b + AbiExt in w.fs && b + GasExt in w.fs by {
        FirstWrite(fs, outDir, entries[0]);
      }
      forall k | 0 <= k < |rest|
        ensures BaseOf(outDir, rest[k]) != b
      {
        assert rest[k] == entries[k + 1];
      }
      UntouchedBase(w.fs, outDir, rest, b);
    } else {
      forall k | i - 1 < k < |rest|
        ensures BaseOf(outDir, rest[k]) != BaseOf(outDir, rest[i - 1])
      {
        assert rest[k] == entries[k + 1];
      }
      assert rest[i - 1] == entries[i];
      LastWriteWins(w.fs, outDir, rest, i - 1);
    }
  }

  /** Entries at other base paths do not touch the files of base `b`. */
  lemma {:induction false} UntouchedBase(fs: FileSystem, outDir: Path, entries: seq<Entry>, b: Path)
    requires AllNamed(entries)
    requires forall k :: 0 <= k < |entries| ==> BaseOf(outDir, entries[k]) != b
    ensures forall p :: p in ArtifactPaths(b) && p in fs ==>
      p in WriteAll(fs, outDir, entries).fs && WriteAll(fs, outDir, entries).fs[p] == fs[p]
    decreases |entries|
  {
    if |entries| > 0 {
      var c := BaseOf(outDir, entries[0]);
      var w := WriteFiles(fs, outDir, entries[0].name, entries[0].unit).value;
      var rest := entries[1..];
      WriteAllStep(fs, outDir, entries);
      ArtifactPathsInjective(b, c);
      assert forall p :: p in ArtifactPaths(b) && p in fs ==> p in w.fs && w.fs[p] == fs[p] by {
        FirstWrite(fs, outDir, entries[0]);
      }
      forall k | 0 <= k < |rest|
        ensures BaseOf(outDir, rest[k]) != b
      {
        assert rest[k] == entries[k + 1];
      }
      AllNamedRest(entries);
      UntouchedBase(w.fs, outDir, rest, b);
    }
  }
}
