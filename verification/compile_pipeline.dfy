/** `compileGlob` of bin/compile.ts: collect the sources, run the compiler, sort
    its diagnostics, refresh the output directory, write the compiler result and
    messages and every contract's artifacts, and pick the exit code.

    The Solidity compiler is a parameter (a function from the merged sources to
    its output), and so is the list of files the glob matched. */
module CompilePipeline {
  import opened Wrappers
  import opened Strings
  import opened Paths
  import opened Diagnostics
  import opened ImportResolver
  import opened SourceCollector
  import opened Artifacts

  /** The two directories the script works with (bin/compile.ts:10-11). */
  datatype Config = Config(sourceDir: Path, outDir: Path)

  /** `path.join(soliditySourceDirectory, '**', '*.sol')`, the default query. */
  function DefaultQuery(cfg: Config): string {
    Join(Join(cfg.sourceDir, "**"), "*.sol")
  }

  /** What the compiler hands back: its diagnostics (`output.errors`), the compiled
      contracts in key order, and the whole output as a JSON value. */
  datatype CompilerOutput = CompilerOutput(errors: seq<string>, contracts: seq<Entry>, json: string)

  /** What the compiler does with the merged sources: the imports it cannot find
      among them, asked of `findImports` in this order (bin/compile.ts:116), and
      its output once every one of them is answered. */
  datatype CompilerRun = CompilerRun(imports: seq<string>, output: CompilerOutput)

  /** Why the run stopped with an exception: `findImports` threw inside the
      compiler, the output directory was missing when `compilerResult.json` was
      written (ENOENT), or writing a contract's artifacts threw. */
  datatype RunError =
    | ImportFailed(importError: ImportError)
    | OutputMissing(missingPath: Path)
    | WriteFailed(writeError: ArtifactError)

  /** How the run ends: `process.exit(code)`, or an uncaught exception. */
  datatype Exit = Exited(code: int) | Threw(error: RunError)

  /** The output tree afterwards, what went to standard error, write by write,
      and how the run ended. */
  datatype Outcome = Outcome(fs: FileSystem, stderr: seq<string>, exit: Exit)

  const ResultName: string := "compilerResult.json"
  const MessagesName: string := "compilerMessages.txt"
  const MessageSeparator: string := "\n\n"

  function ResultFile(cfg: Config): Path {
    Join(cfg.outDir, ResultName)
  }

  function MessagesFile(cfg: Config): Path {
    Join(cfg.outDir, MessagesName)
  }

  /** `p` is the directory `dir` itself or lies beneath it. */
  predicate UnderDir(p: Path, dir: Path) {
    p == dir || StartsWith(p, dir + [Sep])
  }

  /** `rimraf.sync(dir)` followed by `mkdirp.sync(dir)` (bin/compile.ts:133-135):
      everything beneath `dir` is gone, everything else stays. */
  function Reset(fs: FileSystem, dir: Path): (r: FileSystem)
    ensures forall p :: p in r <==> p in fs && !UnderDir(p, dir)
    ensures forall p :: p in r ==> r[p] == fs[p]
  {
    map p | p in fs.Keys && !UnderDir(p, dir) :: fs[p]
  }

  /** What `console.warn` writes for each duplicate warning: the text and a newline. */
  function WarnLines(ws: seq<string>): (r: seq<string>)
    ensures |r| == |ws|
    ensures forall i :: 0 <= i < |ws| ==> r[i] == ws[i] + "\n"
  {
    seq(|ws|, i requires 0 <= i < |ws| => ws[i] + "\n")
  }

  // ---------------------------------------------------------------------------
  // Import resolution during compilation

  /** Every import the compiler asks for is answered by `findImports`. */
  predicate ImportsResolve(tree: seq<SourceFile>, imports: seq<string>) {
    forall i :: 0 <= i < |imports| ==> FindImports(tree, imports[i]).Success?
  }

  /** The error `findImports` throws on the first import it cannot answer. */
  function FirstImportFailure(tree: seq<SourceFile>, imports: seq<string>): Option<ImportError>
    decreases |imports|
  {
    if |imports| == 0 then None
    else match FindImports(tree, imports[0])
      case Failure(e) => Some(e)
      case Success(_) => FirstImportFailure(tree, imports[1..])
  }

  /** There is a failure exactly when some import does not resolve. */
  lemma {:induction false} FirstImportFailureIffUnresolved(tree: seq<SourceFile>, imports: seq<string>)
    ensures FirstImportFailure(tree, imports).None? <==> ImportsResolve(tree, imports)
    decreases |imports|
  {
    if |imports| > 0 {
      FirstImportFailureIffUnresolved(tree, imports[1..]);
      ImportsResolveCons(tree, imports);
    }
  }

  /** The failure is that of an import all of whose predecessors resolve. */
  lemma {:induction false} FirstImportFailureIsFirst(tree: seq<SourceFile>, imports: seq<string>)
    requires FirstImportFailure(tree, imports).Some?
    ensures exists i ::
      && 0 <= i < |imports| && ImportsResolve(tree, imports[..i])
      && FindImports(tree, imports[i]) == Failure(FirstImportFailure(tree, imports).value)
    decreases |imports|
  {
    var e := FirstImportFailure(tree, imports).value;
    if FindImports(tree, imports[0]).Failure? {
      assert ImportsResolve(tree, imports[..0]);
    } else {
      FirstImportFailureIsFirst(tree, imports[1..]);
      var i :| 0 <= i < |imports[1..]| && ImportsResolve(tree, imports[1..][..i])
        && FindImports(tree, imports[1..][i]) == Failure(e);
      FailureShifts(tree, imports, i, e);
    }
  }

  lemma FailureShifts(tree: seq<SourceFile>, imports: seq<string>, i: nat, e: ImportError)
    requires i + 1 < |imports| && FindImports(tree, imports[0]).Success?
    requires ImportsResolve(tree, imports[1..][..i]) && FindImports(tree, imports[1..][i]) == Failure(e)
    ensures ImportsResolve(tree, imports[..i + 1]) && FindImports(tree, imports[i + 1]) == Failure(e)
  {
    PrefixResolves(tree, imports, i + 1);
    assert imports[1..][i] == imports[i + 1];
  }

  lemma ImportsResolveCons(tree: seq<SourceFile>, imports: seq<string>)
    requires |imports| > 0
    ensures ImportsResolve(tree, imports) <==>
      FindImports(tree, imports[0]).Success? && ImportsResolve(tree, imports[1..])
  {
    if FindImports(tree, imports[0]).Success? && ImportsResolve(tree, imports[1..]) {
      forall i | 0 <= i < |imports| ensures FindImports(tree, imports[i]).Success? {
        if i > 0 {
          assert imports[1..][i - 1] == imports[i];
        }
      }
    }
    if ImportsResolve(tree, imports) {
      forall i | 0 <= i < |imports[1..]| ensures FindImports(tree, imports[1..][i]).Success? {
        assert imports[1..][i] == imports[i + 1];
      }
    }
  }

  lemma PrefixResolves(tree: seq<SourceFile>, imports: seq<string>, k: nat)
    requires 0 < k <= |imports|
    requires FindImports(tree, imports[0]).Success? && ImportsResolve(tree, imports[1..][..k - 1])
    ensures ImportsResolve(tree, imports[..k])
  {
    forall i | 0 <= i < k ensures FindImports(tree, imports[..k][i]).Success? {
      if i > 0 {
        assert imports[..k][i] == imports[1..][..k - 1][i - 1];
      }
    }
  }

  // ---------------------------------------------------------------------------
  // The run

  /** The output directory exists when bin/compile.ts:138 writes into it: the
      default query has just made it (bin/compile.ts:132-136), or it was there
      before. `outDirMade` says it was there as a directory, possibly empty,
      which the file map cannot show; a file beneath it shows it too. */
  predicate OutputReady(fs: FileSystem, outDirMade: bool, cfg: Config, query: Option<string>) {
    || query.GetOr(DefaultQuery(cfg)) == DefaultQuery(cfg)
    || outDirMade
    || exists p :: p in fs && StartsWith(p, cfg.outDir + [Sep])
  }

  /** bin/compile.ts:119-165 once the compiler has produced its output: sort and
      echo the diagnostics, prepare the output directory, write the contracts and
      pick the exit code. Without an output directory the first write throws, after
      the diagnostics were echoed and before any file is written. */
  function AfterCompile(fs: FileSystem, outDirMade: bool, cfg: Config, query: Option<string>, output: CompilerOutput): (o: Outcome)
    ensures |o.stderr| >= |output.errors|
    ensures o.stderr[..|output.errors|] == output.errors
    ensures !OutputReady(fs, outDirMade, cfg, query) ==>
      o.fs == fs && o.stderr == output.errors && o.exit == Threw(OutputMissing(ResultFile(cfg)))
    ensures OutputReady(fs, outDirMade, cfg, query) ==>
      && (o.exit.Threw? <==> !AllNamed(output.contracts))
      && (o.exit.Threw? ==> o.exit.error.WriteFailed?)
    ensures o.exit.Exited? ==> o.exit.code == ExitCode(Select(output.errors, false))
  {
    if OutputReady(fs, outDirMade, cfg, query) then WriteOutputs(fs, cfg, query, output)
    else
      assert output.errors[..|output.errors|] == output.errors;
      Outcome(fs, output.errors, Threw(OutputMissing(ResultFile(cfg))))
  }

  /** bin/compile.ts:119-165 with the output directory in place: the diagnostics
      are echoed first, the run throws exactly when a contract name is unqualified,
      and otherwise the exit code follows the errors. */
  function WriteOutputs(fs: FileSystem, cfg: Config, query: Option<string>, output: CompilerOutput): (o: Outcome)
    ensures |o.stderr| >= |output.errors|
    ensures o.stderr[..|output.errors|] == output.errors
    ensures o.exit.Threw? <==> !AllNamed(output.contracts)
    ensures o.exit.Threw? ==> o.exit.error.WriteFailed?
    ensures o.exit.Exited? ==> o.exit.code == ExitCode(Select(output.errors, false))
  {
    var messages := output.errors;
    var errors := Select(messages, false);
    var r := WriteAll(BeforeContracts(fs, cfg, query, output), cfg.outDir, output.contracts);
    WriteAllFails(BeforeContracts(fs, cfg, query, output), cfg.outDir, output.contracts);
    var stderr := messages + WarnLines(r.warnings);
    assert stderr[..|messages|] == messages;
    if r.failure.Some? then Outcome(r.fs, stderr, Threw(WriteFailed(r.failure.value)))
    else if |errors| > 0 then Outcome(r.fs, stderr + [JoinWith(MessageSeparator, errors)], Exited(1))
    else Outcome(r.fs, stderr, Exited(0))
  }

  /** bin/compile.ts:101-166, without the download of the external contracts.
      `matched` is what the query's glob matched; `tree` is the whole contract
      source tree that `findImports` searches. */
  function CompileGlob(fs: FileSystem, outDirMade: bool, cfg: Config, query: Option<string>, matched: seq<SourceFile>,
                       tree: seq<SourceFile>, compiler: map<string, string> -> CompilerRun): (o: Outcome)
    ensures var run := compiler(MergeSources(matched));
      var output := run.output;
      && (!ImportsResolve(tree, run.imports) ==>
            o.fs == fs && o.stderr == [] && o.exit.Threw? && o.exit.error.ImportFailed?)
      && (ImportsResolve(tree, run.imports) ==>
            && |o.stderr| >= |output.errors|
            && o.stderr[..|output.errors|] == output.errors
            && (!OutputReady(fs, outDirMade, cfg, query) ==>
                  o.fs == fs && o.exit == Threw(OutputMissing(ResultFile(cfg))))
            && (OutputReady(fs, outDirMade, cfg, query) ==>
                  && (o.exit.Threw? <==> !AllNamed(output.contracts))
                  && (o.exit.Threw? ==> o.exit.error.WriteFailed?)))
      && (o.exit.Exited? ==> o.exit.code == ExitCode(Select(output.errors, false)))
  {
    var run := compiler(MergeSources(matched));
    FirstImportFailureIffUnresolved(tree, run.imports);
    match FirstImportFailure(tree, run.imports)
    case Some(e) => Outcome(fs, [], Threw(ImportFailed(e)))
    case None => AfterCompile(fs, outDirMade, cfg, query, run.output)
  }

  /** The tree just before the contracts are written, as `CompileGlob` builds it. */
  function BeforeContracts(fs: FileSystem, cfg: Config, query: Option<string>, output: CompilerOutput): FileSystem {
    var q := query.GetOr(DefaultQuery(cfg));
    var fs1 := if q == DefaultQuery(cfg) then Reset(fs, cfg.outDir) else fs;
    var fs2 := fs1[ResultFile(cfg) := PrettyJson(output.json)];
    if |output.errors| > 0 then fs2[MessagesFile(cfg) := Raw(JoinWith(MessageSeparator, output.errors))] else fs2
  }

  /** Preparing the output keeps a file other than the two it writes unless the
      reset removes it. */
  lemma BeforeContractsKeeps(fs: FileSystem, cfg: Config, query: Option<string>, output: CompilerOutput, p: Path)
    requires p in fs && p != ResultFile(cfg) && p != MessagesFile(cfg)
    requires !UnderDir(p, cfg.outDir) || query.GetOr(DefaultQuery(cfg)) != DefaultQuery(cfg)
    ensures var before := BeforeContracts(fs, cfg, query, output);
      p in before && before[p] == fs[p]
  {
  }

  /** Once the imports resolve, the run is `AfterCompile` on the compiler output. */
  lemma ResolvedRun(fs: FileSystem, outDirMade: bool, cfg: Config, query: Option<string>, matched: seq<SourceFile>,
                    tree: seq<SourceFile>, compiler: map<string, string> -> CompilerRun)
    requires ImportsResolve(tree, compiler(MergeSources(matched)).imports)
    ensures CompileGlob(fs, outDirMade, cfg, query, matched, tree, compiler)
         == AfterCompile(fs, outDirMade, cfg, query, compiler(MergeSources(matched)).output)
  {
    FirstImportFailureIffUnresolved(tree, compiler(MergeSources(matched)).imports);
  }

  lemma AfterCompileTree(fs: FileSystem, outDirMade: bool, cfg: Config, query: Option<string>, output: CompilerOutput)
    ensures AfterCompile(fs, outDirMade, cfg, query, output).fs
         == if OutputReady(fs, outDirMade, cfg, query)
            then WriteAll(BeforeContracts(fs, cfg, query, output), cfg.outDir, output.contracts).fs
            else fs
  {
  }

  /** The outcome's tree is the contracts written over `BeforeContracts`, or the
      tree as it was when an import fails or the output directory is missing. */
  lemma OutcomeTree(fs: FileSystem, outDirMade: bool, cfg: Config, query: Option<string>, matched: seq<SourceFile>,
                    tree: seq<SourceFile>, compiler: map<string, string> -> CompilerRun)
    ensures var run := compiler(MergeSources(matched));
      CompileGlob(fs, outDirMade, cfg, query, matched, tree, compiler).fs
        == if ImportsResolve(tree, run.imports) && OutputReady(fs, outDirMade, cfg, query)
           then WriteAll(BeforeContracts(fs, cfg, query, run.output), cfg.outDir, run.output.contracts).fs
           else fs
  {
    var run := compiler(MergeSources(matched));
    if ImportsResolve(tree, run.imports) {
      ResolvedRun(fs, outDirMade, cfg, query, matched, tree, compiler);
      AfterCompileTree(fs, outDirMade, cfg, query, run.output);
    }
  }

  // ---------------------------------------------------------------------------
  // The result and messages files are never artifact paths

  lemma EndsWithTail(x: string, s: string, e: string)
    requires EndsWith(x + s, e) && |e| <= |s|
    ensures EndsWith(s, e)
  {
    assert (x + s)[|x + s| - |e|..] == s[|s| - |e|..];
  }

  /** A file named `name` in some directory ends with whatever `name` ends with. */
  lemma JoinEndsWith(dir: Path, name: string, e: string)
    requires name != "" && |e| <= |name|
    ensures EndsWith(Join(dir, name), e) ==> EndsWith(name, e)
  {
    if dir != "" && EndsWith(Join(dir, name), e) {
      assert Join(dir, name) == (dir + [Sep]) + name;
      EndsWithTail(dir + [Sep], name, e);
    }
  }

  lemma NotArtifactName(dir: Path, name: string)
    requires name == ResultName || name == MessagesName
    ensures !IsArtifactPath(Join(dir, name))
  {
    assert !IsArtifactPath(name);
    JoinEndsWith(dir, name, BinExt);
    JoinEndsWith(dir, name, AbiJsonExt);
    JoinEndsWith(dir, name, AbiExt);
    JoinEndsWith(dir, name, GasExt);
  }

  // ---------------------------------------------------------------------------
  // Properties of a run

  predicate AllWarnings(ms: seq<string>) {
    forall i :: 0 <= i < |ms| ==> IsWarning(ms[i])
  }

  /** The run exits with 0 exactly when every import resolves, the output directory
      can be written, every contract name is qualified and every diagnostic is a
      warning; an exit code is 0 or 1. */
  lemma ExitsCleanlyIffOnlyWarnings(fs: FileSystem, outDirMade: bool, cfg: Config, query: Option<string>, matched: seq<SourceFile>,
                                    tree: seq<SourceFile>, compiler: map<string, string> -> CompilerRun)
    ensures var run := compiler(MergeSources(matched));
      var o := CompileGlob(fs, outDirMade, cfg, query, matched, tree, compiler);
      && (o.exit == Exited(0) <==>
            && ImportsResolve(tree, run.imports) && OutputReady(fs, outDirMade, cfg, query)
            && AllNamed(run.output.contracts) && AllWarnings(run.output.errors))
      && (o.exit.Exited? ==> o.exit.code == 0 || o.exit.code == 1)
  {
    var run := compiler(MergeSources(matched));
    ExitZeroIffAllWarnings(run.output.errors);
  }

  /** An import that fails stops the run with the error of the first import that
      does not resolve; nothing is echoed and no file is touched. */
  lemma ImportFailureAborts(fs: FileSystem, outDirMade: bool, cfg: Config, query: Option<string>, matched: seq<SourceFile>,
                            tree: seq<SourceFile>, compiler: map<string, string> -> CompilerRun)
    ensures var imports := compiler(MergeSources(matched)).imports;
      var o := CompileGlob(fs, outDirMade, cfg, query, matched, tree, compiler);
      !ImportsResolve(tree, imports) ==>
        && o.fs == fs && o.stderr == []
        && o.exit.Threw? && o.exit.error.ImportFailed?
        && exists i :: 0 <= i < |imports| && ImportsResolve(tree, imports[..i])
             && FindImports(tree, imports[i]) == Failure(o.exit.error.importError)
  {
    var imports := compiler(MergeSources(matched)).imports;
    FirstImportFailureIffUnresolved(tree, imports);
    if !ImportsResolve(tree, imports) {
      FirstImportFailureIsFirst(tree, imports);
    }
  }

  /** With another query and no output directory, the write of `compilerResult.json`
      throws: the diagnostics have been echoed and no file is touched. */
  lemma MissingOutputDirThrows(fs: FileSystem, outDirMade: bool, cfg: Config, query: Option<string>,
                               matched: seq<SourceFile>, tree: seq<SourceFile>,
                               compiler: map<string, string> -> CompilerRun)
    ensures var run := compiler(MergeSources(matched));
      var o := CompileGlob(fs, outDirMade, cfg, query, matched, tree, compiler);
      ImportsResolve(tree, run.imports) && !OutputReady(fs, outDirMade, cfg, query) ==>
        o.fs == fs && o.stderr == run.output.errors && o.exit == Threw(OutputMissing(ResultFile(cfg)))
  {
    var run := compiler(MergeSources(matched));
    if ImportsResolve(tree, run.imports) {
      ResolvedRun(fs, outDirMade, cfg, query, matched, tree, compiler);
    }
  }

  /** A query for one subdirectory into an empty tree with no `out` directory:
      the compiler reports nothing, and the run still throws at the result write. */
  lemma MissingOutputDirExample()
    ensures var cfg := Config("src", "out");
      var o := CompileGlob(map[], false, cfg, Some("src/a/*.sol"), [], [],
                           _ => CompilerRun([], CompilerOutput([], [], "{}")));
      o.fs == map[] && o.stderr == [] && o.exit == Threw(OutputMissing(ResultFile(cfg)))
  {
    var cfg := Config("src", "out");
    var compiler: map<string, string> -> CompilerRun := _ => CompilerRun([], CompilerOutput([], [], "{}"));
    assert DefaultQuery(cfg) == "src/**/*.sol";
    assert !OutputReady(map[], false, cfg, Some("src/a/*.sol"));
    MissingOutputDirThrows(map[], false, cfg, Some("src/a/*.sol"), [], [], compiler);
  }

  /** With errors, the last thing written to standard error is all of them,
      separated by blank lines. */
  lemma ErrorsRepeatedLast(fs: FileSystem, outDirMade: bool, cfg: Config, query: Option<string>, matched: seq<SourceFile>,
                           tree: seq<SourceFile>, compiler: map<string, string> -> CompilerRun)
    ensures var output := compiler(MergeSources(matched)).output;
      var o := CompileGlob(fs, outDirMade, cfg, query, matched, tree, compiler);
      var errors := Select(output.errors, false);
      o.exit == Exited(1) ==> |o.stderr| > 0 && o.stderr[|o.stderr| - 1] == JoinWith(MessageSeparator, errors)
  {
    var run := compiler(MergeSources(matched));
    if ImportsResolve(tree, run.imports) {
      ResolvedRun(fs, outDirMade, cfg, query, matched, tree, compiler);
      AfterCompileErrorsLast(fs, outDirMade, cfg, query, run.output);
    }
  }

  lemma AfterCompileErrorsLast(fs: FileSystem, outDirMade: bool, cfg: Config, query: Option<string>, output: CompilerOutput)
    ensures var o := AfterCompile(fs, outDirMade, cfg, query, output);
      o.exit == Exited(1) ==>
        |o.stderr| > 0 && o.stderr[|o.stderr| - 1] == JoinWith(MessageSeparator, Select(output.errors, false))
  {
  }

  /** Once the imports resolve and the output directory is there, `compilerResult.json`
      holds the compiler output, even when writing a contract throws afterwards. */
  lemma ResultAlwaysWritten(fs: FileSystem, outDirMade: bool, cfg: Config, query: Option<string>, matched: seq<SourceFile>,
                            tree: seq<SourceFile>, compiler: map<string, string> -> CompilerRun)
    ensures var run := compiler(MergeSources(matched));
      var o := CompileGlob(fs, outDirMade, cfg, query, matched, tree, compiler);
      ImportsResolve(tree, run.imports) && OutputReady(fs, outDirMade, cfg, query) ==>
        ResultFile(cfg) in o.fs && o.fs[ResultFile(cfg)] == PrettyJson(run.output.json)
  {
    var run := compiler(MergeSources(matched));
    if ImportsResolve(tree, run.imports) && OutputReady(fs, outDirMade, cfg, query) {
      ResolvedRun(fs, outDirMade, cfg, query, matched, tree, compiler);
      AfterCompileTree(fs, outDirMade, cfg, query, run.output);
      var before := BeforeContracts(fs, cfg, query, run.output);
      assert ResultFile(cfg) != MessagesFile(cfg) by {
        JoinNamesDiffer(cfg.outDir, ResultName, MessagesName);
      }
      assert before[ResultFile(cfg)] == PrettyJson(run.output.json);
      NotArtifactName(cfg.outDir, ResultName);
      KeptThroughWrite(before, cfg.outDir, run.output.contracts, ResultFile(cfg));
    }
  }

  /** A file that is not an artifact path comes through the contract writes. */
  lemma KeptThroughWrite(fs: FileSystem, outDir: Path, entries: seq<Entry>, p: Path)
    requires p in fs && !IsArtifactPath(p)
    ensures p in WriteAll(fs, outDir, entries).fs && WriteAll(fs, outDir, entries).fs[p] == fs[p]
  {
    WriteAllKeepsOtherFiles(fs, outDir, entries);
  }

  /** Once the imports resolve and the output directory is there,
      `compilerMessages.txt` holds the diagnostics joined
      by blank lines when there are any; without diagnostics a fresh run leaves no
      such file and a run on another query leaves the old one alone. */
  lemma MessagesWrittenIffAny(fs: FileSystem, outDirMade: bool, cfg: Config, query: Option<string>, matched: seq<SourceFile>,
                              tree: seq<SourceFile>, compiler: map<string, string> -> CompilerRun)
    ensures var run := compiler(MergeSources(matched));
      var output := run.output;
      var o := CompileGlob(fs, outDirMade, cfg, query, matched, tree, compiler);
      var reset := query.GetOr(DefaultQuery(cfg)) == DefaultQuery(cfg);
      var m := MessagesFile(cfg);
      ImportsResolve(tree, run.imports) && OutputReady(fs, outDirMade, cfg, query) ==>
        && (|output.errors| > 0 ==> m in o.fs && o.fs[m] == Raw(JoinWith(MessageSeparator, output.errors)))
        && (|output.errors| == 0 && reset && UnderDir(m, cfg.outDir) ==> m !in o.fs)
        && (|output.errors| == 0 && !reset ==> (m in o.fs <==> m in fs) && (m in fs ==> o.fs[m] == fs[m]))
  {
    var output := compiler(MergeSources(matched)).output;
    var before := BeforeContracts(fs, cfg, query, output);
    OutcomeTree(fs, outDirMade, cfg, query, matched, tree, compiler);
    NotArtifactName(cfg.outDir, MessagesName);
    JoinNamesDiffer(cfg.outDir, ResultName, MessagesName);
    WriteAllKeepsOtherFiles(before, cfg.outDir, output.contracts);
  }

  lemma JoinNamesDiffer(dir: Path, a: string, b: string)
    requires a != b && a != "" && b != ""
    ensures Join(dir, a) != Join(dir, b)
  {
    if dir != "" && Join(dir, a) == Join(dir, b) {
      assert (dir + [Sep]) + a == (dir + [Sep]) + b;
      SameSuffixless(dir + [Sep], a, b);
    }
  }

  lemma SameSuffixless(x: string, a: string, b: string)
    requires x + a == x + b
    ensures a == b
  {
    assert a == (x + a)[|x|..];
    assert b == (x + b)[|x|..];
  }

  /** On the default query the output directory is rebuilt from scratch: once the
      imports resolve, every file left beneath it is the result, the messages, or
      an artifact this run wrote. No stale artifact of an earlier run survives. */
  lemma FreshRunClearsOutput(fs: FileSystem, outDirMade: bool, cfg: Config, matched: seq<SourceFile>, tree: seq<SourceFile>,
                             compiler: map<string, string> -> CompilerRun, p: Path)
    requires p in CompileGlob(fs, outDirMade, cfg, None, matched, tree, compiler).fs && UnderDir(p, cfg.outDir)
    ensures var run := compiler(MergeSources(matched));
      ImportsResolve(tree, run.imports) ==>
        p == ResultFile(cfg) || p == MessagesFile(cfg) || p in WrittenPaths(cfg.outDir, run.output.contracts)
  {
    var run := compiler(MergeSources(matched));
    if ImportsResolve(tree, run.imports) {
      var before := BeforeContracts(fs, cfg, None, run.output);
      ResolvedRun(fs, outDirMade, cfg, None, matched, tree, compiler);
      AfterCompileTree(fs, outDirMade, cfg, None, run.output);
      WriteAllKeys(before, cfg.outDir, run.output.contracts);
      if p in before {
        FreshBeforeUnder(fs, cfg, run.output, p);
      }
    }
  }

  /** After the reset, the output directory holds only the two files the run writes. */
  lemma FreshBeforeUnder(fs: FileSystem, cfg: Config, output: CompilerOutput, p: Path)
    requires p in BeforeContracts(fs, cfg, None, output) && UnderDir(p, cfg.outDir)
    ensures p == ResultFile(cfg) || p == MessagesFile(cfg)
  {
  }

  /** Any other query deletes no file. */
  lemma OtherQueryDeletesNothing(fs: FileSystem, outDirMade: bool, cfg: Config, query: string, matched: seq<SourceFile>,
                                 tree: seq<SourceFile>, compiler: map<string, string> -> CompilerRun)
    requires query != DefaultQuery(cfg)
    ensures fs.Keys <= CompileGlob(fs, outDirMade, cfg, Some(query), matched, tree, compiler).fs.Keys
  {
    var output := compiler(MergeSources(matched)).output;
    var before := BeforeContracts(fs, cfg, Some(query), output);
    OutcomeTree(fs, outDirMade, cfg, Some(query), matched, tree, compiler);
    assert fs.Keys <= before.Keys;
    WriteAllKeys(before, cfg.outDir, output.contracts);
  }

  /** Any other query keeps the contents of every existing file that is neither an
      artifact nor one of the two files the run writes. */
  lemma OtherQueryKeepsFiles(fs: FileSystem, outDirMade: bool, cfg: Config, query: string, matched: seq<SourceFile>,
                             tree: seq<SourceFile>, compiler: map<string, string> -> CompilerRun, p: Path)
    requires query != DefaultQuery(cfg)
    requires p in fs && !IsArtifactPath(p) && p != ResultFile(cfg) && p != MessagesFile(cfg)
    ensures var o := CompileGlob(fs, outDirMade, cfg, Some(query), matched, tree, compiler);
      p in o.fs && o.fs[p] == fs[p]
  {
    var output := compiler(MergeSources(matched)).output;
    var before := BeforeContracts(fs, cfg, Some(query), output);
    OutcomeTree(fs, outDirMade, cfg, Some(query), matched, tree, compiler);
    BeforeContractsKeeps(fs, cfg, Some(query), output, p);
    WriteAllKeepsOtherFiles(before, cfg.outDir, output.contracts);
  }

  /** Files outside the output directory survive every run unless they are
      artifact paths. */
  lemma OutsideOutputKept(fs: FileSystem, outDirMade: bool, cfg: Config, query: Option<string>, matched: seq<SourceFile>,
                          tree: seq<SourceFile>, compiler: map<string, string> -> CompilerRun, p: Path)
    requires p in fs && !UnderDir(p, cfg.outDir) && !IsArtifactPath(p)
    requires p != ResultFile(cfg) && p != MessagesFile(cfg)
    ensures var o := CompileGlob(fs, outDirMade, cfg, query, matched, tree, compiler);
      p in o.fs && o.fs[p] == fs[p]
  {
    var output := compiler(MergeSources(matched)).output;
    var before := BeforeContracts(fs, cfg, query, output);
    OutcomeTree(fs, outDirMade, cfg, query, matched, tree, compiler);
    BeforeContractsKeeps(fs, cfg, query, output, p);
    WriteAllKeepsOtherFiles(before, cfg.outDir, output.contracts);
  }

  /** Passing the default query explicitly is the same as passing none. */
  lemma ExplicitDefaultQuery(fs: FileSystem, outDirMade: bool, cfg: Config, matched: seq<SourceFile>, tree: seq<SourceFile>,
                             compiler: map<string, string> -> CompilerRun)
    ensures CompileGlob(fs, outDirMade, cfg, Some(DefaultQuery(cfg)), matched, tree, compiler)
         == CompileGlob(fs, outDirMade, cfg, None, matched, tree, compiler)
  {
    var run := compiler(MergeSources(matched));
    if ImportsResolve(tree, run.imports) {
      ResolvedRun(fs, outDirMade, cfg, Some(DefaultQuery(cfg)), matched, tree, compiler);
      ResolvedRun(fs, outDirMade, cfg, None, matched, tree, compiler);
      AfterCompileDefaultQuery(fs, outDirMade, cfg, run.output);
    }
  }

  lemma AfterCompileDefaultQuery(fs: FileSystem, outDirMade: bool, cfg: Config, output: CompilerOutput)
    ensures AfterCompile(fs, outDirMade, cfg, Some(DefaultQuery(cfg)), output) == AfterCompile(fs, outDirMade, cfg, None, output)
  {
    assert BeforeContracts(fs, cfg, Some(DefaultQuery(cfg)), output) == BeforeContracts(fs, cfg, None, output);
  }
}
