/** `findImports` of bin/compile.ts: the callback the compiler calls for an import
    it cannot find among the sources, answered from the contract source tree. */
module ImportResolver {
  import opened Wrappers
  import opened Strings
  import opened Paths

  /** A file of the contract source tree: its path relative to the source
      directory and its text. */
  datatype SourceFile = SourceFile(path: Path, contents: string)

  /** `path` is matched by the glob `<sourceDir>/**/<name>`: `**` stands for zero
      or more directories. */
  predicate MatchesImport(path: Path, name: string) {
    path == name || EndsWith(path, [Sep] + name)
  }

  /** What `glob.sync` returns for the import: the matching files, in listing order. */
  function Candidates(tree: seq<SourceFile>, name: string): (r: seq<SourceFile>)
    ensures |r| <= |tree|
    ensures forall f :: f in r <==> f in tree && MatchesImport(f.path, name)
    decreases |tree|
  {
    if |tree| == 0 then []
    else
      var last := tree[|tree| - 1];
      var front := Candidates(tree[..|tree| - 1], name);
      assert forall f :: f in tree <==> f in tree[..|tree| - 1] || f == last;
      if MatchesImport(last.path, name) then front + [last] else front
  }

  function PathsOf(files: seq<SourceFile>): (ps: seq<Path>)
    ensures |ps| == |files|
    ensures forall i :: 0 <= i < |files| ==> ps[i] == files[i].path
  {
    seq(|files|, i requires 0 <= i < |files| => files[i].path)
  }

  ghost predicate NoMatch(tree: seq<SourceFile>, name: string) {
    forall i :: 0 <= i < |tree| ==> !MatchesImport(tree[i].path, name)
  }

  ghost predicate TwoMatches(tree: seq<SourceFile>, name: string) {
    exists i, j :: 0 <= i < j < |tree| && MatchesImport(tree[i].path, name) && MatchesImport(tree[j].path, name)
  }

  datatype ImportError =
    | NotFound(name: string)
    | Ambiguous(name: string, candidates: seq<Path>)

  /** The text of the error `findImports` throws; `${candidates}` renders an
      array as its elements joined by commas. */
  function ErrorMessage(e: ImportError): string {
    match e
    case NotFound(name) => "Can not find import named: " + name
    case Ambiguous(name, candidates) =>
      "Multiple source files named " + name + " found. " + JoinWith(",", candidates)
  }

  /** The `{ contents }` object handed back to the compiler. */
  datatype Import = Import(contents: string)

  /** bin/compile.ts:35-56: fail when several files or no file match, otherwise
      return the contents of the one that does. */
  function FindImports(tree: seq<SourceFile>, name: string): (r: Result<Import, ImportError>)
    ensures r == Failure(NotFound(name)) <==> NoMatch(tree, name)
    ensures r.Failure? && r.error.Ambiguous? <==> TwoMatches(tree, name)
    ensures r.Failure? && r.error.Ambiguous? ==>
      r.error == Ambiguous(name, PathsOf(Candidates(tree, name)))
    ensures r.Success? ==>
      exists i :: 0 <= i < |tree| && MatchesImport(tree[i].path, name) && r.value.contents == tree[i].contents
  {
    var candidates := Candidates(tree, name);
    CandidatesCount(tree, name);
    if |candidates| > 1 then
      Failure(Ambiguous(name, PathsOf(candidates)))
    else if |candidates| == 0 then
      Failure(NotFound(name))
    else
      assert candidates[0] in candidates;
      Success(Import(candidates[0].contents))
  }

  /** How many candidates there are, in terms of the tree's own entries. */
  lemma CandidatesCount(tree: seq<SourceFile>, name: string)
    ensures |Candidates(tree, name)| == 0 <==> NoMatch(tree, name)
    ensures |Candidates(tree, name)| >= 2 <==> TwoMatches(tree, name)
  {
    CandidatesNone(tree, name);
    CandidatesTwo(tree, name);
  }

  lemma CandidatesNone(tree: seq<SourceFile>, name: string)
    ensures |Candidates(tree, name)| == 0 <==> NoMatch(tree, name)
  {
    var c := Candidates(tree, name);
    if |c| > 0 {
      assert c[0] in c;
    }
    if !NoMatch(tree, name) {
      var i :| 0 <= i < |tree| && MatchesImport(tree[i].path, name);
      assert tree[i] in c;
    }
  }

  lemma {:induction false} CandidatesTwo(tree: seq<SourceFile>, name: string)
    ensures |Candidates(tree, name)| >= 2 <==> TwoMatches(tree, name)
    decreases |tree|
  {
    if |tree| > 0 {
      var front := tree[..|tree| - 1];
      var last := tree[|tree| - 1];
      CandidatesTwo(front, name);
      CandidatesNone(front, name);
      if MatchesImport(last.path, name) {
        assert |Candidates(tree, name)| == |Candidates(front, name)| + 1;
        TwoMatchesWithLast(tree, name);
      } else {
        assert Candidates(tree, name) == Candidates(front, name);
        TwoMatchesWithoutLast(tree, name);
      }
    }
  }

  lemma TwoMatchesWithLast(tree: seq<SourceFile>, name: string)
    requires |tree| > 0 && MatchesImport(tree[|tree| - 1].path, name)
    ensures TwoMatches(tree, name) <==> !NoMatch(tree[..|tree| - 1], name)
  {
    var front := tree[..|tree| - 1];
    if !NoMatch(front, name) {
      var i :| 0 <= i < |front| && MatchesImport(front[i].path, name);
      assert tree[i] == front[i];
      assert MatchesImport(tree[i].path, name) && MatchesImport(tree[|tree| - 1].path, name);
    }
    if TwoMatches(tree, name) {
      var i, j :| 0 <= i < j < |tree| && MatchesImport(tree[i].path, name) && MatchesImport(tree[j].path, name);
      assert front[i] == tree[i];
    }
  }

  lemma TwoMatchesWithoutLast(tree: seq<SourceFile>, name: string)
    requires |tree| > 0 && !MatchesImport(tree[|tree| - 1].path, name)
    ensures TwoMatches(tree, name) <==> TwoMatches(tree[..|tree| - 1], name)
  {
    var front := tree[..|tree| - 1];
    if TwoMatches(tree, name) {
      var i, j :| 0 <= i < j < |tree| && MatchesImport(tree[i].path, name) && MatchesImport(tree[j].path, name);
      assert front[i] == tree[i] && front[j] == tree[j];
    }
    if TwoMatches(front, name) {
      var i, j :| 0 <= i < j < |front| && MatchesImport(front[i].path, name) && MatchesImport(front[j].path, name);
      assert front[i] == tree[i] && front[j] == tree[j];
    }
  }

  /** For an import written as a bare file name, the glob matches exactly the files
      with that base name. */
  lemma MatchesBareName(path: Path, name: string)
    requires Sep !in name
    ensures MatchesImport(path, name) <==> Basename(path) == name
  {
    var i := LastSep(path);
    if Basename(path) == name {
      if i >= 0 {
        assert path[|path| - |name| - 1..] == [Sep] + name;
      } else {
        assert path[0..] == path;
      }
    }
    if MatchesImport(path, name) {
      if path == name {
        NoSepIsBasename(path);
        assert path[0..] == path;
      } else {
        var k := |path| - |name| - 1;
        assert path[k] == Sep;
        assert i == k;
        assert path[i + 1..] == path[|path| - |name|..];
      }
    }
  }

  /** Two files with the same base name in different directories make the import of
      that name ambiguous, and the error names both. */
  lemma DuplicateBasenameIsAmbiguous(tree: seq<SourceFile>, name: string, i: nat, j: nat)
    requires Sep !in name
    requires i < j < |tree|
    requires Basename(tree[i].path) == name && Basename(tree[j].path) == name
    ensures FindImports(tree, name).Failure?
    ensures FindImports(tree, name).error.Ambiguous?
    ensures tree[i].path in FindImports(tree, name).error.candidates
    ensures tree[j].path in FindImports(tree, name).error.candidates
  {
    MatchesBareName(tree[i].path, name);
    MatchesBareName(tree[j].path, name);
    var c := Candidates(tree, name);
    assert tree[i] in c && tree[j] in c;
    var ki :| 0 <= ki < |c| && c[ki] == tree[i];
    var kj :| 0 <= kj < |c| && c[kj] == tree[j];
    assert PathsOf(c)[ki] == tree[i].path;
    assert PathsOf(c)[kj] == tree[j].path;
  }

  /** When base names are unique in the tree, a bare import of an existing base name
      resolves to that file's contents. */
  lemma UniqueBasenameResolves(tree: seq<SourceFile>, name: string, i: nat)
    requires Sep !in name
    requires i < |tree| && Basename(tree[i].path) == name
    requires forall k, l :: 0 <= k < l < |tree| ==> Basename(tree[k].path) != Basename(tree[l].path)
    ensures FindImports(tree, name) == Success(Import(tree[i].contents))
  {
    MatchesBareName(tree[i].path, name);
    var r := FindImports(tree, name);
    if TwoMatches(tree, name) {
      var k, l :| 0 <= k < l < |tree| && MatchesImport(tree[k].path, name) && MatchesImport(tree[l].path, name);
      MatchesBareName(tree[k].path, name);
      MatchesBareName(tree[l].path, name);
    }
    var k :| 0 <= k < |tree| && MatchesImport(tree[k].path, name) && r.value.contents == tree[k].contents;
    MatchesBareName(tree[k].path, name);
  }
}
