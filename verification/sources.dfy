/** Collecting the contract sources handed to the compiler (bin/compile.ts:104-114):
    every matched file is keyed by its base name and the per-file objects are
    merged, so a later file replaces an earlier one with the same base name. */
module SourceCollector {
  import opened Paths
  import opened ImportResolver

  /** `R.mergeAll(files.map(f => ({ [basename(f)]: contents(f) })))`. */
  function MergeSources(files: seq<SourceFile>): map<string, string>
    decreases |files|
  {
    if |files| == 0 then map[]
    else
      var last := files[|files| - 1];
      MergeSources(files[..|files| - 1])[Basename(last.path) := last.contents]
  }

  /** The merged sources are keyed by exactly the base names of the files. */
  lemma {:induction false} MergeSourcesKeys(files: seq<SourceFile>)
    ensures MergeSources(files).Keys == Basenames(files)
    decreases |files|
  {
    if |files| > 0 {
      MergeSourcesKeys(files[..|files| - 1]);
      BasenamesSnoc(files);
    }
  }

  function Basenames(files: seq<SourceFile>): set<string> {
    set i | 0 <= i < |files| :: Basename(files[i].path)
  }

  /** The base names of a list are those of all but its last file, and the last's. */
  lemma BasenamesSnoc(files: seq<SourceFile>)
    requires |files| > 0
    ensures Basenames(files) == Basenames(files[..|files| - 1]) + {Basename(files[|files| - 1].path)}
  {
    BasenamesInSnoc(files);
    SnocInBasenames(files);
  }

  lemma BasenamesInSnoc(files: seq<SourceFile>)
    requires |files| > 0
    ensures Basenames(files) <= Basenames(files[..|files| - 1]) + {Basename(files[|files| - 1].path)}
  {
    var front := files[..|files| - 1];
    forall k | k in Basenames(files) ensures k in Basenames(front) || k == Basename(files[|files| - 1].path) {
      var i :| 0 <= i < |files| && Basename(files[i].path) == k;
      if i < |front| {
        assert front[i] == files[i];
      }
    }
  }

  lemma SnocInBasenames(files: seq<SourceFile>)
    requires |files| > 0
    ensures Basenames(files[..|files| - 1]) + {Basename(files[|files| - 1].path)} <= Basenames(files)
  {
    var front := files[..|files| - 1];
    var n := |files| - 1;
    assert Basename(files[n].path) in Basenames(files) by {
      assert 0 <= n < |files| && Basename(files[n].path) == Basename(files[n].path);
    }
    forall k | k in Basenames(front) ensures k in Basenames(files) {
      var i :| 0 <= i < |front| && Basename(front[i].path) == k;
      assert front[i] == files[i];
      assert Basename(files[i].path) == k;
    }
  }

  /** Each key holds the contents of the LAST file with that base name. */
  lemma {:induction false} LaterFileWins(files: seq<SourceFile>, i: nat)
    requires i < |files|
    requires forall j :: i < j < |files| ==> Basename(files[j].path) != Basename(files[i].path)
    ensures Basename(files[i].path) in MergeSources(files)
    ensures MergeSources(files)[Basename(files[i].path)] == files[i].contents
    decreases |files|
  {
    var last := files[|files| - 1];
    if i < |files| - 1 {
      var front := files[..|files| - 1];
      assert front[i] == files[i];
      LaterFileWins(front, i);
    }
  }

  /** Two files with one base name collapse into a single source, the later one. */
  lemma SameBasenameCollapses(a: SourceFile, b: SourceFile)
    requires Basename(a.path) == Basename(b.path)
    ensures MergeSources([a, b]) == map[Basename(b.path) := b.contents]
  {
    MergeOne(a);
    MergeTwo(a, b);
    OverwriteKey(Basename(b.path), a.contents, b.contents);
  }

  lemma MergeOne(a: SourceFile)
    ensures MergeSources([a]) == map[Basename(a.path) := a.contents]
  {
    assert [a][..0] == [];
  }

  lemma MergeTwo(a: SourceFile, b: SourceFile)
    ensures MergeSources([a, b]) == MergeSources([a])[Basename(b.path) := b.contents]
  {
    assert [a, b][..1] == [a];
  }

  lemma OverwriteKey(k: string, x: string, y: string)
    ensures map[k := x][k := y] == map[k := y]
  {
  }
}
