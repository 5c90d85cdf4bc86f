/** POSIX-style paths as the compile script handles them through node's `path`
    module: `basename`, the `dir` part of `parse`, and `join`. */
module Paths {
  import opened Strings

  type Path = string

  const Sep: char := '/'

  /** Position of the last separator of `p`, or -1 when it has none. */
  function LastSep(p: Path): (i: int)
    ensures -1 <= i < |p|
    ensures i >= 0 ==> p[i] == Sep
    ensures forall k :: i < k < |p| ==> p[k] != Sep
    decreases |p|
  {
    if |p| == 0 then -1
    else if p[|p| - 1] == Sep then |p| - 1
    else LastSep(p[..|p| - 1])
  }

  /** `path.basename(p)`: what follows the last separator. */
  function Basename(p: Path): (b: string)
    ensures Sep !in b
    ensures |b| <= |p| && p[|p| - |b|..] == b
  {
    p[LastSep(p) + 1..]
  }

  /** `path.parse(p).dir`: what precedes the last separator (empty when there is none).
      A lone leading separator gives the empty directory here; node gives "/",
      which `Join` below turns into the same joined path. */
  function Dir(p: Path): Path {
    var i := LastSep(p);
    if i <= 0 then "" else p[..i]
  }

  /** `path.join(a, b)` for components that need no normalisation. */
  function Join(a: Path, b: Path): (r: Path)
    ensures a == "" ==> r == b
    ensures b == "" ==> r == a
    ensures a != "" && b != "" ==> r == a + [Sep] + b
  {
    if a == "" then b
    else if b == "" then a
    else a + [Sep] + b
  }

  /** Splitting a file path into its directory and its base name and joining them
      again gives the path back (unless its only separator is a leading one). */
  lemma DirBasenameJoin(p: Path)
    requires |p| > 0 && p[|p| - 1] != Sep
    requires LastSep(p) != 0
    ensures Join(Dir(p), Basename(p)) == p
  {
    if LastSep(p) > 0 {
      JoinInnerSep(p);
    } else {
      JoinNoSep(p);
    }
  }

  lemma JoinInnerSep(p: Path)
    requires |p| > 0 && p[|p| - 1] != Sep
    requires LastSep(p) > 0
    ensures Join(Dir(p), Basename(p)) == p
  {
    var i := LastSep(p);
    var d, b := p[..i], p[i + 1..];
    assert i != |p| - 1;
    assert Dir(p) == d;
    assert Basename(p) == b;
    assert |d| > 0 && |b| > 0;
    SplitAround(p, i);
  }

  lemma JoinNoSep(p: Path)
    requires LastSep(p) < 0
    ensures Join(Dir(p), Basename(p)) == p
  {
    assert LastSep(p) == -1;
    assert p[0..] == p;
    assert Dir(p) == "";
    assert Basename(p) == p;
  }

  /** A name without separators is its own base name and has no directory. */
  lemma NoSepIsBasename(p: Path)
    requires Sep !in p
    ensures LastSep(p) == -1
    ensures Basename(p) == p && Dir(p) == ""
  {
    assert p[0..] == p;
  }
}
