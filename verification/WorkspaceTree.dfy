/** File trees of a workspace, the runtime artifacts in them, and the basic changes
    the snapshot functions make. Paths are sequences of names; the root is []. */
module WorkspaceTree {
  import opened Prelude
  import Utf8

  type Path = seq<string>
  type Content = Utf8.Bytes

  datatype Tree = Tree(files: map<Path, Content>, dirs: set<Path>)

  function Parent(p: Path): Path
    requires |p| > 0
  {
    p[..|p| - 1]
  }

  function FileAt(t: Tree, p: Path): Option<Content> {
    if p in t.files then Some(t.files[p]) else None
  }

  predicate IsDir(t: Tree, p: Path) {
    |p| == 0 || p in t.dirs
  }

  /** Nothing is both file and directory, and what exists lies in a directory. */
  predicate WellFormed(t: Tree) {
    && (forall p | p in t.files :: |p| > 0 && p !in t.dirs && IsDir(t, Parent(p)))
    && (forall d | d in t.dirs :: |d| > 0 && IsDir(t, Parent(d)))
  }

  // -------------------------------------------------------- runtime artifacts

  const ROOT_DIRS := {".sylliptor", ".sylliptor_images", ".git", "sylliptor-feedback"}
  const CACHE_DIRS := {"__pycache__", ".mypy_cache", ".pytest_cache", ".ruff_cache"}

  predicate ArtifactName(name: string) {
    || name == ".coverage"
    || (|name| >= 4 && (name[|name| - 4..] == ".pyc" || name[|name| - 4..] == ".pyo"))
  }

  predicate RustTarget(t: Tree, p: Path)
    requires |p| > 0
  {
    if p[0] == "target" then ["Cargo.toml"] in t.files
    else exists i | 0 <= i < |p| - 1 :: p[i] == "target" && p[..i] + ["Cargo.toml"] in t.files
  }

  /** `is_runtime_artifact_path` with the tree as root. */
  predicate IsArtifact(t: Tree, p: Path) {
    |p| > 0 && (
      || p[0] in ROOT_DIRS
      || (exists i | 0 <= i < |p| :: p[i] in CACHE_DIRS)
      || RustTarget(t, p)
      || ArtifactName(p[|p| - 1]))
  }

  /** What the copy of a workspace leaves out. */
  predicate Excluded(t: Tree, p: Path) {
    (exists i | 0 <= i < |p| :: p[i] in ROOT_DIRS + CACHE_DIRS) || IsArtifact(t, p)
  }

  /** `_normalize_reporting_changed_path`: no artifact is reported. */
  function ReportingPath(t: Tree, p: Path): Option<Path> {
    if |p| == 0 || IsArtifact(t, p) then None else Some(p)
  }

  /** The test under which the walk leaves a directory out. */
  predicate Skips(t: Tree, d: Path) {
    var reported := ReportingPath(t, d);
    reported.Some? && IsArtifact(t, reported.value)
  }

  /** The walk over a workspace reaches p through the directories above it. */
  predicate Listed(t: Tree, p: Path) {
    (forall i | 1 <= i < |p| :: !Skips(t, p[..i])) && ReportingPath(t, p).Some?
  }

  /** That test never holds, as what is reported is no artifact: the walk enters every
      directory and lists exactly the files that are no artifacts themselves. */
  lemma ListedExactlyWhen(t: Tree, p: Path)
    ensures Listed(t, p) <==> |p| > 0 && !IsArtifact(t, p)
  {
    hide IsArtifact;
  }

  /** With fewer manifests there are no more artifacts. */
  lemma FewerFilesFewerArtifacts(t: Tree, u: Tree, p: Path)
    requires (forall q | q in u.files :: q in t.files) && IsArtifact(u, p)
    ensures IsArtifact(t, p)
  {
    hide ArtifactName;
    if RustTarget(u, p) && p[0] != "target" {
      var i :| 0 <= i < |p| - 1 && p[i] == "target" && p[..i] + ["Cargo.toml"] in u.files;
      assert p[..i] + ["Cargo.toml"] in t.files;
    }
  }

  // ------------------------------------------------------------------ changes

  /** The path and the directories above it. */
  function Prefixes(p: Path): set<Path> {
    if |p| == 0 then {} else {p} + Prefixes(Parent(p))
  }

  function MakeDirs(t: Tree, p: Path): Tree {
    t.(dirs := t.dirs + Prefixes(p))
  }

  function WriteFile(t: Tree, p: Path, c: Content): Tree
    requires |p| > 0
  {
    MakeDirs(t, Parent(p)).(files := t.files[p := c])
  }

  predicate Under(d: Path, p: Path) {
    |d| <= |p| && p[..|d|] == d
  }

  function RemoveTree(t: Tree, d: Path): Tree {
    Tree(map p | p in t.files && !Under(d, p) :: t.files[p], set e | e in t.dirs && !Under(d, e))
  }

  function RemoveFile(t: Tree, p: Path): Tree {
    t.(files := map q | q in t.files && q != p :: t.files[q])
  }

  predicate IsEmpty(t: Tree, d: Path) {
    (forall p | p in t.files :: |p| == 0 || Parent(p) != d) && (forall e | e in t.dirs :: |e| == 0 || Parent(e) != d)
  }

  function RemoveDir(t: Tree, d: Path): Tree {
    t.(dirs := t.dirs - {d})
  }

  /** Removes d while it is empty, then the directory above it, never the root. */
  function Prune(t: Tree, d: Path): Tree
    decreases |d|
  {
    if |d| == 0 || d !in t.dirs || !IsEmpty(t, d) then t else Prune(RemoveDir(t, d), Parent(d))
  }

  // ------------------------------------------------------- well-formedness

  lemma {:induction false} PrefixesAreAbove(p: Path, d: Path)
    ensures d in Prefixes(p) <==> |d| > 0 && Under(d, p)
    decreases |p|
  {
    if |p| > 0 {
      PrefixesAreAbove(Parent(p), d);
      assert p[..|p|] == p;
      if Under(d, p) && |d| < |p| { assert Parent(p)[..|d|] == p[..|d|]; }
      if Under(d, Parent(p)) { assert Parent(p)[..|d|] == p[..|d|]; }
    }
  }

  /** In a well-formed tree everything above an existing path is a directory. */
  lemma {:induction false} AboveIsDir(t: Tree, p: Path, d: Path)
    requires WellFormed(t) && (p in t.files || IsDir(t, p)) && Under(d, p) && d != p
    ensures IsDir(t, d)
    decreases |p|
  {
    if |d| < |p| - 1 {
      assert Parent(p)[..|d|] == p[..|d|];
      AboveIsDir(t, Parent(p), d);
    } else {
      assert d == Parent(p);
    }
  }

  lemma {:induction false} PrefixesHaveParents(p: Path)
    ensures forall d | d in Prefixes(p) :: |d| > 0 && (|d| > 1 ==> Parent(d) in Prefixes(p))
  {
    if |p| > 0 { PrefixesHaveParents(Parent(p)); }
  }

  lemma MakeDirsKeepsForm(t: Tree, p: Path)
    requires WellFormed(t) && forall d | d in Prefixes(p) :: d !in t.files
    ensures WellFormed(MakeDirs(t, p))
  {
    hide Prefixes;
    PrefixesHaveParents(p);
  }

  lemma WriteFileKeepsForm(t: Tree, p: Path, c: Content)
    requires WellFormed(t) && |p| > 0 && p !in t.dirs && forall d | d in Prefixes(Parent(p)) :: d !in t.files
    ensures WellFormed(WriteFile(t, p, c))
  {
    MakeDirsKeepsForm(t, Parent(p));
    PrefixesAreAbove(Parent(p), p);
    assert |Parent(p)| > 0 ==> Parent(p) in Prefixes(Parent(p));
    hide Prefixes;
  }

  lemma RemoveTreeKeepsForm(t: Tree, d: Path)
    requires WellFormed(t)
    ensures WellFormed(RemoveTree(t, d))
  {
    forall p | |p| > 0 && Under(d, Parent(p)) ensures Under(d, p) {
      assert Parent(p)[..|d|] == p[..|d|];
    }
  }

  lemma RemoveFileKeepsForm(t: Tree, p: Path)
    requires WellFormed(t)
    ensures WellFormed(RemoveFile(t, p))
  {
  }

  lemma {:induction false} PruneKeepsForm(t: Tree, d: Path)
    requires WellFormed(t)
    ensures WellFormed(Prune(t, d))
    ensures Prune(t, d).files == t.files && Prune(t, d).dirs <= t.dirs
    ensures forall e | e in t.dirs && e !in Prune(t, d).dirs :: Under(e, d)
    decreases |d|
  {
    if |d| > 0 && d in t.dirs && IsEmpty(t, d) {
      PruneKeepsForm(RemoveDir(t, d), Parent(d));
      forall e | Under(e, Parent(d)) ensures Under(e, d) {
        assert Parent(d)[..|e|] == d[..|e|];
      }
    }
  }
}
