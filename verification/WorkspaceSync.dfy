/** Copying a workspace, finding what changed in the copy, and writing that back. */
module WorkspaceSync {
  import opened Prelude
  import opened WorkspaceTree

  function CopiedFiles(src: Tree): map<Path, Content> {
    map p | p in src.files && !Excluded(src, p) :: src.files[p]
  }

  /** A file is recognised by its digest, taken to be injective. */
  datatype Signature = Digest(of: Content)

  /** `snapshot_workspace_tree` by walking. */
  function Snapshot(t: Tree): map<Path, Signature> {
    map p | p in t.files && Listed(t, p) :: Digest(t.files[p])
  }

  function Look(snapshot: map<Path, Signature>, p: Path): Option<Signature> {
    if p in snapshot then Some(snapshot[p]) else None
  }

  /** `_workspace_snapshot_changed_files`, as a set. */
  function ChangedFiles(before: map<Path, Signature>, after: map<Path, Signature>): set<Path> {
    set p | p in before.Keys + after.Keys && Look(before, p) != Look(after, p)
  }

  // -------------------------------------------------------------- one path

  predicate Protected(p: Path, prefixes: seq<Path>) {
    exists i | 0 <= i < |prefixes| :: |prefixes[i]| > 0 && Under(prefixes[i], p)
  }

  predicate Applies(snapshot: Tree, p: Path, prefixes: seq<Path>) {
    |p| > 0 && !IsArtifact(snapshot, p) && !Protected(p, prefixes)
  }

  /** What writing one changed path back does to the workspace. */
  function SyncOne(t: Tree, snapshot: Tree, p: Path, prefixes: seq<Path>): Tree {
    if !Applies(snapshot, p, prefixes) then t
    else if p in snapshot.dirs then MakeDirs(t, p)
    else if p in snapshot.files then WriteFile(t, p, snapshot.files[p])
    else if p in t.dirs then Prune(RemoveTree(t, p), Parent(p))
    else if p in t.files then Prune(RemoveFile(t, p), Parent(p))
    else t
  }

  function SyncAll(t: Tree, snapshot: Tree, changed: seq<Path>, n: nat, prefixes: seq<Path>): Tree
    requires n <= |changed|
  {
    if n == 0 then t
    else SyncOne(SyncAll(t, snapshot, changed, n - 1, prefixes), snapshot, changed[n - 1], prefixes)
  }

  function Applied(snapshot: Tree, changed: seq<Path>, n: nat, prefixes: seq<Path>): seq<Path>
    requires n <= |changed|
  {
    if n == 0 then []
    else
      var rest := Applied(snapshot, changed, n - 1, prefixes);
      if Applies(snapshot, changed[n - 1], prefixes) then rest + [changed[n - 1]] else rest
  }

  /** The copy after the source paths in `done` were visited. */
  ghost predicate CopiedSoFar(t: Tree, src: Tree, done: set<Path>) {
    && WellFormed(t) && t.dirs <= src.dirs
    && (forall p :: p in t.files <==> p in done && p in src.files && !Excluded(src, p))
    && (forall p | p in t.files :: t.files[p] == src.files[p])
    && (forall d | d in done && d in src.dirs && !Excluded(src, d) :: d in t.dirs)
  }

  lemma NothingCopied(src: Tree)
    ensures CopiedSoFar(Tree(map[], {}), src, {})
  {
  }

  lemma CopyOneMore(t: Tree, src: Tree, done: set<Path>, p: Path)
    requires WellFormed(src) && CopiedSoFar(t, src, done) && (p in src.files || p in src.dirs)
    ensures |p| > 0
    ensures
      CopiedSoFar(
        if Excluded(src, p) then t else if p in src.dirs then MakeDirs(t, p) else WriteFile(t, p, src.files[p]),
        src, done + {p})
  {
    hide Excluded, Prefixes;
    AboveAreDirs(src, p);
    if Excluded(src, p) {
    } else if p in src.dirs {
      assert p in Prefixes(p) by { PrefixesAreAbove(p, p); }
      MakeDirsKeepsForm(t, p);
    } else {
      WriteFileKeepsForm(t, p, src.files[p]);
    }
  }

  lemma AllCopied(t: Tree, src: Tree, done: set<Path>)
    requires CopiedSoFar(t, src, done) && forall p | p in src.files || p in src.dirs :: p in done
    ensures WellFormed(t) && t.files == CopiedFiles(src)
    ensures t.dirs <= src.dirs && forall d | d in src.dirs && !Excluded(src, d) :: d in t.dirs
  {
    hide Excluded;
  }

  lemma AboveAreDirs(t: Tree, p: Path)
    requires WellFormed(t) && (p in t.files || p in t.dirs)
    ensures |p| > 0 && Prefixes(Parent(p)) <= t.dirs
    ensures p in t.dirs ==> Prefixes(p) <= t.dirs
  {
    forall d | d in Prefixes(p) && d != p ensures d in t.dirs {
      PrefixesAreAbove(p, d);
      AboveIsDir(t, p, d);
    }
    PrefixesAreAbove(Parent(p), p);
  }

  // ------------------------------------------------------------ the workspace

  class Workspace {
    var files: map<Path, Content>
    var dirs: set<Path>

    function View(): Tree
      reads this
    {
      Tree(files, dirs)
    }

    method Become(t: Tree)
      modifies this
      ensures View() == t
    {
      files, dirs := t.files, t.dirs;
    }

    /** `copy_workspace_snapshot` into this tree; `order` is the listing of the
        source. Whatever was here before is gone. */
    method CopySnapshot(src: Tree, order: seq<Path>)
      requires WellFormed(src) && forall p :: p in order <==> p in src.files || p in src.dirs
      modifies this
      ensures WellFormed(View()) && files == CopiedFiles(src)
      ensures dirs <= src.dirs && forall d | d in src.dirs && !Excluded(src, d) :: d in dirs
    {
      hide Excluded, CopiedSoFar, MakeDirs, WriteFile, WellFormed;
      files, dirs := map[], {};
      ghost var done: set<Path> := {};
      NothingCopied(src);
      for i := 0 to |order|
        invariant CopiedSoFar(View(), src, done)
        invariant forall p :: p in done <==> p in order[..i]
      {
        var p := order[i];
        assert p in order;
        CopyOneMore(View(), src, done, p);
        done := done + {p};
        if Excluded(src, p) { continue; }
        if p in src.dirs {
          Become(MakeDirs(View(), p));
        } else {
          Become(WriteFile(View(), p, src.files[p]));
        }
      }
      assert order[..|order|] == order;
      AllCopied(View(), src, done);
    }

    /** The loop that removes parents while they are empty. */
    method PruneFrom(start: Path)
      modifies this`dirs
      ensures View() == Prune(old(View()), start)
    {
      var parent := start;
      while |parent| > 0 && parent in dirs
        invariant Prune(View(), parent) == Prune(old(View()), start)
        decreases |parent|
      {
        if !IsEmpty(View(), parent) { break; }
        dirs := dirs - {parent};
        parent := Parent(parent);
      }
    }

    /** `sync_snapshot_changed_files` into this workspace. */
    method SyncChangedFiles(snapshot: Tree, changed: seq<Path>, prefixes: seq<Path>) returns (applied: seq<Path>)
      modifies this
      ensures View() == SyncAll(old(View()), snapshot, changed, |changed|, prefixes)
      ensures applied == Applied(snapshot, changed, |changed|, prefixes)
    {
      hide IsArtifact, Prune;
      applied := [];
      for i := 0 to |changed|
        invariant View() == SyncAll(old(View()), snapshot, changed, i, prefixes)
        invariant applied == Applied(snapshot, changed, i, prefixes)
      {
        var path := changed[i];
        if |path| == 0 || IsArtifact(snapshot, path) { continue; }
        if Protected(path, prefixes) { continue; }
        if path in snapshot.dirs {
          Become(MakeDirs(View(), path));
        } else if path in snapshot.files {
          Become(WriteFile(View(), path, snapshot.files[path]));
        } else if path in dirs {
          Become(RemoveTree(View(), path));
          PruneFrom(Parent(path));
        } else if path in files {
          Become(RemoveFile(View(), path));
          PruneFrom(Parent(path));
        }
        applied := applied + [path];
      }
    }
  }
}
