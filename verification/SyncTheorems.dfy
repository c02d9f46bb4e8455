/** What a round trip through a copied workspace does to each file. */
module SyncTheorems {
  import opened Prelude
  import opened WorkspaceTree
  import opened WorkspaceSync

  /** No path is a file in one tree and a directory in the other. */
  predicate NoSwap(t: Tree, u: Tree) {
    t.files.Keys !! u.dirs && t.dirs !! u.files.Keys
  }

  predicate Ready(t: Tree, snapshot: Tree) {
    WellFormed(t) && WellFormed(snapshot) && NoSwap(t, snapshot)
  }

  predicate Gone(snapshot: Tree, p: Path) {
    p !in snapshot.files && p !in snapshot.dirs
  }

  /** What a file becomes when q is written back. */
  function FileAfter(t: Tree, snapshot: Tree, q: Path, p: Path, prefixes: seq<Path>): Option<Content> {
    if !Applies(snapshot, q, prefixes) then FileAt(t, p)
    else if p == q && q in snapshot.files then Some(snapshot.files[q])
    else if Gone(snapshot, q) && Under(q, p) then None
    else FileAt(t, p)
  }

  lemma SyncOneReady(t: Tree, snapshot: Tree, q: Path, prefixes: seq<Path>)
    requires Ready(t, snapshot)
    ensures Ready(SyncOne(t, snapshot, q, prefixes), snapshot)
  {
    FilesAreNoDirs(snapshot);
    hide Applies, Prefixes, Prune, RemoveFile, RemoveTree, WellFormed;
    if q in snapshot.files || q in snapshot.dirs {
      AboveAreDirs(snapshot, q);
      if q in snapshot.dirs {
        MakeDirsKeepsForm(t, q);
      } else {
        WriteFileKeepsForm(t, q, snapshot.files[q]);
      }
    } else if q in t.dirs && |q| > 0 {
      RemovedIsLess(t, q);
      RemoveTreeKeepsForm(t, q);
      PruneKeepsForm(RemoveTree(t, q), Parent(q));
    } else if |q| > 0 {
      RemovedIsLess(t, q);
      RemoveFileKeepsForm(t, q);
      PruneKeepsForm(RemoveFile(t, q), Parent(q));
    }
  }

  lemma FilesAreNoDirs(t: Tree)
    requires WellFormed(t)
    ensures t.files.Keys !! t.dirs
  {
  }

  lemma RemovedIsLess(t: Tree, q: Path)
    ensures RemoveTree(t, q).files.Keys <= t.files.Keys && RemoveTree(t, q).dirs <= t.dirs
    ensures RemoveFile(t, q).files.Keys <= t.files.Keys && RemoveFile(t, q).dirs == t.dirs
  {
  }

  lemma SyncOneFile(t: Tree, snapshot: Tree, q: Path, p: Path, prefixes: seq<Path>)
    requires Ready(t, snapshot)
    ensures FileAt(SyncOne(t, snapshot, q, prefixes), p) == FileAfter(t, snapshot, q, p, prefixes)
  {
    FilesAreNoDirs(snapshot);
    hide IsArtifact, Protected, Prefixes, Prune, WellFormed;
    if Applies(snapshot, q, prefixes) && Gone(snapshot, q) {
      if q in t.dirs {
        RemoveTreeKeepsForm(t, q);
        PruneKeepsForm(RemoveTree(t, q), Parent(q));
      } else {
        RemoveFileKeepsForm(t, q);
        PruneKeepsForm(RemoveFile(t, q), Parent(q));
        if p in t.files && Under(q, p) && p != q { AboveIsDir(t, p, q); }
        SelfIsUnder(q);
      }
    }
  }

  lemma SelfIsUnder(q: Path)
    ensures Under(q, q)
  {
  }

  /** Some applied change among the first n removes p or a directory above it. */
  predicate Removed(snapshot: Tree, changed: seq<Path>, n: nat, p: Path, prefixes: seq<Path>)
    requires n <= |changed|
  {
    exists i | 0 <= i < n :: Applies(snapshot, changed[i], prefixes) && Gone(snapshot, changed[i]) && Under(changed[i], p)
  }

  /** Writing changes back, whatever their order and however often each is listed: an
      applied path that is a file in the snapshot gets its content, what is gone from
      the snapshot goes with everything under it, and every other file stays. */
  lemma {:induction false} SyncedFile(t: Tree, snapshot: Tree, changed: seq<Path>, n: nat, p: Path, prefixes: seq<Path>)
    requires Ready(t, snapshot) && n <= |changed|
    ensures Ready(SyncAll(t, snapshot, changed, n, prefixes), snapshot)
    ensures FileAt(SyncAll(t, snapshot, changed, n, prefixes), p)
         == if p in snapshot.files && Applies(snapshot, p, prefixes) && p in changed[..n] then Some(snapshot.files[p])
            else if Removed(snapshot, changed, n, p, prefixes) then None
            else FileAt(t, p)
  {
    hide IsArtifact, Protected, SyncOne, WellFormed, Under;
    if n > 0 {
      var before, q := SyncAll(t, snapshot, changed, n - 1, prefixes), changed[n - 1];
      SyncedFile(t, snapshot, changed, n - 1, p, prefixes);
      SyncOneReady(before, snapshot, q, prefixes);
      SyncOneFile(before, snapshot, q, p, prefixes);
      assert changed[..n] == changed[..n - 1] + [q];
      if Applies(snapshot, q, prefixes) && Under(q, p) && p in snapshot.files {
        SelfOrAboveExists(snapshot, p, q);
      }
    }
  }

  lemma SelfOrAboveExists(t: Tree, p: Path, q: Path)
    requires WellFormed(t) && p in t.files && Under(q, p) && |q| > 0
    ensures !Gone(t, q)
  {
    if q != p { AboveIsDir(t, p, q); }
  }

  // -------------------------------------------------------------- round trip

  lemma ChangedExactlyWhen(before: Tree, after: Tree, p: Path)
    ensures p in ChangedFiles(Snapshot(before), Snapshot(after)) <==>
            (if Listed(before, p) then FileAt(before, p) else None) != (if Listed(after, p) then FileAt(after, p) else None)
  {
    hide Listed;
  }

  /** A file of the copy is no artifact there either. */
  lemma CopiedIsNoArtifact(src: Tree, copy: Tree, p: Path)
    requires copy.files == CopiedFiles(src) && p in copy.files
    ensures !IsArtifact(copy, p)
  {
    hide IsArtifact;
    if IsArtifact(copy, p) { FewerFilesFewerArtifacts(src, copy, p); }
  }

  predicate ChangesOf(changed: seq<Path>, copy: Tree, edited: Tree) {
    var changes := ChangedFiles(Snapshot(copy), Snapshot(edited));
    (forall q | q in changed :: q in changes) && (forall q | q in changes :: q in changed)
  }

  /** For a change list found by comparing the copy with its edited state, no other
      file of the workspace is removed. */
  lemma NothingElseRemoved(src: Tree, copy: Tree, edited: Tree, changed: seq<Path>, p: Path, prefixes: seq<Path>)
    requires WellFormed(src) && copy.files == CopiedFiles(src) && ChangesOf(changed, copy, edited)
    requires p in src.files && (p !in changed || !Applies(edited, p, prefixes))
    ensures !Removed(edited, changed, |changed|, p, prefixes)
  {
    FilesAreNoDirs(src);
    hide Listed, IsArtifact, Protected, Excluded, Under, WellFormed;
    forall i | 0 <= i < |changed| && Gone(edited, changed[i]) && Applies(edited, changed[i], prefixes)
      ensures !Under(changed[i], p)
    {
      var q := changed[i];
      ChangedExactlyWhen(copy, edited, q);
      assert q in src.files;
      if Under(q, p) { AboveIsDir(src, p, q); }
    }
  }

  /** Syncing leaves the file alone: it is an artifact or protected by a prefix. */
  predicate Untouched(edited: Tree, p: Path, prefixes: seq<Path>) {
    IsArtifact(edited, p) || Protected(p, prefixes)
  }

  lemma ListedPathChanges(src: Tree, copy: Tree, edited: Tree, changed: seq<Path>, p: Path)
    requires copy.files == CopiedFiles(src) && ChangesOf(changed, copy, edited) && |p| > 0
    ensures !IsArtifact(edited, p) ==> (p in changed <==> FileAt(copy, p) != FileAt(edited, p))
  {
    ListedExactlyWhen(copy, p);
    ListedExactlyWhen(edited, p);
    ChangedExactlyWhen(copy, edited, p);
    if p in copy.files { CopiedIsNoArtifact(src, copy, p); }
    hide Listed, IsArtifact, CopiedFiles, ChangedFiles, Snapshot;
  }

  /** The round trip for every file path and every list of protected prefixes: protected
      files and artifacts of the edited copy keep their state in the workspace. Every
      other path ends up as in the edited copy, except exactly those files that the copy
      left out and the edited copy still lacks; these stay as they were. */
  lemma RoundTrip(src: Tree, copy: Tree, edited: Tree, changed: seq<Path>, prefixes: seq<Path>, p: Path)
    requires Ready(src, edited) && copy.files == CopiedFiles(src) && ChangesOf(changed, copy, edited)
    requires |p| > 0
    ensures
      var final := SyncAll(src, edited, changed, |changed|, prefixes);
      var leftOut := p in src.files && Excluded(src, p) && p !in edited.files;
      && (Untouched(edited, p, prefixes) ==> FileAt(final, p) == FileAt(src, p))
      && (!Untouched(edited, p, prefixes) ==> (FileAt(final, p) == FileAt(edited, p) <==> !leftOut))
      && (leftOut ==> FileAt(final, p) == FileAt(src, p))
  {
    SyncedFile(src, edited, changed, |changed|, p, prefixes);
    assert changed[..|changed|] == changed;
    ListedPathChanges(src, copy, edited, changed, p);
    SelfIsUnder(p);
    hide Excluded, IsArtifact, ChangesOf, Protected, Under, WellFormed, SyncAll;
    if p in src.files && (p !in changed || !Applies(edited, p, prefixes)) {
      NothingElseRemoved(src, copy, edited, changed, p, prefixes);
    }
  }

  /** A directory stays unless a gone path lies above or below it. */
  lemma {:induction false} OtherDirsStay(t: Tree, snapshot: Tree, changed: seq<Path>, n: nat, d: Path, prefixes: seq<Path>)
    requires Ready(t, snapshot) && n <= |changed| && d in t.dirs
    requires forall i | 0 <= i < n && Gone(snapshot, changed[i]) :: !Under(changed[i], d) && !Under(d, changed[i])
    ensures d in SyncAll(t, snapshot, changed, n, prefixes).dirs
  {
    hide Applies, Prefixes, Prune, WellFormed;
    if n > 0 {
      OtherDirsStay(t, snapshot, changed, n - 1, d, prefixes);
      SyncedFile(t, snapshot, changed, n - 1, d, prefixes);
      var before, q := SyncAll(t, snapshot, changed, n - 1, prefixes), changed[n - 1];
      if Gone(snapshot, q) && |q| > 0 {
        RemoveTreeKeepsForm(before, q);
        RemoveFileKeepsForm(before, q);
        PruneKeepsForm(RemoveTree(before, q), Parent(q));
        PruneKeepsForm(RemoveFile(before, q), Parent(q));
      }
    }
  }
}
