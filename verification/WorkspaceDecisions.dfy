/** Which paths of a workspace the copy and the write-back leave alone, by name, and which
    directories disappear with a removed path. */
module WorkspaceDecisions {
  import opened WorkspaceTree
  import opened WorkspaceSync
  import opened SyncTheorems

  // ---------------------------------------------------------------- by name

  /** The name of a directory of the tool itself, of Git or of a support bundle. */
  ghost predicate OwnName(name: string) {
    name == ".sylliptor" || name == ".sylliptor_images" || name == ".git" || name == "sylliptor-feedback"
  }

  ghost predicate CacheName(name: string) {
    name == "__pycache__" || name == ".mypy_cache" || name == ".pytest_cache" || name == ".ruff_cache"
  }

  /** The path is below a directory "target" beside a manifest. Only the root manifest
      counts for a path that starts with that name. */
  ghost predicate BuildOutput(t: Tree, p: Path) {
    if |p| > 0 && p[0] == "target" then ["Cargo.toml"] in t.files
    else exists i | 0 <= i < |p| - 1 :: p[i] == "target" && p[..i] + ["Cargo.toml"] in t.files
  }

  ghost predicate Suffixed(name: string, suffix: string) {
    exists stem :: name == stem + suffix
  }

  lemma SuffixStands(name: string, suffix: string)
    ensures Suffixed(name, suffix) <==> |name| >= |suffix| && name[|name| - |suffix|..] == suffix
  {
    if |name| >= |suffix| && name[|name| - |suffix|..] == suffix {
      assert name == name[..|name| - |suffix|] + suffix;
    }
  }

  lemma NamesDecided(name: string)
    ensures ArtifactName(name) <==> name == ".coverage" || Suffixed(name, ".pyc") || Suffixed(name, ".pyo")
    ensures name in ROOT_DIRS <==> OwnName(name)
    ensures name in CACHE_DIRS <==> CacheName(name)
  {
    SuffixStands(name, ".pyc");
    SuffixStands(name, ".pyo");
  }

  /** A runtime artifact lies below an own directory at the root, below or at a cache
      anywhere, in the build output of a crate, or is a coverage or bytecode file. */
  lemma ArtifactExactlyWhen(t: Tree, p: Path)
    ensures
      var byName := |p| > 0 && (
        || OwnName(p[0]) || (exists i | 0 <= i < |p| :: CacheName(p[i])) || BuildOutput(t, p)
        || p[|p| - 1] == ".coverage" || Suffixed(p[|p| - 1], ".pyc") || Suffixed(p[|p| - 1], ".pyo"));
      IsArtifact(t, p) <==> byName
  {
    hide ArtifactName, OwnName, CacheName, Suffixed, ROOT_DIRS, CACHE_DIRS;
    if |p| > 0 {
      NamesDecided(p[0]);
      NamesDecided(p[|p| - 1]);
      forall i | 0 <= i < |p| ensures p[i] in CACHE_DIRS <==> CacheName(p[i]) { NamesDecided(p[i]); }
    }
  }

  /** The copy of a workspace leaves out the artifacts, and what is below or at an own
      directory or a cache anywhere. */
  lemma ExcludedExactlyWhen(t: Tree, p: Path)
    ensures Excluded(t, p) <==> IsArtifact(t, p) || exists i | 0 <= i < |p| :: OwnName(p[i]) || CacheName(p[i])
  {
    hide OwnName, CacheName, IsArtifact, ROOT_DIRS, CACHE_DIRS;
    forall i | 0 <= i < |p| ensures p[i] in ROOT_DIRS + CACHE_DIRS <==> OwnName(p[i]) || CacheName(p[i]) {
      NamesDecided(p[i]);
    }
  }

  /** A path is protected by a prefix it equals or lies below; an empty prefix protects
      nothing. */
  lemma ProtectedExactlyWhen(p: Path, prefixes: seq<Path>)
    ensures Protected(p, prefixes) <==> exists prefix :: prefix in prefixes && prefix != [] && prefix <= p
  {
    if Protected(p, prefixes) {
      var i :| 0 <= i < |prefixes| && |prefixes[i]| > 0 && Under(prefixes[i], p);
      assert prefixes[i] in prefixes && prefixes[i] <= p;
    }
    if prefix :| prefix in prefixes && prefix != [] && prefix <= p {
      var i :| 0 <= i < |prefixes| && prefixes[i] == prefix;
      assert Under(prefixes[i], p);
    }
  }

  /** A nested repository is no artifact, yet the copy leaves its own files out. */
  lemma NestedRepositoryIsLeftOut(t: Tree)
    ensures
      var p := ["sub", ".git", "config"];
      ["Cargo.toml"] !in t.files ==> Excluded(t, p) && !IsArtifact(t, p)
  {
    var p := ["sub", ".git", "config"];
    assert OwnName(p[1]);
    ExcludedExactlyWhen(t, p);
    SuffixStands("config", ".pyc");
    SuffixStands("config", ".pyo");
    ArtifactExactlyWhen(t, p);
    assert "config"[2..] == "nfig";
  }

  // ------------------------------------------------------- emptied parents

  /** Nothing is left under e but the directories between it and d. */
  ghost predicate OnlyLeadsTo(t: Tree, e: Path, d: Path) {
    && e in t.dirs && |e| > 0 && Under(e, d)
    && (forall p | p in t.files :: !Under(e, p))
    && (forall g | g in t.dirs && Under(e, g) :: Under(g, d))
  }

  lemma ChildBelow(t: Tree, d: Path, p: Path) returns (c: Path)
    requires WellFormed(t) && (p in t.files || p in t.dirs) && Under(d, p) && p != d
    ensures |c| == |d| + 1 && Parent(c) == d && (c in t.files || c in t.dirs)
  {
    c := p[..|d| + 1];
    assert Parent(c) == p[..|d|];
    if c != p { AboveIsDir(t, p, c); }
  }

  /** An empty directory has nothing below it. */
  lemma EmptyIsBare(t: Tree, d: Path, p: Path)
    requires WellFormed(t) && IsEmpty(t, d) && (p in t.files || p in t.dirs) && Under(d, p)
    ensures p == d
  {
    if p != d { var c := ChildBelow(t, d, p); }
  }

  lemma UnderParent(e: Path, d: Path)
    requires |d| > 0
    ensures Under(e, d) <==> e == d || Under(e, Parent(d))
  {
    if Under(e, d) && e != d { assert Parent(d)[..|e|] == d[..|e|]; }
    if Under(e, Parent(d)) { assert Parent(d)[..|e|] == d[..|e|]; }
  }

  lemma UnderChild(e: Path, c: Path)
    requires |c| > 0 && Under(e, Parent(c))
    ensures Under(e, c)
  {
    UnderParent(e, c);
  }

  lemma LeadsToParent(t: Tree, e: Path, d: Path)
    requires WellFormed(t) && |d| > 0 && d in t.dirs && IsEmpty(t, d) && e != d
    ensures OnlyLeadsTo(t, e, d) <==> OnlyLeadsTo(RemoveDir(t, d), e, Parent(d))
  {
    hide WellFormed, IsEmpty, Under, Parent;
    UnderParent(e, d);
    forall g | g in t.dirs && g != d ensures Under(g, d) <==> Under(g, Parent(d)) { UnderParent(g, d); }
    SelfIsUnder(d);
  }

  lemma FullStops(t: Tree, e: Path, d: Path)
    requires WellFormed(t) && !IsEmpty(t, d) && |d| > 0
    ensures !OnlyLeadsTo(t, e, d)
  {
    if Under(e, d) {
      if c :| c in t.files && |c| > 0 && Parent(c) == d {
        UnderChild(e, c);
      } else {
        var c :| c in t.dirs && |c| > 0 && Parent(c) == d;
        UnderChild(e, c);
        assert !Under(c, d);
      }
    }
  }

  /** Of the directories at and above d go exactly those that hold nothing but the way to
      d. */
  lemma {:induction false} PrunedExactlyWhen(t: Tree, d: Path, e: Path)
    requires WellFormed(t) && (|d| == 0 || d in t.dirs)
    ensures e in t.dirs ==> (e !in Prune(t, d).dirs <==> OnlyLeadsTo(t, e, d))
    decreases |d|
  {
    hide OnlyLeadsTo, IsEmpty;
    if |d| == 0 {
      RootStays(t, e);
    } else if IsEmpty(t, d) {
      var less := RemoveDir(t, d);
      RemoveDirKeepsForm(t, d);
      if e == d {
        BareGoes(t, d);
        PruneKeepsForm(less, Parent(d));
      } else {
        PrunedExactlyWhen(less, Parent(d), e);
        LeadsToParent(t, e, d);
      }
    } else {
      FullStops(t, e, d);
    }
  }

  lemma RootStays(t: Tree, e: Path)
    ensures !OnlyLeadsTo(t, e, [])
  {
  }

  lemma BareGoes(t: Tree, d: Path)
    requires WellFormed(t) && |d| > 0 && d in t.dirs && IsEmpty(t, d)
    ensures OnlyLeadsTo(t, d, d)
  {
    SelfIsUnder(d);
    forall p | (p in t.files || p in t.dirs) && Under(d, p) ensures p == d { EmptyIsBare(t, d, p); }
    FilesAreNoDirs(t);
  }

  lemma RemoveDirKeepsForm(t: Tree, d: Path)
    requires WellFormed(t) && |d| > 0 && d in t.dirs && IsEmpty(t, d)
    ensures WellFormed(RemoveDir(t, d)) && (|Parent(d)| == 0 || Parent(d) in RemoveDir(t, d).dirs)
  {
  }

  // ---------------------------------------------------------- one write-back

  /** Writing one change back: a directory of the snapshot is there afterwards, with what
      lies above it; a file has the content of the snapshot. */
  lemma WrittenBack(t: Tree, snapshot: Tree, p: Path, prefixes: seq<Path>)
    requires Ready(t, snapshot) && |p| > 0 && !IsArtifact(snapshot, p) && !Protected(p, prefixes)
    ensures
      var r := SyncOne(t, snapshot, p, prefixes);
      && (p in snapshot.dirs ==> p in r.dirs && r.files == t.files && t.dirs <= r.dirs)
      && (p in snapshot.files ==> r.files == t.files[p := snapshot.files[p]] && t.dirs <= r.dirs)
      && (p !in snapshot.dirs && p !in snapshot.files ==>
            forall q | q in t.files || q in t.dirs :: p <= q ==> q !in r.files && q !in r.dirs)
  {
    hide IsArtifact, Protected, WellFormed, Prefixes, Prune;
    FilesAreNoDirs(snapshot);
    FilesAreNoDirs(t);
    PrefixesAreAbove(p, p);
    SelfIsUnder(p);
    if p !in snapshot.dirs && p !in snapshot.files {
      if p in t.dirs {
        RemoveTreeKeepsForm(t, p);
        PruneKeepsForm(RemoveTree(t, p), Parent(p));
      } else {
        RemoveFileKeepsForm(t, p);
        PruneKeepsForm(RemoveFile(t, p), Parent(p));
        forall q | (q in t.files || q in t.dirs) && p <= q ensures q == p {
          if q != p { AboveIsDir(t, q, p); }
        }
      }
    }
  }
}
