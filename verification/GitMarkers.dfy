/** Which directories become repository roots, which are skipped, and which are walked, read off the
    `.git` entries themselves. */
module GitMarkers {
  import opened Prelude
  import opened GitPlan

  // -------------------------------------------------------------------------
  // Entries
  // -------------------------------------------------------------------------

  predicate IsSpecialBetween(gitdir: seq<Component>, i: nat, j: nat) {
    forall k :: i < k < j && k < |gitdir| ==> gitdir[k].Special?
  }

  /** Of the normal components `modules` directly follows `.git` somewhere. */
  predicate ModulesFollows(gitdir: seq<Component>) {
    exists i, j :: 0 <= i < j < |gitdir| && gitdir[i] == Normal(".git") && gitdir[j] == Normal("modules")
                   && IsSpecialBetween(gitdir, i, j)
  }

  /** A `.git` directory with HEAD, or a pointer that does not lead into the modules of another. */
  predicate IsRepoEntry(git: GitEntry) {
    git == GitDirectory(true) || (git.GitFile? && !ModulesFollows(git.gitdir))
  }

  predicate IsSubmoduleEntry(git: GitEntry) { git.GitFile? && ModulesFollows(git.gitdir) }

  predicate IsOpenEntry(git: GitEntry) { git == NoGit || git == GitDirectory(false) || git == OtherGit }

  lemma {:induction false} LastNameIs(gitdir: seq<Component>, name: Name)
    ensures var names := NormalNames(gitdir);
            (names != [] && names[|names| - 1] == name) <==>
              exists i :: 0 <= i < |gitdir| && gitdir[i] == Normal(name) && IsSpecialBetween(gitdir, i, |gitdir|)
  {
    if gitdir != [] {
      var init, last := gitdir[..|gitdir| - 1], gitdir[|gitdir| - 1];
      LastNameIs(init, name);
      if last.Special? {
        forall i | 0 <= i < |init|
          ensures IsSpecialBetween(gitdir, i, |gitdir|) <==> IsSpecialBetween(init, i, |init|)
        {
          OneMoreSpecial(gitdir, i);
        }
      } else {
        assert IsSpecialBetween(gitdir, |gitdir| - 1, |gitdir|);
        forall i | 0 <= i < |init|
          ensures !IsSpecialBetween(gitdir, i, |gitdir|)
        {
          assert !gitdir[|gitdir| - 1].Special?;
        }
      }
    }
  }

  lemma OneMoreSpecial(gitdir: seq<Component>, i: nat)
    requires gitdir != [] && gitdir[|gitdir| - 1].Special? && i < |gitdir| - 1
    ensures IsSpecialBetween(gitdir, i, |gitdir|) <==> IsSpecialBetween(gitdir[..|gitdir| - 1], i, |gitdir| - 1)
  {
    var init := gitdir[..|gitdir| - 1];
    assert forall k :: 0 <= k < |init| ==> gitdir[k] == init[k];
  }

  lemma SameBetween(gitdir: seq<Component>, i: nat, j: nat)
    requires gitdir != [] && j < |gitdir|
    ensures IsSpecialBetween(gitdir, i, j) <==> IsSpecialBetween(gitdir[..|gitdir| - 1], i, j)
  {
    var init := gitdir[..|gitdir| - 1];
    assert forall k :: 0 <= k < |init| ==> gitdir[k] == init[k];
  }

  lemma {:induction false} ModulesFollowsIff(gitdir: seq<Component>)
    ensures PointsIntoModules(NormalNames(gitdir)) <==> ModulesFollows(gitdir)
  {
    if gitdir != [] {
      var init, last := gitdir[..|gitdir| - 1], gitdir[|gitdir| - 1];
      ModulesFollowsIff(init);
      LastNameIs(init, ".git");
      LastComponent(gitdir);
      if last.Normal? {
        OneMoreName(NormalNames(init), last.name);
        assert NormalNames(gitdir) == NormalNames(init) + [last.name];
      } else {
        assert NormalNames(gitdir) == NormalNames(init);
      }
      hide PointsIntoModules, ModulesFollows, IsSpecialBetween;
    }
  }

  lemma LastComponent(gitdir: seq<Component>)
    requires gitdir != []
    ensures var init := gitdir[..|gitdir| - 1];
            ModulesFollows(gitdir) <==>
              || ModulesFollows(init)
              || (gitdir[|gitdir| - 1] == Normal("modules")
                  && exists i :: 0 <= i < |init| && init[i] == Normal(".git") && IsSpecialBetween(init, i, |init|))
  {
    var init, n := gitdir[..|gitdir| - 1], |gitdir| - 1;
    forall i: nat, j: nat | i < j < |gitdir|
      ensures IsSpecialBetween(gitdir, i, j) <==> IsSpecialBetween(init, i, j)
    {
      SameBetween(gitdir, i, j);
    }
    hide IsSpecialBetween;
  }

  predicate IsEntryOf(git: GitEntry, marker: Marker) {
    match marker
    case Repo => IsRepoEntry(git)
    case Submodule => IsSubmoduleEntry(git)
  }

  lemma MarkerIs(dir: Dir, marker: Marker)
    ensures IsMarked(dir, marker) <==> IsEntryOf(dir.git, marker)
    ensures IsPlain(dir) <==> IsOpenEntry(dir.git)
    ensures DetectMarker(dir.git).Failure? <==> dir.git.BadPointer?
  {
    if dir.git.GitFile? { ModulesFollowsIff(dir.git.gitdir); }
    hide PointsIntoModules, ModulesFollows;
  }

  // -------------------------------------------------------------------------
  // Directories reached through open ones
  // -------------------------------------------------------------------------

  function ReachedDir(dir: Dir, below: DirPath): Option<Dir>
    decreases |below|
  {
    if below == [] then Some(dir)
    else if !IsOpenEntry(dir.git) then None
    else
      match Lookup(dir.entries, below[0])
      case Some(DirEntry(child)) => ReachedDir(child, below[1..])
      case _ => None
  }

  /** One step further down: exactly into the subdirectories of an open directory. */
  lemma {:induction false} DescendsIff(dir: Dir, below: DirPath, name: Name)
    ensures ReachedDir(dir, below + [name]).Some? <==>
              && ReachedDir(dir, below).Some?
              && IsOpenEntry(ReachedDir(dir, below).value.git)
              && match Lookup(ReachedDir(dir, below).value.entries, name)
                 case Some(DirEntry(_)) => true
                 case _ => false
    decreases |below|
  {
    hide IsOpenEntry;
    if below == [] {
      assert below + [name] == [name] && [name][1..] == [];
    } else {
      assert (below + [name])[1..] == below[1..] + [name];
      match Lookup(dir.entries, below[0])
      case Some(DirEntry(child)) => DescendsIff(child, below[1..], name);
      case _ =>
    }
  }

  lemma {:induction false} RootIff(path: DirPath, dir: Dir, marker: Marker, below: DirPath)
    requires IsTree(dir)
    ensures path + below in Roots(path, dir, marker) <==>
              ReachedDir(dir, below).Some? && IsEntryOf(ReachedDir(dir, below).value.git, marker)
    decreases |below|
  {
    MarkerIs(dir, marker);
    hide IsEntryOf;
    if below == [] {
      assert path + below == path;
      RootsBelowExtend(path, dir.entries, marker);
    } else if IsPlain(dir) {
      RootsOfEntry(path, dir.entries, below, marker, path + below);
      ChildIsTree(dir.entries, below[0]);
      match Lookup(dir.entries, below[0])
      case Some(DirEntry(child)) =>
        assert path + below == (path + [below[0]]) + below[1..];
        RootIff(path + [below[0]], child, marker, below[1..]);
      case _ =>
    } else {
      assert path + below != path;
    }
  }

  lemma NotBoth(git: GitEntry)
    ensures !(IsRepoEntry(git) && IsSubmoduleEntry(git))
  {
  }

  /** A directory is a repository root exactly when it is reached through open ones and is a repository by
      its own entry, and a skipped root besides exactly when it is a submodule by its own entry; no root
      lies elsewhere. */
  lemma RootsAreByEntry(root: DirPath, tree: Dir, plan: GitIngestPlan, below: DirPath)
    requires IsTree(tree) && IsPlanFor(root, tree, plan)
    ensures root + below in plan.repoRoots <==>
              ReachedDir(tree, below).Some? && IsRepoEntry(ReachedDir(tree, below).value.git)
    ensures root + below in plan.skippedWalkRoots && root + below !in plan.repoRoots <==>
              ReachedDir(tree, below).Some? && IsSubmoduleEntry(ReachedDir(tree, below).value.git)
    ensures forall path :: path in plan.repoRoots || path in plan.skippedWalkRoots ==> root <= path
  {
    ListHasRoots(root, tree, Repo);
    ListHasRoots(root, tree, Submodule);
    RootIff(root, tree, Repo, below);
    RootIff(root, tree, Submodule, below);
    RootsExtend(root, tree, Repo);
    RootsExtend(root, tree, Submodule);
    if ReachedDir(tree, below).Some? { NotBoth(ReachedDir(tree, below).value.git); }
    hide Roots, RootList, IsRepoEntry, IsSubmoduleEntry, ReachedDir;
    forall path
      ensures path in RootList(root, tree, Repo) <==> path in Roots(root, tree, Repo)
      ensures path in RootList(root, tree, Submodule) <==> path in Roots(root, tree, Submodule)
    {
      assert path in PathSet(RootList(root, tree, Repo)) <==> path in RootList(root, tree, Repo);
      assert path in PathSet(RootList(root, tree, Submodule)) <==> path in RootList(root, tree, Submodule);
    }
  }

  // -------------------------------------------------------------------------
  // Malformed pointers
  // -------------------------------------------------------------------------

  predicate ChildIsSearchable(entries: Entries, name: Name) {
    match Lookup(entries, name)
    case Some(DirEntry(child)) => Searchable(child)
    case _ => true
  }

  lemma {:induction false} SearchableEntries(entries: Entries)
    requires AreEntries(entries)
    ensures SearchableBelow(entries) <==> forall name :: ChildIsSearchable(entries, name)
    decreases entries
  {
    match entries
    case NoMore =>
    case Entry(name, kind, rest) =>
      SearchableEntries(rest);
      hide Searchable;
      assert ChildIsSearchable(entries, name) <==> (kind.DirEntry? ==> Searchable(kind.dir));
      forall other | other != name
        ensures ChildIsSearchable(entries, other) <==> ChildIsSearchable(rest, other)
      {
      }
      assert ChildIsSearchable(rest, name);
  }

  lemma {:induction false} ReachedIsWellFormed(dir: Dir, below: DirPath)
    requires IsTree(dir) && Searchable(dir)
    ensures ReachedDir(dir, below).Some? ==> !ReachedDir(dir, below).value.git.BadPointer?
    decreases |below|
  {
    MarkerIs(dir, Repo);
    hide DetectMarker;
    if below != [] && IsPlain(dir) {
      SearchableEntries(dir.entries);
      ChildIsTree(dir.entries, below[0]);
      assert ChildIsSearchable(dir.entries, below[0]);
      match Lookup(dir.entries, below[0])
      case Some(DirEntry(child)) => ReachedIsWellFormed(child, below[1..]);
      case _ =>
    }
  }

  lemma {:induction false} BadPointerIsReached(dir: Dir) returns (below: DirPath)
    requires IsTree(dir) && !Searchable(dir)
    ensures ReachedDir(dir, below).Some? && ReachedDir(dir, below).value.git.BadPointer?
    decreases dir
  {
    MarkerIs(dir, Repo);
    hide DetectMarker;
    if dir.git.BadPointer? {
      below := [];
    } else {
      SearchableEntries(dir.entries);
      var name :| !ChildIsSearchable(dir.entries, name);
      ChildIsTree(dir.entries, name);
      var rest := BadPointerIsReached(Lookup(dir.entries, name).value.dir);
      below := [name] + rest;
      assert below[1..] == rest;
    }
  }

  /** The search fails exactly when some directory reached through open ones has a malformed pointer. */
  lemma SearchFailsIff(tree: Dir)
    requires IsTree(tree)
    ensures !Searchable(tree) <==>
            exists below :: ReachedDir(tree, below).Some? && ReachedDir(tree, below).value.git.BadPointer?
  {
    hide Searchable, ReachedDir, IsTree;
    if !Searchable(tree) {
      var below := BadPointerIsReached(tree);
    } else {
      forall below
        ensures ReachedDir(tree, below).Some? ==> !ReachedDir(tree, below).value.git.BadPointer?
      {
        ReachedIsWellFormed(tree, below);
      }
    }
  }

  // -------------------------------------------------------------------------
  // The walk
  // -------------------------------------------------------------------------

  /** Every directory on the way down to the file is open. */
  ghost predicate IsOpenWay(dir: Dir, below: DirPath) {
    forall n :: 0 <= n < |below| ==>
      ReachedDir(dir, below[..n]).Some? && IsOpenEntry(ReachedDir(dir, below[..n]).value.git)
  }

  lemma {:induction false} NobodyIff(dir: Dir, below: DirPath)
    requires IsTree(dir) && HasFile(dir, below) && Searchable(dir)
    ensures OwnerOf(dir, below).Nobody? <==> IsOpenWay(dir, below)
    decreases |below|
  {
    MarkerIs(dir, Repo);
    MarkerIs(dir, Submodule);
    hide DetectMarker, IsEntryOf;
    assert below[..0] == [];
    if IsPlain(dir) {
      SearchableEntries(dir.entries);
      ChildIsTree(dir.entries, below[0]);
      assert ChildIsSearchable(dir.entries, below[0]);
      match Lookup(dir.entries, below[0])
      case Some(DirEntry(child)) =>
        NobodyIff(child, below[1..]);
        forall n | 0 < n < |below|
          ensures ReachedDir(dir, below[..n]) == ReachedDir(child, below[1..][..n - 1])
        {
          assert below[..n][1..] == below[1..][..n - 1];
        }
        WayShifts(dir, child, below);
      case _ =>
    } else {
      MarkedOrBad(dir);
    }
  }

  lemma WayShifts(dir: Dir, child: Dir, below: DirPath)
    requires below != [] && IsOpenEntry(dir.git)
    requires forall n :: 0 < n < |below| ==> ReachedDir(dir, below[..n]) == ReachedDir(child, below[1..][..n - 1])
    ensures IsOpenWay(dir, below) <==> IsOpenWay(child, below[1..])
  {
    assert below[..0] == [];
    if IsOpenWay(dir, below) {
      forall m | 0 <= m < |below[1..]|
        ensures ReachedDir(child, below[1..][..m]).Some? && IsOpenEntry(ReachedDir(child, below[1..][..m]).value.git)
      {
        assert ReachedDir(dir, below[..m + 1]) == ReachedDir(child, below[1..][..m]);
      }
    }
  }

  lemma MarkedOrBad(dir: Dir)
    requires !IsPlain(dir) && Searchable(dir)
    ensures IsMarked(dir, Repo) || IsMarked(dir, Submodule)
  {
  }

  /** When the search succeeds, the fallback walk reaches a file exactly when every directory on the way
      down to it is open. */
  lemma WalkedIff(root: DirPath, tree: Dir, plan: GitIngestPlan, below: DirPath)
    requires IsTree(tree) && Searchable(tree) && HasFile(tree, below) && IsPlanFor(root, tree, plan)
    ensures WalkReaches(root + below, root, plan.skippedWalkRoots) <==> IsOpenWay(tree, below)
  {
    ListHasRoots(root, tree, Repo);
    ListHasRoots(root, tree, Submodule);
    PathsJoined(RootList(root, tree, Submodule), RootList(root, tree, Repo));
    PlanPartitionsFiles(root, tree, plan, below);
    NobodyIff(tree, below);
  }
}
