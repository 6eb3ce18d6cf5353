/** Planning a git-aware ingest: a stack search for repository roots, and the walk of everything else. */
module GitPlan {
  import opened Prelude

  type Name = string

  /** Components below the file system root; a path starts with another when its components do. */
  type DirPath = seq<Name>

  /** What `.git` is in a directory. */
  datatype GitEntry =
    | NoGit
    | GitDirectory(hasHead: bool)
    | GitFile(gitdir: seq<Component>)
    | BadPointer
    | OtherGit

  datatype Component = Normal(name: Name) | Special

  datatype Kind = FileEntry | LinkEntry | DirEntry(dir: Dir)

  datatype Dir = Dir(git: GitEntry, entries: Entries)

  datatype Entries = NoMore | Entry(name: Name, kind: Kind, rest: Entries)

  // -------------------------------------------------------------------------
  // Markers
  // -------------------------------------------------------------------------

  datatype Marker = Repo | Submodule

  function NormalNames(components: seq<Component>): seq<Name> {
    if components == [] then []
    else
      var last := components[|components| - 1];
      NormalNames(components[..|components| - 1]) + if last.Normal? then [last.name] else []
  }

  /** `.git` directly followed by `modules`, other kinds of component aside. */
  predicate PointsIntoModules(names: seq<Name>) {
    exists k :: 0 < k < |names| && IsModules(names, k)
  }

  predicate IsModules(names: seq<Name>, k: nat)
    requires 0 < k < |names|
  {
    names[k - 1] == ".git" && names[k] == "modules"
  }

  method GitdirPointsToSubmodule(gitdir: seq<Component>) returns (r: bool)
    ensures r == PointsIntoModules(NormalNames(gitdir))
  {
    var sawDotGit := false;
    assert gitdir[..0] == [];
    for i := 0 to |gitdir|
      invariant !PointsIntoModules(NormalNames(gitdir[..i]))
      invariant sawDotGit <==> var names := NormalNames(gitdir[..i]); names != [] && names[|names| - 1] == ".git"
    {
      assert gitdir[..i + 1][..i] == gitdir[..i];
      ghost var names := NormalNames(gitdir[..i]);
      if gitdir[i].Special? {
        assert NormalNames(gitdir[..i + 1]) == names;
        continue;
      }
      var part := gitdir[i].name;
      OneMoreName(names, part);
      if sawDotGit && part == "modules" {
        NamesOfPrefix(gitdir, i + 1);
        return true;
      }
      sawDotGit := part == ".git";
    }
    assert gitdir[..|gitdir|] == gitdir;
    return false;
  }

  lemma OneMoreName(names: seq<Name>, part: Name)
    ensures PointsIntoModules(names + [part])
            <==> PointsIntoModules(names) || (names != [] && names[|names| - 1] == ".git" && part == "modules")
  {
    var more := names + [part];
    assert forall k :: 0 < k < |names| ==> IsModules(more, k) == IsModules(names, k);
    if names != [] { assert IsModules(more, |names|) <==> names[|names| - 1] == ".git" && part == "modules"; }
    if k :| 0 < k < |names| && IsModules(names, k) { assert IsModules(more, k); }
  }

  lemma {:induction false} NamesOfPrefix(components: seq<Component>, n: nat)
    requires n <= |components|
    ensures NormalNames(components[..n]) <= NormalNames(components)
    ensures PointsIntoModules(NormalNames(components[..n])) ==> PointsIntoModules(NormalNames(components))
    decreases |components|
  {
    if n == |components| {
      assert components[..n] == components;
    } else {
      assert components[..|components| - 1][..n] == components[..n];
      NamesOfPrefix(components[..|components| - 1], n);
    }
    var part, whole := NormalNames(components[..n]), NormalNames(components);
    if k :| 0 < k < |part| && IsModules(part, k) { assert IsModules(whole, k); }
  }

  /** The marker, or a failure on a malformed pointer file. */
  function DetectMarker(git: GitEntry): Result<Option<Marker>, ()> {
    match git
    case NoGit => Success(None)
    case GitDirectory(hasHead) => Success(if hasHead then Some(Repo) else None)
    case GitFile(gitdir) => Success(Some(if PointsIntoModules(NormalNames(gitdir)) then Submodule else Repo))
    case BadPointer => Failure(())
    case OtherGit => Success(None)
  }

  method DetectRepoMarker(git: GitEntry) returns (r: Result<Option<Marker>, ()>)
    ensures r == DetectMarker(git)
  {
    match git {
      case NoGit =>
        return Success(None);
      case GitDirectory(hasHead) =>
        return Success(if hasHead then Some(Repo) else None);
      case GitFile(gitdir) =>
        var submodule := GitdirPointsToSubmodule(gitdir);
        return Success(Some(if submodule then Submodule else Repo));
      case BadPointer =>
        return Failure(());
      case OtherGit =>
        return Success(None);
    }
  }

  // -------------------------------------------------------------------------
  // Outermost marked directories
  // -------------------------------------------------------------------------

  predicate IsMarked(dir: Dir, marker: Marker) { DetectMarker(dir.git) == Success(Some(marker)) }

  predicate IsPlain(dir: Dir) { DetectMarker(dir.git) == Success(None) }

  /** Marked directories with no marked directory above them. */
  function Roots(path: DirPath, dir: Dir, marker: Marker): set<DirPath>
    decreases dir
  {
    if IsMarked(dir, marker) then {path}
    else if IsPlain(dir) then RootsBelow(path, dir.entries, marker)
    else {}
  }

  function RootsBelow(path: DirPath, entries: Entries, marker: Marker): set<DirPath>
    decreases entries
  {
    match entries
    case NoMore => {}
    case Entry(name, kind, rest) =>
      (if kind.DirEntry? then Roots(path + [name], kind.dir, marker) else {}) + RootsBelow(path, rest, marker)
  }

  /** The same directories in the order that a search with a stack meets them: the last entry first. */
  function RootList(path: DirPath, dir: Dir, marker: Marker): seq<DirPath>
    decreases dir
  {
    if IsMarked(dir, marker) then [path]
    else if IsPlain(dir) then RootListBelow(path, dir.entries, marker)
    else []
  }

  function RootListBelow(path: DirPath, entries: Entries, marker: Marker): seq<DirPath>
    decreases entries
  {
    match entries
    case NoMore => []
    case Entry(name, kind, rest) =>
      RootListBelow(path, rest, marker) + if kind.DirEntry? then RootList(path + [name], kind.dir, marker) else []
  }

  lemma {:induction false} ListHasRoots(path: DirPath, dir: Dir, marker: Marker)
    ensures PathSet(RootList(path, dir, marker)) == Roots(path, dir, marker)
    decreases dir
  {
    if IsPlain(dir) { ListBelowHasRoots(path, dir.entries, marker); }
  }

  lemma {:induction false} ListBelowHasRoots(path: DirPath, entries: Entries, marker: Marker)
    ensures PathSet(RootListBelow(path, entries, marker)) == RootsBelow(path, entries, marker)
    decreases entries
  {
    match entries
    case NoMore =>
    case Entry(name, kind, rest) =>
      ListBelowHasRoots(path, rest, marker);
      var last := if kind.DirEntry? then RootList(path + [name], kind.dir, marker) else [];
      if kind.DirEntry? { ListHasRoots(path + [name], kind.dir, marker); }
      PathsJoined(RootListBelow(path, rest, marker), last);
  }

  predicate AllDiffer(paths: seq<DirPath>) { forall j, k :: 0 <= j < k < |paths| ==> paths[j] != paths[k] }

  /** No root is listed twice. */
  lemma {:induction false} RootsAreListedOnce(path: DirPath, dir: Dir, marker: Marker)
    requires IsTree(dir)
    ensures AllDiffer(RootList(path, dir, marker))
    decreases dir
  {
    if IsPlain(dir) { ListedBelowOnce(path, dir.entries, marker); }
  }

  lemma {:induction false} ListedBelowOnce(path: DirPath, entries: Entries, marker: Marker)
    requires AreEntries(entries)
    ensures AllDiffer(RootListBelow(path, entries, marker))
    decreases entries
  {
    match entries
    case NoMore =>
    case Entry(name, kind, rest) =>
      ListedBelowOnce(path, rest, marker);
      if kind.DirEntry? {
        RootsAreListedOnce(path + [name], kind.dir, marker);
        var before, last := RootListBelow(path, rest, marker), RootList(path + [name], kind.dir, marker);
        ListBelowHasRoots(path, rest, marker);
        ListHasRoots(path + [name], kind.dir, marker);
        RootsBelowExtend(path, rest, marker);
        RootsExtend(path + [name], kind.dir, marker);
        forall root | root in PathSet(last)
          ensures root !in PathSet(before)
        {
          assert path + [name] <= root;
          assert root[|path|] == (path + [name])[|path|];
        }
        hide RootList, RootListBelow, Roots, RootsBelow;
        forall j, k | 0 <= j < |before| && 0 <= k < |last|
          ensures before[j] != last[k]
        {
          assert before[j] in PathSet(before) && last[k] in PathSet(last);
        }
      }
  }

  /** No malformed pointer in a directory that the search reads. */
  predicate Searchable(dir: Dir)
    decreases dir
  {
    DetectMarker(dir.git).Success? && (IsPlain(dir) ==> SearchableBelow(dir.entries))
  }

  predicate SearchableBelow(entries: Entries)
    decreases entries
  {
    match entries
    case NoMore => true
    case Entry(_, kind, rest) => (kind.DirEntry? ==> Searchable(kind.dir)) && SearchableBelow(rest)
  }

  // -------------------------------------------------------------------------
  // The stack search
  // -------------------------------------------------------------------------

  datatype GitIngestPlan = GitIngestPlan(
    repoRoots: seq<DirPath>, fallbackRoot: Option<DirPath>, skippedWalkRoots: seq<DirPath>)

  datatype Pending = Pending(path: DirPath, dir: Dir)

  function Weight(dir: Dir): nat
    decreases dir
  {
    1 + WeightBelow(dir.entries)
  }

  function WeightBelow(entries: Entries): nat
    decreases entries
  {
    match entries
    case NoMore => 0
    case Entry(_, kind, rest) => (if kind.DirEntry? then Weight(kind.dir) else 0) + WeightBelow(rest)
  }

  function StackWeight(stack: seq<Pending>): nat {
    if stack == [] then 0 else StackWeight(stack[..|stack| - 1]) + Weight(stack[|stack| - 1].dir)
  }

  /** What is still to be found, the top of the stack first. */
  function StackRoots(stack: seq<Pending>, marker: Marker): seq<DirPath> {
    if stack == [] then []
    else RootList(stack[|stack| - 1].path, stack[|stack| - 1].dir, marker) + StackRoots(stack[..|stack| - 1], marker)
  }

  predicate StackSearchable(stack: seq<Pending>) {
    stack == [] || (StackSearchable(stack[..|stack| - 1]) && Searchable(stack[|stack| - 1].dir))
  }

  function PathSet(paths: seq<DirPath>): set<DirPath> { set path | path in paths }

  /** One more entry read: its directory, if it is one, is found before all that is still on the stack. */
  lemma OneEntryPushed(stack: seq<Pending>, path: DirPath, entries: Entries, marker: Marker)
    requires entries.Entry?
    ensures var pushed := if entries.kind.DirEntry? then stack + [Pending(path + [entries.name], entries.kind.dir)]
                          else stack;
            && StackWeight(pushed) + WeightBelow(entries.rest) == StackWeight(stack) + WeightBelow(entries)
            && RootListBelow(path, entries.rest, marker) + StackRoots(pushed, marker)
               == RootListBelow(path, entries, marker) + StackRoots(stack, marker)
            && (StackSearchable(pushed) && SearchableBelow(entries.rest)
                <==> StackSearchable(stack) && SearchableBelow(entries))
  {
    if entries.kind.DirEntry? {
      var item := Pending(path + [entries.name], entries.kind.dir);
      assert (stack + [item])[..|stack|] == stack;
    }
  }

  method PushDirectories(stack: seq<Pending>, path: DirPath, entries: Entries) returns (pushed: seq<Pending>)
    ensures StackWeight(pushed) == StackWeight(stack) + WeightBelow(entries)
    ensures forall marker ::
              StackRoots(pushed, marker) == RootListBelow(path, entries, marker) + StackRoots(stack, marker)
    ensures StackSearchable(pushed) <==> StackSearchable(stack) && SearchableBelow(entries)
  {
    pushed := stack;
    var left := entries;
    while left.Entry?
      invariant StackWeight(pushed) + WeightBelow(left) == StackWeight(stack) + WeightBelow(entries)
      invariant forall marker :: RootListBelow(path, left, marker) + StackRoots(pushed, marker)
                              == RootListBelow(path, entries, marker) + StackRoots(stack, marker)
      invariant StackSearchable(pushed) && SearchableBelow(left) <==> StackSearchable(stack) && SearchableBelow(entries)
      decreases left
    {
      hide StackWeight, WeightBelow, StackRoots, RootListBelow, StackSearchable, SearchableBelow;
      forall marker { OneEntryPushed(pushed, path, left, marker); }
      OneEntryPushed(pushed, path, left, Repo);
      if left.kind.DirEntry? {
        pushed := pushed + [Pending(path + [left.name], left.kind.dir)];
      }
      left := left.rest;
    }
  }

  /** The roots found so far and those still to be found are all of them, in order. */
  ghost predicate IsProgress(found: seq<DirPath>, stack: seq<Pending>, marker: Marker, all: seq<DirPath>) {
    found + StackRoots(stack, marker) == all
  }

  /** What taking the top off the stack does, if it is marked. */
  lemma MarkedOnTop(found: seq<DirPath>, stack: seq<Pending>, marker: Marker, all: seq<DirPath>)
    requires stack != [] && IsProgress(found, stack, marker, all)
    ensures var rest, top := stack[..|stack| - 1], stack[|stack| - 1];
            match DetectMarker(top.dir.git)
            case Success(Some(m)) => IsProgress(if m == marker then found + [top.path] else found, rest, marker, all)
            case _ => true
  {
    var rest, top := stack[..|stack| - 1], stack[|stack| - 1];
    if IsMarked(top.dir, marker) { AppendAssociative(found, [top.path], StackRoots(rest, marker)); }
  }

  /** And if it is not, and its directories are pushed. */
  lemma PlainOnTop(found: seq<DirPath>, stack: seq<Pending>, pushed: seq<Pending>, marker: Marker, all: seq<DirPath>)
    requires stack != [] && IsProgress(found, stack, marker, all) && IsPlain(stack[|stack| - 1].dir)
    requires var top := stack[|stack| - 1];
             StackRoots(pushed, marker)
             == RootListBelow(top.path, top.dir.entries, marker) + StackRoots(stack[..|stack| - 1], marker)
    ensures IsProgress(found, pushed, marker, all)
  {
  }

  lemma TopOfStack(stack: seq<Pending>)
    requires stack != []
    ensures var rest, top := stack[..|stack| - 1], stack[|stack| - 1];
            && StackWeight(rest) + WeightBelow(top.dir.entries) < StackWeight(stack)
            && match DetectMarker(top.dir.git)
               case Failure(_) => !StackSearchable(stack)
               case Success(Some(_)) => StackSearchable(stack) <==> StackSearchable(rest)
               case Success(None) =>
                 StackSearchable(stack) <==> StackSearchable(rest) && SearchableBelow(top.dir.entries)
  {
  }

  /** The outermost marked directories, in the order of the search. */
  predicate IsPlanFor(root: DirPath, tree: Dir, plan: GitIngestPlan) {
    && plan.fallbackRoot == Some(root)
    && plan.repoRoots == RootList(root, tree, Repo)
    && plan.skippedWalkRoots == RootList(root, tree, Submodule) + RootList(root, tree, Repo)
  }

  /** With an enclosing repository that one is the plan. Otherwise the search ends, fails exactly on a
      malformed pointer, and lists exactly the outermost marked directories, in the order of the search. */
  method BuildGitIngestPlan(enclosing: Option<DirPath>, root: DirPath, tree: Dir)
    returns (r: Result<GitIngestPlan, ()>)
    ensures enclosing.Some? ==> r == Success(GitIngestPlan([enclosing.value], None, []))
    ensures enclosing.None? ==> (r.Success? <==> Searchable(tree))
    ensures enclosing.None? && r.Success? ==>
              && IsPlanFor(root, tree, r.value)
              && PathSet(r.value.repoRoots) == Roots(root, tree, Repo)
              && PathSet(r.value.skippedWalkRoots) == Roots(root, tree, Repo) + Roots(root, tree, Submodule)
  {
    if enclosing.Some? {
      return Success(GitIngestPlan([enclosing.value], None, []));
    }
    var repoRoots: seq<DirPath>, skipped: seq<DirPath> := [], [];
    var stack := [Pending(root, tree)];
    OneOnStack(root, tree, Repo);
    OneOnStack(root, tree, Submodule);
    hide StackWeight, WeightBelow, StackRoots, RootListBelow, RootList, StackSearchable, SearchableBelow, Searchable,
      Roots, DetectMarker, PathSet, IsProgress;
    while stack != []
      invariant IsProgress(repoRoots, stack, Repo, RootList(root, tree, Repo))
      invariant IsProgress(skipped, stack, Submodule, RootList(root, tree, Submodule))
      invariant StackSearchable(stack) <==> Searchable(tree)
      decreases StackWeight(stack)
    {
      ghost var before := stack;
      TopOfStack(stack);
      MarkedOnTop(repoRoots, stack, Repo, RootList(root, tree, Repo));
      MarkedOnTop(skipped, stack, Submodule, RootList(root, tree, Submodule));
      var item := stack[|stack| - 1];
      stack := stack[..|stack| - 1];
      var marker := DetectRepoMarker(item.dir.git);
      match marker {
        case Failure(_) =>
          return Failure(());
        case Success(Some(Repo)) =>
          repoRoots := repoRoots + [item.path];
          continue;
        case Success(Some(Submodule)) =>
          skipped := skipped + [item.path];
          continue;
        case Success(None) =>
      }
      stack := PushDirectories(stack, item.path, item.dir.entries);
      PlainOnTop(repoRoots, before, stack, Repo, RootList(root, tree, Repo));
      PlainOnTop(skipped, before, stack, Submodule, RootList(root, tree, Submodule));
    }
    NothingOnStack(repoRoots, Repo, RootList(root, tree, Repo));
    NothingOnStack(skipped, Submodule, RootList(root, tree, Submodule));
    ListHasRoots(root, tree, Repo);
    ListHasRoots(root, tree, Submodule);
    PathsJoined(skipped, repoRoots);
    return Success(GitIngestPlan(repoRoots, Some(root), skipped + repoRoots));
  }

  lemma OneOnStack(path: DirPath, dir: Dir, marker: Marker)
    ensures IsProgress([], [Pending(path, dir)], marker, RootList(path, dir, marker))
    ensures StackSearchable([Pending(path, dir)]) <==> Searchable(dir)
  {
    assert [Pending(path, dir)][..0] == [];
  }

  lemma NothingOnStack(found: seq<DirPath>, marker: Marker, all: seq<DirPath>)
    requires IsProgress(found, [], marker, all)
    ensures found == all
    ensures StackSearchable([])
  {
  }

  lemma PathsJoined(x: seq<DirPath>, y: seq<DirPath>)
    ensures PathSet(x + y) == PathSet(x) + PathSet(y)
  {
  }

  // -------------------------------------------------------------------------
  // The fallback walk
  // -------------------------------------------------------------------------

  predicate ShouldVisitWalkEntry(path: DirPath, walkRoot: DirPath, skipped: seq<DirPath>) {
    path == walkRoot || !exists k :: 0 <= k < |skipped| && skipped[k] <= path
  }

  /** The walk prunes: it reaches a path only through entries that the filter accepts. */
  predicate WalkReaches(path: DirPath, walkRoot: DirPath, skipped: seq<DirPath>) {
    walkRoot <= path
    && forall n :: |walkRoot| <= n <= |path| ==> ShouldVisitWalkEntry(path[..n], walkRoot, skipped)
  }

  // -------------------------------------------------------------------------
  // Who ingests a file
  // -------------------------------------------------------------------------

  /** No two entries of a directory share a name. */
  predicate IsTree(dir: Dir)
    decreases dir
  {
    AreEntries(dir.entries)
  }

  predicate AreEntries(entries: Entries)
    decreases entries
  {
    match entries
    case NoMore => true
    case Entry(name, kind, rest) =>
      Lookup(rest, name).None? && (kind.DirEntry? ==> IsTree(kind.dir)) && AreEntries(rest)
  }

  function Lookup(entries: Entries, name: Name): (kind: Option<Kind>)
    decreases entries
    ensures kind.Some? && kind.value.DirEntry? ==> kind.value.dir < entries
  {
    match entries
    case NoMore => None
    case Entry(n, kind, rest) => if n == name then Some(kind) else Lookup(rest, name)
  }

  /** A regular file reached through real directories, by its path below `dir`. */
  predicate HasFile(dir: Dir, below: DirPath)
    decreases |below|
  {
    below != []
    && match Lookup(dir.entries, below[0])
       case Some(FileEntry) => |below| == 1
       case Some(DirEntry(child)) => HasFile(child, below[1..])
       case _ => false
  }

  /** The outermost marked directory on the way down to the file, if any: its depth and marker. */
  datatype Owner = Nobody | OwnedAt(depth: nat, marker: Marker)

  function OwnerOf(dir: Dir, below: DirPath): (owner: Owner)
    requires HasFile(dir, below)
    ensures owner.OwnedAt? ==> owner.depth < |below|
    decreases |below|
  {
    if IsMarked(dir, Repo) then OwnedAt(0, Repo)
    else if IsMarked(dir, Submodule) then OwnedAt(0, Submodule)
    else if !IsPlain(dir) then Nobody
    else
      match Lookup(dir.entries, below[0])
      case Some(DirEntry(child)) =>
        (match OwnerOf(child, below[1..])
         case Nobody => Nobody
         case OwnedAt(depth, marker) => OwnedAt(depth + 1, marker))
      case _ => Nobody
  }

  lemma {:induction false} RootsExtend(path: DirPath, dir: Dir, marker: Marker)
    ensures forall root :: root in Roots(path, dir, marker) ==> path <= root
    decreases dir
  {
    if IsPlain(dir) { RootsBelowExtend(path, dir.entries, marker); }
  }

  /** A root below an entry list lies under one of its directories. */
  lemma {:induction false} RootsBelowExtend(path: DirPath, entries: Entries, marker: Marker)
    ensures forall root :: root in RootsBelow(path, entries, marker) ==>
              |root| > |path| && path <= root && Lookup(entries, root[|path|]).Some?
    decreases entries
  {
    match entries
    case NoMore =>
    case Entry(name, kind, rest) =>
      RootsBelowExtend(path, rest, marker);
      if kind.DirEntry? { RootsExtend(path + [name], kind.dir, marker); }
      forall root | root in RootsBelow(path, entries, marker)
        ensures |root| > |path| && path <= root && Lookup(entries, root[|path|]).Some?
      {
        if kind.DirEntry? && root in Roots(path + [name], kind.dir, marker) {
          assert path + [name] <= root;
          assert root[|path|] == (path + [name])[|path|];
        }
      }
  }

  /** The roots above the file in a list of entries are those of the entry that holds it. */
  lemma {:induction false} RootsOfEntry(path: DirPath, entries: Entries, below: DirPath, marker: Marker, root: DirPath)
    requires AreEntries(entries) && below != [] && root <= path + below
    ensures root in RootsBelow(path, entries, marker) <==>
            match Lookup(entries, below[0])
            case Some(DirEntry(child)) => root in Roots(path + [below[0]], child, marker)
            case _ => false
    decreases entries
  {
    match entries
    case NoMore =>
    case Entry(name, kind, rest) =>
      RootsOfEntry(path, rest, below, marker, root);
      RootsBelowExtend(path, rest, marker);
      if kind.DirEntry? { RootsExtend(path + [name], kind.dir, marker); }
      assert |root| > |path| && path <= root ==> root[|path|] == below[0];
      if kind.DirEntry? && root in Roots(path + [name], kind.dir, marker) {
        assert path + [name] <= root;
        assert root[|path|] == (path + [name])[|path|];
      }
  }

  /** The roots above a file are exactly its owner. */
  lemma {:induction false} RootsAboveFile(path: DirPath, dir: Dir, below: DirPath, marker: Marker, root: DirPath)
    requires IsTree(dir) && HasFile(dir, below) && root <= path + below
    ensures root in Roots(path, dir, marker) <==>
            match OwnerOf(dir, below)
            case Nobody => false
            case OwnedAt(depth, owner) => owner == marker && root == path + below[..depth]
    decreases |below|
  {
    if IsPlain(dir) {
      RootsOfEntry(path, dir.entries, below, marker, root);
      match Lookup(dir.entries, below[0])
      case Some(DirEntry(child)) =>
        ChildIsTree(dir.entries, below[0]);
        assert path + below == (path + [below[0]]) + below[1..];
        RootsAboveFile(path + [below[0]], child, below[1..], marker, root);
        if OwnerOf(child, below[1..]).OwnedAt? {
          var depth := OwnerOf(child, below[1..]).depth;
          assert path + below[..depth + 1] == (path + [below[0]]) + below[1..][..depth];
        }
      case _ =>
    } else {
      assert path + below[..0] == path;
    }
  }

  lemma {:induction false} ChildIsTree(entries: Entries, name: Name)
    requires AreEntries(entries)
    ensures match Lookup(entries, name) case Some(DirEntry(child)) => IsTree(child) case _ => true
    decreases entries
  {
    if entries.Entry? { ChildIsTree(entries.rest, name); }
  }

  /** The walk reaches a file exactly when no skipped root lies above it. */
  lemma WalkReachesIff(walkRoot: DirPath, below: DirPath, skipped: seq<DirPath>)
    requires below != []
    ensures WalkReaches(walkRoot + below, walkRoot, skipped)
            <==> forall root :: root in PathSet(skipped) ==> !(root <= walkRoot + below)
  {
    var path := walkRoot + below;
    assert path[..|path|] == path;
    if root :| root in PathSet(skipped) && root <= path {
      var k :| 0 <= k < |skipped| && skipped[k] == root;
      assert skipped[k] <= path[..|path|];
      assert !ShouldVisitWalkEntry(path[..|path|], walkRoot, skipped);
    } else {
      forall n | |walkRoot| <= n <= |path|
        ensures ShouldVisitWalkEntry(path[..n], walkRoot, skipped)
      {
        if k :| 0 <= k < |skipped| && skipped[k] <= path[..n] {
          assert skipped[k] in PathSet(skipped);
          PrefixIsTransitive(skipped[k], path, n);
        }
      }
    }
  }

  lemma PrefixIsTransitive(root: DirPath, path: DirPath, n: nat)
    requires n <= |path| && root <= path[..n]
    ensures root <= path
  {
    assert path == path[..n] + path[n..];
  }

  ghost predicate UnderOneOf(roots: set<DirPath>, path: DirPath) { exists root :: root in roots && root <= path }

  /** Every file of the tree lies in exactly one of three regions, named by its outermost marked
      ancestor: under a repository root, under a submodule root, or within reach of the fallback walk;
      and the root above it is unique. */
  lemma PlanPartitionsFiles(root: DirPath, tree: Dir, plan: GitIngestPlan, below: DirPath)
    requires IsTree(tree) && HasFile(tree, below)
    requires plan.fallbackRoot == Some(root) && PathSet(plan.repoRoots) == Roots(root, tree, Repo)
    requires PathSet(plan.skippedWalkRoots) == Roots(root, tree, Repo) + Roots(root, tree, Submodule)
    ensures var file, owner := root + below, OwnerOf(tree, below);
            && (UnderOneOf(Roots(root, tree, Repo), file) <==> owner.OwnedAt? && owner.marker == Repo)
            && (UnderOneOf(Roots(root, tree, Submodule), file) <==> owner.OwnedAt? && owner.marker == Submodule)
            && (WalkReaches(file, root, plan.skippedWalkRoots) <==> owner.Nobody?)
    ensures forall x, y ::
              (x in PathSet(plan.skippedWalkRoots) && y in PathSet(plan.skippedWalkRoots)
               && x <= root + below && y <= root + below) ==> x == y
  {
    var file := root + below;
    WalkReachesIff(root, below, plan.skippedWalkRoots);
    forall x, marker | x <= file
      ensures x in Roots(root, tree, marker) <==>
              match OwnerOf(tree, below)
              case Nobody => false
              case OwnedAt(depth, owner) => owner == marker && x == root + below[..depth]
    {
      RootsAboveFile(root, tree, below, marker, x);
    }
    if OwnerOf(tree, below).OwnedAt? {
      var above := root + below[..OwnerOf(tree, below).depth];
      assert below == below[..OwnerOf(tree, below).depth] + below[OwnerOf(tree, below).depth..];
      assert above <= file;
      assert above in Roots(root, tree, OwnerOf(tree, below).marker);
    }
    hide Roots, HasFile, OwnerOf, WalkReaches;
  }

  /** No root lies above another: the roots form an antichain, whatever their markers. */
  lemma {:induction false} RootsAreAntichain(path: DirPath, dir: Dir, m: Marker, n: Marker, x: DirPath, y: DirPath)
    requires IsTree(dir) && x in Roots(path, dir, m) && y in Roots(path, dir, n) && x <= y
    ensures x == y && m == n
    decreases dir
  {
    if IsPlain(dir) {
      BelowIsAntichain(path, dir.entries, m, n, x, y);
    }
  }

  lemma {:induction false} BelowIsAntichain(path: DirPath, entries: Entries, m: Marker, n: Marker, x: DirPath,
                                            y: DirPath)
    requires AreEntries(entries) && x in RootsBelow(path, entries, m) && y in RootsBelow(path, entries, n) && x <= y
    ensures x == y && m == n
    decreases entries
  {
    var name, kind, rest := entries.name, entries.kind, entries.rest;
    RootsBelowExtend(path, rest, m);
    RootsBelowExtend(path, rest, n);
    RootsBelowExtend(path, entries, m);
    assert x[|path|] == y[|path|];
    if kind.DirEntry? {
      RootsExtend(path + [name], kind.dir, m);
      RootsExtend(path + [name], kind.dir, n);
      assert forall r: DirPath :: path + [name] <= r ==> r[|path|] == (path + [name])[|path|];
    }
    if x in RootsBelow(path, rest, m) && y in RootsBelow(path, rest, n) {
      BelowIsAntichain(path, rest, m, n, x, y);
    } else {
      RootsAreAntichain(path + [name], kind.dir, m, n, x, y);
    }
  }
}
