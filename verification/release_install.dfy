/** Installing the files of a release bump: all of them, or the originals back. */
module ReleaseInstall {
  import opened Wrappers

  datatype Registry = Registry(
    cargoManifests: seq<string>, jsonSites: seq<string>, generatedLockfiles: seq<string>,
    dependentLockfiles: seq<string>, changelog: string)

  // ----- the list of files -----

  /** `dict.fromkeys`: each name once, at its first place. */
  function Deduplicated(names: seq<string>, seen: set<string>): seq<string> {
    if names == [] then []
    else if names[0] in seen then Deduplicated(names[1..], seen)
    else [names[0]] + Deduplicated(names[1..], seen + {names[0]})
  }

  function AllNames(cfg: Registry): seq<string> {
    cfg.cargoManifests + cfg.jsonSites + cfg.generatedLockfiles + cfg.dependentLockfiles + [cfg.changelog]
  }

  function ReleaseFiles(cfg: Registry): seq<string> {
    Deduplicated(AllNames(cfg), {})
  }

  lemma {:induction false} DeduplicatedNames(names: seq<string>, seen: set<string>)
    ensures forall r :: r in Deduplicated(names, seen) <==> r in names && r !in seen
    ensures Distinct(Deduplicated(names, seen))
  {
    if names != [] {
      DeduplicatedNames(names[1..], seen);
      DeduplicatedNames(names[1..], seen + {names[0]});
      assert names == [names[0]] + names[1..];
      var rest := Deduplicated(names[1..], seen + {names[0]});
      assert forall j :: 0 <= j < |rest| ==> rest[j] in rest;
    }
  }

  /** Every file named anywhere in the registry is listed, once. */
  lemma {:induction false} ReleaseFilesOnce(cfg: Registry)
    ensures Distinct(ReleaseFiles(cfg))
    ensures forall r :: r in ReleaseFiles(cfg) <==>
      r in cfg.cargoManifests || r in cfg.jsonSites || r in cfg.generatedLockfiles || r in cfg.dependentLockfiles ||
        r == cfg.changelog
  {
    DeduplicatedNames(AllNames(cfg), {});
  }

  // ----- the directories -----

  datatype Place = Root | Staged | Backup

  datatype Location = At(place: Place, name: string)

  datatype Report =
    | Installed
    | Missing(name: string)
    | CannotPrepare
    | Restored
    | RollbackFailed(unrestored: seq<string>)

  type Tree = map<Location, string>

  /** The n-th operation fails, changing nothing, when `failing(n)`. */
  class FileSystem {
    const failing: nat -> bool
    var tree: Tree
    var operations: nat

    constructor (tree: Tree, failing: nat -> bool)
      ensures this.tree == tree && this.failing == failing && operations == 0
    {
      this.tree := tree;
      this.failing := failing;
      operations := 0;
    }

    /** `shutil.copy2`. */
    method Copy(source: Location, destination: Location) returns (ok: bool)
      modifies this
      ensures operations == old(operations) + 1
      ensures ok <==> source in old(tree) && !failing(old(operations))
      ensures tree == if ok then old(tree)[destination := old(tree)[source]] else old(tree)
    {
      ok := source in tree && !failing(operations);
      operations := operations + 1;
      if ok {
        tree := tree[destination := tree[source]];
      }
    }

    /** `os.replace`. */
    method Replace(source: Location, destination: Location) returns (ok: bool)
      requires source != destination
      modifies this
      ensures operations == old(operations) + 1
      ensures ok <==> source in old(tree) && !failing(old(operations))
      ensures tree == if ok then old(tree)[destination := old(tree)[source]] - {source} else old(tree)
    {
      ok := source in tree && !failing(operations);
      operations := operations + 1;
      if ok {
        tree := tree[destination := tree[source]] - {source};
      }
    }

    /** The first loop: every file is checked and its original copied aside. */
    method BackUp(files: seq<string>) returns (trouble: Report)
      modifies this
      ensures operations >= old(operations)
      ensures trouble == Installed || trouble == CannotPrepare || (trouble.Missing? && trouble.name in files)
      ensures SameOutside(old(tree), tree, Backup)
      ensures trouble == Installed ==> AllPresent(tree, files)
      ensures trouble == Installed ==> forall i :: 0 <= i < |files| ==>
        At(Backup, files[i]) in tree && tree[At(Backup, files[i])] == tree[At(Root, files[i])]
      ensures trouble == Installed <==>
        AllPresent(old(tree), files) && NoFailure(failing, old(operations), old(operations) + |files|)
      ensures trouble == Installed ==> operations == old(operations) + |files|
      ensures trouble.Missing? ==> At(Staged, trouble.name) !in old(tree) || At(Root, trouble.name) !in old(tree)
    {
      for n := 0 to |files|
        invariant operations == old(operations) + n && NoFailure(failing, old(operations), operations)
        invariant SameOutside(old(tree), tree, Backup)
        invariant AllPresent(tree, files[..n])
        invariant forall i :: 0 <= i < n ==>
          At(Backup, files[i]) in tree && tree[At(Backup, files[i])] == tree[At(Root, files[i])]
      {
        var name := files[n];
        if At(Staged, name) !in tree || At(Root, name) !in tree {
          return Missing(name);
        }
        ghost var before := operations;
        var ok := Copy(At(Root, name), At(Backup, name));
        if !ok {
          assert failing(before);
          return CannotPrepare;
        }
        assert files[..n + 1] == files[..n] + [name];
      }
      assert files[..|files|] == files;
      return Installed;
    }
  
    /** The second loop: the staged files move into place until one move fails. */
    method ReplaceAll(files: seq<string>) returns (replaced: seq<string>)
      requires Ready(tree, files)
      modifies this
      ensures operations >= old(operations)
      ensures |replaced| <= |files| && replaced == files[..|replaced|]
      ensures Halfway(old(tree), tree, files, |replaced|)
      ensures operations == old(operations) + |replaced| + if |replaced| < |files| then 1 else 0
      ensures NoFailure(failing, old(operations), old(operations) + |replaced|)
      ensures |replaced| < |files| ==> failing(old(operations) + |replaced|)
    {
      hide Untouched, Swapped, Elsewhere;
      ghost var start := tree;
      replaced := [];
      HalfwayStart(start, files);
      for n := 0 to |files|
        invariant operations == old(operations) + n && NoFailure(failing, old(operations), operations)
        invariant replaced == files[..n]
        invariant Halfway(start, tree, files, n)
      {
        ghost var before, operation := tree, operations;
        var ok := Replace(At(Staged, files[n]), At(Root, files[n]));
        HalfwayStep(start, before, files, n);
        if !ok {
          assert failing(operation);
          return;
        }
        replaced := replaced + [files[n]];
        assert files[..n + 1] == files[..n] + [files[n]];
      }
    }

    /** The rollback loop: last moved, first restored; what cannot be restored is reported. */
    method RollBack(files: seq<string>, replaced: seq<string>, ghost start: Tree) returns (unrestored: seq<string>)
      requires Ready(start, files) && |replaced| <= |files| && replaced == files[..|replaced|]
      requires Halfway(start, tree, files, |replaced|)
      modifies this
      ensures operations >= old(operations)
      ensures RolledBack(start, tree, files, unrestored)
      ensures forall r :: r in unrestored ==> r in replaced
      ensures operations == old(operations) + |replaced|
      ensures forall i :: 0 <= i < |replaced| ==>
        (files[i] in unrestored <==> failing(old(operations) + |replaced| - 1 - i))
    {
      hide Untouched, Swapped, PutBack, Elsewhere;
      unrestored := [];
      var k: nat := |replaced|;
      HalfwayUnwinds(start, tree, files, k);
      while k > 0
        invariant k <= |replaced| && operations == old(operations) + |replaced| - k
        invariant forall i :: k <= i < |replaced| ==>
          (files[i] in unrestored <==> failing(old(operations) + |replaced| - 1 - i))
        invariant forall r :: r in unrestored ==> r in replaced && r in files[k..]
        invariant Unwinding(start, tree, files, k, unrestored)
      {
        k := k - 1;
        ghost var before, earlier := tree, unrestored;
        StillBackedUp(start, tree, files, k, unrestored);
        var ok := Replace(At(Backup, replaced[k]), At(Root, replaced[k]));
        if !ok {
          unrestored := unrestored + [replaced[k]];
        }
        assert replaced[k] == files[k] && files[k..] == [files[k]] + files[k + 1..];
        UnwindingStep(start, before, tree, files, k, earlier, ok);
        assert files[k] !in earlier by { NotLater(files, k); }
        assert forall i :: k < i < |replaced| ==> files[i] != files[k];
      }
    }

    /** `install_staged_files`: afterwards either every release file holds its staged content, or the run
        reports failure and every file outside the reported ones holds its original content; the
        reported ones hold the staged content, and no other file of the tree changed. */
    method InstallStagedFiles(cfg: Registry) returns (report: Report)
      modifies this
      ensures report == Installed ==> forall r :: r in ReleaseFiles(cfg) ==>
        At(Staged, r) in old(tree) && Holds(tree, r, old(tree)[At(Staged, r)])
      ensures report != Installed ==>
        forall r :: r in ReleaseFiles(cfg) && r !in Unrestored(report) && At(Root, r) in old(tree) ==>
        Holds(tree, r, old(tree)[At(Root, r)])
      ensures forall r :: r in Unrestored(report) ==>
        r in ReleaseFiles(cfg) && At(Staged, r) in old(tree) && Holds(tree, r, old(tree)[At(Staged, r)])
      ensures report.RollbackFailed? ==> report.unrestored != []
      ensures forall r :: r !in ReleaseFiles(cfg) ==> SameAt(old(tree), tree, At(Root, r))
      ensures report == Installed <==>
        AllPresent(old(tree), ReleaseFiles(cfg)) &&
        NoFailure(failing, old(operations), old(operations) + 2 * |ReleaseFiles(cfg)|)
      ensures report.Missing? ==> report.name in ReleaseFiles(cfg)
      ensures report.Missing? ==> At(Staged, report.name) !in old(tree) || At(Root, report.name) !in old(tree)
      ensures report.Restored? || report.RollbackFailed? <==>
        AllPresent(old(tree), ReleaseFiles(cfg)) && exists j: nat ::
          StoppedAt(failing, old(operations), ReleaseFiles(cfg), j, Unrestored(report))
    {
      hide ReleaseFiles, Deduplicated, Untouched, Swapped, PutBack, Elsewhere, NoFailure, AllPresent, StoppedAt, Holds,
        SameOutside, Halfway, RolledBack;
      var files := ReleaseFiles(cfg);
      ReleaseFilesOnce(cfg);
      ghost var k := operations;
      report := BackUp(files);
      if report != Installed {
        NeverStarted(failing, k, files);
        NothingMoved(old(tree), tree);
        return;
      }
      ghost var start := tree;
      var replaced := ReplaceAll(files);
      if |replaced| == |files| {
        InstalledAll(old(tree), start, tree, files);
        AllMoved(failing, k, files);
        return Installed;
      }
      var unrestored := RollBack(files, replaced, start);
      AfterRollback(old(tree), start, tree, files, unrestored);
      report := if unrestored != [] then RollbackFailed(unrestored) else Restored;
      StoppedHere(failing, k, files, |replaced|, unrestored);
      assert Unrestored(report) == unrestored;
    }
  }

  /** From operation `k` on, every file is backed up and the first `j` are moved; then a move fails, and exactly those
      of the `j` stay behind whose move back, the last one first, fails too. */
  ghost predicate StoppedAt(failing: nat -> bool, k: nat, files: seq<string>, j: nat, unrestored: seq<string>) {
    var n := |files|;
    j < n && NoFailure(failing, k, k + n + j) && failing(k + n + j) &&
    forall i :: 0 <= i < j ==> (files[i] in unrestored <==> failing(k + n + 2 * j - i))
  }

  lemma {:induction false} NeverStarted(failing: nat -> bool, k: nat, files: seq<string>)
    ensures !NoFailure(failing, k, k + |files|) ==>
      !NoFailure(failing, k, k + 2 * |files|) && forall j: nat, u :: !StoppedAt(failing, k, files, j, u)
  {
  }

  lemma {:induction false} StoppedHere(failing: nat -> bool, k: nat, files: seq<string>, j: nat,
      unrestored: seq<string>)
    requires var n := |files|;
      j < n && NoFailure(failing, k, k + n) && NoFailure(failing, k + n, k + n + j) && failing(k + n + j) &&
      forall i :: 0 <= i < j ==> (files[i] in unrestored <==> failing(k + n + j + 1 + j - 1 - i))
    ensures StoppedAt(failing, k, files, j, unrestored) && !NoFailure(failing, k, k + 2 * |files|)
  {
    forall i | 0 <= i < j ensures files[i] in unrestored <==> failing(k + |files| + 2 * j - i) {
      assert k + |files| + j + 1 + j - 1 - i == k + |files| + 2 * j - i;
    }
  }

  lemma {:induction false} NothingMoved(original: Tree, tree: Tree)
    requires SameOutside(original, tree, Backup)
    ensures forall r :: At(Root, r) in original ==> Holds(tree, r, original[At(Root, r)])
    ensures forall r :: SameAt(original, tree, At(Root, r))
  {
  }

  lemma {:induction false} AllMoved(failing: nat -> bool, k: nat, files: seq<string>)
    requires NoFailure(failing, k, k + |files|) && NoFailure(failing, k + |files|, k + 2 * |files|)
    ensures NoFailure(failing, k, k + 2 * |files|)
    ensures forall j: nat, u :: !StoppedAt(failing, k, files, j, u)
  {
  }

  function Unrestored(report: Report): seq<string> {
    if report.RollbackFailed? then report.unrestored else []
  }

  ghost predicate SameOutside(before: Tree, after: Tree, place: Place) {
    forall l: Location :: l.place != place ==> (l in before <==> l in after) && (l in before ==> after[l] == before[l])
  }

  ghost predicate AllPresent(tree: Tree, files: seq<string>) {
    forall i :: 0 <= i < |files| ==> At(Root, files[i]) in tree && At(Staged, files[i]) in tree
  }

  ghost predicate NoFailure(failing: nat -> bool, from: nat, to: nat) {
    forall k: nat :: from <= k < to ==> !failing(k)
  }

  // ----- where each file stands -----

  ghost predicate SameAt(before: Tree, after: Tree, l: Location) {
    (l in before <==> l in after) && (l in before ==> after[l] == before[l])
  }

  ghost predicate Holds(tree: Tree, name: string, content: string) {
    At(Root, name) in tree && tree[At(Root, name)] == content
  }

  /** Every file is staged, in place, and backed up. */
  ghost predicate Ready(tree: Tree, files: seq<string>) {
    Distinct(files) && AllPresent(tree, files) &&
    forall i :: 0 <= i < |files| ==>
      At(Backup, files[i]) in tree && tree[At(Backup, files[i])] == tree[At(Root, files[i])]
  }

  ghost predicate Untouched(start: Tree, tree: Tree, r: string) {
    SameAt(start, tree, At(Root, r)) && SameAt(start, tree, At(Staged, r)) && SameAt(start, tree, At(Backup, r))
  }

  ghost predicate Swapped(start: Tree, tree: Tree, r: string) {
    At(Staged, r) in start && Holds(tree, r, start[At(Staged, r)]) && SameAt(start, tree, At(Backup, r))
  }

  ghost predicate PutBack(start: Tree, tree: Tree, r: string) {
    At(Root, r) in start && Holds(tree, r, start[At(Root, r)])
  }

  ghost predicate Elsewhere(start: Tree, tree: Tree, files: seq<string>) {
    forall r :: r !in files ==> SameAt(start, tree, At(Root, r))
  }

  ghost predicate Halfway(start: Tree, tree: Tree, files: seq<string>, n: nat) {
    (forall i :: 0 <= i < n && i < |files| ==> Swapped(start, tree, files[i])) &&
    (forall i :: n <= i < |files| ==> Untouched(start, tree, files[i])) &&
    Elsewhere(start, tree, files)
  }

  ghost predicate Unwinding(start: Tree, tree: Tree, files: seq<string>, k: nat, unrestored: seq<string>) {
    (forall i :: 0 <= i < k && i < |files| ==> Swapped(start, tree, files[i])) &&
    (forall i :: k <= i < |files| && files[i] !in unrestored ==> PutBack(start, tree, files[i])) &&
    (forall r :: r in unrestored ==> Swapped(start, tree, r)) &&
    Elsewhere(start, tree, files)
  }

  ghost predicate RolledBack(start: Tree, tree: Tree, files: seq<string>, unrestored: seq<string>) {
    Unwinding(start, tree, files, 0, unrestored)
  }

  ghost function Replaced(tree: Tree, source: Location, destination: Location): Tree
    requires source in tree
  {
    tree[destination := tree[source]] - {source}
  }

  lemma {:induction false} HalfwayStart(start: Tree, files: seq<string>)
    ensures Halfway(start, start, files, 0)
  {
  }

  lemma {:induction false} HalfwayUnwinds(start: Tree, tree: Tree, files: seq<string>, n: nat)
    requires Ready(start, files) && Halfway(start, tree, files, n)
    ensures Unwinding(start, tree, files, n, [])
  {
  }

  /** Moving one staged file into place concerns that file alone. */
  lemma {:induction false} SwapOne(start: Tree, tree: Tree, r: string, other: string)
    requires Untouched(start, tree, r) && At(Staged, r) in tree
    ensures var next := Replaced(tree, At(Staged, r), At(Root, r));
      Swapped(start, next, r) && (other != r ==>
        (Untouched(start, tree, other) ==> Untouched(start, next, other)) &&
        (Swapped(start, tree, other) ==> Swapped(start, next, other)) &&
        (SameAt(start, tree, At(Root, other)) ==> SameAt(start, next, At(Root, other))))
  {
  }

  lemma {:induction false} HalfwayStep(start: Tree, tree: Tree, files: seq<string>, n: nat)
    requires Ready(start, files) && n < |files| && Halfway(start, tree, files, n)
    ensures At(Staged, files[n]) in tree
    ensures Halfway(start, Replaced(tree, At(Staged, files[n]), At(Root, files[n])), files, n + 1)
  {
    hide Swapped, Replaced, SameAt;
    StillStaged(start, tree, files[n]);
    var next := Replaced(tree, At(Staged, files[n]), At(Root, files[n]));
    hide Untouched;
    SwapOne(start, tree, files[n], files[n]);
    forall i | 0 <= i < |files| && i != n
      ensures i < n ==> Swapped(start, next, files[i])
      ensures i > n ==> Untouched(start, next, files[i])
    {
      SwapOne(start, tree, files[n], files[i]);
    }
    forall r | r !in files ensures SameAt(start, next, At(Root, r)) {
      SwapOne(start, tree, files[n], r);
    }
  }

  lemma {:induction false} StillStaged(start: Tree, tree: Tree, r: string)
    requires Untouched(start, tree, r) && At(Staged, r) in start
    ensures At(Staged, r) in tree
  {
  }

  lemma {:induction false} RestoreOne(start: Tree, tree: Tree, r: string, other: string)
    requires Swapped(start, tree, r) && At(Root, r) in start
    requires At(Backup, r) in start && start[At(Backup, r)] == start[At(Root, r)]
    ensures At(Backup, r) in tree
    ensures var next := Replaced(tree, At(Backup, r), At(Root, r));
      PutBack(start, next, r) && (other != r ==>
        (PutBack(start, tree, other) ==> PutBack(start, next, other)) &&
        (Swapped(start, tree, other) ==> Swapped(start, next, other)) &&
        (SameAt(start, tree, At(Root, other)) ==> SameAt(start, next, At(Root, other))))
  {
  }

  lemma {:induction false} UnwindingStep(start: Tree, before: Tree, after: Tree, files: seq<string>, k: nat,
      unrestored: seq<string>, ok: bool)
    requires Ready(start, files) && k < |files| && Unwinding(start, before, files, k + 1, unrestored)
    requires forall r :: r in unrestored ==> r in files[k + 1..]
    requires ok ==> At(Backup, files[k]) in before
    requires ok ==> after == Replaced(before, At(Backup, files[k]), At(Root, files[k]))
    requires !ok ==> after == before
    ensures Unwinding(start, after, files, k, if ok then unrestored else unrestored + [files[k]])
  {
    hide Swapped, Replaced, SameAt, PutBack;
    if ok {
      forall r | r != files[k]
        ensures PutBack(start, before, r) ==> PutBack(start, after, r)
        ensures Swapped(start, before, r) ==> Swapped(start, after, r)
        ensures SameAt(start, before, At(Root, r)) ==> SameAt(start, after, At(Root, r))
      {
        RestoreOne(start, before, files[k], r);
      }
      RestoreOne(start, before, files[k], files[k]);
      assert files[k] !in unrestored by { NotLater(files, k); }
    }
  }

  lemma {:induction false} StillBackedUp(start: Tree, tree: Tree, files: seq<string>, k: nat, unrestored: seq<string>)
    requires Ready(start, files) && k < |files| && Unwinding(start, tree, files, k + 1, unrestored)
    ensures At(Backup, files[k]) in tree
  {
    assert Swapped(start, tree, files[k]);
    RestoreOne(start, tree, files[k], files[k]);
  }

  lemma {:induction false} NotLater(files: seq<string>, k: nat)
    requires Distinct(files) && k < |files|
    ensures files[k] !in files[k + 1..]
  {
  }

  lemma {:induction false} InstalledAll(original: Tree, start: Tree, tree: Tree, files: seq<string>)
    requires SameOutside(original, start, Backup) && Halfway(start, tree, files, |files|)
    ensures forall r :: r in files ==> At(Staged, r) in original && Holds(tree, r, original[At(Staged, r)])
    ensures forall r :: r !in files ==> SameAt(original, tree, At(Root, r))
  {
    hide Holds;
    forall r | r in files ensures At(Staged, r) in original && Holds(tree, r, original[At(Staged, r)]) {
      var i :| 0 <= i < |files| && files[i] == r;
      assert Swapped(start, tree, files[i]);
    }
  }

  lemma {:induction false} AfterRollback(original: Tree, start: Tree, tree: Tree, files: seq<string>,
      unrestored: seq<string>)
    requires SameOutside(original, start, Backup) && RolledBack(start, tree, files, unrestored)
    ensures forall r :: r in files && r !in unrestored ==>
      At(Root, r) in original && Holds(tree, r, original[At(Root, r)])
    ensures forall r :: r in unrestored ==> At(Staged, r) in original && Holds(tree, r, original[At(Staged, r)])
    ensures forall r :: r !in files ==> SameAt(original, tree, At(Root, r))
  {
    hide Holds;
    forall r | r in files && r !in unrestored ensures At(Root, r) in original && Holds(tree, r, original[At(Root, r)]) {
      var i :| 0 <= i < |files| && files[i] == r;
      assert PutBack(start, tree, files[i]);
    }
    forall r | r in unrestored ensures At(Staged, r) in original && Holds(tree, r, original[At(Staged, r)]) {
      assert Swapped(start, tree, r);
    }
  }
}
