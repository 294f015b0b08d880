/**
 Prepared before/after file plans: conflict detection, replay and reverse rollback.

 A Workspace is mutated one file at a time. Every write or removal may be reported as failed by the
 host, leaving anything at that one path; `faults` lists the outcomes of the coming calls.
 */
module PreparedCommit {
  import opened Wrappers
  import opened Files

  datatype Mutation<C> = Write(path: Path, content: C) | Delete(path: Path) {
    function After(): Option<C> {
      match this
      case Write(_, content) => Some(content)
      case Delete(_) => None
    }
  }

  datatype PreparedFile<C> = PreparedFile(path: Path, before: Option<C>, after: Option<C>)
  datatype Plan<C> = Plan(version: nat, files: seq<PreparedFile<C>>)

  datatype Snapshot<C> = Snapshot(version: nat, files: Tree<C>)

  datatype PlanError =
    | UnsupportedVersion
    | InvalidProvenance
    | UnsafeTarget(path: Path)
    | DuplicateTarget
    | Conflict(path: Path)
    | IoFailed                              // the commit failed and the rollback succeeded
    | RollbackFailed(unrestored: seq<Path>) // these paths could not be restored

  datatype Fault<C> = Works | Breaks(left: Option<C>)

  // How many of the coming calls fail.
  function Broken<C>(faults: seq<Fault<C>>): nat {
    if faults == [] then 0 else Broken(faults[1..]) + if faults[0].Works? then 0 else 1
  }

  // ---- What a list of mutations and a plan mean ----

  function ApplyAll<C>(tree: Tree<C>, mutations: seq<Mutation<C>>): Tree<C>
  {
    if mutations == [] then tree
    else
      var last := mutations[|mutations| - 1];
      Put(ApplyAll(tree, mutations[..|mutations| - 1]), last.path, last.After())
  }

  predicate DistinctTargets<C>(mutations: seq<Mutation<C>>) {
    forall i, j :: 0 <= i < j < |mutations| ==> mutations[i].path != mutations[j].path
  }

  // A deletion only succeeds on a file that is there.
  predicate DeletesExist<C(==)>(tree: Tree<C>, mutations: seq<Mutation<C>>) {
    forall m | m in mutations :: m.Delete? ==> m.path in tree
  }

  predicate DistinctFiles<C>(files: seq<PreparedFile<C>>) {
    forall i, j :: 0 <= i < j < |files| ==> files[i].path != files[j].path
  }

  predicate WellFormed<C(==)>(plan: Plan<C>) {
    && plan.version == 1
    && DistinctFiles(plan.files)
    && forall f | f in plan.files :: SafePath(f.path)
  }

  function Targets<C(==)>(files: seq<PreparedFile<C>>): set<Path> {
    set f | f in files :: f.path
  }

  // Each target holds its before-image or already its after-image.
  predicate Replayable<C(==)>(tree: Tree<C>, files: seq<PreparedFile<C>>) {
    forall f | f in files :: Look(tree, f.path) == f.before || Look(tree, f.path) == f.after
  }

  // Exactly the after-images on the targets, everything else as in `tree`.
  ghost predicate HoldsAfterImages<C(!new)>(tree: Tree<C>, files: seq<PreparedFile<C>>, result: Tree<C>) {
    && (forall f | f in files :: Look(result, f.path) == f.after)
    && SameExcept(tree, result, Targets(files))
  }

  // A state that a partial application of the plan to `start` can leave behind.
  ghost predicate Between<C(!new)>(start: Tree<C>, tree: Tree<C>, files: seq<PreparedFile<C>>) {
    && SameExcept(start, tree, Targets(files))
    && forall f | f in files :: Look(tree, f.path) == Look(start, f.path) || Look(tree, f.path) == f.after
  }

  // The mutations a replay still has to do.
  function Pending<C(==)>(tree: Tree<C>, files: seq<PreparedFile<C>>): seq<Mutation<C>> {
    if files == [] then []
    else
      var rest := Pending(tree, files[..|files| - 1]);
      var last := files[|files| - 1];
      if Look(tree, last.path) == last.after then rest
      else rest + [match last.after
                   case Some(content) => Write(last.path, content)
                   case None => Delete(last.path)]
  }

  // ---- Lemmas about mutations ----

  lemma {:induction false} ApplyAllLooks<C(!new)>(tree: Tree<C>, mutations: seq<Mutation<C>>)
    requires DistinctTargets(mutations)
    ensures forall m | m in mutations :: Look(ApplyAll(tree, mutations), m.path) == m.After()
    ensures SameExcept(tree, ApplyAll(tree, mutations), set m | m in mutations :: m.path)
  {
    if mutations != [] {
      var init, last := mutations[..|mutations| - 1], mutations[|mutations| - 1];
      ApplyAllLooks(tree, init);
      assert mutations == init + [last];
      forall m | m in mutations
        ensures Look(ApplyAll(tree, mutations), m.path) == m.After()
      {
        LookPut(ApplyAll(tree, init), last.path, last.After(), m.path);
      }
      forall p | p !in (set m | m in mutations :: m.path)
        ensures Look(tree, p) == Look(ApplyAll(tree, mutations), p)
      {
        assert last in mutations;
        assert p !in (set m | m in init :: m.path);
        LookPut(ApplyAll(tree, init), last.path, last.After(), p);
      }
    }
  }

  // While a prefix is applied, the next target and everything past it is untouched.
  lemma PrefixLooks<C(!new)>(tree: Tree<C>, mutations: seq<Mutation<C>>, count: nat)
    requires DistinctTargets(mutations) && count < |mutations|
    ensures Look(ApplyAll(tree, mutations[..count]), mutations[count].path) == Look(tree, mutations[count].path)
    ensures SameExcept(tree, ApplyAll(tree, mutations[..count]), set m | m in mutations[..count] :: m.path)
    ensures (set m | m in mutations[..count + 1] :: m.path)
         == (set m | m in mutations[..count] :: m.path) + {mutations[count].path}
  {
    ApplyAllLooks(tree, mutations[..count]);
    assert mutations[..count + 1] == mutations[..count] + [mutations[count]];
    assert mutations[count].path !in (set m | m in mutations[..count] :: m.path);
  }

  function Needed<C>(file: PreparedFile<C>): (m: Mutation<C>)
    ensures m.path == file.path && m.After() == file.after
  {
    match file.after
    case Some(content) => Write(file.path, content)
    case None => Delete(file.path)
  }

  lemma PendingMore<C(!new)>(tree: Tree<C>, files: seq<PreparedFile<C>>)
    requires files != []
    ensures var init, last := files[..|files| - 1], files[|files| - 1];
            && files == init + [last]
            && Pending(tree, files) == Pending(tree, init) +
              if Look(tree, last.path) == last.after then [] else [Needed(last)]
  {
  }

  ghost predicate IsPending<C(!new)>(tree: Tree<C>, files: seq<PreparedFile<C>>, m: Mutation<C>) {
    exists f :: f in files && f.path == m.path && f.after == m.After() && Look(tree, f.path) != f.after
  }

  lemma {:induction false} PendingFrom<C(!new)>(tree: Tree<C>, files: seq<PreparedFile<C>>, m: Mutation<C>)
    requires m in Pending(tree, files)
    ensures IsPending(tree, files, m)
  {
    PendingMore(tree, files);
    var init, last := files[..|files| - 1], files[|files| - 1];
    if m in Pending(tree, init) {
      PendingFrom(tree, init, m);
      var f :| f in init && f.path == m.path && f.after == m.After() && Look(tree, f.path) != f.after;
      assert f in files;
    } else {
      assert m == Needed(last) && last in files;
    }
  }

  lemma {:induction false} PendingCovers<C(!new)>(tree: Tree<C>, files: seq<PreparedFile<C>>, f: PreparedFile<C>)
    requires f in files && Look(tree, f.path) != f.after
    ensures exists m :: m in Pending(tree, files) && m.path == f.path
  {
    PendingMore(tree, files);
    var init, last := files[..|files| - 1], files[|files| - 1];
    if f in init {
      PendingCovers(tree, init, f);
      var m :| m in Pending(tree, init) && m.path == f.path;
      assert m in Pending(tree, files);
    } else {
      assert Needed(last) in Pending(tree, files);
    }
  }

  lemma {:induction false} PendingDistinct<C(!new)>(tree: Tree<C>, files: seq<PreparedFile<C>>)
    requires DistinctFiles(files)
    ensures DistinctTargets(Pending(tree, files))
  {
    if files != [] {
      PendingMore(tree, files);
      var init, last := files[..|files| - 1], files[|files| - 1];
      PendingDistinct(tree, init);
      forall m | m in Pending(tree, init) ensures m.path != last.path {
        PendingFrom(tree, init, m);
        var f :| f in init && f.path == m.path;
      }
    }
  }

  lemma PendingTargets<C(!new)>(tree: Tree<C>, files: seq<PreparedFile<C>>)
    requires DistinctFiles(files)
    ensures DistinctTargets(Pending(tree, files))
    ensures forall m | m in Pending(tree, files) :: IsPending(tree, files, m)
    ensures forall f | f in files ::
              Look(tree, f.path) == f.after || exists m :: m in Pending(tree, files) && m.path == f.path
  {
    PendingDistinct(tree, files);
    forall m | m in Pending(tree, files) ensures IsPending(tree, files, m) {
      PendingFrom(tree, files, m);
    }
    forall f | f in files && Look(tree, f.path) != f.after
      ensures exists m :: m in Pending(tree, files) && m.path == f.path {
      PendingCovers(tree, files, f);
    }
  }

  // Any prefix of the pending work keeps the plan between its start and its after-images.
  lemma {:induction false} PartialStaysBetween<C(!new)
    >(start: Tree<C>, tree: Tree<C>, files: seq<PreparedFile<C>>, count: nat)
    requires DistinctFiles(files) && Between(start, tree, files)
    requires count <= |Pending(tree, files)|
    ensures Between(start, ApplyAll(tree, Pending(tree, files)[..count]), files)
  {
    PendingDistinct(tree, files);
    var done := Pending(tree, files)[..count];
    ApplyAllLooks(tree, done);
    var result := ApplyAll(tree, done);
    DoneStaysInside(tree, files, done, result);
    forall f | f in files ensures Look(result, f.path) == Look(start, f.path) || Look(result, f.path) == f.after {
      assert Look(tree, f.path) == Look(start, f.path) || Look(tree, f.path) == f.after;
    }
  }

  lemma DoneStaysInside<C(!new)>(tree: Tree<C>, files: seq<PreparedFile<C>>, done: seq<Mutation<C>>, result: Tree<C>)
    requires DistinctFiles(files) && forall m | m in done :: m in Pending(tree, files)
    requires forall m | m in done :: Look(result, m.path) == m.After()
    requires SameExcept(tree, result, set m | m in done :: m.path)
    ensures SameExcept(tree, result, Targets(files))
    ensures forall f | f in files :: Look(result, f.path) == Look(tree, f.path) || Look(result, f.path) == f.after
  {
    forall m | m in done ensures exists f :: f in files && f.path == m.path && f.after == m.After() {
      PendingFrom(tree, files, m);
    }
    forall p | p !in Targets(files) ensures Look(tree, p) == Look(result, p) {
      assert p !in (set m | m in done :: m.path);
    }
    forall f | f in files ensures Look(result, f.path) == Look(tree, f.path) || Look(result, f.path) == f.after {
      if m :| m in done && m.path == f.path {
        var g :| g in files && g.path == m.path && g.after == m.After();
        assert g == f;
      } else {
        assert f.path !in (set m | m in done :: m.path);
      }
    }
  }

  lemma BetweenReplayable<C(!new)>(start: Tree<C>, tree: Tree<C>, files: seq<PreparedFile<C>>)
    requires Replayable(start, files) && Between(start, tree, files)
    ensures Replayable(tree, files)
  {
  }

  lemma WorkSpares<C(!new)>(tree: Tree<C>, work: seq<Mutation<C>>, path: Path)
    requires DistinctTargets(work) && forall m | m in work :: m.path != path
    ensures Look(ApplyAll(tree, work), path) == Look(tree, path)
  {
    ApplyAllLooks(tree, work);
    assert path !in (set m | m in work :: m.path);
  }

  lemma PendingAvoids<C(!new)>(tree: Tree<C>, files: seq<PreparedFile<C>>, path: Path)
    requires path !in Targets(files)
    ensures forall m | m in Pending(tree, files) :: m.path != path
  {
    forall m | m in Pending(tree, files) ensures m.path != path {
      PendingFrom(tree, files, m);
    }
  }

  lemma PendingSpares<C(!new)>(tree: Tree<C>, files: seq<PreparedFile<C>>, path: Path)
    requires DistinctFiles(files) && path !in Targets(files)
    ensures Look(ApplyAll(tree, Pending(tree, files)), path) == Look(tree, path)
  {
    PendingDistinct(tree, files);
    PendingAvoids(tree, files, path);
    WorkSpares(tree, Pending(tree, files), path);
  }

  lemma {:induction false} PendingWrites<C(!new)>(tree: Tree<C>, files: seq<PreparedFile<C>>, file: PreparedFile<C>)
    requires DistinctFiles(files) && file in files
    ensures Look(ApplyAll(tree, Pending(tree, files)), file.path) == file.after
  {
    var init, last := files[..|files| - 1], files[|files| - 1];
    assert files == init + [last];
    var rest, work := Pending(tree, init), Pending(tree, files);
    if file == last {
      assert last.path !in Targets(init);
      PendingSpares(tree, init, last.path);
    } else {
      PendingWrites(tree, init, file);
    }
    if Look(tree, last.path) != last.after {
      assert work[..|work| - 1] == rest;
      LookPut(ApplyAll(tree, rest), last.path, last.after, file.path);
    }
  }

  // Running all pending work lands exactly on the after-images.
  lemma PendingReachesAfter<C(!new)>(tree: Tree<C>, files: seq<PreparedFile<C>>)
    requires DistinctFiles(files)
    ensures HoldsAfterImages(tree, files, ApplyAll(tree, Pending(tree, files)))
  {
    forall f | f in files ensures Look(ApplyAll(tree, Pending(tree, files)), f.path) == f.after {
      PendingWrites(tree, files, f);
    }
    forall p | p !in Targets(files) ensures Look(tree, p) == Look(ApplyAll(tree, Pending(tree, files)), p) {
      PendingSpares(tree, files, p);
    }
  }

  // The after-images determine the final tree, wherever between start and end it was reached from.
  lemma AfterImagesUnique<C(!new)
    >(start: Tree<C>, tree: Tree<C>, files: seq<PreparedFile<C>>, left: Tree<C>, right: Tree<C>)
    requires Between(start, tree, files)
    requires HoldsAfterImages(start, files, left) && HoldsAfterImages(tree, files, right)
    ensures left == right
  {
    forall p ensures Look(left, p) == Look(right, p) {
      if p in Targets(files) {
        var f :| f in files && f.path == p;
      }
    }
    LookDeterminesTree(left, right);
  }

  // ---- Crash schedules ----

  // The tree after a series of interrupted replays; each entry says how many files one attempt reached.
  function Interrupted<C(==)>(tree: Tree<C>, files: seq<PreparedFile<C>>, attempts: seq<nat>): Tree<C> {
    if attempts == [] then tree
    else
      var before := Interrupted(tree, files, attempts[..|attempts| - 1]);
      var work := Pending(before, files);
      var reached := attempts[|attempts| - 1];
      ApplyAll(before, if reached <= |work| then work[..reached] else work)
  }

  /** However often an application is interrupted, the replay never meets a conflict and one
      uninterrupted replay ends where a single application would have ended. */
  lemma {:induction false} ReplayEqualsOneApplication<C(!new)>(tree: Tree<C>, plan: Plan<C>, attempts: seq<nat>)
    requires WellFormed(plan) && Replayable(tree, plan.files)
    ensures var reached := Interrupted(tree, plan.files, attempts);
            && Between(tree, reached, plan.files)
            && Replayable(reached, plan.files)
            && ApplyAll(reached, Pending(reached, plan.files)) == ApplyAll(tree, Pending(tree, plan.files))
  {
    var files := plan.files;
    InterruptedBetween(tree, files, attempts);
    var reached := Interrupted(tree, files, attempts);
    BetweenReplayable(tree, reached, files);
    PendingReachesAfter(tree, files);
    PendingReachesAfter(reached, files);
    AfterImagesUnique(tree, reached, files,
                      ApplyAll(tree, Pending(tree, files)), ApplyAll(reached, Pending(reached, files)));
  }

  lemma {:induction false} InterruptedBetween<C(!new)>(tree: Tree<C>, files: seq<PreparedFile<C>>, attempts: seq<nat>)
    requires DistinctFiles(files)
    ensures Between(tree, Interrupted(tree, files, attempts), files)
  {
    if attempts != [] {
      var before := Interrupted(tree, files, attempts[..|attempts| - 1]);
      InterruptedBetween(tree, files, attempts[..|attempts| - 1]);
      var work := Pending(before, files);
      var reached := attempts[|attempts| - 1];
      PartialStaysBetween(tree, before, files, if reached <= |work| then reached else |work|);
      assert work[..|work|] == work;
    }
  }

  // ---- Snapshot plans ----

  // The plan replaces `current` by `wanted`, naming exactly the files that differ.
  ghost predicate ReplacesTree<C(!new)>(current: Tree<C>, wanted: Tree<C>, plan: Plan<C>) {
    && WellFormed(plan)
    && (forall f | f in plan.files ::
          f.before == Look(current, f.path) && f.after == Look(wanted, f.path) && f.before != f.after)
    && (forall p :: Look(current, p) != Look(wanted, p) ==> p in Targets(plan.files))
  }

  /** Applying a snapshot plan, from any interrupted state of itself, makes the tree equal the snapshot. */
  lemma SnapshotPlanRestores<C(!new)>(current: Tree<C>, wanted: Tree<C>, plan: Plan<C>, tree: Tree<C>)
    requires ReplacesTree(current, wanted, plan)
    requires Between(current, tree, plan.files)
    ensures Replayable(tree, plan.files)
    ensures ApplyAll(tree, Pending(tree, plan.files)) == wanted
  {
    PendingReachesAfter(tree, plan.files);
    var result := ApplyAll(tree, Pending(tree, plan.files));
    forall p ensures Look(result, p) == Look(wanted, p) {
      if p in Targets(plan.files) {
        var f :| f in plan.files && f.path == p;
      } else {
        assert Look(result, p) == Look(tree, p) == Look(current, p);
      }
    }
    LookDeterminesTree(result, wanted);
  }

  predicate Admissible<C>(snapshot: Snapshot<C>, validProvenance: Tree<C> -> bool) {
    snapshot.version == 1 && validProvenance(snapshot.files) && forall p | p in snapshot.files :: SafePath(p)
  }

  // ---- The workspace ----

  class Workspace<C(==,!new)> {
    var files: Tree<C>
    var faults: seq<Fault<C>>

    constructor (files: Tree<C>, faults: seq<Fault<C>>)
      ensures this.files == files && this.faults == faults
    {
      this.files := files;
      this.faults := faults;
    }

    // One host write. Only the named path can change.
    method WriteFile(path: Path, content: C) returns (ok: bool)
      modifies this
      ensures ok ==> files == old(files)[path := content]
      ensures SameExcept(old(files), files, {path})
      ensures old(faults) == [] ==> ok && faults == []
      ensures faults == if old(faults) == [] then [] else old(faults)[1..]
      ensures old(faults) != [] ==> (ok <==> old(faults)[0].Works?)
      ensures Broken(old(faults)) == Broken(faults) + if ok then 0 else 1
    {
      var fault := Works;
      if faults != [] {
        fault, faults := faults[0], faults[1..];
      }
      match fault {
        case Works => files := files[path := content]; ok := true;
        case Breaks(left) => files := Put(files, path, left); ok := false;
      }
    }

    // One host removal; removing a missing file is an error that changes nothing.
    method RemoveFile(path: Path) returns (ok: bool)
      modifies this
      ensures ok ==> path in old(files) && files == old(files) - {path}
      ensures SameExcept(old(files), files, {path})
      ensures old(faults) == [] ==> (ok <==> path in old(files)) && faults == []
      ensures Broken(old(faults)) == Broken(faults) + if ok || path !in old(files) then 0 else 1
    {
      if path !in files {
        return false;
      }
      var fault := Works;
      if faults != [] {
        fault, faults := faults[0], faults[1..];
      }
      match fault {
        case Works => files := files - {path}; ok := true;
        case Breaks(left) => files := Put(files, path, left); ok := false;
      }
    }

    // Put one file back to its recorded image; a file that should be absent may already be.
    method RestoreFile(path: Path, image: Option<C>) returns (ok: bool)
      modifies this
      ensures ok ==> files == Put(old(files), path, image)
      ensures SameExcept(old(files), files, {path})
      ensures Broken(old(faults)) == Broken(faults) + if ok then 0 else 1
      ensures old(faults) == [] ==> ok && faults == []
    {
      match image {
        case Some(content) => ok := WriteFile(path, content);
        case None =>
          if path !in files {
            ok := true;
            assert files - {path} == files;
          } else {
            ok := RemoveFile(path);
          }
      }
    }

    method Perform(mutation: Mutation<C>) returns (ok: bool)
      modifies this
      ensures ok ==> files == Put(old(files), mutation.path, mutation.After())
      ensures ok && mutation.Delete? ==> mutation.path in old(files)
      ensures SameExcept(old(files), files, {mutation.path})
      ensures old(faults) == [] ==> (ok <==> (mutation.Delete? ==> mutation.path in old(files))) && faults == []
      ensures Broken(old(faults)) == Broken(faults)
                + if ok || (mutation.Delete? && mutation.path !in old(files)) then 0 else 1
    {
      match mutation {
        case Write(path, content) => ok := WriteFile(path, content);
        case Delete(path) => ok := RemoveFile(path);
      }
    }

    /** Applies the mutations in order and undoes them in reverse when one fails. */
    method CommitMutations(mutations: seq<Mutation<C>>) returns (r: Result<(), PlanError>)
      modifies this
      ensures r.Ok? ==> DistinctTargets(mutations) && DeletesExist(old(files), mutations)
      ensures r.Ok? ==> files == ApplyAll(old(files), mutations)
      ensures r.Err? ==> r.error.DuplicateTarget? || r.error.IoFailed? || r.error.RollbackFailed?
      ensures r == Err(DuplicateTarget) <==> !DistinctTargets(mutations)
      ensures SameExcept(old(files), files, set m | m in mutations :: m.path)
      ensures r == Err(DuplicateTarget) || r == Err(IoFailed) ==> files == old(files)
      ensures r.Err? && r.error.RollbackFailed? ==>
                && r.error.unrestored != []
                && (forall p | p in r.error.unrestored :: exists m :: m in mutations && m.path == p)
                && SameExcept(old(files), files, set p | p in r.error.unrestored)
      ensures r.Err? && r.error.RollbackFailed? ==>
                |r.error.unrestored| + (if DeletesExist(old(files), mutations) then 1 else 0) <= Broken(old(faults))
      ensures old(faults) == [] && DistinctTargets(mutations) && DeletesExist(old(files), mutations) ==> r.Ok?
      ensures old(faults) == [] ==> faults == []
    {
      var images := RecordImages(mutations);
      if images.Err? {
        return Err(images.error);
      }
      for i := 0 to |mutations|
        invariant files == ApplyAll(old(files), mutations[..i])
        invariant old(faults) == [] ==> faults == []
        invariant Broken(faults) <= Broken(old(faults))
        invariant DeletesExist(old(files), mutations[..i])
      {
        ghost var prefix, rest := mutations[..i], faults;
        PrefixLooks(old(files), mutations, i);
        var ok := Perform(mutations[i]);
        if !ok {
          assert DeletesExist(old(files), mutations) ==> Broken(faults) < Broken(rest) by {
            assert mutations[i] in mutations;
          }
          r := RollBack(mutations, images.value, i, old(files));
          return;
        }
        assert mutations[..i + 1] == prefix + [mutations[i]];
        assert mutations[..i + 1][..i] == prefix;
      }
      assert mutations[..|mutations|] == mutations;
      ApplyAllLooks(old(files), mutations);
      return Ok(());
    }

    // Reads every target once, refusing a repeated one.
    method RecordImages(mutations: seq<Mutation<C>>) returns (r: Result<seq<Option<C>>, PlanError>)
      ensures r.Ok? <==> DistinctTargets(mutations)
      ensures r.Err? ==> r.error == DuplicateTarget
      ensures r.Ok? ==>
                && |r.value| == |mutations|
                && forall k :: 0 <= k < |mutations| ==> r.value[k] == Look(files, mutations[k].path)
    {
      var unique: set<Path> := {};
      var images: seq<Option<C>> := [];
      for i := 0 to |mutations|
        invariant |images| == i
        invariant forall k :: 0 <= k < i ==> images[k] == Look(files, mutations[k].path)
        invariant unique == set m | m in mutations[..i] :: m.path
        invariant DistinctTargets(mutations[..i])
      {
        if mutations[i].path in unique {
          var m :| m in mutations[..i] && m.path == mutations[i].path;
          return Err(DuplicateTarget);
        }
        unique := unique + {mutations[i].path};
        images := images + [Look(files, mutations[i].path)];
        assert mutations[..i + 1] == mutations[..i] + [mutations[i]];
      }
      assert mutations[..|mutations|] == mutations;
      return Ok(images);
    }

    // Restores mutations i, i - 1, ..., 0 and reports the paths it could not restore.
    method RollBack(mutations: seq<Mutation<C>>, images: seq<Option<C>>, failed: nat, ghost start: Tree<C>)
      returns (r: Result<(), PlanError>)
      requires failed < |mutations| == |images|
      requires DistinctTargets(mutations)
      requires forall k :: 0 <= k < |images| ==> images[k] == Look(start, mutations[k].path)
      requires SameExcept(start, files, set m | m in mutations[..failed + 1] :: m.path)
      modifies this
      ensures r.Err?
      ensures r.error == IoFailed || r.error.RollbackFailed?
      ensures r.error.RollbackFailed? ==> |r.error.unrestored| <= Broken(old(faults))
      ensures old(faults) == [] ==> faults == []
      ensures r.error == IoFailed ==> files == start
      ensures r.error.RollbackFailed? ==>
                && r.error.unrestored != []
                && (forall p | p in r.error.unrestored :: exists m :: m in mutations && m.path == p)
                && SameExcept(start, files, set p | p in r.error.unrestored)
    {
      var unrestored: seq<Path> := [];
      var next := failed + 1;
      while next > 0
        invariant 0 <= next <= failed + 1
        invariant forall p | p in unrestored :: exists m :: m in mutations && m.path == p
        invariant |unrestored| + Broken(faults) == Broken(old(faults)) && (old(faults) == [] ==> faults == [])
        invariant SameExcept(start, files, (set m | m in mutations[..next] :: m.path) + set p | p in unrestored)
      {
        next := next - 1;
        var mutation := mutations[next];
        assert mutations[..next + 1] == mutations[..next] + [mutation];
        assert mutation in mutations;
        ghost var before := files;
        var ok := RestoreFile(mutation.path, images[next]);
        if !ok {
          unrestored := unrestored + [mutation.path];
        }
        forall p | p !in (set m | m in mutations[..next] :: m.path) + (set p | p in unrestored)
          ensures Look(start, p) == Look(files, p)
        {
          if p == mutation.path {
            assert ok;
            LookPut(before, p, images[next], p);
          } else {
            assert p !in (set m | m in mutations[..next + 1] :: m.path);
          }
        }
      }
      if unrestored == [] {
        LookDeterminesTree(start, files);
        return Err(IoFailed);
      }
      return Err(RollbackFailed(unrestored));
    }

    /** Freezes before- and after-images of the mutations without changing any file. */
    method Prepare(mutations: seq<Mutation<C>>) returns (r: Result<Plan<C>, PlanError>)
      ensures r.Ok? <==> DistinctTargets(mutations) && forall m | m in mutations :: SafePath(m.path)
      ensures r.Ok? ==>
                && WellFormed(r.value)
                && |r.value.files| == |mutations|
                && forall i :: 0 <= i < |mutations| ==>
                     r.value.files[i] == PreparedFile(mutations[i].path, Look(files, mutations[i].path),
                       mutations[i].After())
    {
      var prepared: seq<PreparedFile<C>> := [];
      var seen: set<Path> := {};
      for i := 0 to |mutations|
        invariant |prepared| == i
        invariant seen == set m | m in mutations[..i] :: m.path
        invariant DistinctTargets(mutations[..i])
        invariant forall k :: 0 <= k < i ==>
                    prepared[k] == PreparedFile(mutations[k].path, Look(files, mutations[k].path), mutations[k].After())
        invariant forall m | m in mutations[..i] :: SafePath(m.path)
      {
        var mutation := mutations[i];
        if !SafePath(mutation.path) {
          assert mutation in mutations;
          return Err(UnsafeTarget(mutation.path));
        }
        if mutation.path in seen {
          var m :| m in mutations[..i] && m.path == mutation.path;
          return Err(DuplicateTarget);
        }
        seen := seen + {mutation.path};
        prepared := prepared + [PreparedFile(mutation.path, Look(files, mutation.path), mutation.After())];
        assert mutations[..i + 1] == mutations[..i] + [mutation];
      }
      assert mutations[..|mutations|] == mutations;
      return Ok(Plan(1, prepared));
    }

    /** Replays a durable plan: all targets are validated before the first write. */
    method ApplyPreparedCommit(plan: Plan<C>) returns (r: Result<(), PlanError>)
      modifies this
      ensures r.Ok? ==>
                && WellFormed(plan)
                && Replayable(old(files), plan.files)
                && files == ApplyAll(old(files), Pending(old(files), plan.files))
                && HoldsAfterImages(old(files), plan.files, files)
      ensures r.Err? && !r.error.RollbackFailed? ==> files == old(files)
      ensures r.Err? && r.error.Conflict? ==>
                exists f :: f in plan.files && f.path == r.error.path
                            && Look(files, f.path) != f.before && Look(files, f.path) != f.after
      ensures old(faults) == [] ==> (r.Ok? <==> WellFormed(plan) && Replayable(old(files), plan.files))
      ensures WellFormed(plan) && !Replayable(old(files), plan.files) ==> r.Err? && r.error.Conflict?
      ensures SameExcept(old(files), files, Targets(plan.files))
      ensures r.Err? && r.error.RollbackFailed? ==>
                SameExcept(old(files), files, set p | p in r.error.unrestored)
                && 0 < |r.error.unrestored| < Broken(old(faults))
      ensures old(faults) == [] ==> faults == []
    {
      if plan.version != 1 {
        return Err(UnsupportedVersion);
      }
      var seen: set<Path> := {};
      var mutations: seq<Mutation<C>> := [];
      for i := 0 to |plan.files|
        invariant files == old(files) && faults == old(faults)
        invariant seen == Targets(plan.files[..i])
        invariant DistinctFiles(plan.files[..i])
        invariant forall f | f in plan.files[..i] :: SafePath(f.path)
        invariant Replayable(files, plan.files[..i])
        invariant mutations == Pending(files, plan.files[..i])
      {
        var file := plan.files[i];
        assert file in plan.files;
        if !SafePath(file.path) {
          return Err(UnsafeTarget(file.path));
        }
        if file.path in seen {
          var f :| f in plan.files[..i] && f.path == file.path;
          return Err(DuplicateTarget);
        }
        seen := seen + {file.path};
        var current := Look(files, file.path);
        assert plan.files[..i + 1] == plan.files[..i] + [file];
        assert plan.files[..i + 1][..i] == plan.files[..i];
        if current == file.after {
          continue;
        }
        if current != file.before {
          return Err(Conflict(file.path));
        }
        mutations := mutations + [match file.after case Some(content) => Write(file.path,
          content) case None => Delete(file.path)];
      }
      assert plan.files[..|plan.files|] == plan.files;
      PendingTargets(files, plan.files);
      PendingReachesAfter(files, plan.files);
      forall m | m in mutations && m.Delete? ensures m.path in files {
        var f :| f in plan.files && f.path == m.path && f.after == m.After() && Look(files, f.path) != f.after;
      }
      assert (set m | m in mutations :: m.path) <= Targets(plan.files);
      r := CommitMutations(mutations);
    }

    /** The mutations that turn the current files into the snapshot, frozen as a plan. */
    method PrepareSnapshotCommit(snapshot: Snapshot<C>, validProvenance: Tree<C> -> bool)
      returns (r: Result<Plan<C>, PlanError>)
      requires forall p | p in files :: SafePath(p)
      ensures r.Ok? <==> Admissible(snapshot, validProvenance)
      ensures r.Ok? ==> ReplacesTree(files, snapshot.files, r.value)
    {
      if snapshot.version != 1 {
        return Err(UnsupportedVersion);
      }
      if !validProvenance(snapshot.files) {
        return Err(InvalidProvenance);
      }
      var mutations: seq<Mutation<C>> := [];
      var todo := snapshot.files.Keys;
      while todo != {}
        invariant todo <= snapshot.files.Keys
        invariant forall p | p in snapshot.files && p !in todo :: SafePath(p)
        invariant DistinctTargets(mutations)
        invariant forall m | m in mutations ::
                    m.path in snapshot.files && m.path !in todo && m.After() == Look(snapshot.files, m.path)
                    && Look(files, m.path) != m.After()
        invariant forall p | p in snapshot.files && p !in todo ::
                    Look(files, p) == Look(snapshot.files, p) || exists m :: m in mutations && m.path == p
      {
        var path :| path in todo;
        if !SafePath(path) {
          return Err(UnsafeTarget(path));
        }
        todo := todo - {path};
        if Look(files, path) != Some(snapshot.files[path]) {
          var added := Write(path, snapshot.files[path]);
          ghost var before := mutations;
          mutations := mutations + [added];
          assert added in mutations;
          assert forall m | m in before :: m in mutations;
        }
      }
      var stale := files.Keys - snapshot.files.Keys;
      while stale != {}
        invariant stale <= files.Keys - snapshot.files.Keys
        invariant DistinctTargets(mutations)
        invariant forall m | m in mutations ::
                    m.path !in stale && m.After() == Look(snapshot.files, m.path) && Look(files, m.path) != m.After()
                    && SafePath(m.path)
        invariant forall p | p !in stale ::
                    Look(files, p) == Look(snapshot.files, p) || exists m :: m in mutations && m.path == p
      {
        var path :| path in stale;
        stale := stale - {path};
        var added := Delete(path);
        ghost var before := mutations;
        mutations := mutations + [added];
        assert added in mutations;
        assert forall m | m in before :: m in mutations;
      }
      r := Prepare(mutations);
      if r.Ok? {
        forall f | f in r.value.files
          ensures f.before == Look(files, f.path) && f.after == Look(snapshot.files, f.path) && f.before != f.after
        {
          var i :| 0 <= i < |r.value.files| && r.value.files[i] == f;
          assert mutations[i] in mutations;
        }
        forall p | Look(files, p) != Look(snapshot.files, p) ensures p in Targets(r.value.files) {
          var m :| m in mutations && m.path == p;
          var i :| 0 <= i < |mutations| && mutations[i] == m;
          assert r.value.files[i] in r.value.files;
        }
      }
    }

    /** Replaces every file by the snapshot: removals first, then one write per file. */
    method ImportSnapshot(snapshot: Snapshot<C>, validProvenance: Tree<C> -> bool)
      returns (r: Result<(), PlanError>)
      requires forall p | p in files :: SafePath(p)
      modifies this
      ensures r.Ok? ==> Admissible(snapshot, validProvenance) && files == snapshot.files
      ensures !Admissible(snapshot, validProvenance) ==> r.Err? && files == old(files)
      ensures old(faults) == [] ==> (r.Ok? <==> Admissible(snapshot, validProvenance)) && faults == []
      ensures forall p | p in files :: SafePath(p)
    {
      if !validProvenance(snapshot.files) {
        return Err(InvalidProvenance);
      }
      if snapshot.version != 1 {
        return Err(UnsupportedVersion);
      }
      if exists p | p in snapshot.files.Keys :: !SafePath(p) {
        var path :| path in snapshot.files.Keys && !SafePath(path);
        return Err(UnsafeTarget(path));
      }
      var stale := files.Keys;
      while stale != {}
        invariant files.Keys == stale
        invariant forall p | p in files :: SafePath(p)
        invariant old(faults) == [] ==> faults == []
      {
        var path :| path in stale;
        ghost var before := files;
        var ok := RemoveFile(path);
        if !ok {
          assert forall p | p in files :: p == path || Look(files, p) == Look(before, p);
          return Err(IoFailed);
        }
        stale := stale - {path};
      }
      var todo := snapshot.files.Keys;
      while todo != {}
        invariant todo <= snapshot.files.Keys
        invariant files.Keys == snapshot.files.Keys - todo
        invariant forall p | p in files :: files[p] == snapshot.files[p]
        invariant old(faults) == [] ==> faults == []
      {
        var path :| path in todo;
        ghost var before := files;
        var ok := WriteFile(path, snapshot.files[path]);
        if !ok {
          assert forall p | p in files :: p == path || Look(files, p) == Look(before, p);
          return Err(IoFailed);
        }
        todo := todo - {path};
      }
      return Ok(());
    }

    /** Adds the bootstrap files that are missing and never touches one that exists. */
    method InitializeLayout(defaults: Tree<C>) returns (r: Result<(), PlanError>)
      requires forall p | p in files :: SafePath(p)
      requires forall p | p in defaults :: SafePath(p)
      modifies this
      ensures r.Ok? ==> files == defaults + old(files)
      ensures old(faults) == [] ==> r.Ok? && faults == []
      ensures defaults.Keys <= old(files).Keys ==> r.Ok? && files == old(files)
      ensures forall p | p in files :: SafePath(p)
    {
      var todo := defaults.Keys;
      while todo != {}
        invariant todo <= defaults.Keys
        invariant files.Keys == old(files).Keys + (defaults.Keys - todo)
        invariant forall p | p in files :: files[p] == if p in old(files) then old(files)[p] else defaults[p]
        invariant forall p | p in files :: SafePath(p)
        invariant old(faults) == [] ==> faults == []
        invariant defaults.Keys <= old(files).Keys ==> files == old(files)
      {
        var path :| path in todo;
        todo := todo - {path};
        if path !in files {
          ghost var before := files;
          var ok := WriteFile(path, defaults[path]);
          if !ok {
            assert forall p | p in files :: p == path || Look(files, p) == Look(before, p);
            return Err(IoFailed);
          }
        }
      }
      return Ok(());
    }

    /** Commits only the files that differ from the snapshot, through a prepared plan. */
    method Materialize(snapshot: Snapshot<C>, validProvenance: Tree<C> -> bool) returns (ok: bool)
      requires forall p | p in files :: SafePath(p)
      modifies this
      ensures ok ==> Admissible(snapshot, validProvenance) && files == snapshot.files
      ensures old(faults) == [] ==> (ok <==> Admissible(snapshot, validProvenance)) && faults == []
      ensures forall p | p in files :: SafePath(p)
    {
      ghost var start := files;
      var plan := PrepareSnapshotCommit(snapshot, validProvenance);
      if plan.Err? {
        return false;
      }
      SnapshotPlanRestores(start, snapshot.files, plan.value, start);
      var applied := ApplyPreparedCommit(plan.value);
      ok := applied.Ok?;
      if !ok {
        forall p | p in files ensures SafePath(p) {
          if p !in Targets(plan.value.files) {
            assert Look(start, p) == Look(files, p);
          } else {
            var f :| f in plan.value.files && f.path == p;
          }
        }
      }
    }
  }
}
