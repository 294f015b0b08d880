/**
 The crash-safe Space worker.

 A command runs on a private cache; its complete after-image is admitted to a journal in one
 transaction, then materialized file by file, then marked applied. Every journal call, backup and
 file write may fail, and a journal call may take effect without a reply; a process death is the same
 as every later call failing, because an incarnation that saw a failure never runs again. Reopening
 always replays the newest image.
 */
module SpaceJournal {
  import opened Wrappers
  import opened Files
  import opened PreparedCommit

  datatype Clear = Clear(memory: bool, semanticGraph: bool)
  datatype Row<C> = Row(revision: nat, image: Tree<C>, applied: bool)
  datatype Journal<C> = Journal(rows: seq<Row<C>>, lastRevision: nat, clear: Option<Clear>)

  datatype CommandResult<C> = Done(cache: Tree<C>) | Refused(cache: Tree<C>) | Panicked
  type Operation<!C> = Tree<C> -> CommandResult<C>

  datatype Reply =
    | Acknowledged
    | Rejected     // the command itself refused
    | Unavailable  // a clear awaits its cleanup, or the journal cannot be reached
    | Interrupted  // the incarnation was discarded or could not be reopened; the journal decides the outcome

  // ---- Journal transactions ----

  function Newest<C>(journal: Journal<C>): Tree<C>
    requires journal.rows != []
  {
    journal.rows[|journal.rows| - 1].image
  }

  // DELETE ... WHERE revision < floor AND applied = 1
  function Prune<C>(rows: seq<Row<C>>, floor: int): seq<Row<C>> {
    if rows == [] then []
    else if rows[0].revision < floor && rows[0].applied then Prune(rows[1..], floor)
    else [rows[0]] + Prune(rows[1..], floor)
  }

  // The single-row clear table refuses a second intent.
  predicate CanAdmit<C>(journal: Journal<C>, clear: Option<Clear>) {
    clear.Some? ==> journal.clear.None?
  }

  function Admit<C>(journal: Journal<C>, after: Tree<C>, clear: Option<Clear>): Journal<C> {
    var revision := journal.lastRevision + 1;
    Journal(Prune(journal.rows + [Row(revision, after, false)], revision - 1),
            revision,
            if clear.Some? then clear else journal.clear)
  }

  function MarkRow<C>(row: Row<C>, revision: nat): Row<C> {
    if row.revision == revision then row.(applied := true) else row
  }

  function MarkApplied<C>(journal: Journal<C>, revision: nat): Journal<C> {
    journal.(rows := seq(|journal.rows|, i requires 0 <= i < |journal.rows| => MarkRow(journal.rows[i], revision)))
  }

  function Settle<C>(journal: Journal<C>): Journal<C> {
    MarkApplied(journal, journal.lastRevision)
  }

  // At most the two newest rows remain and only the newest can be unapplied.
  ghost predicate JournalInv<C(!new)>(journal: Journal<C>) {
    && |journal.rows| <= 2
    && (journal.rows != [] ==> journal.rows[|journal.rows| - 1].revision == journal.lastRevision)
    && (|journal.rows| == 2 ==> journal.rows[0].revision + 1 == journal.lastRevision && journal.rows[0].applied)
  }

  predicate AllApplied<C>(journal: Journal<C>) {
    forall i :: 0 <= i < |journal.rows| ==> journal.rows[i].applied
  }

  lemma PruneKeepsTwo<C(!new)>(newest: Row<C>, row: Row<C>, floor: int)
    requires newest.revision >= floor && row.revision >= floor
    ensures Prune([row], floor) == [row] && Prune([newest, row], floor) == [newest, row]
  {
    assert [newest, row][1..] == [row] && [row][1..] == [];
  }

  lemma PruneDropsOldest<C(!new)>(oldest: Row<C>, newest: Row<C>, row: Row<C>, floor: int)
    requires newest.revision >= floor && row.revision >= floor && oldest.revision < floor && oldest.applied
    ensures Prune([oldest, newest, row], floor) == [newest, row]
  {
    PruneKeepsTwo(newest, row, floor);
    assert [oldest, newest, row][1..] == [newest, row];
  }

  lemma PruneShape<C(!new)>(rows: seq<Row<C>>, row: Row<C>, floor: int)
    requires |rows| <= 2 && row.revision >= floor
    requires rows != [] ==> rows[|rows| - 1].revision >= floor
    requires |rows| == 2 ==> rows[0].revision < floor && rows[0].applied
    ensures Prune(rows + [row], floor) == (if rows == [] then [] else [rows[|rows| - 1]]) + [row]
  {
    if rows == [] {
      PruneKeepsTwo(row, row, floor);
      assert rows + [row] == [row];
    } else if |rows| == 1 {
      PruneKeepsTwo(rows[0], row, floor);
      assert rows + [row] == [rows[0], row];
    } else {
      PruneDropsOldest(rows[0], rows[1], row, floor);
      assert rows + [row] == [rows[0], rows[1], row];
    }
  }

  /** Admission onto a settled journal keeps exactly the previous newest row beside the new one. */
  lemma AdmitShape<C(!new)>(journal: Journal<C>, after: Tree<C>, clear: Option<Clear>)
    requires JournalInv(journal) && AllApplied(journal)
    ensures var admitted := Admit(journal, after, clear);
            && admitted.rows == (if journal.rows == [] then [] else [journal.rows[|journal.rows| - 1]])
                                + [Row(journal.lastRevision + 1, after, false)]
            && JournalInv(admitted)
            && Newest(admitted) == after
  {
    PruneShape(journal.rows, Row(journal.lastRevision + 1, after, false), journal.lastRevision);
  }

  lemma SettleShape<C(!new)>(journal: Journal<C>)
    requires JournalInv(journal)
    ensures JournalInv(Settle(journal)) && AllApplied(Settle(journal))
    ensures journal.rows != [] ==> Newest(Settle(journal)) == Newest(journal)
    ensures |Settle(journal).rows| == |journal.rows|
    ensures AllApplied(journal) ==> Settle(journal) == journal
  {
    if AllApplied(journal) {
      assert Settle(journal).rows == journal.rows;
    }
  }

  // A command only ever writes inside the workspace it was handed.
  ghost predicate Confined<C(!new)>(operation: Operation<C>, tree: Tree<C>) {
    match operation(tree)
    case Done(after) => forall p | p in after :: SafePath(p)
    case Refused(after) => forall p | p in after :: SafePath(p)
    case Panicked => true
  }

  // ---- What one publication, reopening and command may do ----

  datatype State<C> = State(
    journal: Journal<C>,
    files: Tree<C>,          // the materialized copy
    backups: seq<Tree<C>>,   // preserved divergent copies
    live: bool,              // an incarnation is serving commands
    cached: Tree<C>          // its view of the memory
  )

  // A failed publication either never reached the journal, or its row awaits replay; at most its last
  // reply was lost.
  // Unchanged files are not journaled again.
  predicate Skips<C(==)>(before: Tree<C>, after: Tree<C>, clear: Option<Clear>, journal: Journal<C>) {
    before == after && clear.None? && journal.rows != []
  }

  ghost predicate Published<C(!new)>(journal: Journal<C>, before: Tree<C>, after: Tree<C>, clear: Option<Clear>,
                                     ok: bool, journal': Journal<C>)
  {
    if Skips(before, after, clear, journal) then ok && journal' == journal
    else if ok then CanAdmit(journal, clear) && journal' == Settle(Admit(journal, after, clear))
    else
      || journal' == journal
      || (CanAdmit(journal, clear)
          && (journal' == Admit(journal, after, clear) || journal' == Settle(Admit(journal, after, clear))))
  }

  // A divergent copy is only ever replaced after it was preserved.
  ghost predicate Preserves<C(!new)>(s: State<C>, expected: Tree<C>, s': State<C>) {
    && s.backups <= s'.backups
    && (s'.files != s.files && s.files != expected ==> s.files in s'.backups)
  }

  // The files follow the journal.
  ghost predicate Publishes<C(!new)
    >(s: State<C>, before: Tree<C>, after: Tree<C>, clear: Option<Clear>, ok: bool, s': State<C>)
  {
    && Published(s.journal, before, after, clear, ok, s'.journal)
    && (s'.journal == s.journal ==> s'.files == s.files)
    && (ok && s'.journal != s.journal ==> s'.files == after)
    && Preserves(s, before, s')
  }

  // Publishing keeps the journal shape; it changes the journal exactly when it takes a new revision.
  lemma PublishedShape<C(!new)
    >(journal: Journal<C>, before: Tree<C>, after: Tree<C>, clear: Option<Clear>, ok: bool, journal': Journal<C>)
    requires JournalInv(journal) && AllApplied(journal)
    requires Published(journal, before, after, clear, ok, journal')
    ensures JournalInv(journal')
    ensures journal'.lastRevision == journal.lastRevision ==> journal' == journal
    ensures journal'.lastRevision != journal.lastRevision ==>
              && journal'.rows != [] && Newest(journal') == after
              && journal'.clear == if clear.Some? then clear else journal.clear
    ensures ok ==> AllApplied(journal') && journal'.rows != []
    ensures ok && journal' == journal ==> before == after
  {
    AdmitShape(journal, after, clear);
    SettleShape(Admit(journal, after, clear));
  }

  // What a reopening starts from.
  function Recorded<C>(s: State<C>): Tree<C> {
    if s.journal.rows == [] then s.files else Newest(s.journal)
  }

  predicate CanReopen<C>(s: State<C>, defaults: Tree<C>, validProvenance: Tree<C> -> bool) {
    && Admissible(Snapshot(1, Recorded(s)), validProvenance)
    && Admissible(Snapshot(1, defaults + Recorded(s)), validProvenance)
  }

  // Only admissible images are reopened, and an inadmissible one leaves the journal as it is.
  ghost predicate Admits<C(!new)>(s: State<C>, defaults: Tree<C>, validProvenance: Tree<C> -> bool, s': State<C>) {
    && (s'.live ==> CanReopen(s, defaults, validProvenance))
    && (!Admissible(Snapshot(1, Recorded(s)), validProvenance) ==> s'.journal == s.journal && s'.files == s.files)
  }

  // Publishes the replayed files with any missing defaults.
  ghost predicate Bootstraps<C(!new)>(s: State<C>, defaults: Tree<C>, ok: bool, s': State<C>) {
    && s'.live == ok && Preserves(s, s.files, s')
    && (s'.journal == s.journal || Published(s.journal, s.files, defaults + s.files, None, ok, s'.journal))
    && (s'.journal.rows == [] ==> s'.files == s.files)
    && (ok ==>
          && Published(s.journal, s.files, defaults + s.files, None, true, s'.journal)
          && s'.files == s'.cached == defaults + s.files)
  }

  // What a publication of the missing defaults leaves.
  lemma PublicationBootstraps<C(!new)>(s: State<C>, s': State<C>, defaults: Tree<C>, ok: bool)
    requires JournalInv(s.journal) && AllApplied(s.journal) && Recorded(s) == s.files
    requires Publishes(s, s.files, defaults + s.files, None, ok, s')
    ensures JournalInv(s'.journal)
    ensures Preserves(s, s.files, s') && (s'.journal.rows == [] ==> s'.files == s.files)
    ensures s'.journal == s.journal || Published(s.journal, s.files, defaults + s.files, None, ok, s'.journal)
    ensures ok ==> AllApplied(s'.journal) && s'.journal.rows != [] && s'.files == defaults + s.files
    ensures ok ==> Newest(s'.journal) == defaults + s.files
  {
    PublishedShape(s.journal, s.files, defaults + s.files, None, ok, s'.journal);
  }

  // The journal is authoritative: its newest image replaces the materialized files, applied or not.
  ghost predicate Replays<C(!new)>(s: State<C>, ok: bool, s': State<C>) {
    && (s'.journal == Settle(s.journal) || (!ok && s'.journal == s.journal))
    && Preserves(s, Recorded(s), s')
    && (ok ==> s'.files == Recorded(s))
    && (s.journal.rows == [] ==> s'.files == s.files)
    && s'.live == s.live
  }

  lemma ReplayThenBootstrap<C(!new)>(s: State<C>, replayed: State<C>, defaults: Tree<C>, ok: bool, s': State<C>)
    requires JournalInv(s.journal) && Replays(s, true, replayed) && Bootstraps(replayed, defaults, ok, s')
    ensures Opened(s, defaults, ok, s') && Recorded(replayed) == Recorded(s)
  {
    SettleShape(s.journal);
    if s'.journal != replayed.journal {
      PublishedShape(replayed.journal, replayed.files, defaults + replayed.files, None, ok, s'.journal);
    }
  }

  ghost predicate Opened<C(!new)>(s: State<C>, defaults: Tree<C>, ok: bool, s': State<C>) {
    var replayed := Settle(s.journal);
    var base := if s.journal.rows == [] then s.files else Newest(s.journal);
    && s'.live == ok
    && Preserves(s, base, s')
    && (s'.journal == s.journal || s'.journal == replayed
      || Published(replayed, base, defaults + base, None, ok, s'.journal))
    && (s'.journal.rows == [] ==> s'.files == s.files)
    && (ok ==>
          && Published(replayed, base, defaults + base, None, true, s'.journal)
          && s'.files == defaults + base
          && s'.cached == defaults + base)
  }

  ghost predicate Executed<C(!new)
    >(s: State<C>, operation: Operation<C>, clear: Option<Clear>, reply: Reply, s': State<C>)
  {
    && s.live
    && Preserves(s, s.cached, s')
    && match reply
       case Unavailable => s' == s
       case Rejected =>
         && operation(s.cached).Refused?
         && s'.journal == s.journal && s'.files == s.files && (s'.live ==> s'.cached == s.cached)
       case Acknowledged =>
         && s.journal.clear.None?
         && operation(s.cached).Done?
         && var after := operation(s.cached).cache;
         && Published(s.journal, s.cached, after, clear, true, s'.journal)
         && s'.live && s'.cached == after
         && s'.files == (if s'.journal == s.journal then s.files else after)
       case Interrupted =>
         && !s'.live
         && (s'.journal == s.journal
             || (s.journal.clear.None? && operation(s.cached).Done?
                 && Published(s.journal, s.cached, operation(s.cached).cache, clear, false, s'.journal)))
  }

  /** What a command comes to when nothing fails: it waits for a pending clear; a refusal changes nothing; a
      panic ends the incarnation and nothing more; otherwise its image decides. */
  ghost predicate Served<C(!new)>(s: State<C>, operation: Operation<C>, clear: Option<Clear>,
                                  validProvenance: Tree<C> -> bool, reply: Reply, s': State<C>)
  {
    if s.journal.clear.Some? then reply == Unavailable && s' == s
    else match operation(s.cached)
      case Refused(_) => reply == Rejected && s' == s
      case Panicked => reply == Interrupted && s' == s.(live := false)
      case Done(after) =>
        && reply == (if Serves(s, after, clear, validProvenance) then Acknowledged else Interrupted)
        && Finished(s, after, clear, validProvenance, s')
  }

  // An unchanged image is served as it is; another one when its provenance is admissible.
  ghost predicate Serves<C(!new)>(s: State<C>, after: Tree<C>, clear: Option<Clear>,
                                  validProvenance: Tree<C> -> bool)
  {
    (after == s.cached && clear.None?) || Admissible(Snapshot(1, after), validProvenance)
  }

  // A changed image is the newest row either way; the files and the cache follow when it is served.
  ghost predicate Finished<C(!new)>(s: State<C>, after: Tree<C>, clear: Option<Clear>,
                                    validProvenance: Tree<C> -> bool, s': State<C>)
  {
    if after == s.cached && clear.None? then s' == s
    else
      && s'.journal.rows != [] && s'.journal.lastRevision == s.journal.lastRevision + 1
      && Newest(s'.journal) == after && s'.journal.clear == clear
      && (s'.live <==> Admissible(Snapshot(1, after), validProvenance))
      && (s'.live ==> s'.cached == after && s'.files == after)
  }

  lemma PublicationFinishes<C(!new)>(s: State<C>, after: Tree<C>, clear: Option<Clear>,
                                     validProvenance: Tree<C> -> bool, ok: bool, s': State<C>)
    requires JournalInv(s.journal) && AllApplied(s.journal) && s.journal.rows != [] && s.journal.clear.None? && s.live
    requires Publishes(s, s.cached, after, clear, ok, s')
    requires ok <==> Skips(s.cached, after, clear, s.journal) || Admissible(Snapshot(1, after), validProvenance)
    requires !ok ==> s'.journal == Admit(s.journal, after, clear)
    requires Skips(s.cached, after, clear, s.journal) ==> s' == s
    ensures ok <==> Serves(s, after, clear, validProvenance)
    ensures Finished(s, after, clear, validProvenance, s'.(live := ok, cached := if ok then after else s.cached))
  {
    AdmitShape(s.journal, after, clear);
    SettleShape(Admit(s.journal, after, clear));
  }

  // A publication that failed ends the incarnation.
  ghost predicate Committed<C(!new)>(s: State<C>, after: Tree<C>, clear: Option<Clear>, ok: bool, s': State<C>) {
    && Preserves(s, s.cached, s')
    && s'.live == ok
    && if ok then
         && Published(s.journal, s.cached, after, clear, true, s'.journal)
         && s'.cached == after
         && s'.files == (if s'.journal == s.journal then s.files else after)
       else
         s'.journal == s.journal || Published(s.journal, s.cached, after, clear, false, s'.journal)
  }

  // What a publication of a command's image leaves.
  lemma PublicationCommits<C(!new)>(s: State<C>, s': State<C>, after: Tree<C>, clear: Option<Clear>, ok: bool)
    requires JournalInv(s.journal) && AllApplied(s.journal) && s.journal.rows != [] && Newest(s.journal) == s.cached
    requires Publishes(s, s.cached, after, clear, ok, s')
    ensures JournalInv(s'.journal)
    ensures ok ==> AllApplied(s'.journal) && s'.journal.rows != [] && Newest(s'.journal) == after
    ensures Committed(s, after, clear, ok, s'.(live := ok, cached := if ok then after else s'.cached))
  {
    PublishedShape(s.journal, s.cached, after, clear, ok, s'.journal);
  }

  // ---- The worker ----

  class SpaceWorker<C(==,!new)> {
    const validProvenance: Tree<C> -> bool
    const workspace: Workspace<C>
    const cache: Workspace<C>
    // durable
    var rows: seq<Row<C>>
    var lastRevision: nat
    var clear: Option<Clear>
    var backups: seq<Tree<C>>
    // volatile
    var live: bool
    var cachedSnapshot: Tree<C>
    var checkpointed: bool
    var failed: bool
    // outcomes of the coming journal calls, exports and backups
    var outages: seq<Outage>

    ghost function Record(): Journal<C>
      reads this
    {
      Journal(rows, lastRevision, clear)
    }

    ghost function View(): State<C>
      reads this, workspace
    {
      State(Record(), workspace.files, backups, live && !failed, cachedSnapshot)
    }

    ghost predicate Healthy()
      reads this, cache
    {
      && checkpointed && rows != []
      && AllApplied(Record())
      && Newest(Record()) == cachedSnapshot
      && cache.files == cachedSnapshot && Admissible(Snapshot(1, cachedSnapshot), validProvenance)
    }

    ghost predicate Valid()
      reads this, workspace, cache
    {
      && workspace != cache
      && (forall p | p in workspace.files :: SafePath(p))
      && (forall p | p in cache.files :: SafePath(p))
      && JournalInv(Record())
      && (live && !failed ==> Healthy())
    }

    constructor (validProvenance: Tree<C> -> bool, workspace: Workspace<C>, cache: Workspace<C>, outages: seq<Outage>)
      requires workspace != cache
      requires forall p | p in workspace.files :: SafePath(p)
      requires forall p | p in cache.files :: SafePath(p)
      ensures Valid() && !live && Record() == Journal([], 0, None) && backups == []
      ensures this.workspace == workspace && this.cache == cache && this.validProvenance == validProvenance
    {
      this.validProvenance, this.workspace, this.cache := validProvenance, workspace, cache;
      this.rows, this.lastRevision, this.clear, this.backups := [], 0, None, [];
      this.live, this.cachedSnapshot, this.checkpointed, this.failed := false, map[], false, false;
      this.outages := outages;
    }

    method Call() returns (outage: Outage)
      modifies this`outages
      ensures old(outages) == [] ==> outage == Answered && outages == []
    {
      if outages == [] {
        return Answered;
      }
      outage, outages := outages[0], outages[1..];
    }

    method Reachable() returns (ok: bool)
      modifies this`outages
      ensures old(outages) == [] ==> ok && outages == []
    {
      var outage := Call();
      ok := outage == Answered;
    }

    method PreserveMaterializedChanges(expected: Tree<C>) returns (ok: bool)
      modifies this`outages, this`backups
      ensures old(backups) <= backups
      ensures ok && workspace.files != expected ==> workspace.files in backups
      ensures old(outages) == [] ==> ok && outages == []
    {
      if workspace.files == expected {
        return true;
      }
      ok := Reachable();
      if ok {
        backups := backups + [workspace.files];
      }
    }

    // One transaction: insert the image, record a clear intent, drop superseded applied rows.
    method InsertRow(after: Tree<C>, intent: Option<Clear>) returns (ok: bool)
      modifies this`outages, this`rows, this`lastRevision, this`clear
      ensures ok ==> Record() != old(Record())
      ensures Record() == old(Record())
              || (CanAdmit(old(Record()), intent) && Record() == Admit(old(Record()), after, intent))
      ensures old(outages) == [] && CanAdmit(old(Record()), intent) ==> ok && outages == []
    {
      var outage := Call();
      if outage == Failed || (intent.Some? && clear.Some?) {
        return false;
      }
      ok := outage == Answered;
      lastRevision := lastRevision + 1;
      rows := rows + [Row(lastRevision, after, false)];
      if intent.Some? {
        clear := intent;
      }
      DeleteSuperseded(lastRevision - 1);
    }

    method DeleteSuperseded(floor: int)
      modifies this`rows
      ensures rows == Prune(old(rows), floor)
    {
      var kept: seq<Row<C>> := [];
      for i := 0 to |rows|
        invariant rows == old(rows)
        invariant kept + Prune(rows[i..], floor) == Prune(rows, floor)
      {
        assert rows[i..][1..] == rows[i + 1..];
        if !(rows[i].revision < floor && rows[i].applied) {
          kept := kept + [rows[i]];
        }
      }
      rows := kept;
    }

    method UpdateApplied(revision: nat) returns (ok: bool)
      modifies this`outages, this`rows
      ensures Record() == MarkApplied(old(Record()), revision) || (!ok && Record() == old(Record()))
      ensures old(outages) == [] ==> ok && outages == []
    {
      var outage := Call();
      ok := outage == Answered;
      if outage != Failed {
        var current := rows;
        rows := seq(|current|, i requires 0 <= i < |current| => MarkRow(current[i], revision));
      }
    }

    // Nothing divergent is replaced before it is preserved and its replacement is in the journal.
    method AdmitImage(before: Tree<C>, after: Tree<C>, intent: Option<Clear>) returns (ok: bool)
      modifies this`outages, this`rows, this`lastRevision, this`clear, this`backups, this`checkpointed
      ensures Record() == old(Record())
              || (CanAdmit(old(Record()), intent) && Record() == Admit(old(Record()), after, intent))
      ensures ok ==> checkpointed && Record() != old(Record())
      ensures old(backups) <= backups && (ok && workspace.files != before ==> workspace.files in backups)
      ensures old(outages) == [] && CanAdmit(old(Record()), intent) ==> ok && outages == []
    {
      ok := PreserveMaterializedChanges(before);
      if ok {
        ok := InsertRow(after, intent);
      }
      if ok {
        checkpointed := true;
      }
    }

    /** Preserve, admit, materialize, mark: the only way durable memory changes. */
    method Publish(before: Tree<C>, after: Tree<C>, intent: Option<Clear>) returns (ok: bool)
      requires workspace != cache
      requires forall p | p in workspace.files :: SafePath(p)
      requires JournalInv(Record()) && AllApplied(Record())
      requires checkpointed <==> rows != []
      modifies this`outages, this`rows, this`lastRevision, this`clear, this`backups, this`checkpointed, workspace
      ensures Publishes(old(View()), before, after, intent, ok, View())
      ensures ok ==> checkpointed && (Record() == old(Record()) || Admissible(Snapshot(1, after), validProvenance))
      ensures forall p | p in workspace.files :: SafePath(p)
      ensures old(outages) == [] && old(workspace.faults) == [] && CanAdmit(old(Record()), intent) ==>
                (ok <==> Skips(before, after, intent, old(Record())) || Admissible(Snapshot(1, after), validProvenance))
                && (!ok ==> Record() == Admit(old(Record()), after, intent))
                && outages == [] && workspace.faults == []
      ensures Skips(before, after, intent, old(Record())) ==> View() == old(View())
    {
      if before == after && checkpointed && intent.None? {
        return true;
      }
      ok := AdmitImage(before, after, intent);
      if !ok {
        return;
      }
      ok := workspace.Materialize(Snapshot(1, after), validProvenance);
      if !ok {
        return;
      }
      ok := UpdateApplied(lastRevision);
    }

    method ReplayNewest() returns (ok: bool)
      requires workspace != cache
      requires forall p | p in workspace.files :: SafePath(p)
      requires JournalInv(Record())
      modifies this`outages, this`rows, this`backups, this`checkpointed, workspace
      ensures Replays(old(View()), ok, View())
      ensures ok ==> (checkpointed <==> rows != [])
      ensures old(rows) == [] ==> workspace.faults == old(workspace.faults)
      ensures old(rows) != [] && !Admissible(Snapshot(1, Newest(old(Record()))), validProvenance) ==> !ok
      ensures !Admissible(Snapshot(1, Recorded(old(View()))), validProvenance) ==>
                Record() == old(Record()) || old(rows) == []
      ensures !Admissible(Snapshot(1, Recorded(old(View()))), validProvenance) ==>
                workspace.files == old(workspace.files)
      ensures forall p | p in workspace.files :: SafePath(p)
      ensures old(outages) == [] && old(workspace.faults) == [] ==>
                && outages == [] && workspace.faults == []
                && (ok <==> old(rows) == [] || Admissible(Snapshot(1, Newest(old(Record()))), validProvenance))
    {
      SettleShape(Record());
      ok := Reachable();
      if !ok {
        return;
      }
      checkpointed := rows != [];
      if rows != [] {
        var row := rows[|rows| - 1];
        ok := PreserveMaterializedChanges(row.image);
        if !ok {
          return;
        }
        var imported := workspace.ImportSnapshot(Snapshot(1, row.image), validProvenance);
        if imported.Err? {
          return false;
        }
        ok := UpdateApplied(row.revision);
      }
    }

    /** Reopen: replay the newest image, add missing bootstrap files, journal the result. */
    method Restore(defaults: Tree<C>) returns (ok: bool)
      requires Valid() && !live
      requires forall p | p in defaults :: SafePath(p)
      modifies this, workspace, cache
      ensures Valid()
      ensures Opened(old(View()), defaults, ok, View())
      ensures Admits(old(View()), defaults, validProvenance, View())
      ensures old(outages) == [] && old(workspace.faults) == [] && old(cache.faults) == [] ==>
                && (ok <==> CanReopen(old(View()), defaults, validProvenance))
                && outages == [] && workspace.faults == [] && cache.faults == []
    {
      SettleShape(Record());
      failed := false;
      ghost var s := View();
      ok := ReplayNewest();
      ghost var replayed := View();
      if ok {
        ok := Bootstrap(defaults);
        ReplayThenBootstrap(s, replayed, defaults, ok, View());
      }
    }

    // Stage the replayed files privately with any missing defaults and publish the result.
    method Bootstrap(defaults: Tree<C>) returns (ok: bool)
      requires workspace != cache && !live && !failed
      requires forall p | p in workspace.files :: SafePath(p)
      requires forall p | p in cache.files :: SafePath(p)
      requires forall p | p in defaults :: SafePath(p)
      requires JournalInv(Record()) && AllApplied(Record())
      requires (checkpointed <==> rows != []) && Recorded(View()) == workspace.files
      modifies this, workspace, cache
      ensures Valid() && live == ok && !failed
      ensures Bootstraps(old(View()), defaults, ok, View())
      ensures Admits(old(View()), defaults, validProvenance, View())
      ensures old(outages) == [] && old(workspace.faults) == [] && old(cache.faults) == [] ==>
                && (ok <==> CanReopen(old(View()), defaults, validProvenance))
                && outages == [] && workspace.faults == [] && cache.faults == []
    {
      var before := workspace.files;
      ok := Stage(before, defaults);
      if !ok {
        return;
      }
      ok := Enter(defaults);
    }

    // Publishes the staged files and starts serving.
    method Enter(defaults: Tree<C>) returns (ok: bool)
      requires workspace != cache && !live && !failed
      requires forall p | p in workspace.files :: SafePath(p)
      requires forall p | p in cache.files :: SafePath(p)
      requires forall p | p in defaults :: SafePath(p)
      requires JournalInv(Record()) && AllApplied(Record())
      requires (checkpointed <==> rows != []) && Recorded(View()) == workspace.files
      requires cache.files == defaults + workspace.files && Admissible(Snapshot(1, workspace.files), validProvenance)
      modifies this, workspace
      ensures Valid() && live == ok && !failed
      ensures Bootstraps(old(View()), defaults, ok, View())
      ensures ok ==> Admissible(Snapshot(1, defaults + old(workspace.files)), validProvenance)
      ensures old(outages) == [] && old(workspace.faults) == [] ==>
                && (ok <==> Admissible(Snapshot(1, defaults + old(workspace.files)), validProvenance))
                && outages == [] && workspace.faults == []
      ensures unchanged(cache)
    {
      var after := cache.files;
      ok := PublishStaged(defaults);
      if ok {
        cachedSnapshot := after;
        var layout := workspace.InitializeLayout(defaults);
        live := true;
      }
    }

    method PublishStaged(defaults: Tree<C>) returns (ok: bool)
      requires workspace != cache && !live && !failed
      requires forall p | p in workspace.files :: SafePath(p)
      requires JournalInv(Record()) && AllApplied(Record())
      requires (checkpointed <==> rows != []) && Recorded(View()) == workspace.files
      requires cache.files == defaults + workspace.files && Admissible(Snapshot(1, workspace.files), validProvenance)
      modifies this`outages, this`rows, this`lastRevision, this`clear, this`backups, this`checkpointed, workspace
      ensures Bootstraps(old(View()), defaults, ok,
                         View().(live := ok, cached := if ok then cache.files else cachedSnapshot))
      ensures JournalInv(Record()) && forall p | p in workspace.files :: SafePath(p)
      ensures ok ==> checkpointed && rows != [] && AllApplied(Record()) && Newest(Record()) == cache.files
      ensures ok ==> workspace.files == cache.files && Admissible(Snapshot(1, cache.files), validProvenance)
      ensures old(outages) == [] && old(workspace.faults) == [] ==>
                && (ok <==> Admissible(Snapshot(1, cache.files), validProvenance))
                && outages == [] && workspace.faults == []
    {
      ghost var s := View();
      ok := Publish(workspace.files, cache.files, None);
      PublicationBootstraps(s, View(), defaults, ok);
    }

    // Rebuild the private cache from the replayed image and bootstrap it.
    method Stage(before: Tree<C>, defaults: Tree<C>) returns (ok: bool)
      requires workspace != cache
      requires forall p | p in cache.files :: SafePath(p)
      requires forall p | p in defaults :: SafePath(p)
      modifies this`outages, cache
      ensures ok ==> cache.files == defaults + before && Admissible(Snapshot(1, before), validProvenance)
      ensures forall p | p in cache.files :: SafePath(p)
      ensures old(outages) == [] && old(cache.faults) == [] ==>
                outages == [] && cache.faults == [] && (ok <==> Admissible(Snapshot(1, before), validProvenance))
    {
      var exported := Reachable();
      if !exported {
        return false;
      }
      var imported := cache.ImportSnapshot(Snapshot(1, before), validProvenance);
      if imported.Err? {
        return false;
      }
      var layout := cache.InitializeLayout(defaults);
      if layout.Err? {
        return false;
      }
      ok := Reachable();
    }

    /** Runs one command on the private cache and publishes its whole after-image. */
    method ExecuteWithClear(operation: Operation<C>, intent: Option<Clear>) returns (reply: Reply)
      requires Valid() && live && !failed
      requires Confined(operation, cachedSnapshot)
      modifies this, workspace, cache
      ensures Valid()
      ensures Executed(old(View()), operation, intent, reply, View())
      ensures old(outages) == [] && old(workspace.faults) == [] && old(cache.faults) == [] ==>
                Served(old(View()), operation, intent, validProvenance, reply, View())
    {
      var available := Reachable();
      if !available || clear.Some? {
        return Unavailable;
      }
      var before := cachedSnapshot;
      match operation(cache.files) {
        case Panicked =>
          live := false;
          return Interrupted;
        case Refused(touched) =>
          DiscardCache(touched);
          return Rejected;
        case Done(after) =>
          var committed := CommitCache(before, after, intent);
          return if committed then Acknowledged else Interrupted;
      }
    }

    // A rejected command may have touched its private cache: put the last good image back.
    method DiscardCache(touched: Tree<C>)
      requires Valid() && live && !failed
      requires forall p | p in touched :: SafePath(p)
      modifies this`failed, cache
      ensures Valid()
      ensures old(cache.faults) == [] ==> !failed
    {
      cache.files := touched;
      var reset := cache.ImportSnapshot(Snapshot(1, cachedSnapshot), validProvenance);
      failed := reset.Err?;
    }

    // What the command left in the private cache, or the end of the incarnation.
    method ExportCache(after: Tree<C>) returns (ok: bool)
      requires workspace != cache && !failed
      modifies this`outages, this`failed, cache
      ensures cache.files == after && failed == !ok
      ensures old(outages) == [] ==> ok && outages == []
    {
      cache.files := after;
      ok := Reachable();
      failed := !ok;
    }

    // Export the private cache and publish it; on any failure the incarnation is over.
    method CommitCache(before: Tree<C>, after: Tree<C>, intent: Option<Clear>) returns (ok: bool)
      requires Valid() && live && !failed && before == cachedSnapshot
      requires forall p | p in after :: SafePath(p)
      modifies this, workspace, cache
      ensures Valid() && Committed(old(View()), after, intent, ok, View())
      ensures old(outages) == [] && old(workspace.faults) == [] && old(clear).None? ==>
                && (ok <==> Serves(old(View()), after, intent, validProvenance))
                && Finished(old(View()), after, intent, validProvenance, View())
    {
      ghost var s := View();
      ok := ExportCache(after);
      if !ok {
        return;
      }
      ok := Publish(before, after, intent);
      PublicationCommits(s, View(), after, intent, ok);
      if old(outages) == [] && old(workspace.faults) == [] && s.journal.clear.None? {
        PublicationFinishes(s, after, intent, validProvenance, ok, View());
      }
      Conclude(after, ok);
    }

    // The outcome of a publication decides whether the incarnation goes on.
    method Conclude(after: Tree<C>, ok: bool)
      requires live && !failed && workspace != cache && cache.files == after
      requires forall p | p in after :: SafePath(p)
      requires forall p | p in workspace.files :: SafePath(p)
      requires JournalInv(Record())
      requires ok ==> checkpointed && AllApplied(Record()) && rows != [] && Newest(Record()) == after
      requires ok ==> Admissible(Snapshot(1, after), validProvenance)
      modifies this`cachedSnapshot, this`failed
      ensures Valid() && View() == old(View()).(live := ok, cached := if ok then after else old(cachedSnapshot))
    {
      if ok {
        cachedSnapshot := after;
      } else {
        failed := true;
      }
    }

    /** One turn of the worker's mailbox: reopen a discarded incarnation first, then run the command. */
    method Submit(operation: Operation<C>, intent: Option<Clear>, defaults: Tree<C>)
      returns (reply: Reply, ghost entered: State<C>)
      requires Valid()
      requires forall p | p in defaults :: SafePath(p)
      requires forall tree :: Confined(operation, tree)
      modifies this, workspace, cache
      ensures Valid()
      ensures if old(View()).live then entered == old(View()) else Opened(old(View()), defaults, entered.live, entered)
      ensures entered.live ==> Executed(entered, operation, intent, reply, View())
      ensures !entered.live ==> reply == Interrupted && View() == entered
      ensures old(outages) == [] && old(workspace.faults) == [] && old(cache.faults) == [] ==>
                && (entered.live <==> old(View()).live || CanReopen(old(View()), defaults, validProvenance))
                && (entered.live ==> Served(entered, operation, intent, validProvenance, reply, View()))
    {
      if failed {
        live := false;
      }
      if !live {
        var ok := Restore(defaults);
        entered := View();
        if !ok {
          return Interrupted, entered;
        }
      }
      entered := View();
      reply := ExecuteWithClear(operation, intent);
    }

    /** The SQL and vector cleanup is done: the clear intent is dropped and commands are admitted again. */
    method AcknowledgeClear() returns (ok: bool)
      requires Valid()
      modifies this`outages, this`clear
      ensures Valid()
      ensures View() == old(View()).(journal := old(Record()).(clear := None)) || (!ok && View() == old(View()))
      ensures old(outages) == [] ==> ok && outages == []
    {
      var outage := Call();
      ok := outage == Answered;
      if outage != Failed {
        clear := None;
      }
    }
  }
}
