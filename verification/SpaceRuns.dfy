/**
 Whole runs of one Space: any interleaving of commands, reopenings, clears, external edits and
 process deaths. What the journal holds is always the submitted commands that were admitted, in
 submission order, and no acknowledged command is ever missing.
 */
module SpaceRuns {
  import opened Wrappers
  import opened Files
  import opened PreparedCommit
  import opened SpaceJournal

  datatype Event<!C> =
    | Open(defaults: Tree<C>)                                        // reopen the durable state
    | Command(operation: Operation<C>, intent: Option<Clear>)        // submit one command
    | Die                                                            // the process dies, or the incarnation panics
    | Edit(files: Tree<C>)                                           // somebody edits the materialized files
    | Acknowledge                                                    // the clear's cleanup is done

  // One journal admission, as its cause.
  datatype Cause<C> = Bootstrapped(defaults: Tree<C>) | Admitted(command: nat)

  datatype Run<!C> = Run(
    state: State<C>,
    base: Tree<C>,                  // the files the first image was bootstrapped from
    log: seq<Cause<C>>,             // why each image was journaled
    images: seq<Tree<C>>,           // every image ever journaled
    submitted: seq<Operation<C>>,
    acknowledged: set<nat>,
    rejected: set<nat>,
    clearing: nat,                  // the command that recorded the pending clear intent
    replaced: seq<Tree<C>>          // every copy of the materialized files the worker wrote over
  )

  function Apply<C>(operation: Operation<C>, tree: Tree<C>): Tree<C> {
    match operation(tree) case Done(after) => after case _ => tree
  }

  // The memory that the logged causes produce from `base`.
  function Outcome<C>(base: Tree<C>, log: seq<Cause<C>>, submitted: seq<Operation<C>>): Tree<C> {
    if log == [] then base
    else
      var earlier := Outcome(base, log[..|log| - 1], submitted);
      match log[|log| - 1]
      case Bootstrapped(defaults) => defaults + earlier
      case Admitted(command) => if command < |submitted| then Apply(submitted[command], earlier) else earlier
  }

  ghost predicate LogOrdered<C(!new)>(log: seq<Cause<C>>, count: nat) {
    && (forall i :: 0 <= i < |log| && log[i].Admitted? ==> log[i].command < count)
    && (forall i, j :: 0 <= i < j < |log| && log[i].Admitted? && log[j].Admitted? ==> log[i].command < log[j].command)
  }

  // The last command in the log, if any.
  function LastCommand<C>(log: seq<Cause<C>>): Option<nat> {
    if log == [] then None
    else match log[|log| - 1]
      case Admitted(command) => Some(command)
      case Bootstrapped(_) => LastCommand(log[..|log| - 1])
  }

  ghost predicate Kept<C(!new)>(r: Run<C>, copy: Tree<C>) {
    copy in r.state.backups || copy in r.images || copy == r.base
  }

  // The newest image is the admitted commands, replayed in submission order.
  ghost predicate LogInv<C(!new)>(r: Run<C>) {
    var j := r.state.journal;
    && JournalInv(j)
    && (r.state.live ==> j.rows != [] && AllApplied(j) && Newest(j) == r.state.cached)
    && LogOrdered(r.log, |r.submitted|)
    && (j.rows == [] ==> r.log == [])
    && (j.rows != [] ==> Newest(j) == Outcome(r.base, r.log, r.submitted) && Newest(j) in r.images)
  }

  ghost predicate HistoryInv<C(!new)>(r: Run<C>) {
    // acknowledged commands are in, rejected commands are out
    && (forall c :: c in r.acknowledged ==> Admitted(c) in r.log)
    && (forall c :: c in r.rejected ==> c < |r.submitted| && Admitted(c) !in r.log)
    // nothing but bootstrapping happened since a pending clear
    && (r.state.journal.clear.Some? ==> LastCommand(r.log) == Some(r.clearing))
    // whatever the worker wrote over, an external edit included, is preserved or was journaled
    && (r.state.journal.rows == [] ==> r.replaced == [])
    && (forall copy | copy in r.replaced :: Kept(r, copy))
  }

  ghost predicate RunInv<C(!new)>(r: Run<C>) {
    LogInv(r) && HistoryInv(r)
  }

  predicate Initial<C(==)>(r: Run<C>) {
    && r.state.journal == Journal([], 0, None) && !r.state.live
    && r.log == [] && r.images == [] && r.submitted == [] && r.acknowledged == {} && r.rejected == {}
      && r.replaced == []
  }

  function Logged<C(==)>(r: Run<C>, journal: Journal<C>, cause: Cause<C>, always: bool): Run<C> {
    if journal.lastRevision != r.state.journal.lastRevision then
      r.(log := r.log + [cause],
         base := if r.state.journal.rows == [] then r.state.files else r.base,
         images := r.images + if journal.rows == [] then [] else [Newest(journal)])
    else if always then r.(log := r.log + [cause])
    else r
  }

  function Overwritten<C(==)>(s: State<C>, s': State<C>): seq<Tree<C>> {
    if s'.files == s.files then [] else [s.files]
  }

  ghost predicate Step<C(!new)>(r: Run<C>, event: Event<C>, reply: Reply, r': Run<C>) {
    match event
    case Open(defaults) =>
      && !r.state.live
      && Opened(r.state, defaults, r'.state.live, r'.state)
      && r' == Logged(r, r'.state.journal, Bootstrapped(defaults), false).(
                 state := r'.state,
                 replaced := r.replaced + Overwritten(r.state, r'.state))
    case Command(operation, intent) =>
      var command := |r.submitted|;
      && Executed(r.state, operation, intent, reply, r'.state)
      && r' == Logged(r, r'.state.journal, Admitted(command), reply.Acknowledged?).(
                 state := r'.state,
                 replaced := r.replaced + Overwritten(r.state, r'.state),
                 submitted := r.submitted + [operation],
                 acknowledged := if reply.Acknowledged? then r.acknowledged + {command} else r.acknowledged,
                 rejected := if reply.Rejected? then r.rejected + {command} else r.rejected,
                 clearing := if r.state.journal.clear.None? then command else r.clearing)
    case Die =>
      r' == r.(state := r.state.(live := false))
    case Edit(files) =>
      r' == r.(state := r.state.(files := files))
    case Acknowledge =>
      r' == r.(state := r.state.(journal := r.state.journal.(clear := None)))
  }

  // ---- Invariance ----

  lemma {:induction false} OutcomeIgnoresLater<C(!new)
    >(base: Tree<C>, log: seq<Cause<C>>, submitted: seq<Operation<C>>, operation: Operation<C>)
    requires LogOrdered(log, |submitted|)
    ensures Outcome(base, log, submitted + [operation]) == Outcome(base, log, submitted)
  {
    if log != [] {
      assert log[|log| - 1].Admitted? ==> log[|log| - 1].command < |submitted|;
      OutcomeIgnoresLater(base, log[..|log| - 1], submitted, operation);
    }
  }

  // A reopening changes nothing, only settles the newest row, or bootstraps one more image.
  lemma OpenShape<C(!new)>(r: Run<C>, defaults: Tree<C>, r': Run<C>)
    requires LogInv(r) && Step(r, Open(defaults), Acknowledged, r')
    ensures var j, j' := r.state.journal, r'.state.journal;
            && JournalInv(j') && (r'.state.live ==> AllApplied(j') && j'.rows != [])
            && j'.clear == j.clear
            && (if j'.lastRevision == j.lastRevision then
                  |j'.rows| == |j.rows| && (j.rows != [] ==> Newest(j') == Newest(j))
                else
                  j'.rows != [] && Newest(j') == defaults + if j.rows == [] then r.state.files else Newest(j))
            && (r'.state.live ==> Newest(j') == r'.state.cached)
  {
    var s, s' := r.state, r'.state;
    var replayed := Settle(s.journal);
    var base := if s.journal.rows == [] then s.files else Newest(s.journal);
    SettleShape(s.journal);
    if s'.live || (s'.journal != s.journal && s'.journal != replayed) {
      PublishedShape(replayed, base, defaults + base, None, s'.live, s'.journal);
    }
  }

  lemma LogBootstrapped<C(!new)>(base: Tree<C>, log: seq<Cause<C>>, submitted: seq<Operation<C>>, defaults: Tree<C>)
    requires LogOrdered(log, |submitted|)
    ensures LogOrdered(log + [Bootstrapped(defaults)], |submitted|)
    ensures Outcome(base, log + [Bootstrapped(defaults)], submitted) == defaults + Outcome(base, log, submitted)
  {
    assert (log + [Bootstrapped(defaults)])[..|log|] == log;
  }

  lemma OpenKeepsLog<C(!new)>(r: Run<C>, defaults: Tree<C>, r': Run<C>)
    requires LogInv(r) && Step(r, Open(defaults), Acknowledged, r')
    ensures LogInv(r')
  {
    OpenShape(r, defaults, r');
    var j, j' := r.state.journal, r'.state.journal;
    if j'.lastRevision != j.lastRevision {
      LogBootstrapped(r'.base, r.log, r.submitted, defaults);
      assert r'.images[|r.images|] == Newest(j');
      assert j.rows == [] ==> Outcome(r'.base, r.log, r.submitted) == r.state.files;
    }
  }

  // Bootstrapping logs no command.
  lemma NoCommandLogged<C(!new)>(r: Run<C>, defaults: Tree<C>, r': Run<C>)
    requires r'.log == r.log || r'.log == r.log + [Bootstrapped(defaults)]
    ensures forall c :: Admitted(c) in r'.log <==> Admitted(c) in r.log
    ensures LastCommand(r'.log) == LastCommand(r.log)
  {
    if r'.log != r.log {
      assert r'.log[..|r'.log| - 1] == r.log;
    }
  }

  // What a reopening means for the bookkeeping around the journal.
  ghost predicate OnlyReopened<C(!new)>(r: Run<C>, r': Run<C>, expected: Tree<C>) {
    && r'.acknowledged == r.acknowledged && r'.rejected == r.rejected && r'.submitted == r.submitted
    && r'.clearing == r.clearing && r'.state.journal.clear == r.state.journal.clear
    && r'.replaced == r.replaced + Overwritten(r.state, r'.state)
    && Preserves(r.state, expected, r'.state)
    && r.images <= r'.images && (r.replaced == [] || r'.base == r.base)
    && (r'.state.files == r.state.files || expected in r'.images || expected == r'.base)
    && (r'.state.journal.rows == [] ==> r.state.journal.rows == [] && r'.state.files == r.state.files)
  }

  lemma OpenOnlyReopens<C(!new)>(r: Run<C>, defaults: Tree<C>, r': Run<C>)
    requires LogInv(r) && Step(r, Open(defaults), Acknowledged, r') && (r.state.journal.rows == [] ==> r.replaced == [])
    ensures OnlyReopened(r, r', if r.state.journal.rows == [] then r.state.files else Newest(r.state.journal))
    ensures r'.log == r.log || r'.log == r.log + [Bootstrapped(defaults)]
  {
    OpenShape(r, defaults, r');
  }

  lemma ReopenedHistory<C(!new)>(r: Run<C>, r': Run<C>, expected: Tree<C>)
    requires HistoryInv(r) && OnlyReopened(r, r', expected)
    requires forall c :: Admitted(c) in r'.log <==> Admitted(c) in r.log
    requires LastCommand(r'.log) == LastCommand(r.log)
    ensures HistoryInv(r')
  {
    OverwrittenKept(r, r', expected);
  }

  lemma OpenKeepsHistory<C(!new)>(r: Run<C>, defaults: Tree<C>, r': Run<C>)
    requires RunInv(r) && Step(r, Open(defaults), Acknowledged, r')
    ensures HistoryInv(r')
  {
    OpenOnlyReopens(r, defaults, r');
    NoCommandLogged(r, defaults, r');
    ReopenedHistory(r, r', if r.state.journal.rows == [] then r.state.files else Newest(r.state.journal));
  }

  // An admitted command extends the log by itself and the newest image by its own effect.
  lemma AdmittedKeepsLog<C(!new)>(r: Run<C>, operation: Operation<C>, intent: Option<Clear>, reply: Reply, r': Run<C>)
    requires LogInv(r) && Step(r, Command(operation, intent), reply, r')
    requires reply.Acknowledged? || (reply.Interrupted? && r'.state.journal != r.state.journal)
    ensures LogInv(r')
    ensures r'.log == r.log + [Admitted(|r.submitted|)] && r'.base == r.base && r.images <= r'.images
    ensures r'.state.journal.clear == r.state.journal.clear || r.state.journal.clear.None?
  {
    var s, s' := r.state, r'.state;
    var after := operation(s.cached).cache;
    OutcomeIgnoresLater(r.base, r.log, r.submitted, operation);
    PublishedShape(s.journal, s.cached, after, intent, reply.Acknowledged?, s'.journal);
    assert r'.log[..|r'.log| - 1] == r.log;
    assert r'.log[|r'.log| - 1] == Admitted(|r.submitted|);
    assert Outcome(r.base, r'.log, r'.submitted) == after;
  }

  lemma AdmittedKeepsHistory<C(!new)
    >(r: Run<C>, operation: Operation<C>, intent: Option<Clear>, reply: Reply, r': Run<C>)
    requires RunInv(r) && Step(r, Command(operation, intent), reply, r')
    requires reply.Acknowledged? || (reply.Interrupted? && r'.state.journal != r.state.journal)
    ensures HistoryInv(r')
  {
    AdmittedKeepsLog(r, operation, intent, reply, r');
    assert r'.log[..|r'.log| - 1] == r.log;
    OverwrittenKept(r, r', r.state.cached);
  }

  lemma OverwrittenKept<C(!new)>(r: Run<C>, r': Run<C>, expected: Tree<C>)
    requires forall copy | copy in r.replaced :: Kept(r, copy)
    requires r'.replaced == r.replaced + Overwritten(r.state, r'.state)
    requires Preserves(r.state, expected, r'.state)
    requires r.images <= r'.images && (r.replaced == [] || r'.base == r.base)
    requires r'.state.files == r.state.files || expected in r'.images || expected == r'.base
    ensures forall copy | copy in r'.replaced :: Kept(r', copy)
  {
    forall copy | copy in r'.replaced ensures Kept(r', copy) {
      if copy in r.replaced {
        assert Kept(r, copy);
      }
    }
  }

  lemma RefusedKeepsInv<C(!new)>(r: Run<C>, operation: Operation<C>, intent: Option<Clear>, reply: Reply, r': Run<C>)
    requires RunInv(r) && Step(r, Command(operation, intent), reply, r')
    requires !reply.Acknowledged? && r'.state.journal == r.state.journal
    ensures RunInv(r')
  {
    OutcomeIgnoresLater(r.base, r.log, r.submitted, operation);
    assert r'.log == r.log && r'.base == r.base && r'.images == r.images;
    OverwrittenKept(r, r', r.state.cached);
  }

  /** Every event keeps the run invariant. */
  lemma StepKeepsInv<C(!new)>(r: Run<C>, event: Event<C>, reply: Reply, r': Run<C>)
    requires RunInv(r) && Step(r, event, reply, r')
    ensures RunInv(r')
  {
    match event
    case Open(defaults) =>
      OpenKeepsLog(r, defaults, r');
      OpenKeepsHistory(r, defaults, r');
    case Command(operation, intent) =>
      if reply.Acknowledged? || r'.state.journal != r.state.journal {
        AdmittedKeepsLog(r, operation, intent, reply, r');
        AdmittedKeepsHistory(r, operation, intent, reply, r');
      } else {
        RefusedKeepsInv(r, operation, intent, reply, r');
      }
    case Die =>
    case Edit(files) =>
    case Acknowledge =>
  }

  ghost predicate IsRun<C(!new)>(trace: seq<Run<C>>, events: seq<(Event<C>, Reply)>) {
    && |trace| == |events| + 1
    && Initial(trace[0])
    && forall i :: 0 <= i < |events| ==> Step(trace[i], events[i].0, events[i].1, trace[i + 1])
  }

  /** Crash refinement: in every reachable state the newest image is a replay, in submission order,
      of admitted commands that include every acknowledged one and no rejected one. */
  lemma {:induction false} EveryRunIsSafe<C(!new)>(trace: seq<Run<C>>, events: seq<(Event<C>, Reply)>)
    requires IsRun(trace, events)
    ensures RunInv(trace[|trace| - 1])
  {
    if events != [] {
      EveryRunIsSafe(trace[..|events|], events[..|events| - 1]);
      var last := |events| - 1;
      StepKeepsInv(trace[last], events[last].0, events[last].1, trace[last + 1]);
    }
  }

  /** Reopening after any run makes the files the newest image plus only the bootstrap files it lacks. */
  lemma ReopenRestoresNewest<C(!new)>(trace: seq<Run<C>>, events: seq<(Event<C>, Reply)>, defaults: Tree<C>, r: Run<C>)
    requires IsRun(trace, events)
    requires Step(trace[|trace| - 1], Open(defaults), Acknowledged, r)
    requires r.state.live && trace[|trace| - 1].log != []
    ensures var last := trace[|trace| - 1];
            && r.state.journal.rows != []
            && r.state.files == defaults + Outcome(last.base, last.log, last.submitted)
            && Newest(r.state.journal) == r.state.files == r.state.cached
  {
    EveryRunIsSafe(trace, events);
    var last := trace[|trace| - 1];
    OpenShape(last, defaults, r);
  }

  /** A command that came after an acknowledged one saw its effect: the log never reorders or drops it. */
  lemma AcknowledgedSurvives<C(!new)>(trace: seq<Run<C>>, events: seq<(Event<C>, Reply)>, command: nat)
    requires IsRun(trace, events)
    requires command in trace[|trace| - 1].acknowledged
    ensures var r := trace[|trace| - 1];
            exists i :: 0 <= i < |r.log| && r.log[i] == Admitted(command)
                        && forall k :: i < k < |r.log| && r.log[k].Admitted? ==> r.log[k].command > command
  {
    EveryRunIsSafe(trace, events);
    var r := trace[|trace| - 1];
    assert Admitted(command) in r.log;
    var i :| 0 <= i < |r.log| && r.log[i] == Admitted(command);
  }

  // ---- Which runs can be reopened ----

  // The worker's reopenings also refuse images whose provenance is inadmissible.
  ghost predicate CheckedStep<C(!new)
    >(r: Run<C>, event: Event<C>, reply: Reply, r': Run<C>, validProvenance: Tree<C> -> bool)
  {
    && Step(r, event, reply, r')
    && (event.Open? ==> Admits(r.state, event.defaults, validProvenance, r'.state))
  }

  ghost predicate CheckedSteps<C(!new)
    >(trace: seq<Run<C>>, events: seq<(Event<C>, Reply)>, validProvenance: Tree<C> -> bool)
  {
    && |trace| == |events| + 1
    && forall i :: 0 <= i < |events| ==> CheckedStep(trace[i], events[i].0, events[i].1, trace[i + 1], validProvenance)
  }

  predicate IsAdmissible<C>(tree: Tree<C>, validProvenance: Tree<C> -> bool) {
    Admissible(Snapshot(1, tree), validProvenance)
  }

  // What the commands and bootstrap files of a run must not break.
  ghost predicate Careful<C(!new)>(event: Event<C>, validProvenance: Tree<C> -> bool) {
    match event
    case Open(defaults) => KeepsDefaults(defaults, validProvenance)
    case Command(operation, _) => KeepsOperation(operation, validProvenance)
    case _ => true
  }

  ghost predicate KeepsDefaults<C(!new)>(defaults: Tree<C>, validProvenance: Tree<C> -> bool) {
    forall tree :: IsAdmissible(tree, validProvenance) ==> IsAdmissible(defaults + tree, validProvenance)
  }

  ghost predicate KeepsOperation<C(!new)>(operation: Operation<C>, validProvenance: Tree<C> -> bool) {
    forall tree :: IsAdmissible(tree, validProvenance) && operation(tree).Done? ==>
      IsAdmissible(operation(tree).cache, validProvenance)
  }

  ghost predicate NewestIsAdmissible<C(!new)>(r: Run<C>, validProvenance: Tree<C> -> bool) {
    r.state.journal.rows != [] ==> IsAdmissible(Newest(r.state.journal), validProvenance)
  }

  lemma CarefulOpen<C(!new)>(r: Run<C>, defaults: Tree<C>, r': Run<C>, validProvenance: Tree<C> -> bool)
    requires LogInv(r) && CheckedStep(r, Open(defaults), Acknowledged, r', validProvenance)
    requires KeepsDefaults(defaults, validProvenance) && NewestIsAdmissible(r, validProvenance)
    ensures NewestIsAdmissible(r', validProvenance)
  {
    OpenShape(r, defaults, r');
    assert r'.state.journal.lastRevision != r.state.journal.lastRevision ==>
      IsAdmissible(Recorded(r.state), validProvenance);
  }

  lemma CarefulCommand<C(!new)>(r: Run<C>, operation: Operation<C>, intent: Option<Clear>, reply: Reply, r': Run<C>,
                                validProvenance: Tree<C> -> bool)
    requires LogInv(r) && Step(r, Command(operation, intent), reply, r')
    requires KeepsOperation(operation, validProvenance) && NewestIsAdmissible(r, validProvenance)
    ensures NewestIsAdmissible(r', validProvenance)
  {
    var s, s' := r.state, r'.state;
    if s'.journal != s.journal {
      var after := operation(s.cached).cache;
      PublishedShape(s.journal, s.cached, after, intent, reply.Acknowledged?, s'.journal);
      assert IsAdmissible(s.cached, validProvenance);
    }
  }

  lemma {:induction false} CarefulRuns<C(!new)
    >(trace: seq<Run<C>>, events: seq<(Event<C>, Reply)>, validProvenance: Tree<C> -> bool)
    requires IsRun(trace, events) && CheckedSteps(trace, events, validProvenance)
    requires forall i :: 0 <= i < |events| ==> Careful(events[i].0, validProvenance)
    ensures NewestIsAdmissible(trace[|events|], validProvenance)
  {
    if events != [] {
      var n := |events| - 1;
      CarefulRuns(trace[..|events|], events[..n], validProvenance);
      EveryRunIsSafe(trace[..|events|], events[..n]);
      var r, r', event, reply := trace[n], trace[n + 1], events[n].0, events[n].1;
      assert trace[..|events|][n] == r;
      assert CheckedStep(r, event, reply, r', validProvenance) && Careful(event, validProvenance);
      CarefulStep(r, event, reply, r', validProvenance);
    }
  }

  lemma CarefulStep<C(!new)>(r: Run<C>, event: Event<C>, reply: Reply, r': Run<C>, validProvenance: Tree<C> -> bool)
    requires LogInv(r) && CheckedStep(r, event, reply, r', validProvenance)
    requires Careful(event, validProvenance) && NewestIsAdmissible(r, validProvenance)
    ensures NewestIsAdmissible(r', validProvenance)
  {
    match event
    case Open(defaults) => CarefulOpen(r, defaults, r', validProvenance);
    case Command(operation, intent) => CarefulCommand(r, operation, intent, reply, r', validProvenance);
    case _ =>
  }

  /** While no command and no bootstrap file breaks provenance, every run can be reopened: the worker's
      condition for reopening without faults holds in every reachable state. */
  lemma CarefulRunsReopen<C(!new)
    >(trace: seq<Run<C>>, events: seq<(Event<C>, Reply)>, defaults: Tree<C>, validProvenance: Tree<C> -> bool)
    requires IsRun(trace, events) && CheckedSteps(trace, events, validProvenance)
    requires forall i :: 0 <= i < |events| ==> Careful(events[i].0, validProvenance)
    requires KeepsDefaults(defaults, validProvenance)
    requires var s := trace[|events|].state; s.journal.rows == [] ==> IsAdmissible(s.files, validProvenance)
    ensures CanReopen(trace[|events|].state, defaults, validProvenance)
  {
    CarefulRuns(trace, events, validProvenance);
    assert IsAdmissible(Recorded(trace[|events|].state), validProvenance);
    assert IsAdmissible(defaults + Recorded(trace[|events|].state), validProvenance);
  }

  // No incarnation serves, and the newest image can never be reopened.
  ghost predicate Shut<C(!new)>(r: Run<C>, validProvenance: Tree<C> -> bool) {
    && !r.state.live && r.state.journal.rows != []
    && !IsAdmissible(Newest(r.state.journal), validProvenance)
  }

  /** A command that leaves inadmissible provenance is journaled all the same, and shuts the Space. */
  lemma InadmissibleImageShuts<C(!new)>(r: Run<C>, operation: Operation<C>, intent: Option<Clear>, r': Run<C>,
                                        validProvenance: Tree<C> -> bool)
    requires LogInv(r) && Step(r, Command(operation, intent), Interrupted, r') && operation(r.state.cached).Done?
    requires var after := operation(r.state.cached).cache;
             !IsAdmissible(after, validProvenance) && r'.state.journal == Admit(r.state.journal, after, intent)
    ensures Shut(r', validProvenance)
  {
    AdmitShape(r.state.journal, operation(r.state.cached).cache, intent);
  }

  /** A shut Space stays shut: whatever is tried afterwards, no reopening succeeds and no command runs. */
  lemma {:induction false} ShutForGood<C(!new)
    >(trace: seq<Run<C>>, events: seq<(Event<C>, Reply)>, validProvenance: Tree<C> -> bool)
    requires CheckedSteps(trace, events, validProvenance) && Shut(trace[0], validProvenance)
    ensures Shut(trace[|events|], validProvenance)
    ensures forall defaults :: !CanReopen(trace[|events|].state, defaults, validProvenance)
    ensures Newest(trace[|events|].state.journal) == Newest(trace[0].state.journal)
  {
    if events != [] {
      var n := |events| - 1;
      ShutForGood(trace[..|events|], events[..n], validProvenance);
      assert CheckedStep(trace[n], events[n].0, events[n].1, trace[n + 1], validProvenance);
      StaysShut(trace[n], events[n].0, events[n].1, trace[n + 1], validProvenance);
    }
  }

  lemma StaysShut<C(!new)>(r: Run<C>, event: Event<C>, reply: Reply, r': Run<C>, validProvenance: Tree<C> -> bool)
    requires Shut(r, validProvenance) && CheckedStep(r, event, reply, r', validProvenance)
    ensures Shut(r', validProvenance) && Newest(r'.state.journal) == Newest(r.state.journal)
  {
  }

  // A command that overwrites a ledger with something that is none, where only the ledger is checked.
  function Garbling(ledger: Path): Operation<string> {
    tree => Done(tree[ledger := "{"])
  }

  function LedgerReads(ledger: Path): Tree<string> -> bool {
    tree => ledger in tree ==> tree[ledger] != "{"
  }

  /** A concrete command of that kind: it breaks every image, so where it is journaled the Space is shut. */
  lemma GarblingShuts(r: Run<string>, ledger: Path, r': Run<string>)
    requires LogInv(r) && Step(r, Command(Garbling(ledger), None), Interrupted, r')
    requires r'.state.journal == Admit(r.state.journal, r.state.cached[ledger := "{"], None)
    ensures !KeepsOperation(Garbling(ledger), LedgerReads(ledger)) || !IsAdmissible(r.state.cached, LedgerReads(ledger))
    ensures Shut(r', LedgerReads(ledger))
  {
    var after := r.state.cached[ledger := "{"];
    assert Garbling(ledger)(r.state.cached) == Done(after) && !LedgerReads(ledger)(after);
    InadmissibleImageShuts(r, Garbling(ledger), None, r', LedgerReads(ledger));
  }
}
