/**
 Exactly-once aging across two stores.

 A completed-turn event is a SQL row. Its file plan is prepared from the current memory, recorded
 in the row, applied to the Space's memory, and acknowledged. The process may die between any two
 of these; recovery runs before any later operation on the Space is admitted. One Space is modelled;
 applying a plan to its memory is one journaled command of its worker, so it happens wholly or not
 at all, but its reply can be lost. So can the reply of any SQL call. A lost reply to recording a plan
 leaves the plan in its row and the Space unmarked: its turn still counts at most once, but work
 admitted meanwhile can make it conflict, and a conflicting plan fences the Space for good.
 */
module PlanRecovery {
  import opened Wrappers
  import opened Files
  import opened PreparedCommit
  import opened SpaceJournal

  // The activity ledger counts completed turns per conversation context; other contents are opaque.
  datatype Content = Ledger(turns: map<string, nat>) | Text(text: string)
  type Memory = Tree<Content>

  const LEDGER: Path := [Normal("indexes"), Normal("lifecycle_activity.json")]
  const BATCH: nat := 64

  datatype Activity = Activity(context: string, enabled: bool)
  datatype Event = Event(activity: Activity, plan: Option<Plan<Content>>, completed: bool)

  function Turns(memory: Memory, context: string): nat {
    if LEDGER in memory && memory[LEDGER].Ledger? && context in memory[LEDGER].turns
    then memory[LEDGER].turns[context]
    else 0
  }

  function Count(events: seq<Event>, context: string): nat {
    if events == [] then 0
    else
      var last := events[|events| - 1];
      Count(events[..|events| - 1], context)
      + if last.completed && last.activity.enabled && last.activity.context == context then 1 else 0
  }

  predicate AtBefore(memory: Memory, plan: Plan<Content>) {
    forall f | f in plan.files :: Look(memory, f.path) == f.before
  }

  predicate AtAfter(memory: Memory, plan: Plan<Content>) {
    forall f | f in plan.files :: Look(memory, f.path) == f.after
  }

  function AfterPlan(memory: Memory, plan: Plan<Content>): Memory {
    ApplyAll(memory, Pending(memory, plan.files))
  }

  // Preparing an activity freezes before-images of the current memory and counts its turn once;
  // a disabled activity prepares an empty plan.
  ghost predicate AgesOnce(memory: Memory, activity: Activity, plan: Plan<Content>) {
    && WellFormed(plan)
    && AtBefore(memory, plan)
    && (!activity.enabled ==> plan.files == [])
    && (activity.enabled ==>
          && LEDGER in Targets(plan.files)
          && forall c :: Turns(AfterPlan(memory, plan), c) == Turns(memory, c) + if c == activity.context then 1 else 0)
  }

  // What a plan is to the counters, whatever the memory: it rewrites the ledger with one more turn.
  function TurnsOf(content: Option<Content>, context: string): nat {
    if content.Some? && content.value.Ledger? && context in content.value.turns then content.value.turns[context] else 0
  }

  ghost predicate OneTurn(before: Option<Content>, after: Option<Content>, context: string) {
    forall c :: TurnsOf(after, c) == TurnsOf(before, c) + if c == context then 1 else 0
  }

  ghost predicate CountsOnce(plan: Plan<Content>, activity: Activity) {
    && WellFormed(plan)
    && (!activity.enabled ==> plan.files == [])
    && (activity.enabled ==> exists f | f in plan.files ::
      f.path == LEDGER && OneTurn(f.before, f.after, activity.context))
  }

  lemma AgingCountsOnce(memory: Memory, activity: Activity, plan: Plan<Content>)
    requires AgesOnce(memory, activity, plan)
    ensures CountsOnce(plan, activity)
  {
    if activity.enabled {
      AfterPlanFacts(memory, plan);
      var f :| f in plan.files && f.path == LEDGER;
      assert Look(memory, LEDGER) == f.before && Look(AfterPlan(memory, plan), LEDGER) == f.after;
      forall c ensures TurnsOf(f.after, c) == TurnsOf(f.before, c) + if c == activity.context then 1 else 0 {
        assert Turns(memory, c) == TurnsOf(f.before, c) && Turns(AfterPlan(memory, plan), c) == TurnsOf(f.after, c);
      }
      assert OneTurn(f.before, f.after, activity.context);
    }
  }

  // The smallest such plan writes the ledger alone, so every memory and activity has one.
  function CountTurn(memory: Memory, activity: Activity): Plan<Content> {
    if !activity.enabled then Plan(1, [])
    else
      var turns := if LEDGER in memory && memory[LEDGER].Ledger? then memory[LEDGER].turns else map[];
      var counted := Ledger(turns[activity.context := Turns(memory, activity.context) + 1]);
      Plan(1, [PreparedFile(LEDGER, Look(memory, LEDGER), Some(counted))])
  }

  lemma CountTurnAgesOnce(memory: Memory, activity: Activity)
    ensures AgesOnce(memory, activity, CountTurn(memory, activity))
  {
    var plan := CountTurn(memory, activity);
    AfterPlanFacts(memory, plan);
    if activity.enabled {
      var file := plan.files[0];
      assert file in plan.files && LEDGER in Targets(plan.files);
      assert Look(AfterPlan(memory, plan), LEDGER) == file.after;
    }
  }

  // ---- The transition system ----

  datatype Phase =
    | Free
    | Recovering             // a new holder, or startup, completes what earlier ones left
    | Replayed(index: nat)   // recovery applied a recorded plan and acknowledges it next
    | Admitted               // recovery is behind the holder
    | Recorded(index: nat)   // the plan is in the event row
    | Marked(index: nat)     // and the Space is marked as needing recovery
    | Applied(index: nat)    // and the memory holds the after-images
    | Completed              // and the event is acknowledged
    | Clearing               // the holder clears the Space's memory

  datatype System = System(
    events: seq<Event>,      // SQL
    memory: Memory,          // the Space worker's newest image
    clear: Option<Clear>,    // its pending clear intent
    flagged: bool,           // volatile: the Space must recover before admission
    running: bool,
    phase: Phase,
    cleaned: bool,           // volatile: SQL cleanup of the pending clear is done
    unfenced: bool           // history: the reply to recording the outstanding plan was lost
  )

  datatype Action =
    | Accept(activity: Activity)
    | Reserve
    | Boot
    | Flag
    | Up
    | CleanSql
    | AcknowledgeClear
    | Replay(index: nat)
    | Acknowledge(index: nat)
    | Unflag
    | Admission
    | Record(index: nat, plan: Plan<Content>)
    | Mark
    | LoseReply
    | Apply(lost: bool)
    | Edit(memory: Memory)
    | MarkClear
    | CommitClear(clear: Clear, defaults: Memory)
    | Release
    | Die

  predicate IsGraphPath(path: Path) {
    && path != []
    && (path[0] in {Normal("lore"), Normal("rules")}
        || (|path| > 1 && path[0] == Normal("archive") && path[1] in {Normal("lore"), Normal("rules")}))
  }

  function Retained(memory: Memory, clear: Clear): Memory {
    map p | p in memory && !((IsGraphPath(p) && clear.semanticGraph) || (!IsGraphPath(p) && clear.memory)) :: memory[p]
  }

  /** What a clear keeps: the semantic graph is what lies under lore and rules, archived or not, and each half of
      the memory stays exactly when its own flag is off. */
  lemma ClearKeepsExactly(memory: Memory, clear: Clear, p: Path)
    ensures var graph := [Normal("lore")] <= p || [Normal("rules")] <= p
                         || [Normal("archive"), Normal("lore")] <= p || [Normal("archive"), Normal("rules")] <= p;
            Look(Retained(memory, clear), p)
              == if (graph && clear.semanticGraph) || (!graph && clear.memory) then None else Look(memory, p)
  {
    assert forall name :: [Normal(name)] <= p <==> p != [] && p[0] == Normal(name);
    assert forall name :: [Normal("archive"), Normal(name)] <= p <==>
      |p| > 1 && p[0] == Normal("archive") && p[1] == Normal(name);
  }

  predicate FirstOpen(events: seq<Event>, index: int) {
    0 <= index < |events| && !events[index].completed && forall k :: 0 <= k < index ==> events[k].completed
  }

  // The rows a batch query returns: the first uncompleted events, oldest first.
  function OpenRows(events: seq<Event>, from: nat, limit: nat): (rows: seq<nat>)
    requires from <= |events|
    ensures forall k :: 0 <= k < |rows| ==> from <= rows[k] < |events|
    decreases |events| - from
  {
    if from == |events| || limit == 0 then []
    else if events[from].completed then OpenRows(events, from + 1, limit)
    else [from] + OpenRows(events, from + 1, limit - 1)
  }

  predicate NothingPrepared(events: seq<Event>) {
    forall i | i in OpenRows(events, 0, BATCH) :: 0 <= i < |events| && events[i].plan.None?
  }

  function SetEvent(s: System, index: nat, event: Event): System
    requires index < |s.events|
  {
    s.(events := s.events[index := event])
  }

  ghost predicate Step(s: System, a: Action, s': System) {
    match a
    case Accept(activity) =>
      s.running && s' == s.(events := s.events + [Event(activity, None, false)])
    case Reserve =>
      s.running && s.phase.Free? && s' == s.(phase := Recovering, cleaned := false)
    case Boot =>
      !s.running && s.phase.Free? && s' == s.(phase := Recovering, cleaned := false)
    case Flag =>
      (s.phase.Recovering? || s.phase.Replayed?) && s' == s.(flagged := true)
    case Up =>
      && !s.running && (s.phase.Recovering? || s.phase.Replayed?)
      && (s.flagged || (s.phase.Recovering? && s.clear.None? && NothingPrepared(s.events)))
      && s' == s.(running := true, phase := Free, cleaned := false)
    case CleanSql =>
      && (s.phase.Recovering? || s.phase.Clearing?) && s.clear.Some?
      && s' == (if s.clear.value.memory then s.(events := [], cleaned := true, unfenced := false)
        else s.(cleaned := true))
    case AcknowledgeClear =>
      && (s.phase.Recovering? || s.phase.Clearing?) && s.clear.Some? && s.cleaned
      && s' == s.(clear := None, cleaned := false)
    case Replay(index) =>
      && s.phase.Recovering? && s.clear.None? && (s.flagged || !s.running)
      && index < |s.events| && s.events[index].plan.Some?
      && var plan := s.events[index].plan.value;
      && WellFormed(plan) && Replayable(s.memory, plan.files)
      && s' == s.(memory := AfterPlan(s.memory, plan), phase := Replayed(index))
    case Acknowledge(index) =>
      && (s.phase == Replayed(index) || s.phase == Applied(index))
      && index < |s.events| && s.events[index].plan.Some? && !s.events[index].completed
      && s' == SetEvent(s, index, s.events[index].(plan := None, completed := true)).(
                 phase := if s.phase.Replayed? then Recovering else Completed, unfenced := false)
    case Unflag =>
      && ((s.phase.Recovering? && s.clear.None? && NothingPrepared(s.events))
          || s.phase.Completed?
          || (s.phase.Clearing? && s.clear.None?))
      && s' == s.(flagged := false, phase := if s.phase.Recovering? then Recovering else Admitted)
    case Admission =>
      s.running && s.phase.Recovering? && !s.flagged && s' == s.(phase := Admitted)
    case Record(index, plan) =>
      && s.phase.Admitted? && FirstOpen(s.events, index) && s.events[index].plan.None?
      && AgesOnce(s.memory, s.events[index].activity, plan)
      && s' == SetEvent(s, index, s.events[index].(plan := Some(plan))).(phase := Recorded(index), unfenced := false)
    case Mark =>
      s.phase.Recorded? && s' == s.(flagged := true, phase := Marked(s.phase.index))
    case LoseReply =>
      s.phase.Recorded? && s' == s.(phase := Free, cleaned := false, unfenced := true)
    case Apply(lost) =>
      && s.phase.Marked? && s.phase.index < |s.events| && s.events[s.phase.index].plan.Some?
      && var plan := s.events[s.phase.index].plan.value;
      && WellFormed(plan) && Replayable(s.memory, plan.files)
      && s' == s.(memory := AfterPlan(s.memory, plan), phase := if lost then s.phase else Applied(s.phase.index))
    case Edit(memory) =>
      s.phase.Admitted? && Look(memory, LEDGER) == Look(s.memory, LEDGER) && s' == s.(memory := memory)
    case MarkClear =>
      s.phase.Admitted? && s' == s.(flagged := true, phase := Clearing, cleaned := false)
    case CommitClear(clear, defaults) =>
      && s.phase.Clearing? && s.clear.None? && LEDGER !in defaults
      && s' == s.(memory := defaults + Retained(s.memory, clear), clear := Some(clear), cleaned := false)
    case Release =>
      s.running && !s.phase.Free? && !s.phase.Recorded? && s' == s.(phase := Free, cleaned := false)
    case Die =>
      s' == s.(running := false, flagged := false, phase := Free, cleaned := false)
  }

  predicate Initial(s: System) {
    && s.events == [] && s.clear.None? && !s.running && !s.flagged && s.phase.Free? && !s.cleaned && !s.unfenced
    && LEDGER !in s.memory
  }

  // ---- The invariant ----

  predicate Outstanding(s: System, index: int) {
    0 <= index < |s.events| && s.events[index].plan.Some?
  }

  // How much an outstanding plan, if it is already in the memory, adds to a context's turns.
  function InFlight(s: System, context: string): nat {
    if exists i | 0 <= i < |s.events| :: InFlightAt(s, i, context) then 1 else 0
  }

  predicate InFlightAt(s: System, index: int, context: string) {
    && Outstanding(s, index)
    && s.events[index].activity == Activity(context, true)
    && LedgerAtAfter(s.memory, s.events[index].plan.value)
  }

  predicate LedgerAtBefore(memory: Memory, plan: Plan<Content>) {
    forall f | f in plan.files && f.path == LEDGER :: Look(memory, LEDGER) == f.before
  }

  predicate LedgerAtAfter(memory: Memory, plan: Plan<Content>) {
    forall f | f in plan.files && f.path == LEDGER :: Look(memory, LEDGER) == f.after
  }

  predicate ClearingMemory(s: System) {
    s.clear.Some? && s.clear.value.memory
  }

  // The plan's turn is not in the memory yet.
  predicate Waiting(s: System, index: int) {
    Outstanding(s, index) && (s.events[index].activity.enabled ==> !LedgerAtAfter(s.memory, s.events[index].plan.value))
  }

  // One recorded plan at most, the oldest open event's; unless its recording was lost it is wholly
  // applied or not at all, and in any case its ledger is.
  ghost predicate PlanInv(s: System, index: int) {
    Outstanding(s, index) ==>
      var e := s.events[index];
      && FirstOpen(s.events, index) && CountsOnce(e.plan.value, e.activity)
      && (ClearingMemory(s) || LedgerAtBefore(s.memory, e.plan.value) || LedgerAtAfter(s.memory, e.plan.value))
      && (!s.unfenced ==> AtBefore(s.memory, e.plan.value) || AtAfter(s.memory, e.plan.value))
  }

  ghost predicate PlansInv(s: System) {
    forall i :: PlanInv(s, i)
  }

  ghost predicate NoPlan(s: System) {
    forall i :: !Outstanding(s, i)
  }

  // Unfinished work is always fenced: flagged, or waiting for startup, or in its holder's hands; a plan
  // whose recording was lost may wait unfenced, but not once its turn is in the memory.
  ghost predicate FenceInv(s: System) {
    && (s.unfenced || NoPlan(s) || (s.clear.None? && (s.flagged || !s.running || s.phase.Recorded?)))
    && (forall i | Outstanding(s, i) :: Waiting(s, i) || s.flagged || !s.running)
    && (s.clear.Some? ==> s.flagged || !s.running)
    && (ClearingMemory(s) && s.cleaned ==> NoPlan(s))
    && (s.phase.Admitted? ==> !s.flagged && s.running)
    && (s.phase.Admitted? || s.phase.Completed? ==> s.clear.None?)
    && (s.phase.Completed? ==> NoPlan(s))
    && (s.phase.Admitted? || s.phase.Clearing? ==> forall i | Outstanding(s, i) :: s.unfenced && Waiting(s, i))
    && (s.phase.Recorded? || s.phase.Marked? || s.phase.Applied? || s.phase.Replayed? ==> Outstanding(s, s.phase.index))
    && (s.phase.Recorded? || s.phase.Marked? || s.phase.Applied? ==> !s.unfenced)
    && (s.phase.Applied? || s.phase.Replayed? ==> AtAfter(s.memory, s.events[s.phase.index].plan.value))
    && (s.phase.Recorded? ==> Waiting(s, s.phase.index))
    && (s.phase.Recorded? || s.phase.Marked? || s.phase.Applied? || s.phase.Completed? || s.phase.Clearing? ==>
      s.running)
    && (s.phase.Marked? || s.phase.Applied? || s.phase.Completed? || s.phase.Clearing? ==> s.flagged)
  }

  // Every acknowledged event, and the one in flight, is counted exactly once.
  ghost predicate CountInv(s: System) {
    if s.clear.Some? && s.clear.value.memory then
      && (forall c :: Turns(s.memory, c) == 0)
      && (s.cleaned ==> forall c :: Count(s.events, c) == 0)
    else
      forall c :: Turns(s.memory, c) == Count(s.events, c) + InFlight(s, c)
  }

  ghost predicate Inv(s: System) {
    PlansInv(s) && FenceInv(s) && CountInv(s)
  }

  // ---- Facts about plans and counts ----

  lemma {:induction false} AppliedPlanIsIdle(memory: Memory, files: seq<PreparedFile<Content>>)
    requires forall f | f in files :: Look(memory, f.path) == f.after
    ensures Pending(memory, files) == []
  {
    if files != [] {
      assert files[|files| - 1] in files;
      AppliedPlanIsIdle(memory, files[..|files| - 1]);
    }
  }

  lemma AfterPlanFacts(memory: Memory, plan: Plan<Content>)
    requires WellFormed(plan)
    ensures AtAfter(AfterPlan(memory, plan), plan)
    ensures AtAfter(memory, plan) ==> AfterPlan(memory, plan) == memory
  {
    PendingReachesAfter(memory, plan.files);
    if AtAfter(memory, plan) {
      AppliedPlanIsIdle(memory, plan.files);
    }
  }

  lemma {:induction false} CountUpdated(events: seq<Event>, index: nat, event: Event, context: string)
    requires index < |events| && !events[index].completed
    ensures Count(events[index := event], context)
            == Count(events, context)
               + if event.completed && event.activity.enabled && event.activity.context == context then 1 else 0
  {
    var last := |events| - 1;
    if index < last {
      assert events[index := event][..last] == events[..last][index := event];
      CountUpdated(events[..last], index, event, context);
    } else {
      assert events[index := event][..last] == events[..last];
    }
  }

  lemma CountAppended(events: seq<Event>, event: Event, context: string)
    requires !event.completed
    ensures Count(events + [event], context) == Count(events, context)
  {
    assert (events + [event])[..|events|] == events;
  }

  lemma {:induction false} FirstOpenIsListed(events: seq<Event>, index: nat, from: nat, limit: nat)
    requires FirstOpen(events, index) && from <= index && limit > 0
    ensures OpenRows(events, from, limit) != [] && OpenRows(events, from, limit)[0] == index
    decreases index - from
  {
    if from < index {
      FirstOpenIsListed(events, index, from + 1, limit);
    }
  }

  lemma PlanAt(s: System, index: int)
    requires PlansInv(s) && Outstanding(s, index)
    ensures FirstOpen(s.events, index) && CountsOnce(s.events[index].plan.value, s.events[index].activity)
    ensures var plan := s.events[index].plan.value;
            && (ClearingMemory(s) || LedgerAtBefore(s.memory, plan) || LedgerAtAfter(s.memory, plan))
            && (!s.unfenced ==> AtBefore(s.memory, plan) || AtAfter(s.memory, plan))
  {
    assert PlanInv(s, index);
  }

  // The batch limit cannot hide a recorded plan: it always belongs to the first row returned.
  lemma NothingPreparedMeansNone(s: System)
    requires PlansInv(s) && NothingPrepared(s.events)
    ensures NoPlan(s)
  {
    var listed := OpenRows(s.events, 0, BATCH);
    forall i ensures !Outstanding(s, i) {
      if Outstanding(s, i) {
        PlanAt(s, i);
      }
      if FirstOpen(s.events, i) {
        FirstOpenIsListed(s.events, i, 0, BATCH);
        assert listed[0] in listed;
        assert s.events[i].plan.None?;
      }
    }
  }

  lemma OnlyOnePlan(s: System, i: int, j: int)
    requires PlansInv(s) && Outstanding(s, i) && Outstanding(s, j)
    ensures i == j
  {
    PlanAt(s, i);
    PlanAt(s, j);
  }

  // ---- The ledger ----

  lemma LedgerDecides(left: Memory, right: Memory)
    requires Look(left, LEDGER) == Look(right, LEDGER)
    ensures forall c :: Turns(left, c) == Turns(right, c)
    ensures forall plan: Plan<Content> :: LedgerAtAfter(left, plan) == LedgerAtAfter(right, plan)
    ensures forall plan: Plan<Content> :: LedgerAtBefore(left, plan) == LedgerAtBefore(right, plan)
  {
  }

  lemma LedgerOf(memory: Memory, c: string)
    ensures Turns(memory, c) == TurnsOf(Look(memory, LEDGER), c)
  {
  }

  // An enabled plan's ledger has one more turn behind it than before it.
  lemma LedgerMoves(memory: Memory, plan: Plan<Content>, activity: Activity)
    requires CountsOnce(plan, activity) && activity.enabled
    ensures !(LedgerAtBefore(memory, plan) && LedgerAtAfter(memory, plan))
    ensures LedgerAtAfter(memory, plan) ==> Turns(memory, activity.context) > 0
  {
    var f :| f in plan.files && f.path == LEDGER && OneTurn(f.before, f.after, activity.context);
    assert TurnsOf(f.after, activity.context) == TurnsOf(f.before, activity.context) + 1;
    LedgerOf(memory, activity.context);
  }

  // Applying moves it from the one to the other.
  lemma ApplyingMoves(memory: Memory, plan: Plan<Content>, activity: Activity)
    requires CountsOnce(plan, activity) && (LedgerAtBefore(memory, plan) || LedgerAtAfter(memory, plan))
    ensures AtAfter(AfterPlan(memory, plan), plan) && LedgerAtAfter(AfterPlan(memory, plan), plan)
    ensures activity.enabled && !LedgerAtAfter(memory, plan) ==>
              forall c :: Turns(AfterPlan(memory, plan), c) == Turns(memory, c) + if c == activity.context then 1 else 0
    ensures !activity.enabled || LedgerAtAfter(memory, plan) ==>
              forall c :: Turns(AfterPlan(memory, plan), c) == Turns(memory, c)
  {
    AfterPlanFacts(memory, plan);
    var after := AfterPlan(memory, plan);
    if activity.enabled {
      var f :| f in plan.files && f.path == LEDGER && OneTurn(f.before, f.after, activity.context);
      assert Look(after, LEDGER) == f.after;
      forall c ensures Turns(after, c) == TurnsOf(f.after, c) && Turns(memory, c) == TurnsOf(Look(memory, LEDGER), c) {
        LedgerOf(after, c);
        LedgerOf(memory, c);
      }
      if LedgerAtAfter(memory, plan) {
        assert Look(memory, LEDGER) == f.after;
      } else {
        assert Look(memory, LEDGER) == f.before;
      }
    }
  }

  // ---- Every step ----

  lemma AppendKeeps(s: System, activity: Activity, s': System)
    requires Inv(s) && Step(s, Accept(activity), s')
    ensures Inv(s')
  {
    assert forall i :: Outstanding(s', i) <==> Outstanding(s, i);
    forall i ensures PlanInv(s', i) {
      assert PlanInv(s, i);
      assert FirstOpen(s.events, i) ==> FirstOpen(s'.events, i);
    }
    assert forall i :: Waiting(s', i) <==> Waiting(s, i);
    forall c ensures Count(s'.events, c) == Count(s.events, c) && InFlight(s', c) == InFlight(s, c) {
      CountAppended(s.events, Event(activity, None, false), c);
      assert forall i :: InFlightAt(s', i, c) <==> InFlightAt(s, i, c);
    }
  }

  // Plans and counts depend on the stores only, and of the memory mostly on the ledger.
  lemma SameLedgerKeeps(s: System, s': System)
    requires PlansInv(s) && CountInv(s)
    requires s'.events == s.events && Look(s'.memory, LEDGER) == Look(s.memory, LEDGER) && s'.clear == s.clear
    requires s'.cleaned ==> s.cleaned
    requires s'.unfenced || (s'.unfenced == s.unfenced && s'.memory == s.memory) || NoPlan(s)
    ensures PlansInv(s') && CountInv(s')
    ensures forall i :: (Outstanding(s', i) <==> Outstanding(s, i)) && (Waiting(s', i) <==> Waiting(s, i))
  {
    LedgerDecides(s.memory, s'.memory);
    assert forall i :: Outstanding(s', i) <==> Outstanding(s, i);
    forall i ensures PlanInv(s', i) {
      assert PlanInv(s, i);
    }
    forall c ensures InFlight(s', c) == InFlight(s, c) {
      assert forall i :: InFlightAt(s', i, c) <==> InFlightAt(s, i, c);
    }
  }

  lemma NoPlanNoFlight(s: System)
    requires NoPlan(s)
    ensures PlansInv(s) && forall c :: InFlight(s, c) == 0
  {
    assert forall i :: PlanInv(s, i);
    assert forall i, c :: !InFlightAt(s, i, c);
  }

  lemma MarkClearKeeps(s: System, s': System)
    requires Inv(s) && (Step(s, MarkClear, s') || exists memory :: Step(s, Edit(memory), s'))
    ensures Inv(s')
  {
    assert NoPlan(s) || s.unfenced by {
      assert forall i | Outstanding(s, i) :: s.unfenced;
    }
    SameLedgerKeeps(s, s');
  }

  lemma CommitClearKeeps(s: System, clear: Clear, defaults: Memory, s': System)
    requires Inv(s) && Step(s, CommitClear(clear, defaults), s')
    ensures Inv(s')
  {
    assert forall i :: Outstanding(s', i) <==> Outstanding(s, i);
    assert NoPlan(s) || s.unfenced by {
      assert forall i | Outstanding(s, i) :: s.unfenced;
    }
    if clear.memory {
      assert LEDGER !in s'.memory;
      assert forall c :: Turns(s'.memory, c) == 0;
      forall i ensures PlanInv(s', i) {
        assert PlanInv(s, i);
      }
      forall i | Outstanding(s', i) ensures Waiting(s', i) {
        PlanAt(s, i);
        if s.events[i].activity.enabled {
          LedgerMoves(s'.memory, s.events[i].plan.value, s.events[i].activity);
        }
      }
    } else {
      assert Look(s'.memory, LEDGER) == Look(s.memory, LEDGER);
      var same := s.(memory := s'.memory);
      SameLedgerKeeps(s, same);
      ClearOnlyGraph(same, s');
    }
  }

  // A pending clear of the graph alone, or its end, concerns neither plans nor counts.
  lemma ClearOnlyGraph(s: System, s': System)
    requires PlansInv(s) && CountInv(s) && !ClearingMemory(s) && !ClearingMemory(s')
    requires s'.events == s.events && s'.memory == s.memory && s'.unfenced == s.unfenced
    ensures PlansInv(s') && CountInv(s')
    ensures forall i :: (Outstanding(s', i) <==> Outstanding(s, i)) && (Waiting(s', i) <==> Waiting(s, i))
  {
    assert forall i :: Outstanding(s', i) <==> Outstanding(s, i);
    forall i ensures PlanInv(s', i) {
      assert PlanInv(s, i);
    }
    forall c ensures InFlight(s', c) == InFlight(s, c) {
      assert forall i :: InFlightAt(s', i, c) <==> InFlightAt(s, i, c);
    }
  }

  lemma CleanSqlKeeps(s: System, s': System)
    requires Inv(s) && Step(s, CleanSql, s')
    ensures Inv(s')
  {
    if s.clear.value.memory {
      assert NoPlan(s');
      NoPlanNoFlight(s');
    } else {
      ClearOnlyGraph(s, s');
    }
  }

  lemma AcknowledgeClearKeeps(s: System, s': System)
    requires Inv(s) && Step(s, AcknowledgeClear, s')
    ensures Inv(s')
  {
    assert forall i :: Outstanding(s', i) <==> Outstanding(s, i);
    if s.clear.value.memory {
      assert NoPlan(s');
      NoPlanNoFlight(s');
    } else {
      ClearOnlyGraph(s, s');
    }
  }

  lemma FenceKeeps(s: System, a: Action, s': System)
    requires Inv(s) && Step(s, a, s')
    requires || a.Reserve? || a.Boot? || a.Flag? || a.Up? || a.Unflag? || a.Admission? || a.Mark? || a.LoseReply? ||
    a.Release?
             || a.Die?
    ensures Inv(s')
  {
    SameLedgerKeeps(s, s');
    if NothingPrepared(s.events) {
      NothingPreparedMeansNone(s);
    }
    if s.phase.Recorded? {
      forall i | Outstanding(s, i) ensures i == s.phase.index {
        OnlyOnePlan(s, i, s.phase.index);
      }
    }
  }

  lemma RecordKeeps(s: System, index: nat, plan: Plan<Content>, s': System)
    requires Inv(s) && Step(s, Record(index, plan), s')
    ensures Inv(s')
  {
    var activity := s.events[index].activity;
    forall i ensures !Outstanding(s, i) {
      if Outstanding(s, i) {
        PlanAt(s, i);
      }
    }
    assert NoPlan(s);
    assert s'.events[index].plan == Some(plan);
    forall i ensures Outstanding(s', i) <==> i == index {
      assert i != index && 0 <= i < |s.events| ==> s'.events[i] == s.events[i] && !Outstanding(s, i);
    }
    AgingCountsOnce(s.memory, activity, plan);
    if activity.enabled {
      LedgerMoves(s.memory, plan, activity);
    }
    assert LedgerAtBefore(s.memory, plan);
    assert FirstOpen(s'.events, index);
    assert forall i :: PlanInv(s', i);
    forall c ensures Count(s'.events, c) == Count(s.events, c) && InFlight(s', c) == 0 == InFlight(s, c) {
      CountUpdated(s.events, index, s'.events[index], c);
      assert forall i :: !InFlightAt(s, i, c) && !InFlightAt(s', i, c);
    }
  }

  lemma ApplyKeeps(s: System, a: Action, index: nat, s': System)
    requires Inv(s) && Step(s, a, s')
    requires a == Replay(index) || (a.Apply? && s.phase == Marked(index))
    ensures Inv(s')
  {
    assert Outstanding(s, index);
    PlanAt(s, index);
    var e := s.events[index];
    var plan := e.plan.value;
    assert s.clear.None? by {
      assert a.Apply? ==> !s.unfenced && !NoPlan(s);
    }
    ApplyingMoves(s.memory, plan, e.activity);
    assert forall i :: Outstanding(s', i) <==> Outstanding(s, i);
    forall i | Outstanding(s, i) ensures i == index {
      OnlyOnePlan(s, i, index);
    }
    assert forall i :: PlanInv(s', i);
    AppliedCounts(s, index, s');
  }

  lemma AppliedCounts(s: System, index: nat, s': System)
    requires Outstanding(s, index) && (forall i | Outstanding(s, i) :: i == index)
    requires s'.events == s.events && s'.clear == s.clear && s.clear.None? && CountInv(s)
    requires var e := s.events[index];
             && LedgerAtAfter(s'.memory, e.plan.value)
             && (if e.activity.enabled && !LedgerAtAfter(s.memory, e.plan.value)
                 then forall c :: Turns(s'.memory, c) == Turns(s.memory, c) + if c == e.activity.context then 1 else 0
                 else forall c :: Turns(s'.memory, c) == Turns(s.memory, c))
    ensures CountInv(s')
  {
    var e := s.events[index];
    assert forall i :: Outstanding(s', i) <==> Outstanding(s, i);
    forall c ensures Turns(s'.memory, c) == Count(s'.events, c) + InFlight(s', c) {
      assert forall i :: InFlightAt(s', i, c) ==> Outstanding(s', i) && i == index;
      assert forall i :: InFlightAt(s, i, c) ==> i == index;
      assert InFlightAt(s', index, c) <==> e.activity == Activity(c, true);
      assert InFlightAt(s, index, c) <==> e.activity == Activity(c, true) && LedgerAtAfter(s.memory, e.plan.value);
    }
  }

  lemma AcknowledgeKeeps(s: System, index: nat, s': System)
    requires Inv(s) && Step(s, Acknowledge(index), s')
    ensures Inv(s')
  {
    var e := s.events[index];
    PlanAt(s, index);
    forall i | Outstanding(s, i) ensures i == index {
      OnlyOnePlan(s, i, index);
    }
    forall i ensures !Outstanding(s', i) {
      assert Outstanding(s', i) ==> Outstanding(s, i) && i != index;
    }
    NoPlanNoFlight(s');
    assert LedgerAtAfter(s.memory, e.plan.value);
    if e.activity.enabled {
      LedgerMoves(s.memory, e.plan.value, e.activity);
    }
    forall c ensures Count(s'.events, c) == Count(s.events, c) + InFlight(s, c) {
      CountUpdated(s.events, index, s'.events[index], c);
      assert forall i :: InFlightAt(s, i, c) ==> i == index;
      assert InFlightAt(s, index, c) <==> e.activity == Activity(c, true);
    }
  }

  /** Every step, a lost reply and a process death included, keeps the invariant. */
  lemma StepKeepsInv(s: System, a: Action, s': System)
    requires Inv(s) && Step(s, a, s')
    ensures Inv(s')
  {
    match a
    case Accept(activity) => AppendKeeps(s, activity, s');
    case CleanSql => CleanSqlKeeps(s, s');
    case AcknowledgeClear => AcknowledgeClearKeeps(s, s');
    case MarkClear => MarkClearKeeps(s, s');
    case CommitClear(clear, defaults) => CommitClearKeeps(s, clear, defaults, s');
    case Edit(_) => MarkClearKeeps(s, s');
    case Record(index, plan) => RecordKeeps(s, index, plan, s');
    case Replay(index) => ApplyKeeps(s, a, index, s');
    case Apply(_) => ApplyKeeps(s, a, s.phase.index, s');
    case Acknowledge(index) => AcknowledgeKeeps(s, index, s');
    case _ => FenceKeeps(s, a, s');
  }

  ghost predicate Next(s: System, s': System) {
    exists a :: Step(s, a, s')
  }

  ghost predicate IsRun(trace: seq<System>) {
    && trace != []
    && Initial(trace[0])
    && forall i :: 0 <= i < |trace| - 1 ==> Next(trace[i], trace[i + 1])
  }

  lemma {:induction false} EveryRunIsSafe(trace: seq<System>)
    requires IsRun(trace)
    ensures Inv(trace[|trace| - 1])
  {
    if |trace| > 1 {
      var last := |trace| - 1;
      EveryRunIsSafe(trace[..last]);
      var a :| Step(trace[last - 1], a, trace[last]);
      StepKeepsInv(trace[last - 1], a, trace[last]);
    } else {
      assert forall i :: !Outstanding(trace[0], i);
      assert forall c, i :: !InFlightAt(trace[0], i, c);
    }
  }

  /** Over every schedule: at most one recorded plan; once a holder is admitted, each context's turn
      counter equals the acknowledged events of that context; and a replay never conflicts unless the reply
      to recording its plan was lost. */
  lemma ExactlyOnceAging(trace: seq<System>)
    requires IsRun(trace)
    ensures var s := trace[|trace| - 1];
            && (forall i, j :: Outstanding(s, i) && Outstanding(s, j) ==> i == j)
            && (s.phase.Admitted? ==> forall c :: Turns(s.memory, c) == Count(s.events, c))
            && (!s.unfenced ==> forall i | Outstanding(s, i) :: Replayable(s.memory, s.events[i].plan.value.files))
  {
    EveryRunIsSafe(trace);
    var s := trace[|trace| - 1];
    forall i, j | Outstanding(s, i) && Outstanding(s, j) ensures i == j {
      OnlyOnePlan(s, i, j);
    }
    if s.phase.Admitted? {
      WaitingIsNotInFlight(s);
    }
    forall i | Outstanding(s, i) && !s.unfenced ensures Replayable(s.memory, s.events[i].plan.value.files) {
      PlanAt(s, i);
    }
  }

  lemma WaitingIsNotInFlight(s: System)
    requires forall i | Outstanding(s, i) :: Waiting(s, i)
    ensures forall c :: InFlight(s, c) == 0
  {
    assert forall i, c :: InFlightAt(s, i, c) ==> Outstanding(s, i);
  }

  // ---- Lost recordings ----

  ghost predicate IsScheduled(trace: seq<System>, actions: seq<Action>) {
    && |trace| == |actions| + 1 && Initial(trace[0])
    && forall i :: 0 <= i < |actions| ==> Step(trace[i], actions[i], trace[i + 1])
  }

  /** Without a lost recording no plan is ever left unfenced, so no replay ever conflicts. */
  lemma {:induction false} HeardRecordingsStayFenced(trace: seq<System>, actions: seq<Action>)
    requires IsScheduled(trace, actions) && LoseReply !in actions
    ensures !trace[|actions|].unfenced
  {
    if actions != [] {
      var n := |actions| - 1;
      assert actions[n] in actions;
      HeardRecordingsStayFenced(trace[..|actions|], actions[..n]);
      assert Step(trace[n], actions[n], trace[n + 1]);
    }
  }

  // A plan that counts the turn and creates a file, as one that writes more than the ledger.
  function CreatingPlan(memory: Memory, activity: Activity, path: Path): Plan<Content> {
    var count := CountTurn(memory, activity);
    count.(files := count.files + [PreparedFile(path, Look(memory, path), Some(Text("planned")))])
  }

  lemma CreatingAgesOnce(memory: Memory, activity: Activity, path: Path)
    requires activity.enabled && SafePath(path) && path != LEDGER
    ensures AgesOnce(memory, activity, CreatingPlan(memory, activity, path))
    ensures !OnlyLedger(CreatingPlan(memory, activity, path))
  {
    var plan, count := CreatingPlan(memory, activity, path), CountTurn(memory, activity);
    assert plan.files[0] == count.files[0] && plan.files[0] in plan.files && plan.files[0].path == LEDGER;
    assert plan.files[1] in plan.files;
    AfterPlanFacts(memory, plan);
    assert LEDGER in Targets(plan.files);
    assert Look(AfterPlan(memory, plan), LEDGER) == plan.files[0].after;
  }

  // ---- Which plans an admitted edit can make conflict ----

  // A text that is none of the two images of a file.
  function FreshText(before: Option<Content>, after: Option<Content>): (r: Content)
    ensures Some(r) != before && Some(r) != after
  {
    var candidates := [Text(""), Text("a"), Text("b")];
    if Some(candidates[0]) !in {before, after} then candidates[0]
    else if Some(candidates[1]) !in {before, after} then candidates[1]
    else candidates[2]
  }

  /** Exactly the plans that write more than the ledger can be made to conflict: an admitted edit may put a
      text at any other target, and may not touch the ledger. */
  lemma EditsSpareExactlyLedgers(s: System, index: int)
    requires Inv(s) && s.phase.Admitted? && Outstanding(s, index)
    requires Replayable(s.memory, s.events[index].plan.value.files)
    ensures (forall m, s' :: Step(s, Edit(m), s') ==> Replayable(s'.memory, s.events[index].plan.value.files))
            <==> OnlyLedger(s.events[index].plan.value)
  {
    var plan := s.events[index].plan.value;
    if !OnlyLedger(plan) {
      var f :| f in plan.files && f.path != LEDGER;
      var s' := EditConflicts(s, plan, f);
    }
  }

  predicate OnlyLedger(plan: Plan<Content>) {
    forall f | f in plan.files :: f.path == LEDGER
  }

  lemma EditConflicts(s: System, plan: Plan<Content>, f: PreparedFile<Content>) returns (s': System)
    requires s.phase.Admitted? && f in plan.files && f.path != LEDGER
    ensures Step(s, Edit(s'.memory), s') && !Replayable(s'.memory, plan.files)
  {
    var edited := s.memory[f.path := FreshText(f.before, f.after)];
    s' := s.(memory := edited);
    assert Look(edited, f.path) == Some(FreshText(f.before, f.after));
  }

  /** So every recording of such a plan is exposed: when its reply is lost, an edit admitted afterwards makes
      the plan conflict. */
  lemma LostRecordingCanConflict(s: System, index: nat, plan: Plan<Content>)
    returns (recorded: System, free: System, reserved: System, admitted: System, s': System)
    requires Inv(s) && s.phase.Admitted? && FirstOpen(s.events, index) && s.events[index].plan.None?
    requires AgesOnce(s.memory, s.events[index].activity, plan) && !OnlyLedger(plan)
    ensures Step(s, Record(index, plan), recorded) && Step(recorded, LoseReply, free)
    ensures Step(free, Reserve, reserved) && Step(reserved, Admission, admitted)
    ensures Step(admitted, Edit(s'.memory), s')
    ensures Outstanding(s', index) && !Replayable(s'.memory, s'.events[index].plan.value.files)
  {
    recorded := SetEvent(s, index, s.events[index].(plan := Some(plan))).(phase := Recorded(index), unfenced := false);
    free, reserved, admitted := LosingReadmits(recorded);
    var f :| f in plan.files && f.path != LEDGER;
    s' := EditConflicts(admitted, plan, f);
  }

  // Nothing stands between a lost recording and the next admission.
  lemma LosingReadmits(recorded: System) returns (free: System, reserved: System, admitted: System)
    requires recorded.phase.Recorded? && recorded.running && !recorded.flagged
    ensures Step(recorded, LoseReply, free) && Step(free, Reserve, reserved) && Step(reserved, Admission, admitted)
    ensures admitted == recorded.(phase := Admitted, cleaned := false, unfenced := true)
  {
    free := recorded.(phase := Free, cleaned := false, unfenced := true);
    reserved := free.(phase := Recovering);
    admitted := reserved.(phase := Admitted);
  }

  /** A plan of the ledger alone is replayable whenever recovery may reach it, in every reachable state. */
  lemma LedgerPlansNeverConflict(s: System, index: int)
    requires Inv(s) && Outstanding(s, index) && !ClearingMemory(s) && OnlyLedger(s.events[index].plan.value)
    ensures Replayable(s.memory, s.events[index].plan.value.files)
  {
    PlanAt(s, index);
  }

  // The oldest open event has a plan that conflicts, and nobody is admitted.
  ghost predicate Stuck(s: System, index: int, plan: Plan<Content>) {
    && Inv(s) && s.clear.None? && (s.phase.Free? || s.phase.Recovering?) && (s.running ==> s.flagged)
    && Outstanding(s, index) && s.events[index].plan == Some(plan) && !Replayable(s.memory, plan.files)
  }

  lemma StepStaysStuck(s: System, a: Action, s': System, index: int, plan: Plan<Content>)
    requires Stuck(s, index, plan) && Step(s, a, s')
    ensures Stuck(s', index, plan) && s'.memory == s.memory
  {
    StepKeepsInv(s, a, s');
    PlanAt(s, index);
    if NothingPrepared(s.events) {
      NothingPreparedMeansNone(s);
    }
    if a.Replay? {
      OnlyOnePlan(s, index, a.index);
    }
  }

  // A schedule from any state on.
  ghost predicate Continues(trace: seq<System>, actions: seq<Action>) {
    |trace| == |actions| + 1 && forall i :: 0 <= i < |actions| ==> Step(trace[i], actions[i], trace[i + 1])
  }

  /** A Space that recovers a conflicting plan is fenced for good: over any later schedule, restarts
      included, nobody is admitted, the memory stays as it is and the plan's turn is never counted. */
  lemma {:induction false} ConflictFencesForGood(trace: seq<System>, actions: seq<Action>, index: int,
                                                 plan: Plan<Content>)
    requires Continues(trace, actions) && Stuck(trace[0], index, plan)
    ensures Stuck(trace[|actions|], index, plan)
    ensures trace[|actions|].memory == trace[0].memory && !trace[|actions|].phase.Admitted?
    ensures !trace[|actions|].events[index].completed
  {
    var n := |actions|;
    if n > 0 {
      assert Continues(trace[..n], actions[..n - 1]);
      ConflictFencesForGood(trace[..n], actions[..n - 1], index, plan);
      StepStaysStuck(trace[n - 1], actions[n - 1], trace[n], index, plan);
    }
    PlanAt(trace[n], index);
  }

  /** An admitted state with a conflicting plan is one process death away from that. */
  lemma DeathAfterConflict(s: System, index: int, s': System)
    requires Inv(s) && s.phase.Admitted? && Outstanding(s, index) && Step(s, Die, s')
    requires !Replayable(s.memory, s.events[index].plan.value.files)
    ensures Stuck(s', index, s.events[index].plan.value)
  {
    StepKeepsInv(s, Die, s');
  }
}
