/**
 The procedures that run the plan-recovery protocol for one Space.

 Every call into SQL or into the Space worker may fail, or take effect and lose its reply; completed
 turns may be accepted between any two calls. The object keeps a ghost history: each procedure is
 proved to do nothing but steps of the transition system, so everything proved about runs holds of
 it at every point.
 */
module RecoveringCore {
  import opened Wrappers
  import opened Files
  import opened PreparedCommit
  import opened SpaceJournal
  import opened PlanRecovery

  lemma {:induction false} OpenRowsShape(events: seq<Event>, from: nat, limit: nat)
    requires from <= |events|
    ensures var rows := OpenRows(events, from, limit);
            && |rows| <= limit
            && (forall k :: 0 <= k < |rows| ==> from <= rows[k] < |events| && !events[rows[k]].completed)
            && (forall j, k :: 0 <= j < k < |rows| ==> rows[j] < rows[k])
            && (forall i :: from <= i < |events| && !events[i].completed ==>
                  i in rows || (|rows| == limit && forall k :: 0 <= k < |rows| ==> rows[k] < i))
    decreases |events| - from
  {
    if from < |events| && limit > 0 {
      if events[from].completed {
        OpenRowsShape(events, from + 1, limit);
      } else {
        OpenRowsShape(events, from + 1, limit - 1);
        var later := OpenRows(events, from + 1, limit - 1);
        assert OpenRows(events, from, limit) == [from] + later;
        assert forall i :: i in [from] + later <==> i == from || i in later;
      }
    }
  }

  // Completed events stay completed, and no event changes its activity.
  predicate Onward(before: seq<Event>, after: seq<Event>) {
    |before| <= |after| && forall i :: 0 <= i < |before| ==>
      after[i].activity == before[i].activity && (before[i].completed ==> after[i].completed)
  }

  // A row of a batch is completed or in the next batch.
  lemma {:induction false} BatchMovesOn(before: seq<Event>, after: seq<Event>, from: nat, limit: nat, limit': nat)
    requires Onward(before, after) && from <= |before| && limit <= limit'
    ensures forall i | i in OpenRows(before, from, limit) :: after[i].completed || i in OpenRows(after, from, limit')
    decreases |before| - from
  {
    if from < |before| && limit > 0 {
      BatchMovesOn(before, after, from + 1, if before[from].completed then limit else limit - 1,
                   if after[from].completed then limit' else limit' - 1);
    }
  }

  lemma BatchesDone(before: seq<Event>, admitted: seq<Event>, after: seq<Event>)
    requires Onward(before, admitted) && Onward(admitted, after)
    requires forall i | i in OpenRows(admitted, 0, BATCH) :: i < |after| && after[i].completed
    ensures Onward(before, after) && forall i | i in OpenRows(before, 0, BATCH) :: i < |after| && after[i].completed
  {
    BatchMovesOn(before, admitted, 0, BATCH, BATCH);
  }

  // Later events leave a full batch as it is, and fill up a short one.
  lemma {:induction false} BatchGrows(before: seq<Event>, after: seq<Event>, from: nat, limit: nat)
    requires before <= after && from <= |before|
    ensures OpenRows(before, from, limit) <= OpenRows(after, from, limit)
    ensures forall i | i in OpenRows(after, from, limit) && i < |before| :: i in OpenRows(before, from, limit)
    decreases |before| - from
  {
    if from < |before| && limit > 0 {
      BatchGrows(before, after, from + 1, if before[from].completed then limit else limit - 1);
    }
  }

  // Ageing by one activity after the other, each prepared from the memory that the one before left.
  function AgedBy(prepare: (Memory, Activity) -> Result<Plan<Content>, PlanError>, memory: Memory,
                  activities: seq<Activity>): Option<Memory>
  {
    if activities == [] then Some(memory)
    else
      match AgedBy(prepare, memory, activities[..|activities| - 1])
      case None => None
      case Some(reached) =>
        match prepare(reached, activities[|activities| - 1])
        case Ok(plan) => Some(AfterPlan(reached, plan))
        case Err(_) => None
  }

  lemma AgedOnce(memory: Memory, activity: Activity, plan: Plan<Content>)
    requires AgesOnce(memory, activity, plan)
    ensures activity.enabled ==>
              forall c :: Turns(AfterPlan(memory, plan), c) == Turns(memory, c) + if c == activity.context then 1 else 0
    ensures !activity.enabled ==> AfterPlan(memory, plan) == memory
  {
  }

  // Every enabled activity adds one turn to its context.
  function Enabled(activities: seq<Activity>, context: string): nat {
    if activities == [] then 0
    else
      Enabled(activities[..|activities| - 1], context)
      + if activities[|activities| - 1] == Activity(context, true) then 1 else 0
  }

  lemma {:induction false} AgedByCounts(prepare: (Memory, Activity) -> Result<Plan<Content>, PlanError>,
                                        memory: Memory, activities: seq<Activity>)
    requires forall m, a :: prepare(m, a).Ok? ==> AgesOnce(m, a, prepare(m, a).value)
    ensures AgedBy(prepare, memory, activities).Some? ==> forall c ::
              Turns(AgedBy(prepare, memory, activities).value, c) == Turns(memory, c) + Enabled(activities, c)
  {
    if activities != [] {
      var init, last := activities[..|activities| - 1], activities[|activities| - 1];
      AgedByCounts(prepare, memory, init);
      if AgedBy(prepare, memory, activities).Some? {
        var reached := AgedBy(prepare, memory, init).value;
        assert AgesOnce(reached, last, prepare(reached, last).value);
      }
    }
  }

  // Exactly these rows became completed; their plans are gone, and later rows are open or completed.
  predicate OnlyCompletes(before: seq<Event>, after: seq<Event>, rows: seq<nat>) {
    && |before| <= |after|
    && forall i :: 0 <= i < |before| ==>
         after[i] == if i in rows then Event(before[i].activity, None, true) else before[i]
  }

  // The first k rows of the batch that was read in state s are done.
  ghost predicate Progress(prepare: (Memory, Activity) -> Result<Plan<Content>, PlanError>, s: System, now: System,
                           rows: seq<nat>, k: nat)
  {
    && k <= |rows| && (forall m :: 0 <= m < |rows| ==> rows[m] < |s.events|)
    && Covers(now.events, rows, k)
    && OnlyCompletes(s.events, now.events, rows[..k])
    && AgedBy(prepare, s.memory, ActivitiesOf(s.events, rows)[..k]) == Some(now.memory)
    && forall m :: 0 <= m < k ==> s.events[rows[m]].plan.None?
  }

  lemma NothingDone(prepare: (Memory, Activity) -> Result<Plan<Content>, PlanError>, s: System, rows: seq<nat>)
    requires rows == OpenRows(s.events, 0, BATCH)
    ensures Progress(prepare, s, s, rows, 0)
  {
    OpenRowsShape(s.events, 0, BATCH);
    NothingCompleted(s.events, rows);
    AgedByNothing(prepare, s.memory, ActivitiesOf(s.events, rows));
  }

  lemma AllDone(prepare: (Memory, Activity) -> Result<Plan<Content>, PlanError>, s: System, now: System,
                rows: seq<nat>)
    requires Inv(s) && rows == OpenRows(s.events, 0, BATCH) && Progress(prepare, s, now, rows, |rows|)
    ensures OnlyCompletes(s.events, now.events, rows) && NoPlan(s)
    ensures AgedBy(prepare, s.memory, ActivitiesOf(s.events, rows)) == Some(now.memory)
  {
    assert rows[..|rows|] == rows;
    assert ActivitiesOf(s.events, rows)[..|rows|] == ActivitiesOf(s.events, rows);
    OnlyTheFirst(s);
    NoneWaits(s, rows);
  }

  lemma NoPlanMore(s: System, s': System)
    requires s.events <= s'.events && forall i :: |s.events| <= i < |s'.events| ==> s'.events[i].plan.None?
    ensures NoPlan(s) <==> NoPlan(s')
  {
    assert forall i :: Outstanding(s, i) <==> Outstanding(s', i);
  }

  lemma {:induction false} AlwaysAged(prepare: (Memory, Activity) -> Result<Plan<Content>, PlanError>,
                                      memory: Memory, activities: seq<Activity>)
    ensures (forall m, a :: prepare(m, a).Ok?) ==> AgedBy(prepare, memory, activities).Some?
  {
    if activities != [] {
      AlwaysAged(prepare, memory, activities[..|activities| - 1]);
    }
  }

  lemma NothingCompleted(events: seq<Event>, rows: seq<nat>)
    ensures OnlyCompletes(events, events, rows[..0])
  {
  }

  lemma AgedByNothing(prepare: (Memory, Activity) -> Result<Plan<Content>, PlanError>, memory: Memory,
                      activities: seq<Activity>)
    ensures AgedBy(prepare, memory, activities[..0]) == Some(memory)
  {
  }

  lemma CompletesMore(start: seq<Event>, before: seq<Event>, after: seq<Event>, rows: seq<nat>, k: nat)
    requires k < |rows| && OnlyCompletes(start, before, rows[..k]) && |before| <= |after|
    requires rows[k] < |start| && after[rows[k]] == Event(before[rows[k]].activity, None, true)
    requires forall i :: 0 <= i < |before| && i != rows[k] ==> after[i] == before[i]
    ensures OnlyCompletes(start, after, rows[..k + 1])
  {
    assert rows[..k + 1] == rows[..k] + [rows[k]];
  }

  // What processing row k meets, and what it means for the batch when it cannot go on.
  lemma AtRow(s: System, before: System, rows: seq<nat>, k: nat,
              prepare: (Memory, Activity) -> Result<Plan<Content>, PlanError>, activities: seq<Activity>)
    requires k < |rows| && (forall i, j :: 0 <= i < j < |rows| ==> rows[i] < rows[j])
    requires forall m :: 0 <= m < |rows| ==> rows[m] < |s.events|
    requires activities == ActivitiesOf(s.events, rows) && OnlyCompletes(s.events, before.events, rows[..k])
    requires AgedBy(prepare, s.memory, activities[..k]) == Some(before.memory)
    ensures rows[k] < |before.events| && before.events[rows[k]] == s.events[rows[k]]
    ensures activities[k] == s.events[rows[k]].activity
    ensures match prepare(before.memory, activities[k])
            case Ok(plan) =>
              AgedBy(prepare, s.memory, activities[..k + 1]) == Some(AfterPlan(before.memory, plan))
            case Err(_) => AgedBy(prepare, s.memory, activities).None?
    ensures before.events[rows[k]].plan.Some? ==> !NoPlan(s)
  {
    assert rows[k] !in rows[..k];
    assert activities[..k + 1] == activities[..k] + [activities[k]];
    AgedByMore(prepare, s.memory, activities[..k], activities[k]);
    if prepare(before.memory, activities[k]).Err? {
      AgedByStops(prepare, s.memory, activities, k + 1);
    }
    assert s.events[rows[k]].plan.Some? ==> Outstanding(s, rows[k]);
  }

  lemma NoneWaits(s: System, rows: seq<nat>)
    requires forall i | Outstanding(s, i) :: |rows| > 0 && rows[0] == i
    requires forall m :: 0 <= m < |rows| ==> rows[m] < |s.events| && s.events[rows[m]].plan.None?
    ensures NoPlan(s)
  {
    forall i ensures !Outstanding(s, i) {
      assert rows != [] ==> s.events[rows[0]].plan.None?;
    }
  }

  lemma AgedByMore(prepare: (Memory, Activity) -> Result<Plan<Content>, PlanError>, memory: Memory,
                   activities: seq<Activity>, activity: Activity)
    ensures AgedBy(prepare, memory, activities + [activity]) ==
            match AgedBy(prepare, memory, activities)
            case None => None
            case Some(reached) =>
              match prepare(reached, activity) case Ok(plan) => Some(AfterPlan(reached, plan)) case Err(_) => None
  {
    assert (activities + [activity])[..|activities|] == activities;
  }

  // An activity that cannot be prepared ends the rest.
  lemma {:induction false} AgedByStops(prepare: (Memory, Activity) -> Result<Plan<Content>, PlanError>,
                                       memory: Memory, activities: seq<Activity>, count: nat)
    requires count <= |activities| && AgedBy(prepare, memory, activities[..count]).None?
    ensures AgedBy(prepare, memory, activities).None?
  {
    var n := |activities|;
    if count < n {
      assert activities[..n - 1][..count] == activities[..count];
      AgedByStops(prepare, memory, activities[..n - 1], count);
    } else {
      assert activities[..count] == activities;
    }
  }

  function ActivitiesOf(events: seq<Event>, rows: seq<nat>): (r: seq<Activity>)
    requires forall k :: 0 <= k < |rows| ==> rows[k] < |events|
    ensures |r| == |rows|
  {
    seq(|rows|, k requires 0 <= k < |rows| => events[rows[k]].activity)
  }

  // Recovery has nothing that it cannot finish: whatever plan it may reach is replayable.
  predicate Recoverable(s: System) {
    ClearingMemory(s) || forall i | 0 <= i < |s.events| && s.events[i].plan.Some? ::
      Replayable(s.memory, s.events[i].plan.value.files)
  }

  lemma RecoverableMore(s: System, s': System)
    requires s'.memory == s.memory && s'.clear.None?
    requires if ClearingMemory(s) then forall i :: 0 <= i < |s'.events| ==> s'.events[i].plan.None?
             else s.events <= s'.events && forall i :: |s.events| <= i < |s'.events| ==> s'.events[i].plan.None?
    ensures Recoverable(s) == Recoverable(s')
  {
    if !ClearingMemory(s) {
      forall i | 0 <= i < |s.events| ensures s'.events[i] == s.events[i] {
      }
    }
  }

  lemma RecoverableAlone(s: System, index: nat)
    requires Inv(s) && s.clear.None? && Outstanding(s, index)
    ensures Recoverable(s) <==> Replayable(s.memory, s.events[index].plan.value.files)
  {
    if Replayable(s.memory, s.events[index].plan.value.files) {
      forall i | 0 <= i < |s.events| && s.events[i].plan.Some?
        ensures Replayable(s.memory, s.events[i].plan.value.files)
      {
        OnlyOnePlan(s, i, index);
      }
    }
  }

  lemma OnwardSame(events: seq<Event>)
    ensures Onward(events, events)
  {
  }

  lemma SameRecoverable(s: System, s': System)
    requires s'.events == s.events && s'.memory == s.memory && s'.clear == s.clear
    ensures Recoverable(s) == Recoverable(s')
  {
  }

  lemma NoPlanRecovers(s: System)
    requires NoPlan(s)
    ensures Recoverable(s)
  {
    forall i | 0 <= i < |s.events| ensures s.events[i].plan.None? {
      assert !Outstanding(s, i);
    }
  }

  // A plan waits in the first row of the batch.
  lemma OnlyTheFirst(s: System)
    requires Inv(s)
    ensures var rows := OpenRows(s.events, 0, BATCH);
            forall i | Outstanding(s, i) :: |rows| > 0 && rows[0] == i
  {
    forall i | Outstanding(s, i)
      ensures |OpenRows(s.events, 0, BATCH)| > 0 && OpenRows(s.events, 0, BATCH)[0] == i
    {
      PlanAt(s, i);
      FirstOpenIsListed(s.events, i, 0, BATCH);
    }
  }

  // rows[k..] are the oldest open events, in order; everything older is completed.
  ghost predicate Covers(events: seq<Event>, rows: seq<nat>, k: nat) {
    && k <= |rows|
    && (forall i, j :: 0 <= i < j < |rows| ==> rows[i] < rows[j])
    && (forall m :: k <= m < |rows| ==> rows[m] < |events| && !events[rows[m]].completed)
    && (forall i :: 0 <= i < |events| && !events[i].completed ==>
          i in rows[k..] || forall m :: 0 <= m < |rows| ==> rows[m] < i)
  }

  lemma CoversFirst(events: seq<Event>, rows: seq<nat>, k: nat)
    requires Covers(events, rows, k) && k < |rows|
    ensures FirstOpen(events, rows[k])
  {
    forall i | 0 <= i < rows[k] ensures events[i].completed {
      assert forall m :: k <= m < |rows| ==> i < rows[m];
      assert i !in rows[k..];
    }
  }

  lemma CoversNext(events: seq<Event>, events': seq<Event>, rows: seq<nat>, k: nat)
    requires Covers(events, rows, k) && k < |rows| && |events| <= |events'|
    requires events'[rows[k]].completed
    requires forall i :: 0 <= i < |events| && i != rows[k] ==> events'[i] == events[i]
    ensures Covers(events', rows, k + 1)
  {
    forall i | 0 <= i < |events'| && !events'[i].completed
      ensures i in rows[k + 1..] || forall m :: 0 <= m < |rows| ==> rows[m] < i
    {
      if i < |events| && i in rows[k..] {
        var m :| k <= m < |rows| && rows[m] == i;
        assert rows[k + 1..][m - k - 1] == i;
      } else if i >= |events| {
        assert forall m :: 0 <= m < |rows| ==> rows[m] <= rows[|rows| - 1] < |events|;
      }
    }
  }

  class Core {
    const prepareLifecycle: (Memory, Activity) -> Result<Plan<Content>, PlanError>
    // durable
    var events: seq<Event>
    var memory: Memory
    var clear: Option<Clear>
    // volatile
    var flagged: bool
    var running: bool
    ghost var phase: Phase
    ghost var cleaned: bool
    ghost var unfenced: bool
    ghost var history: seq<System>
    // what the environment does next
    var outages: seq<Outage>
    var arrivals: seq<seq<Activity>>

    ghost function View(): System
      reads this
    {
      System(events, memory, clear, flagged, running, phase, cleaned, unfenced)
    }

    ghost predicate Valid()
      reads this
    {
      && IsRun(history)
      && history[|history| - 1] == View()
      && forall m, a :: prepareLifecycle(m, a).Ok? ==> AgesOnce(m, a, prepareLifecycle(m, a).value)
    }

    constructor (prepareLifecycle: (Memory, Activity) -> Result<Plan<Content>, PlanError>, memory: Memory,
                 outages: seq<Outage>, arrivals: seq<seq<Activity>>)
      requires forall m, a :: prepareLifecycle(m, a).Ok? ==> AgesOnce(m, a, prepareLifecycle(m, a).value)
      requires LEDGER !in memory
      ensures Valid() && !running && phase.Free? && this.memory == memory && events == []
    {
      this.prepareLifecycle, this.memory := prepareLifecycle, memory;
      events, clear, flagged, running, phase, cleaned, unfenced := [], None, false, false, Free, false, false;
      this.outages, this.arrivals := outages, arrivals;
      history := [System([], memory, None, false, false, Free, false, false)];
    }

    // Records that the state moved by one step of the transition system.
    ghost method Advance(before: System, a: Action)
      requires IsRun(history) && history[|history| - 1] == before
      requires Step(before, a, View())
      requires forall m, a :: prepareLifecycle(m, a).Ok? ==> AgesOnce(m, a, prepareLifecycle(m, a).value)
      modifies this`history
      ensures Valid() && Inv(View())
    {
      assert Next(before, View());
      history := history + [View()];
      EveryRunIsSafe(history);
    }

    // Completed turns may be accepted while any procedure runs.
    method Interleave()
      requires Valid()
      modifies this`events, this`arrivals, this`history
      ensures Valid()
      ensures old(events) <= events && (old(arrivals) == [] ==> events == old(events) && arrivals == [])
      ensures forall i :: |old(events)| <= i < |events| ==> events[i].plan.None? && !events[i].completed
    {
      if arrivals == [] || !running {
        return;
      }
      var turns := arrivals[0];
      arrivals := arrivals[1..];
      for k := 0 to |turns|
        invariant Valid() && running
        invariant old(events) <= events
        invariant forall i :: |old(events)| <= i < |events| ==> events[i].plan.None? && !events[i].completed
      {
        Accept(turns[k]);
      }
    }

    /** A completed turn becomes an event row. */
    method Accept(activity: Activity)
      requires Valid() && running
      modifies this`events, this`history
      ensures Valid()
      ensures events == old(events) + [Event(activity, None, false)]
    {
      ghost var before := View();
      events := events + [Event(activity, None, false)];
      Advance(before, PlanRecovery.Accept(activity));
    }

    // One fallible call, with completed turns accepted around it.
    method Call() returns (outage: Outage)
      requires Valid()
      modifies this`events, this`arrivals, this`history, this`outages
      ensures Valid()
      ensures old(events) <= events && (old(arrivals) == [] ==> events == old(events) && arrivals == [])
      ensures forall i :: |old(events)| <= i < |events| ==> events[i].plan.None? && !events[i].completed
      ensures old(outages) == [] ==> outage == Answered && outages == []
    {
      Interleave();
      if outages == [] {
        return Answered;
      }
      outage, outages := outages[0], outages[1..];
    }

    method ClearSpaceMemoryState() returns (ok: bool)
      requires Valid() && (phase.Recovering? || phase.Clearing?) && clear.Some?
      modifies this`events, this`arrivals, this`history, this`outages, this`cleaned, this`unfenced
      ensures Valid() && (ok ==> cleaned)
      ensures clear == old(clear) && (!clear.value.memory ==> old(events) <= events)
      ensures clear.value.memory && ok ==> events == []
      ensures old(arrivals) == [] ==> arrivals == []
      ensures forall i :: |old(events)| <= i < |events| ==> events[i].plan.None?
      ensures old(outages) == [] ==> ok && outages == []
    {
      hide IsRun;
      var outage := Call();
      if outage == Failed {
        return false;
      }
      ghost var before := View();
      if clear.value.memory {
        events, unfenced := [], false;
      }
      cleaned := true;
      Advance(before, CleanSql);
      return outage == Answered;
    }

    method AcknowledgeClear() returns (ok: bool)
      requires Valid() && (phase.Recovering? || phase.Clearing?) && clear.Some? && cleaned
      modifies this`events, this`arrivals, this`history, this`outages, this`clear, this`cleaned
      ensures Valid() && (ok ==> clear.None?)
      ensures old(arrivals) == [] ==> arrivals == [] && events == old(events)
      ensures old(events) <= events && forall i :: |old(events)| <= i < |events| ==> events[i].plan.None?
      ensures old(outages) == [] ==> ok && outages == []
    {
      var outage := Call();
      if outage == Failed {
        return false;
      }
      ghost var before := View();
      clear := None;
      cleaned := false;
      Advance(before, PlanRecovery.AcknowledgeClear);
      return outage == Answered;
    }

    /** SQL cleanup of a pending clear comes before any earlier plan is looked at. */
    method FinishMemoryClear() returns (ok: bool)
      requires Valid() && (phase.Recovering? || phase.Clearing?)
      modifies this`events, this`arrivals, this`history, this`outages, this`clear, this`cleaned, this`unfenced
      ensures Valid() && (ok ==> clear.None?)
      ensures !ClearingMemory(old(View())) ==>
                && old(events) <= events
                && forall i :: |old(events)| <= i < |events| ==> events[i].plan.None?
      ensures ClearingMemory(old(View())) && ok ==> forall i :: 0 <= i < |events| ==> events[i].plan.None?
      ensures ClearingMemory(old(View())) && ok && old(arrivals) == [] ==> events == []
      ensures old(outages) == [] ==> ok && outages == []
    {
      hide IsRun, Inv;
      var read := Call();
      if read != Answered {
        return false;
      }
      if clear.None? {
        return true;
      }
      ok := ClearSpaceMemoryState();
      if ok && clear.value.semanticGraph {
        var vectors := Call();
        ok := vectors == Answered;
      }
      if ok {
        ok := AcknowledgeClear();
      }
    }

    // The oldest uncompleted events, at most one batch.
    method PendingLifecycleEvents() returns (rows: seq<nat>)
      ensures rows == OpenRows(events, 0, BATCH)
    {
      rows := [];
      ghost var open := OpenRows(events, 0, BATCH);
      var i := 0;
      while i < |events| && |rows| < BATCH
        invariant 0 <= i <= |events| && |rows| <= BATCH
        invariant open == rows + OpenRows(events, i, BATCH - |rows|)
      {
        ghost var later := OpenRows(events, i + 1, BATCH - |rows| - if events[i].completed then 0 else 1);
        if !events[i].completed {
          assert rows + ([i] + later) == (rows + [i]) + later;
          rows := rows + [i];
        }
        i := i + 1;
      }
      assert OpenRows(events, i, BATCH - |rows|) == [];
    }

    // The worker runs the plan as one journaled command; its reply can get lost.
    method ApplyJournaledMemoryCommit(plan: Plan<Content>, ghost index: nat) returns (r: Result<(), PlanError>)
      requires Valid()
      requires Outstanding(View(), index) && events[index].plan == Some(plan)
      requires (phase.Recovering? && clear.None? && (flagged || !running)) || phase == Marked(index)
      modifies this`events, this`arrivals, this`history, this`outages, this`memory, this`phase
      ensures Valid()
      ensures old(events) <= events
      ensures forall i :: |old(events)| <= i < |events| ==> events[i].plan.None? && !events[i].completed
      ensures r.Ok? ==> memory == AfterPlan(old(memory), plan)
                        && phase == if old(phase).Recovering? then Replayed(index) else Applied(index)
      ensures r.Err? ==> memory in {old(memory), AfterPlan(old(memory), plan)}
                         && (phase == old(phase) || (old(phase).Recovering? && phase == Replayed(index)))
      ensures r.Err? ==> r.error == IoFailed || (unfenced && !Replayable(memory, plan.files))
      ensures old(outages) == [] ==> outages == [] && (r.Ok? <==> Replayable(old(memory), plan.files))
      ensures old(arrivals) == [] ==> arrivals == [] && events == old(events)
    {
      var outage := Call();
      if outage == Failed {
        return Err(IoFailed);
      }
      if !Replayable(memory, plan.files) {
        OnlyUnfencedConflicts(index);
        var file :| file in plan.files && Look(memory, file.path) !in {file.before, file.after};
        return Err(Conflict(file.path));
      }
      TakeImages(plan, index, outage == ReplyLost);
      return if outage == ReplyLost then Err(IoFailed) else Ok(());
    }

    lemma OnlyUnfencedConflicts(index: nat)
      requires Valid() && Outstanding(View(), index)
      ensures WellFormed(events[index].plan.value)
      ensures unfenced || Replayable(memory, events[index].plan.value.files)
    {
      EveryRunIsSafe(history);
      PlanAt(View(), index);
    }

    method TakeImages(plan: Plan<Content>, ghost index: nat, lost: bool)
      requires Valid()
      requires Outstanding(View(), index) && events[index].plan == Some(plan) && Replayable(memory, plan.files)
      requires (phase.Recovering? && clear.None? && (flagged || !running)) || phase == Marked(index)
      modifies this`history, this`memory, this`phase
      ensures Valid() && memory == AfterPlan(old(memory), plan)
      ensures phase == if old(phase).Recovering? then Replayed(index) else if lost then old(phase) else Applied(index)
    {
      hide IsRun;
      OnlyUnfencedConflicts(index);
      ghost var before := View();
      memory := AfterPlan(memory, plan);
      if phase.Recovering? {
        phase := Replayed(index);
        Advance(before, Replay(index));
      } else {
        phase := if lost then phase else Applied(index);
        Advance(before, Apply(lost));
      }
    }

    method CompleteLifecycleEvent(index: nat) returns (ok: bool)
      requires Valid() && (phase == Replayed(index) || phase == Applied(index))
      modifies this`events, this`arrivals, this`history, this`outages, this`phase, this`unfenced
      ensures Valid()
      ensures |old(events)| <= |events| && index < |events|
      ensures forall i :: |old(events)| <= i < |events| ==> events[i].plan.None? && !events[i].completed
      ensures forall i :: 0 <= i < |old(events)| && i != index ==> events[i] == old(events)[i]
      ensures if phase == old(phase) then !ok && (index < |old(events)| ==> events[index] == old(events)[index])
              else events[index].completed && events[index].plan.None?
                   && phase == if old(phase).Replayed? then Recovering else Completed
      ensures index < |old(events)| ==> events[index].activity == old(events)[index].activity
      ensures old(outages) == [] ==> ok && phase != old(phase) && outages == []
      ensures ok ==> phase != old(phase)
      ensures old(arrivals) == [] ==> arrivals == [] && |events| == |old(events)|
    {
      hide IsRun;
      EveryRunIsSafe(history);
      var outage := Call();
      if outage == Failed {
        return false;
      }
      CompleteRow(index);
      return outage == Answered;
    }

    method CompleteRow(index: nat)
      requires Valid() && (phase == Replayed(index) || phase == Applied(index))
      modifies this`events, this`history, this`phase, this`unfenced
      ensures Valid() && phase == if old(phase).Replayed? then Recovering else Completed
      ensures index < |old(events)|
              && events == old(events)[index := Event(old(events)[index].activity, None, true)]
    {
      hide IsRun;
      EveryRunIsSafe(history);
      PlanAt(View(), index);
      ghost var before := View();
      events := events[index := events[index].(plan := None, completed := true)];
      phase := if phase.Replayed? then Recovering else Completed;
      unfenced := false;
      Advance(before, Acknowledge(index));
    }

    /** Completes what earlier holders left: a pending clear first, then the recorded plan. */
    method RecoverSpaceCommits() returns (ok: bool)
      requires Valid() && phase.Recovering? && (flagged || !running)
      modifies this`events, this`arrivals, this`history, this`outages, this`memory, this`clear, this`flagged,
               this`phase, this`cleaned, this`unfenced
      ensures Valid() && flagged == !ok
      ensures ok ==> phase.Recovering? && clear.None? && NothingPrepared(events)
      ensures phase.Recovering? || phase.Replayed?
      ensures !ClearingMemory(old(View())) ==> Onward(old(events), events)
      ensures old(outages) == [] ==> outages == [] && (ok <==> Recoverable(old(View())))
    {
      hide IsRun;
      ok := ReplayPlans();
      ghost var before := View();
      if ok {
        flagged := false;
        Advance(before, Unflag);
      } else {
        flagged := true;
        Advance(before, Flag);
      }
    }

    // Applies one recorded plan and acknowledges its event; no other plan can be recorded.
    method ReplayRow(index: nat) returns (ok: bool)
      requires Valid() && phase.Recovering? && clear.None? && (flagged || !running)
      requires Outstanding(View(), index)
      modifies this`events, this`arrivals, this`history, this`outages, this`memory, this`phase, this`unfenced
      ensures Valid()
      ensures |old(events)| <= |events|
      ensures ok ==> phase.Recovering? && NoPlan(View())
      ensures phase.Recovering? || phase.Replayed?
      ensures Onward(old(events), events)
      ensures old(outages) == [] ==>
                outages == [] && (ok <==> Replayable(old(memory), old(events)[index].plan.value.files))
    {
      hide IsRun;
      EveryRunIsSafe(history);
      forall i | Outstanding(View(), i) ensures i == index {
        OnlyOnePlan(View(), i, index);
      }
      ghost var start := View();
      var applied := ApplyJournaledMemoryCommit(events[index].plan.value, index);
      if applied.Err? {
        return false;
      }
      ghost var reached := View();
      assert forall i | Outstanding(reached, i) :: Outstanding(start, i);
      ok := CompleteLifecycleEvent(index);
      assert ok ==> forall i | Outstanding(View(), i) :: Outstanding(reached, i) && i != index;
    }

    method ReplayPlans() returns (ok: bool)
      requires Valid() && phase.Recovering? && (flagged || !running)
      modifies this`events, this`arrivals, this`history, this`outages, this`memory, this`clear, this`phase,
      this`cleaned, this`unfenced
      ensures Valid()
      ensures ok ==> phase.Recovering? && clear.None? && NothingPrepared(events)
      ensures phase.Recovering? || phase.Replayed?
      ensures !ClearingMemory(old(View())) ==> Onward(old(events), events)
      ensures old(outages) == [] ==> outages == [] && (ok <==> Recoverable(old(View())))
    {
      hide IsRun, Inv, Recoverable, Replayable;
      ghost var s := View();
      ok := FinishMemoryClear();
      if !ok {
        return;
      }
      var called := Call();
      if called != Answered {
        return false;
      }
      var read := Call();
      if read != Answered {
        return false;
      }
      RecoverableMore(s, View());
      var rows := PendingLifecycleEvents();
      ok := ReplayRows(rows);
      if ok {
        OpenRowsShape(events, 0, BATCH);
        forall i | i in OpenRows(events, 0, BATCH) ensures 0 <= i < |events| && events[i].plan.None? {
          assert !Outstanding(View(), i);
        }
      }
    }

    method ReplayRows(rows: seq<nat>) returns (ok: bool)
      requires Valid() && phase.Recovering? && clear.None? && (flagged || !running)
      requires rows == OpenRows(events, 0, BATCH)
      modifies this`events, this`arrivals, this`history, this`outages, this`memory, this`phase, this`unfenced
      ensures Valid()
      ensures ok ==> phase.Recovering? && NoPlan(View())
      ensures phase.Recovering? || phase.Replayed?
      ensures Onward(old(events), events)
      ensures old(outages) == [] ==> outages == [] && (ok <==> Recoverable(old(View())))
    {
      hide IsRun, Recoverable, Replayable, OpenRows, Inv;
      ghost var s := View();
      OpenRowsShape(events, 0, BATCH);
      EveryRunIsSafe(history);
      OnlyTheFirst(s);
      for k := 0 to |rows|
        invariant Valid() && phase.Recovering? && (flagged || !running)
        invariant forall m :: 0 <= m < |rows| ==> rows[m] < |events|
        invariant Onward(s.events, events) && (old(outages) == [] ==> outages == [])
        invariant if View() == s then forall m :: 0 <= m < k ==> s.events[rows[m]].plan.None?
                  else NoPlan(View()) && (old(outages) == [] ==> Recoverable(s))
      {
        if events[rows[k]].plan.Some? {
          assert Outstanding(View(), rows[k]);
          ok := ReplayRow(rows[k]);
          RecoverableAlone(s, rows[k]);
          if !ok {
            return;
          }
        }
      }
      if View() == s {
        NoneWaits(s, rows);
        NoPlanRecovers(s);
      }
      return true;
    }

    /** Admission: the reservation is granted only once earlier work on the Space is finished. */
    method ReserveSpace() returns (ok: bool)
      requires Valid() && running && phase.Free?
      modifies this`events, this`arrivals, this`history, this`outages, this`memory, this`clear, this`flagged,
               this`phase, this`cleaned, this`unfenced
      ensures Valid()
      ensures if ok then phase.Admitted? && !flagged else phase.Free?
      ensures ok && old(flagged) ==> NoPlan(View())
      ensures !ClearingMemory(old(View())) ==> Onward(old(events), events)
      ensures !old(flagged) ==>
                ok && events == old(events) && memory == old(memory) && outages == old(outages)
                && arrivals == old(arrivals)
      ensures old(outages) == [] ==> outages == [] && (ok <==> !old(flagged) || Recoverable(old(View())))
    {
      hide IsRun, Inv, Recoverable, Replayable, Onward, NoPlan;
      ghost var before := View();
      OnwardSame(events);
      phase, cleaned := Recovering, false;
      Advance(before, Reserve);
      SameRecoverable(before, View());
      ok := true;
      if flagged {
        ok := RecoverSpaceCommits();
      }
      if ok {
        before := View();
        if old(flagged) {
          EveryRunIsSafe(history);
          NothingPreparedMeansNone(before);
        }
        phase := Admitted;
        Advance(before, Admission);
        NoPlanMore(before, View());
      } else {
        ReleaseSpace();
      }
    }

    method ReleaseSpace()
      requires Valid() && running && !phase.Free? && !phase.Recorded?
      modifies this`history, this`phase, this`cleaned
      ensures Valid() && phase.Free?
    {
      ghost var before := View();
      phase, cleaned := Free, false;
      Advance(before, Release);
    }

    /** The process dies: only the stores survive. */
    method Crash()
      requires Valid()
      modifies this`history, this`flagged, this`running, this`phase, this`cleaned
      ensures Valid() && !running && phase.Free?
      ensures View().events == old(events) && View().memory == old(memory) && View().clear == old(clear)
    {
      ghost var before := View();
      flagged, running, phase, cleaned := false, false, Free, false;
      Advance(before, Die);
    }

    /** Startup recovers before the Space is published; a failure leaves it fenced. */
    method Startup()
      requires Valid() && !running && phase.Free?
      modifies this`events, this`arrivals, this`history, this`outages, this`memory, this`clear, this`flagged,
               this`running, this`phase, this`cleaned, this`unfenced
      ensures Valid() && running && phase.Free?
      ensures !flagged ==> forall c :: Turns(memory, c) == Count(events, c)
      ensures !ClearingMemory(old(View())) ==> Onward(old(events), events)
      ensures old(outages) == [] ==> outages == [] && (!flagged <==> Recoverable(old(View())))
    {
      hide IsRun;
      ghost var before := View();
      phase, cleaned := Recovering, false;
      Advance(before, Boot);
      var ok := RecoverSpaceCommits();
      before := View();
      running, phase, cleaned := true, Free, false;
      Advance(before, Up);
      if !flagged {
        WaitingIsNotInFlight(View());
      }
    }

    /** Another admitted writer edits the memory; it does not own the activity ledger. */
    method EditMemory(edited: Memory)
      requires Valid() && phase.Admitted? && Look(edited, LEDGER) == Look(memory, LEDGER)
      modifies this`history, this`memory
      ensures Valid() && phase.Admitted? && memory == edited
    {
      ghost var before := View();
      memory := edited;
      Advance(before, Edit(edited));
    }

    // Ages the memory by one event: prepare, record, mark, apply, acknowledge, unmark. A row that holds a
    // plan already takes no other, so a plan whose recording was lost waits for recovery.
    method ProcessEvent(index: nat) returns (ok: bool)
      requires Valid() && running && phase.Admitted? && FirstOpen(events, index)
      modifies this`events, this`arrivals, this`history, this`outages, this`memory, this`flagged, this`phase,
               this`cleaned, this`unfenced
      ensures Valid()
      ensures |old(events)| <= |events|
      ensures forall i :: |old(events)| <= i < |events| ==> events[i].plan.None? && !events[i].completed
      ensures ok ==> old(events)[index].plan.None?
      ensures ok ==> phase.Admitted? && events[index].completed
      ensures ok ==> forall i :: 0 <= i < |old(events)| && i != index ==> events[i] == old(events)[i]
      ensures !ok ==> phase.Free?
      ensures ok ==> events[index] == Event(old(events)[index].activity, None, true)
      ensures ok ==> prepareLifecycle(old(memory), old(events)[index].activity).Ok?
                     && memory == AfterPlan(old(memory),
                                            prepareLifecycle(old(memory), old(events)[index].activity).value)
      ensures ok && old(events)[index].activity.enabled ==>
                forall c :: Turns(memory, c) == Turns(old(memory), c) +
                  if c == old(events)[index].activity.context then 1 else 0
      ensures ok && !old(events)[index].activity.enabled ==> memory == old(memory)
      ensures old(outages) == [] ==>
                && outages == []
                && (ok <==> old(events)[index].plan.None?
                            && prepareLifecycle(old(memory), old(events)[index].activity).Ok?)
      ensures old(arrivals) == [] ==> arrivals == [] && |events| == |old(events)|
    {
      var activity := events[index].activity;
      var prepared := Call();
      var plan := prepareLifecycle(memory, activity);
      var recorded := Call();
      if prepared != Answered || plan.Err? || recorded == Failed || events[index].plan.Some? {
        ReleaseSpace();
        return false;
      }
      AgedOnce(memory, activity, plan.value);
      ok := CommitPrepared(index, plan.value, recorded == ReplyLost);
    }

    // The plan is recorded, and applied unless the reply to that is lost.
    method CommitPrepared(index: nat, plan: Plan<Content>, lost: bool) returns (ok: bool)
      requires Valid() && running && phase.Admitted? && FirstOpen(events, index) && events[index].plan.None?
      requires AgesOnce(memory, events[index].activity, plan)
      modifies this`events, this`arrivals, this`history, this`outages, this`memory, this`flagged, this`phase,
               this`cleaned, this`unfenced
      ensures Valid()
      ensures |old(events)| <= |events| && index < |old(events)|
      ensures forall i :: |old(events)| <= i < |events| ==> events[i].plan.None? && !events[i].completed
      ensures ok ==> phase.Admitted? && memory == AfterPlan(old(memory), plan)
      ensures forall i :: 0 <= i < |old(events)| && i != index ==> events[i] == old(events)[i]
      ensures ok ==> events[index] == Event(old(events)[index].activity, None, true)
      ensures !ok ==> phase.Free?
      ensures old(outages) == [] ==> outages == [] && ok == !lost
      ensures old(arrivals) == [] ==> arrivals == [] && |events| == |old(events)|
    {
      RecordPlan(index, plan);
      if lost {
        LoseRecording();
        return false;
      }
      MarkPending();
      ok := CommitMarked(index, plan);
    }

    method RecordPlan(index: nat, plan: Plan<Content>)
      requires Valid() && phase.Admitted? && FirstOpen(events, index) && events[index].plan.None?
      requires AgesOnce(memory, events[index].activity, plan)
      modifies this`events, this`history, this`phase, this`unfenced
      ensures Valid() && phase == Recorded(index)
      ensures events == old(events)[index := old(events)[index].(plan := Some(plan))]
    {
      ghost var before := View();
      events := events[index := events[index].(plan := Some(plan))];
      phase, unfenced := Recorded(index), false;
      Advance(before, Record(index, plan));
    }

    // The Space is marked before anything can run in between.
    method MarkPending()
      requires Valid() && phase.Recorded?
      modifies this`history, this`flagged, this`phase
      ensures Valid() && phase == Marked(old(phase).index)
    {
      ghost var before := View();
      flagged := true;
      phase := Marked(phase.index);
      Advance(before, Mark);
    }

    // The caller takes the recording for failed and never marks the Space.
    method LoseRecording()
      requires Valid() && phase.Recorded?
      modifies this`history, this`phase, this`cleaned, this`unfenced
      ensures Valid() && phase.Free?
    {
      ghost var before := View();
      phase, cleaned, unfenced := Free, false, true;
      Advance(before, LoseReply);
    }

    // The recorded plan is applied, acknowledged and unmarked, or left to recovery.
    method CommitMarked(index: nat, plan: Plan<Content>) returns (ok: bool)
      requires Valid() && running && phase == Marked(index)
      requires Outstanding(View(), index) && events[index].plan == Some(plan)
      modifies this`events, this`arrivals, this`history, this`outages, this`memory, this`flagged, this`phase,
      this`cleaned, this`unfenced
      ensures Valid()
      ensures |old(events)| <= |events| && index < |events|
      ensures forall i :: |old(events)| <= i < |events| ==> events[i].plan.None? && !events[i].completed
      ensures forall i :: 0 <= i < |old(events)| && i != index ==> events[i] == old(events)[i]
      ensures ok ==> phase.Admitted? && memory == AfterPlan(old(memory), plan)
      ensures index < |old(events)| && (ok ==> events[index] == Event(old(events)[index].activity, None, true))
      ensures !ok ==> phase.Free?
      ensures old(outages) == [] ==> ok && outages == []
      ensures old(arrivals) == [] ==> arrivals == [] && |events| == |old(events)|
    {
      hide IsRun;
      OnlyUnfencedConflicts(index);
      EveryRunIsSafe(history);
      var applied := ApplyJournaledMemoryCommit(plan, index);
      if applied.Err? {
        ReleaseSpace();
        return false;
      }
      ok := CompleteLifecycleEvent(index);
      if !ok {
        ReleaseSpace();
        return;
      }
      Unmark();
    }

    method Unmark()
      requires Valid() && (phase.Completed? || (phase.Clearing? && clear.None?))
      modifies this`history, this`flagged, this`phase
      ensures Valid() && phase.Admitted?
    {
      ghost var before := View();
      flagged := false;
      phase := Admitted;
      Advance(before, Unflag);
    }

    /** Ages the memory by at most one batch of accepted turns, oldest first. */
    method ProcessMemoryLifecycle() returns (ok: bool)
      requires Valid() && running && phase.Free?
      modifies this`events, this`arrivals, this`history, this`outages, this`memory, this`clear, this`flagged,
               this`phase, this`cleaned, this`unfenced
      ensures Valid() && phase.Free?
      ensures ok ==> forall c :: Turns(memory, c) == Count(events, c)
      ensures ok && !ClearingMemory(old(View())) ==>
                && Onward(old(events), events)
                && forall i | i in OpenRows(old(events), 0, BATCH) :: events[i].completed
      ensures old(outages) == [] && (forall m, a :: prepareLifecycle(m, a).Ok?) ==>
                (ok <==> if old(flagged) then Recoverable(old(View())) else NoPlan(old(View())))
      ensures !old(flagged) && old(arrivals) == [] ==>
                var rows := OpenRows(old(events), 0, BATCH);
                var activities := ActivitiesOf(old(events), rows);
                && (ok ==> OnlyCompletes(old(events), events, rows)
                           && AgedBy(prepareLifecycle, old(memory), activities) == Some(memory))
                && (ok ==> forall c :: Turns(memory, c) == Turns(old(memory), c) + Enabled(activities, c))
                && (old(outages) == [] ==>
                      (ok <==> NoPlan(old(View())) && AgedBy(prepareLifecycle, old(memory), activities).Some?))
    {
      hide Onward, OpenRows, OnlyCompletes, AgedBy, NoPlan, ActivitiesOf, Count, Turns, Recoverable, Enabled;
      AgedByCounts(prepareLifecycle, memory, ActivitiesOf(events, OpenRows(events, 0, BATCH)));
      ok := ReserveSpace();
      if !ok {
        return;
      }
      if !old(flagged) {
        NoPlanMore(old(View()), View());
      }
      ghost var admitted := events;
      ok := ProcessBatch();
      if ok && !ClearingMemory(old(View())) {
        BatchesDone(old(events), admitted, events);
      }
    }

    // The holder ages the memory by one batch and lets the Space go.
    method ProcessBatch() returns (ok: bool)
      requires Valid() && running && phase.Admitted?
      modifies this`events, this`arrivals, this`history, this`outages, this`memory, this`flagged, this`phase,
               this`cleaned, this`unfenced
      ensures Valid() && phase.Free?
      ensures ok ==> forall c :: Turns(memory, c) == Count(events, c)
      ensures ok ==>
                Onward(old(events), events) && forall i | i in OpenRows(old(events), 0, BATCH) :: events[i].completed
      ensures old(outages) == [] && (forall m, a :: prepareLifecycle(m, a).Ok?) ==> (ok <==> NoPlan(old(View())))
      ensures old(arrivals) == [] ==>
                var rows := OpenRows(old(events), 0, BATCH);
                var activities := ActivitiesOf(old(events), rows);
                && (ok ==> OnlyCompletes(old(events), events, rows)
                           && AgedBy(prepareLifecycle, old(memory), activities) == Some(memory))
                && (old(outages) == [] ==>
                      (ok <==> NoPlan(old(View())) && AgedBy(prepareLifecycle, old(memory), activities).Some?))
    {
      ghost var admitted := View();
      var read := Call();
      if read != Answered {
        ReleaseSpace();
        return false;
      }
      ghost var s := View();
      NoPlanMore(admitted, s);
      var rows := PendingLifecycleEvents();
      AlwaysAged(prepareLifecycle, s.memory, ActivitiesOf(s.events, rows));
      ok := ProcessRows(rows);
      BatchGrows(admitted.events, s.events, 0, BATCH);
    }

    method ProcessRows(rows: seq<nat>) returns (ok: bool)
      requires Valid() && running && phase.Admitted?
      requires rows == OpenRows(events, 0, BATCH)
      modifies this`events, this`arrivals, this`history, this`outages, this`memory, this`flagged, this`phase,
               this`cleaned, this`unfenced
      ensures Valid() && phase.Free?
      ensures ok ==> forall c :: Turns(memory, c) == Count(events, c)
      ensures ok ==> OnlyCompletes(old(events), events, rows)
      ensures ok ==> AgedBy(prepareLifecycle, old(memory), ActivitiesOf(old(events), rows)) == Some(memory)
      ensures old(arrivals) == [] ==> |events| == |old(events)|
      ensures old(outages) == [] ==>
                (ok <==> NoPlan(old(View()))
                         && AgedBy(prepareLifecycle, old(memory), ActivitiesOf(old(events), rows)).Some?)
    {
      ghost var s := View();
      hide Progress, OpenRows, OnlyCompletes, AgedBy, NoPlan, ActivitiesOf, Count;
      EveryRunIsSafe(history);
      NothingDone(prepareLifecycle, s, rows);
      ok := true;
      for k := 0 to |rows|
        invariant ok && Valid() && phase.Admitted? && running
        invariant Progress(prepareLifecycle, s, View(), rows, k)
        invariant old(arrivals) == [] ==> arrivals == [] && |events| == |old(events)|
        invariant old(outages) == [] ==> outages == []
      {
        ok := ProcessNext(rows, k, s);
        if !ok {
          return;
        }
      }
      AllDone(prepareLifecycle, s, View(), rows);
      EveryRunIsSafe(history);
      WaitingIsNotInFlight(View());
      ReleaseSpace();
    }

    method ProcessNext(rows: seq<nat>, k: nat, ghost s: System) returns (ok: bool)
      requires Valid() && running && phase.Admitted?
      requires k < |rows| && Progress(prepareLifecycle, s, View(), rows, k)
      modifies this`events, this`arrivals, this`history, this`outages, this`memory, this`flagged, this`phase,
               this`cleaned, this`unfenced
      ensures Valid()
      ensures if ok then phase.Admitted? && Progress(prepareLifecycle, s, View(), rows, k + 1) else phase.Free?
      ensures old(arrivals) == [] ==> arrivals == [] && |events| == |old(events)|
      ensures old(outages) == [] ==> outages == []
      ensures old(outages) == [] && !ok ==>
                !(NoPlan(s) && AgedBy(prepareLifecycle, s.memory, ActivitiesOf(s.events, rows)).Some?)
    {
      CoversFirst(events, rows, k);
      ghost var before := View();
      AtRow(s, before, rows, k, prepareLifecycle, ActivitiesOf(s.events, rows));
      hide OpenRows, OnlyCompletes, AgedBy, NoPlan, ActivitiesOf, Count, Covers;
      ok := ProcessEvent(rows[k]);
      if ok {
        CoversNext(before.events, events, rows, k);
        CompletesMore(s.events, before.events, events, rows, k);
      }
    }

    // The clear intent and the cleared files share one journal transaction of the worker.
    method JournalClear(intent: Clear, defaults: Memory) returns (ok: bool)
      requires Valid() && phase.Clearing? && clear.None? && LEDGER !in defaults
      modifies this`events, this`arrivals, this`history, this`outages, this`memory, this`clear, this`cleaned
      ensures Valid()
      ensures ok ==> memory == defaults + Retained(old(memory), intent) && clear == Some(intent)
      ensures old(events) <= events && (old(arrivals) == [] ==> arrivals == [])
      ensures old(outages) == [] ==> ok && outages == []
    {
      hide IsRun, Inv, Count, Turns, Retained;
      var outage := Call();
      if outage == Failed {
        return false;
      }
      CommitClearing(intent, defaults);
      return outage == Answered;
    }

    method CommitClearing(intent: Clear, defaults: Memory)
      requires Valid() && phase.Clearing? && clear.None? && LEDGER !in defaults
      modifies this`history, this`memory, this`clear, this`cleaned
      ensures Valid() && memory == defaults + Retained(old(memory), intent) && clear == Some(intent)
    {
      hide IsRun, Retained, Inv;
      ghost var before := View();
      memory := defaults + Retained(memory, intent);
      clear := Some(intent);
      cleaned := false;
      Advance(before, CommitClear(intent, defaults));
    }

    method MarkClearing()
      requires Valid() && phase.Admitted?
      modifies this`history, this`flagged, this`phase, this`cleaned
      ensures Valid() && phase.Clearing? && clear.None?
    {
      EveryRunIsSafe(history);
      ghost var before := View();
      flagged, cleaned := true, false;
      phase := Clearing;
      Advance(before, MarkClear);
    }

    /** Clears the memory: the mark precedes the journaled intent, the SQL cleanup follows it. */
    method ClearSpaceMemory(intent: Clear, defaults: Memory) returns (ok: bool)
      requires Valid() && running && phase.Admitted? && LEDGER !in defaults
      modifies this`events, this`arrivals, this`history, this`outages, this`memory, this`clear, this`flagged,
               this`phase, this`cleaned, this`unfenced
      ensures Valid()
      ensures if ok then phase.Admitted? && clear.None? && memory == defaults + Retained(old(memory), intent)
                else phase.Free?
      ensures ok && intent.memory && old(arrivals) == [] ==> events == []
      ensures ok && !intent.memory ==> old(events) <= events
      ensures old(outages) == [] ==> ok && outages == []
    {
      MarkClearing();
      ok := JournalClear(intent, defaults);
      if ok {
        ok := FinishMemoryClear();
      }
      if !ok {
        ReleaseSpace();
        return;
      }
      Unmark();
    }
  }
}
