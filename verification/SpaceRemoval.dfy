/**
 Journaled removal of a Space across its memory, the settings file, the vector index and SQL.

 An intent row freezes absolute after-images. Finishing it is a fixed series of idempotent stages
 whose last one is a single SQL transaction; each stage may fail, or take effect and lose its
 reply, and the process may die between any two. Work done while the intent is open survives the finish
 exactly where the intent has no image of its own.
 */
module SpaceRemoval {
  import opened Wrappers
  import opened Files

  type Id = string
  type Memory = Tree<string>

  datatype Request = Request(source: Id, target: Option<Id>, revision: string)
  datatype AfterImages = AfterImages(memory: Option<Memory>, settings: Option<string>)
  datatype Removal = Removal(request: Request, plan: AfterImages, completed: bool)

  datatype Store = Store(
    removals: map<Id, Removal>,     // by operation id
    memory: map<Id, Memory>,
    settings: string,
    vectors: set<Id>,               // Spaces with semantic-graph vectors
    owners: map<Id, Id>,            // every owned SQL row and its Space
    assistants: map<Id, Id>         // a Space's default assistant, one of the rows
  )

  const STAGES: nat := 6

  predicate Open(store: Store, operation: Id) {
    operation in store.removals && !store.removals[operation].completed
  }

  // What the transaction leaves of the owned rows and of the default assistants.
  function OwnersAfter(owners: map<Id, Id>, request: Request): map<Id, Id> {
    match request.target
    case Some(target) => map row | row in owners :: if owners[row] == request.source then target else owners[row]
    case None => map row | row in owners && owners[row] != request.source :: owners[row]
  }

  predicate Surviving(owners: map<Id, Id>, row: Id, source: Id) {
    !(row in owners && owners[row] == source)
  }

  function AssistantsAfter(owners: map<Id, Id>, assistants: map<Id, Id>, request: Request): map<Id, Id> {
    match request.target
    case Some(target) =>
      (if request.source in assistants && target !in assistants
       then assistants[target := assistants[request.source]] else assistants) - {request.source}
    case None =>
      map space | space in assistants && space != request.source
                  && Surviving(owners, assistants[space], request.source) :: assistants[space]
  }

  // The one SQL transaction that moves or deletes the source's rows and closes the intent.
  function FinishSql(store: Store, operation: Id): Store
    requires operation in store.removals
  {
    var removal := store.removals[operation];
    store.(removals := store.removals[operation := removal.(completed := true, plan := AfterImages(None, None))],
           owners := OwnersAfter(store.owners, removal.request),
           assistants := AssistantsAfter(store.owners, store.assistants, removal.request))
  }

  function Stage(store: Store, operation: Id, stage: nat): Store
    requires operation in store.removals
  {
    var removal := store.removals[operation];
    var source, target := removal.request.source, removal.request.target;
    match stage
    case 0 =>
      if target.Some? && removal.plan.memory.Some?
      then store.(memory := store.memory[target.value := removal.plan.memory.value]) else store
    case 1 => if target.Some? then store.(vectors := store.vectors - {target.value}) else store
    case 2 => if removal.plan.settings.Some? then store.(settings := removal.plan.settings.value) else store
    case 3 => store.(memory := store.memory[source := map[]])
    case 4 => store.(vectors := store.vectors - {source})
    case _ => FinishSql(store, operation)
  }

  function Stages(store: Store, operation: Id, count: nat): (r: Store)
    requires operation in store.removals
    ensures operation in r.removals && r.removals[operation].request == store.removals[operation].request
  {
    if count == 0 then store else Stage(Stages(store, operation, count - 1), operation, count - 1)
  }

  // One attempt to finish: it reaches some stage. A closed intent is left alone.
  function Attempt(store: Store, operation: Id, reached: nat): Store
    requires operation in store.removals
  {
    if store.removals[operation].completed then store
    else Stages(store, operation, if reached <= STAGES then reached else STAGES)
  }

  function Finish(store: Store, operation: Id): Store
    requires operation in store.removals
  {
    Attempt(store, operation, STAGES)
  }

  // What can happen while an intent is open: failed attempts, and work.
  // Reopening a Space's worker, as every restart does, adds the bootstrap files it lacks.
  datatype Incident =
    | Attempted(reached: nat)
    | Reopened(space: Id, defaults: Memory)
    | Wrote(space: Id, memory: Memory)
    | Inserted(row: Id, space: Id)
    | Dropped(row: Id)
    | Changed(settings: string)

  function Happen(store: Store, operation: Id, incident: Incident): (r: Store)
    requires operation in store.removals
    ensures operation in r.removals
  {
    match incident
    case Attempted(reached) => Attempt(store, operation, reached)
    case Reopened(space, defaults) =>
      store.(memory := store.memory[space := defaults + if space in store.memory then store.memory[space] else map[]])
    case Wrote(space, memory) => store.(memory := store.memory[space := memory])
    case Inserted(row, space) => store.(owners := store.owners[row := space])
    case Dropped(row) => store.(owners := store.owners - {row})
    case Changed(settings) => store.(settings := settings)
  }

  function Play(store: Store, operation: Id, incidents: seq<Incident>): (r: Store)
    requires operation in store.removals
    ensures operation in r.removals
  {
    if incidents == [] then store
    else Happen(Play(store, operation, incidents[..|incidents| - 1]), operation, incidents[|incidents| - 1])
  }

  predicate Touches(request: Request, space: Id) {
    space == request.source || Some(space) == request.target
  }

  // What survives the finish: everything but failed attempts, the memory given to the two Spaces in
  // transition, and settings where the intent has an image of them.
  predicate IsWork(incident: Incident, removal: Removal) {
    match incident
    case Attempted(_) => false
    case Reopened(space, _) => !Touches(removal.request, space)
    case Wrote(space, _) => !Touches(removal.request, space)
    case Changed(_) => removal.plan.settings.None?
    case _ => true
  }

  // The surviving work alone.
  function Work(incidents: seq<Incident>, removal: Removal): seq<Incident> {
    if incidents == [] then []
    else
      var rest := Work(incidents[..|incidents| - 1], removal);
      if IsWork(incidents[|incidents| - 1], removal) then rest + [incidents[|incidents| - 1]] else rest
  }

  // The database keeps rows fenced from the stored intent on: the source gets none, and rows that are
  // somebody's default assistant stay. Memory and settings are not the database's to fence.
  ghost predicate Fenced(store: Store, operation: Id, incident: Incident)
    requires operation in store.removals
  {
    match incident
    case Inserted(row, space) =>
      space != store.removals[operation].request.source && row !in store.owners && Unappointed(store, row)
    case Dropped(row) => row in store.owners && Unappointed(store, row)
    case _ => true
  }

  ghost predicate Unappointed(store: Store, row: Id) {
    forall space | space in store.assistants :: store.assistants[space] != row
  }

  // The intent touches two Spaces, and a migration has its after-image.
  predicate WellFormed(removal: Removal) {
    && removal.request.target != Some(removal.request.source)
    && (removal.request.target.Some? ==> removal.plan.memory.Some?)
  }

  // ---- Replaying stages ----

  // What stage `stage` leaves behind; doing it again then changes nothing.
  predicate Effect(store: Store, operation: Id, stage: nat)
    requires operation in store.removals
  {
    var removal := store.removals[operation];
    var source, target := removal.request.source, removal.request.target;
    match stage
    case 0 => target.Some? && removal.plan.memory.Some? ==> Look(store.memory, target.value) == removal.plan.memory
    case 1 => target.Some? ==> target.value !in store.vectors
    case 2 => removal.plan.settings.Some? ==> store.settings == removal.plan.settings.value
    case 3 => source in store.memory && store.memory[source] == map[]
    case 4 => source !in store.vectors
    case _ => false
  }

  function Look(memory: map<Id, Memory>, space: Id): Option<Memory> {
    if space in memory then Some(memory[space]) else None
  }

  lemma RedoneStage(store: Store, operation: Id, stage: nat)
    requires operation in store.removals && stage < 5 && Effect(store, operation, stage)
    ensures Stage(store, operation, stage) == store
  {
    var removal := store.removals[operation];
    if stage == 0 && removal.request.target.Some? && removal.plan.memory.Some? {
      assert store.memory[removal.request.target.value := removal.plan.memory.value] == store.memory;
    }
  }

  lemma StageKeepsEffects(store: Store, operation: Id, done: nat, next: nat)
    requires operation in store.removals && done < next < 5 && Effect(store, operation, done)
    requires store.removals[operation].request.target != Some(store.removals[operation].request.source)
    ensures operation in Stage(store, operation, next).removals
              && Effect(Stage(store, operation, next), operation, done)
  {
  }

  lemma {:induction false} StagesDone(store: Store, operation: Id, count: nat)
    requires operation in store.removals && count <= 5
    requires store.removals[operation].request.target != Some(store.removals[operation].request.source)
    ensures var r := Stages(store, operation, count);
            r.removals == store.removals && forall i: nat :: i < count ==> Effect(r, operation, i)
  {
    if count > 0 {
      StagesDone(store, operation, count - 1);
      var before, after := Stages(store, operation, count - 1), Stages(store, operation, count);
      assert after == Stage(before, operation, count - 1);
      assert Effect(after, operation, count - 1);
      forall i: nat | i < count - 1 ensures Effect(after, operation, i) {
        StageKeepsEffects(before, operation, i, count - 1);
      }
    }
  }

  // Repeating the stages an interrupted attempt already did is the identity.
  lemma {:induction false} RedoIsIdle(store: Store, operation: Id, count: nat, again: nat)
    requires operation in store.removals && again <= count <= 5
    requires store.removals[operation].request.target != Some(store.removals[operation].request.source)
    ensures Stages(Stages(store, operation, count), operation, again) == Stages(store, operation, count)
  {
    if again > 0 {
      StagesDone(store, operation, count);
      RedoIsIdle(store, operation, count, again - 1);
      RedoneStage(Stages(store, operation, count), operation, again - 1);
    }
  }

  lemma {:induction false} ResumedStages(store: Store, operation: Id, count: nat, upTo: nat)
    requires operation in store.removals && count <= 5 && count <= upTo <= STAGES
    requires store.removals[operation].request.target != Some(store.removals[operation].request.source)
    ensures Stages(Stages(store, operation, count), operation, upTo) == Stages(store, operation, upTo)
  {
    if upTo == count {
      RedoIsIdle(store, operation, count, count);
    } else {
      ResumedStages(store, operation, count, upTo - 1);
    }
  }

  /** However far an attempt got, finishing afterwards gives what one uninterrupted run gives. */
  lemma AttemptThenFinish(store: Store, operation: Id, reached: nat)
    requires Open(store, operation)
    requires store.removals[operation].request.target != Some(store.removals[operation].request.source)
    ensures Finish(Attempt(store, operation, reached), operation) == Finish(store, operation)
  {
    if reached < STAGES {
      StagesDone(store, operation, reached);
      ResumedStages(store, operation, reached, STAGES);
    } else {
      FinishCloses(store, operation);
    }
  }

  function MemoryAfter(memory: map<Id, Memory>, request: Request, image: Option<Memory>): map<Id, Memory> {
    (if request.target.Some? && image.Some? then memory[request.target.value := image.value]
      else memory)[request.source := map[]]
  }

  // The effect of finishing, all at once.
  lemma FinishCloses(store: Store, operation: Id)
    requires Open(store, operation)
    requires store.removals[operation].request.target != Some(store.removals[operation].request.source)
    ensures var removal := store.removals[operation];
            var source, target := removal.request.source, removal.request.target;
            var r := Finish(store, operation);
            && r.removals[operation].completed
            && r.removals == store.removals[operation := r.removals[operation]]
            && r.memory == MemoryAfter(store.memory, removal.request, removal.plan.memory)
            && r.settings == (if removal.plan.settings.Some? then removal.plan.settings.value else store.settings)
            && r.vectors == store.vectors - {source} - (if target.Some? then {target.value} else {})
            && r.owners == OwnersAfter(store.owners, removal.request)
            && r.assistants == AssistantsAfter(store.owners, store.assistants, removal.request)
  {
    var a := Stage(store, operation, 0);
    var b := Stage(a, operation, 1);
    var c := Stage(b, operation, 2);
    var d := Stage(c, operation, 3);
    var e := Stage(d, operation, 4);
    assert Stages(store, operation, 0) == store;
    assert Stages(store, operation, 1) == a;
    assert Stages(store, operation, 2) == b;
    assert Stages(store, operation, 3) == c;
    assert Stages(store, operation, 4) == d;
    assert Stages(store, operation, 5) == e;
    assert Finish(store, operation) == FinishSql(e, operation);
    assert e.owners == store.owners && e.assistants == store.assistants && e.removals == store.removals;
  }

  // ---- Crash transparency ----

  lemma LookDecides(left: map<Id, Memory>, right: map<Id, Memory>)
    requires forall space :: Look(left, space) == Look(right, space)
    ensures left == right
  {
    forall space ensures space in left <==> space in right {
      assert Look(left, space) == Look(right, space);
    }
    forall space | space in left ensures left[space] == right[space] {
      assert Look(left, space) == Look(right, space);
    }
  }

  // Restarts of the Spaces in transition leave no trace, and neither does what the images replace.
  lemma OverwrittenByFinish(store: Store, operation: Id, incident: Incident)
    requires Open(store, operation) && WellFormed(store.removals[operation])
    requires !incident.Attempted? && !IsWork(incident, store.removals[operation])
    ensures Finish(Happen(store, operation, incident), operation) == Finish(store, operation)
  {
    var after := Happen(store, operation, incident);
    var removal := store.removals[operation];
    FinishCloses(store, operation);
    FinishCloses(after, operation);
    if !incident.Changed? {
      LookDecides(MemoryAfter(store.memory, removal.request, removal.plan.memory),
                  MemoryAfter(after.memory, removal.request, removal.plan.memory));
    }
  }

  // Work on other Spaces commutes with finishing.
  lemma WorkThenFinish(store: Store, operation: Id, incident: Incident)
    requires Open(store, operation) && WellFormed(store.removals[operation])
    requires IsWork(incident, store.removals[operation]) && Fenced(store, operation, incident)
    ensures Finish(Happen(store, operation, incident), operation)
              == Happen(Finish(store, operation), operation, incident)
  {
    var removal := store.removals[operation];
    FinishCloses(store, operation);
    FinishCloses(Happen(store, operation, incident), operation);
    match incident
    case Reopened(space, defaults) =>
      var written := defaults + if space in store.memory then store.memory[space] else map[];
      MemoryCommutes(store.memory, removal.request, removal.plan.memory, space, written);
    case Wrote(space, memory) =>
      MemoryCommutes(store.memory, removal.request, removal.plan.memory, space, memory);
    case Inserted(row, space) =>
      InsertCommutes(store.owners, store.assistants, removal.request, row, space);
    case Dropped(row) =>
      DropCommutes(store.owners, store.assistants, removal.request, row);
    case Changed(_) =>
  }

  lemma MemoryCommutes(memory: map<Id, Memory>, request: Request, image: Option<Memory>, space: Id, written: Memory)
    requires !Touches(request, space)
    ensures MemoryAfter(memory[space := written], request, image)
              == MemoryAfter(memory, request, image)[space := written]
    ensures Look(MemoryAfter(memory, request, image), space) == Look(memory, space)
  {
    LookDecides(MemoryAfter(memory[space := written], request, image),
      MemoryAfter(memory, request, image)[space := written]);
  }

  lemma InsertCommutes(owners: map<Id, Id>, assistants: map<Id, Id>, request: Request, row: Id, space: Id)
    requires space != request.source
    requires row !in owners && (forall s | s in assistants :: assistants[s] != row)
    ensures OwnersAfter(owners[row := space], request) == OwnersAfter(owners, request)[row := space]
    ensures AssistantsAfter(owners[row := space], assistants, request) == AssistantsAfter(owners, assistants, request)
  {
    assert OwnersAfter(owners[row := space], request) == OwnersAfter(owners, request)[row := space];
    assert AssistantsAfter(owners[row := space], assistants, request) == AssistantsAfter(owners, assistants, request);
  }

  lemma DropCommutes(owners: map<Id, Id>, assistants: map<Id, Id>, request: Request, row: Id)
    requires row in owners && (forall s | s in assistants :: assistants[s] != row)
    ensures OwnersAfter(owners - {row}, request) == OwnersAfter(owners, request) - {row}
    ensures AssistantsAfter(owners - {row}, assistants, request) == AssistantsAfter(owners, assistants, request)
  {
    assert OwnersAfter(owners - {row}, request) == OwnersAfter(owners, request) - {row};
    assert AssistantsAfter(owners - {row}, assistants, request) == AssistantsAfter(owners, assistants, request);
  }

  // The intent stays open up to the last incident, and every incident respects the fence.
  ghost predicate WhileOpen(store: Store, operation: Id, incidents: seq<Incident>)
    requires operation in store.removals
  {
    forall i :: 0 <= i < |incidents| ==> OpenAt(Play(store, operation, incidents[..i]), operation, incidents[i])
  }

  ghost predicate OpenAt(store: Store, operation: Id, incident: Incident) {
    Open(store, operation) && Fenced(store, operation, incident)
  }

  // While it is open, an intent does not change.
  lemma HappenKeepsIntent(store: Store, operation: Id, incident: Incident)
    requires Open(store, operation) && WellFormed(store.removals[operation])
    ensures Happen(store, operation, incident).removals[operation].request == store.removals[operation].request
    ensures Open(Happen(store, operation, incident), operation) ==>
              Happen(store, operation, incident).removals == store.removals
  {
    if incident.Attempted? {
      if incident.reached < STAGES {
        StagesDone(store, operation, incident.reached);
      } else {
        FinishCloses(store, operation);
      }
    }
  }

  /** Crash transparency: any number of interrupted attempts, restarts and work, then finishing, ends where
      one uninterrupted finish followed by the surviving work ends. */
  lemma {:induction false} RemovalIsCrashTransparent(store: Store, operation: Id, incidents: seq<Incident>)
    requires Open(store, operation) && WellFormed(store.removals[operation])
    requires WhileOpen(store, operation, incidents)
    ensures var played := Play(store, operation, incidents);
            var removal := store.removals[operation];
            && played.removals[operation].request == removal.request
            && (Open(played, operation) ==> played.removals == store.removals)
            && Finish(played, operation) == Play(Finish(store, operation), operation, Work(incidents, removal))
  {
    var removal := store.removals[operation];
    if incidents != [] {
      var init, last := incidents[..|incidents| - 1], incidents[|incidents| - 1];
      assert WhileOpen(store, operation, init) by {
        forall i | 0 <= i < |init|
          ensures OpenAt(Play(store, operation, init[..i]), operation, init[i])
        {
          assert init[..i] == incidents[..i];
        }
      }
      RemovalIsCrashTransparent(store, operation, init);
      var before := Play(store, operation, init);
      assert OpenAt(before, operation, last);
      HappenKeepsIntent(before, operation, last);
      if IsWork(last, removal) {
        WorkThenFinish(before, operation, last);
        assert (Work(init, removal) + [last])[..|Work(init, removal)|] == Work(init, removal);
      } else if last.Attempted? {
        AttemptThenFinish(before, operation, last.reached);
      } else {
        OverwrittenByFinish(before, operation, last);
      }
    }
  }

  /** Migrating moves every row of the source to the target and loses none; deleting removes exactly
      the source's rows. Either way nothing of the source remains. */
  lemma FinishConservesRows(store: Store, operation: Id)
    requires Open(store, operation)
    requires store.removals[operation].request.target != Some(store.removals[operation].request.source)
    ensures var request := store.removals[operation].request;
            var r := Finish(store, operation);
            && (forall row | row in r.owners :: r.owners[row] != request.source)
            && request.source !in r.assistants
            && Look(r.memory, request.source) == Some(map[])
            && match request.target
               case Some(target) =>
                 && r.owners.Keys == store.owners.Keys
                 && (forall row | row in store.owners ::
                       r.owners[row] == if store.owners[row] == request.source then target else store.owners[row])
               case None =>
                 && r.owners.Keys == (set row | row in store.owners && store.owners[row] != request.source)
                 && (forall row | row in r.owners :: r.owners[row] == store.owners[row])
                 && (forall space | space in r.assistants && r.assistants[space] in store.owners ::
                       r.assistants[space] in r.owners)
  {
    FinishCloses(store, operation);
  }

  /** And it keeps the default assistants. A deletion takes away the source's own and exactly the ones that are
      rows of the source; a migration changes none but the source's, which the target takes over unless it has
      one of its own. */
  lemma FinishConservesAssistants(store: Store, operation: Id)
    requires Open(store, operation)
    requires store.removals[operation].request.target != Some(store.removals[operation].request.source)
    ensures var source := store.removals[operation].request.source;
            var r, before := Finish(store, operation).assistants, store.assistants;
            && source !in r
            && match store.removals[operation].request.target
               case Some(target) =>
                 && (forall space | space != source && space != target :: space in r <==> space in before)
                 && (target in r <==> target in before || source in before)
                 && (forall space | space in r ::
                       r[space] == if space in before then before[space] else before[source])
               case None =>
                 && (forall space | space in before && space != source ::
                       space in r <==> before[space] !in store.owners || store.owners[before[space]] != source)
                 && (forall space | space in r :: space in before && r[space] == before[space])
  {
    FinishCloses(store, operation);
  }

  /** It leaves the memory of every other Space as it was, empties the source and gives a target its merged
      image; vectors of the two Spaces are gone and no others. */
  lemma FinishLeavesOthers(store: Store, operation: Id)
    requires Open(store, operation) && WellFormed(store.removals[operation])
    ensures var removal := store.removals[operation];
            var source, target, r := removal.request.source, removal.request.target, Finish(store, operation);
            && (forall space | space != source && Some(space) != target ::
                  && Look(r.memory, space) == Look(store.memory, space)
                  && (space in r.vectors <==> space in store.vectors))
            && Look(r.memory, source) == Some(map[]) && source !in r.vectors
            && (target.Some? ==> Look(r.memory, target.value) == removal.plan.memory && target.value !in r.vectors)
  {
    FinishCloses(store, operation);
  }

  // The memory that finishing leaves in a Space in transition.
  function ImageOf(removal: Removal, space: Id): Memory
    requires WellFormed(removal) && Touches(removal.request, space)
  {
    if space == removal.request.source then map[] else removal.plan.memory.value
  }

  /** What the fence is for: memory given to a Space while an intent is open outlives the finish exactly if the
      intent does not touch the Space or stores that very memory for it. */
  lemma WriteSurvivesExactly(store: Store, operation: Id, space: Id, memory: Memory)
    requires Open(store, operation) && WellFormed(store.removals[operation])
    ensures var removal := store.removals[operation];
            Look(Finish(Happen(store, operation, Wrote(space, memory)), operation).memory, space) == Some(memory)
            <==> !Touches(removal.request, space) || memory == ImageOf(removal, space)
  {
    var written := Happen(store, operation, Wrote(space, memory));
    FinishCloses(written, operation);
    if !Touches(store.removals[operation].request, space) {
      MemoryCommutes(written.memory, store.removals[operation].request, store.removals[operation].plan.memory, space,
        memory);
    }
  }

  /** Settings changed meanwhile outlive it exactly if the intent has no image of the settings, or the same. */
  lemma SettingsSurviveExactly(store: Store, operation: Id, settings: string)
    requires Open(store, operation) && WellFormed(store.removals[operation])
    ensures Finish(Happen(store, operation, Changed(settings)), operation).settings == settings
            <==> store.removals[operation].plan.settings in {None, Some(settings)}
  {
    FinishCloses(Happen(store, operation, Changed(settings)), operation);
  }

  /** A row stored meanwhile always outlives it, where it was put: the database lets none into the source. */
  lemma RowsSurvive(store: Store, operation: Id, row: Id, space: Id)
    requires Open(store, operation) && WellFormed(store.removals[operation])
    requires Fenced(store, operation, Inserted(row, space))
    ensures var r := Finish(Happen(store, operation, Inserted(row, space)), operation);
            row in r.owners && r.owners[row] == space
  {
    FinishCloses(Happen(store, operation, Inserted(row, space)), operation);
  }
}
