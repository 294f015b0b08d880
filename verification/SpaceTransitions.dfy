/**
 Every run of Space removals: requests, failed attempts, restarts and ordinary work in any order.

 The durable store carries the intents; `retired`, `pending` and `serving` are lost with the process. An
 intent is fenced in memory only once the reply to storing it is heard; the database fences its rows from
 the moment it is stored.
 `SpaceTransitions` is the procedure that handles a request and the one that runs at startup.
 */
module SpaceTransitions {
  import opened Wrappers
  import opened Files
  import opened SpaceRemoval

  datatype Machine = Machine(
    store: Store,
    retired: set<Id>,        // volatile: Spaces refused to every caller
    pending: bool,           // volatile: settings are frozen
    serving: bool,
    unheard: set<Id>,        // history: operations stored in this incarnation without a reply
    exposed: set<Id>         // history: sources ever stored so
  )

  datatype Event =
    | Asked(operation: Id, request: Request, plan: Option<AfterImages>,
            heard: bool, reached: nat, replied: bool, published: bool)
    | Restarted(reached: nat, replied: bool)
    | Happened(incident: Incident)

  function Sources(store: Store): set<Id> {
    set operation | operation in store.removals :: store.removals[operation].request.source
  }

  predicate AnyOpen(store: Store) {
    exists operation | operation in store.removals :: Open(store, operation)
  }

  function Touched(request: Request): set<Id> {
    {request.source} + if request.target.Some? then {request.target.value} else {}
  }

  // The checks made before an intent is stored, the uniqueness of sources included; `plan` is absent when
  // any other check refuses.
  predicate Admits(store: Store, retired: set<Id>, request: Request, plan: Option<AfterImages>) {
    && !AnyOpen(store)
    && request.target != Some(request.source)
    && Touched(request) !! retired && Touched(request) !! Sources(store)
    && (request.target.Some? && request.source in store.assistants && request.target.value in store.assistants ==>
          store.assistants[request.source] == store.assistants[request.target.value])
    && plan.Some? && (plan.value.memory.Some? <==> request.target.Some?)
  }

  // The same in terms of single removals: none is open, none took away a Space of this one, neither Space is
  // refused, and at most one default assistant remains to be chosen from.
  predicate Acceptable(store: Store, retired: set<Id>, request: Request, plan: Option<AfterImages>) {
    && plan.Some?
    && (forall a | a in store.removals ::
          && store.removals[a].completed && store.removals[a].request.source != request.source
          && Some(store.removals[a].request.source) != request.target)
    && request.source !in retired
    && match request.target
       case None => plan.value.memory.None?
       case Some(target) =>
         && target != request.source && target !in retired && plan.value.memory.Some?
         && (request.source in store.assistants ==>
               target !in store.assistants || store.assistants[target] == store.assistants[request.source])
  }

  lemma AdmitsExactly(store: Store, retired: set<Id>, request: Request, plan: Option<AfterImages>)
    ensures Admits(store, retired, request, plan) <==> Acceptable(store, retired, request, plan)
  {
    if Acceptable(store, retired, request, plan) {
      assert forall operation | operation in store.removals :: !Open(store, operation);
    } else if Admits(store, retired, request, plan) {
      forall a | a in store.removals
        ensures store.removals[a].completed && store.removals[a].request.source in Sources(store)
      {
        assert !Open(store, a);
      }
    }
  }

  predicate Admitted(m: Machine, request: Request, plan: Option<AfterImages>) {
    Admits(m.store, m.retired, request, plan)
  }

  function Stored(store: Store, operation: Id, request: Request, plan: AfterImages): Store {
    store.(removals := store.removals[operation := Removal(request, plan, false)])
  }

  // The reply to storing an intent raises the fence; without it there is none.
  function Intend(m: Machine, operation: Id, request: Request, plan: AfterImages): Machine {
    m.(store := Stored(m.store, operation, request, plan), retired := m.retired + Touched(request), pending := true)
  }

  function Overhear(m: Machine, operation: Id, request: Request, plan: AfterImages): Machine {
    m.(store := Stored(m.store, operation, request, plan),
       unheard := m.unheard + {operation}, exposed := m.exposed + {request.source})
  }

  // An attempt to finish. Once it is heard of, a finished migration frees its target, and the new
  // settings are published.
  function Pursue(m: Machine, operation: Id, reached: nat, replied: bool, published: bool): Machine
    requires operation in m.store.removals
  {
    var after := m.(store := Attempt(m.store, operation, reached));
    if reached < STAGES || !replied then after
    else
      var target := m.store.removals[operation].request.target;
      after.(retired := if target.Some? then m.retired - {target.value} else m.retired,
             pending := m.pending && (AnyOpen(after.store) || !published))
  }

  function Ask(m: Machine, e: Event): Machine
    requires e.Asked?
  {
    if e.operation in m.store.removals then
      var previous := m.store.removals[e.operation];
      if previous.request != e.request then m
      else if previous.completed then m.(pending := m.pending && (AnyOpen(m.store) || !e.published))
      else Pursue(m, e.operation, e.reached, e.replied, e.published)
    else if Admitted(m, e.request, e.plan) then
      if !e.heard then Overhear(m, e.operation, e.request, e.plan.value)
      else Pursue(Intend(m, e.operation, e.request, e.plan.value), e.operation, e.reached, e.replied, e.published)
    else m
  }

  // Ordinary work respects the fence: memory and settings through `retired` and `pending`, new rows through
  // the database triggers.
  ghost predicate Permitted(m: Machine, incident: Incident) {
    match incident
    case Attempted(_) => false
    case Reopened(space, defaults) => true
    case Wrote(space, _) => m.serving && space !in m.retired
    case Inserted(row, space) => m.serving && space !in Sources(m.store) && row !in m.store.owners
      && Unappointed(m.store, row)
    case Dropped(row) =>
      && m.serving && row in m.store.owners && Unappointed(m.store, row)
      && (m.store.owners[row] !in Sources(m.store) || m.store.owners[row] !in m.retired)
    case Changed(_) => m.serving && !m.pending
  }

  function Affect(store: Store, incident: Incident): Store
    requires !incident.Attempted?
  {
    match incident
    case Reopened(space, defaults) =>
      store.(memory := store.memory[space := defaults + if space in store.memory then store.memory[space] else map[]])
    case Wrote(space, memory) => store.(memory := store.memory[space := memory])
    case Inserted(row, space) => store.(owners := store.owners[row := space])
    case Dropped(row) => store.(owners := store.owners - {row})
    case Changed(settings) => store.(settings := settings)
  }

  ghost predicate Step(m: Machine, e: Event, m': Machine) {
    match e
    case Asked(_, _, _, _, _, _, _) => m.serving && m' == Ask(m, e)
    case Restarted(reached, replied) =>
      && !m'.pending && m'.unheard == {} && m'.exposed == m.exposed
      && (m'.serving ==> m'.retired == Sources(m.store))
      && (if AnyOpen(m.store) then
            exists operation | operation in m.store.removals ::
              && Open(m.store, operation) && m'.store == Attempt(m.store, operation, reached)
              && (m'.serving <==> reached >= STAGES && replied)
          else m'.store == m.store && m'.serving)
    case Happened(incident) => Permitted(m, incident) && m' == m.(store := Affect(m.store, incident))
  }

  ghost predicate Next(m: Machine, m': Machine) {
    exists e :: Step(m, e, m')
  }

  // ---- The invariant ----

  ghost predicate OneOpen(store: Store) {
    forall a, b :: Open(store, a) && Open(store, b) ==> a == b
  }

  ghost predicate SourcesDistinct(store: Store) {
    forall a, b | a in store.removals && b in store.removals ::
      store.removals[a].request.source == store.removals[b].request.source ==> a == b
  }

  ghost predicate OpenIsFormed(store: Store) {
    forall a | a in store.removals && Open(store, a) ::
      && WellFormed(store.removals[a])
      && (store.removals[a].request.target.Some? ==> store.removals[a].request.target.value !in Sources(store))
  }

  // No row of a removed Space is left, and of its files at most reopened bootstrap files.
  ghost predicate Rowless(store: Store, space: Id) {
    (forall row | row in store.owners :: store.owners[row] != space) && space !in store.assistants
  }

  ghost predicate Vacant(store: Store, space: Id, layout: set<Path>) {
    Rowless(store, space) && (space in store.memory ==> store.memory[space].Keys <= layout)
  }

  ghost predicate ClosedAreVacant(store: Store, exposed: set<Id>, layout: set<Path>) {
    forall a | a in store.removals && store.removals[a].completed ::
      var source := store.removals[a].request.source;
      if source in exposed then Rowless(store, source) else Vacant(store, source, layout)
  }

  // A heard intent is fenced as long as this incarnation serves, an unheard one is not.
  ghost predicate Guarded(m: Machine, a: Id)
    requires a in m.store.removals
  {
    var request := m.store.removals[a].request;
    && (request.source in m.retired <==> a !in m.unheard)
    && (a !in m.unheard && Open(m.store, a) ==>
      m.pending && (request.target.Some? ==> request.target.value in m.retired))
  }

  ghost predicate Fences(m: Machine) {
    && (m.serving ==> forall a | a in m.store.removals :: Guarded(m, a))
    && m.unheard <= m.store.removals.Keys
    && (forall a | a in m.unheard && a in m.store.removals :: m.store.removals[a].request.source in m.exposed)
  }

  ghost predicate Inv(m: Machine, layout: set<Path>) {
    && OneOpen(m.store)
    && SourcesDistinct(m.store)
    && OpenIsFormed(m.store)
    && ClosedAreVacant(m.store, m.exposed, layout)
    && Fences(m)
  }

  // Restarts bootstrap with the same default paths.
  ghost predicate Bootstraps(e: Event, layout: set<Path>) {
    e.Happened? && e.incident.Reopened? ==> e.incident.defaults.Keys <= layout
  }

  // ---- Preservation ----

  // What an attempt does to the intents.
  lemma AttemptFacts(store: Store, operation: Id, reached: nat)
    requires Open(store, operation) && WellFormed(store.removals[operation])
    ensures var r := Attempt(store, operation, reached);
            && r.removals.Keys == store.removals.Keys
            && (forall a | a in store.removals && a != operation :: r.removals[a] == store.removals[a])
            && r.removals[operation].request == store.removals[operation].request
            && (r.removals[operation].completed <==> reached >= STAGES)
            && (reached < STAGES ==> r.removals == store.removals)
  {
    if reached < STAGES {
      StagesDone(store, operation, reached);
    } else {
      FinishCloses(store, operation);
    }
  }

  lemma OpenAfter(store: Store, operation: Id, reached: nat)
    requires OneOpen(store) && Open(store, operation) && WellFormed(store.removals[operation])
    ensures var r := Attempt(store, operation, reached);
            && (forall a :: Open(r, a) <==> reached < STAGES && Open(store, a))
            && (AnyOpen(r) <==> reached < STAGES)
  {
    AttemptFacts(store, operation, reached);
    var r := Attempt(store, operation, reached);
    forall a ensures Open(r, a) <==> reached < STAGES && Open(store, a) {
      if a in store.removals && a != operation {
        assert r.removals[a] == store.removals[a] && !Open(store, a);
      }
    }
    if reached < STAGES {
      assert Open(r, operation);
    }
  }

  lemma {:induction false} StagesTouch(store: Store, operation: Id, count: nat, space: Id)
    requires operation in store.removals && count <= 5
    requires WellFormed(store.removals[operation]) && !Touches(store.removals[operation].request, space)
    ensures var r := Stages(store, operation, count);
            && r.owners == store.owners && r.assistants == store.assistants && r.removals == store.removals
            && SpaceRemoval.Look(r.memory, space) == SpaceRemoval.Look(store.memory, space)
  {
    if count > 0 {
      StagesTouch(store, operation, count - 1, space);
    }
  }

  lemma AttemptKeepsVacant(store: Store, operation: Id, reached: nat, space: Id, layout: set<Path>)
    requires Open(store, operation) && WellFormed(store.removals[operation])
    requires Rowless(store, space) && !Touches(store.removals[operation].request, space)
    ensures Rowless(Attempt(store, operation, reached), space)
    ensures Vacant(store, space, layout) ==> Vacant(Attempt(store, operation, reached), space, layout)
  {
    var removal := store.removals[operation];
    if reached < STAGES {
      StagesTouch(store, operation, reached, space);
      assert SpaceRemoval.Look(Attempt(store, operation, reached).memory, space)
        == SpaceRemoval.Look(store.memory, space);
    } else {
      FinishCloses(store, operation);
    }
  }

  lemma FinishVacates(store: Store, operation: Id, layout: set<Path>)
    requires Open(store, operation) && WellFormed(store.removals[operation])
    ensures Vacant(Finish(store, operation), store.removals[operation].request.source, layout)
  {
    FinishConservesRows(store, operation);
  }

  ghost predicate StoreInv(store: Store, exposed: set<Id>, layout: set<Path>) {
    OneOpen(store) && SourcesDistinct(store) && OpenIsFormed(store) && ClosedAreVacant(store, exposed, layout)
  }

  lemma AttemptKeepsStore(store: Store, operation: Id, reached: nat, exposed: set<Id>, layout: set<Path>)
    requires StoreInv(store, exposed, layout) && Open(store, operation)
    ensures var r := Attempt(store, operation, reached);
            && StoreInv(r, exposed, layout)
            && Sources(r) == Sources(store)
            && (AnyOpen(r) <==> reached < STAGES)
            && forall a :: Open(r, a) <==> reached < STAGES && Open(store, a)
  {
    AttemptFacts(store, operation, reached);
    var r := Attempt(store, operation, reached);
    assert forall a | a in store.removals :: r.removals[a].request == store.removals[a].request;
    SameSources(store, r);
    forall a | a in r.removals && r.removals[a].completed
      ensures var source := r.removals[a].request.source;
              if source in exposed then Rowless(r, source) else Vacant(r, source, layout)
    {
      if a == operation {
        FinishVacates(store, operation, layout);
      } else {
        AttemptKeepsVacant(store, operation, reached, store.removals[a].request.source, layout);
      }
    }
    OpenAfter(store, operation, reached);
  }

  lemma SameSources(store: Store, r: Store)
    requires r.removals.Keys == store.removals.Keys
    requires forall a | a in store.removals :: r.removals[a].request == store.removals[a].request
    ensures Sources(r) == Sources(store)
  {
    forall space ensures space in Sources(r) <==> space in Sources(store) {
      if space in Sources(r) {
        var a :| a in r.removals && r.removals[a].request.source == space;
        assert a in store.removals && store.removals[a].request.source == space;
      }
      if space in Sources(store) {
        var a :| a in store.removals && store.removals[a].request.source == space;
        assert a in r.removals && r.removals[a].request.source == space;
      }
    }
  }

  // A new intent, fenced or not.
  lemma StoredIntents(store: Store, operation: Id, request: Request, plan: AfterImages)
    requires !AnyOpen(store) && operation !in store.removals
    ensures var r := Stored(store, operation, request, plan);
            && Sources(r) == Sources(store) + {request.source}
            && forall a :: Open(r, a) <==> a == operation
  {
    var r := Stored(store, operation, request, plan);
    forall a ensures Open(r, a) <==> a == operation {
      assert a in store.removals ==> r.removals[a] == store.removals[a] && !Open(store, a);
    }
    forall space ensures space in Sources(r) <==> space in Sources(store) + {request.source} {
      if space in Sources(store) {
        var a :| a in store.removals && store.removals[a].request.source == space;
        assert a in r.removals && r.removals[a].request.source == space;
      }
      if space == request.source {
        assert r.removals[operation].request.source == space;
      }
    }
  }

  lemma StoredKeepsStore(store: Store, operation: Id, request: Request, plan: AfterImages, exposed: set<Id>,
                         exposed': set<Id>, layout: set<Path>)
    requires StoreInv(store, exposed, layout) && !AnyOpen(store) && operation !in store.removals && exposed <= exposed'
    requires request.target != Some(request.source) && Touched(request) !! Sources(store)
    requires request.target.Some? ==> plan.memory.Some?
    ensures var r := Stored(store, operation, request, plan);
            && StoreInv(r, exposed', layout) && Sources(r) == Sources(store) + {request.source}
            && forall a :: Open(r, a) <==> a == operation
  {
    var r := Stored(store, operation, request, plan);
    StoredIntents(store, operation, request, plan);
    assert request.source in Touched(request) && (request.target.Some? ==> request.target.value in Touched(request));
    forall a | a in store.removals ensures r.removals[a] == store.removals[a]
      && r.removals[a].request.source != request.source {
      assert store.removals[a].request.source in Sources(store);
    }
    forall a | a in r.removals && r.removals[a].completed
      ensures var source := r.removals[a].request.source;
              if source in exposed' then Rowless(r, source) else Vacant(r, source, layout)
    {
      assert a in store.removals && a != operation;
    }
  }

  lemma IntendKeepsInv(m: Machine, operation: Id, request: Request, plan: AfterImages, layout: set<Path>)
    requires Inv(m, layout) && m.serving && operation !in m.store.removals && Admitted(m, request, Some(plan))
    ensures Inv(Intend(m, operation, request, plan), layout)
    ensures Open(Intend(m, operation, request, plan).store, operation)
  {
    var r := Intend(m, operation, request, plan);
    StoredKeepsStore(m.store, operation, request, plan, m.exposed, m.exposed, layout);
    forall a | a in r.store.removals ensures Guarded(r, a) {
      if a != operation {
        assert Guarded(m, a) && m.store.removals[a].request.source in Sources(m.store);
      }
    }
  }

  lemma OverhearKeepsInv(m: Machine, operation: Id, request: Request, plan: AfterImages, layout: set<Path>)
    requires Inv(m, layout) && m.serving && operation !in m.store.removals && Admitted(m, request, Some(plan))
    ensures Inv(Overhear(m, operation, request, plan), layout)
  {
    var r := Overhear(m, operation, request, plan);
    StoredKeepsStore(m.store, operation, request, plan, m.exposed, r.exposed, layout);
    assert request.source in Touched(request);
    forall a | a in r.store.removals ensures Guarded(r, a) {
      if a != operation {
        assert Guarded(m, a) && m.store.removals[a].request.source in Sources(m.store);
      }
    }
  }

  lemma PursueKeepsInv(m: Machine, operation: Id, reached: nat, replied: bool, published: bool, layout: set<Path>)
    requires Inv(m, layout) && m.serving && Open(m.store, operation)
    ensures Inv(Pursue(m, operation, reached, replied, published), layout)
  {
    var r := Pursue(m, operation, reached, replied, published);
    AttemptFacts(m.store, operation, reached);
    AttemptKeepsStore(m.store, operation, reached, m.exposed, layout);
    forall a | a in r.store.removals ensures Guarded(r, a) {
      assert Guarded(m, a) && r.store.removals[a].request == m.store.removals[a].request;
      assert m.store.removals[a].request.source in Sources(m.store);
    }
  }

  lemma HappenedKeepsInv(m: Machine, incident: Incident, layout: set<Path>)
    requires Inv(m, layout) && Permitted(m, incident) && Bootstraps(Happened(incident), layout)
    ensures Inv(m.(store := Affect(m.store, incident)), layout)
  {
    var r := m.(store := Affect(m.store, incident));
    SameSources(m.store, r.store);
    assert forall a :: Open(r.store, a) <==> Open(m.store, a);
    forall a | a in r.store.removals && r.store.removals[a].completed
      ensures var source := r.store.removals[a].request.source;
              if source in m.exposed then Rowless(r.store, source) else Vacant(r.store, source, layout)
    {
      var source := m.store.removals[a].request.source;
      assert source in Sources(m.store);
      assert m.serving ==> Guarded(m, a);
    }
    if m.serving {
      forall a | a in r.store.removals ensures Guarded(r, a) {
        assert Guarded(m, a);
      }
    }
  }

  // Intents are never withdrawn or altered, and a closed one stays as it is.
  ghost predicate IntentsStay(store: Store, store': Store) {
    forall a | a in store.removals ::
      && a in store'.removals
      && store'.removals[a].request == store.removals[a].request
      && (store.removals[a].completed ==> store'.removals[a] == store.removals[a])
  }

  lemma PursueKeepsIntents(m: Machine, operation: Id, reached: nat, replied: bool, published: bool)
    requires Open(m.store, operation) && WellFormed(m.store.removals[operation])
    ensures IntentsStay(m.store, Pursue(m, operation, reached, replied, published).store)
  {
    AttemptFacts(m.store, operation, reached);
  }

  lemma AskKeepsInv(m: Machine, e: Event, layout: set<Path>)
    requires Inv(m, layout) && e.Asked? && m.serving
    ensures Inv(Ask(m, e), layout) && IntentsStay(m.store, Ask(m, e).store)
  {
    if Open(m.store, e.operation) {
      PursueKeepsInv(m, e.operation, e.reached, e.replied, e.published, layout);
      PursueKeepsIntents(m, e.operation, e.reached, e.replied, e.published);
    } else if e.operation !in m.store.removals && Admitted(m, e.request, e.plan) {
      if !e.heard {
        OverhearKeepsInv(m, e.operation, e.request, e.plan.value, layout);
        return;
      }
      var intended := Intend(m, e.operation, e.request, e.plan.value);
      IntendKeepsInv(m, e.operation, e.request, e.plan.value, layout);
      PursueKeepsInv(intended, e.operation, e.reached, e.replied, e.published, layout);
      PursueKeepsIntents(intended, e.operation, e.reached, e.replied, e.published);
      assert IntentsStay(m.store, intended.store);
    }
  }

  lemma RestartKeepsInv(m: Machine, e: Event, m': Machine, layout: set<Path>)
    requires Inv(m, layout) && e.Restarted? && Step(m, e, m')
    ensures Inv(m', layout) && IntentsStay(m.store, m'.store)
    ensures m'.serving ==> m'.retired == Sources(m'.store) && !AnyOpen(m'.store)
  {
    RestartKeepsStore(m, e, m', layout);
    forall a | a in m'.store.removals && m'.serving ensures Guarded(m', a) {
      assert m'.store.removals[a].request.source in Sources(m'.store);
    }
  }

  lemma RestartKeepsStore(m: Machine, e: Event, m': Machine, layout: set<Path>)
    requires Inv(m, layout) && e.Restarted? && Step(m, e, m')
    ensures StoreInv(m'.store, m'.exposed, layout) && IntentsStay(m.store, m'.store)
    ensures Sources(m'.store) == Sources(m.store) && (m'.serving ==> !AnyOpen(m'.store))
  {
    if AnyOpen(m.store) {
      var operation :| operation in m.store.removals && Open(m.store, operation)
                       && m'.store == Attempt(m.store, operation, e.reached)
                       && (m'.serving <==> e.reached >= STAGES && e.replied);
      AttemptFacts(m.store, operation, e.reached);
      AttemptKeepsStore(m.store, operation, e.reached, m.exposed, layout);
    }
  }

  /** Every step keeps the invariant and the intents. */
  lemma StepKeepsInv(m: Machine, e: Event, m': Machine, layout: set<Path>)
    requires Inv(m, layout) && Step(m, e, m') && Bootstraps(e, layout)
    ensures Inv(m', layout) && IntentsStay(m.store, m'.store)
  {
    match e
    case Asked(_, _, _, _, _, _, _) => AskKeepsInv(m, e, layout);
    case Restarted(_, _) => RestartKeepsInv(m, e, m', layout);
    case Happened(incident) => HappenedKeepsInv(m, incident, layout);
  }

  // ---- Whole runs ----

  ghost predicate IsRun(trace: seq<Machine>, events: seq<Event>, layout: set<Path>) {
    && |trace| == |events| + 1
    && forall i :: 0 <= i < |events| ==> Step(trace[i], events[i], trace[i + 1]) && Bootstraps(events[i], layout)
  }

  lemma RunPrefix(trace: seq<Machine>, events: seq<Event>, layout: set<Path>)
    requires IsRun(trace, events, layout) && events != []
    ensures IsRun(trace[..|events|], events[..|events| - 1], layout)
  {
    var init, before := trace[..|events|], events[..|events| - 1];
    forall i | 0 <= i < |before|
      ensures Step(init[i], before[i], init[i + 1]) && Bootstraps(before[i], layout)
    {
      assert init[i] == trace[i] && init[i + 1] == trace[i + 1] && before[i] == events[i];
    }
  }

  // Before the first start no removal was ever asked for.
  predicate Fresh(m: Machine) {
    m.store.removals == map[] && !m.serving && m.unheard == {} && m.exposed == {}
  }

  lemma FreshKeepsInv(m: Machine, layout: set<Path>)
    requires Fresh(m)
    ensures Inv(m, layout)
  {
  }

  /** Safety of every run: at most one removal is open; a removed Space never has rows again, and stays
      refused and empty for good, across any number of restarts, if the reply to its intent was heard. */
  lemma {:induction false} EveryRunIsSafe(trace: seq<Machine>, events: seq<Event>, layout: set<Path>)
    requires IsRun(trace, events, layout) && Fresh(trace[0])
    ensures forall i :: 0 <= i < |trace| ==> Inv(trace[i], layout)
    ensures forall i, a :: 0 <= i < |trace| && a in trace[i].store.removals && trace[i].store.removals[a].completed ==>
              RemovedForGood(trace[|trace| - 1], trace[i].store.removals[a].request.source, layout)
  {
    hide Inv, Step;
    FreshKeepsInv(trace[0], layout);
    if |events| > 0 {
      var n := |events|;
      var init, before := trace[..n], events[..n - 1];
      RunPrefix(trace, events, layout);
      EveryRunIsSafe(init, before, layout);
      forall i | 0 <= i < n ensures Inv(trace[i], layout) {
        assert init[i] == trace[i];
      }
      StepKeepsInv(trace[n - 1], events[n - 1], trace[n], layout);
      forall i, a | 0 <= i < |trace| && a in trace[i].store.removals && trace[i].store.removals[a].completed
        ensures RemovedForGood(trace[n], trace[i].store.removals[a].request.source, layout)
      {
        if i < n {
          assert init[i] == trace[i] && init[n - 1] == trace[n - 1];
          assert RemovedForGood(trace[n - 1], trace[i].store.removals[a].request.source, layout);
          RemovedStays(trace[n - 1], events[n - 1], trace[n], trace[i].store.removals[a].request.source, layout);
        } else {
          RemovedNow(trace[n], a, layout);
        }
      }
    }
  }

  // Some completed removal has this source, no row of it is left, and unless its intent was stored unheard
  // nothing else is left either and no caller is let in.
  ghost predicate RemovedForGood(m: Machine, source: Id, layout: set<Path>) {
    && (exists a | a in m.store.removals ::
      m.store.removals[a].completed && m.store.removals[a].request.source == source)
    && Rowless(m.store, source)
    && (source !in m.exposed ==> Vacant(m.store, source, layout) && (m.serving ==> source in m.retired))
  }

  /** Exactly: a serving process refuses the source of a removal if and only if it heard the reply to its
      intent or was started after it was stored. */
  lemma RefusedExactlyWhenHeard(trace: seq<Machine>, events: seq<Event>, layout: set<Path>, operation: Id)
    requires IsRun(trace, events, layout) && Fresh(trace[0]) && trace[|events|].serving
    requires operation in trace[|events|].store.removals
    ensures trace[|events|].store.removals[operation].request.source in trace[|events|].retired
            <==> operation !in trace[|events|].unheard
  {
    EveryRunIsSafe(trace, events, layout);
    assert Guarded(trace[|events|], operation);
  }

  lemma RemovedNow(m: Machine, operation: Id, layout: set<Path>)
    requires Inv(m, layout) && operation in m.store.removals && m.store.removals[operation].completed
    ensures RemovedForGood(m, m.store.removals[operation].request.source, layout)
  {
    assert m.serving ==> Guarded(m, operation);
  }

  lemma RemovedStays(m: Machine, e: Event, m': Machine, source: Id, layout: set<Path>)
    requires Inv(m, layout) && Step(m, e, m') && Bootstraps(e, layout) && RemovedForGood(m, source, layout)
    ensures RemovedForGood(m', source, layout)
  {
    StepKeepsInv(m, e, m', layout);
    var a :| a in m.store.removals && m.store.removals[a].completed && m.store.removals[a].request.source == source;
    RemovedNow(m', a, layout);
  }

  /** Asking again for a finished operation changes no store, and neither does reusing its id. */
  lemma FinishedIsOnlyReported(m: Machine, e: Event, m': Machine)
    requires e.Asked? && Step(m, e, m') && e.operation in m.store.removals
    requires m.store.removals[e.operation].completed || m.store.removals[e.operation].request != e.request
    ensures m'.store == m.store && m'.retired == m.retired
  {
  }

  /** When the step that closes a migration is reported, its target is live again and its source is not. */
  lemma MigrationTargetLivesAgain(m: Machine, e: Event, m': Machine, operation: Id, layout: set<Path>)
    requires Inv(m, layout) && Step(m, e, m') && Bootstraps(e, layout)
    requires Open(m.store, operation) && m.store.removals[operation].request.target.Some?
    requires (e.Asked? || e.Restarted?) && e.replied && m'.serving
    requires operation in m'.store.removals && m'.store.removals[operation].completed
    ensures m.store.removals[operation].request.target.value !in m'.retired
    ensures m.store.removals[operation].request.source in m'.retired <==> e.Restarted? || operation !in m.unheard
    ensures (e.Asked? ==> e.published) ==> !m'.pending
  {
    var request := m.store.removals[operation].request;
    assert request.target.value !in Sources(m.store) && request.source in Sources(m.store);
    if e.Restarted? {
      RestartFrees(m, e, m', layout);
    } else {
      AskFrees(m, e, operation, layout);
    }
  }

  lemma RestartFrees(m: Machine, e: Event, m': Machine, layout: set<Path>)
    requires Inv(m, layout) && e.Restarted? && Step(m, e, m') && m'.serving
    ensures m'.retired == Sources(m.store) && !m'.pending
  {
  }

  // While a removal is open, no other request changes the store.
  lemma OthersLeaveOpen(m: Machine, e: Event, operation: Id)
    requires OneOpen(m.store) && e.Asked? && Open(m.store, operation)
    ensures e.operation != operation ==> Ask(m, e).store == m.store
  {
    assert AnyOpen(m.store) && !Admitted(m, e.request, e.plan);
    assert e.operation != operation ==> !Open(m.store, e.operation);
  }

  lemma AskFrees(m: Machine, e: Event, operation: Id, layout: set<Path>)
    requires Inv(m, layout) && e.Asked? && m.serving && e.replied && Open(m.store, operation)
    requires operation in Ask(m, e).store.removals && Ask(m, e).store.removals[operation].completed
    requires m.store.removals[operation].request.target.Some?
    ensures Ask(m, e).retired == m.retired - {m.store.removals[operation].request.target.value}
    ensures m.store.removals[operation].request.source in Ask(m, e).retired <==> operation !in m.unheard
    ensures e.published ==> !Ask(m, e).pending
  {
    OthersLeaveOpen(m, e, operation);
    if e.operation == operation {
      AttemptFacts(m.store, operation, e.reached);
      AttemptKeepsStore(m.store, operation, e.reached, m.exposed, layout);
      assert Guarded(m, operation) && m.store.removals[operation].request.source in Sources(m.store);
    }
  }

  // ---- Runs of an open removal are crash-transparent ----

  // What a step means to the open intent.
  function IncidentOf(m: Machine, e: Event, operation: Id): seq<Incident> {
    match e
    case Asked(asked, request, _, _, reached, _, _) =>
      if asked == operation && operation in m.store.removals && m.store.removals[operation].request == request
      then [Attempted(reached)] else []
    case Restarted(reached, _) => [Attempted(reached)]
    case Happened(incident) => [incident]
  }

  function Incidents(trace: seq<Machine>, events: seq<Event>, operation: Id): seq<Incident>
    requires |trace| == |events| + 1
  {
    if events == [] then []
    else
      var n := |events|;
      Incidents(trace[..n], events[..n - 1], operation) + IncidentOf(trace[n - 1], events[n - 1], operation)
  }

  lemma StepIsIncident(m: Machine, e: Event, m': Machine, operation: Id, layout: set<Path>)
    requires Inv(m, layout) && Step(m, e, m') && Open(m.store, operation)
    ensures var incidents := IncidentOf(m, e, operation);
            && (incidents == [] ==> m'.store == m.store)
            && (incidents != [] ==> |incidents| == 1 && Fenced(m.store, operation, incidents[0])
                                    && m'.store == Happen(m.store, operation, incidents[0]))
  {
    assert AnyOpen(m.store);
    var request := m.store.removals[operation].request;
    assert request.source in Sources(m.store);
    if e.Asked? && e.operation != operation {
      assert !Open(m.store, e.operation);
    }
    if e.Restarted? {
      var other :| other in m.store.removals && Open(m.store, other) && m'.store == Attempt(m.store, other, e.reached);
      assert other == operation;
    }
  }

  // A run during which the intent is open plays out as its incidents.
  lemma {:induction false} RunIsPlay(trace: seq<Machine>, events: seq<Event>, operation: Id, layout: set<Path>)
    requires IsRun(trace, events, layout) && Inv(trace[0], layout)
    requires forall i :: 0 <= i < |events| ==> Open(trace[i].store, operation)
    requires operation in trace[0].store.removals
    ensures WhileOpen(trace[0].store, operation, Incidents(trace, events, operation))
    ensures trace[|events|].store == Play(trace[0].store, operation, Incidents(trace, events, operation))
    ensures Inv(trace[|events|], layout)
  {
    if events != [] {
      var n := |events|;
      var init, before := trace[..n], events[..n - 1];
      RunPrefix(trace, events, layout);
      assert forall i :: 0 <= i < n ==> init[i] == trace[i];
      RunIsPlay(init, before, operation, layout);
      StepKeepsInv(trace[n - 1], events[n - 1], trace[n], layout);
      StepIsIncident(trace[n - 1], events[n - 1], trace[n], operation, layout);
      var incidents, more := Incidents(init, before, operation), IncidentOf(trace[n - 1], events[n - 1], operation);
      if more == [] {
        assert incidents + more == incidents;
      } else {
        assert more == [more[0]];
        PlayMore(trace[0].store, operation, incidents, more[0]);
      }
    }
  }

  /** However a run treats an open removal, heard or not (failed and repeated requests, restarts, work),
      finishing it at the end gives what finishing it at once and then doing the surviving work gives. */
  lemma EveryRunIsCrashTransparent(trace: seq<Machine>, events: seq<Event>, operation: Id, layout: set<Path>)
    requires IsRun(trace, events, layout) && Inv(trace[0], layout)
    requires forall i :: 0 <= i < |events| ==> Open(trace[i].store, operation)
    requires Open(trace[0].store, operation)
    ensures operation in trace[|events|].store.removals
    ensures var work := Work(Incidents(trace, events, operation), trace[0].store.removals[operation]);
            Finish(trace[|events|].store, operation) == Play(Finish(trace[0].store, operation), operation, work)
  {
    RunIsPlay(trace, events, operation, layout);
    RemovalIsCrashTransparent(trace[0].store, operation, Incidents(trace, events, operation));
  }

  // ---- Intents whose reply was lost ----

  // While a heard intent is open, whatever is let in survives its finish.
  lemma HeardIntentLosesNothing(m: Machine, incident: Incident, operation: Id, layout: set<Path>)
    requires Inv(m, layout) && Open(m.store, operation) && operation !in m.unheard
    requires Permitted(m, incident) && !incident.Reopened?
    ensures IsWork(incident, m.store.removals[operation])
  {
    assert Guarded(m, operation);
  }

  lemma HeardStays(m: Machine, e: Event, m': Machine, operation: Id)
    requires Step(m, e, m') && operation in m.store.removals && operation !in m.unheard
    ensures operation !in m'.unheard
  {
  }

  /** Exactly the intents without a reply can lose work: over any run while a heard one is open, everything
      but failed attempts and restarts is surviving work. */
  lemma {:induction false} HeardRunsLoseNothing(trace: seq<Machine>, events: seq<Event>, operation: Id,
                                                layout: set<Path>)
    requires IsRun(trace, events, layout) && Inv(trace[0], layout) && operation !in trace[0].unheard
    requires forall i :: 0 <= i < |events| ==> Open(trace[i].store, operation)
    requires operation in trace[0].store.removals
    ensures operation in trace[|events|].store.removals && operation !in trace[|events|].unheard
    ensures forall i :: 0 <= i < |events| && events[i].Happened? && !events[i].incident.Reopened? ==>
              operation in trace[i].store.removals && IsWork(events[i].incident, trace[i].store.removals[operation])
  {
    if events != [] {
      var n := |events|;
      var init, before := trace[..n], events[..n - 1];
      RunPrefix(trace, events, layout);
      assert forall i :: 0 <= i < n ==> init[i] == trace[i];
      HeardRunsLoseNothing(init, before, operation, layout);
      RunIsPlay(init, before, operation, layout);
      StepKeepsInv(trace[n - 1], events[n - 1], trace[n], layout);
      HeardStays(trace[n - 1], events[n - 1], trace[n], operation);
      if events[n - 1].Happened? && !events[n - 1].incident.Reopened? {
        HeardIntentLosesNothing(trace[n - 1], events[n - 1].incident, operation, layout);
      }
    }
  }

  /** A migration whose intent is stored without a reply: the target still takes memory, and finishing
      loses it unless it is the merged memory. */
  lemma UnheardMigrationLosesWork(m: Machine, operation: Id, request: Request, plan: AfterImages, memory: Memory,
                                  layout: set<Path>)
    returns (stored: Machine, written: Machine)
    requires Inv(m, layout) && m.serving && operation !in m.store.removals && request.target.Some?
    requires Admitted(m, request, Some(plan)) && Some(memory) != plan.memory
    ensures Step(m, Asked(operation, request, Some(plan), false, 0, false, false), stored)
    ensures Step(stored, Happened(Wrote(request.target.value, memory)), written)
    ensures Open(written.store, operation)
    ensures SpaceRemoval.Look(Finish(written.store, operation).memory, request.target.value) != Some(memory)
  {
    stored := Overhear(m, operation, request, plan);
    assert request.target.value in Touched(request);
    written := stored.(store := Affect(stored.store, Wrote(request.target.value, memory)));
    WriteSurvivesExactly(stored.store, operation, request.target.value, memory);
  }

  /** A removal whose intent is stored without a reply and finished by asking again: until the next restart
      the removed Space takes memory. */
  lemma UnheardSpaceIsRefilled(m: Machine, operation: Id, request: Request, plan: AfterImages, memory: Memory,
                               layout: set<Path>)
    returns (stored: Machine, finished: Machine, written: Machine)
    requires Inv(m, layout) && m.serving && operation !in m.store.removals && Admitted(m, request, Some(plan))
    ensures Step(m, Asked(operation, request, Some(plan), false, 0, false, false), stored)
    ensures Step(stored, Asked(operation, request, Some(plan), true, STAGES, true, true), finished)
    ensures Step(finished, Happened(Wrote(request.source, memory)), written)
    ensures operation in written.store.removals && written.store.removals[operation].completed
    ensures request.source !in written.retired
              && SpaceRemoval.Look(written.store.memory, request.source) == Some(memory)
  {
    stored := Overhear(m, operation, request, plan);
    finished := Pursue(stored, operation, STAGES, true, true);
    FinishCloses(stored.store, operation);
    assert request.source in Touched(request);
    written := finished.(store := Affect(finished.store, Wrote(request.source, memory)));
  }

  lemma PlayMore(store: Store, operation: Id, incidents: seq<Incident>, more: Incident)
    requires operation in store.removals && WhileOpen(store, operation, incidents)
    requires Open(Play(store, operation, incidents), operation)
    requires Fenced(Play(store, operation, incidents), operation, more)
    ensures WhileOpen(store, operation, incidents + [more])
    ensures Play(store, operation, incidents + [more]) == Happen(Play(store, operation, incidents), operation, more)
  {
    var all := incidents + [more];
    assert all[..|all| - 1] == incidents;
    forall i | 0 <= i < |all|
      ensures OpenAt(Play(store, operation, all[..i]), operation, all[i])
    {
      if i < |incidents| {
        assert all[..i] == incidents[..i] && all[i] == incidents[i];
        assert OpenAt(Play(store, operation, incidents[..i]), operation, incidents[i]);
      }
    }
  }

  lemma AttemptFactsOf(store: Store, operation: Id, reached: nat)
    requires operation in store.removals
    requires WellFormed(store.removals[operation]) || store.removals[operation].completed
    ensures var r := Attempt(store, operation, reached);
            && operation in r.removals
            && r.removals[operation].request == store.removals[operation].request
            && (reached >= STAGES ==> r.removals[operation].completed)
  {
    if Open(store, operation) {
      AttemptFacts(store, operation, reached);
    }
  }

  // ---- The procedures ----

  class SpaceLifecycle {
    ghost const layout: set<Path>
    // durable
    var store: Store
    // volatile
    var retired: set<Id>
    var pending: bool
    var serving: bool
    ghost var unheard: set<Id>
    ghost var exposed: set<Id>
    // what becomes of the coming calls
    var outages: seq<Outage>

    ghost function View(): Machine
      reads this
    {
      Machine(store, retired, pending, serving, unheard, exposed)
    }

    ghost predicate Valid()
      reads this
    {
      Inv(View(), layout)
    }

    constructor (ghost layout: set<Path>, store: Store, outages: seq<Outage>)
      requires store.removals == map[]
      ensures Valid() && Fresh(View()) && this.store == store && this.layout == layout
    {
      this.layout, this.store, this.outages := layout, store, outages;
      retired, pending, serving := {}, false, false;
      unheard, exposed := {}, {};
    }

    method Call() returns (outage: Outage)
      modifies this`outages
      ensures old(outages) == [] ==> outage == Answered && outages == []
    {
      if outages == [] {
        return Answered;
      }
      outage, outages := outages[0], outages[1..];
    }

    method ImportSnapshot(space: Id, image: Memory) returns (outage: Outage)
      modifies this`outages, this`store
      ensures old(outages) == [] ==> outage == Answered && outages == []
      ensures store == if outage == Failed then old(store)
                       else old(store).(memory := old(store).memory[space := image])
    {
      outage := Call();
      if outage != Failed {
        store := store.(memory := store.memory[space := image]);
      }
    }

    method RemoveVectors(space: Id) returns (outage: Outage)
      modifies this`outages, this`store
      ensures old(outages) == [] ==> outage == Answered && outages == []
      ensures store == if outage == Failed then old(store)
                       else old(store).(vectors := old(store).vectors - {space})
    {
      outage := Call();
      if outage != Failed {
        store := store.(vectors := store.vectors - {space});
      }
    }

    method ApplySettings(image: string) returns (outage: Outage)
      modifies this`outages, this`store
      ensures old(outages) == [] ==> outage == Answered && outages == []
      ensures store == if outage == Failed then old(store) else old(store).(settings := image)
    {
      outage := Call();
      if outage != Failed {
        store := store.(settings := image);
      }
    }

    // One transaction: the rows of the source, its default assistant, and the intent.
    method FinishSpaceSql(operation: Id) returns (outage: Outage)
      requires operation in store.removals
      modifies this`outages, this`store
      ensures old(outages) == [] ==> outage == Answered && outages == []
      ensures store == if outage == Failed then old(store) else FinishSql(old(store), operation)
    {
      outage := Call();
      if outage == Failed {
        return;
      }
      var removal := store.removals[operation];
      var source := removal.request.source;
      var owners, assistants := store.owners, store.assistants;
      if removal.request.target.Some? {
        var target := removal.request.target.value;
        owners := map row | row in owners :: if owners[row] == source then target else owners[row];
        if source in assistants && target !in assistants {
          assistants := assistants[target := assistants[source]];
        }
      } else {
        assistants := map space | space in assistants && Surviving(owners, assistants[space], source) ::
          assistants[space];
        owners := map row | row in owners && owners[row] != source :: owners[row];
      }
      assistants := assistants - {source};
      assert owners == OwnersAfter(store.owners, removal.request);
      assert assistants == AssistantsAfter(store.owners, store.assistants, removal.request);
      store := store.(owners := owners, assistants := assistants,
                      removals := store.removals[operation := Removal(removal.request, AfterImages(None, None), true)]);
    }

    // Replays the after-images of an open intent and closes it.
    method FinishSpaceRemoval(operation: Id) returns (ok: bool, ghost reached: nat)
      requires operation in store.removals
      requires WellFormed(store.removals[operation]) || store.removals[operation].completed
      modifies this`outages, this`store, this`retired
      ensures store == Attempt(old(store), operation, reached)
      ensures ok ==> reached >= STAGES
      ensures old(outages) == [] ==> ok && outages == []
      ensures old(store).removals[operation].completed ==> ok
      ensures var removal := old(store).removals[operation];
              retired == if ok && !removal.completed && removal.request.target.Some?
                         then old(retired) - {removal.request.target.value} else old(retired)
    {
      reached := STAGES;
      var removal := store.removals[operation];
      if removal.completed {
        return true, reached;
      }
      ok, reached := ReplayImages(operation);
      if !ok {
        return;
      }
      var outage := FinishSpaceSql(operation);
      if outage != Failed {
        reached := STAGES;
      }
      if outage != Answered {
        return false, reached;
      }
      if removal.request.target.Some? {
        retired := retired - {removal.request.target.value};
      }
    }

    // Everything before the final transaction.
    method ReplayImages(operation: Id) returns (ok: bool, ghost reached: nat)
      requires Open(store, operation) && WellFormed(store.removals[operation])
      modifies this`outages, this`store
      ensures reached <= 5 && store == Stages(old(store), operation, reached)
      ensures ok ==> reached == 5
      ensures old(outages) == [] ==> ok && outages == []
      ensures operation in store.removals && store.removals == old(store).removals
    {
      ghost var before := store;
      var removal := store.removals[operation];
      var source, target := removal.request.source, removal.request.target;
      ok, reached := ReplayTarget(operation);
      if !ok {
        return;
      }
      if removal.plan.settings.Some? {
        var outage := ApplySettings(removal.plan.settings.value);
        reached := if outage == Failed then 2 else 3;
        assert store == Stages(before, operation, reached);
        if outage != Answered {
          return false, reached;
        }
      }
      reached := 3;
      assert store == Stages(before, operation, 3);
      var outage := ImportSnapshot(source, map[]);
      reached := if outage == Failed then 3 else 4;
      assert store == Stages(before, operation, reached);
      if outage != Answered {
        return false, reached;
      }
      outage := RemoveVectors(source);
      reached := if outage == Failed then 4 else 5;
      assert store == Stages(before, operation, reached);
      ok := outage == Answered;
    }

    // The stages of a migration that concern its target.
    method ReplayTarget(operation: Id) returns (ok: bool, ghost reached: nat)
      requires Open(store, operation) && WellFormed(store.removals[operation])
      modifies this`outages, this`store
      ensures reached <= 2 && store == Stages(old(store), operation, reached)
      ensures ok ==> reached == 2
      ensures old(outages) == [] ==> ok && outages == []
      ensures operation in store.removals && store.removals == old(store).removals
    {
      ghost var before := store;
      assert Stages(before, operation, 0) == before;
      var removal := store.removals[operation];
      if removal.request.target.None? {
        assert Stages(before, operation, 1) == before;
        assert Stages(before, operation, 2) == before;
        return true, 2;
      }
      var target := removal.request.target.value;
      var outage := ImportSnapshot(target, removal.plan.memory.value);
      reached := if outage == Failed then 0 else 1;
      assert store == Stages(before, operation, reached);
      if outage != Answered {
        return false, reached;
      }
      outage := RemoveVectors(target);
      reached := if outage == Failed then 1 else 2;
      assert store == Stages(before, operation, reached);
      ok := outage == Answered;
    }

    // Handles one removal request under the exclusive lifecycle gate.
    method RemoveSpaceAssets(operation: Id, request: Request, plan: Option<AfterImages>, published: bool)
      returns (ok: bool, ghost e: Event)
      requires Valid() && serving
      modifies this`outages, this`store, this`retired, this`pending, this`unheard, this`exposed
      ensures Valid()
      ensures e.Asked? && e.operation == operation && e.request == request && e.plan == plan
      ensures Step(old(View()), e, View()) || (!ok && View() == old(View()))
      ensures ok ==> e.heard && e.replied && operation in store.removals && store.removals[operation].completed
                     && store.removals[operation].request == request
      ensures old(outages) == [] ==>
                (ok <==> if operation in old(store).removals then old(store).removals[operation].request == request
                         else Acceptable(old(store), old(retired), request, plan))
    {
      ghost var before := View();
      e := Asked(operation, request, plan, true, STAGES, true, published);
      if operation in store.removals {
        if store.removals[operation].request != request {
          return false, e;
        }
      } else {
        if !Admits(store, retired, request, plan) {
          AdmitsExactly(before.store, before.retired, request, plan);
          return false, e;
        }
        var outage := StoreIntent(operation, request, plan.value);
        if outage == Failed {
          return false, e;
        }
        if outage == ReplyLost {
          e := e.(heard := false);
          StepKeepsInv(before, e, View(), layout);
          return false, e;
        }
      }
      AdmitsExactly(before.store, before.retired, request, plan);
      ghost var reached;
      ok, reached := Conclude(operation, published);
      e := Asked(operation, request, plan, true, reached, ok, published);
      StepKeepsInv(before, e, View(), layout);
      AttemptFactsOf(if operation in before.store.removals then before.store
                     else Intend(before, operation, request, plan.value).store, operation, reached);
    }

    // The fence goes up only when the insertion of the intent is heard of.
    method StoreIntent(operation: Id, request: Request, plan: AfterImages) returns (outage: Outage)
      modifies this`outages, this`store, this`retired, this`pending, this`unheard, this`exposed
      ensures old(outages) == [] ==> outage == Answered && outages == []
      ensures match outage
              case Failed => View() == old(View())
              case ReplyLost => View() == Overhear(old(View()), operation, request, plan)
              case Answered => View() == Intend(old(View()), operation, request, plan)
    {
      outage := Call();
      if outage == Failed {
        return;
      }
      store := Stored(store, operation, request, plan);
      if outage == ReplyLost {
        unheard, exposed := unheard + {operation}, exposed + {request.source};
        return;
      }
      retired, pending := retired + Touched(request), true;
    }

    // Finishes a stored intent and publishes the settings once no intent is open.
    method Conclude(operation: Id, published: bool) returns (ok: bool, ghost reached: nat)
      requires operation in store.removals
      requires WellFormed(store.removals[operation]) || store.removals[operation].completed
      modifies this`outages, this`store, this`retired, this`pending
      ensures ok ==> reached >= STAGES
      ensures old(outages) == [] ==> ok
      ensures old(store).removals[operation].completed ==>
                ok && View() == old(View()).(pending := old(pending) && (AnyOpen(old(store)) || !published))
      ensures !old(store).removals[operation].completed ==>
                View() == Pursue(old(View()), operation, reached, ok, published)
    {
      ok, reached := FinishSpaceRemoval(operation);
      if ok && published && !AnyOpen(store) {
        pending := false;
      }
    }

    // One row at startup: fences what it touches and finishes it when it is open.
    method RecoverRow(operation: Id) returns (ok: bool, ghost reached: nat)
      requires operation in store.removals
      requires WellFormed(store.removals[operation]) || store.removals[operation].completed
      requires var target := store.removals[operation].request.target;
               Open(store, operation) && target.Some? ==> target.value !in retired
      modifies this`outages, this`store, this`retired
      ensures store == Attempt(old(store), operation, reached)
      ensures ok ==> reached >= STAGES
      ensures old(outages) == [] ==> ok && outages == []
      ensures old(store).removals[operation].completed ==> ok
      ensures ok ==> retired == old(retired) + {old(store).removals[operation].request.source}
    {
      ok, reached := true, STAGES;
      var request := store.removals[operation].request;
      retired := retired + {request.source};
      if !store.removals[operation].completed {
        if request.target.Some? {
          retired := retired + {request.target.value};
        }
        ok, reached := FinishSpaceRemoval(operation);
      }
    }

    // Startup, before anything is served: fences every removed Space and finishes the open intent.
    method RecoverSpaceRemovals() returns (ok: bool, ghost e: Event)
      requires Valid()
      modifies this`outages, this`store, this`retired, this`pending, this`serving, this`unheard
      ensures Valid()
      ensures e.Restarted? && Step(old(View()), e, View())
      ensures ok == serving
      ensures old(outages) == [] ==> ok
      ensures ok ==> retired == Sources(store) && !AnyOpen(store)
    {
      ghost var before := View();
      serving, pending, retired, unheard := false, false, {}, {};
      ghost var reached;
      ok, reached := RecoverRows();
      serving := ok;
      e := Restarted(reached, ok);
      StepKeepsInv(before, e, View(), layout);
      if ok {
        RestartFrees(before, e, View(), layout);
        RestartKeepsStore(before, e, View(), layout);
      }
    }

    // The rows in any order; at most one of them is open.
    method RecoverRows() returns (ok: bool, ghost reached: nat)
      requires OneOpen(store) && OpenIsFormed(store) && retired == {}
      modifies this`outages, this`store, this`retired
      ensures Replayed(old(store), store, reached, ok)
      ensures old(outages) == [] ==> ok
      ensures ok ==> retired == Sources(old(store))
    {
      ghost var before := store;
      ghost var finished: Option<Id> := None;
      var rows := store.removals;
      var todo := rows.Keys;
      while todo != {}
        invariant todo <= rows.Keys && rows == before.removals
        invariant retired == set a | a in rows && a !in todo :: rows[a].request.source
        invariant old(outages) == [] ==> outages == []
        invariant Recovered(before, store, todo, finished)
      {
        var operation :| operation in todo;
        RowToRecover(before, store, todo, finished, operation, retired);
        ghost var current := store;
        ok, reached := RecoverRow(operation);
        RowRecovered(before, current, todo, finished, operation, reached);
        if !ok {
          return;
        }
        finished := if Open(before, operation) then Some(operation) else finished;
        todo := todo - {operation};
      }
      ok, reached := true, STAGES;
      RecoveryEnds(before, store, finished);
    }
  }

  // What startup leaves: it reached some stage of the one open intent, all of them when it succeeds.
  ghost predicate Replayed(before: Store, store: Store, reached: nat, ok: bool) {
    if AnyOpen(before) then
      && (exists a | a in before.removals :: Open(before, a) && store == Attempt(before, a, reached))
      && (ok ==> reached >= STAGES)
    else
      store == before && ok
  }

  // How far startup has got: the one open intent is either still to come or finished.
  ghost predicate Recovered(before: Store, store: Store, todo: set<Id>, finished: Option<Id>) {
    match finished
    case None => store == before && forall a | Open(before, a) :: a in todo
    case Some(done) => done !in todo && Open(before, done) && store == Attempt(before, done, STAGES)
  }

  lemma RowToRecover(before: Store, store: Store, todo: set<Id>, finished: Option<Id>, operation: Id, retired: set<Id>)
    requires OneOpen(before) && OpenIsFormed(before) && Recovered(before, store, todo, finished)
    requires operation in todo && operation in before.removals && retired <= Sources(before)
    ensures operation in store.removals && store.removals[operation] == before.removals[operation]
    ensures Open(store, operation) ==> finished.None? && WellFormed(store.removals[operation])
    ensures var target := store.removals[operation].request.target;
            Open(store, operation) && target.Some? ==> target.value !in retired
  {
    if finished.Some? {
      AttemptFacts(before, finished.value, STAGES);
      assert finished.value != operation;
      assert !Open(before, operation);
    }
  }

  lemma RowRecovered(before: Store, store: Store, todo: set<Id>, finished: Option<Id>, operation: Id, reached: nat)
    requires OneOpen(before) && OpenIsFormed(before) && Recovered(before, store, todo, finished)
    requires operation in todo && operation in store.removals && operation in before.removals
    requires store.removals[operation] == before.removals[operation]
    ensures reached >= STAGES ==>
              Recovered(before, Attempt(store, operation, reached), todo - {operation},
                        if Open(before, operation) then Some(operation) else finished)
    ensures Open(before, operation) ==> store == before
  {
  }

  lemma RecoveryEnds(before: Store, store: Store, finished: Option<Id>)
    requires OneOpen(before) && OpenIsFormed(before) && Recovered(before, store, {}, finished)
    ensures AnyOpen(before) ==> exists a | a in before.removals ::
              Open(before, a) && store == Attempt(before, a, STAGES)
    ensures !AnyOpen(before) ==> store == before
    ensures !AnyOpen(store)
  {
    if finished.Some? {
      AttemptFacts(before, finished.value, STAGES);
      forall a ensures !Open(store, a) {
        assert a in store.removals ==> a in before.removals;
      }
    } else {
      forall a ensures !Open(before, a) {
        assert a !in {};
      }
    }
  }
}
