/**
 The registry of Space workers.

 One supervisor thread takes requests from a mailbox. An address is absent, starting with waiting
 callers, or ready with a shared handle. Workers are opened outside the supervisor, by the caller
 that was told to, and announced through the mailbox. A worker lives while its handle is referenced.
 Any interleaving of callers, initializers, reference drops and the supervisor is a run.
 */
module WorkerRegistry {
  import opened Wrappers

  type Id = string
  type Caller = int
  type Handle = int

  const MAX_WAITERS: nat := 64

  datatype Refusal = InitializationQueueFull | WorkspaceCapacity(limit: nat) | Unavailable(error: string)
  type Reply = Result<Handle, Refusal>

  datatype Request = Lookup(space: Id, caller: Caller) | Initialized(space: Id, outcome: Result<Handle, string>)
  datatype Entry = Starting(waiters: seq<Caller>) | Ready(handle: Handle)

  // `strong` is the reference count; `outside` of those references are held by callers and commands.
  datatype Worker = Worker(space: Id, strong: nat, outside: nat)

  // Where a caller's request is.
  datatype Place = Queued(space: Id) | Waiting(space: Id) | Initializing(space: Id) | Told(reply: Reply)

  datatype Registry = Registry(
    limit: nat,
    workers: map<Id, Entry>,
    mailbox: seq<Request>,
    callers: map<Caller, Place>,
    gone: set<Caller>,             // callers whose reply channel is closed
    live: map<Handle, Worker>,
    next: Handle
  )

  // ---- References ----

  function Retain(live: map<Handle, Worker>, handle: Handle): map<Handle, Worker> {
    if handle in live then live[handle := live[handle].(strong := live[handle].strong
      + 1, outside := live[handle].outside + 1)]
    else live
  }

  // Dropping the last reference ends the worker.
  function Release(live: map<Handle, Worker>, handle: Handle, outside: bool): map<Handle, Worker> {
    if handle !in live then live
    else
      var w := live[handle];
      if w.strong <= 1 then live - {handle}
      else live[handle := w.(strong := w.strong - 1, outside :=
        if outside && w.outside > 0 then w.outside - 1 else w.outside)]
  }

  // A reply carries a reference; sending to a closed channel drops it.
  function Answer(s: Registry, caller: Caller, reply: Reply): Registry {
    s.(callers := s.callers[caller := Told(reply)],
       live := if reply.Ok? && caller !in s.gone then Retain(s.live, reply.value) else s.live)
  }

  function AnswerAll(s: Registry, waiters: seq<Caller>, reply: Reply): Registry {
    if waiters == [] then s
    else Answer(AnswerAll(s, waiters[..|waiters| - 1], reply), waiters[|waiters| - 1], reply)
  }

  // ---- The supervisor ----

  predicate Idle(s: Registry, id: Id) {
    && id in s.workers && s.workers[id].Ready?
    && s.workers[id].handle in s.live && s.live[s.workers[id].handle].strong == 1
  }

  predicate Crowded(s: Registry, id: Id) {
    id !in s.workers && |s.workers| >= s.limit
  }

  // Makes room by dropping some ready worker that only the registry references, if there is one.
  ghost predicate Evicts(s: Registry, id: Id, victim: Option<Id>) {
    match victim
    case Some(idle) => Crowded(s, id) && Idle(s, idle)
    case None => Crowded(s, id) ==> NoneIdle(s)
  }

  ghost predicate NoneIdle(s: Registry) {
    forall other :: !Idle(s, other)
  }

  function Evict(s: Registry, victim: Option<Id>): Registry {
    if victim.Some? && victim.value in s.workers && s.workers[victim.value].Ready? then
      s.(workers := s.workers - {victim.value}, live := Release(s.live, s.workers[victim.value].handle, false))
    else s
  }

  function ServeLookup(s: Registry, id: Id, caller: Caller): Registry {
    if id in s.workers then
      match s.workers[id]
      case Ready(handle) => Answer(s, caller, Ok(handle))
      case Starting(waiters) =>
        if |waiters| >= MAX_WAITERS then Answer(s, caller, Err(InitializationQueueFull))
        else s.(workers := s.workers[id := Starting(waiters + [caller])], callers := s.callers[caller := Waiting(id)])
    else if |s.workers| >= s.limit then Answer(s, caller, Err(WorkspaceCapacity(s.limit)))
    else if caller in s.gone then Answer(s, caller, Err(Unavailable("caller gone")))
    else s.(workers := s.workers[id := Starting([])], callers := s.callers[caller := Initializing(id)])
  }

  function ServeInitialized(s: Registry, id: Id, outcome: Result<Handle, string>): Registry {
    if id in s.workers && s.workers[id].Starting? then
      var waiters := s.workers[id].waiters;
      match outcome
      case Ok(handle) => AnswerAll(s, waiters, Ok(handle)).(workers := s.workers[id := Ready(handle)])
      case Err(error) => AnswerAll(s, waiters, Err(Unavailable(error))).(workers := s.workers - {id})
    else
      // The announcement is dropped, and so is whatever entry was there.
      var dropped := if id in s.workers then Release(s.live, s.workers[id].handle, false) else s.live;
      s.(workers := s.workers - {id}, live := if outcome.Ok? then Release(dropped, outcome.value, false) else dropped)
  }

  // ---- Runs ----

  datatype Event =
    | Ask(id: Id, caller: Caller)
    | Leave(caller: Caller)
    | Serve(victim: Option<Id>)
    | Finish(id: Id, caller: Caller, failure: Option<string>)
    | Clone(handle: Handle)
    | Drop(handle: Handle)

  ghost predicate Step(s: Registry, e: Event, s': Registry) {
    match e
    case Ask(id, caller) =>
      && caller !in s.callers
      && s' == s.(mailbox := s.mailbox + [Lookup(id, caller)], callers := s.callers[caller := Queued(id)])
    case Leave(caller) =>
      && caller in s.callers && (s.callers[caller].Queued? || s.callers[caller].Waiting?)
      && s' == s.(gone := s.gone + {caller})
    case Serve(victim) =>
      && s.mailbox != []
      && var taken := s.(mailbox := s.mailbox[1..]);
      && (match s.mailbox[0]
          case Lookup(id, caller) =>
            Evicts(taken, id, victim) && s' == ServeLookup(Evict(taken, victim), id, caller)
          case Initialized(id, outcome) => victim.None? && s' == ServeInitialized(taken, id, outcome))
    case Finish(id, caller, failure) =>
      // The initializer opened the worker, announced it, and returns its own reference.
      && caller in s.callers && s.callers[caller] == Initializing(id)
      && s' == (match failure
               case None =>
                 s.(live := s.live[s.next := Worker(id, 2, 1)], next := s.next + 1,
                    mailbox := s.mailbox + [Initialized(id, Ok(s.next))],
                    callers := s.callers[caller := Told(Ok(s.next))])
               case Some(error) =>
                 s.(mailbox := s.mailbox + [Initialized(id, Err(error))],
                    callers := s.callers[caller := Told(Err(Unavailable(error)))]))
    case Clone(handle) =>
      handle in s.live && s.live[handle].outside > 0 && s' == s.(live := Retain(s.live, handle))
    case Drop(handle) =>
      handle in s.live && s.live[handle].outside > 0 && s' == s.(live := Release(s.live, handle, true))
  }

  predicate Initial(s: Registry) {
    s.workers == map[] && s.mailbox == [] && s.callers == map[] && s.gone == {} && s.live == map[]
  }

  // ---- The invariant ----

  predicate Announces(s: Registry, i: int, id: Id) {
    0 <= i < |s.mailbox| && s.mailbox[i].Initialized? && s.mailbox[i].space == id
  }

  ghost predicate IsInitializing(s: Registry, id: Id) {
    exists c | c in s.callers :: s.callers[c] == Initializing(id)
  }

  // The registry knows each starting address's initializer, or the announcement it sent;
  // `skip` is the address whose announcement is being handled.
  ghost predicate StartInv(s: Registry, skip: Option<Id>) {
    && (forall i, j, id :: Announces(s, i, id) && Announces(s, j, id) ==> i == j)
    && (forall i, id :: Announces(s, i, id) ==> IsStarting(s, id) && !IsInitializing(s, id) && skip != Some(id))
    && (forall c, d | c in s.callers && d in s.callers ::
          s.callers[c].Initializing? && s.callers[c] == s.callers[d] ==> c == d)
    && (forall c | c in s.callers && s.callers[c].Initializing? ::
      IsStarting(s, s.callers[c].space) && skip != Some(s.callers[c].space))
    && (forall id :: IsStarting(s, id) && skip != Some(id) ==> IsInitializing(s, id) || exists i :: Announces(s, i, id))
  }

  predicate IsStarting(s: Registry, id: Id) {
    id in s.workers && s.workers[id].Starting?
  }

  predicate AnnouncesLive(s: Registry, i: int, id: Id, handle: Handle) {
    Announces(s, i, id) && s.mailbox[i].outcome == Ok(handle)
  }

  predicate IsReady(s: Registry, id: Id, handle: Handle) {
    id in s.workers && s.workers[id] == Ready(handle)
  }

  // Besides the references outside, a live worker has one: the registry's or its announcement's.
  ghost predicate LiveInv(s: Registry, skip: Option<Handle>) {
    && (forall h | h in s.live ::
          && h < s.next && s.live[h].strong == s.live[h].outside + 1
          && (skip == Some(h) || IsReady(s, s.live[h].space, h) || exists i :: AnnouncesLive(s, i, s.live[h].space, h)))
    && (forall id, h :: IsReady(s, id, h) ==> h in s.live && s.live[h].space == id && skip != Some(h))
    && (forall i, id, h :: AnnouncesLive(s, i, id, h) ==> h in s.live && s.live[h].space == id && skip != Some(h))
  }

  predicate Asks(s: Registry, i: int, id: Id, caller: Caller) {
    0 <= i < |s.mailbox| && s.mailbox[i] == Lookup(id, caller)
  }

  predicate WaitsAt(s: Registry, id: Id, caller: Caller) {
    IsStarting(s, id) && caller in s.workers[id].waiters
  }

  predicate IsAt(s: Registry, caller: Caller, place: Place) {
    caller in s.callers && s.callers[caller] == place
  }

  predicate Distinct(callers: seq<Caller>) {
    forall i, j :: 0 <= i < j < |callers| ==> callers[i] != callers[j]
  }

  // A caller's request is exactly where its place says, until it is told the result;
  // `skip` is the caller whose request is being handled.
  ghost predicate CallerInv(s: Registry, skip: Option<Caller>) {
    && (forall i, id, c :: Asks(s, i, id, c) ==> IsAt(s, c, Queued(id)) && skip != Some(c))
    && (forall i, j, id, c :: Asks(s, i, id, c) && Asks(s, j, id, c) ==> i == j)
    && (forall id, c :: IsAt(s, c, Queued(id)) && skip != Some(c) ==> exists i :: Asks(s, i, id, c))
    && (forall id, c :: WaitsAt(s, id, c) <==> IsAt(s, c, Waiting(id)))
    && (forall id :: IsStarting(s, id) ==> Distinct(s.workers[id].waiters) && |s.workers[id].waiters| <= MAX_WAITERS)
  }

  ghost predicate Inv(s: Registry) {
    |s.workers| <= s.limit && StartInv(s, None) && LiveInv(s, None) && CallerInv(s, None)
  }

  // ---- Taking a request from the mailbox ----

  function Taken(s: Registry): Registry
    requires s.mailbox != []
  {
    s.(mailbox := s.mailbox[1..])
  }

  ghost predicate Shifted(s: Registry)
    requires s.mailbox != []
  {
    && (forall i, id :: Announces(Taken(s), i, id) <==> i >= 0 && Announces(s, i + 1, id))
    && (forall i, id, h :: AnnouncesLive(Taken(s), i, id, h) <==> i >= 0 && AnnouncesLive(s, i + 1, id, h))
    && (forall i, id, c :: Asks(Taken(s), i, id, c) <==> i >= 0 && Asks(s, i + 1, id, c))
  }

  lemma TakeStart(s: Registry)
    requires s.mailbox != [] && Shifted(s) && StartInv(s, None)
    ensures var head := s.mailbox[0];
            && StartInv(Taken(s), if head.Initialized? then Some(head.space) else None)
            && (head.Initialized? ==> IsStarting(s, head.space))
  {
    var taken, head := Taken(s), s.mailbox[0];
    var skip := if head.Initialized? then Some(head.space) else None;
    if head.Initialized? {
      assert Announces(s, 0, head.space);
    }
    forall i, id | Announces(taken, i, id) ensures skip != Some(id) {
      assert Announces(s, i + 1, id);
    }
    forall id | IsStarting(taken, id) && skip != Some(id)
      ensures IsInitializing(taken, id) || exists i :: Announces(taken, i, id)
    {
      if !IsInitializing(s, id) {
        var i :| Announces(s, i, id);
        assert i != 0 && Announces(taken, i - 1, id);
      }
    }
  }

  lemma TakeLive(s: Registry)
    requires s.mailbox != [] && Shifted(s) && StartInv(s, None) && LiveInv(s, None)
    ensures var head := s.mailbox[0];
            && LiveInv(Taken(s), if head.Initialized? && head.outcome.Ok? then Some(head.outcome.value) else None)
            && (head.Initialized? && head.outcome.Ok? ==>
                  head.outcome.value in s.live && s.live[head.outcome.value].space == head.space)
  {
    var taken, head := Taken(s), s.mailbox[0];
    var skip := if head.Initialized? && head.outcome.Ok? then Some(head.outcome.value) else None;
    if skip.Some? {
      assert AnnouncesLive(s, 0, head.space, skip.value);
      assert Announces(s, 0, head.space);
    }
    forall h | h in s.live && skip != Some(h) && !IsReady(s, s.live[h].space, h)
      ensures exists i :: AnnouncesLive(taken, i, s.live[h].space, h)
    {
      var i :| AnnouncesLive(s, i, s.live[h].space, h);
      assert i != 0 && AnnouncesLive(taken, i - 1, s.live[h].space, h);
    }
    forall id, h | IsReady(taken, id, h) ensures h in s.live && s.live[h].space == id && skip != Some(h) {
      assert IsReady(s, id, h);
    }
    forall i, id, h | AnnouncesLive(taken, i, id, h) ensures skip != Some(h) {
      assert AnnouncesLive(s, i + 1, id, h) && Announces(s, i + 1, id);
    }
  }

  lemma TakeCaller(s: Registry)
    requires s.mailbox != [] && Shifted(s) && CallerInv(s, None)
    ensures var head := s.mailbox[0];
            && CallerInv(Taken(s), if head.Lookup? then Some(head.caller) else None)
            && (head.Lookup? ==> IsAt(s, head.caller, Queued(head.space)))
  {
    var taken, head := Taken(s), s.mailbox[0];
    var skip := if head.Lookup? then Some(head.caller) else None;
    if head.Lookup? {
      assert Asks(s, 0, head.space, head.caller);
    }
    forall i, id, c | Asks(taken, i, id, c) ensures skip != Some(c) {
      assert Asks(s, i + 1, id, c);
    }
    forall id, c ensures WaitsAt(taken, id, c) <==> IsAt(taken, c, Waiting(id)) {
      assert WaitsAt(s, id, c) <==> IsAt(s, c, Waiting(id));
    }
    forall id, c | IsAt(taken, c, Queued(id)) && skip != Some(c) ensures exists i :: Asks(taken, i, id, c) {
      var i :| Asks(s, i, id, c);
      assert i != 0 && Asks(taken, i - 1, id, c);
    }
  }

  lemma TakeHead(s: Registry)
    requires s.mailbox != []
    ensures Shifted(s)
  {
  }

  // ---- What the supervisor keeps ----

  function Present(waiters: seq<Caller>, gone: set<Caller>): nat {
    if waiters == [] then 0
    else Present(waiters[..|waiters| - 1], gone) + if waiters[|waiters| - 1] in gone then 0 else 1
  }

  // Every waiter is told the result, and every one still there holds a reference of its own.
  lemma {:induction false} AnswerAllTells(s: Registry, waiters: seq<Caller>, reply: Reply)
    ensures var r := AnswerAll(s, waiters, reply);
            && r == s.(callers := r.callers, live := r.live)
            && (forall c :: c in waiters ==> IsAt(r, c, Told(reply)))
            && (forall c, place :: c !in waiters ==> (IsAt(r, c, place) <==> IsAt(s, c, place)))
            && r.callers.Keys == s.callers.Keys + (set c | c in waiters)
            && r.live.Keys == s.live.Keys
            && (forall h | h in s.live ::
                  var more := if reply == Ok(h) then Present(waiters, s.gone) else 0;
                  r.live[h] == s.live[h].(strong := s.live[h].strong + more, outside := s.live[h].outside + more))
  {
    if waiters != [] {
      var init, last := waiters[..|waiters| - 1], waiters[|waiters| - 1];
      AnswerAllTells(s, init, reply);
      assert waiters == init + [last];
    }
  }

  lemma EvictStart(s: Registry, victim: Id)
    requires Idle(s, victim) && StartInv(s, None)
    ensures StartInv(Evict(s, Some(victim)), None)
  {
    var r := Evict(s, Some(victim));
    forall id ensures IsStarting(r, id) <==> IsStarting(s, id) {}
    forall i, id ensures Announces(r, i, id) <==> Announces(s, i, id) {}
    forall id ensures IsInitializing(r, id) <==> IsInitializing(s, id) {}
  }

  lemma EvictLive(s: Registry, victim: Id)
    requires Idle(s, victim) && LiveInv(s, None) && StartInv(s, None)
    ensures LiveInv(Evict(s, Some(victim)), None)
    ensures Evict(s, Some(victim)).live == s.live - {s.workers[victim].handle}
  {
    var r := Evict(s, Some(victim));
    var gone := s.workers[victim].handle;
    assert IsReady(s, victim, gone);
    forall id, h ensures IsReady(r, id, h) <==> IsReady(s, id, h) && id != victim {}
    forall i, id, h ensures AnnouncesLive(r, i, id, h) <==> AnnouncesLive(s, i, id, h) {}
    forall id, h | IsReady(r, id, h) ensures h in r.live && r.live[h].space == id {
      assert IsReady(s, id, h);
    }
    forall i, id, h | AnnouncesLive(r, i, id, h) ensures h in r.live && r.live[h].space == id {
      assert AnnouncesLive(s, i, id, h) && Announces(s, i, id);
    }
  }

  lemma EvictCaller(s: Registry, victim: Id, skip: Option<Caller>)
    requires Idle(s, victim) && CallerInv(s, skip)
    ensures CallerInv(Evict(s, Some(victim)), skip)
  {
    var r := Evict(s, Some(victim));
    forall id ensures IsStarting(r, id) <==> IsStarting(s, id) {}
    forall i, id, c ensures Asks(r, i, id, c) <==> Asks(s, i, id, c) {}
    forall id, c ensures WaitsAt(r, id, c) <==> WaitsAt(s, id, c) {}
    forall c, place ensures IsAt(r, c, place) <==> IsAt(s, c, place) {}
  }

  lemma ServeLookupKeeps(s: Registry, id: Id, caller: Caller)
    requires |s.workers| <= s.limit && StartInv(s, None) && LiveInv(s, None) && CallerInv(s, Some(caller))
    requires IsAt(s, caller, Queued(id))
    ensures Inv(ServeLookup(s, id, caller))
  {
    if id in s.workers {
      match s.workers[id]
      case Ready(handle) => AnswerKeeps(s, id, caller, Ok(handle));
      case Starting(waiters) =>
        if |waiters| >= MAX_WAITERS {
          AnswerKeeps(s, id, caller, Err(InitializationQueueFull));
        } else {
          EnqueueKeeps(s, id, caller);
        }
    } else if |s.workers| >= s.limit {
      AnswerKeeps(s, id, caller, Err(WorkspaceCapacity(s.limit)));
    } else if caller in s.gone {
      AnswerKeeps(s, id, caller, Err(Unavailable("caller gone")));
    } else {
      InitializeKeeps(s, id, caller);
    }
  }

  lemma AnswerKeeps(s: Registry, id: Id, caller: Caller, reply: Reply)
    requires |s.workers| <= s.limit && StartInv(s, None) && LiveInv(s, None) && CallerInv(s, Some(caller))
    requires IsAt(s, caller, Queued(id))
    ensures Inv(Answer(s, caller, reply))
  {
    var r := Answer(s, caller, reply);
    OnlyCallersMoved(s, r);
    forall c, place ensures IsAt(r, c, place) <==> (if c == caller then place == Told(reply) else IsAt(s, c, place)) {}
    forall other ensures IsInitializing(r, other) <==> IsInitializing(s, other) {
      if IsInitializing(s, other) {
        var c :| c in s.callers && s.callers[c] == Initializing(other);
        assert c in r.callers && r.callers[c] == Initializing(other);
      }
    }
  }

  lemma OnlyCallersMoved(s: Registry, r: Registry)
    requires r.workers == s.workers && r.mailbox == s.mailbox
    ensures forall id :: IsStarting(r, id) <==> IsStarting(s, id)
    ensures forall i, id :: Announces(r, i, id) <==> Announces(s, i, id)
    ensures forall i, id, h :: AnnouncesLive(r, i, id, h) <==> AnnouncesLive(s, i, id, h)
    ensures forall i, id, c :: Asks(r, i, id, c) <==> Asks(s, i, id, c)
    ensures forall id, c :: WaitsAt(r, id, c) <==> WaitsAt(s, id, c)
    ensures forall id, h :: IsReady(r, id, h) <==> IsReady(s, id, h)
  {
  }

  // One caller moved from the mailbox to `place`, which may start its address.
  ghost predicate CallerMoved(s: Registry, r: Registry, id: Id, caller: Caller, place: Place) {
    && (forall c, other :: IsAt(r, c, other) <==> if c == caller then other == place else IsAt(s, c, other))
    && (forall other :: IsInitializing(r, other) <==> IsInitializing(s, other) || place == Initializing(other))
    && (forall other :: IsStarting(r, other) <==> IsStarting(s, other) || other == id)
    && (forall other, h :: IsReady(r, other, h) <==> IsReady(s, other, h))
    && (forall other, c :: WaitsAt(r, other, c) <==> WaitsAt(s, other, c) || (c == caller && place == Waiting(other)))
  }

  lemma SameMail(s: Registry, r: Registry)
    requires r.mailbox == s.mailbox
    ensures forall i, id :: Announces(r, i, id) <==> Announces(s, i, id)
    ensures forall i, id, h :: AnnouncesLive(r, i, id, h) <==> AnnouncesLive(s, i, id, h)
    ensures forall i, id, c :: Asks(r, i, id, c) <==> Asks(s, i, id, c)
  {
  }

  lemma PlacesMoved(s: Registry, r: Registry, id: Id, caller: Caller, place: Place)
    requires IsAt(s, caller, Queued(id)) && r.callers == s.callers[caller := place]
    ensures forall c, other :: IsAt(r, c, other) <==> if c == caller then other == place else IsAt(s, c, other)
    ensures forall other :: IsInitializing(r, other) <==> IsInitializing(s, other) || place == Initializing(other)
  {
    forall other ensures IsInitializing(r, other) <==> IsInitializing(s, other) || place == Initializing(other) {
      assert r.callers[caller] == place;
      if IsInitializing(s, other) {
        var c :| c in s.callers && s.callers[c] == Initializing(other);
        assert c in r.callers && r.callers[c] == Initializing(other);
      }
    }
  }

  lemma MovedLive(s: Registry, r: Registry, id: Id, caller: Caller, place: Place)
    requires CallerMoved(s, r, id, caller, place) && r.mailbox == s.mailbox && r.live == s.live && r.next == s.next
    requires LiveInv(s, None)
    ensures LiveInv(r, None)
  {
    SameMail(s, r);
  }

  lemma MovedStart(s: Registry, r: Registry, id: Id, caller: Caller, place: Place)
    requires CallerMoved(s, r, id, caller, place) && r.mailbox == s.mailbox && StartInv(s, None)
    requires r.callers == s.callers[caller := place]
    requires if IsStarting(s, id) then !place.Initializing? else place == Initializing(id)
    ensures StartInv(r, None)
  {
    SameMail(s, r);
  }

  lemma EnqueueKeeps(s: Registry, id: Id, caller: Caller)
    requires |s.workers| <= s.limit && StartInv(s, None) && LiveInv(s, None) && CallerInv(s, Some(caller))
    requires IsAt(s, caller, Queued(id)) && IsStarting(s, id) && |s.workers[id].waiters| < MAX_WAITERS
    ensures Inv(ServeLookup(s, id, caller))
  {
    var r := ServeLookup(s, id, caller);
    PlacesMoved(s, r, id, caller, Waiting(id));
    EnqueueMoves(s, id, caller);
    MovedLive(s, r, id, caller, Waiting(id));
    MovedStart(s, r, id, caller, Waiting(id));
    EnqueueCaller(s, id, caller);
    assert |r.workers| == |s.workers|;
  }

  lemma EnqueueMoves(s: Registry, id: Id, caller: Caller)
    requires IsAt(s, caller, Queued(id)) && IsStarting(s, id) && |s.workers[id].waiters| < MAX_WAITERS
    ensures CallerMoved(s, ServeLookup(s, id, caller), id, caller, Waiting(id))
  {
    PlacesMoved(s, ServeLookup(s, id, caller), id, caller, Waiting(id));
  }

  lemma EnqueueCaller(s: Registry, id: Id, caller: Caller)
    requires CallerInv(s, Some(caller))
    requires IsAt(s, caller, Queued(id)) && IsStarting(s, id) && |s.workers[id].waiters| < MAX_WAITERS
    ensures CallerInv(ServeLookup(s, id, caller), None)
  {
    var r := ServeLookup(s, id, caller);
    SameMail(s, r);
    EnqueueMoves(s, id, caller);
    assert !WaitsAt(s, id, caller) by {
      assert !IsAt(s, caller, Waiting(id));
    }
    forall other, c ensures WaitsAt(r, other, c) <==> IsAt(r, c, Waiting(other)) {
      assert WaitsAt(s, other, c) <==> IsAt(s, c, Waiting(other));
    }
    forall other | IsStarting(r, other) ensures Distinct(r.workers[other].waiters)
      && |r.workers[other].waiters| <= MAX_WAITERS {
      assert IsStarting(s, other);
    }
  }

  lemma InitializeKeeps(s: Registry, id: Id, caller: Caller)
    requires |s.workers| < s.limit && StartInv(s, None) && LiveInv(s, None) && CallerInv(s, Some(caller))
    requires IsAt(s, caller, Queued(id)) && id !in s.workers && caller !in s.gone
    ensures Inv(ServeLookup(s, id, caller))
  {
    var r := ServeLookup(s, id, caller);
    PlacesMoved(s, r, id, caller, Initializing(id));
    InitializeMoves(s, id, caller);
    MovedLive(s, r, id, caller, Initializing(id));
    MovedStart(s, r, id, caller, Initializing(id));
    InitializeCaller(s, id, caller);
  }

  lemma InitializeMoves(s: Registry, id: Id, caller: Caller)
    requires IsAt(s, caller, Queued(id)) && id !in s.workers && caller !in s.gone && |s.workers| < s.limit
    ensures CallerMoved(s, ServeLookup(s, id, caller), id, caller, Initializing(id))
  {
    PlacesMoved(s, ServeLookup(s, id, caller), id, caller, Initializing(id));
  }

  lemma InitializeCaller(s: Registry, id: Id, caller: Caller)
    requires CallerInv(s, Some(caller)) && |s.workers| < s.limit
    requires IsAt(s, caller, Queued(id)) && id !in s.workers && caller !in s.gone
    ensures CallerInv(ServeLookup(s, id, caller), None)
  {
    var r := ServeLookup(s, id, caller);
    SameMail(s, r);
    InitializeMoves(s, id, caller);
    forall other, c ensures WaitsAt(r, other, c) <==> IsAt(r, c, Waiting(other)) {
      assert WaitsAt(s, other, c) <==> IsAt(s, c, Waiting(other));
    }
  }

  // The state in which an announcement is handled.
  ghost predicate Announced(s: Registry, id: Id, outcome: Result<Handle, string>) {
    && |s.workers| <= s.limit && StartInv(s, Some(id)) && CallerInv(s, None)
    && LiveInv(s, if outcome.Ok? then Some(outcome.value) else None)
    && IsStarting(s, id)
    && (outcome.Ok? ==> outcome.value in s.live && s.live[outcome.value].space == id)
  }

  function ReplyOf(outcome: Result<Handle, string>): Reply {
    match outcome
    case Ok(handle) => Ok(handle)
    case Err(error) => Err(Unavailable(error))
  }

  // Who waited has been told; nothing else about callers, addresses and announcements moved.
  lemma Announcement(s: Registry, id: Id, outcome: Result<Handle, string>)
    requires Announced(s, id, outcome)
    ensures var r := ServeInitialized(s, id, outcome);
            && (forall c, place :: IsAt(r, c, place) <==>
                  if WaitsAt(s, id, c) then place == Told(ReplyOf(outcome)) else IsAt(s, c, place))
            && (forall other :: IsStarting(r, other) <==> IsStarting(s, other) && other != id)
            && (forall other, h :: IsReady(r, other, h) <==>
                  if other == id then outcome == Ok(h) else IsReady(s, other, h))
            && (forall i, other :: Announces(r, i, other) <==> Announces(s, i, other))
            && (forall i, other, h :: AnnouncesLive(r, i, other, h) <==> AnnouncesLive(s, i, other, h))
            && (forall i, other, c :: Asks(r, i, other, c) <==> Asks(s, i, other, c))
            && (forall other, c :: WaitsAt(r, other, c) <==> WaitsAt(s, other, c) && other != id)
            && |r.workers| <= r.limit && r.next == s.next
  {
    AnswerAllTells(s, s.workers[id].waiters, ReplyOf(outcome));
    var r := ServeInitialized(s, id, outcome);
    assert |s.workers - {id}| <= |s.workers|;
    if outcome.Ok? {
      assert |s.workers[id := Ready(outcome.value)]| == |s.workers|;
    }
  }

  lemma ServeInitializedStart(s: Registry, id: Id, outcome: Result<Handle, string>)
    requires Announced(s, id, outcome)
    ensures StartInv(ServeInitialized(s, id, outcome), None)
  {
    var r := ServeInitialized(s, id, outcome);
    Announcement(s, id, outcome);
    forall other ensures IsInitializing(r, other) <==> IsInitializing(s, other) {
      if IsInitializing(s, other) {
        var c :| c in s.callers && s.callers[c] == Initializing(other);
        assert IsAt(s, c, Initializing(other)) && !IsAt(s, c, Waiting(id));
        assert IsAt(r, c, Initializing(other));
      }
      if IsInitializing(r, other) {
        var c :| c in r.callers && r.callers[c] == Initializing(other);
        assert IsAt(r, c, Initializing(other));
        assert IsAt(s, c, Initializing(other));
      }
    }
    forall c | c in r.callers && r.callers[c].Initializing? ensures IsAt(s, c, r.callers[c]) {
      assert IsAt(r, c, r.callers[c]);
    }
  }

  // The announcement hands out references but moves and ends no worker.
  lemma AnnouncementCounts(s: Registry, id: Id, outcome: Result<Handle, string>)
    requires Announced(s, id, outcome)
    ensures var r := ServeInitialized(s, id, outcome);
            && r.live.Keys == s.live.Keys && r.next == s.next
            && forall h | h in s.live :: r.live[h].space == s.live[h].space && r.live[h].strong == r.live[h].outside + 1
  {
    AnswerAllTells(s, s.workers[id].waiters, ReplyOf(outcome));
  }

  lemma ServeInitializedLive(s: Registry, id: Id, outcome: Result<Handle, string>)
    requires Announced(s, id, outcome)
    ensures LiveInv(ServeInitialized(s, id, outcome), None)
  {
    var r := ServeInitialized(s, id, outcome);
    Announcement(s, id, outcome);
    AnnouncementCounts(s, id, outcome);
    assert outcome.Ok? ==> IsReady(r, id, outcome.value);
    forall h | h in r.live && !IsReady(r, r.live[h].space, h)
      ensures exists i :: AnnouncesLive(r, i, r.live[h].space, h) {
      assert !IsReady(s, s.live[h].space, h);
      var i :| AnnouncesLive(s, i, s.live[h].space, h);
      assert AnnouncesLive(r, i, r.live[h].space, h);
    }
    forall other, h | IsReady(r, other, h) ensures h in r.live && r.live[h].space == other {
      assert other != id ==> IsReady(s, other, h);
    }
    forall i, other, h | AnnouncesLive(r, i, other, h) ensures h in r.live && r.live[h].space == other {
      assert AnnouncesLive(s, i, other, h);
    }
  }

  lemma ServeInitializedCaller(s: Registry, id: Id, outcome: Result<Handle, string>)
    requires Announced(s, id, outcome)
    ensures CallerInv(ServeInitialized(s, id, outcome), None)
  {
    var r := ServeInitialized(s, id, outcome);
    Announcement(s, id, outcome);
    forall other | IsStarting(r, other) ensures r.workers[other] == s.workers[other] {}
    forall other, c ensures WaitsAt(r, other, c) <==> IsAt(r, c, Waiting(other)) {
      assert WaitsAt(s, other, c) <==> IsAt(s, c, Waiting(other));
      assert WaitsAt(s, id, c) <==> IsAt(s, c, Waiting(id));
    }
    forall other, c ensures IsAt(r, c, Queued(other)) <==> IsAt(s, c, Queued(other)) {
      assert WaitsAt(s, id, c) <==> IsAt(s, c, Waiting(id));
    }
  }

  // ---- Every step keeps the invariant ----

  lemma ServeKeeps(s: Registry, victim: Option<Id>, s': Registry)
    requires Inv(s) && Step(s, Serve(victim), s')
    ensures Inv(s')
  {
    TakeHead(s);
    TakeStart(s);
    TakeLive(s);
    TakeCaller(s);
    var taken := Taken(s);
    match s.mailbox[0]
    case Lookup(id, caller) =>
      if victim.Some? {
        EvictStart(taken, victim.value);
        EvictLive(taken, victim.value);
        EvictCaller(taken, victim.value, Some(caller));
        assert |taken.workers - {victim.value}| == |taken.workers| - 1;
      }
      ServeLookupKeeps(Evict(taken, victim), id, caller);
    case Initialized(id, outcome) =>
      ServeInitializedStart(taken, id, outcome);
      ServeInitializedLive(taken, id, outcome);
      ServeInitializedCaller(taken, id, outcome);
      Announcement(taken, id, outcome);
  }

  lemma AskKeeps(s: Registry, id: Id, caller: Caller, s': Registry)
    requires Inv(s) && Step(s, Ask(id, caller), s')
    ensures Inv(s')
  {
    MailAppended(s, s', Lookup(id, caller));
    forall c, place ensures IsAt(s', c, place) <==> if c == caller then place == Queued(id) else IsAt(s, c, place) {}
    forall other ensures IsInitializing(s', other) <==> IsInitializing(s, other) {
      if IsInitializing(s, other) {
        var c :| c in s.callers && s.callers[c] == Initializing(other);
        assert c in s'.callers && s'.callers[c] == Initializing(other);
      }
    }
    assert Asks(s', |s.mailbox|, id, caller);
    assert !IsAt(s, caller, Queued(id));
    assert !IsAt(s, caller, Waiting(id));
  }

  lemma MailAppended(s: Registry, s': Registry, request: Request)
    requires s'.mailbox == s.mailbox + [request] && s'.workers == s.workers
    ensures forall i, id :: Announces(s', i, id) <==>
              Announces(s, i, id) || (i == |s.mailbox| && request.Initialized? && request.space == id)
    ensures forall i, id, h :: AnnouncesLive(s', i, id, h) <==>
              AnnouncesLive(s, i, id, h) || (i == |s.mailbox| && request == Initialized(id, Ok(h)))
    ensures forall i, id, c :: Asks(s', i, id, c)
              <==> Asks(s, i, id, c) || (i == |s.mailbox| && request == Lookup(id, c))
    ensures forall id :: IsStarting(s', id) <==> IsStarting(s, id)
    ensures forall id, h :: IsReady(s', id, h) <==> IsReady(s, id, h)
    ensures forall id, c :: WaitsAt(s', id, c) <==> WaitsAt(s, id, c)
  {
  }

  lemma FinishKeeps(s: Registry, id: Id, caller: Caller, failure: Option<string>, s': Registry)
    requires Inv(s) && Step(s, Finish(id, caller, failure), s')
    ensures Inv(s')
  {
    var request := s'.mailbox[|s.mailbox|];
    MailAppended(s, s', request);
    assert IsInitializing(s, id);
    forall c, place | c != caller ensures IsAt(s', c, place) <==> IsAt(s, c, place) {}
    forall place ensures IsAt(s', caller, place) <==> place == s'.callers[caller] {}
    forall other ensures IsInitializing(s', other) <==> IsInitializing(s, other) && other != id {
      if IsInitializing(s, other) && other != id {
        var c :| c in s.callers && s.callers[c] == Initializing(other);
        assert c in s'.callers && s'.callers[c] == Initializing(other);
      }
      if IsInitializing(s', other) {
        var c :| c in s'.callers && s'.callers[c] == Initializing(other);
        assert c in s.callers && s.callers[c] == Initializing(other) && c != caller;
      }
    }
    assert Announces(s', |s.mailbox|, id);
    FinishStart(s, id, caller, failure, s');
    FinishLive(s, id, caller, failure, s');
  }

  ghost predicate FinishFacts(s: Registry, id: Id, s': Registry) {
    && IsStarting(s, id) && IsInitializing(s, id)
    && s'.workers == s.workers && |s'.mailbox| == |s.mailbox| + 1
    && (forall i, other :: Announces(s', i, other) <==> Announces(s, i, other) || (i == |s.mailbox| && other == id))
    && (forall other :: IsInitializing(s', other) <==> IsInitializing(s, other) && other != id)
    && (forall other :: IsStarting(s', other) <==> IsStarting(s, other))
  }

  lemma FinishStart(s: Registry, id: Id, caller: Caller, failure: Option<string>, s': Registry)
    requires Inv(s) && Step(s, Finish(id, caller, failure), s') && FinishFacts(s, id, s')
    ensures StartInv(s', None)
  {
    forall other | IsStarting(s', other) ensures IsInitializing(s', other) || exists i :: Announces(s', i, other) {
      if other == id {
        assert Announces(s', |s.mailbox|, id);
      } else if !IsInitializing(s, other) {
        var i :| Announces(s, i, other);
        assert Announces(s', i, other);
      }
    }
  }

  lemma FinishLive(s: Registry, id: Id, caller: Caller, failure: Option<string>, s': Registry)
    requires Inv(s) && Step(s, Finish(id, caller, failure), s') && FinishFacts(s, id, s')
    ensures LiveInv(s', None)
  {
    MailAppended(s, s', s'.mailbox[|s.mailbox|]);
    if failure.None? {
      assert AnnouncesLive(s', |s.mailbox|, id, s.next);
      assert s.next !in s.live;
    }
    forall h | h in s'.live && !IsReady(s', s'.live[h].space, h)
      ensures exists i :: AnnouncesLive(s', i, s'.live[h].space, h)
    {
      if h in s.live {
        var i :| AnnouncesLive(s, i, s.live[h].space, h);
        assert AnnouncesLive(s', i, s'.live[h].space, h);
      }
    }
  }

  lemma ReferencesKeep(s: Registry, e: Event, s': Registry)
    requires Inv(s) && Step(s, e, s') && (e.Clone? || e.Drop? || e.Leave?)
    ensures Inv(s')
  {
    OnlyCallersMoved(s, s');
    forall c, place ensures IsAt(s', c, place) <==> IsAt(s, c, place) {}
    forall other ensures IsInitializing(s', other) <==> IsInitializing(s, other) {}
  }

  /** Every step, of any caller, initializer or the supervisor, keeps the invariant. */
  lemma StepKeepsInv(s: Registry, e: Event, s': Registry)
    requires Inv(s) && Step(s, e, s')
    ensures Inv(s')
  {
    match e
    case Ask(id, caller) => AskKeeps(s, id, caller, s');
    case Serve(victim) => ServeKeeps(s, victim, s');
    case Finish(id, caller, failure) => FinishKeeps(s, id, caller, failure, s');
    case _ => ReferencesKeep(s, e, s');
  }

  // ---- What runs guarantee ----

  ghost predicate Next(s: Registry, s': Registry) {
    exists e :: Step(s, e, s')
  }

  ghost predicate IsRun(run: seq<Registry>) {
    run != [] && Initial(run[0]) && forall i :: 0 <= i < |run| - 1 ==> Next(run[i], run[i + 1])
  }

  // A Space is opened by at most one initializer or served by at most one live worker.
  ghost predicate OneWorkerEach(s: Registry) {
    && (forall g, h | g in s.live && h in s.live :: s.live[g].space == s.live[h].space ==> g == h)
    && (forall h | h in s.live :: !IsInitializing(s, s.live[h].space))
    && (forall c, d | c in s.callers && d in s.callers ::
          s.callers[c].Initializing? && s.callers[c] == s.callers[d] ==> c == d)
  }

  lemma AtMostOneWorker(s: Registry)
    requires Inv(s)
    ensures OneWorkerEach(s)
  {
    forall h | h in s.live && !IsReady(s, s.live[h].space, h)
      ensures IsStarting(s, s.live[h].space) && exists i :: AnnouncesLive(s, i, s.live[h].space, h)
    {
      var i :| AnnouncesLive(s, i, s.live[h].space, h);
      assert Announces(s, i, s.live[h].space);
    }
    forall g, h | g in s.live && h in s.live && s.live[g].space == s.live[h].space ensures g == h {
      var id := s.live[g].space;
      if IsStarting(s, id) {
        var i :| AnnouncesLive(s, i, id, g);
        var j :| AnnouncesLive(s, j, id, h);
        assert Announces(s, i, id) && Announces(s, j, id);
      }
    }
    forall h | h in s.live ensures !IsInitializing(s, s.live[h].space) {
      var id := s.live[h].space;
      if IsStarting(s, id) {
        var i :| AnnouncesLive(s, i, id, h);
        assert Announces(s, i, id);
      }
    }
  }

  /** In every interleaving a Space has at most one worker, and the registry stays within its limit. */
  lemma {:induction false} EveryRunIsSafe(run: seq<Registry>)
    requires IsRun(run)
    ensures var s := run[|run| - 1];
            Inv(s) && OneWorkerEach(s) && |s.workers| <= s.limit
  {
    if |run| > 1 {
      EveryRunIsSafe(run[..|run| - 1]);
      var e :| Step(run[|run| - 2], e, run[|run| - 1]);
      StepKeepsInv(run[|run| - 2], e, run[|run| - 1]);
    }
    AtMostOneWorker(run[|run| - 1]);
  }

  lemma LookupEndsNone(s: Registry, id: Id, caller: Caller)
    ensures ServeLookup(s, id, caller).live.Keys == s.live.Keys
  {
  }

  lemma EvictEnds(s: Registry, id: Id, victim: Option<Id>, h: Handle)
    requires Evicts(s, id, victim) && LiveInv(s, None) && h in s.live && h !in Evict(s, victim).live
    ensures victim.Some? && IsReady(s, victim.value, h) && s.live[h].outside == 0 && s.live[h].strong == 1
  {
    assert victim.Some? && Idle(s, victim.value);
  }

  lemma AnnouncementEndsNone(s: Registry, id: Id, outcome: Result<Handle, string>)
    requires IsStarting(s, id)
    ensures ServeInitialized(s, id, outcome).live.Keys == s.live.Keys
  {
    AnswerAllTells(s, s.workers[id].waiters, ReplyOf(outcome));
  }

  /** Only eviction ends a worker, and only one that nobody outside the registry references. */
  lemma OnlyIdleWorkersEnd(s: Registry, e: Event, s': Registry, h: Handle)
    requires Inv(s) && Step(s, e, s') && h in s.live && h !in s'.live
    ensures e.Serve? && e.victim.Some? && IsReady(s, e.victim.value, h)
    ensures s.live[h].outside == 0 && s.live[h].strong == 1
  {
    if e.Serve? {
      ServeEnds(s, e.victim, s', h);
    }
  }

  lemma ServeEnds(s: Registry, victim: Option<Id>, s': Registry, h: Handle)
    requires StartInv(s, None) && LiveInv(s, None) && Step(s, Serve(victim), s') && h in s.live && h !in s'.live
    ensures victim.Some? && IsReady(s, victim.value, h) && s.live[h].outside == 0 && s.live[h].strong == 1
  {
    TakeHead(s);
    TakeStart(s);
    TakeLive(s);
    match s.mailbox[0]
    case Lookup(id, caller) =>
      LookupEndsNone(Evict(Taken(s), victim), id, caller);
      EvictEnds(Taken(s), id, victim, h);
    case Initialized(id, outcome) => AnnouncementEndsNone(Taken(s), id, outcome);
  }

  predicate MovesOn(before: Place, after: Place) {
    match before
    case Queued(id) => after == before || after == Waiting(id) || after == Initializing(id) || after.Told?
    case Waiting(id) => after == before || after.Told?
    case Initializing(id) => after == before || after.Told?
    case Told(_) => after == before
  }

  /** No request is lost, answered twice, or answered with another Space's worker. */
  lemma NobodyIsForgotten(s: Registry, e: Event, s': Registry, c: Caller)
    requires Inv(s) && Step(s, e, s') && c in s.callers
    ensures c in s'.callers && MovesOn(s.callers[c], s'.callers[c])
    ensures var before, after := s.callers[c], s'.callers[c];
            before != after && after.Told? && after.reply.Ok? ==>
              after.reply.value in s'.live && s'.live[after.reply.value].space == before.space
  {
    if e.Serve? {
      ServedMovesOn(s, e.victim, s', c);
    }
  }

  lemma ServedMovesOn(s: Registry, victim: Option<Id>, s': Registry, c: Caller)
    requires Inv(s) && Step(s, Serve(victim), s') && c in s.callers
    ensures c in s'.callers && MovesOn(s.callers[c], s'.callers[c])
    ensures var before, after := s.callers[c], s'.callers[c];
            before != after && after.Told? && after.reply.Ok? ==>
              after.reply.value in s'.live && s'.live[after.reply.value].space == before.space
  {
    TakeHead(s);
    TakeStart(s);
    TakeLive(s);
    TakeCaller(s);
    match s.mailbox[0]
    case Lookup(id, caller) =>
      if victim.Some? {
        EvictLive(Taken(s), victim.value);
      }
      LookupMovesOn(Evict(Taken(s), victim), id, caller);
    case Initialized(id, outcome) => AnnouncementMovesOn(Taken(s), id, outcome, c);
  }

  lemma LookupMovesOn(s: Registry, id: Id, caller: Caller)
    requires IsAt(s, caller, Queued(id)) && LiveInv(s, None)
    ensures var r := ServeLookup(s, id, caller);
            && r.callers == s.callers[caller := r.callers[caller]]
            && MovesOn(Queued(id), r.callers[caller])
            && (r.callers[caller].Told? && r.callers[caller].reply.Ok? ==>
                  var h := r.callers[caller].reply.value;
                  h in r.live && r.live[h].space == id)
  {
    if id in s.workers && s.workers[id].Ready? {
      assert IsReady(s, id, s.workers[id].handle);
    }
  }

  lemma AnnouncementMovesOn(s: Registry, id: Id, outcome: Result<Handle, string>, c: Caller)
    requires Announced(s, id, outcome) && c in s.callers
    ensures var r := ServeInitialized(s, id, outcome);
            && c in r.callers
            && (s.callers[c] == r.callers[c] || (s.callers[c] == Waiting(id) && r.callers[c] == Told(ReplyOf(outcome))))
            && (outcome.Ok? ==> outcome.value in r.live && r.live[outcome.value].space == id)
  {
    var r := ServeInitialized(s, id, outcome);
    Announcement(s, id, outcome);
    AnswerAllTells(s, s.workers[id].waiters, ReplyOf(outcome));
    assert WaitsAt(s, id, c) <==> IsAt(s, c, Waiting(id));
    assert IsAt(r, c, r.callers[c]);
  }

  // No worker of the registry can make room: each has references outside.
  ghost predicate AllInUse(s: Registry) {
    |s.workers| >= s.limit && forall id, h :: IsReady(s, id, h) ==> h in s.live && s.live[h].outside > 0
  }

  lemma InUseExactly(s: Registry)
    requires LiveInv(s, None)
    ensures NoneIdle(s) <==> forall id, h :: IsReady(s, id, h) ==> h in s.live && s.live[h].outside > 0
  {
    if NoneIdle(s) {
      forall id, h | IsReady(s, id, h) ensures h in s.live && s.live[h].outside > 0 {
        assert !Idle(s, id);
      }
    }
    if forall id, h :: IsReady(s, id, h) ==> h in s.live && s.live[h].outside > 0 {
      forall id ensures !Idle(s, id) {
        assert Idle(s, id) ==> IsReady(s, id, s.workers[id].handle);
      }
    }
  }

  /** A lookup of a ready Space shares its worker: the caller is told that very handle and counted, and the
      registry stays as it is. */
  lemma ReadyIsShared(s: Registry, victim: Option<Id>, s': Registry, id: Id, caller: Caller, h: Handle)
    requires Inv(s) && Step(s, Serve(victim), s') && s.mailbox[0] == Lookup(id, caller) && IsReady(s, id, h)
    ensures IsAt(s', caller, Told(Ok(h))) && s'.workers == s.workers && h in s.live && h in s'.live
    ensures s'.live[h].outside == s.live[h].outside + if caller in s.gone then 0 else 1
    ensures s'.live.Keys == s.live.Keys
            && forall other | other in s.live && other != h :: s'.live[other] == s.live[other]
  {
    assert !Crowded(Taken(s), id);
  }

  /** A lookup of a starting Space joins the waiters, until there are 64. */
  lemma StartingIsJoined(s: Registry, victim: Option<Id>, s': Registry, id: Id, caller: Caller)
    requires Inv(s) && Step(s, Serve(victim), s') && s.mailbox[0] == Lookup(id, caller) && IsStarting(s, id)
    ensures s'.live == s.live
    ensures var waiters := s.workers[id].waiters;
            if |waiters| >= 64 then IsAt(s', caller, Told(Err(InitializationQueueFull))) && s'.workers == s.workers
            else IsAt(s', caller, Waiting(id)) && s'.workers == s.workers[id := Starting(waiters + [caller])]
  {
    assert !Crowded(Taken(s), id);
  }

  /** A lookup of an absent Space makes its caller the initializer, unless every worker of a full registry is in
      use or the caller is gone; at most one worker makes room, one without references outside and only when
      the registry is full. */
  lemma AbsentIsOpened(s: Registry, victim: Option<Id>, s': Registry, id: Id, caller: Caller)
    requires Inv(s) && Step(s, Serve(victim), s') && s.mailbox[0] == Lookup(id, caller) && id !in s.workers
    ensures if AllInUse(s) then IsAt(s', caller, Told(Err(WorkspaceCapacity(s.limit)))) && s'.workers == s.workers
            else if caller in s.gone then IsAt(s', caller, Told(Err(Unavailable("caller gone")))) && id !in s'.workers
            else IsAt(s', caller, Initializing(id)) && id in s'.workers && s'.workers[id] == Starting([])
    ensures forall other | other in s.workers && victim != Some(other) ::
              other in s'.workers && s'.workers[other] == s.workers[other]
    ensures victim.Some? ==> |s.workers| >= s.limit && exists h :: IsReady(s, victim.value, h) && s.live[h].outside == 0
  {
    var taken := Taken(s);
    TakeHead(s);
    TakeLive(s);
    InUseExactly(taken);
    assert forall other, h :: IsReady(taken, other, h) <==> IsReady(s, other, h);
    if victim.Some? {
      assert IsReady(taken, victim.value, taken.workers[victim.value].handle);
    }
  }

  /** An announcement tells every waiter of its address; the reference each one still there gets is counted. */
  lemma AnnouncementTellsAll(s: Registry, victim: Option<Id>, s': Registry)
    requires Inv(s) && Step(s, Serve(victim), s') && s.mailbox[0].Initialized?
    ensures var id, outcome := s.mailbox[0].space, s.mailbox[0].outcome;
            && IsStarting(s, id) && !IsStarting(s', id)
            && (forall c :: WaitsAt(s, id, c) ==>
                  IsAt(s', c, Told(if outcome.Ok? then Ok(outcome.value) else Err(Unavailable(outcome.error)))))
            && (forall h :: outcome == Ok(h) ==>
                  && IsReady(s', id, h) && h in s.live && h in s'.live
                  && s'.live[h].outside == s.live[h].outside + Present(s.workers[id].waiters, s.gone))
            && (outcome.Err? ==> id !in s'.workers)
  {
    TakeHead(s);
    TakeStart(s);
    TakeLive(s);
    TakeCaller(s);
    var id, outcome := s.mailbox[0].space, s.mailbox[0].outcome;
    Announcement(Taken(s), id, outcome);
    AnswerAllTells(Taken(s), s.workers[id].waiters, ReplyOf(outcome));
    forall c | WaitsAt(s, id, c) ensures IsAt(s', c, Told(ReplyOf(outcome))) {
      assert WaitsAt(Taken(s), id, c);
    }
  }

  /** Nobody else is told anything, and no other address changes. */
  lemma AnnouncementSparesOthers(s: Registry, victim: Option<Id>, s': Registry)
    requires Inv(s) && Step(s, Serve(victim), s') && s.mailbox[0].Initialized?
    ensures var id := s.mailbox[0].space;
            && (forall c, place | !WaitsAt(s, id, c) :: IsAt(s', c, place) <==> IsAt(s, c, place))
            && s'.workers - {id} == s.workers - {id} && s'.gone == s.gone
  {
    hide LiveInv, CallerInv;
    TakeHead(s);
    TakeStart(s);
    var id, outcome := s.mailbox[0].space, s.mailbox[0].outcome;
    AnswerAllTells(Taken(s), s.workers[id].waiters, ReplyOf(outcome));
    forall c, place | !WaitsAt(s, id, c) ensures IsAt(s', c, place) <==> IsAt(s, c, place) {
      assert c !in s.workers[id].waiters;
      assert IsAt(s', c, place) <==> IsAt(Taken(s), c, place);
    }
  }

  // ---- The supervisor thread ----

  class Supervisor {
    const limit: nat
    var workers: map<Id, Entry>
    var mailbox: seq<Request>
    var closed: set<Caller>
    var live: map<Handle, Worker>
    var next: Handle
    ghost var callers: map<Caller, Place>

    ghost function View(): Registry
      reads this
    {
      Registry(limit, workers, mailbox, callers, closed, live, next)
    }

    constructor (limit: nat)
      ensures Initial(View()) && this.limit == limit
    {
      this.limit := limit;
      workers, mailbox, closed, live, next, callers := map[], [], {}, map[], 0, map[];
    }

    method Send(caller: Caller, reply: Reply)
      modifies this`live, this`callers
      ensures View() == Answer(old(View()), caller, reply)
    {
      callers := callers[caller := Told(reply)];
      if reply.Ok? && caller !in closed {
        live := Retain(live, reply.value);
      }
    }

    method FindIdle() returns (idle: Option<Id>)
      ensures match idle
              case Some(id) => Idle(View(), id)
              case None => NoneIdle(View())
    {
      var rest := workers.Keys;
      while rest != {}
        invariant rest <= workers.Keys
        invariant forall id :: Idle(View(), id) ==> id in rest
      {
        var id :| id in rest;
        if workers[id].Ready? && workers[id].handle in live && live[workers[id].handle].strong == 1 {
          return Some(id);
        }
        rest := rest - {id};
      }
      return None;
    }

    method MakeRoom(id: Id) returns (ghost victim: Option<Id>)
      modifies this`workers, this`live
      ensures Evicts(old(View()), id, victim)
      ensures View() == Evict(old(View()), victim)
    {
      ghost var before := View();
      victim := None;
      if id in workers || |workers| < limit {
        assert !Crowded(before, id);
        return;
      }
      assert Crowded(before, id);
      var idle := FindIdle();
      victim := idle;
      assert Evicts(before, id, victim);
      if idle.Some? {
        DropWorker(idle.value);
      }
    }

    // Drops the registry's reference to a ready worker.
    method DropWorker(id: Id)
      requires id in workers && workers[id].Ready?
      modifies this`workers, this`live
      ensures View() == Evict(old(View()), Some(id))
    {
      live := Release(live, workers[id].handle, false);
      workers := workers - {id};
    }

    method HandleLookup(id: Id, caller: Caller) returns (ghost victim: Option<Id>)
      modifies this`workers, this`live, this`callers
      ensures Evicts(old(View()), id, victim)
      ensures View() == ServeLookup(Evict(old(View()), victim), id, caller)
    {
      victim := MakeRoom(id);
      if id in workers {
        Join(id, caller);
      } else if |workers| >= limit {
        Send(caller, Err(WorkspaceCapacity(limit)));
      } else {
        Begin(id, caller);
      }
    }

    method Join(id: Id, caller: Caller)
      requires id in workers
      modifies this`workers, this`live, this`callers
      ensures View() == ServeLookup(old(View()), id, caller)
    {
      match workers[id]
      case Ready(handle) => Send(caller, Ok(handle));
      case Starting(waiters) =>
        if |waiters| >= MAX_WAITERS {
          Send(caller, Err(InitializationQueueFull));
        } else {
          workers := workers[id := Starting(waiters + [caller])];
          callers := callers[caller := Waiting(id)];
        }
    }

    // Reserves the address and tells the caller to open the worker.
    method Begin(id: Id, caller: Caller)
      requires id !in workers && |workers| < limit
      modifies this`workers, this`live, this`callers
      ensures View() == ServeLookup(old(View()), id, caller)
    {
      ghost var before := workers;
      workers := workers[id := Starting([])];
      callers := callers[caller := Initializing(id)];
      if caller in closed {
        // The reply did not arrive, and nobody waits yet.
        workers := workers - {id};
        assert workers == before;
        callers := callers[caller := Told(Err(Unavailable("caller gone")))];
      }
    }

    method HandleInitialized(id: Id, outcome: Result<Handle, string>)
      modifies this`workers, this`live, this`callers
      ensures View() == ServeInitialized(old(View()), id, outcome)
    {
      ghost var before := View();
      var entry := if id in workers then Some(workers[id]) else None;
      workers := workers - {id};
      if entry.None? || entry.value.Ready? {
        if entry.Some? {
          live := Release(live, entry.value.handle, false);
        }
        if outcome.Ok? {
          live := Release(live, outcome.value, false);
        }
        return;
      }
      var waiters := entry.value.waiters;
      var reply := ReplyOf(outcome);
      for i := 0 to |waiters|
        invariant View() == AnswerAll(before, waiters[..i], reply).(workers := before.workers - {id})
      {
        assert waiters[..i + 1][..i] == waiters[..i];
        Send(waiters[i], reply);
      }
      assert waiters[..|waiters|] == waiters;
      if outcome.Ok? {
        workers := workers[id := Ready(outcome.value)];
      }
    }

    // Handles one request.
    method Serve() returns (ghost victim: Option<Id>)
      requires Inv(View()) && mailbox != []
      modifies this`workers, this`mailbox, this`live, this`callers
      ensures Inv(View())
      ensures Step(old(View()), Event.Serve(victim), View())
    {
      ghost var before := View();
      var request := mailbox[0];
      mailbox := mailbox[1..];
      victim := None;
      match request {
        case Lookup(id, caller) => victim := HandleLookup(id, caller);
        case Initialized(id, outcome) => HandleInitialized(id, outcome);
      }
      StepKeepsInv(before, Event.Serve(victim), View());
    }
  }
}
