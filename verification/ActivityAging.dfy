/**
 Activity-driven aging of memory documents.

 Every conversation context has its own clock of completed turns. A document decays only when all
 the contexts enrolled for it have advanced enough, is archived when its weight has decayed, and is
 forgotten from the archive. Weights are reals. What text decides (permission, hits, references,
 ownership) is part of the activity.
 */
module ActivityAging {
  import opened Wrappers

  type Id = string

  const MAX_TURN: nat := 0xFFFF_FFFF_FFFF_FFFF

  datatype Context = Context(conversation: string, character: string)

  // `content` stands for the body, relations, tags and aliases; `archived` for the directory.
  datatype Document = Document(
    kind: string, importance: Option<real>, weight: Option<real>, status: string,
    conversation: Option<string>, character: Option<string>, content: string, archived: bool)

  datatype Clock = Clock(lastHit: nat, lastDecay: nat, archivedAt: Option<nat>)
  datatype Record = Record(fingerprint: Option<Document>, contexts: map<Context, Clock>)
  datatype Ledger = Ledger(contexts: map<Context, nat>, records: map<Id, Record>)
  datatype Memory = Memory(documents: map<Id, Document>, ledger: Ledger)

  datatype Settings = Settings(enabled: bool, decayAfter: nat, forgetAfter: nat, factor: real, autoForget: bool)

  datatype Activity = Activity(
    context: Context,
    settings: Settings,
    permitted: set<Id>,     // readable, writable, and allowed by its policy
    matched: set<Id>,       // referenced by the current scene or substantively matched
    owned: set<Id>,         // owned by the acting character
    protected: set<Id>,     // referenced somewhere, or tagged as an open commitment
    occupied: set<Id>)      // the archive already has a file at its destination

  datatype AgingError = InvalidSettings | CounterOverflow | ArchiveTargetExists

  predicate ValidSettings(s: Settings) {
    1 <= s.decayAfter <= 1_000_000 && 1 <= s.forgetAfter <= 1_000_000 && 0.0 < s.factor < 1.0
  }

  function Turn(turns: map<Context, nat>, context: Context): nat {
    if context in turns then turns[context] else 0
  }

  function Weight(d: Document): real {
    if d.weight.Some? then d.weight.value else 1.0
  }

  function Importance(d: Document): real {
    if d.importance.Some? then d.importance.value else 1.0
  }

  // What the content fingerprint covers; where the file lies is not part of it.
  function Fingerprint(d: Document): Document {
    d.(archived := false)
  }

  function Elapsed(now: nat, since: nat): nat {
    if now >= since then now - since else 0
  }

  // ---- One document ----

  predicate Eligible(id: Id, d: Document, a: Activity) {
    && id in a.permitted && d.kind == "event" && Importance(d) < 0.8
    && (d.conversation.None? || d.conversation.value == a.context.conversation)
    && (d.character.None? || d.character.value == a.context.character)
  }

  predicate Hit(id: Id, d: Document, a: Activity) {
    !d.archived && id in a.matched
  }

  predicate Bound(id: Id, d: Document, a: Activity) {
    d.conversation == Some(a.context.conversation) || id in a.owned
  }

  function Start(now: nat, archived: bool): Clock {
    Clock(now, now, if archived then Some(now) else None)
  }

  // An edited document starts all its clocks afresh.
  function Refreshed(r: Record, d: Document, turns: map<Context, nat>): Record {
    if r.fingerprint == Some(Fingerprint(d)) then r
    else Record(Some(Fingerprint(d)), map c | c in r.contexts :: Start(Turn(turns, c), d.archived))
  }

  function Enrolled(r: Record, id: Id, d: Document, a: Activity, turns: map<Context, nat>): Record {
    if a.context !in r.contexts && (Hit(id, d, a) || Bound(id, d, a))
    then r.(contexts := r.contexts[a.context := Start(Turn(turns, a.context), d.archived)])
    else r
  }

  function Touched(k: Clock, hit: bool, archived: bool, now: nat): Clock {
    if hit then Start(now, archived)
    else if archived then k.(archivedAt := if k.archivedAt.None? then Some(now) else k.archivedAt)
    else k.(archivedAt := None)
  }

  predicate Ripe(r: Record, turns: map<Context, nat>, after: nat) {
    forall c | c in r.contexts ::
      && Elapsed(Turn(turns, c), r.contexts[c].lastHit) >= after
      && Elapsed(Turn(turns, c), r.contexts[c].lastDecay) >= after
  }

  predicate Expired(r: Record, turns: map<Context, nat>, after: nat) {
    forall c | c in r.contexts ::
      r.contexts[c].archivedAt.Some? && Elapsed(Turn(turns, c), r.contexts[c].archivedAt.value) >= after
  }

  // The record once this turn is noted, before anything ages; absent contexts leave it unaged.
  function Noted(r: Option<Record>, id: Id, d: Document, a: Activity, turns: map<Context, nat>): Record {
    var known := Refreshed(if r.Some? then r.value else Record(None, map[]), d, turns);
    var enrolled := Enrolled(known, id, d, a, turns);
    if a.context in enrolled.contexts then
      var clock := Touched(enrolled.contexts[a.context], Hit(id, d, a), d.archived, Turn(turns, a.context));
      enrolled.(contexts := enrolled.contexts[a.context := clock])
    else enrolled
  }

  predicate Decays(r: Record, id: Id, a: Activity, turns: map<Context, nat>) {
    a.context in r.contexts && id !in a.protected && Ripe(r, turns, a.settings.decayAfter)
  }

  function Decayed(d: Document, factor: real): Document {
    d.(weight := Some(Weight(d) * factor))
  }

  function Spent(r: Record, turns: map<Context, nat>): Record {
    r.(contexts := map c | c in r.contexts :: r.contexts[c].(lastDecay := Turn(turns, c)))
  }

  predicate Forgets(r: Record, id: Id, d: Document, a: Activity, turns: map<Context, nat>) {
    && a.context in r.contexts && d.archived && id !in a.protected && a.settings.autoForget
    && Importance(d) < 0.2 && Weight(d) < 0.05
    && Expired(r, turns, a.settings.forgetAfter)
  }

  predicate Archives(d: Document, decays: bool) {
    !d.archived && decays && Weight(d) < 0.2
  }

  function Filed(r: Record, turns: map<Context, nat>): Record {
    r.(contexts := map c | c in r.contexts :: r.contexts[c].(archivedAt := Some(Turn(turns, c))))
  }

  datatype Aged = Kept(record: Option<Record>, document: Document) | Forgotten | Blocked

  // What becomes of an enrolled document once the turn is noted.
  function Settled(noted: Record, id: Id, d: Document, a: Activity, turns: map<Context, nat>): Aged {
    var decays := Decays(noted, id, a, turns);
    var document := if decays then Decayed(d, a.settings.factor) else d;
    var spent := if decays then Spent(noted, turns) else noted;
    if Forgets(spent, id, document, a, turns) then Forgotten
    else if Archives(document, decays) then
      if id in a.occupied then Blocked
      else
        var archived := document.(status := "archived", archived := true);
        Kept(Some(Filed(spent, turns).(fingerprint := Some(Fingerprint(archived)))), archived)
    else Kept(Some(spent.(fingerprint := Some(Fingerprint(document)))), document)
  }

  function Age(r: Option<Record>, id: Id, d: Document, a: Activity, turns: map<Context, nat>): Aged {
    if !Eligible(id, d, a) then Kept(r, d)
    else
      var noted := Noted(r, id, d, a, turns);
      if a.context !in noted.contexts then Kept(Some(noted), d) else Settled(noted, id, d, a, turns)
  }

  // ---- One activity ----

  function RecordOf(m: Memory, id: Id): Option<Record> {
    if id in m.ledger.records then Some(m.ledger.records[id]) else None
  }

  function Counted(m: Memory, a: Activity): map<Context, nat> {
    m.ledger.contexts[a.context := Turn(m.ledger.contexts, a.context) + 1]
  }

  function AgeIn(m: Memory, id: Id, a: Activity): Aged
    requires id in m.documents
  {
    Age(RecordOf(m, id), id, m.documents[id], a, Counted(m, a))
  }

  // Every document ages on its own, and ledger records of missing documents go.
  function Prepared(m: Memory, a: Activity): Result<Memory, AgingError> {
    if !ValidSettings(a.settings) then Err(InvalidSettings)
    else if !a.settings.enabled then Ok(m)
    else if Turn(m.ledger.contexts, a.context) >= MAX_TURN then Err(CounterOverflow)
    else if exists id | id in m.documents :: AgeIn(m, id, a).Blocked? then Err(ArchiveTargetExists)
    else
      Ok(Memory(
        map id | id in m.documents && AgeIn(m, id, a).Kept? :: AgeIn(m, id, a).document,
        Ledger(Counted(m, a),
          map id | id in m.documents && AgeIn(m, id, a).Kept? && AgeIn(m, id, a).record.Some? ::
            AgeIn(m, id, a).record.value)))
  }

  // The loop over the documents, in any order.
  method PrepareLifecycleActivity(m: Memory, a: Activity) returns (r: Result<Memory, AgingError>)
    ensures r == Prepared(m, a)
  {
    if !ValidSettings(a.settings) {
      return Err(InvalidSettings);
    }
    if !a.settings.enabled {
      return Ok(m);
    }
    if Turn(m.ledger.contexts, a.context) >= MAX_TURN {
      return Err(CounterOverflow);
    }
    var turns := m.ledger.contexts[a.context := Turn(m.ledger.contexts, a.context) + 1];
    var documents := m.documents;
    var records := map id | id in m.ledger.records && id in m.documents :: m.ledger.records[id];
    var todo := m.documents.Keys;
    while todo != {}
      invariant todo <= m.documents.Keys && turns == Counted(m, a)
      invariant forall id | id in m.documents && id !in todo :: !AgeIn(m, id, a).Blocked?
      invariant forall id :: Find(documents, id) == DocumentSoFar(m, a, todo, id)
      invariant forall id :: Find(records, id) == RecordSoFar(m, a, todo, id)
    {
      var id :| id in todo;
      assert Find(records, id) == RecordOf(m, id);
      var aged := AgeDocument(Find(records, id), id, m.documents[id], a, turns);
      assert aged == AgeIn(m, id, a);
      ghost var before, had := documents, records;
      match aged {
        case Blocked =>
          return Err(ArchiveTargetExists);
        case Forgotten =>
          documents, records := documents - {id}, records - {id};
        case Kept(record, document) =>
          documents := documents[id := document];
          if record.Some? {
            records := records[id := record.value];
          }
      }
      forall other ensures Find(documents, other) == DocumentSoFar(m, a, todo - {id}, other)
                   ensures Find(records, other) == RecordSoFar(m, a, todo - {id}, other) {
        if other != id {
          assert Find(documents, other) == Find(before, other) && Find(records, other) == Find(had, other);
        }
      }
      todo := todo - {id};
    }
    AllAged(m, a, documents, records);
    r := Ok(Memory(documents, Ledger(turns, records)));
  }

  function Find<V>(entries: map<Id, V>, id: Id): Option<V> {
    if id in entries then Some(entries[id]) else None
  }

  // What the loop has made of a document and its record while it still has `todo` to visit.
  function DocumentSoFar(m: Memory, a: Activity, todo: set<Id>, id: Id): Option<Document> {
    if id !in m.documents then None
    else if id in todo then Some(m.documents[id])
    else if AgeIn(m, id, a).Kept? then Some(AgeIn(m, id, a).document)
    else None
  }

  function RecordSoFar(m: Memory, a: Activity, todo: set<Id>, id: Id): Option<Record> {
    if id !in m.documents then None
    else if id in todo then RecordOf(m, id)
    else if AgeIn(m, id, a).Kept? then AgeIn(m, id, a).record
    else None
  }

  lemma AllAged(m: Memory, a: Activity, documents: map<Id, Document>, records: map<Id, Record>)
    requires forall id :: Find(documents, id) == DocumentSoFar(m, a, {}, id)
    requires forall id :: Find(records, id) == RecordSoFar(m, a, {}, id)
    ensures documents == map id | id in m.documents && AgeIn(m, id, a).Kept? :: AgeIn(m, id, a).document
    ensures records == map id | id in m.documents && AgeIn(m, id, a).Kept? && AgeIn(m, id, a).record.Some? ::
                         AgeIn(m, id, a).record.value
  {
    FindDecides(documents, map id | id in m.documents && AgeIn(m, id, a).Kept? :: AgeIn(m, id, a).document);
    FindDecides(records, map id | id in m.documents && AgeIn(m, id, a).Kept? && AgeIn(m, id, a).record.Some? ::
                           AgeIn(m, id, a).record.value);
  }

  lemma FindDecides<V>(left: map<Id, V>, right: map<Id, V>)
    requires forall id :: Find(left, id) == Find(right, id)
    ensures left == right
  {
    forall id ensures id in left <==> id in right {
      assert Find(left, id) == Find(right, id);
    }
    forall id | id in left ensures left[id] == right[id] {
      assert Find(left, id) == Find(right, id);
    }
  }

  // One pass of the loop body.
  method AgeDocument(r: Option<Record>, id: Id, d: Document, a: Activity, turns: map<Context, nat>) returns (aged: Aged)
    ensures aged == Age(r, id, d, a, turns)
  {
    if !Eligible(id, d, a) {
      return Kept(r, d);
    }
    var record := NoteTurn(r, id, d, a, turns);
    if a.context !in record.contexts {
      return Kept(Some(record), d);
    }
    aged := SettleDocument(record, id, d, a, turns);
  }

  // Refreshes and enrols the record, and touches the clock of the turn's context.
  method NoteTurn(r: Option<Record>, id: Id, d: Document, a: Activity, turns: map<Context, nat>)
    returns (record: Record)
    ensures record == Noted(r, id, d, a, turns)
  {
    var hit, now := Hit(id, d, a), Turn(turns, a.context);
    record := if r.Some? then r.value else Record(None, map[]);
    if record.fingerprint != Some(Fingerprint(d)) {
      record := Record(Some(Fingerprint(d)), map c | c in record.contexts :: Start(Turn(turns, c), d.archived));
    }
    if a.context !in record.contexts && (hit || Bound(id, d, a)) {
      record := record.(contexts := record.contexts[a.context := Start(now, d.archived)]);
    }
    if a.context !in record.contexts {
      return;
    }
    var clock := record.contexts[a.context];
    if hit {
      clock := Start(now, d.archived);
    } else if d.archived && clock.archivedAt.None? {
      clock := clock.(archivedAt := Some(now));
    } else if !d.archived {
      clock := clock.(archivedAt := None);
    }
    record := record.(contexts := record.contexts[a.context := clock]);
  }

  // Decays, forgets or archives an enrolled document.
  method SettleDocument(noted: Record, id: Id, d: Document, a: Activity, turns: map<Context, nat>) returns (aged: Aged)
    requires a.context in noted.contexts
    ensures aged == Settled(noted, id, d, a, turns)
  {
    var document, record := d, noted;
    var protected := id in a.protected;
    var decay := !protected && Ripe(record, turns, a.settings.decayAfter);
    assert decay == Decays(record, id, a, turns);
    if decay {
      document := Decayed(document, a.settings.factor);
      record := Spent(record, turns);
    }
    if document.archived && !protected && a.settings.autoForget && Importance(document) < 0.2
       && Weight(document) < 0.05 && Expired(record, turns, a.settings.forgetAfter) {
      return Forgotten;
    }
    if !document.archived && decay && !protected && Weight(document) < 0.2 {
      if id in a.occupied {
        return Blocked;
      }
      document := document.(status := "archived", archived := true);
      record := Filed(record, turns);
    }
    aged := Kept(Some(record.(fingerprint := Some(Fingerprint(document)))), document);
  }

  // ---- Runs ----

  // Completed turns, and edits of documents by anyone; both leave the other's data alone.
  datatype Step = Turned(activity: Activity) | Edited(documents: map<Id, Document>)

  function After(m: Memory, step: Step): Memory {
    match step
    case Turned(a) => if Prepared(m, a).Ok? then Prepared(m, a).value else m
    case Edited(documents) => m.(documents := documents)
  }

  ghost predicate IsRun(run: seq<Memory>, steps: seq<Step>) {
    && |run| == |steps| + 1
    && forall i :: 0 <= i < |steps| ==> run[i + 1] == After(run[i], steps[i])
  }

  // The document lives through the run, nobody edits it, and the settings stay the same.
  ghost predicate Undisturbed(run: seq<Memory>, steps: seq<Step>, id: Id, settings: Settings)
    requires |run| == |steps| + 1
  {
    && ValidSettings(settings)
    && (forall i :: 0 <= i < |run| ==> id in run[i].documents)
    && (forall i :: 0 <= i < |steps| ==> StepSpares(run[i], steps[i], id, settings))
  }

  predicate StepSpares(m: Memory, step: Step, id: Id, settings: Settings) {
    match step
    case Turned(a) => a.settings.enabled ==> a.settings == settings
    case Edited(documents) => id in documents && id in m.documents && documents[id] == m.documents[id]
  }

  // The ledger knows the document as it is, and no clock is ahead of its context.
  predicate Tracked(m: Memory, id: Id) {
    && id in m.documents && id in m.ledger.records
    && m.ledger.records[id].fingerprint == Some(Fingerprint(m.documents[id]))
    && forall c | c in m.ledger.records[id].contexts ::
      Behind(m.ledger.records[id].contexts[c], Turn(m.ledger.contexts, c))
  }

  predicate Behind(k: Clock, now: nat) {
    k.lastHit <= now && k.lastDecay <= now && (k.archivedAt.Some? ==> k.archivedAt.value <= now)
  }

  predicate Accepted(m: Memory, step: Step) {
    step.Turned? && step.activity.settings.enabled && Prepared(m, step.activity).Ok?
  }

  predicate Wanes(m: Memory, a: Activity, id: Id) {
    && id in m.documents && Eligible(id, m.documents[id], a)
    && Decays(Noted(RecordOf(m, id), id, m.documents[id], a, Counted(m, a)), id, a, Counted(m, a))
  }

  predicate DecaysIn(m: Memory, step: Step, id: Id) {
    Accepted(m, step) && Wanes(m, step.activity, id)
  }

  function Decaying(run: seq<Memory>, steps: seq<Step>, id: Id): seq<bool>
    requires |run| == |steps| + 1
  {
    seq(|steps|, i requires 0 <= i < |steps| => DecaysIn(run[i], steps[i], id))
  }

  function Trues(flags: seq<bool>): nat {
    if flags == [] then 0 else Trues(flags[..|flags| - 1]) + if flags[|flags| - 1] then 1 else 0
  }

  function DecayCount(run: seq<Memory>, steps: seq<Step>, id: Id): nat
    requires |run| == |steps| + 1
  {
    Trues(Decaying(run, steps, id))
  }

  function Power(factor: real, n: nat): real {
    if n == 0 then 1.0 else Power(factor, n - 1) * factor
  }

  // A turn counts once, in its own context, and no clock ever goes back.
  lemma TurnsCountOnce(m: Memory, step: Step, c: Context)
    ensures Turn(After(m, step).ledger.contexts, c)
         == Turn(m.ledger.contexts, c) + if Accepted(m, step) && c == step.activity.context then 1 else 0
  {
  }

  // One step's effect on a tracked document: a decay is paid for in every enrolled context.
  ghost predicate Moved(m: Memory, m': Memory, id: Id, settings: Settings, decayed: bool) {
    && Tracked(m, id) && Tracked(m', id)
    && (forall c | c in m.ledger.records[id].contexts ::
          && c in m'.ledger.records[id].contexts
          && ClockMoves(m.ledger.records[id].contexts[c], m'.ledger.records[id].contexts[c],
                        if decayed then settings.decayAfter else 0))
    && Weight(m'.documents[id]) == if decayed then Weight(m.documents[id]) * settings.factor
      else Weight(m.documents[id])
  }

  // The parts of an accepted turn that concern one document.
  lemma AcceptedParts(m: Memory, a: Activity, id: Id)
    requires ValidSettings(a.settings) && a.settings.enabled && Prepared(m, a).Ok? && id in m.documents
    ensures var r, aged := Prepared(m, a).value, AgeIn(m, id, a);
            && r.ledger.contexts == Counted(m, a)
            && !aged.Blocked?
            && (id in r.documents <==> aged.Kept?)
            && (aged.Kept? ==> r.documents[id] == aged.document && RecordOf(r, id) == aged.record)
            && (aged.Forgotten? ==> id !in r.ledger.records)
  {
  }

  lemma AgedMoves(m: Memory, m': Memory, a: Activity, id: Id)
    requires Tracked(m, id) && ValidSettings(a.settings) && m'.ledger.contexts == Counted(m, a)
    requires AgeIn(m, id, a).Kept? && id in m'.documents
    requires m'.documents[id] == AgeIn(m, id, a).document && RecordOf(m', id) == AgeIn(m, id, a).record
    ensures Moved(m, m', id, a.settings, Wanes(m, a, id))
  {
    var decays := AgeInTracks(m, a, id);
    AdvancedMoves(m, m', id, a.settings, decays);
  }

  lemma AgeInTracks(m: Memory, a: Activity, id: Id) returns (decays: bool)
    requires Tracked(m, id) && ValidSettings(a.settings) && AgeIn(m, id, a).Kept?
    ensures decays == Wanes(m, a, id)
    ensures var aged := AgeIn(m, id, a);
            && aged.record.Some? && aged.record.value.fingerprint == Some(Fingerprint(aged.document))
            && Advanced(m.ledger.records[id], aged.record.value, Counted(m, a),
              if decays then a.settings.decayAfter else 0)
            && Weight(aged.document) == if decays then Weight(m.documents[id]) * a.settings.factor
              else Weight(m.documents[id])
  {
    hide Age, Noted, Decays, Eligible, Advanced, Weight;
    decays := Wanes(m, a, id);
    AgeTracks(m.ledger.records[id], id, m.documents[id], a, m.ledger.contexts);
  }

  lemma AdvancedMoves(m: Memory, m': Memory, id: Id, settings: Settings, decayed: bool)
    requires Tracked(m, id) && id in m'.documents && id in m'.ledger.records
    requires m'.ledger.records[id].fingerprint == Some(Fingerprint(m'.documents[id]))
    requires Advanced(m.ledger.records[id], m'.ledger.records[id], m'.ledger.contexts,
               if decayed then settings.decayAfter else 0)
    requires Weight(m'.documents[id]) ==
               if decayed then Weight(m.documents[id]) * settings.factor else Weight(m.documents[id])
    ensures Moved(m, m', id, settings, decayed)
  {
  }

  lemma IdleMoves(m: Memory, m': Memory, id: Id, settings: Settings)
    requires Tracked(m, id) && m'.ledger == m.ledger && id in m'.documents && m'.documents[id] == m.documents[id]
    ensures Moved(m, m', id, settings, false)
  {
  }

  lemma StepMoves(m: Memory, step: Step, id: Id, settings: Settings)
    requires Tracked(m, id) && ValidSettings(settings) && StepSpares(m, step, id, settings)
    requires id in After(m, step).documents
    ensures Moved(m, After(m, step), id, settings, DecaysIn(m, step, id))
  {
    if Accepted(m, step) {
      AcceptedParts(m, step.activity, id);
      AgedMoves(m, Prepared(m, step.activity).value, step.activity, id);
    } else {
      IdleMoves(m, After(m, step), id, settings);
    }
  }

  predicate ClockMoves(k: Clock, k': Clock, spent: nat) {
    k'.lastHit >= k.lastHit && k'.lastDecay >= k.lastDecay + spent
  }

  // Clocks are behind their contexts, and those of `r` moved by at least `spent`.
  ghost predicate Advanced(r: Record, r': Record, turns: map<Context, nat>, spent: nat) {
    && (forall c | c in r'.contexts :: Behind(r'.contexts[c], Turn(turns, c)))
    && (forall c | c in r.contexts :: c in r'.contexts && ClockMoves(r.contexts[c], r'.contexts[c], spent))
  }

  lemma NotedTracks(r: Record, id: Id, d: Document, a: Activity, before: map<Context, nat>)
    requires r.fingerprint == Some(Fingerprint(d))
    requires forall c | c in r.contexts :: Behind(r.contexts[c], Turn(before, c))
    ensures var turns := before[a.context := Turn(before, a.context) + 1];
            var noted := Noted(Some(r), id, d, a, turns);
            Advanced(r, noted, turns, 0) && noted.fingerprint == r.fingerprint
  {
    var turns := before[a.context := Turn(before, a.context) + 1];
    var enrolled := Enrolled(r, id, d, a, turns);
    assert Advanced(r, enrolled, turns, 0);
    assert Noted(Some(r), id, d, a, turns).contexts.Keys == enrolled.contexts.Keys;
  }

  lemma SpentTracks(r: Record, noted: Record, turns: map<Context, nat>, after: nat)
    requires Advanced(r, noted, turns, 0) && Ripe(noted, turns, after) && after >= 1
    ensures Advanced(r, Spent(noted, turns), turns, after)
  {
    forall c | c in r.contexts ensures ClockMoves(r.contexts[c], Spent(noted, turns).contexts[c], after) {
      assert ClockMoves(r.contexts[c], noted.contexts[c], 0);
      assert Elapsed(Turn(turns, c), noted.contexts[c].lastDecay) >= after;
    }
    forall c | c in noted.contexts ensures Behind(Spent(noted, turns).contexts[c], Turn(turns, c)) {
      assert Behind(noted.contexts[c], Turn(turns, c));
    }
  }

  lemma FiledTracks(r: Record, spent: Record, turns: map<Context, nat>, n: nat)
    requires Advanced(r, spent, turns, n)
    ensures Advanced(r, Filed(spent, turns), turns, n)
  {
    forall c | c in r.contexts ensures ClockMoves(r.contexts[c], Filed(spent, turns).contexts[c], n) {
      assert ClockMoves(r.contexts[c], spent.contexts[c], n);
    }
    forall c | c in spent.contexts ensures Behind(Filed(spent, turns).contexts[c], Turn(turns, c)) {
      assert Behind(spent.contexts[c], Turn(turns, c));
    }
  }

  lemma SettledTracks(r: Record, noted: Record, id: Id, d: Document, a: Activity, turns: map<Context, nat>)
    requires Advanced(r, noted, turns, 0) && ValidSettings(a.settings)
    requires Settled(noted, id, d, a, turns).Kept?
    ensures var aged := Settled(noted, id, d, a, turns);
            var decays := Decays(noted, id, a, turns);
            && aged.record.Some? && aged.record.value.fingerprint == Some(Fingerprint(aged.document))
            && Advanced(r, aged.record.value, turns, if decays then a.settings.decayAfter else 0)
            && Weight(aged.document) == if decays then Weight(d) * a.settings.factor else Weight(d)
  {
    if Decays(noted, id, a, turns) {
      SpentTracks(r, noted, turns, a.settings.decayAfter);
      FiledTracks(r, Spent(noted, turns), turns, a.settings.decayAfter);
    }
  }

  lemma AgeTracks(r: Record, id: Id, d: Document, a: Activity, before: map<Context, nat>)
    requires r.fingerprint == Some(Fingerprint(d)) && ValidSettings(a.settings)
    requires forall c | c in r.contexts :: Behind(r.contexts[c], Turn(before, c))
    requires Age(Some(r), id, d, a, before[a.context := Turn(before, a.context) + 1]).Kept?
    ensures var turns := before[a.context := Turn(before, a.context) + 1];
            var aged := Age(Some(r), id, d, a, turns);
            var decays := Eligible(id, d, a) && Decays(Noted(Some(r), id, d, a, turns), id, a, turns);
            && aged.record.Some? && aged.record.value.fingerprint == Some(Fingerprint(aged.document))
            && Advanced(r, aged.record.value, turns, if decays then a.settings.decayAfter else 0)
            && Weight(aged.document) == if decays then Weight(d) * a.settings.factor else Weight(d)
  {
    var turns := before[a.context := Turn(before, a.context) + 1];
    if Eligible(id, d, a) {
      NotedTracks(r, id, d, a, before);
      var noted := Noted(Some(r), id, d, a, turns);
      if a.context in noted.contexts {
        SettledTracks(r, noted, id, d, a, turns);
      }
    } else {
      forall c | c in r.contexts ensures Behind(r.contexts[c], Turn(turns, c)) {
        assert Behind(r.contexts[c], Turn(before, c));
      }
    }
  }

  // From `first` to `last`, `n` decays were paid for in every context enrolled all along.
  ghost predicate Earned(first: Memory, last: Memory, id: Id, settings: Settings, n: nat) {
    && Tracked(first, id) && Tracked(last, id)
    && Weight(last.documents[id]) == Weight(first.documents[id]) * Power(settings.factor, n)
    && forall c | c in first.ledger.records[id].contexts ::
         && c in last.ledger.records[id].contexts
         && ClockMoves(first.ledger.records[id].contexts[c], last.ledger.records[id].contexts[c],
           n * settings.decayAfter)
         && Turn(last.ledger.contexts, c) >= first.ledger.records[id].contexts[c].lastDecay + n * settings.decayAfter
  }

  lemma EarnedMore(first: Memory, m: Memory, m': Memory, id: Id, settings: Settings, n: nat, decayed: bool)
    requires Earned(first, m, id, settings, n) && Moved(m, m', id, settings, decayed)
    ensures Earned(first, m', id, settings, n + if decayed then 1 else 0)
  {
    PowerMore(Weight(first.documents[id]), settings.factor, n);
    if decayed {
      ProductMore(n, settings.decayAfter);
      ClocksMoveOn(first, m, m', id, n * settings.decayAfter, settings.decayAfter);
    } else {
      ClocksMoveOn(first, m, m', id, n * settings.decayAfter, 0);
    }
  }

  lemma ProductMore(n: nat, d: nat)
    ensures (n + 1) * d == n * d + d
  {
  }

  // What `n` decays earned, with the product as one number.
  lemma ClocksMoveOn(first: Memory, m: Memory, m': Memory, id: Id, earned: nat, spent: nat)
    requires Tracked(first, id) && Tracked(m, id) && Tracked(m', id)
    requires forall c | c in first.ledger.records[id].contexts ::
               && c in m.ledger.records[id].contexts
               && ClockMoves(first.ledger.records[id].contexts[c], m.ledger.records[id].contexts[c], earned)
    requires forall c | c in m.ledger.records[id].contexts ::
               && c in m'.ledger.records[id].contexts
               && ClockMoves(m.ledger.records[id].contexts[c], m'.ledger.records[id].contexts[c], spent)
    ensures forall c | c in first.ledger.records[id].contexts ::
              && c in m'.ledger.records[id].contexts
              && ClockMoves(first.ledger.records[id].contexts[c], m'.ledger.records[id].contexts[c], earned + spent)
              && Turn(m'.ledger.contexts, c) >= first.ledger.records[id].contexts[c].lastDecay + earned + spent
  {
    forall c | c in first.ledger.records[id].contexts
      ensures c in m'.ledger.records[id].contexts
      ensures ClockMoves(first.ledger.records[id].contexts[c], m'.ledger.records[id].contexts[c], earned + spent)
      ensures Behind(m'.ledger.records[id].contexts[c], Turn(m'.ledger.contexts, c))
    {
      assert ClockMoves(m.ledger.records[id].contexts[c], m'.ledger.records[id].contexts[c], spent);
    }
  }

  lemma {:induction false} EarnedAlong(run: seq<Memory>, flags: seq<bool>, id: Id, settings: Settings)
    requires |run| == |flags| + 1 && Tracked(run[0], id)
    requires forall i :: 0 <= i < |flags| ==> Moved(run[i], run[i + 1], id, settings, flags[i])
    ensures Earned(run[0], run[|flags|], id, settings, Trues(flags))
  {
    if flags != [] {
      var k := |flags|;
      EarnedAlong(run[..k], flags[..k - 1], id, settings);
      EarnedMore(run[0], run[k - 1], run[k], id, settings, Trues(flags[..k - 1]), flags[k - 1]);
    }
  }

  lemma {:induction false} RunMoves(run: seq<Memory>, steps: seq<Step>, id: Id, settings: Settings, upTo: nat)
    requires IsRun(run, steps) && Undisturbed(run, steps, id, settings) && Tracked(run[0], id) && upTo <= |steps|
    ensures Tracked(run[upTo], id)
    ensures forall i :: 0 <= i < upTo ==> Moved(run[i], run[i + 1], id, settings, DecaysIn(run[i], steps[i], id))
  {
    if upTo > 0 {
      RunMoves(run, steps, id, settings, upTo - 1);
      assert id in run[upTo].documents && run[upTo] == After(run[upTo - 1], steps[upTo - 1]);
      StepMoves(run[upTo - 1], steps[upTo - 1], id, settings);
    }
  }

  /** Retention: a document decays only as often as every enrolled context has lived through the
      decay interval, and each decay costs one factor. Activity in one context cannot spend another's. */
  lemma DecaysAreEarned(run: seq<Memory>, steps: seq<Step>, id: Id, settings: Settings)
    requires IsRun(run, steps) && Undisturbed(run, steps, id, settings) && Tracked(run[0], id)
    ensures Earned(run[0], run[|steps|], id, settings, DecayCount(run, steps, id))
  {
    RunMoves(run, steps, id, settings, |steps|);
    EarnedAlong(run, Decaying(run, steps, id), id, settings);
  }

  lemma PowerMore(weight: real, factor: real, n: nat)
    ensures weight * Power(factor, n) * factor == weight * Power(factor, n + 1)
  {
    var p := Power(factor, n);
    assert weight * p * factor == weight * (p * factor);
  }

  lemma Prefix(run: seq<Memory>, steps: seq<Step>, id: Id, settings: Settings)
    requires IsRun(run, steps) && Undisturbed(run, steps, id, settings) && steps != []
    ensures IsRun(run[..|steps|], steps[..|steps| - 1])
    ensures Undisturbed(run[..|steps|], steps[..|steps| - 1], id, settings)
  {
    var init, before := run[..|steps|], steps[..|steps| - 1];
    forall i | 0 <= i < |before|
      ensures init[i + 1] == After(init[i], before[i]) && StepSpares(init[i], before[i], id, settings)
    {
      assert init[i] == run[i] && init[i + 1] == run[i + 1] && before[i] == steps[i];
    }
  }

  predicate QuietIn(steps: seq<Step>, c: Context) {
    forall step | step in steps :: step.Turned? ==> step.activity.context != c
  }

  /** While one enrolled context is idle and not yet ripe, other contexts cannot decay the document. */
  lemma {:induction false} IdleContextProtects(run: seq<Memory>, steps: seq<Step>, id: Id, settings: Settings,
                                               c: Context)
    requires IsRun(run, steps) && Undisturbed(run, steps, id, settings) && Tracked(run[0], id)
    requires c in run[0].ledger.records[id].contexts && QuietIn(steps, c)
    requires Turn(run[0].ledger.contexts, c) < run[0].ledger.records[id].contexts[c].lastDecay + settings.decayAfter
    ensures DecayCount(run, steps, id) == 0
    ensures Weight(run[|steps|].documents[id]) == Weight(run[0].documents[id])
  {
    DecaysAreEarned(run, steps, id, settings);
    QuietStandsStill(run, steps, c);
    NothingEarned(run[0], run[|steps|], id, settings, DecayCount(run, steps, id), c);
  }

  lemma NothingEarned(first: Memory, last: Memory, id: Id, settings: Settings, n: nat, c: Context)
    requires Earned(first, last, id, settings, n) && c in first.ledger.records[id].contexts && settings.decayAfter > 0
    requires Turn(last.ledger.contexts, c) < first.ledger.records[id].contexts[c].lastDecay + settings.decayAfter
    ensures n == 0 && Weight(last.documents[id]) == Weight(first.documents[id])
  {
    assert n * settings.decayAfter < settings.decayAfter;
    SmallMultiple(n, settings.decayAfter);
    assert Power(settings.factor, 0) == 1.0;
  }

  lemma SmallMultiple(n: nat, d: nat)
    requires n * d < d
    ensures n == 0
  {
    assert n * d == d + (n - 1) * d;
  }

  lemma {:induction false} QuietStandsStill(run: seq<Memory>, steps: seq<Step>, c: Context)
    requires IsRun(run, steps) && QuietIn(steps, c)
    ensures Turn(run[|steps|].ledger.contexts, c) == Turn(run[0].ledger.contexts, c)
  {
    if steps != [] {
      var k := |steps|;
      var init, before := run[..k], steps[..k - 1];
      forall i | 0 <= i < |before| ensures init[i + 1] == After(init[i], before[i]) {
        assert init[i] == run[i] && init[i + 1] == run[i + 1] && before[i] == steps[i];
      }
      QuietStandsStill(init, before, c);
      TurnsCountOnce(run[k - 1], steps[k - 1], c);
      assert steps[k - 1] in steps;
    }
  }

  /** Editing a document restarts its retention: the next turn that looks at it starts every enrolled
      clock at its context's current turn, and neither decays nor forgets it. */
  lemma EditRestartsRetention(m: Memory, a: Activity, id: Id)
    requires Accepted(m, Turned(a)) && id in m.documents && Eligible(id, m.documents[id], a)
    requires id in m.ledger.records && m.ledger.records[id].fingerprint != Some(Fingerprint(m.documents[id]))
    requires m.ledger.records[id].contexts != map[]
    ensures var r := After(m, Turned(a));
            && Tracked(r, id) && r.documents[id] == m.documents[id]
            && m.ledger.records[id].contexts.Keys <= r.ledger.records[id].contexts.Keys
            && forall c | c in r.ledger.records[id].contexts ::
                 r.ledger.records[id].contexts[c] == Start(Turn(r.ledger.contexts, c), m.documents[id].archived)
  {
    var d, turns := m.documents[id], Counted(m, a);
    AcceptedParts(m, a, id);
    FreshClocks(m.ledger.records[id], id, d, a, turns);
  }

  lemma FreshClocks(r: Record, id: Id, d: Document, a: Activity, turns: map<Context, nat>)
    requires r.fingerprint != Some(Fingerprint(d)) && r.contexts != map[]
    requires Eligible(id, d, a) && ValidSettings(a.settings)
    ensures var noted := Noted(Some(r), id, d, a, turns);
            && Age(Some(r), id, d, a, turns) == Kept(Some(noted), d)
            && noted.fingerprint == Some(Fingerprint(d)) && r.contexts.Keys <= noted.contexts.Keys
            && forall c | c in noted.contexts :: noted.contexts[c] == Start(Turn(turns, c), d.archived)
  {
    var noted := Noted(Some(r), id, d, a, turns);
    var c :| c in r.contexts;
    assert c in noted.contexts && noted.contexts[c] == Start(Turn(turns, c), d.archived);
    assert !Ripe(noted, turns, a.settings.decayAfter);
    assert !Expired(noted, turns, a.settings.forgetAfter);
  }

  // ---- One turn, in numbers ----

  // The documents a turn looks at: unimportant events it may write, bound to nobody else.
  predicate Concerns(a: Activity, id: Id, d: Document) {
    && id in a.permitted && d.kind == "event" && d.importance.Some? && d.importance.value < 0.8
    && (d.conversation.Some? ==> d.conversation.value == a.context.conversation)
    && (d.character.Some? ==> d.character.value == a.context.character)
  }

  predicate Mentions(a: Activity, id: Id, d: Document) {
    id in a.matched && !d.archived
  }

  // Nothing speaks for the document, and every context has been through the interval since it last did.
  predicate Due(a: Activity, id: Id, d: Document, clocks: map<Context, Clock>, turns: map<Context, nat>) {
    && !Mentions(a, id, d) && id !in a.protected
    && forall c | c in clocks ::
         && Turn(turns, c) >= clocks[c].lastHit + a.settings.decayAfter
         && Turn(turns, c) >= clocks[c].lastDecay + a.settings.decayAfter
  }

  function WeightAfter(a: Activity, d: Document, due: bool): real {
    var weight := if d.weight.Some? then d.weight.value else 1.0;
    if due then weight * a.settings.factor else weight
  }

  predicate Lapsed(a: Activity, id: Id, d: Document, clocks: map<Context, Clock>, turns: map<Context, nat>, due: bool) {
    && d.archived && id !in a.protected && a.settings.autoForget
    && d.importance.Some? && d.importance.value < 0.2 && WeightAfter(a, d, due) < 0.05
    && forall c | c in clocks ::
         clocks[c].archivedAt.Some? && Turn(turns, c) >= clocks[c].archivedAt.value + a.settings.forgetAfter
  }

  // The archive takes what a decay has made light.
  predicate Files(a: Activity, d: Document, due: bool) {
    due && !d.archived && WeightAfter(a, d, due) < 0.2
  }

  function DocumentAfter(a: Activity, d: Document, due: bool): Document {
    if !due then d
    else if !Files(a, d, due) then d.(weight := Some(WeightAfter(a, d, due)))
    else d.(weight := Some(WeightAfter(a, d, due)), archived := true, status := "archived")
  }

  function ClockAfter(a: Activity, id: Id, d: Document, k: Clock, c: Context, now: nat, due: bool): Clock {
    var hit := Mentions(a, id, d) && c == a.context;
    Clock(if hit then now else k.lastHit,
          if hit || due then now else k.lastDecay,
          if Files(a, d, due) then Some(now)
          else if c != a.context then k.archivedAt
          else if !d.archived then None
          else if k.archivedAt.None? then Some(now) else k.archivedAt)
  }

  // The record of an unedited document, with the clocks of the turn.
  predicate IsClocked(r: Option<Record>, a: Activity, id: Id, d: Document, clocks: map<Context, Clock>,
                      turns: map<Context, nat>, due: bool)
  {
    && r.Some? && r.value.fingerprint == Some(DocumentAfter(a, d, due).(archived := false))
    && r.value.contexts.Keys == clocks.Keys
    && forall c | c in clocks :: r.value.contexts[c] == ClockAfter(a, id, d, clocks[c], c, Turn(turns, c), due)
  }

  lemma DecaysExactly(r: Record, id: Id, d: Document, a: Activity, turns: map<Context, nat>)
    requires a.context in r.contexts && ValidSettings(a.settings)
    requires r.fingerprint == Some(Fingerprint(d))
    ensures var noted := Noted(Some(r), id, d, a, turns);
            && noted.contexts.Keys == r.contexts.Keys && noted.fingerprint == r.fingerprint
            && (forall c | c in r.contexts ::
                  noted.contexts[c] == ClockAfter(a, id, d, r.contexts[c], c, Turn(turns, c), false))
            && (Decays(noted, id, a, turns) <==> Due(a, id, d, r.contexts, turns))
  {
    var noted := Noted(Some(r), id, d, a, turns);
    if Mentions(a, id, d) {
      assert Elapsed(Turn(turns, a.context), noted.contexts[a.context].lastHit) == 0;
    } else {
      assert forall c | c in r.contexts ::
          noted.contexts[c].lastHit == r.contexts[c].lastHit && noted.contexts[c].lastDecay == r.contexts[c].lastDecay;
    }
  }

  lemma ForgetsExactly(r: Record, noted: Record, id: Id, d: Document, a: Activity, turns: map<Context, nat>, due: bool)
    requires a.context in r.contexts && ValidSettings(a.settings)
    requires noted.contexts.Keys == r.contexts.Keys
    requires forall c | c in r.contexts :: noted.contexts[c].archivedAt ==
               if c != a.context then r.contexts[c].archivedAt
               else if !d.archived then None
               else if r.contexts[c].archivedAt.None? then Some(Turn(turns, c)) else r.contexts[c].archivedAt
    ensures Forgets(noted, id, if due then Decayed(d, a.settings.factor) else d, a, turns)
            <==> Lapsed(a, id, d, r.contexts, turns, due)
  {
    var document := if due then Decayed(d, a.settings.factor) else d;
    assert Weight(document) == WeightAfter(a, d, due);
    if Expired(noted, turns, a.settings.forgetAfter) {
      assert noted.contexts[a.context].archivedAt.Some?;
    }
  }

  lemma SettlesExactly(r: Record, noted: Record, id: Id, d: Document, a: Activity, turns: map<Context, nat>, due: bool)
    requires a.context in r.contexts && ValidSettings(a.settings) && noted.fingerprint == Some(Fingerprint(d))
    requires noted.contexts.Keys == r.contexts.Keys && due == Decays(noted, id, a, turns)
    requires due ==> !Mentions(a, id, d)
    requires forall c | c in r.contexts ::
               noted.contexts[c] == ClockAfter(a, id, d, r.contexts[c], c, Turn(turns, c), false)
    ensures match Settled(noted, id, d, a, turns)
            case Forgotten => Lapsed(a, id, d, r.contexts, turns, due)
            case Blocked => !Lapsed(a, id, d, r.contexts, turns, due) && Files(a, d, due) && id in a.occupied
            case Kept(record, document) =>
              && !Lapsed(a, id, d, r.contexts, turns, due) && !(Files(a, d, due) && id in a.occupied)
              && document == DocumentAfter(a, d, due)
              && IsClocked(record, a, id, d, r.contexts, turns, due)
  {
    var spent := if due then Spent(noted, turns) else noted;
    var document := if due then Decayed(d, a.settings.factor) else d;
    FilesExactly(a, d, due);
    ForgetsExactly(r, spent, id, d, a, turns, due);
    ClocksExactly(r, noted, id, d, a, turns, due);
    hide Decays, Forgets, Lapsed, Archives, Files, DocumentAfter, Decayed, Spent, Filed, IsClocked, Fingerprint,
      ClockAfter;
  }

  // What a decay makes of the document, filed or not.
  lemma FilesExactly(a: Activity, d: Document, due: bool)
    ensures var document := if due then Decayed(d, a.settings.factor) else d;
            && (Archives(document, due) <==> Files(a, d, due))
            && DocumentAfter(a, d, due)
               == if Files(a, d, due) then document.(status := "archived", archived := true) else document
  {
    if due {
      assert Decayed(d, a.settings.factor).weight.value == WeightAfter(a, d, due);
      assert Decayed(d, a.settings.factor) == d.(weight := Some(WeightAfter(a, d, due)));
    }
  }

  // What it makes of the clocks.
  lemma ClocksExactly(r: Record, noted: Record, id: Id, d: Document, a: Activity, turns: map<Context, nat>, due: bool)
    requires noted.contexts.Keys == r.contexts.Keys
    requires due ==> !Mentions(a, id, d)
    requires forall c | c in r.contexts ::
               noted.contexts[c] == ClockAfter(a, id, d, r.contexts[c], c, Turn(turns, c), false)
    ensures var spent := if due then Spent(noted, turns) else noted;
            var record := (if Files(a, d, due) then Filed(spent, turns) else spent).(
                            fingerprint := Some(Fingerprint(DocumentAfter(a, d, due))));
            IsClocked(Some(record), a, id, d, r.contexts, turns, due)
  {
  }

  // What an eligible, enrolled and unedited document comes to.
  lemma AgesExactly(r: Record, id: Id, d: Document, a: Activity, turns: map<Context, nat>)
    requires a.context in r.contexts && ValidSettings(a.settings) && Concerns(a, id, d)
    requires r.fingerprint == Some(Fingerprint(d))
    ensures var due := Due(a, id, d, r.contexts, turns);
            match Age(Some(r), id, d, a, turns)
            case Forgotten => Lapsed(a, id, d, r.contexts, turns, due)
            case Blocked => !Lapsed(a, id, d, r.contexts, turns, due) && Files(a, d, due) && id in a.occupied
            case Kept(record, document) =>
              && !Lapsed(a, id, d, r.contexts, turns, due) && !(Files(a, d, due) && id in a.occupied)
              && document == DocumentAfter(a, d, due)
              && IsClocked(record, a, id, d, r.contexts, turns, due)
  {
    hide Decays, Settled, Lapsed, IsClocked, ClockAfter, DocumentAfter, Files;
    DecaysExactly(r, id, d, a, turns);
    SettlesExactly(r, Noted(Some(r), id, d, a, turns), id, d, a, turns, Due(a, id, d, r.contexts, turns));
  }

  function Clocks(m: Memory, id: Id): map<Context, Clock> {
    if id in m.ledger.records then m.ledger.records[id].contexts else map[]
  }

  predicate Unedited(m: Memory, id: Id) {
    id in m.documents && id in m.ledger.records
      && m.ledger.records[id].fingerprint == Some(m.documents[id].(archived := false))
  }

  /** One accepted turn, for a document that it concerns and that its context is enrolled for: the document loses
      one factor exactly when it is due, goes to the archive exactly when that makes it light, and is forgotten
      exactly when it has lapsed there; and these are its clocks afterwards. */
  lemma OneTurnExactly(m: Memory, a: Activity, id: Id)
    requires Accepted(m, Turned(a)) && Unedited(m, id) && Concerns(a, id, m.documents[id])
    requires a.context in Clocks(m, id)
    ensures var r, d, clocks := After(m, Turned(a)), m.documents[id], Clocks(m, id);
            var due := Due(a, id, d, clocks, r.ledger.contexts);
            var lapsed := Lapsed(a, id, d, clocks, r.ledger.contexts, due);
            && (id in r.documents <==> !lapsed) && (id in r.ledger.records <==> !lapsed)
            && (!lapsed ==>
                  && r.documents[id] == DocumentAfter(a, d, due)
                  && IsClocked(RecordOf(r, id), a, id, d, clocks, r.ledger.contexts, due))
  {
    hide Age, Lapsed, Due, DocumentAfter, Files, ClockAfter;
    AcceptedParts(m, a, id);
    AgesExactly(m.ledger.records[id], id, m.documents[id], a, Counted(m, a));
  }

  /** A document that the turn's context is not enrolled for does not age in it. It is enrolled, from this turn
      on, exactly when the turn mentions it or it belongs to the turn's conversation or character. */
  lemma EnrollingExactly(m: Memory, a: Activity, id: Id)
    requires Accepted(m, Turned(a)) && id in m.documents && Concerns(a, id, m.documents[id])
    requires a.context !in Clocks(m, id)
    ensures var r, d := After(m, Turned(a)), m.documents[id];
            var now := Turn(r.ledger.contexts, a.context);
            && id in r.documents && r.documents[id] == d && id in r.ledger.records
            && r.ledger.records[id].fingerprint == Some(d.(archived := false))
            && (a.context in Clocks(r, id) <==>
                  Mentions(a, id, d) || d.conversation == Some(a.context.conversation) || id in a.owned)
            && (a.context in Clocks(r, id) ==>
                  Clocks(r, id)[a.context] == Clock(now, now, if d.archived then Some(now) else None))
            && Clocks(r, id).Keys - {a.context} == Clocks(m, id).Keys
            && (Unedited(m, id) ==> forall c | c in Clocks(m, id) :: Clocks(r, id)[c] == Clocks(m, id)[c])
  {
    AcceptedParts(m, a, id);
    EnrolsExactly(RecordOf(m, id), id, m.documents[id], a, Counted(m, a));
  }

  lemma EnrolsExactly(r: Option<Record>, id: Id, d: Document, a: Activity, turns: map<Context, nat>)
    requires ValidSettings(a.settings) && Concerns(a, id, d) && (r.Some? ==> a.context !in r.value.contexts)
    ensures var clocks: map<Context, Clock> := if r.Some? then r.value.contexts else map[];
            var noted, now := Noted(r, id, d, a, turns), Turn(turns, a.context);
            && Age(r, id, d, a, turns) == Kept(Some(noted), d)
            && noted.fingerprint == Some(d.(archived := false))
            && (a.context in noted.contexts <==>
                  Mentions(a, id, d) || d.conversation == Some(a.context.conversation) || id in a.owned)
            && (a.context in noted.contexts ==>
                  noted.contexts[a.context] == Clock(now, now, if d.archived then Some(now) else None))
            && noted.contexts.Keys - {a.context} == clocks.Keys
            && (r.Some? && r.value.fingerprint == Some(d.(archived := false)) ==>
                  forall c | c in clocks :: noted.contexts[c] == clocks[c])
  {
    var noted := Noted(r, id, d, a, turns);
    if a.context in noted.contexts {
      StartedRests(noted, id, d, a, turns);
    }
  }

  // A clock that starts with this turn is neither ripe nor expired.
  lemma StartedRests(noted: Record, id: Id, d: Document, a: Activity, turns: map<Context, nat>)
    requires ValidSettings(a.settings) && noted.fingerprint == Some(Fingerprint(d))
    requires a.context in noted.contexts
    requires noted.contexts[a.context] == Start(Turn(turns, a.context), d.archived)
    ensures Settled(noted, id, d, a, turns) == Kept(Some(noted), d)
  {
    assert Elapsed(Turn(turns, a.context), noted.contexts[a.context].lastHit) == 0;
    assert noted.(fingerprint := Some(Fingerprint(d))) == noted;
  }

  /** What a turn does not concern stays as it is, its record included. */
  lemma OthersStay(m: Memory, a: Activity, id: Id)
    requires Accepted(m, Turned(a)) && id in m.documents && !Concerns(a, id, m.documents[id])
    ensures var r := After(m, Turned(a));
            id in r.documents && r.documents[id] == m.documents[id] && RecordOf(r, id) == RecordOf(m, id)
  {
    AcceptedParts(m, a, id);
  }

  /** A mention keeps its document from ageing: on the turn that mentions it nothing happens to it, whatever its
      clocks said, and its context's clock starts again. */
  lemma MentionProtects(m: Memory, a: Activity, id: Id)
    requires Accepted(m, Turned(a)) && id in m.documents && Concerns(a, id, m.documents[id])
    requires Mentions(a, id, m.documents[id])
    ensures var r := After(m, Turned(a));
            var now := Turn(r.ledger.contexts, a.context);
            && id in r.documents && r.documents[id] == m.documents[id]
            && a.context in Clocks(r, id) && Clocks(r, id)[a.context] == Clock(now, now, None)
  {
    AcceptedParts(m, a, id);
    StartedRests(Noted(RecordOf(m, id), id, m.documents[id], a, Counted(m, a)), id, m.documents[id], a, Counted(m, a));
  }

  /** And so it does over every run in which that context completes fewer turns than the interval. */
  lemma MentionLasts(m: Memory, a: Activity, run: seq<Memory>, steps: seq<Step>, id: Id, settings: Settings)
    requires Accepted(m, Turned(a)) && id in m.documents && Concerns(a, id, m.documents[id])
    requires Mentions(a, id, m.documents[id])
    requires IsRun(run, steps) && run[0] == After(m, Turned(a))
    requires Undisturbed(run, steps, id, settings) && Tracked(run[0], id)
    requires Turn(run[|steps|].ledger.contexts, a.context)
             < Turn(run[0].ledger.contexts, a.context) + settings.decayAfter
    ensures DecayCount(run, steps, id) == 0
    ensures Weight(run[|steps|].documents[id]) == Weight(m.documents[id])
  {
    MentionProtects(m, a, id);
    DecaysAreEarned(run, steps, id, settings);
    NothingEarned(run[0], run[|steps|], id, settings, DecayCount(run, steps, id), a.context);
  }

  // A document that must go to the archive, where a file is in its way.
  predicate Collides(m: Memory, a: Activity, id: Id) {
    && Unedited(m, id) && Concerns(a, id, m.documents[id]) && a.context in Clocks(m, id) && id in a.occupied
    && Due(a, id, m.documents[id], Clocks(m, id),
           m.ledger.contexts[a.context := Turn(m.ledger.contexts, a.context) + 1])
    && Files(a, m.documents[id], true)
  }

  /** When a turn is refused, and as what: nothing else refuses one. */
  lemma RefusedExactly(m: Memory, a: Activity)
    ensures var s, r := a.settings, Prepared(m, a);
            if !(1 <= s.decayAfter <= 1_000_000 && 1 <= s.forgetAfter <= 1_000_000 && 0.0 < s.factor < 1.0)
            then r == Err(InvalidSettings)
            else if !s.enabled then r == Ok(m)
            else if Turn(m.ledger.contexts, a.context) >= 0xFFFF_FFFF_FFFF_FFFF then r == Err(CounterOverflow)
            else if exists id :: Collides(m, a, id) then r == Err(ArchiveTargetExists)
            else r.Ok?
  {
    if ValidSettings(a.settings) {
      forall id ensures Collides(m, a, id) <==> id in m.documents && AgeIn(m, id, a).Blocked? {
        if id in m.documents {
          BlockedExactly(m, a, id);
        }
      }
    }
  }

  lemma BlockedWhenFiled(m: Memory, a: Activity, id: Id)
    requires ValidSettings(a.settings) && Unedited(m, id) && Concerns(a, id, m.documents[id])
    requires a.context in Clocks(m, id)
    ensures Collides(m, a, id) <==> AgeIn(m, id, a).Blocked?
  {
    hide Age, Due, WeightAfter, IsClocked, DocumentAfter;
    AgesExactly(m.ledger.records[id], id, m.documents[id], a, Counted(m, a));
  }

  lemma BlockedExactly(m: Memory, a: Activity, id: Id)
    requires ValidSettings(a.settings) && id in m.documents
    ensures Collides(m, a, id) <==> AgeIn(m, id, a).Blocked?
  {
    var d, r, turns := m.documents[id], RecordOf(m, id), Counted(m, a);
    if Concerns(a, id, d) {
      if a.context !in Clocks(m, id) {
        EnrolsExactly(r, id, d, a, turns);
        assert !AgeIn(m, id, a).Blocked?;
      } else if Unedited(m, id) {
        BlockedWhenFiled(m, a, id);
      } else {
        FreshClocks(r.value, id, d, a, turns);
        assert !AgeIn(m, id, a).Blocked?;
      }
    } else {
      assert !Eligible(id, d, a) && AgeIn(m, id, a) == Kept(r, d);
    }
  }

  // ---- Forgetting ----

  predicate ForgetsIn(m: Memory, step: Step, id: Id) {
    id in m.documents && Accepted(m, step) && AgeIn(m, id, step.activity).Forgotten?
  }

  // Every context enrolled for the archived document was archived no earlier than `since` says.
  ghost predicate ArchivedSince(m: Memory, id: Id, since: map<Context, nat>) {
    && Tracked(m, id) && m.documents[id].archived
    && (forall c :: Turn(m.ledger.contexts, c) >= Turn(since, c))
    && forall c | c in m.ledger.records[id].contexts && m.ledger.records[id].contexts[c].archivedAt.Some? ::
         m.ledger.records[id].contexts[c].archivedAt.value >= Turn(since, c)
  }

  // When aging archives a document, every enrolled context's archive clock starts there.
  lemma ArchivingStartsTheClock(m: Memory, step: Step, id: Id, settings: Settings)
    requires Tracked(m, id) && ValidSettings(settings) && StepSpares(m, step, id, settings)
    requires !m.documents[id].archived && id in After(m, step).documents && After(m, step).documents[id].archived
    ensures DecaysIn(m, step, id) && Weight(After(m, step).documents[id]) < 0.2
    ensures ArchivedSince(After(m, step), id, After(m, step).ledger.contexts)
  {
    StepMoves(m, step, id, settings);
    assert AgeIn(m, id, step.activity).Kept?;
  }

  lemma ArchiveKeeps(m: Memory, step: Step, id: Id, settings: Settings, since: map<Context, nat>)
    requires ArchivedSince(m, id, since) && ValidSettings(settings) && StepSpares(m, step, id, settings)
    requires id in After(m, step).documents
    ensures ArchivedSince(After(m, step), id, since)
  {
    StepMoves(m, step, id, settings);
    forall c ensures Turn(After(m, step).ledger.contexts, c) >= Turn(since, c) {
      TurnsCountOnce(m, step, c);
    }
    if Accepted(m, step) {
      var a := step.activity;
      assert AgeIn(m, id, a).Kept?;
      assert Counted(m, a) == After(m, step).ledger.contexts;
      AgeKeepsArchive(m.ledger.records[id], id, m.documents[id], a, Counted(m, a), since);
    }
  }

  lemma AgeKeepsArchive(r: Record, id: Id, d: Document, a: Activity, turns: map<Context, nat>, since: map<Context, nat>)
    requires d.archived && r.fingerprint == Some(Fingerprint(d)) && Age(Some(r), id, d, a, turns).Kept?
    requires forall c :: Turn(turns, c) >= Turn(since, c)
    requires forall c | c in r.contexts && r.contexts[c].archivedAt.Some? ::
               r.contexts[c].archivedAt.value >= Turn(since, c)
    ensures var aged := Age(Some(r), id, d, a, turns);
            && aged.document.archived && aged.record.Some?
            && forall c | c in aged.record.value.contexts && aged.record.value.contexts[c].archivedAt.Some? ::
                 aged.record.value.contexts[c].archivedAt.value >= Turn(since, c)
  {
    if Eligible(id, d, a) {
      var noted := Noted(Some(r), id, d, a, turns);
      assert forall c | c in noted.contexts && noted.contexts[c].archivedAt.Some? ::
               noted.contexts[c].archivedAt.value >= Turn(since, c);
    }
  }

  lemma {:induction false} ArchiveLasts(run: seq<Memory>, steps: seq<Step>, id: Id, settings: Settings,
                                        since: map<Context, nat>)
    requires IsRun(run, steps) && Undisturbed(run, steps, id, settings) && ArchivedSince(run[0], id, since)
    ensures ArchivedSince(run[|steps|], id, since)
  {
    if steps != [] {
      var k := |steps|;
      Prefix(run, steps, id, settings);
      ArchiveLasts(run[..k], steps[..k - 1], id, settings, since);
      assert run[..k][k - 1] == run[k - 1] && run[k] == After(run[k - 1], steps[k - 1]);
      ArchiveKeeps(run[k - 1], steps[k - 1], id, settings, since);
    }
  }

  /** A document archived at the start of a run is forgotten only after every context enrolled for it
      has completed the forgetting interval since; and then only a light, unimportant one. */
  lemma ForgettingTakesItsTime(run: seq<Memory>, steps: seq<Step>, id: Id, settings: Settings, last: Step)
    requires IsRun(run, steps) && Undisturbed(run, steps, id, settings)
    requires ArchivedSince(run[0], id, run[0].ledger.contexts)
    requires StepSpares(run[|steps|], last, id, settings) && ForgetsIn(run[|steps|], last, id)
    ensures forall c | c in run[|steps|].ledger.records[id].contexts ::
              Turn(After(run[|steps|], last).ledger.contexts, c) >= Turn(run[0].ledger.contexts, c)
                + settings.forgetAfter
    ensures settings.autoForget && Importance(run[|steps|].documents[id]) < 0.2
    ensures id !in After(run[|steps|], last).documents && id !in After(run[|steps|], last).ledger.records
  {
    ArchiveLasts(run, steps, id, settings, run[0].ledger.contexts);
    var m, a := run[|steps|], last.activity;
    assert Counted(m, a) == After(m, last).ledger.contexts;
    ForgetsLate(m.ledger.records[id], id, m.documents[id], a, Counted(m, a), run[0].ledger.contexts);
  }

  lemma ForgetsLate(r: Record, id: Id, d: Document, a: Activity, turns: map<Context, nat>, since: map<Context, nat>)
    requires d.archived && r.fingerprint == Some(Fingerprint(d)) && ValidSettings(a.settings)
    requires forall c :: Turn(turns, c) >= Turn(since, c)
    requires forall c | c in r.contexts && r.contexts[c].archivedAt.Some? ::
               r.contexts[c].archivedAt.value >= Turn(since, c)
    requires Age(Some(r), id, d, a, turns).Forgotten?
    ensures forall c | c in r.contexts :: Turn(turns, c) >= Turn(since, c) + a.settings.forgetAfter
    ensures a.settings.autoForget && Importance(d) < 0.2 && id !in a.protected
  {
    var noted := Noted(Some(r), id, d, a, turns);
    assert forall c | c in noted.contexts && noted.contexts[c].archivedAt.Some? ::
             noted.contexts[c].archivedAt.value >= Turn(since, c);
    assert forall c | c in r.contexts :: c in noted.contexts;
  }

  /** Nothing outside the archive is ever forgotten. */
  lemma OnlyTheArchiveForgets(m: Memory, step: Step, id: Id)
    requires step.Turned? && id in m.documents && id !in After(m, step).documents
    ensures ForgetsIn(m, step, id) && m.documents[id].archived && id !in step.activity.protected
  {
    assert AgeIn(m, id, step.activity).Forgotten?;
  }
}
