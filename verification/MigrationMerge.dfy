/**
 Merging a removed Space's memory into the Space it migrates to.

 Index files are trees of maps and are united; ledgers keep every record with its history, moved ones
 extended by one linked revision; logs are appended; anything else must agree. File formats are
 parameters: what is printed parses back.
 */
module MigrationMerge {
  import opened Wrappers

  type Id = string

  datatype MergeError =
    | RecordConflict(id: string)
    | OwnershipMismatch
    | SceneConflict
    | IdentityCollision
    | MetadataConflict
    | FileConflict(path: string)
    | Unreadable
    | InvalidResult

  // ---- Trees of maps ----

  datatype Value = Object(fields: map<string, Value>) | Atom(text: string)

  // Maps unite key by key; anything else must be equal.
  function Merge(left: Value, right: Value): Result<Value, MergeError>
    decreases left
  {
    if left.Object? && right.Object? then
      if forall k | k in left.fields && k in right.fields :: Merge(left.fields[k], right.fields[k]).Ok? then
        Ok(Object(map k | k in left.fields.Keys + right.fields.Keys ::
                    if k !in right.fields then left.fields[k]
                    else if k !in left.fields then right.fields[k]
                    else Merge(left.fields[k], right.fields[k]).value))
      else Err(MetadataConflict)
    else if left == right then Ok(left)
    else Err(MetadataConflict)
  }

  method MergeMaps(left: Value, right: Value) returns (r: Result<Value, MergeError>)
    ensures r == Merge(left, right)
    decreases left
  {
    if left.Atom? || right.Atom? {
      return if left == right then Ok(left) else Err(MetadataConflict);
    }
    var fields := left.fields;
    var todo := right.fields.Keys;
    while todo != {}
      invariant todo <= right.fields.Keys
      invariant forall k | k in left.fields && k in right.fields && k !in todo ::
                  Merge(left.fields[k], right.fields[k]).Ok?
      invariant fields.Keys == left.fields.Keys + (right.fields.Keys - todo)
      invariant forall k | k in fields :: fields[k] ==
                  if k !in right.fields || k in todo then left.fields[k]
                  else if k !in left.fields then right.fields[k]
                  else Merge(left.fields[k], right.fields[k]).value
    {
      var key :| key in todo;
      todo := todo - {key};
      if key in left.fields {
        var merged := MergeMaps(left.fields[key], right.fields[key]);
        if merged.Err? {
          return Err(MetadataConflict);
        }
        fields := fields[key := merged.value];
      } else {
        fields := fields[key := right.fields[key]];
      }
    }
    r := Ok(Object(fields));
    assert fields == Merge(left, right).value.fields;
  }

  function At(v: Value, path: seq<string>): Option<Value>
    decreases |path|
  {
    if path == [] then Some(v)
    else if v.Object? && path[0] in v.fields then At(v.fields[path[0]], path[1..])
    else None
  }

  // Both trees have something at the path, and it is neither two maps nor the same value.
  predicate Clash(left: Value, right: Value, path: seq<string>) {
    var l, r := At(left, path), At(right, path);
    l.Some? && r.Some? && !(l.value.Object? && r.value.Object?) && l != r
  }

  // What the union holds at a path.
  function United(l: Option<Value>, r: Option<Value>): Option<Value> {
    if l.None? then r
    else if r.None? then l
    else if Merge(l.value, r.value).Ok? then Some(Merge(l.value, r.value).value)
    else None
  }

  lemma {:induction false} MergeAt(left: Value, right: Value, path: seq<string>)
    requires Merge(left, right).Ok?
    ensures At(Merge(left, right).value, path) == United(At(left, path), At(right, path))
    ensures !Clash(left, right, path)
    decreases |path|
  {
    if path != [] && left.Object? && right.Object? {
      var k := path[0];
      if k in left.fields && k in right.fields {
        MergeAt(left.fields[k], right.fields[k], path[1..]);
      }
    }
  }

  lemma {:induction false} MergeFails(left: Value, right: Value) returns (path: seq<string>)
    requires Merge(left, right).Err?
    ensures Clash(left, right, path)
    decreases left
  {
    if left.Object? && right.Object? {
      var k :| k in left.fields && k in right.fields && Merge(left.fields[k], right.fields[k]).Err?;
      var rest := MergeFails(left.fields[k], right.fields[k]);
      path := [k] + rest;
      assert path[1..] == rest;
    } else {
      path := [];
    }
  }

  /** Trees merge exactly when they clash nowhere. */
  lemma MergesExactlyWhenCompatible(left: Value, right: Value)
    ensures Merge(left, right).Ok? <==> forall path :: !Clash(left, right, path)
  {
    if Merge(left, right).Ok? {
      forall path ensures !Clash(left, right, path) {
        MergeAt(left, right, path);
      }
    } else {
      var path := MergeFails(left, right);
    }
  }

  /** The union holds a value at a path exactly when one of the trees holds it there, and has no other paths. */
  lemma MergeIsUnion(left: Value, right: Value, path: seq<string>, text: string)
    requires Merge(left, right).Ok?
    ensures var m := Merge(left, right).value;
            && (At(m, path) == Some(Atom(text))
              <==> At(left, path) == Some(Atom(text)) || At(right, path) == Some(Atom(text)))
            && (At(m, path).Some? <==> At(left, path).Some? || At(right, path).Some?)
  {
    MergeAt(left, right, path);
    if At(left, path).Some? && At(right, path).Some? {
      MergesAt(left, right, path);
    }
  }

  lemma {:induction false} MergesAt(left: Value, right: Value, path: seq<string>)
    requires Merge(left, right).Ok? && At(left, path).Some? && At(right, path).Some?
    ensures Merge(At(left, path).value, At(right, path).value).Ok?
    decreases |path|
  {
    if path != [] {
      MergesAt(left.fields[path[0]], right.fields[path[0]], path[1..]);
    }
  }

  // ---- Rebinding activity keys ----

  function Renamed(key: string, from: string, to: string): string {
    if from <= key then to + key[|from|..] else key
  }

  predicate Collide(keys: set<string>, from: string, to: string) {
    exists a, b | a in keys && b in keys :: a != b && Renamed(a, from, to) == Renamed(b, from, to)
  }

  // Keys that carry the source Space's prefix get the target's, at every level; no two may meet.
  ghost predicate Rebinds(v: Value, from: string, to: string, r: Value)
    decreases v
  {
    match v
    case Atom(_) => r == v
    case Object(fields) =>
      && r.Object? && !Collide(fields.Keys, from, to)
      && (forall k | k in fields ::
        Renamed(k, from, to) in r.fields && Rebinds(fields[k], from, to, r.fields[Renamed(k, from, to)]))
      && (forall q | q in r.fields :: exists k | k in fields :: Renamed(k, from, to) == q)
  }

  // No object in the tree has two keys that the renaming would make one.
  ghost predicate Rebindable(v: Value, from: string, to: string)
    decreases v
  {
    v.Object? ==> !Collide(v.fields.Keys, from, to) && forall k | k in v.fields :: Rebindable(v.fields[k], from, to)
  }

  method RebindActivity(v: Value, from: string, to: string) returns (r: Result<Value, MergeError>)
    ensures r.Ok? <==> Rebindable(v, from, to)
    ensures r.Ok? ==> Rebinds(v, from, to, r.value)
    decreases v
  {
    if v.Atom? {
      return Ok(v);
    }
    var result: map<string, Value> := map[];
    var todo := v.fields.Keys;
    while todo != {}
      invariant todo <= v.fields.Keys
      invariant !Collide(v.fields.Keys - todo, from, to)
      invariant forall k | k in v.fields && k !in todo ::
                  && Rebindable(v.fields[k], from, to) && Renamed(k, from, to) in result
                  && Rebinds(v.fields[k], from, to, result[Renamed(k, from, to)])
      invariant forall q | q in result :: exists k | k in v.fields && k !in todo :: Renamed(k, from, to) == q
    {
      var key :| key in todo;
      var value := RebindActivity(v.fields[key], from, to);
      if value.Err? {
        return value;
      }
      var renamed := Renamed(key, from, to);
      if renamed in result {
        var other :| other in v.fields && other !in todo && Renamed(other, from, to) == renamed;
        return Err(IdentityCollision);
      }
      result := result[renamed := value.value];
      todo := todo - {key};
    }
    assert v.fields.Keys - {} == v.fields.Keys;
    r := Ok(Object(result));
  }

  function RenamedPath(path: seq<string>, from: string, to: string): seq<string> {
    if path == [] then [] else [Renamed(path[0], from, to)] + RenamedPath(path[1..], from, to)
  }

  /** Rebinding keeps every value, at the renamed path. */
  lemma {:induction false} RebindKeeps(v: Value, from: string, to: string, r: Value, path: seq<string>)
    requires Rebinds(v, from, to, r) && At(v, path).Some?
    ensures At(r, RenamedPath(path, from, to)).Some?
    ensures Rebinds(At(v, path).value, from, to, At(r, RenamedPath(path, from, to)).value)
    decreases |path|
  {
    if path != [] {
      var k := path[0];
      var renamed := RenamedPath(path, from, to);
      assert renamed[0] == Renamed(k, from, to) && renamed[1..] == RenamedPath(path[1..], from, to);
      RebindKeeps(v.fields[k], from, to, r.fields[Renamed(k, from, to)], path[1..]);
    }
  }

  /** Rebinding invents nothing: what it holds comes from a path renamed to it. */
  lemma {:induction false} RebindInvents(v: Value, from: string, to: string, r: Value, path: seq<string>)
    returns (origin: seq<string>)
    requires Rebinds(v, from, to, r) && At(r, path).Some?
    ensures At(v, origin).Some? && RenamedPath(origin, from, to) == path
    decreases |path|
  {
    if path == [] {
      origin := [];
    } else {
      var k :| k in v.fields && Renamed(k, from, to) == path[0];
      var rest := RebindInvents(v.fields[k], from, to, r.fields[path[0]], path[1..]);
      origin := [k] + rest;
      assert origin[1..] == rest;
      assert path == [path[0]] + path[1..];
    }
  }

  /** No two paths become one: nothing is lost by rebinding. */
  lemma {:induction false} RebindSeparates(v: Value, from: string, to: string, r: Value, a: seq<string>, b: seq<string>)
    requires Rebinds(v, from, to, r) && At(v, a).Some? && At(v, b).Some?
    requires RenamedPath(a, from, to) == RenamedPath(b, from, to)
    ensures a == b
    decreases |a|
  {
    if a != [] && b != [] {
      var ra, rb := RenamedPath(a, from, to), RenamedPath(b, from, to);
      assert ra[0] == rb[0] && ra[1..] == rb[1..];
      assert ra[1..] == RenamedPath(a[1..], from, to) && rb[1..] == RenamedPath(b[1..], from, to);
      assert Renamed(a[0], from, to) == Renamed(b[0], from, to);
      assert a[0] == b[0];
      RebindSeparates(v.fields[a[0]], from, to, r.fields[Renamed(a[0], from, to)], a[1..], b[1..]);
      assert a == [a[0]] + a[1..] && b == [b[0]] + b[1..];
    }
  }

  // A key that starts with the source's prefix starts with the target's instead, and any other stays.
  predicate IsRenamed(key: string, from: string, to: string, renamed: string) {
    if |key| >= |from| && key[..|from|] == from then renamed == to + key[|from|..] else renamed == key
  }

  lemma {:induction false} PathsAreRenamed(path: seq<string>, from: string, to: string)
    ensures |RenamedPath(path, from, to)| == |path|
    ensures forall i :: 0 <= i < |path| ==> IsRenamed(path[i], from, to, RenamedPath(path, from, to)[i])
  {
    if path != [] {
      PathsAreRenamed(path[1..], from, to);
      PrefixIsTaken(path[0], from);
    }
  }

  lemma PrefixIsTaken(key: string, from: string)
    ensures from <= key <==> |key| >= |from| && key[..|from|] == from
  {
  }

  /** Rebinding in its keys' own terms: a value stays under the keys that it had, except that each key that starts
      with the source's prefix starts with the target's. */
  lemma RebindExactly(v: Value, from: string, to: string, r: Value, path: seq<string>, renamed: seq<string>,
                      text: string)
    requires Rebinds(v, from, to, r) && |renamed| == |path|
    requires forall i :: 0 <= i < |path| ==> IsRenamed(path[i], from, to, renamed[i])
    ensures At(v, path) == Some(Atom(text)) ==> At(r, renamed) == Some(Atom(text))
    ensures At(v, path).Some? && At(r, renamed) == Some(Atom(text)) ==> At(v, path) == Some(Atom(text))
  {
    PathsAreRenamed(path, from, to);
    assert renamed == RenamedPath(path, from, to) by {
      forall i | 0 <= i < |path| ensures renamed[i] == RenamedPath(path, from, to)[i] {
        assert IsRenamed(path[i], from, to, renamed[i]);
      }
    }
    if At(v, path).Some? {
      RebindKeeps(v, from, to, r, path);
    }
  }

  // ---- Ledgers ----

  datatype Context = Manual | Migration(operation: Id, source: Id, destination: Id)
  datatype Revision = Revision(number: nat, parent: Option<nat>, contentHash: string, context: Context)
  datatype Policy = Policy(localSpace: Id, personalSpace: Id, revision: nat, rest: string)
  datatype History = History(policy: Option<Policy>, revisions: seq<Revision>, rest: string)
  datatype Identity = Identity(personalSpace: Id, character: Id, continuity: Id)
  datatype Scene = Scene(identity: Identity, documents: string)
  datatype Ledger = Ledger(records: map<Id, History>, scenes: map<Identity, Scene>)

  datatype Move = Move(from: Id, to: Id, operation: Id)

  // Each revision is numbered by its place and linked to the one before.
  predicate Chained(h: History) {
    forall i :: 0 <= i < |h.revisions| ==>
      h.revisions[i].number == i + 1 && h.revisions[i].parent == if i > 0 then Some(i) else None
  }

  predicate WellChained(ledger: Ledger) {
    forall id | id in ledger.records :: Chained(ledger.records[id])
  }

  function Rehomed(p: Policy, m: Move): Policy {
    Policy(m.to, if p.personalSpace == m.from then m.to else p.personalSpace, p.revision + 1, p.rest)
  }

  function MoveRecord(h: History, m: Move): Result<History, MergeError> {
    if h.policy.Some? && h.policy.value.localSpace != m.from then Err(OwnershipMismatch)
    else
      var n := |h.revisions|;
      var last := Revision(n + 1, if n > 0 then Some(n) else None, if n > 0 then h.revisions[n - 1].contentHash else "",
                           Migration(m.operation, m.from, m.to));
      Ok(History(if h.policy.Some? then Some(Rehomed(h.policy.value, m)) else None, h.revisions + [last], h.rest))
  }

  function MoveScene(s: Scene, m: Move): Scene {
    s.(identity := if s.identity.personalSpace == m.from then s.identity.(personalSpace := m.to) else s.identity)
  }

  predicate RecordsMove(incoming: Ledger, existing: Ledger, m: Move) {
    forall id | id in incoming.records :: id !in existing.records && MoveRecord(incoming.records[id], m).Ok?
  }

  // The moved scenes' keys are new and differ from each other.
  predicate ScenesMove(incoming: Ledger, existing: Ledger, m: Move) {
    && (forall k | k in incoming.scenes :: MoveScene(incoming.scenes[k], m).identity !in existing.scenes)
    && (forall j, k | j in incoming.scenes && k in incoming.scenes ::
          MoveScene(incoming.scenes[j], m).identity == MoveScene(incoming.scenes[k], m).identity ==> j == k)
  }

  // The disjoint union of both ledgers, the incoming part moved.
  ghost predicate MergedLedger(incoming: Ledger, existing: Ledger, m: Move, r: Ledger) {
    && r.records.Keys == existing.records.Keys + incoming.records.Keys
    && existing.records.Keys !! incoming.records.Keys
    && (forall id | id in existing.records :: r.records[id] == existing.records[id])
    && (forall id | id in incoming.records :: MoveRecord(incoming.records[id], m) == Ok(r.records[id]))
    && (forall k | k in existing.scenes :: k in r.scenes && r.scenes[k] == existing.scenes[k])
    && (forall k | k in incoming.scenes ::
          var moved := MoveScene(incoming.scenes[k], m);
          moved.identity !in existing.scenes && moved.identity in r.scenes && r.scenes[moved.identity] == moved)
    && (forall k | k in r.scenes ::
          k in existing.scenes || exists j | j in incoming.scenes :: MoveScene(incoming.scenes[j], m).identity == k)
  }

  method MoveRecords(incoming: Ledger, existing: Ledger, m: Move) returns (r: Result<map<Id, History>, MergeError>)
    ensures r.Ok? <==> RecordsMove(incoming, existing, m)
    ensures r.Ok? ==>
              && r.value.Keys == existing.records.Keys + incoming.records.Keys
              && (forall id | id in existing.records :: r.value[id] == existing.records[id])
              && (forall id | id in incoming.records :: MoveRecord(incoming.records[id], m) == Ok(r.value[id]))
  {
    var records := existing.records;
    var todo := incoming.records.Keys;
    while todo != {}
      invariant todo <= incoming.records.Keys
      invariant records.Keys == existing.records.Keys + (incoming.records.Keys - todo)
      invariant forall id | id in existing.records :: records[id] == existing.records[id]
      invariant forall id | id in incoming.records && id !in todo ::
                  id !in existing.records && MoveRecord(incoming.records[id], m) == Ok(records[id])
    {
      var id :| id in todo;
      if id in records {
        return Err(RecordConflict(id));
      }
      var moved := MoveRecord(incoming.records[id], m);
      if moved.Err? {
        return Err(moved.error);
      }
      records := records[id := moved.value];
      todo := todo - {id};
    }
    r := Ok(records);
  }

  method MoveScenes(incoming: Ledger, existing: Ledger, m: Move) returns (r: Result<map<Identity, Scene>, MergeError>)
    ensures r.Ok? <==> ScenesMove(incoming, existing, m)
    ensures r.Ok? ==>
              && (forall k | k in existing.scenes :: k in r.value && r.value[k] == existing.scenes[k])
              && (forall k | k in incoming.scenes ::
                    var moved := MoveScene(incoming.scenes[k], m);
                      moved.identity in r.value && r.value[moved.identity] == moved)
              && (forall k | k in r.value ::
                    k in existing.scenes || exists j | j in incoming.scenes ::
                      MoveScene(incoming.scenes[j], m).identity == k)
  {
    var scenes := existing.scenes;
    var todo := incoming.scenes.Keys;
    while todo != {}
      invariant todo <= incoming.scenes.Keys
      invariant ScenesSoFar(incoming, existing, m, todo, scenes)
    {
      var k :| k in todo;
      var moved := MoveScene(incoming.scenes[k], m);
      if moved.identity in scenes {
        SceneCollides(incoming, existing, m, todo, scenes, k);
        return Err(SceneConflict);
      }
      OneMoreScene(incoming, existing, m, todo, scenes, k);
      scenes := scenes[moved.identity := moved];
      todo := todo - {k};
    }
    r := Ok(scenes);
  }

  // The scenes that are no longer to do are there under their new identities, and nothing else is new.
  ghost predicate ScenesSoFar(incoming: Ledger, existing: Ledger, m: Move, todo: set<Identity>,
                              scenes: map<Identity, Scene>)
  {
    && (forall k | k in existing.scenes :: k in scenes && scenes[k] == existing.scenes[k])
    && (forall k | k in incoming.scenes && k !in todo :: MovedIn(scenes, existing, MoveScene(incoming.scenes[k], m)))
    && (forall k | k in scenes :: k in existing.scenes || MovedFrom(incoming, m, todo, k))
    && (forall j, k | j in incoming.scenes && k in incoming.scenes && j !in todo && k !in todo ::
          MoveScene(incoming.scenes[j], m).identity == MoveScene(incoming.scenes[k], m).identity ==> j == k)
  }

  ghost predicate MovedFrom(incoming: Ledger, m: Move, todo: set<Identity>, k: Identity) {
    exists j | j in incoming.scenes && j !in todo :: MoveScene(incoming.scenes[j], m).identity == k
  }

  lemma SceneCollides(incoming: Ledger, existing: Ledger, m: Move, todo: set<Identity>, scenes: map<Identity, Scene>,
                      k: Identity)
    requires ScenesSoFar(incoming, existing, m, todo, scenes) && k in todo && k in incoming.scenes
    requires MoveScene(incoming.scenes[k], m).identity in scenes
    ensures !ScenesMove(incoming, existing, m)
  {
    var identity := MoveScene(incoming.scenes[k], m).identity;
    if identity !in existing.scenes {
      assert MovedFrom(incoming, m, todo, identity);
    }
  }

  lemma OneMoreScene(incoming: Ledger, existing: Ledger, m: Move, todo: set<Identity>, scenes: map<Identity, Scene>,
                     k: Identity)
    requires ScenesSoFar(incoming, existing, m, todo, scenes) && k in todo && k in incoming.scenes
    requires MoveScene(incoming.scenes[k], m).identity !in scenes
    ensures var moved := MoveScene(incoming.scenes[k], m);
            ScenesSoFar(incoming, existing, m, todo - {k}, scenes[moved.identity := moved])
  {
    var moved := MoveScene(incoming.scenes[k], m);
    var left := todo - {k};
    forall other | other in scenes ensures other in existing.scenes || MovedFrom(incoming, m, left, other) {
      if other !in existing.scenes {
        var j :| j in incoming.scenes && j !in todo && MoveScene(incoming.scenes[j], m).identity == other;
        assert j !in left;
      }
    }
    assert MovedFrom(incoming, m, left, moved.identity);
    forall j | j in incoming.scenes && j !in todo ensures MoveScene(incoming.scenes[j], m).identity != moved.identity {
      assert MovedIn(scenes, existing, MoveScene(incoming.scenes[j], m));
    }
  }

  predicate MovedIn(scenes: map<Identity, Scene>, existing: Ledger, moved: Scene) {
    moved.identity !in existing.scenes && moved.identity in scenes && scenes[moved.identity] == moved
  }

  method MergeLedgers(incoming: Ledger, existing: Ledger, m: Move) returns (r: Result<Ledger, MergeError>)
    ensures r.Ok? <==> RecordsMove(incoming, existing, m) && ScenesMove(incoming, existing, m)
    ensures r.Ok? ==> MergedLedger(incoming, existing, m, r.value)
  {
    var records := MoveRecords(incoming, existing, m);
    if records.Err? {
      return Err(records.error);
    }
    var scenes := MoveScenes(incoming, existing, m);
    if scenes.Err? {
      return Err(scenes.error);
    }
    r := Ok(Ledger(records.value, scenes.value));
  }

  // One new revision, linked to the former last.
  predicate Extends(before: seq<Revision>, after: seq<Revision>) {
    && |after| == |before| + 1 && before <= after
    && after[|before|].number == |before| + 1
    && (before != [] ==> after[|before|].parent == Some(before[|before| - 1].number)
                         && after[|before|].contentHash == before[|before| - 1].contentHash)
  }

  lemma HistorySurvives(h: History, m: Move)
    requires Chained(h) && MoveRecord(h, m).Ok?
    ensures Chained(MoveRecord(h, m).value) && Extends(h.revisions, MoveRecord(h, m).value.revisions)
  {
    var after := MoveRecord(h, m).value.revisions;
    forall i | 0 <= i < |after|
      ensures after[i].number == i + 1 && after[i].parent == if i > 0 then Some(i) else None
    {
      assert i < |h.revisions| ==> after[i] == h.revisions[i];
    }
    if h.revisions != [] {
      assert h.revisions[|h.revisions| - 1].number == |h.revisions|;
    }
  }

  /** Histories survive migration: each ends in exactly one new revision, linked to its former last,
      and the merged ledger is well chained when both were. */
  lemma LedgersStayChained(incoming: Ledger, existing: Ledger, m: Move, r: Ledger)
    requires MergedLedger(incoming, existing, m, r) && WellChained(incoming) && WellChained(existing)
    ensures WellChained(r)
    ensures forall id | id in incoming.records :: id in r.records
              && Extends(incoming.records[id].revisions, r.records[id].revisions)
  {
    forall id | id in incoming.records
      ensures id in r.records && Chained(r.records[id])
                && Extends(incoming.records[id].revisions, r.records[id].revisions)
    {
      HistorySurvives(incoming.records[id], m);
    }
    forall id | id in r.records ensures Chained(r.records[id]) {
      if id in existing.records {
        assert Chained(existing.records[id]);
      }
    }
  }

  // The policy of a moved record belongs to the new Space, one revision on; so does its personal Space if it was
  // the old one.
  predicate IsRehomed(before: Policy, after: Policy, from: Id, to: Id) {
    && before.localSpace == from && after.localSpace == to
    && after.personalSpace == (if before.personalSpace == from then to else before.personalSpace)
    && after.revision == before.revision + 1 && after.rest == before.rest
  }

  /** What a moved record is: nothing of it is lost, its policy is rehomed, and one more revision of the same
      content tells of the move. Ledgers merge only when the records that are moved are the source's and new. */
  lemma RecordsMoveExactly(incoming: Ledger, existing: Ledger, m: Move, id: Id)
    requires id in incoming.records
    ensures RecordsMove(incoming, existing, m) ==>
              && id !in existing.records
              && (incoming.records[id].policy.Some? ==> incoming.records[id].policy.value.localSpace == m.from)
    ensures (forall i | i in incoming.records ::
               && i !in existing.records
               && (incoming.records[i].policy.Some? ==> incoming.records[i].policy.value.localSpace == m.from))
            ==> RecordsMove(incoming, existing, m)
    ensures forall r | MergedLedger(incoming, existing, m, r) ::
              var before, after := incoming.records[id], r.records[id];
              var n := |before.revisions|;
              && after.rest == before.rest && |after.revisions| == n + 1 && after.revisions[..n] == before.revisions
              && (before.policy.None? ==> after.policy.None?)
              && (before.policy.Some? ==>
                    after.policy.Some? && IsRehomed(before.policy.value, after.policy.value, m.from, m.to))
              && after.revisions[n].context == Migration(m.operation, m.from, m.to)
              && after.revisions[n].contentHash == if n > 0 then before.revisions[n - 1].contentHash else ""
  {
    forall r | MergedLedger(incoming, existing, m, r)
      ensures MoveRecord(incoming.records[id], m) == Ok(r.records[id])
    {
    }
  }

  /** What a moved scene is: the same documents, character and continuity, under the new personal Space if it was
      the old one, where the target has no scene yet. */
  lemma ScenesMoveExactly(incoming: Ledger, existing: Ledger, m: Move, r: Ledger)
    requires MergedLedger(incoming, existing, m, r)
    ensures forall k | k in incoming.scenes ::
              var before := incoming.scenes[k];
              var home := if before.identity.personalSpace == m.from then m.to else before.identity.personalSpace;
              var moved := Identity(home, before.identity.character, before.identity.continuity);
              moved !in existing.scenes && moved in r.scenes && r.scenes[moved] == Scene(moved, before.documents)
  {
  }

  // ---- Snapshots ----

  datatype Document = Document(body: string, metadata: string, touchAt: int)

  // Trees are read as YAML or as JSON, and always written as YAML.
  datatype Formats = Formats(
    value: string -> Option<Value>, showValue: Value -> string, json: string -> Option<Value>,
    ledger: string -> Option<Ledger>, showLedger: Ledger -> string,
    document: string -> Option<Document>)

  // What is printed parses back, JSON is YAML, a written map is no JSON, and a ledger that parses is well chained.
  ghost predicate Faithful(f: Formats) {
    && (forall t :: f.json(t).Some? ==> f.value(t) == f.json(t))
    && (forall v: Value :: v.Object? && v.fields != map[] ==> f.json(f.showValue(v)).None?)
    && (forall v :: f.value(f.showValue(v)) == Some(v))
    && (forall l :: WellChained(l) ==> f.ledger(f.showLedger(l)) == Some(l))
    && (forall t :: f.ledger(t).Some? ==> WellChained(f.ledger(t).value))
  }

  const ACTIVITY: string := "indexes/memory_activity.yaml"
  const LIFECYCLE: string := "indexes/lifecycle_activity.json"
  const LOG: string := "audit/memory.log"
  const TOMBSTONES: string := "tombstones/forgotten.yaml"
  const LEDGERS: set<string> := {"config/provenance.json", "rules/provenance.json"}
  const NO_LEDGER: Ledger := Ledger(map[], map[])

  predicate IsIndex(path: string) {
    "indexes/" <= path || path == TOMBSTONES
  }

  // Documents that differ in their creation time only.
  predicate SameDocument(left: string, right: string, f: Formats) {
    && f.document(left).Some? && f.document(right).Some?
    && f.document(left).value.body == f.document(right).value.body
    && f.document(left).value.metadata == f.document(right).value.metadata
  }

  ghost predicate Adapted(path: string, content: string, m: Move, f: Formats, adapted: string) {
    if path == ACTIVITY then
      f.value(content).Some? && exists w ::
        Rebinds(f.value(content).value, m.from + ":", m.to + ":", w) && adapted == f.showValue(w)
    else adapted == content
  }

  ghost predicate LedgerMerged(content: string, previous: Option<string>, m: Move, f: Formats, result: string) {
    && f.ledger(content).Some? && (previous.Some? ==> f.ledger(previous.value).Some?)
    && var existing := if previous.Some? then f.ledger(previous.value).value else NO_LEDGER;
    exists l :: MergedLedger(f.ledger(content).value, existing, m, l) && result == f.showLedger(l)
  }

  ghost predicate OrdinaryMerged(path: string, adapted: string, previous: Option<string>, f: Formats, result: string) {
    if previous.None? then result == adapted
    else if previous.value == adapted then result == adapted
    else if "current/" <= path && SameDocument(previous.value, adapted, f) then result == previous.value
    else
      && IsIndex(path) && f.value(previous.value).Some? && f.value(adapted).Some?
      && Merge(f.value(previous.value).value, f.value(adapted).value).Ok?
      && result == f.showValue(Merge(f.value(previous.value).value, f.value(adapted).value).value)
  }

  // What becomes of one file of the source, given what the target has there.
  ghost predicate FileMerged(path: string, content: string, previous: Option<string>, m: Move, f: Formats,
                             result: string)
  {
    if path in LEDGERS then LedgerMerged(content, previous, m, f, result)
    else if path == LOG then result == (if previous.Some? then previous.value else "") + content
    else exists adapted :: Adapted(path, content, m, f, adapted) && OrdinaryMerged(path, adapted, previous, f, result)
  }

  // ---- When a file can be merged ----

  predicate LedgerMergeable(content: string, previous: Option<string>, m: Move, f: Formats) {
    && f.ledger(content).Some? && (previous.Some? ==> f.ledger(previous.value).Some?)
    && var existing := if previous.Some? then f.ledger(previous.value).value else NO_LEDGER;
    RecordsMove(f.ledger(content).value, existing, m) && ScenesMove(f.ledger(content).value, existing, m)
  }

  predicate OrdinaryMergeable(path: string, adapted: string, previous: string, f: Formats) {
    || previous == adapted
    || (&& ("current/" <= path ==> f.document(previous).Some? && f.document(adapted).Some?)
        && (|| ("current/" <= path && SameDocument(previous, adapted, f))
            || (&& IsIndex(path) && f.value(previous).Some? && f.value(adapted).Some?
                && Merge(f.value(previous).value, f.value(adapted).value).Ok?)))
  }

  ghost predicate FileMergeable(path: string, content: string, previous: Option<string>, m: Move, f: Formats) {
    if path in LEDGERS then LedgerMergeable(content, previous, m, f)
    else if path == LOG then true
    else
      && (path == ACTIVITY ==> f.value(content).Some? && Rebindable(f.value(content).value, m.from + ":", m.to + ":"))
      && (previous.Some? ==>
            exists adapted :: Adapted(path, content, m, f, adapted)
              && OrdinaryMergeable(path, adapted, previous.value, f))
  }

  method MergeLedgerFile(content: string, previous: Option<string>, m: Move, f: Formats)
    returns (r: Result<string, MergeError>)
    ensures r.Ok? <==> LedgerMergeable(content, previous, m, f)
    ensures r.Ok? ==> LedgerMerged(content, previous, m, f, r.value)
  {
    var incoming := f.ledger(content);
    var existing := if previous.Some? then f.ledger(previous.value) else Some(NO_LEDGER);
    if incoming.None? || existing.None? {
      return Err(Unreadable);
    }
    var merged := MergeLedgers(incoming.value, existing.value, m);
    if merged.Err? {
      return Err(merged.error);
    }
    r := Ok(f.showLedger(merged.value));
  }

  method MergeOrdinaryFile(path: string, adapted: string, previous: string, f: Formats)
    returns (r: Result<string, MergeError>)
    ensures r.Ok? <==> OrdinaryMergeable(path, adapted, previous, f)
    ensures r.Ok? ==> OrdinaryMerged(path, adapted, Some(previous), f, r.value)
  {
    if previous == adapted {
      return Ok(adapted);
    }
    if "current/" <= path {
      if f.document(previous).None? || f.document(adapted).None? {
        return Err(Unreadable);
      }
      if SameDocument(previous, adapted, f) {
        return Ok(previous);
      }
    }
    if !IsIndex(path) {
      return Err(FileConflict(path));
    }
    var left, right := f.value(previous), f.value(adapted);
    if left.None? || right.None? {
      return Err(Unreadable);
    }
    var merged := MergeMaps(left.value, right.value);
    if merged.Err? {
      return Err(merged.error);
    }
    r := Ok(f.showValue(merged.value));
  }

  // A tree has one rebound form.
  lemma {:induction false} RebindsOneWay(v: Value, from: string, to: string, a: Value, b: Value)
    requires Rebinds(v, from, to, a) && Rebinds(v, from, to, b)
    ensures a == b
    decreases v
  {
    if v.Object? {
      forall q | q in a.fields ensures q in b.fields && a.fields[q] == b.fields[q] {
        var k :| k in v.fields && Renamed(k, from, to) == q;
        RebindsOneWay(v.fields[k], from, to, a.fields[q], b.fields[q]);
      }
      forall q | q in b.fields ensures q in a.fields {
        var k :| k in v.fields && Renamed(k, from, to) == q;
      }
      assert a.fields == b.fields;
    }
  }

  lemma AdaptedOneWay(path: string, content: string, m: Move, f: Formats, a: string, b: string)
    requires Adapted(path, content, m, f, a) && Adapted(path, content, m, f, b)
    ensures a == b
  {
    if path == ACTIVITY {
      var v :| Rebinds(f.value(content).value, m.from + ":", m.to + ":", v) && a == f.showValue(v);
      var w :| Rebinds(f.value(content).value, m.from + ":", m.to + ":", w) && b == f.showValue(w);
      RebindsOneWay(f.value(content).value, m.from + ":", m.to + ":", v, w);
    }
  }

  method AdaptFile(path: string, content: string, m: Move, f: Formats) returns (r: Result<string, MergeError>)
    ensures r.Ok? <==> (path == ACTIVITY ==>
              f.value(content).Some? && Rebindable(f.value(content).value, m.from + ":", m.to + ":"))
    ensures r.Ok? ==> Adapted(path, content, m, f, r.value)
  {
    if path != ACTIVITY {
      return Ok(content);
    }
    var activity := f.value(content);
    if activity.None? {
      return Err(Unreadable);
    }
    var rebound := RebindActivity(activity.value, m.from + ":", m.to + ":");
    if rebound.Err? {
      return Err(rebound.error);
    }
    r := Ok(f.showValue(rebound.value));
  }

  lemma SpecialPathsDiffer(path: string)
    ensures path == ACTIVITY ==> path !in LEDGERS && path != LOG
    ensures LOG !in LEDGERS
  {
    assert ACTIVITY[0] == 'i' && LOG[0] == 'a' && "config/provenance.json"[0] == 'c'
      && "rules/provenance.json"[0] == 'r';
  }

  method MergeFile(path: string, content: string, previous: Option<string>, m: Move, f: Formats)
    returns (r: Result<string, MergeError>)
    ensures r.Ok? <==> FileMergeable(path, content, previous, m, f)
    ensures r.Ok? ==> FileMerged(path, content, previous, m, f, r.value)
  {
    SpecialPathsDiffer(path);
    var adapted := AdaptFile(path, content, m, f);
    if adapted.Err? {
      return Err(adapted.error);
    }
    if path in LEDGERS {
      r := MergeLedgerFile(adapted.value, previous, m, f);
      return;
    }
    if path == LOG {
      return Ok((if previous.Some? then previous.value else "") + adapted.value);
    }
    if previous.None? {
      return Ok(adapted.value);
    }
    r := MergeOrdinaryFile(path, adapted.value, previous.value, f);
    if r.Err? {
      forall other | Adapted(path, content, m, f, other) ensures !OrdinaryMergeable(path, other, previous.value, f) {
        AdaptedOneWay(path, content, m, f, adapted.value, other);
      }
    }
  }

  function Find(files: map<string, string>, path: string): Option<string> {
    if path in files then Some(files[path]) else None
  }

  ghost predicate SnapshotMerged(source: map<string, string>, target: map<string, string>, m: Move, f: Formats,
                                 r: map<string, string>)
  {
    && r.Keys == source.Keys + target.Keys
    && (forall path | path in target && path !in source :: r[path] == target[path])
    && (forall path | path in source :: FileMerged(path, source[path], Find(target, path), m, f, r[path]))
  }

  ghost predicate Mergeable(source: map<string, string>, target: map<string, string>, m: Move, f: Formats) {
    forall path | path in source :: FileMergeable(path, source[path], Find(target, path), m, f)
  }

  /** Merges a removed Space's files into its target's; the result must be importable. */
  method MergeSnapshots(source: map<string, string>, target: map<string, string>, m: Move, f: Formats,
                        valid: map<string, string> -> bool) returns (r: Result<map<string, string>, MergeError>)
    ensures r.Ok? ==> Mergeable(source, target, m, f) && SnapshotMerged(source, target, m, f, r.value) && valid(r.value)
    ensures r.Err? ==> !Mergeable(source, target, m, f) || exists s ::
              SnapshotMerged(source, target, m, f, s) && !valid(s)
  {
    var files := target;
    var todo := source.Keys;
    while todo != {}
      invariant todo <= source.Keys
      invariant FilesSoFar(source, target, m, f, todo, files)
    {
      var path :| path in todo;
      todo := todo - {path};
      var merged := MergeFile(path, source[path], Find(target, path), m, f);
      if merged.Err? {
        return Err(merged.error);
      }
      files := files[path := merged.value];
    }
    AllFiles(source, target, m, f, files);
    if !valid(files) {
      return Err(InvalidResult);
    }
    r := Ok(files);
  }

  // The source's files that are no longer to do are merged into the target's.
  ghost predicate FilesSoFar(source: map<string, string>, target: map<string, string>, m: Move, f: Formats,
                             todo: set<string>, files: map<string, string>)
  {
    && files.Keys == target.Keys + (source.Keys - todo)
    && (forall path | path in target && (path !in source || path in todo) :: files[path] == target[path])
    && (forall path | path in source && path !in todo ::
          FileDone(path, source[path], Find(target, path), m, f, files[path]))
  }

  ghost predicate FileDone(path: string, content: string, previous: Option<string>, m: Move, f: Formats, merged: string)
  {
    FileMergeable(path, content, previous, m, f) && FileMerged(path, content, previous, m, f, merged)
  }

  lemma AllFiles(source: map<string, string>, target: map<string, string>, m: Move, f: Formats,
                 files: map<string, string>)
    requires FilesSoFar(source, target, m, f, {}, files)
    ensures Mergeable(source, target, m, f) && SnapshotMerged(source, target, m, f, files)
  {
    forall path | path in source
      ensures FileMergeable(path, source[path], Find(target, path), m, f)
      ensures FileMerged(path, source[path], Find(target, path), m, f, files[path])
    {
      assert FileDone(path, source[path], Find(target, path), m, f, files[path]);
    }
  }

  /** A merged snapshot has every file of both Spaces; a file of the target that is no ledger, log or
      index keeps its content, and one that only the source has arrives as it was. */
  lemma MergeKeepsFiles(source: map<string, string>, target: map<string, string>, m: Move, f: Formats,
                        r: map<string, string>)
    requires SnapshotMerged(source, target, m, f, r)
    ensures r.Keys == source.Keys + target.Keys
    ensures forall path | path in target && path !in LEDGERS && path != LOG && !IsIndex(path) :: r[path] == target[path]
    ensures forall path | path in source && path !in target && path !in LEDGERS && path != ACTIVITY ::
              r[path] == source[path]
    ensures LOG in source ==> r[LOG] == (if LOG in target then target[LOG] else "") + source[LOG]
  {
    assert "indexes/" <= ACTIVITY;
    SpecialPathsDiffer(LOG);
    forall path | path in target && path !in LEDGERS && path != LOG && !IsIndex(path) ensures r[path] == target[path] {
      if path in source {
        assert FileMerged(path, source[path], Find(target, path), m, f, r[path]);
      }
    }
    forall path | path in source && path !in target && path !in LEDGERS && path != ACTIVITY
      ensures r[path] == source[path] {
      assert FileMerged(path, source[path], Find(target, path), m, f, r[path]);
    }
    if LOG in source {
      assert FileMerged(LOG, source[LOG], Find(target, LOG), m, f, r[LOG]);
    }
  }

  // Two documents of one body and metadata, whatever their creation times.
  predicate Twins(left: string, right: string, f: Formats) {
    match (f.document(left), f.document(right))
    case (Some(a), Some(b)) => a.body == b.body && a.metadata == b.metadata
    case _ => false
  }

  // A file that is neither a ledger, the log nor the retrieval history.
  predicate Ordinary(path: string) {
    && path != "config/provenance.json" && path != "rules/provenance.json" && path != "audit/memory.log"
    && path != "indexes/memory_activity.yaml"
  }

  /** Files that cannot be merged stop the migration. Of two ordinary files at one path the target's is kept only
      when they are equal, or current documents of one body and metadata; other than that only indexes merge,
      trees that clash nowhere. */
  lemma ConflictsExactly(source: map<string, string>, target: map<string, string>, m: Move, f: Formats, path: string)
    requires path in source && Ordinary(path)
    ensures FileMergeable(path, source[path], Find(target, path), m, f) <==>
              || path !in target || source[path] == target[path]
              || (|path| >= 8 && path[..8] == "current/" && Twins(target[path], source[path], f))
              || (&& (|path| >= 8 && path[..8] == "current/" ==>
                        f.document(target[path]).Some? && f.document(source[path]).Some?)
                  && (path == "tombstones/forgotten.yaml" || (|path| >= 8 && path[..8] == "indexes/"))
                  && f.value(target[path]).Some? && f.value(source[path]).Some?
                  && forall at :: !Clash(f.value(target[path]).value, f.value(source[path]).value, at))
  {
    PrefixIsTaken(path, "current/");
    PrefixIsTaken(path, "indexes/");
    assert Adapted(path, source[path], m, f, source[path]);
    if path in target && f.value(target[path]).Some? && f.value(source[path]).Some? {
      MergesExactlyWhenCompatible(f.value(target[path]).value, f.value(source[path]).value);
    }
  }

  /** Both Spaces' index entries are in the merged index. */
  lemma MergeKeepsIndexes(source: map<string, string>, target: map<string, string>, m: Move, f: Formats,
                          r: map<string, string>, path: string, at: seq<string>, text: string)
    requires Faithful(f) && SnapshotMerged(source, target, m, f, r)
    requires path in source && path in target && IsIndex(path) && path != ACTIVITY && path !in LEDGERS && path != LOG
    requires !("current/" <= path) && f.value(source[path]).Some? && f.value(target[path]).Some?
    ensures f.value(r[path]).Some?
    ensures At(f.value(r[path]).value, at) == Some(Atom(text))
       <==> || At(f.value(source[path]).value, at) == Some(Atom(text))
            || At(f.value(target[path]).value, at) == Some(Atom(text))
  {
    assert FileMerged(path, source[path], Find(target, path), m, f, r[path]);
    if source[path] != target[path] {
      MergeIsUnion(f.value(target[path]).value, f.value(source[path]).value, at, text);
    }
  }

  /** Each merged ledger is the disjoint union of both, with every moved history extended by one linked revision. */
  lemma MergeKeepsLedgers(source: map<string, string>, target: map<string, string>, m: Move, f: Formats,
                          r: map<string, string>, path: string)
    requires Faithful(f) && SnapshotMerged(source, target, m, f, r) && path in source && path in LEDGERS
    ensures f.ledger(source[path]).Some? && (path in target ==> f.ledger(target[path]).Some?) && f.ledger(r[path]).Some?
    ensures MergedLedger(f.ledger(source[path]).value,
              if path in target then f.ledger(target[path]).value else NO_LEDGER, m,
                         f.ledger(r[path]).value)
  {
    assert FileMerged(path, source[path], Find(target, path), m, f, r[path]);
    var existing := if path in target then f.ledger(target[path]).value else NO_LEDGER;
    var l :| MergedLedger(f.ledger(source[path]).value, existing, m, l) && r[path] == f.showLedger(l);
    LedgersStayChained(f.ledger(source[path]).value, existing, m, l);
  }

  // ---- A merge has one result ----

  lemma LedgersOneWay(incoming: Ledger, existing: Ledger, m: Move, a: Ledger, b: Ledger)
    requires MergedLedger(incoming, existing, m, a) && MergedLedger(incoming, existing, m, b)
    ensures a == b
  {
    assert a.records == b.records;
    ScenesOneWay(incoming, existing, m, a, b);
    ScenesOneWay(incoming, existing, m, b, a);
    assert a.scenes == b.scenes;
  }

  lemma ScenesOneWay(incoming: Ledger, existing: Ledger, m: Move, a: Ledger, b: Ledger)
    requires MergedLedger(incoming, existing, m, a) && MergedLedger(incoming, existing, m, b)
    ensures forall k | k in a.scenes :: k in b.scenes && a.scenes[k] == b.scenes[k]
  {
    forall k | k in a.scenes ensures k in b.scenes && a.scenes[k] == b.scenes[k] {
      if k !in existing.scenes {
        var j :| j in incoming.scenes && MoveScene(incoming.scenes[j], m).identity == k;
      }
    }
  }

  lemma FileOneWay(path: string, content: string, previous: Option<string>, m: Move, f: Formats, a: string, b: string)
    requires FileMerged(path, content, previous, m, f, a) && FileMerged(path, content, previous, m, f, b)
    ensures a == b
  {
    if path in LEDGERS {
      var incoming, existing := f.ledger(content).value,
        if previous.Some? then f.ledger(previous.value).value else NO_LEDGER;
      var l :| MergedLedger(incoming, existing, m, l) && a == f.showLedger(l);
      var k :| MergedLedger(incoming, existing, m, k) && b == f.showLedger(k);
      LedgersOneWay(incoming, existing, m, l, k);
    } else if path != LOG {
      var left :| Adapted(path, content, m, f, left) && OrdinaryMerged(path, left, previous, f, a);
      var right :| Adapted(path, content, m, f, right) && OrdinaryMerged(path, right, previous, f, b);
      AdaptedOneWay(path, content, m, f, left, right);
    }
  }

  /** The snapshots alone decide what a merge gives. */
  lemma OneMerge(source: map<string, string>, target: map<string, string>, m: Move, f: Formats, a: map<string, string>,
                 b: map<string, string>)
    requires SnapshotMerged(source, target, m, f, a) && SnapshotMerged(source, target, m, f, b)
    ensures a == b
  {
    forall path | path in a ensures a[path] == b[path] {
      if path in source {
        FileOneWay(path, source[path], Find(target, path), m, f, a[path], b[path]);
      }
    }
  }

  // ---- The rebound activity ----

  lemma RebindTells(v: Value, from: string, to: string, r: Value, at: seq<string>, text: string)
    requires Rebinds(v, from, to, r)
    ensures At(r, at) == Some(Atom(text)) <==> ComesFrom(v, from, to, at, text)
  {
    if At(r, at) == Some(Atom(text)) {
      var origin := RebindInvents(v, from, to, r, at);
      RebindKeeps(v, from, to, r, origin);
      assert RenamedPath(origin, from, to) == at && At(v, origin) == Some(Atom(text));
    }
    if ComesFrom(v, from, to, at, text) {
      var origin: seq<string> :| RenamedPath(origin, from, to) == at && At(v, origin) == Some(Atom(text));
      RebindKeeps(v, from, to, r, origin);
    }
  }

  ghost predicate ComesFrom(v: Value, from: string, to: string, at: seq<string>, text: string) {
    exists origin: seq<string> :: RenamedPath(origin, from, to) == at && At(v, origin) == Some(Atom(text))
  }

  /** The merged retrieval history holds exactly the target's entries and the source's under their renamed keys. */
  lemma MergeKeepsActivity(source: map<string, string>, target: map<string, string>, m: Move, f: Formats,
                           r: map<string, string>, at: seq<string>, text: string)
    requires Faithful(f) && SnapshotMerged(source, target, m, f, r) && ACTIVITY in source
    requires ACTIVITY in target ==> f.value(target[ACTIVITY]).Some?
    ensures f.value(source[ACTIVITY]).Some? && f.value(r[ACTIVITY]).Some?
    ensures At(f.value(r[ACTIVITY]).value, at) == Some(Atom(text))
       <==> || ComesFrom(f.value(source[ACTIVITY]).value, m.from + ":", m.to + ":", at, text)
            || (ACTIVITY in target && At(f.value(target[ACTIVITY]).value, at) == Some(Atom(text)))
  {
    SpecialPathsDiffer(ACTIVITY);
    var from, to := m.from + ":", m.to + ":";
    assert FileMerged(ACTIVITY, source[ACTIVITY], Find(target, ACTIVITY), m, f, r[ACTIVITY]);
    var adapted :| Adapted(ACTIVITY, source[ACTIVITY], m, f, adapted)
      && OrdinaryMerged(ACTIVITY, adapted, Find(target, ACTIVITY), f, r[ACTIVITY]);
    var w :| Rebinds(f.value(source[ACTIVITY]).value, from, to, w) && adapted == f.showValue(w);
    RebindTells(f.value(source[ACTIVITY]).value, from, to, w, at, text);
    assert !("current/" <= ACTIVITY) by {
      assert ACTIVITY[0] != "current/"[0];
    }
    if ACTIVITY in target && target[ACTIVITY] != adapted {
      MergeIsUnion(f.value(target[ACTIVITY]).value, w, at, text);
    }
  }

  // ---- The lifecycle ledger ----

  // Aging reads its ledger as JSON; an absent one is empty.
  predicate CanAge(files: map<string, string>, f: Formats) {
    LIFECYCLE in files ==> f.json(files[LIFECYCLE]).Some?
  }

  // A ledger that aging wrote: an object with its two entries.
  predicate WrittenByAging(files: map<string, string>, f: Formats) {
    LIFECYCLE in files ==>
      f.json(files[LIFECYCLE]).Some? && f.json(files[LIFECYCLE]).value.Object?
        && f.json(files[LIFECYCLE]).value.fields != map[]
  }

  lemma LifecycleIsIndex()
    ensures IsIndex(LIFECYCLE) && !("current/" <= LIFECYCLE)
    ensures LIFECYCLE !in LEDGERS && LIFECYCLE != LOG && LIFECYCLE != ACTIVITY
  {
    assert LIFECYCLE[0] == 'i' && "current/"[0] == 'c' && LOG[0] == 'a';
    assert "config/provenance.json"[0] == 'c' && "rules/provenance.json"[0] == 'r';
    assert LIFECYCLE[8] == 'l' && ACTIVITY[8] == 'm';
  }

  lemma MergedObjects(left: Value, right: Value)
    requires left.Object? && right.Object? && left.fields != map[] && Merge(left, right).Ok?
    ensures Merge(left, right).value.Object? && Merge(left, right).value.fields != map[]
  {
    var k :| k in left.fields;
    assert k in Merge(left, right).value.fields;
  }

  /** After a successful merge the target's memory can still be aged exactly when one of the Spaces had no
      lifecycle ledger or both had the same text; otherwise the ledger is written as YAML and read as JSON. */
  lemma AgingSurvivesExactly(source: map<string, string>, target: map<string, string>, m: Move, f: Formats,
                             r: map<string, string>)
    requires Faithful(f) && SnapshotMerged(source, target, m, f, r)
    requires WrittenByAging(source, f) && WrittenByAging(target, f)
    ensures CanAge(r, f) <==> LIFECYCLE !in source || LIFECYCLE !in target || source[LIFECYCLE] == target[LIFECYCLE]
  {
    LifecycleIsIndex();
    if LIFECYCLE in source {
      assert FileMerged(LIFECYCLE, source[LIFECYCLE], Find(target, LIFECYCLE), m, f, r[LIFECYCLE]);
      if LIFECYCLE in target && source[LIFECYCLE] != target[LIFECYCLE] {
        MergedObjects(f.value(target[LIFECYCLE]).value, f.value(source[LIFECYCLE]).value);
      }
    }
  }

  // The ledger of one conversation context after some turns.
  function TurnLedger(context: string, turns: string): Value {
    Object(map["contexts" := Object(map[context := Atom(turns)]), "records" := Object(map[])])
  }

  lemma TurnLedgersMerge(a: string, x: string, b: string, y: string)
    requires a != b
    ensures Merge(TurnLedger(a, x), TurnLedger(b, y)).Ok?
  {
    var left, right := TurnLedger(a, x), TurnLedger(b, y);
    assert Merge(left.fields["records"], right.fields["records"]).Ok?;
    assert Merge(left.fields["contexts"], right.fields["contexts"]).Ok?;
  }

  /** A concrete case: two Spaces with one turn each, in different conversations. They merge, the merged
      ledger has both turns when read as YAML, and aging can no longer read it. */
  lemma TwoLedgersEndAging(source: map<string, string>, target: map<string, string>, m: Move, f: Formats,
                           r: map<string, string>)
    requires Faithful(f) && source.Keys == {LIFECYCLE} && target.Keys == {LIFECYCLE}
    requires f.json(source[LIFECYCLE]) == Some(TurnLedger("c:1", "1"))
               && f.json(target[LIFECYCLE]) == Some(TurnLedger("d:2", "1"))
    ensures Mergeable(source, target, m, f)
    ensures CanAge(source, f) && CanAge(target, f)
    ensures SnapshotMerged(source, target, m, f, r) ==>
              && !CanAge(r, f) && f.value(r[LIFECYCLE]).Some?
              && At(f.value(r[LIFECYCLE]).value, ["contexts", "c:1"]) == Some(Atom("1"))
              && At(f.value(r[LIFECYCLE]).value, ["contexts", "d:2"]) == Some(Atom("1"))
  {
    assert "c:1"[0] != "d:2"[0];
    TurnLedgersMerge("d:2", "1", "c:1", "1");
    TurnLedgersDiffer("c:1", "d:2", "1");
    LedgersAreMergeable(source, target, m, f, "c:1", "d:2", "1");
    if SnapshotMerged(source, target, m, f, r) {
      MergedTurns(source, target, m, f, r, "c:1", "d:2", "1");
    }
  }

  lemma TurnLedgersDiffer(a: string, b: string, turns: string)
    requires a != b
    ensures TurnLedger(a, turns) != TurnLedger(b, turns)
  {
    assert TurnLedger(a, turns).fields["contexts"].fields.Keys == {a};
    assert TurnLedger(b, turns).fields["contexts"].fields.Keys == {b};
  }

  lemma LedgersAreMergeable(source: map<string, string>, target: map<string, string>, m: Move, f: Formats, a: string,
                            b: string, turns: string)
    requires Faithful(f) && source.Keys == {LIFECYCLE} && target.Keys == {LIFECYCLE}
    requires f.json(source[LIFECYCLE]) == Some(TurnLedger(a, turns))
               && f.json(target[LIFECYCLE]) == Some(TurnLedger(b, turns))
    requires Merge(TurnLedger(b, turns), TurnLedger(a, turns)).Ok?
    ensures Mergeable(source, target, m, f)
  {
    LifecycleIsIndex();
    assert Adapted(LIFECYCLE, source[LIFECYCLE], m, f, source[LIFECYCLE]);
    assert OrdinaryMergeable(LIFECYCLE, source[LIFECYCLE], target[LIFECYCLE], f);
  }

  lemma MergedTurns(source: map<string, string>, target: map<string, string>, m: Move, f: Formats,
                    r: map<string, string>, a: string, b: string, turns: string)
    requires Faithful(f) && source.Keys == {LIFECYCLE} && target.Keys == {LIFECYCLE}
               && SnapshotMerged(source, target, m, f, r)
    requires f.json(source[LIFECYCLE]) == Some(TurnLedger(a, turns))
               && f.json(target[LIFECYCLE]) == Some(TurnLedger(b, turns))
    requires TurnLedger(a, turns) != TurnLedger(b, turns)
    ensures !CanAge(r, f) && f.value(r[LIFECYCLE]).Some?
    ensures At(f.value(r[LIFECYCLE]).value, ["contexts", a]) == Some(Atom(turns))
    ensures At(f.value(r[LIFECYCLE]).value, ["contexts", b]) == Some(Atom(turns))
  {
    LifecycleIsIndex();
    AgingSurvivesExactly(source, target, m, f, r);
    TurnIsThere(a, turns);
    TurnIsThere(b, turns);
    MergeKeepsIndexes(source, target, m, f, r, LIFECYCLE, ["contexts", a], turns);
    MergeKeepsIndexes(source, target, m, f, r, LIFECYCLE, ["contexts", b], turns);
  }

  lemma TurnIsThere(context: string, turns: string)
    ensures At(TurnLedger(context, turns), ["contexts", context]) == Some(Atom(turns))
  {
    var path, rest, none: seq<string> := ["contexts", context], [context], [];
    var ledger, contexts, turn := TurnLedger(context, turns), Object(map[context := Atom(turns)]), Atom(turns);
    assert path[1..] == rest && rest[1..] == none;
    assert ledger.fields["contexts"] == contexts && contexts.fields[context] == turn;
    assert At(turn, none) == Some(turn);
    assert At(contexts, rest) == At(turn, rest[1..]);
    assert At(ledger, path) == At(contexts, path[1..]);
  }
}
