/**
 Patching the semantic graph: what an automatic patch may change, and what it defers.

 Files are node texts and pending candidates. A patch is prepared against the current files and
 committed whole. Without authorization a Canon node is never changed: each blocked change becomes a
 pending candidate that can be approved later.
 */
module NsgPatch {
  import opened Wrappers
  import opened Text
  import opened Files
  import PreparedCommit
  import opened NsgText

  type Mutation = PreparedCommit.Mutation<Content>

  // The text form of nodes, as far as patching relies on it.
  datatype Printer = Printer(parse: string -> Result<Node, NsgError>, render: Node -> string,
    list: string -> seq<string>)

  predicate Storable(n: Node, printer: Printer) {
    printer.parse(printer.render(n)) == Ok(n)
  }

  // Parsed nodes are valid and survive printing, and printing cannot change a node's mode.
  ghost predicate Trusty(printer: Printer) {
    && (forall t :: printer.parse(t).Ok? ==>
          Valid(printer.parse(t).value) && (NoReturns(printer.parse(t).value) ==>
            Storable(printer.parse(t).value, printer)))
    && (forall n :: Valid(n) && printer.parse(printer.render(n)).Ok? ==>
          printer.parse(printer.render(n)).value.mode == n.mode)
  }

  function TextPrinter(codec: Codec): Printer {
    Printer(text => Parse(text, codec), n => Print(n, codec, NAMES), text => SplitList(codec.nfkc(text)))
  }

  /** The graph's text form is such a printer. */
  lemma TextPrinterIsTrusty(codec: Codec)
    requires Faithful(codec)
    ensures Trusty(TextPrinter(codec))
    ensures forall n :: Valid(n) ==> (Storable(n, TextPrinter(codec)) <==> Tidy(n, codec) && NoReturns(n))
  {
    forall t | Parse(t, codec).Ok?
      ensures Valid(Parse(t, codec).value)
      ensures NoReturns(Parse(t, codec).value) ==> Storable(Parse(t, codec).value, TextPrinter(codec))
    {
      ReprintingIsStable(t, codec);
    }
    forall n | Valid(n) ensures Storable(n, TextPrinter(codec)) <==> Tidy(n, codec) && NoReturns(n) {
      ReadsBackExactly(n, codec);
    }
    forall n | Valid(n) && Parse(Print(n, codec, NAMES), codec).Ok?
      ensures Parse(Print(n, codec, NAMES), codec).value.mode == n.mode
    {
      ModeCannotBeForged(n, codec);
    }
  }

  // ---- Changes to one node ----

  datatype NodeUpdate = NodeUpdate(
    anchors: Option<string>, condition: Option<string>, trigger: Option<string>,
    consequence: Option<string>, constraint: Option<string>)

  datatype MetadataUpdate = MetadataUpdate(
    importance: Option<real>, mode: Option<Mode>, status: Option<Status>, graphId: Option<string>,
    sourceCharacterIds: Option<seq<string>>, injectCharacterIds: Option<seq<string>>)

  datatype Change =
    | UpdateNode(update: NodeUpdate)
    | AddEdge(edge: Edge)
    | RemoveEdge(key: (string, string, string))
    | UpdateFrontmatter(metadata: MetadataUpdate)
    | ArchiveNode(reason: string)

  datatype Candidate = Candidate(reason: string, changes: seq<Change>, evidence: string)
  datatype Operation = CreateNode(node: Node, anchors: string) | Alter(change: Change) | Revise(candidate: Candidate)
  datatype FilePatch = FilePatch(target: string, operations: seq<Operation>)

  function Or<T>(value: Option<T>, default: T): T {
    if value.Some? then value.value else default
  }

  function WithoutKey(edges: seq<Edge>, key: (string, string, string)): seq<Edge> {
    if edges == [] then []
    else
      var rest := WithoutKey(edges[..|edges| - 1], key);
      if Key(edges[|edges| - 1]) == key then rest else rest + [edges[|edges| - 1]]
  }

  function Edited(n: Node, change: Change, printer: Printer): Node {
    match change
    case UpdateNode(u) =>
      n.(anchors := if u.anchors.Some? then printer.list(u.anchors.value) else n.anchors,
         condition := Or(u.condition, n.condition), trigger := Or(u.trigger, n.trigger),
         consequence := Or(u.consequence, n.consequence), constraint := Or(u.constraint, n.constraint))
    case AddEdge(edge) => n.(edges := n.edges + [edge])
    case RemoveEdge(key) => n.(edges := WithoutKey(n.edges, key))
    case UpdateFrontmatter(m) =>
      n.(importance := Or(m.importance, n.importance), mode := Or(m.mode, n.mode), status := Or(m.status, n.status),
         graphId := Or(m.graphId, n.graphId), sourceCharacterIds := Or(m.sourceCharacterIds, n.sourceCharacterIds),
         injectCharacterIds := Or(m.injectCharacterIds, n.injectCharacterIds))
    case ArchiveNode(_) => n.(status := Archived)
  }

  function ApplyChange(n: Node, change: Change, printer: Printer): Result<Node, NsgError> {
    if change.AddEdge? && !ValidEdge(change.edge) then Err(Invalid)
    else if change.AddEdge? && change.edge in n.edges then Ok(n)
    else if change.AddEdge? && exists e | e in n.edges :: Key(e) == Key(change.edge) then Err(Invalid)
    else if change.ArchiveNode? && Trim(change.reason) == "" then Err(Invalid)
    else if Valid(Edited(n, change, printer)) then Ok(Edited(n, change, printer))
    else Err(Invalid)
  }

  function ApplyChanges(n: Node, changes: seq<Change>, printer: Printer): Result<Node, NsgError> {
    if changes == [] then Ok(n)
    else
      var before := ApplyChanges(n, changes[..|changes| - 1], printer);
      if before.Err? then before else ApplyChange(before.value, changes[|changes| - 1], printer)
  }

  predicate PromotesCanon(change: Change) {
    change.UpdateFrontmatter? && change.metadata.mode == Some(Canon)
  }

  // ---- Preparing a patch ----

  datatype Content = NodeText(text: string) | Pending(candidate: Candidate)

  // Where a target lies, where a candidate for a node is parked, and which node a parked file is for.
  datatype Layout = Layout(
    resolve: string -> Option<Path>,
    pendingAt: (Path, string, string, seq<Change>) -> Path,
    segment: string -> string,
    segmentAt: Path -> string)

  const BLOCKED: string := "Automatic change was blocked by Canon protection."
  const BLOCKED_EVIDENCE: string := "blocked_canon_mutation"

  function Park(path: Path, id: string, candidate: Candidate, layout: Layout): Result<Mutation, NsgError> {
    if Trim(candidate.evidence) == "" then Err(Invalid)
    else Ok(PreparedCommit.Write(layout.pendingAt(path, id, candidate.reason, candidate.changes), Pending(candidate)))
  }

  datatype Progress = Progress(node: Node, mutations: seq<Mutation>)

  function Perform(p: Progress, operation: Operation, path: Path, authorized: bool, printer: Printer, layout: Layout):
    Result<Progress, NsgError>
  {
    match operation
    case CreateNode(_, _) => Err(Invalid)
    case Revise(candidate) =>
      var parked := Park(path, p.node.id, candidate, layout);
      if parked.Err? then Err(Invalid) else Ok(p.(mutations := p.mutations + [parked.value]))
    case Alter(change) =>
      if !authorized && (p.node.mode == Canon || PromotesCanon(change)) then
        var parked := Park(path, p.node.id, Candidate(BLOCKED, [change], BLOCKED_EVIDENCE), layout);
        if parked.Err? then Err(Invalid) else Ok(p.(mutations := p.mutations + [parked.value]))
      else
        var applied := ApplyChange(p.node, change, printer);
        if applied.Err? then Err(Invalid) else Ok(p.(node := applied.value))
  }

  function PerformAll(n: Node, operations: seq<Operation>, path: Path, authorized: bool, printer: Printer,
                      layout: Layout):
    Result<Progress, NsgError>
  {
    if operations == [] then Ok(Progress(n, []))
    else
      var before := PerformAll(n, operations[..|operations| - 1], path, authorized, printer, layout);
      if before.Err? then before
      else Perform(before.value, operations[|operations| - 1], path, authorized, printer, layout)
  }

  predicate Creates(operations: seq<Operation>) {
    exists i :: 0 <= i < |operations| && operations[i].CreateNode?
  }

  function Read(files: Tree<Content>, path: Path, printer: Printer): Result<Node, NsgError> {
    if path in files && files[path].NodeText? then printer.parse(files[path].text) else Err(Invalid)
  }

  function PrepareCreate(files: Tree<Content>, path: Path, operation: Operation, authorized: bool, printer: Printer):
    Result<seq<Mutation>, NsgError>
    requires operation.CreateNode?
  {
    var n := operation.node.(anchors := printer.list(operation.anchors));
    if (!authorized && n.mode != Draft) || !Valid(n) then Err(Invalid)
    else if path in files then
      if Read(files, path, printer) == Ok(n) then Ok([]) else Err(Invalid)
    else Ok([PreparedCommit.Write(path, NodeText(printer.render(n)))])
  }

  function PrepareFile(files: Tree<Content>, patch: FilePatch, authorized: bool, printer: Printer, layout: Layout):
    Result<seq<Mutation>, NsgError>
  {
    var path := layout.resolve(patch.target);
    if patch.operations == [] || path.None? then Err(Invalid)
    else if |patch.operations| == 1 && patch.operations[0].CreateNode? then
      PrepareCreate(files, path.value, patch.operations[0], authorized, printer)
    else if Creates(patch.operations) then Err(Invalid)
    else
      var read := Read(files, path.value, printer);
      if read.Err? then Err(Invalid)
      else
        var performed := PerformAll(read.value, patch.operations, path.value, authorized, printer, layout);
        if performed.Err? || !Valid(performed.value.node) then Err(Invalid)
        else
          Ok(performed.value.mutations
             + [PreparedCommit.Write(path.value, NodeText(printer.render(performed.value.node)))])
  }

  function PrepareAll(files: Tree<Content>, patches: seq<FilePatch>, authorized: bool, printer: Printer,
                      layout: Layout):
    Result<seq<Mutation>, NsgError>
  {
    if patches == [] then Ok([])
    else
      var init, last := patches[..|patches| - 1], patches[|patches| - 1];
      var before := PrepareAll(files, init, authorized, printer, layout);
      var prepared := PrepareFile(files, last, authorized, printer, layout);
      if before.Err? || prepared.Err? || last.target in Targets(init) then Err(Invalid)
      else Ok(before.value + prepared.value)
  }

  function Targets(patches: seq<FilePatch>): set<string> {
    set patch | patch in patches :: patch.target
  }

  // A patch is accepted when it prepares and no two of its writes hit one file.
  predicate Accepted(files: Tree<Content>, patches: seq<FilePatch>, authorized: bool, printer: Printer, layout: Layout)
  {
    var prepared := PrepareAll(files, patches, authorized, printer, layout);
    prepared.Ok? && PreparedCommit.DistinctTargets(prepared.value)
  }

  function Committed(files: Tree<Content>, patches: seq<FilePatch>, authorized: bool, printer: Printer, layout: Layout):
    Tree<Content>
    requires PrepareAll(files, patches, authorized, printer, layout).Ok?
  {
    PreparedCommit.ApplyAll(files, PrepareAll(files, patches, authorized, printer, layout).value)
  }

  // The loop over the operations of one file.
  method PrepareOne(files: Tree<Content>, patch: FilePatch, authorized: bool, printer: Printer, layout: Layout)
    returns (r: Result<seq<Mutation>, NsgError>)
    ensures r == PrepareFile(files, patch, authorized, printer, layout)
  {
    var operations, path := patch.operations, layout.resolve(patch.target);
    if operations == [] || path.None? {
      return Err(Invalid);
    }
    if |operations| == 1 && operations[0].CreateNode? {
      return PrepareCreate(files, path.value, operations[0], authorized, printer);
    }
    if Creates(operations) {
      return Err(Invalid);
    }
    var read := Read(files, path.value, printer);
    if read.Err? {
      return Err(Invalid);
    }
    var node, mutations := read.value, [];
    for i := 0 to |operations|
      invariant PerformAll(read.value, operations[..i], path.value, authorized, printer, layout)
                  == Ok(Progress(node, mutations))
    {
      assert operations[..i + 1][..i] == operations[..i];
      var step := Perform(Progress(node, mutations), operations[i], path.value, authorized, printer, layout);
      if step.Err? {
        PerformFails(read.value, operations, i + 1, path.value, authorized, printer, layout);
        return Err(Invalid);
      }
      node, mutations := step.value.node, step.value.mutations;
    }
    assert operations[..|operations|] == operations;
    if !Valid(node) {
      return Err(Invalid);
    }
    r := Ok(mutations + [PreparedCommit.Write(path.value, NodeText(printer.render(node)))]);
  }

  lemma {:induction false} PerformFails(n: Node, operations: seq<Operation>, i: nat, path: Path, authorized: bool,
                                        printer: Printer, layout: Layout)
    requires i <= |operations| && PerformAll(n, operations[..i], path, authorized, printer, layout).Err?
    ensures PerformAll(n, operations, path, authorized, printer, layout).Err?
    decreases |operations| - i
  {
    if i == |operations| {
      assert operations[..i] == operations;
    } else {
      assert operations[..i + 1][..i] == operations[..i];
      PerformFails(n, operations, i + 1, path, authorized, printer, layout);
    }
  }

  // The loop over the patched files.
  method PreparePatch(files: Tree<Content>, patches: seq<FilePatch>, authorized: bool, printer: Printer, layout: Layout)
    returns (r: Result<seq<Mutation>, NsgError>)
    ensures r == PrepareAll(files, patches, authorized, printer, layout)
  {
    var touched: set<string> := {};
    var mutations := [];
    for i := 0 to |patches|
      invariant PrepareAll(files, patches[..i], authorized, printer, layout) == Ok(mutations)
      invariant touched == Targets(patches[..i])
    {
      var patch := patches[i];
      assert patches[..i] + [patch] == patches[..i + 1];
      PrepareMore(files, patches[..i], patch, authorized, printer, layout);
      var prepared := PrepareOne(files, patch, authorized, printer, layout);
      if patch.target in touched || prepared.Err? {
        PrepareFails(files, patches, i + 1, authorized, printer, layout);
        return Err(Invalid);
      }
      mutations := mutations + prepared.value;
      touched := touched + {patch.target};
    }
    assert patches[..|patches|] == patches;
    r := Ok(mutations);
  }

  lemma PrepareMore(files: Tree<Content>, patches: seq<FilePatch>, patch: FilePatch, authorized: bool, printer: Printer,
                    layout: Layout)
    requires PrepareAll(files, patches, authorized, printer, layout).Ok?
    ensures PrepareAll(files, patches + [patch], authorized, printer, layout)
         == var prepared := PrepareFile(files, patch, authorized, printer, layout);
            if prepared.Err? || patch.target in Targets(patches) then Err(Invalid)
            else Ok(PrepareAll(files, patches, authorized, printer, layout).value + prepared.value)
    ensures Targets(patches + [patch]) == Targets(patches) + {patch.target}
  {
    assert (patches + [patch])[..|patches|] == patches;
    TargetsMore(patches, patch);
  }

  lemma TargetsMore(patches: seq<FilePatch>, patch: FilePatch)
    ensures Targets(patches + [patch]) == Targets(patches) + {patch.target}
  {
    assert forall p :: p in patches + [patch] <==> p in patches || p == patch;
  }

  lemma {:induction false} PrepareFails(files: Tree<Content>, patches: seq<FilePatch>, i: nat, authorized: bool,
                                        printer: Printer, layout: Layout)
    requires i <= |patches| && PrepareAll(files, patches[..i], authorized, printer, layout).Err?
    ensures PrepareAll(files, patches, authorized, printer, layout) == Err(Invalid)
    decreases |patches| - i
  {
    if i == |patches| {
      assert patches[..i] == patches;
    } else {
      assert patches[..i + 1][..i] == patches[..i];
      PrepareFails(files, patches, i + 1, authorized, printer, layout);
    }
  }

  // ---- What a change does ----

  predicate SameKey(a: Edge, b: Edge) {
    a.category == b.category && a.relation == b.relation && a.target == b.target
  }

  /** Adding an edge is idle when the node has it, refused for an invalid edge or another of the same category,
      relation and target, and otherwise puts it behind the others. */
  lemma AddsExactly(n: Node, edge: Edge, printer: Printer)
    requires Valid(n)
    ensures ApplyChange(n, AddEdge(edge), printer) ==
            if !ValidEdge(edge) then Err(Invalid)
            else if edge in n.edges then Ok(n)
            else if exists e | e in n.edges :: SameKey(e, edge) then Err(Invalid)
            else Ok(n.(edges := n.edges + [edge]))
  {
    assert forall e | e in n.edges :: SameKey(e, edge) <==> Key(e) == Key(edge);
    if ValidEdge(edge) && edge !in n.edges && !exists e | e in n.edges :: Key(e) == Key(edge) {
      var more := n.edges + [edge];
      forall i, j | 0 <= i < j < |more| ensures Key(more[i]) != Key(more[j]) {
        assert more[i] in n.edges;
      }
    }
  }

  /** Removing one takes out the edge of that category, relation and target, if there is one, and keeps the others
      in order. */
  lemma RemovesExactly(n: Node, key: (string, string, string), printer: Printer)
    requires Valid(n)
    ensures var r := ApplyChange(n, RemoveEdge(key), printer);
            && r.Ok? && r.value == n.(edges := r.value.edges)
            && (forall i | 0 <= i < |n.edges| && (n.edges[i].category, n.edges[i].relation, n.edges[i].target) == key ::
                  r.value.edges == n.edges[..i] + n.edges[i + 1..])
            && ((forall e | e in n.edges :: (e.category, e.relation, e.target) != key) ==> r.value == n)
  {
    forall i | 0 <= i < |n.edges| && (n.edges[i].category, n.edges[i].relation, n.edges[i].target) == key
      ensures WithoutKey(n.edges, key) == n.edges[..i] + n.edges[i + 1..]
    {
      WithoutOne(n.edges, key, i);
    }
    WithoutKeeps(n.edges, key);
    assert Edited(n, RemoveEdge(key), printer) == n.(edges := WithoutKey(n.edges, key));
    if forall e | e in n.edges :: (e.category, e.relation, e.target) != key {
      assert forall e | e in n.edges :: Key(e) != key;
      WithoutNone(n.edges, key);
      assert n.(edges := n.edges) == n;
    }
  }

  lemma {:induction false} WithoutKeeps(edges: seq<Edge>, key: (string, string, string))
    requires DistinctKeys(edges)
    ensures DistinctKeys(WithoutKey(edges, key)) && forall e | e in WithoutKey(edges, key) :: e in edges
  {
    if edges != [] {
      var init, last := edges[..|edges| - 1], edges[|edges| - 1];
      WithoutKeeps(init, key);
      var rest := WithoutKey(init, key);
      assert edges == init + [last];
      forall i | 0 <= i < |rest| ensures Key(rest[i]) != Key(last) {
        assert rest[i] in rest && rest[i] in init;
        var k :| 0 <= k < |init| && init[k] == rest[i];
        assert edges[k] == rest[i];
      }
    }
  }

  lemma {:induction false} WithoutNone(edges: seq<Edge>, key: (string, string, string))
    requires forall e | e in edges :: Key(e) != key
    ensures WithoutKey(edges, key) == edges
  {
    if edges != [] {
      var init, last := edges[..|edges| - 1], edges[|edges| - 1];
      assert edges == init + [last];
      WithoutNone(init, key);
    }
  }

  lemma WithoutLast(edges: seq<Edge>, key: (string, string, string))
    requires DistinctKeys(edges) && edges != [] && Key(edges[|edges| - 1]) == key
    ensures WithoutKey(edges, key) == edges[..|edges| - 1]
  {
    var n := |edges| - 1;
    forall e | e in edges[..n] ensures Key(e) != key {
      var k :| 0 <= k < n && edges[..n][k] == e;
      assert Key(edges[k]) != Key(edges[n]);
    }
    WithoutNone(edges[..n], key);
  }

  lemma {:induction false} WithoutOne(edges: seq<Edge>, key: (string, string, string), i: nat)
    requires DistinctKeys(edges) && i < |edges| && Key(edges[i]) == key
    ensures WithoutKey(edges, key) == edges[..i] + edges[i + 1..]
  {
    var n := |edges| - 1;
    if i == n {
      WithoutLast(edges, key);
      assert edges[n + 1..] == [];
    } else {
      var init := edges[..n];
      assert init[i] == edges[i] && Key(edges[n]) != key;
      WithoutOne(init, key, i);
      assert edges[i + 1..] == init[i + 1..] + [edges[n]];
    }
  }

  /** Archiving needs a reason that is not blank and changes the status alone. */
  lemma ArchivesExactly(n: Node, reason: string, printer: Printer)
    requires Valid(n)
    ensures ApplyChange(n, ArchiveNode(reason), printer)
            == if Trim(reason) == "" then Err(Invalid) else Ok(n.(status := Archived))
  {
  }

  // A field takes the value that is given and otherwise stays.
  predicate Takes<T(==)>(given: Option<T>, before: T, after: T) {
    after == match given case Some(value) => value case None => before
  }

  /** An update gives each of its fields its new value, leaves every other field, and is refused exactly when the
      result is no valid node. */
  lemma UpdatesExactly(n: Node, u: NodeUpdate, printer: Printer)
    ensures exists m: Node ::
              && Takes(if u.anchors.Some? then Some(printer.list(u.anchors.value)) else None, n.anchors, m.anchors)
              && Takes(u.condition, n.condition, m.condition) && Takes(u.trigger, n.trigger, m.trigger)
              && Takes(u.consequence, n.consequence, m.consequence) && Takes(u.constraint, n.constraint, m.constraint)
              && m == n.(anchors := m.anchors, condition := m.condition, trigger := m.trigger,
                         consequence := m.consequence, constraint := m.constraint)
              && ApplyChange(n, UpdateNode(u), printer) == if Valid(m) then Ok(m) else Err(Invalid)
  {
    var m := Edited(n, UpdateNode(u), printer);
    assert ApplyChange(n, UpdateNode(u), printer) == if Valid(m) then Ok(m) else Err(Invalid);
  }

  lemma FrontmatterExactly(n: Node, u: MetadataUpdate, printer: Printer)
    ensures exists m: Node ::
              && Takes(u.importance, n.importance, m.importance) && Takes(u.mode, n.mode, m.mode)
              && Takes(u.status, n.status, m.status) && Takes(u.graphId, n.graphId, m.graphId)
              && Takes(u.sourceCharacterIds, n.sourceCharacterIds, m.sourceCharacterIds)
              && Takes(u.injectCharacterIds, n.injectCharacterIds, m.injectCharacterIds)
              && m == n.(importance := m.importance, mode := m.mode, status := m.status, graphId := m.graphId,
                         sourceCharacterIds := m.sourceCharacterIds, injectCharacterIds := m.injectCharacterIds)
              && ApplyChange(n, UpdateFrontmatter(u), printer) == if Valid(m) then Ok(m) else Err(Invalid)
  {
    var m := Edited(n, UpdateFrontmatter(u), printer);
    assert ApplyChange(n, UpdateFrontmatter(u), printer) == if Valid(m) then Ok(m) else Err(Invalid);
  }

  // ---- What a patch does ----

  // Without authorization a change of a Canon node waits, and so does one that would make a node Canon.
  predicate Waits(n: Node, change: Change, authorized: bool) {
    !authorized && (n.mode == Canon || (change.UpdateFrontmatter? && change.metadata.mode == Some(Canon)))
  }

  // The nodes that the operations of one file go through: a proposal needs evidence and leaves the node, and so
  // does a change that waits; any other change is applied.
  ghost predicate IsCourse(n: Node, operations: seq<Operation>, authorized: bool, nodes: seq<Node>, printer: Printer) {
    && |nodes| == |operations| + 1 && nodes[0] == n
    && forall i :: 0 <= i < |operations| ==> Proceeds(nodes[i], operations[i], authorized, nodes[i + 1], printer)
  }

  predicate Proceeds(n: Node, operation: Operation, authorized: bool, n': Node, printer: Printer) {
    match operation
    case CreateNode(_, _) => false
    case Revise(candidate) => Trim(candidate.evidence) != "" && n' == n
    case Alter(change) => if Waits(n, change, authorized) then n' == n else ApplyChange(n, change, printer) == Ok(n')
  }

  // What an operation parks, if anything.
  function Leaves(n: Node, operation: Operation, authorized: bool): Option<Candidate> {
    match operation
    case CreateNode(_, _) => None
    case Revise(candidate) => Some(candidate)
    case Alter(change) =>
      if Waits(n, change, authorized)
      then Some(Candidate("Automatic change was blocked by Canon protection.", [change], "blocked_canon_mutation"))
      else None
  }

  // The writes of what the course parks, in order.
  function Parked(nodes: seq<Node>, operations: seq<Operation>, authorized: bool, path: Path, layout: Layout):
    seq<Mutation>
    requires |nodes| == |operations| + 1
  {
    if operations == [] then []
    else
      var k := |operations| - 1;
      var before := Parked(nodes[..k + 1], operations[..k], authorized, path, layout);
      match Leaves(nodes[k], operations[k], authorized)
      case None => before
      case Some(c) =>
        before + [PreparedCommit.Write(layout.pendingAt(path, nodes[k].id, c.reason, c.changes), Pending(c))]
  }

  lemma StepsExactly(p: Progress, operation: Operation, path: Path, authorized: bool, printer: Printer, layout: Layout)
    ensures var r := Perform(p, operation, path, authorized, printer, layout);
            && (r.Ok? <==> exists n' :: Proceeds(p.node, operation, authorized, n', printer))
            && (r.Ok? ==>
                  && Proceeds(p.node, operation, authorized, r.value.node, printer)
                  && r.value.mutations == match Leaves(p.node, operation, authorized)
                     case None => p.mutations
                     case Some(c) =>
                       p.mutations
                       + [PreparedCommit.Write(layout.pendingAt(path, p.node.id, c.reason, c.changes), Pending(c))])
  {
    var r := Perform(p, operation, path, authorized, printer, layout);
    assert BLOCKED_EVIDENCE[0] == 'b';
    if r.Ok? {
      assert Proceeds(p.node, operation, authorized, r.value.node, printer);
    }
  }

  lemma OneCourse(a: Node, b: Node, n: Node, operation: Operation, authorized: bool, printer: Printer)
    requires Proceeds(n, operation, authorized, a, printer) && Proceeds(n, operation, authorized, b, printer)
    ensures a == b
  {
  }

  /** The operations on one file are performed exactly when there is such a course, and then they end in its last
      node and park what it leaves. */
  lemma {:induction false} OperationsExactly(n: Node, operations: seq<Operation>, path: Path, authorized: bool,
                                             printer: Printer, layout: Layout)
    ensures var r := PerformAll(n, operations, path, authorized, printer, layout);
            && (r.Ok? <==> exists nodes :: IsCourse(n, operations, authorized, nodes, printer))
            && (forall nodes | IsCourse(n, operations, authorized, nodes, printer) ::
                  r == Ok(Progress(nodes[|operations|], Parked(nodes, operations, authorized, path, layout))))
  {
    if operations == [] {
      assert IsCourse(n, operations, authorized, [n], printer);
    } else {
      var k := |operations| - 1;
      var init, last := operations[..k], operations[k];
      OperationsExactly(n, init, path, authorized, printer, layout);
      var before := PerformAll(n, init, path, authorized, printer, layout);
      forall nodes | IsCourse(n, operations, authorized, nodes, printer)
        ensures PerformAll(n, operations, path, authorized, printer, layout)
                == Ok(Progress(nodes[k + 1], Parked(nodes, operations, authorized, path, layout)))
      {
        CourseEnds(n, operations, authorized, nodes, path, printer, layout);
      }
      if before.Ok? {
        var nodes :| IsCourse(n, init, authorized, nodes, printer);
        StepsExactly(before.value, last, path, authorized, printer, layout);
        if PerformAll(n, operations, path, authorized, printer, layout).Ok? {
          var end := Perform(before.value, last, path, authorized, printer, layout).value.node;
          CourseGoesOn(n, operations, authorized, nodes, end, printer);
        }
      }
    }
  }

  lemma CourseGoesOn(n: Node, operations: seq<Operation>, authorized: bool, nodes: seq<Node>, end: Node,
                     printer: Printer)
    requires operations != [] && IsCourse(n, operations[..|operations| - 1], authorized, nodes, printer)
    requires Proceeds(nodes[|operations| - 1], operations[|operations| - 1], authorized, end, printer)
    ensures IsCourse(n, operations, authorized, nodes + [end], printer)
  {
    var all := nodes + [end];
    forall i | 0 <= i < |operations| ensures Proceeds(all[i], operations[i], authorized, all[i + 1], printer) {
      if i < |operations| - 1 {
        assert operations[..|operations| - 1][i] == operations[i];
      }
    }
  }

  lemma CourseEnds(n: Node, operations: seq<Operation>, authorized: bool, nodes: seq<Node>, path: Path,
                   printer: Printer, layout: Layout)
    requires operations != [] && IsCourse(n, operations, authorized, nodes, printer)
    requires var k := |operations| - 1;
             forall others | IsCourse(n, operations[..k], authorized, others, printer) ::
               PerformAll(n, operations[..k], path, authorized, printer, layout)
               == Ok(Progress(others[k], Parked(others, operations[..k], authorized, path, layout)))
    ensures PerformAll(n, operations, path, authorized, printer, layout)
            == Ok(Progress(nodes[|operations|], Parked(nodes, operations, authorized, path, layout)))
  {
    var k := |operations| - 1;
    var init := nodes[..k + 1];
    assert IsCourse(n, operations[..k], authorized, init, printer);
    var before := Progress(init[k], Parked(init, operations[..k], authorized, path, layout));
    assert PerformAll(n, operations[..k], path, authorized, printer, layout) == Ok(before);
    StepsExactly(before, operations[k], path, authorized, printer, layout);
    assert Proceeds(nodes[k], operations[k], authorized, nodes[k + 1], printer);
    var r := Perform(before, operations[k], path, authorized, printer, layout);
    OneCourse(r.value.node, nodes[k + 1], nodes[k], operations[k], authorized, printer);
  }

  // A node that the patch creates as its only operation, or a course of other operations on one that is there.
  ghost predicate FileAccepted(files: Tree<Content>, patch: FilePatch, path: Path, authorized: bool, printer: Printer) {
    if |patch.operations| == 1 && patch.operations[0].CreateNode? then
      var n := patch.operations[0].node.(anchors := printer.list(patch.operations[0].anchors));
      && Valid(n) && (authorized || n.mode == Draft)
      && (path !in files || Read(files, path, printer) == Ok(n))
    else
      && patch.operations != [] && Read(files, path, printer).Ok?
      && exists nodes :: IsCourse(Read(files, path, printer).value, patch.operations, authorized, nodes, printer)
  }

  lemma CourseStaysValid(n: Node, operations: seq<Operation>, authorized: bool, nodes: seq<Node>, printer: Printer,
                         i: nat)
    requires Valid(n) && IsCourse(n, operations, authorized, nodes, printer) && i <= |operations|
    ensures Valid(nodes[i])
  {
    if i > 0 {
      CourseStaysValid(n, operations, authorized, nodes, printer, i - 1);
      assert Proceeds(nodes[i - 1], operations[i - 1], authorized, nodes[i], printer);
    }
  }

  lemma CoursesCreateNothing(n: Node, operations: seq<Operation>, authorized: bool, nodes: seq<Node>, printer: Printer)
    requires IsCourse(n, operations, authorized, nodes, printer)
    ensures !Creates(operations)
  {
    forall i | 0 <= i < |operations| ensures !operations[i].CreateNode? {
      assert Proceeds(nodes[i], operations[i], authorized, nodes[i + 1], printer);
    }
  }

  /** A file's patch is refused exactly when it is neither; a node is created once, and a course writes its last
      node behind what it parks. */
  lemma FileExactly(files: Tree<Content>, patch: FilePatch, path: Path, authorized: bool, printer: Printer,
                    layout: Layout)
    requires Trusty(printer) && layout.resolve(patch.target) == Some(path)
    ensures var r := PrepareFile(files, patch, authorized, printer, layout);
            && (r.Ok? <==> FileAccepted(files, patch, path, authorized, printer))
            && (r.Ok? && |patch.operations| == 1 && patch.operations[0].CreateNode? ==>
                  var n := patch.operations[0].node.(anchors := printer.list(patch.operations[0].anchors));
                  r.value == if path in files then [] else [PreparedCommit.Write(path, NodeText(printer.render(n)))])
            && (r.Ok? && !(|patch.operations| == 1 && patch.operations[0].CreateNode?) ==>
                  forall nodes
                    | IsCourse(Read(files, path, printer).value, patch.operations, authorized, nodes, printer) ::
                    r.value == Parked(nodes, patch.operations, authorized, path, layout)
                                  + [PreparedCommit.Write(path, NodeText(printer.render(nodes[|patch.operations|])))])
  {
    if patch.operations != [] && !(|patch.operations| == 1 && patch.operations[0].CreateNode?)
       && Read(files, path, printer).Ok?
    {
      var n := Read(files, path, printer).value;
      OperationsExactly(n, patch.operations, path, authorized, printer, layout);
      if nodes :| IsCourse(n, patch.operations, authorized, nodes, printer) {
        CoursesCreateNothing(n, patch.operations, authorized, nodes, printer);
        CourseStaysValid(n, patch.operations, authorized, nodes, printer, |patch.operations|);
      }
    }
  }

  function Join(parts: seq<seq<Mutation>>): seq<Mutation> {
    if parts == [] then [] else Join(parts[..|parts| - 1]) + parts[|parts| - 1]
  }

  // The mutations of the files in turn.
  ghost predicate InTurn(files: Tree<Content>, patches: seq<FilePatch>, mutations: seq<Mutation>, authorized: bool,
                         printer: Printer, layout: Layout)
  {
    exists parts: seq<seq<Mutation>> ::
      && |parts| == |patches| && mutations == Join(parts)
      && forall i :: 0 <= i < |patches| ==> PrepareFile(files, patches[i], authorized, printer, layout) == Ok(parts[i])
  }

  lemma InTurnMore(files: Tree<Content>, patches: seq<FilePatch>, patch: FilePatch, mutations: seq<Mutation>,
                   more: seq<Mutation>, authorized: bool, printer: Printer, layout: Layout)
    requires InTurn(files, patches, mutations, authorized, printer, layout)
    requires PrepareFile(files, patch, authorized, printer, layout) == Ok(more)
    ensures InTurn(files, patches + [patch], mutations + more, authorized, printer, layout)
  {
    hide PrepareFile;
    var parts: seq<seq<Mutation>> :|
      && |parts| == |patches| && mutations == Join(parts)
      && forall i :: 0 <= i < |patches| ==> PrepareFile(files, patches[i], authorized, printer, layout) == Ok(parts[i]);
    var all := parts + [more];
    assert all[..|parts|] == parts;
    assert |all| == |patches + [patch]| && mutations + more == Join(all);
  }

  /** A patch is refused exactly when one of its files is, or two name the same target. */
  lemma {:induction false} RefusesExactly(files: Tree<Content>, patches: seq<FilePatch>, authorized: bool,
                                          printer: Printer, layout: Layout)
    ensures PrepareAll(files, patches, authorized, printer, layout).Ok? <==>
              && (forall i, j :: 0 <= i < j < |patches| ==> patches[i].target != patches[j].target)
              && (forall i :: 0 <= i < |patches| ==> PrepareFile(files, patches[i], authorized, printer, layout).Ok?)
  {
    hide PrepareFile, PrepareAll, Targets;
    if patches != [] {
      var k := |patches| - 1;
      RefusesExactly(files, patches[..k], authorized, printer, layout);
      TargetsOf(patches[..k], patches[k].target);
      OneMoreFile(files, patches, authorized, printer, layout);
    } else {
      NoFiles(files, authorized, printer, layout);
    }
  }

  lemma NoFiles(files: Tree<Content>, authorized: bool, printer: Printer, layout: Layout)
    ensures PrepareAll(files, [], authorized, printer, layout) == Ok([])
  {
  }

  lemma OneMoreFile(files: Tree<Content>, patches: seq<FilePatch>, authorized: bool, printer: Printer, layout: Layout)
    requires patches != []
    ensures var init, last := patches[..|patches| - 1], patches[|patches| - 1];
            var before, prepared := PrepareAll(files, init, authorized, printer, layout),
              PrepareFile(files, last, authorized, printer, layout);
            PrepareAll(files, patches, authorized, printer, layout) ==
              if before.Err? || prepared.Err? || last.target in Targets(init) then Err(Invalid)
              else Ok(before.value + prepared.value)
  {
  }

  /** Otherwise its mutations are those of its files in turn. */
  lemma {:induction false} FilesExactly(files: Tree<Content>, patches: seq<FilePatch>, authorized: bool,
                                        printer: Printer, layout: Layout)
    requires PrepareAll(files, patches, authorized, printer, layout).Ok?
    ensures InTurn(files, patches, PrepareAll(files, patches, authorized, printer, layout).value, authorized, printer,
                   layout)
  {
    hide PrepareFile, InTurn;
    if patches != [] {
      var k := |patches| - 1;
      FilesExactly(files, patches[..k], authorized, printer, layout);
      assert patches == patches[..k] + [patches[k]];
      InTurnMore(files, patches[..k], patches[k], PrepareAll(files, patches[..k], authorized, printer, layout).value,
                 PrepareFile(files, patches[k], authorized, printer, layout).value, authorized, printer, layout);
    } else {
      NothingInTurn(files, authorized, printer, layout);
    }
  }

  lemma TargetsOf(patches: seq<FilePatch>, target: string)
    ensures target in Targets(patches) <==> exists i :: 0 <= i < |patches| && patches[i].target == target
  {
  }

  lemma NothingInTurn(files: Tree<Content>, authorized: bool, printer: Printer, layout: Layout)
    ensures InTurn(files, [], [], authorized, printer, layout)
  {
    assert Join([]) == [];
  }

  // ---- Canon protection ----

  ghost predicate IsParked(path: Path, layout: Layout) {
    exists at: Path, id: string, reason: string, changes: seq<Change> ::
      layout.pendingAt(at, id, reason, changes) == path
  }

  ghost predicate IsTarget(path: Path, layout: Layout) {
    exists target: string :: layout.resolve(target) == Some(path)
  }

  // Candidates are parked away from the nodes.
  ghost predicate Sound(layout: Layout) {
    forall path: Path :: !(IsParked(path, layout) && IsTarget(path, layout))
  }

  predicate IsCanon(files: Tree<Content>, path: Path, printer: Printer) {
    Read(files, path, printer).Ok? && Read(files, path, printer).value.mode == Canon
  }

  // An unauthorized write parks a candidate, writes a draft, or writes a Canon node as it was read.
  ghost predicate Harmless(files: Tree<Content>, m: Mutation, printer: Printer, layout: Layout) {
    match m
    case Delete(_) => false
    case Write(path, Pending(_)) => IsParked(path, layout)
    case Write(path, NodeText(text)) => IsTarget(path, layout) && exists n :: Writes(files, path, n, text, printer)
  }

  ghost predicate Writes(files: Tree<Content>, path: Path, n: Node, text: string, printer: Printer) {
    && Valid(n) && text == printer.render(n)
    && (if IsCanon(files, path, printer) then Read(files, path, printer) == Ok(n) else n.mode == Draft)
  }

  ghost predicate AllHarmless(files: Tree<Content>, mutations: seq<Mutation>, printer: Printer, layout: Layout) {
    forall m | m in mutations :: Harmless(files, m, printer, layout)
  }

  lemma ApplyKeepsDraft(n: Node, change: Change, printer: Printer)
    requires n.mode == Draft && !PromotesCanon(change) && ApplyChange(n, change, printer).Ok?
    ensures ApplyChange(n, change, printer).value.mode == Draft
  {
  }

  lemma {:induction false} PerformIsHarmless(files: Tree<Content>, n: Node, operations: seq<Operation>, path: Path,
                                             printer: Printer, layout: Layout)
    requires PerformAll(n, operations, path, false, printer, layout).Ok?
    ensures var p := PerformAll(n, operations, path, false, printer, layout).value;
            && AllHarmless(files, p.mutations, printer, layout)
            && p.node.mode == n.mode && (n.mode == Canon ==> p.node == n)
  {
    if operations != [] {
      var k := |operations| - 1;
      PerformIsHarmless(files, n, operations[..k], path, printer, layout);
      var before := PerformAll(n, operations[..k], path, false, printer, layout).value;
      match operations[k]
      case CreateNode(_, _) =>
      case Revise(candidate) =>
        assert IsParked(layout.pendingAt(path, before.node.id, candidate.reason, candidate.changes), layout);
      case Alter(change) =>
        assert IsParked(layout.pendingAt(path, before.node.id, BLOCKED, [change]), layout);
        if before.node.mode == Draft && !PromotesCanon(change) {
          ApplyKeepsDraft(before.node, change, printer);
        }
    }
  }

  lemma FileIsHarmless(files: Tree<Content>, patch: FilePatch, printer: Printer, layout: Layout)
    requires PrepareFile(files, patch, false, printer, layout).Ok?
    ensures AllHarmless(files, PrepareFile(files, patch, false, printer, layout).value, printer, layout)
  {
    var path := layout.resolve(patch.target).value;
    assert IsTarget(path, layout);
    if |patch.operations| == 1 && patch.operations[0].CreateNode? {
      var n := patch.operations[0].node.(anchors := printer.list(patch.operations[0].anchors));
      if path !in files {
        assert Writes(files, path, n, printer.render(n), printer);
      }
    } else {
      var n := Read(files, path, printer).value;
      PerformIsHarmless(files, n, patch.operations, path, printer, layout);
      var node := PerformAll(n, patch.operations, path, false, printer, layout).value.node;
      assert Writes(files, path, node, printer.render(node), printer);
    }
  }

  lemma {:induction false} PatchIsHarmless(files: Tree<Content>, patches: seq<FilePatch>, printer: Printer,
                                           layout: Layout)
    requires PrepareAll(files, patches, false, printer, layout).Ok?
    ensures AllHarmless(files, PrepareAll(files, patches, false, printer, layout).value, printer, layout)
  {
    if patches != [] {
      PatchIsHarmless(files, patches[..|patches| - 1], printer, layout);
      FileIsHarmless(files, patches[|patches| - 1], printer, layout);
    }
  }

  // What one accepted automatic patch does to one node file.
  lemma PatchSparesCanon(files: Tree<Content>, patches: seq<FilePatch>, after: Tree<Content>, printer: Printer,
                         layout: Layout, path: Path)
    requires Trusty(printer) && Sound(layout) && IsTarget(path, layout)
    requires Patched(files, patches, after, printer, layout)
    requires IsCanon(files, path, printer) ==> NoReturns(Read(files, path, printer).value)
    ensures SparesCanon(files, after, path, printer)
  {
    var mutations := PrepareAll(files, patches, false, printer, layout).value;
    PatchIsHarmless(files, patches, printer, layout);
    PreparedCommit.ApplyAllLooks(files, mutations);
    if m :| m in mutations && m.path == path {
      assert Harmless(files, m, printer, layout);
      assert Look(after, path) == m.After();
      var n :| Writes(files, path, n, m.content.text, printer);
      WrittenReads(files, path, n, printer);
    } else {
      assert Look(after, path) == Look(files, path);
      assert Read(after, path, printer) == Read(files, path, printer);
    }
  }

  // A written node reads back as itself if it was a parsed Canon node, and never as a new Canon node.
  lemma WrittenReads(files: Tree<Content>, path: Path, n: Node, printer: Printer)
    requires Trusty(printer) && Writes(files, path, n, printer.render(n), printer)
    ensures var read := printer.parse(printer.render(n));
            && (IsCanon(files, path, printer) && NoReturns(n) ==> read == Ok(n))
            && (read.Ok? && read.value.mode == Canon ==> IsCanon(files, path, printer))
  {
    if IsCanon(files, path, printer) && NoReturns(n) {
      assert printer.parse(files[path].text) == Ok(n);
    }
  }

  // Some file patch other than a creation names the node, so its file is written anew.
  predicate Rewrites(patches: seq<FilePatch>, path: Path, layout: Layout) {
    exists patch | patch in patches :: layout.resolve(patch.target) == Some(path) && !Creates(patch.operations)
  }

  lemma {:induction false} RewrittenIsWritten(files: Tree<Content>, patches: seq<FilePatch>, path: Path,
                                              printer: Printer, layout: Layout)
    requires PrepareAll(files, patches, false, printer, layout).Ok? && Rewrites(patches, path, layout)
    ensures exists m | m in PrepareAll(files, patches, false, printer, layout).value :: m.path == path
  {
    var init, last := patches[..|patches| - 1], patches[|patches| - 1];
    var mutations := PrepareAll(files, patches, false, printer, layout).value;
    if layout.resolve(last.target) == Some(path) && !Creates(last.operations) {
      assert mutations[|mutations| - 1].path == path;
    } else {
      assert forall patch | patch in patches :: patch in init || patch == last;
      RewrittenIsWritten(files, init, path, printer, layout);
      var m :| m in PrepareAll(files, init, false, printer, layout).value && m.path == path;
      assert m in mutations;
    }
  }

  /** An automatic patch that names a Canon node changes nothing of it, yet writes its file anew: in the
      graph's text form the node keeps its content exactly when no edge target ends in a carriage return. */
  lemma CanonSurvivesExactly(files: Tree<Content>, patches: seq<FilePatch>, after: Tree<Content>, codec: Codec,
                             layout: Layout, path: Path)
    requires Faithful(codec) && Sound(layout) && IsTarget(path, layout)
    requires Patched(files, patches, after, TextPrinter(codec), layout) && Rewrites(patches, path, layout)
    requires IsCanon(files, path, TextPrinter(codec))
    ensures Read(after, path, TextPrinter(codec)) == Read(files, path, TextPrinter(codec))
            <==> NoReturns(Read(files, path, TextPrinter(codec)).value)
  {
    var printer := TextPrinter(codec);
    var mutations := PrepareAll(files, patches, false, printer, layout).value;
    PatchIsHarmless(files, patches, printer, layout);
    PreparedCommit.ApplyAllLooks(files, mutations);
    RewrittenIsWritten(files, patches, path, printer, layout);
    var m :| m in mutations && m.path == path;
    assert Harmless(files, m, printer, layout);
    assert Look(after, path) == m.After();
    var n :| Writes(files, path, n, m.content.text, printer);
    ReprintingIsStable(files[path].text, codec);
  }

  // ---- Runs of automatic patches ----

  // An automatic patch was accepted and committed.
  ghost predicate Patched(files: Tree<Content>, patches: seq<FilePatch>, files': Tree<Content>, printer: Printer,
                          layout: Layout)
  {
    Accepted(files, patches, false, printer, layout) && files' == Committed(files, patches, false, printer, layout)
  }

  ghost predicate IsRun(run: seq<Tree<Content>>, patches: seq<seq<FilePatch>>, printer: Printer, layout: Layout) {
    && |run| == |patches| + 1
    && forall i :: 0 <= i < |patches| ==> Patched(run[i], patches[i], run[i + 1], printer, layout)
  }

  // A Canon node keeps its content and no other node becomes Canon.
  ghost predicate SparesCanon(files: Tree<Content>, files': Tree<Content>, path: Path, printer: Printer) {
    && (IsCanon(files, path, printer) ==> Read(files', path, printer) == Read(files, path, printer))
    && (IsCanon(files', path, printer) ==> IsCanon(files, path, printer))
  }

  /** Over any sequence of accepted automatic patches, a Canon node keeps its content and no other node
      becomes Canon. (A Canon node with an edge target ending in a carriage return does not survive
      printing, whoever prints it.) */
  lemma {:induction false} CanonIsProtected(run: seq<Tree<Content>>, patches: seq<seq<FilePatch>>, printer: Printer,
                                            layout: Layout, path: Path)
    requires Trusty(printer) && Sound(layout) && IsTarget(path, layout) && IsRun(run, patches, printer, layout)
    requires IsCanon(run[0], path, printer) ==> NoReturns(Read(run[0], path, printer).value)
    ensures SparesCanon(run[0], run[|patches|], path, printer)
  {
    if patches != [] {
      var k := |patches|;
      var init, before := run[..k], patches[..k - 1];
      forall i | 0 <= i < k - 1 ensures Patched(init[i], before[i], init[i + 1], printer, layout) {
        assert Patched(run[i], patches[i], run[i + 1], printer, layout);
      }
      CanonIsProtected(init, before, printer, layout, path);
      assert init[k - 1] == run[k - 1];
      PatchSparesCanon(run[k - 1], patches[k - 1], run[k], printer, layout, path);
      SparesTwice(run[0], run[k - 1], run[k], path, printer);
    }
  }

  lemma SparesTwice(a: Tree<Content>, b: Tree<Content>, c: Tree<Content>, path: Path, printer: Printer)
    requires SparesCanon(a, b, path, printer)
    requires IsCanon(b, path, printer) ==> Read(c, path, printer) == Read(b, path, printer)
    requires IsCanon(c, path, printer) ==> IsCanon(b, path, printer)
    ensures SparesCanon(a, c, path, printer)
  {
  }

  // ---- Deferred changes ----

  // Approving changes one by one: each is applied to the node as it reads back from its file.
  function Deferred(n: Node, changes: seq<Change>, printer: Printer): Result<Node, NsgError> {
    if changes == [] then Ok(n)
    else
      var before := Deferred(n, changes[..|changes| - 1], printer);
      if before.Err? then before
      else
        var applied := ApplyChange(before.value, changes[|changes| - 1], printer);
        if applied.Err? then applied else printer.parse(printer.render(applied.value))
  }

  lemma {:induction false} PrefixApplies(n: Node, changes: seq<Change>, k: nat, printer: Printer)
    requires k <= |changes| && ApplyChanges(n, changes, printer).Ok?
    ensures ApplyChanges(n, changes[..k], printer).Ok?
    ensures k > 0 ==> ApplyChanges(n, changes[..k - 1], printer).Ok?
                      && ApplyChange(ApplyChanges(n, changes[..k - 1], printer).value, changes[k - 1], printer)
                         == ApplyChanges(n, changes[..k], printer)
    decreases |changes|
  {
    if k < |changes| {
      assert changes[..|changes| - 1][..k] == changes[..k];
      PrefixApplies(n, changes[..|changes| - 1], k, printer);
    } else {
      assert changes[..k] == changes;
    }
    if k > 0 {
      assert changes[..k][..k - 1] == changes[..k - 1];
    }
  }

  // The node after the first `k` changes, applied with authorization.
  function After(n: Node, changes: seq<Change>, k: nat, printer: Printer): Result<Node, NsgError>
    requires k <= |changes|
  {
    ApplyChanges(n, changes[..k], printer)
  }

  ghost predicate Follows(n: Node, changes: seq<Change>, k: nat, printer: Printer)
    requires k <= |changes|
  {
    Deferred(n, changes[..k], printer) == After(n, changes, k, printer)
  }

  ghost predicate StorableAfter(n: Node, changes: seq<Change>, k: nat, printer: Printer)
    requires k <= |changes|
  {
    After(n, changes, k, printer).Ok? && Storable(After(n, changes, k, printer).value, printer)
  }

  lemma DeferredMore(n: Node, changes: seq<Change>, k: nat, printer: Printer)
    requires 0 < k <= |changes| && ApplyChanges(n, changes, printer).Ok? && Follows(n, changes, k - 1, printer)
    ensures Follows(n, changes, k, printer) <==> StorableAfter(n, changes, k, printer)
  {
    PrefixApplies(n, changes, k, printer);
    assert changes[..k][..k - 1] == changes[..k - 1];
  }

  /** Approving the changes in order follows authorized application step by step exactly when every
      node on the way reads back from its own text. */
  lemma {:induction false} DeferralFollowsExactly(n: Node, changes: seq<Change>, printer: Printer)
    requires ApplyChanges(n, changes, printer).Ok?
    ensures (forall k :: 0 <= k <= |changes| ==> Follows(n, changes, k, printer))
       <==> (forall k :: 0 < k <= |changes| ==> StorableAfter(n, changes, k, printer))
  {
    if forall k :: 0 < k <= |changes| ==> StorableAfter(n, changes, k, printer) {
      forall k | 0 <= k <= |changes| ensures Follows(n, changes, k, printer) {
        FollowsUpTo(n, changes, k, printer);
      }
    }
    if forall k :: 0 <= k <= |changes| ==> Follows(n, changes, k, printer) {
      forall k | 0 < k <= |changes| ensures StorableAfter(n, changes, k, printer) {
        DeferredMore(n, changes, k, printer);
      }
    }
  }

  lemma {:induction false} FollowsUpTo(n: Node, changes: seq<Change>, k: nat, printer: Printer)
    requires k <= |changes| && ApplyChanges(n, changes, printer).Ok?
    requires forall j :: 0 < j <= k ==> StorableAfter(n, changes, j, printer)
    ensures Follows(n, changes, k, printer)
  {
    if k == 0 {
      assert changes[..0] == [];
    } else {
      FollowsUpTo(n, changes, k - 1, printer);
      DeferredMore(n, changes, k, printer);
    }
  }

  lemma OneChange(n: Node, change: Change, m: Node, printer: Printer)
    requires ApplyChange(n, change, printer) == Ok(m)
    ensures ApplyChanges(n, [change], printer) == Ok(m)
    ensures Deferred(n, [change], printer) == Ok(m) <==> Storable(m, printer)
  {
    assert [change][..0] == [];
    assert ApplyChanges(n, [], printer) == Ok(n) && Deferred(n, [], printer) == Ok(n);
  }

  function BreakLine(): Change {
    UpdateNode(NodeUpdate(None, Some("a\nb"), None, None, None))
  }

  lemma LineBroken(n: Node, printer: Printer)
    requires Valid(n)
    ensures ApplyChange(n, BreakLine(), printer) == Ok(n.(condition := "a\nb"))
  {
    var broken := n.(condition := "a\nb");
    assert Edited(n, BreakLine(), printer) == broken;
    assert Valid(broken);
  }

  /** A change that breaks a line is accepted with authorization and cannot be followed by deferral. */
  lemma BrokenLineBreaksDeferral(n: Node, codec: Codec)
    requires Faithful(codec) && Valid(n)
    ensures ApplyChanges(n, [BreakLine()], TextPrinter(codec)).Ok?
    ensures Deferred(n, [BreakLine()], TextPrinter(codec)) != ApplyChanges(n, [BreakLine()], TextPrinter(codec))
  {
    var broken := n.(condition := "a\nb");
    LineBroken(n, TextPrinter(codec));
    OneChange(n, BreakLine(), broken, TextPrinter(codec));
    NotTidy(broken, codec);
  }

  lemma NotTidy(n: Node, codec: Codec)
    requires Faithful(codec) && Valid(n) && n.condition == "a\nb"
    ensures !Storable(n, TextPrinter(codec))
  {
    assert n.condition[1] == '\n';
    ReadsBackExactly(n, codec);
  }

  // ---- Deferral through the files ----

  ghost predicate Matches(files: Tree<Content>, segment: string, path: Path, printer: Printer, layout: Layout) {
    Read(files, path, printer).Ok? && layout.segment(Read(files, path, printer).value.id) == segment
  }

  ghost predicate OnlyMatch(files: Tree<Content>, segment: string, path: Path, printer: Printer, layout: Layout) {
    Matches(files, segment, path, printer, layout)
    && forall other: Path :: Matches(files, segment, other, printer, layout) ==> other == path
  }

  // Approving a parked candidate for `target`, the only node its name can mean.
  ghost function Approve(files: Tree<Content>, parked: Path, target: Path, printer: Printer, layout: Layout):
    Result<Tree<Content>, NsgError>
  {
    if parked !in files || !files[parked].Pending? then Err(Invalid)
    else if !OnlyMatch(files, layout.segmentAt(parked), target, printer, layout) then Err(Invalid)
    else
      var applied := ApplyChanges(Read(files, target, printer).value, files[parked].candidate.changes, printer);
      if applied.Err? || !Valid(applied.value) then Err(Invalid)
      else Ok(Put(Put(files, target, Some(NodeText(printer.render(applied.value)))), parked, None))
  }

  // Finds the one node a parked candidate's name means and applies the candidate to it.
  method ApprovePendingCandidate(files: Tree<Content>, parked: Path, printer: Printer, layout: Layout)
    returns (r: Result<Tree<Content>, NsgError>)
    ensures r.Ok? ==> exists target: Path :: r == Approve(files, parked, target, printer, layout)
    ensures forall target: Path :: Approve(files, parked, target, printer, layout).Ok? ==>
              r == Approve(files, parked, target, printer, layout)
  {
    if parked !in files || !files[parked].Pending? {
      return Err(Invalid);
    }
    var segment := layout.segmentAt(parked);
    var matches := set path | path in files && Read(files, path, printer).Ok?
                              && layout.segment(Read(files, path, printer).value.id) == segment;
    assert forall path: Path :: path in matches <==> Matches(files, segment, path, printer, layout);
    if matches == {} {
      return Err(Invalid);
    }
    var target :| target in matches;
    if matches != {target} {
      var other :| other in matches && other != target;
      return Err(Invalid);
    }
    assert OnlyMatch(files, segment, target, printer, layout);
    var applied := ApplyChanges(Read(files, target, printer).value, files[parked].candidate.changes, printer);
    if applied.Err? || !Valid(applied.value) {
      return Err(Invalid);
    }
    r := Ok(Put(Put(files, target, Some(NodeText(printer.render(applied.value)))), parked, None));
    assert r == Approve(files, parked, target, printer, layout);
  }

  /** An approval writes the one node that the candidate's name can mean, with all its changes, drops the candidate
      and touches no other file. */
  lemma ApprovesExactly(files: Tree<Content>, parked: Path, target: Path, printer: Printer, layout: Layout)
    requires Trusty(printer)
    ensures var r := Approve(files, parked, target, printer, layout);
            && (r.Ok? <==>
                  && parked in files && files[parked].Pending?
                  && OnlyMatch(files, layout.segmentAt(parked), target, printer, layout)
                  && ApplyChanges(Read(files, target, printer).value, files[parked].candidate.changes, printer).Ok?)
            && (r.Ok? ==>
                  var n := ApplyChanges(Read(files, target, printer).value, files[parked].candidate.changes, printer);
                  && parked !in r.value && Look(r.value, target) == Some(NodeText(printer.render(n.value)))
                  && forall q: Path :: q != parked && q != target ==> Look(r.value, q) == Look(files, q))
  {
    if parked in files && files[parked].Pending? && Read(files, target, printer).Ok?
       && ApplyChanges(Read(files, target, printer).value, files[parked].candidate.changes, printer).Ok?
    {
      AppliedKeepsIdentity(Read(files, target, printer).value, files[parked].candidate.changes, printer);
    }
  }

  ghost function ApproveAll(files: Tree<Content>, parked: seq<Path>, target: Path, printer: Printer, layout: Layout):
    Result<Tree<Content>, NsgError>
  {
    if parked == [] then Ok(files)
    else
      var before := ApproveAll(files, parked[..|parked| - 1], target, printer, layout);
      if before.Err? then before else Approve(before.value, parked[|parked| - 1], target, printer, layout)
  }

  // A parked file's name still tells whose candidate it is.
  ghost predicate Named(layout: Layout) {
    forall at: Path, id: string, reason: string, changes: seq<Change> ::
      layout.segmentAt(layout.pendingAt(at, id, reason, changes)) == layout.segment(id)
  }

  function Blocked(change: Change): Candidate {
    Candidate(BLOCKED, [change], BLOCKED_EVIDENCE)
  }

  function ParkedAt(path: Path, id: string, changes: seq<Change>, layout: Layout): seq<Path> {
    seq(|changes|, i requires 0 <= i < |changes| => layout.pendingAt(path, id, BLOCKED, [changes[i]]))
  }

  function ParkedWrites(path: Path, id: string, changes: seq<Change>, layout: Layout): seq<Mutation> {
    seq(|changes|, i requires 0 <= i < |changes| => ParkedWrite(path, id, changes[i], layout))
  }

  // The changes a patch makes to its node, and apart from them the candidates it proposes.
  function Altered(operations: seq<Operation>): seq<Change> {
    if operations == [] then []
    else
      var before := Altered(operations[..|operations| - 1]);
      match operations[|operations| - 1]
      case Alter(change) => before + [change]
      case _ => before
  }

  function ParkOf(path: Path, id: string, operation: Operation, layout: Layout): Mutation
    requires !operation.CreateNode?
  {
    match operation
    case Alter(change) => ParkedWrite(path, id, change, layout)
    case Revise(candidate) =>
      PreparedCommit.Write(layout.pendingAt(path, id, candidate.reason, candidate.changes), Pending(candidate))
  }

  function Without(operations: seq<Operation>): seq<Operation>
    requires operations != []
  {
    operations[..|operations| - 1]
  }

  // What a blocked patch parks, and which of it are its own proposals.
  function Parks(path: Path, id: string, operations: seq<Operation>, layout: Layout): seq<Mutation>
    requires !Creates(operations)
  {
    if operations == [] then []
    else
      assert !Creates(Without(operations)) && !operations[|operations| - 1].CreateNode?;
      Parks(path, id, Without(operations), layout) + [ParkOf(path, id, operations[|operations| - 1], layout)]
  }

  function Proposals(path: Path, id: string, operations: seq<Operation>, layout: Layout): seq<Mutation>
    requires !Creates(operations)
  {
    if operations == [] then []
    else
      assert !Creates(Without(operations)) && !operations[|operations| - 1].CreateNode?;
      Proposals(path, id, Without(operations), layout)
      + if operations[|operations| - 1].Revise? then [ParkOf(path, id, operations[|operations| - 1], layout)] else []
  }

  lemma PerformMore(n: Node, operations: seq<Operation>, operation: Operation, path: Path, authorized: bool,
                    printer: Printer, layout: Layout)
    ensures PerformAll(n, operations + [operation], path, authorized, printer, layout)
         == var before := PerformAll(n, operations, path, authorized, printer, layout);
            if before.Err? then before else Perform(before.value, operation, path, authorized, printer, layout)
  {
    assert (operations + [operation])[..|operations|] == operations;
  }

  function ParkedWrite(path: Path, id: string, change: Change, layout: Layout): Mutation {
    PreparedCommit.Write(layout.pendingAt(path, id, BLOCKED, [change]), Pending(Blocked(change)))
  }

  lemma BlockedStep(p: Progress, change: Change, path: Path, printer: Printer, layout: Layout)
    requires p.node.mode == Canon
    ensures Perform(p, Alter(change), path, false, printer, layout)
         == Ok(p.(mutations := p.mutations + [ParkedWrite(path, p.node.id, change, layout)]))
  {
    assert BLOCKED_EVIDENCE[0] == 'b';
  }

  lemma BlockedOne(p: Progress, operation: Operation, path: Path, printer: Printer, layout: Layout)
    requires p.node.mode == Canon && !operation.CreateNode?
    requires operation.Revise? ==> Trim(operation.candidate.evidence) != ""
    ensures Perform(p, operation, path, false, printer, layout)
         == Ok(Progress(p.node, p.mutations + [ParkOf(path, p.node.id, operation, layout)]))
  {
    if operation.Alter? {
      BlockedStep(p, operation.change, path, printer, layout);
    }
  }

  lemma ParksMore(path: Path, id: string, operations: seq<Operation>, layout: Layout)
    requires operations != [] && !Creates(operations)
    ensures !Creates(Without(operations)) && !operations[|operations| - 1].CreateNode?
    ensures Parks(path, id, operations, layout)
         == Parks(path, id, Without(operations), layout) + [ParkOf(path, id, operations[|operations| - 1], layout)]
  {
  }

  // Without authorization a Canon node stays, and every operation is parked.
  lemma {:induction false} BlockedPerforms(n: Node, operations: seq<Operation>, path: Path, printer: Printer,
                                           layout: Layout)
    requires n.mode == Canon && !Creates(operations) && PerformAll(n, operations, path, false, printer, layout).Ok?
    ensures PerformAll(n, operations, path, false, printer, layout)
              == Ok(Progress(n, Parks(path, n.id, operations, layout)))
  {
    if operations != [] {
      var init, last := Without(operations), operations[|operations| - 1];
      assert operations == init + [last];
      ParksMore(path, n.id, operations, layout);
      PerformMore(n, init, last, path, false, printer, layout);
      BlockedPerforms(n, init, path, printer, layout);
      var before := Progress(n, Parks(path, n.id, init, layout));
      if last.Revise? {
        EvidenceNeeded(before, last, path, false, printer, layout);
      }
      BlockedOne(before, last, path, printer, layout);
    }
  }

  lemma EvidenceNeeded(p: Progress, operation: Operation, path: Path, authorized: bool, printer: Printer,
                       layout: Layout)
    requires Perform(p, operation, path, authorized, printer, layout).Ok? && operation.Revise?
    ensures Trim(operation.candidate.evidence) != ""
  {
  }

  lemma AuthorizedStep(p: Progress, operation: Operation, next: Node, path: Path, printer: Printer, layout: Layout)
    requires !operation.CreateNode?
    requires operation.Alter? ==> ApplyChange(p.node, operation.change, printer) == Ok(next)
    requires operation.Revise? ==> next == p.node && Trim(operation.candidate.evidence) != ""
    ensures Perform(p, operation, path, true, printer, layout)
         == Ok(Progress(next, if operation.Revise? then p.mutations + [ParkOf(path, p.node.id, operation, layout)]
           else p.mutations))
  {
  }

  // With it the changes are made, and only the proposals are parked.
  lemma {:induction false} AuthorizedPerforms(n: Node, operations: seq<Operation>, path: Path, printer: Printer,
                                              layout: Layout)
    requires Valid(n) && n.mode == Canon && !Creates(operations)
    requires PerformAll(n, operations, path, false, printer, layout).Ok?
               && ApplyChanges(n, Altered(operations), printer).Ok?
    ensures PerformAll(n, operations, path, true, printer, layout)
         == Ok(Progress(ApplyChanges(n, Altered(operations), printer).value, Proposals(path, n.id, operations, layout)))
  {
    hide Perform, ApplyChange, Valid;
    if operations != [] {
      var init, last := Without(operations), operations[|operations| - 1];
      assert operations == init + [last];
      ProposalsMore(path, n.id, operations, layout);
      PerformMore(n, init, last, path, false, printer, layout);
      PerformMore(n, init, last, path, true, printer, layout);
      AlteredMore(n, operations, printer);
      AuthorizedPerforms(n, init, path, printer, layout);
      AppliedKeepsIdentity(n, Altered(init), printer);
      if last.Revise? {
        EvidenceNeeded(PerformAll(n, init, path, false, printer, layout).value, last, path, false, printer, layout);
      }
      AuthorizedStep(PerformAll(n, init, path, true, printer, layout).value, last,
                     ApplyChanges(n, Altered(operations), printer).value, path, printer, layout);
    }
  }

  lemma ProposalsMore(path: Path, id: string, operations: seq<Operation>, layout: Layout)
    requires operations != [] && !Creates(operations)
    ensures !Creates(Without(operations)) && !operations[|operations| - 1].CreateNode?
    ensures var init, last := Without(operations), operations[|operations| - 1];
            Proposals(path, id, operations, layout)
            == if last.Revise? then Proposals(path, id, init, layout) + [ParkOf(path, id, last, layout)]
               else Proposals(path, id, init, layout)
  {
  }

  lemma AlteredMore(n: Node, operations: seq<Operation>, printer: Printer)
    requires operations != [] && ApplyChanges(n, Altered(operations), printer).Ok?
    ensures var init, last := Without(operations), operations[|operations| - 1];
            && ApplyChanges(n, Altered(init), printer).Ok?
            && ApplyChanges(n, Altered(operations), printer)
               == if last.Alter? then ApplyChange(ApplyChanges(n, Altered(init), printer).value, last.change, printer)
                  else ApplyChanges(n, Altered(init), printer)
  {
    var init, last := Without(operations), operations[|operations| - 1];
    if last.Alter? {
      assert Altered(operations) == Altered(init) + [last.change];
      assert Altered(operations)[..|Altered(init)|] == Altered(init);
    }
  }

  lemma ApplyKeepsIdentity(n: Node, change: Change, printer: Printer)
    requires Valid(n) && ApplyChange(n, change, printer).Ok?
    ensures ApplyChange(n, change, printer).value.id == n.id && Valid(ApplyChange(n, change, printer).value)
  {
  }

  lemma {:induction false} AppliedKeepsIdentity(n: Node, changes: seq<Change>, printer: Printer)
    requires Valid(n) && ApplyChanges(n, changes, printer).Ok?
    ensures ApplyChanges(n, changes, printer).value.id == n.id && Valid(ApplyChanges(n, changes, printer).value)
  {
    if changes != [] {
      var k := |changes| - 1;
      AppliedKeepsIdentity(n, changes[..k], printer);
      ApplyKeepsIdentity(ApplyChanges(n, changes[..k], printer).value, changes[k], printer);
    }
  }

  lemma AfterKeepsIdentity(n: Node, changes: seq<Change>, k: nat, printer: Printer)
    requires k <= |changes| && Valid(n) && ApplyChanges(n, changes, printer).Ok?
    ensures After(n, changes, k, printer).Ok?
    ensures After(n, changes, k, printer).value.id == n.id && Valid(After(n, changes, k, printer).value)
  {
    PrefixApplies(n, changes, k, printer);
    AppliedKeepsIdentity(n, changes[..k], printer);
  }

  // The first `i` candidates are approved: the node has their changes, and the rest is still parked.
  ghost predicate Halfway(f: Tree<Content>, files: Tree<Content>, path: Path, now: Node, parked: seq<Path>,
                          changes: seq<Change>, i: nat, printer: Printer)
    requires |parked| == |changes|
  {
    && Look(f, path) == Some(NodeText(printer.render(now)))
    && (forall j :: 0 <= j < |parked| ==>
      Look(f, parked[j]) == if j < i then None else Some(Pending(Blocked(changes[j]))))
    && (forall q: Path :: q != path && q !in parked ==> Look(f, q) == Look(files, q))
  }

  predicate DistinctPaths(paths: seq<Path>) {
    forall i, j :: 0 <= i < j < |paths| ==> paths[i] != paths[j]
  }

  // While a deferral is half way, the node is still the only one its candidates can mean.
  lemma StillOnlyMatch(f: Tree<Content>, files: Tree<Content>, path: Path, now: Node, parked: seq<Path>,
                       changes: seq<Change>, i: nat, segment: string, printer: Printer, layout: Layout)
    requires |parked| == |changes| && Halfway(f, files, path, now, parked, changes, i, printer)
    requires Storable(now, printer) && layout.segment(now.id) == segment
    requires OnlyMatch(files, segment, path, printer, layout)
    ensures OnlyMatch(f, segment, path, printer, layout) && Read(f, path, printer) == Ok(now)
  {
    forall other: Path | other in parked ensures Read(f, other, printer).Err? {
      var j :| 0 <= j < |parked| && parked[j] == other;
      assert Look(f, parked[j]) == if j < i then None else Some(Pending(Blocked(changes[j])));
    }
    forall other: Path | Matches(f, segment, other, printer, layout) ensures other == path {
      if other != path {
        assert Look(f, other) == Look(files, other);
        assert Matches(files, segment, other, printer, layout);
      }
    }
  }

  lemma ApproveNext(f: Tree<Content>, files: Tree<Content>, path: Path, now: Node, next: Node, parked: seq<Path>,
                    changes: seq<Change>, i: nat, printer: Printer, layout: Layout)
    requires |parked| == |changes| && i < |changes| && DistinctPaths(parked) && path !in parked
    requires Halfway(f, files, path, now, parked, changes, i, printer)
    requires OnlyMatch(f, layout.segmentAt(parked[i]), path, printer, layout) && Read(f, path, printer) == Ok(now)
    requires ApplyChange(now, changes[i], printer) == Ok(next) && Valid(next)
    ensures var r := Approve(f, parked[i], path, printer, layout);
            r.Ok? && Halfway(r.value, files, path, next, parked, changes, i + 1, printer)
  {
    assert Look(f, parked[i]) == Some(Pending(Blocked(changes[i])));
    OneChange(now, changes[i], next, printer);
    var middle := Put(f, path, Some(NodeText(printer.render(next))));
    var r := Put(middle, parked[i], None);
    assert parked[i] in parked;
    forall q: Path
      ensures Look(r, q) == if q == parked[i] then None
                            else if q == path then Some(NodeText(printer.render(next))) else Look(f, q)
    {
      LookPut(f, path, Some(NodeText(printer.render(next))), q);
      LookPut(middle, parked[i], None, q);
    }
  }

  // One more approval, from wherever the earlier ones have got.
  lemma ApproveOneMore(f: Tree<Content>, files: Tree<Content>, path: Path, now: Node, next: Node, parked: seq<Path>,
                       changes: seq<Change>, i: nat, printer: Printer, layout: Layout)
    requires |parked| == |changes| && i < |changes| && DistinctPaths(parked) && path !in parked
    requires Halfway(f, files, path, now, parked, changes, i, printer) && Storable(now, printer)
    requires ApplyChange(now, changes[i], printer) == Ok(next) && Valid(next)
    requires layout.segmentAt(parked[i]) == layout.segment(now.id)
    requires OnlyMatch(files, layout.segment(now.id), path, printer, layout)
    ensures var r := Approve(f, parked[i], path, printer, layout);
            r.Ok? && Halfway(r.value, files, path, next, parked, changes, i + 1, printer)
  {
    StillOnlyMatch(f, files, path, now, parked, changes, i, layout.segment(now.id), printer, layout);
    ApproveNext(f, files, path, now, next, parked, changes, i, printer, layout);
  }

  lemma NodesAlong(n: Node, changes: seq<Change>, i: nat, printer: Printer)
    requires i < |changes| && Valid(n) && ApplyChanges(n, changes, printer).Ok? && StorableAfter(n, changes, i, printer)
    ensures var now, next := After(n, changes, i, printer), After(n, changes, i + 1, printer);
            && now.Ok? && next.Ok? && now.value.id == n.id && Storable(now.value, printer) && Valid(next.value)
            && ApplyChange(now.value, changes[i], printer) == next
  {
    AfterKeepsIdentity(n, changes, i, printer);
    AfterKeepsIdentity(n, changes, i + 1, printer);
    assert changes[..i + 1][..i] == changes[..i];
  }

  lemma ApproveAllMore(f: Tree<Content>, parked: seq<Path>, i: nat, path: Path, printer: Printer, layout: Layout)
    requires i < |parked| && ApproveAll(f, parked[..i], path, printer, layout).Ok?
    ensures ApproveAll(f, parked[..i + 1], path, printer, layout)
         == Approve(ApproveAll(f, parked[..i], path, printer, layout).value, parked[i], path, printer, layout)
  {
    assert parked[..i + 1][..i] == parked[..i];
  }

  lemma {:induction false} ApproveUpTo(f: Tree<Content>, files: Tree<Content>, path: Path, n: Node, parked: seq<Path>,
                                       changes: seq<Change>, i: nat, printer: Printer, layout: Layout)
    requires |parked| == |changes| && i <= |changes| && DistinctPaths(parked) && path !in parked
    requires Valid(n) && ApplyChanges(n, changes, printer).Ok?
    requires Halfway(f, files, path, n, parked, changes, 0, printer)
    requires forall j :: 0 <= j < i ==> StorableAfter(n, changes, j, printer)
    requires forall j :: 0 <= j < |parked| ==> layout.segmentAt(parked[j]) == layout.segment(n.id)
    requires OnlyMatch(files, layout.segment(n.id), path, printer, layout)
    ensures var r := ApproveAll(f, parked[..i], path, printer, layout);
            && r.Ok? && After(n, changes, i, printer).Ok?
            && Halfway(r.value, files, path, After(n, changes, i, printer).value, parked, changes, i, printer)
  {
    if i == 0 {
      assert changes[..0] == [] && parked[..0] == [];
    } else {
      var k := i - 1;
      ApproveUpTo(f, files, path, n, parked, changes, k, printer, layout);
      assert StorableAfter(n, changes, k, printer);
      NodesAlong(n, changes, k, printer);
      ApproveAllMore(f, parked, k, path, printer, layout);
      ApproveOneMore(ApproveAll(f, parked[..k], path, printer, layout).value, files, path,
                     After(n, changes, k, printer).value, After(n, changes, i, printer).value, parked, changes, k,
                       printer,
                     layout);
    }
  }

  lemma OnePatch(files: Tree<Content>, patch: FilePatch, authorized: bool, printer: Printer, layout: Layout)
    ensures PrepareAll(files, [patch], authorized, printer, layout)
         == var prepared := PrepareFile(files, patch, authorized, printer, layout);
            if prepared.Err? then Err(Invalid) else prepared
  {
    assert [patch][..0] == [];
    assert PrepareAll(files, [], authorized, printer, layout) == Ok([]);
    if PrepareFile(files, patch, authorized, printer, layout).Ok? {
      assert [] + PrepareFile(files, patch, authorized, printer, layout).value
          == PrepareFile(files, patch, authorized, printer, layout).value;
    }
  }

  lemma FilePrepares(files: Tree<Content>, target: string, operations: seq<Operation>, path: Path, n: Node, p: Progress,
                     authorized: bool, printer: Printer, layout: Layout)
    requires operations != [] && !Creates(operations) && layout.resolve(target) == Some(path)
    requires Read(files, path, printer) == Ok(n) && Valid(p.node)
    requires PerformAll(n, operations, path, authorized, printer, layout) == Ok(p)
    ensures PrepareFile(files, FilePatch(target, operations), authorized, printer, layout)
         == Ok(p.mutations + [PreparedCommit.Write(path, NodeText(printer.render(p.node)))])
  {
    assert !operations[0].CreateNode?;
  }

  function RenderAt(path: Path, n: Node, printer: Printer): Mutation {
    PreparedCommit.Write(path, NodeText(printer.render(n)))
  }

  // What the two kinds of patch prepare to.
  lemma MixedPrepares(files: Tree<Content>, target: string, operations: seq<Operation>, path: Path, n: Node,
                      printer: Printer, layout: Layout)
    requires operations != [] && !Creates(operations) && layout.resolve(target) == Some(path)
    requires Read(files, path, printer) == Ok(n) && Valid(n) && n.mode == Canon
    requires ApplyChanges(n, Altered(operations), printer).Ok?
    requires PrepareFile(files, FilePatch(target, operations), false, printer, layout).Ok?
    ensures var patch := FilePatch(target, operations);
            && PrepareFile(files, patch, false, printer, layout)
               == Ok(Parks(path, n.id, operations, layout) + [RenderAt(path, n, printer)])
            && PrepareFile(files, patch, true, printer, layout)
               == Ok(Proposals(path, n.id, operations, layout)
                     + [RenderAt(path, ApplyChanges(n, Altered(operations), printer).value, printer)])
  {
    var last := ApplyChanges(n, Altered(operations), printer).value;
    assert !operations[0].CreateNode?;
    BlockedPerforms(n, operations, path, printer, layout);
    AuthorizedPerforms(n, operations, path, printer, layout);
    AppliedKeepsIdentity(n, Altered(operations), printer);
    FilePrepares(files, target, operations, path, n, Progress(n, Parks(path, n.id, operations, layout)), false,
      printer, layout);
    FilePrepares(files, target, operations, path, n, Progress(last, Proposals(path, n.id, operations, layout)), true,
      printer,
                 layout);
  }

  // What is parked are the proposals and the blocked changes.
  lemma {:induction false} ParksAre(path: Path, id: string, operations: seq<Operation>, layout: Layout)
    requires !Creates(operations)
    ensures forall m | m in Proposals(path, id, operations, layout) ::
              m in Parks(path, id, operations, layout) && m.Write? && m.content.Pending?
    ensures forall m | m in ParkedWrites(path, id, Altered(operations), layout) ::
              m in Parks(path, id, operations, layout)
    ensures forall m | m in Parks(path, id, operations, layout) ::
              m in Proposals(path, id, operations, layout) || m in ParkedWrites(path, id, Altered(operations), layout)
  {
    if operations != [] {
      ProposalsMore(path, id, operations, layout);
      ParksMore(path, id, operations, layout);
      ParksAre(path, id, Without(operations), layout);
      WritesMore(path, id, operations, layout);
    }
  }

  lemma WritesMore(path: Path, id: string, operations: seq<Operation>, layout: Layout)
    requires operations != []
    ensures var init, last := Without(operations), operations[|operations| - 1];
            ParkedWrites(path, id, Altered(operations), layout)
            == if last.Alter? then ParkedWrites(path, id, Altered(init), layout)
              + [ParkedWrite(path, id, last.change, layout)]
               else ParkedWrites(path, id, Altered(init), layout)
  {
    if operations[|operations| - 1].Alter? {
      OneMoreWrite(path, id, Altered(Without(operations)), operations[|operations| - 1].change, layout);
    }
  }

  lemma OneMoreWrite(path: Path, id: string, changes: seq<Change>, change: Change, layout: Layout)
    ensures ParkedWrites(path, id, changes + [change], layout)
         == ParkedWrites(path, id, changes, layout) + [ParkedWrite(path, id, change, layout)]
  {
  }

  lemma ParksApart(parks: seq<Mutation>, last: Mutation)
    requires PreparedCommit.DistinctTargets(parks + [last])
    ensures PreparedCommit.DistinctTargets(parks) && forall m | m in parks :: m.path != last.path
  {
    var all := parks + [last];
    forall i, j | 0 <= i < j < |parks| ensures parks[i].path != parks[j].path {
      assert all[i] == parks[i] && all[j] == parks[j];
    }
    forall m | m in parks ensures m.path != last.path {
      var i :| 0 <= i < |parks| && parks[i] == m;
      assert all[i] == m && all[|parks|] == last;
    }
  }

  lemma DistinctWith(mutations: seq<Mutation>, last: Mutation)
    requires PreparedCommit.DistinctTargets(mutations) && forall m | m in mutations :: m.path != last.path
    ensures PreparedCommit.DistinctTargets(mutations + [last])
  {
    var all := mutations + [last];
    forall i, j | 0 <= i < j < |all| ensures all[i].path != all[j].path {
      assert all[i] == mutations[i] && mutations[i] in mutations;
    }
  }

  // If all is parked at different places, so are the proposals and the blocked changes among and against each other.
  lemma {:induction false} ParkedApart(path: Path, id: string, operations: seq<Operation>, layout: Layout)
    requires !Creates(operations) && PreparedCommit.DistinctTargets(Parks(path, id, operations, layout))
    ensures PreparedCommit.DistinctTargets(Proposals(path, id, operations, layout))
    ensures PreparedCommit.DistinctTargets(ParkedWrites(path, id, Altered(operations), layout))
    ensures forall p, w | p in Proposals(path, id, operations, layout)
              && w in ParkedWrites(path, id, Altered(operations), layout) ::
              p.path != w.path
  {
    if operations != [] {
      var init, parks := Without(operations), Parks(path, id, operations, layout);
      ProposalsMore(path, id, operations, layout);
      ParksMore(path, id, operations, layout);
      var last := ParkOf(path, id, operations[|operations| - 1], layout);
      ParksApart(Parks(path, id, init, layout), last);
      ParkedApart(path, id, init, layout);
      ParksAre(path, id, init, layout);
      WritesMore(path, id, operations, layout);
      if operations[|operations| - 1].Revise? {
        DistinctWith(Proposals(path, id, init, layout), last);
      } else {
        DistinctWith(ParkedWrites(path, id, Altered(init), layout), last);
      }
    }
  }

  lemma ParkedPaths(path: Path, id: string, changes: seq<Change>, layout: Layout)
    ensures var writes, parked := ParkedWrites(path, id, changes, layout), ParkedAt(path, id, changes, layout);
            && |writes| == |parked| == |changes|
            && (forall j :: 0 <= j < |parked| ==> writes[j].path == parked[j])
            && (PreparedCommit.DistinctTargets(writes) ==> DistinctPaths(parked))
            && (forall q: Path :: q in parked <==> exists m :: m in writes && m.path == q)
  {
    var writes, parked := ParkedWrites(path, id, changes, layout), ParkedAt(path, id, changes, layout);
    forall q: Path ensures q in parked <==> exists m :: m in writes && m.path == q {
      if q in parked {
        var j :| 0 <= j < |parked| && parked[j] == q;
        assert writes[j] in writes && writes[j].path == q;
      }
      if m :| m in writes && m.path == q {
        var j :| 0 <= j < |writes| && writes[j] == m;
        assert parked[j] == q;
      }
    }
  }

  // The files with the patch's proposals parked.
  function Proposed(files: Tree<Content>, path: Path, id: string, operations: seq<Operation>, layout: Layout):
    Tree<Content>
    requires !Creates(operations)
  {
    PreparedCommit.ApplyAll(files, Proposals(path, id, operations, layout))
  }

  // After the blocked patch is committed, no change is approved yet, and the proposals are parked.
  lemma BlockedCommits(files: Tree<Content>, path: Path, n: Node, operations: seq<Operation>, printer: Printer,
                       layout: Layout)
    requires !Creates(operations)
    requires PreparedCommit.DistinctTargets(Parks(path, n.id, operations, layout) + [RenderAt(path, n, printer)])
    ensures var mutations := Parks(path, n.id, operations, layout) + [RenderAt(path, n, printer)];
            var parked := ParkedAt(path, n.id, Altered(operations), layout);
            && DistinctPaths(parked) && path !in parked
            && Halfway(PreparedCommit.ApplyAll(files, mutations), Proposed(files, path, n.id, operations, layout),
              path, n, parked,
                       Altered(operations), 0, printer)
            && Look(Proposed(files, path, n.id, operations, layout), path) == Look(files, path)
  {
    var parks, changes := Parks(path, n.id, operations, layout), Altered(operations);
    var mutations, parked := parks + [RenderAt(path, n, printer)], ParkedAt(path, n.id, changes, layout);
    var proposals, writes := Proposals(path, n.id, operations, layout), ParkedWrites(path, n.id, changes, layout);
    ParksApart(parks, RenderAt(path, n, printer));
    ParkedApart(path, n.id, operations, layout);
    ParksAre(path, n.id, operations, layout);
    ParkedPaths(path, n.id, changes, layout);
    PreparedCommit.ApplyAllLooks(files, mutations);
    PreparedCommit.ApplyAllLooks(files, proposals);
    BlockedLooks(files, path, n, operations, printer, layout);
  }

  lemma BlockedLooks(files: Tree<Content>, path: Path, n: Node, operations: seq<Operation>, printer: Printer,
                     layout: Layout)
    requires !Creates(operations)
    requires PreparedCommit.DistinctTargets(Parks(path, n.id, operations, layout) + [RenderAt(path, n, printer)])
    ensures var f := PreparedCommit.ApplyAll(files, Parks(path, n.id, operations, layout)
              + [RenderAt(path, n, printer)]);
            var g, changes := Proposed(files, path, n.id, operations, layout), Altered(operations);
            var parked := ParkedAt(path, n.id, changes, layout);
            && Look(f, path) == Some(NodeText(printer.render(n))) && Look(g, path) == Look(files, path)
            && (forall j :: 0 <= j < |parked| ==> Look(f, parked[j]) == Some(Pending(Blocked(changes[j]))))
            && (forall q: Path :: q != path && q !in parked ==> Look(f, q) == Look(g, q))
  {
    var parks, changes := Parks(path, n.id, operations, layout), Altered(operations);
    var mutations, parked := parks + [RenderAt(path, n, printer)], ParkedAt(path, n.id, changes, layout);
    var proposals, writes := Proposals(path, n.id, operations, layout), ParkedWrites(path, n.id, changes, layout);
    var f, g := PreparedCommit.ApplyAll(files, mutations), PreparedCommit.ApplyAll(files, proposals);
    ParksApart(parks, RenderAt(path, n, printer));
    ParkedApart(path, n.id, operations, layout);
    ParksAre(path, n.id, operations, layout);
    ParkedPaths(path, n.id, changes, layout);
    PreparedCommit.ApplyAllLooks(files, mutations);
    PreparedCommit.ApplyAllLooks(files, proposals);
    assert RenderAt(path, n, printer) in mutations;
    forall j | 0 <= j < |parked| ensures Look(f, parked[j]) == Some(Pending(Blocked(changes[j]))) {
      assert writes[j] in writes && writes[j] in mutations;
    }
    forall q: Path | q != path && q !in parked ensures Look(f, q) == Look(g, q) {
      LooksAlike(files, mutations, proposals, f, g, q);
    }
  }

  // A place that both lists write alike, or neither writes, looks the same afterwards.
  lemma LooksAlike(files: Tree<Content>, left: seq<Mutation>, right: seq<Mutation>, f: Tree<Content>, g: Tree<Content>,
                   q: Path)
    requires forall m | m in left :: Look(f, m.path) == m.After()
    requires forall m | m in right :: Look(g, m.path) == m.After()
    requires SameExcept(files, f, set m | m in left :: m.path) && SameExcept(files, g, set m | m in right :: m.path)
    requires forall m | m in right :: m in left
    requires forall m | m in left && m.path == q :: m in right
    ensures Look(f, q) == Look(g, q)
  {
    if m :| m in left && m.path == q {
      assert m in right;
    } else {
      assert q !in (set m | m in left :: m.path) && q !in (set m | m in right :: m.path);
    }
  }

  // A change list that can be deferred: every node before each change reads back from its own text.
  ghost predicate Deferrable(files: Tree<Content>, path: Path, n: Node, changes: seq<Change>, printer: Printer,
                             layout: Layout)
  {
    && MayDefer(files, path, n, changes, printer, layout)
    && forall j :: 0 <= j < |changes| ==> StorableAfter(n, changes, j, printer)
  }

  // The changes would be accepted with authorization, and their candidates can only mean this node.
  ghost predicate MayDefer(files: Tree<Content>, path: Path, n: Node, changes: seq<Change>, printer: Printer,
                           layout: Layout)
  {
    && Read(files, path, printer) == Ok(n) && n.mode == Canon && Valid(n)
    && OnlyMatch(files, layout.segment(n.id), path, printer, layout)
    && ApplyChanges(n, changes, printer).Ok?
  }

  // Proposals parked beside the nodes mean no other node.
  lemma ProposedMayDefer(files: Tree<Content>, path: Path, n: Node, operations: seq<Operation>, printer: Printer,
                         layout: Layout)
    requires !Creates(operations) && MayDefer(files, path, n, Altered(operations), printer, layout)
    requires PreparedCommit.DistinctTargets(Proposals(path, n.id, operations, layout))
    requires Look(Proposed(files, path, n.id, operations, layout), path) == Look(files, path)
    ensures MayDefer(Proposed(files, path, n.id, operations, layout), path, n, Altered(operations), printer, layout)
  {
    var g, proposals := Proposed(files, path, n.id, operations, layout), Proposals(path, n.id, operations, layout);
    ParksAre(path, n.id, operations, layout);
    PreparedCommit.ApplyAllLooks(files, proposals);
    var segment := layout.segment(n.id);
    assert Matches(g, segment, path, printer, layout);
    forall other: Path | Matches(g, segment, other, printer, layout) ensures other == path {
      forall m | m in proposals ensures m.path != other {
        assert Look(g, m.path) == m.After();
      }
      assert other !in (set m | m in proposals :: m.path);
      assert Look(g, other) == Look(files, other);
      assert Matches(files, segment, other, printer, layout);
    }
  }

  lemma ApprovalsEnd(files: Tree<Content>, f: Tree<Content>, path: Path, n: Node, changes: seq<Change>,
                     printer: Printer, layout: Layout)
    requires Named(layout) && Deferrable(files, path, n, changes, printer, layout)
    requires var parked := ParkedAt(path, n.id, changes, layout);
             DistinctPaths(parked) && path !in parked && Halfway(f, files, path, n, parked, changes, 0, printer)
    ensures var parked := ParkedAt(path, n.id, changes, layout);
            var approved := ApproveAll(f, parked, path, printer, layout);
            && approved.Ok?
            && SameBut(approved.value, files[path := RenderAt(path, ApplyChanges(n, changes, printer).value,
              printer).content], parked)
  {
    var parked := ParkedAt(path, n.id, changes, layout);
    assert parked[..|changes|] == parked && changes[..|changes|] == changes;
    ApproveUpTo(f, files, path, n, parked, changes, |changes|, printer, layout);
    HalfwayEnds(ApproveAll(f, parked, path, printer, layout).value, files, path,
      ApplyChanges(n, changes, printer).value,
                parked, changes, printer);
  }

  // The left files are the right ones without the parked candidates.
  ghost predicate SameBut(left: Tree<Content>, right: Tree<Content>, parked: seq<Path>) {
    && (forall q: Path :: q !in parked ==> Look(left, q) == Look(right, q))
    && (forall q: Path :: q in parked ==> q !in left)
  }

  // An accepted patch of one Canon node, blocked.
  ghost predicate BlocksPatch(files: Tree<Content>, target: string, path: Path, n: Node, operations: seq<Operation>,
                              printer: Printer, layout: Layout)
  {
    && operations != [] && !Creates(operations) && layout.resolve(target) == Some(path) && Named(layout)
    && MayDefer(files, path, n, Altered(operations), printer, layout)
    && Accepted(files, [FilePatch(target, operations)], false, printer, layout)
  }

  lemma BlockedPatch(files: Tree<Content>, target: string, path: Path, n: Node, operations: seq<Operation>,
                     printer: Printer, layout: Layout)
    requires BlocksPatch(files, target, path, n, operations, printer, layout)
    ensures var f := Committed(files, [FilePatch(target, operations)], false, printer, layout);
            var g, changes := Proposed(files, path, n.id, operations, layout), Altered(operations);
            var parked := ParkedAt(path, n.id, changes, layout);
            && DistinctPaths(parked) && path !in parked && Halfway(f, g, path, n, parked, changes, 0, printer)
            && MayDefer(g, path, n, changes, printer, layout)
  {
    OnePatch(files, FilePatch(target, operations), false, printer, layout);
    MixedPrepares(files, target, operations, path, n, printer, layout);
    BlockedCommits(files, path, n, operations, printer, layout);
    ParksApart(Parks(path, n.id, operations, layout), RenderAt(path, n, printer));
    ParkedApart(path, n.id, operations, layout);
    ProposedMayDefer(files, path, n, operations, printer, layout);
  }

  /** Deferral: when a patch of one Canon node is blocked, whatever changes and proposals it mixes, approving
      its blocked changes in order gives every file what the authorized patch gives it, and leaves none of
      the blocked changes parked. */
  lemma DeferralMatchesAuthorization(files: Tree<Content>, target: string, path: Path, n: Node,
                                     operations: seq<Operation>, printer: Printer, layout: Layout)
    requires BlocksPatch(files, target, path, n, operations, printer, layout)
    requires Deferrable(files, path, n, Altered(operations), printer, layout)
    ensures var patch, parked := [FilePatch(target, operations)], ParkedAt(path, n.id, Altered(operations), layout);
            && Accepted(files, patch, true, printer, layout)
            && var approved := ApproveAll(Committed(files, patch, false, printer, layout), parked, path, printer,
              layout);
            approved.Ok? && SameBut(approved.value, Committed(files, patch, true, printer, layout), parked)
  {
    BlockedPatch(files, target, path, n, operations, printer, layout);
    AuthorizedPatch(files, target, path, n, operations, printer, layout);
    ApprovalsEnd(Proposed(files, path, n.id, operations, layout),
                 Committed(files, [FilePatch(target, operations)], false, printer, layout), path, n,
                   Altered(operations), printer,
                 layout);
  }

  lemma AuthorizedPatch(files: Tree<Content>, target: string, path: Path, n: Node, operations: seq<Operation>,
                        printer: Printer, layout: Layout)
    requires BlocksPatch(files, target, path, n, operations, printer, layout)
    ensures Accepted(files, [FilePatch(target, operations)], true, printer, layout)
    ensures Committed(files, [FilePatch(target, operations)], true, printer, layout)
         == Proposed(files, path, n.id, operations, layout)[
              path := RenderAt(path, ApplyChanges(n, Altered(operations), printer).value, printer).content]
  {
    var proposals := Proposals(path, n.id, operations, layout);
    var last := RenderAt(path, ApplyChanges(n, Altered(operations), printer).value, printer);
    OnePatch(files, FilePatch(target, operations), false, printer, layout);
    OnePatch(files, FilePatch(target, operations), true, printer, layout);
    MixedPrepares(files, target, operations, path, n, printer, layout);
    ParksApart(Parks(path, n.id, operations, layout), RenderAt(path, n, printer));
    ParkedApart(path, n.id, operations, layout);
    ParksAre(path, n.id, operations, layout);
    DistinctWith(proposals, last);
    AppliedWith(files, proposals, last);
  }

  lemma AppliedWith(files: Tree<Content>, mutations: seq<Mutation>, last: Mutation)
    requires last.Write?
    ensures PreparedCommit.ApplyAll(files, mutations + [last])
         == PreparedCommit.ApplyAll(files, mutations)[last.path := last.content]
  {
    assert (mutations + [last])[..|mutations|] == mutations;
  }

  // After the first `k` approvals the node reads as authorization makes it.
  ghost predicate AgreesAfter(f: Tree<Content>, parked: seq<Path>, path: Path, n: Node, changes: seq<Change>, k: nat,
                              printer: Printer, layout: Layout)
    requires |parked| == |changes| && k <= |changes|
  {
    var approved := ApproveAll(f, parked[..k], path, printer, layout);
    approved.Ok? && Read(approved.value, path, printer) == After(n, changes, k, printer)
  }

  /** And exactly then: the approvals agree with authorization at every step if and only if every node on
      the way, the first and the last included, reads back from its own text. */
  lemma DeferralAgreesExactly(files: Tree<Content>, target: string, path: Path, n: Node, operations: seq<Operation>,
                              printer: Printer, layout: Layout)
    requires BlocksPatch(files, target, path, n, operations, printer, layout)
    ensures var f := Committed(files, [FilePatch(target, operations)], false, printer, layout);
            var changes := Altered(operations);
            var parked := ParkedAt(path, n.id, changes, layout);
            (forall k :: 0 <= k <= |changes| ==> AgreesAfter(f, parked, path, n, changes, k, printer, layout))
            <==> (forall k :: 0 <= k <= |changes| ==> StorableAfter(n, changes, k, printer))
  {
    var f, changes := Committed(files, [FilePatch(target, operations)], false, printer, layout), Altered(operations);
    var g, parked := Proposed(files, path, n.id, operations, layout), ParkedAt(path, n.id, changes, layout);
    BlockedPatch(files, target, path, n, operations, printer, layout);
    if forall k :: 0 <= k <= |changes| ==> StorableAfter(n, changes, k, printer) {
      forall k | 0 <= k <= |changes| ensures AgreesAfter(f, parked, path, n, changes, k, printer, layout) {
        AgreesWhenStorable(f, g, path, n, parked, changes, k, printer, layout);
      }
    }
    if forall k :: 0 <= k <= |changes| ==> AgreesAfter(f, parked, path, n, changes, k, printer, layout) {
      forall k | 0 <= k <= |changes| ensures StorableAfter(n, changes, k, printer) {
        StorableWhenAgrees(f, g, path, n, parked, changes, k, printer, layout);
      }
    }
  }

  lemma AgreesWhenStorable(f: Tree<Content>, files: Tree<Content>, path: Path, n: Node, parked: seq<Path>,
                           changes: seq<Change>, k: nat, printer: Printer, layout: Layout)
    requires k <= |changes| && MayDefer(files, path, n, changes, printer, layout) && Named(layout)
    requires parked == ParkedAt(path, n.id, changes, layout) && DistinctPaths(parked) && path !in parked
    requires Halfway(f, files, path, n, parked, changes, 0, printer)
    requires forall j :: 0 <= j < k ==> StorableAfter(n, changes, j, printer)
    ensures AgreesAfter(f, parked, path, n, changes, k, printer, layout) <==> StorableAfter(n, changes, k, printer)
  {
    ApprovedUpTo(f, files, path, n, parked, changes, k, printer, layout);
    var approved, now := ApproveAll(f, parked[..k], path, printer, layout).value, After(n, changes, k, printer).value;
    assert Look(approved, path) == Some(NodeText(printer.render(now)));
  }

  lemma {:induction false} StorableWhenAgrees(f: Tree<Content>, files: Tree<Content>, path: Path, n: Node,
                                              parked: seq<Path>, changes: seq<Change>, k: nat, printer: Printer,
                                              layout: Layout)
    requires k <= |changes| && MayDefer(files, path, n, changes, printer, layout) && Named(layout)
    requires parked == ParkedAt(path, n.id, changes, layout) && DistinctPaths(parked) && path !in parked
    requires Halfway(f, files, path, n, parked, changes, 0, printer)
    requires forall j :: 0 <= j <= k ==> AgreesAfter(f, parked, path, n, changes, j, printer, layout)
    ensures StorableAfter(n, changes, k, printer)
  {
    forall j | 0 <= j < k ensures StorableAfter(n, changes, j, printer) {
      StorableWhenAgrees(f, files, path, n, parked, changes, j, printer, layout);
    }
    AgreesWhenStorable(f, files, path, n, parked, changes, k, printer, layout);
  }

  // The first `k` approvals, seen through the changes they stand for.
  lemma ApprovedUpTo(f: Tree<Content>, files: Tree<Content>, path: Path, n: Node, parked: seq<Path>,
                     changes: seq<Change>, k: nat, printer: Printer, layout: Layout)
    requires k <= |changes| && MayDefer(files, path, n, changes, printer, layout) && Named(layout)
    requires parked == ParkedAt(path, n.id, changes, layout) && DistinctPaths(parked) && path !in parked
    requires Halfway(f, files, path, n, parked, changes, 0, printer)
    requires forall j :: 0 <= j < k ==> StorableAfter(n, changes, j, printer)
    ensures var r := ApproveAll(f, parked[..k], path, printer, layout);
            && r.Ok? && After(n, changes, k, printer).Ok?
            && Halfway(r.value, files, path, After(n, changes, k, printer).value, parked, changes, k, printer)
  {
    ApproveUpTo(f, files, path, n, parked, changes, k, printer, layout);
  }

  lemma HalfwayEnds(f: Tree<Content>, files: Tree<Content>, path: Path, n: Node, parked: seq<Path>,
                    changes: seq<Change>, printer: Printer)
    requires |parked| == |changes| && path !in parked && Halfway(f, files, path, n, parked, changes, |changes|, printer)
    ensures SameBut(f, files[path := RenderAt(path, n, printer).content], parked)
  {
    forall q: Path | q in parked ensures q !in f {
      var j :| 0 <= j < |parked| && parked[j] == q;
      assert Look(f, parked[j]) == None;
    }
  }
}
