/**
 Budgeted retrieval from the semantic graph.

 Scores are given reals. Direct candidates come first, with most of the budget reserved for them; a
 bounded number of their neighbours may use a share of it; what direct candidates had to wait for is
 then given back to them.
 */
module NsgRetrieval {
  import opened Sorting
  import opened NsgText

  const EXPANSION_SOURCES: nat := 3
  const NORMAL_PER_SOURCE: nat := 6
  const HUB_PER_SOURCE: nat := 4
  const MAX_EXPANSIONS: nat := 12
  const HUB_THRESHOLD: nat := 12
  const HUB_EDGE_MIN: real := 0.7
  const EDGE_MIN: real := 0.4
  const HUB_FACTOR: real := 0.75
  const ZONE3_MIN: real := 0.45
  const ZONE3_RATIO: real := 0.75
  const ZONE3_MAX: nat := 2

  type Id = string

  // What the query makes of a node.
  datatype Query = Query(anchor: Id -> real, fused: Id -> real, ranked: set<Id>)

  datatype Candidate = Candidate(node: Node, anchor: real, score: real, expansion: bool)
  datatype Link = Link(target: Id, weight: real)
  datatype Retrieved = Retrieved(id: Id, zone: nat, score: real, tokens: nat)

  predicate Ahead(a: Candidate, b: Candidate) {
    if a.score != b.score then a.score > b.score
    else if a.anchor != b.anchor then a.anchor > b.anchor
    else if a.node.importance != b.node.importance then a.node.importance > b.node.importance
    else Before(a.node.id, b.node.id)
  }

  predicate Heavier(a: Link, b: Link) {
    a.weight > b.weight || (a.weight == b.weight && Before(a.target, b.target))
  }

  // ---- Direct candidates and their neighbours ----

  predicate IsDirect(n: Node, q: Query) {
    q.anchor(n.id) > 0.0 || n.id in q.ranked || n.zone == Zero
  }

  function Directs(nodes: seq<Node>, q: Query): seq<Candidate> {
    if nodes == [] then []
    else
      var before, n := Directs(nodes[..|nodes| - 1], q), nodes[|nodes| - 1];
      if IsDirect(n, q) then before + [Candidate(n, q.anchor(n.id), q.fused(n.id), false)] else before
  }

  // A node's links to known nodes.
  function Links(edges: seq<Edge>, known: set<Id>): seq<Link> {
    if edges == [] then []
    else
      var before, e := Links(edges[..|edges| - 1], known), edges[|edges| - 1];
      if e.weight > 0.0 && e.target in known then before + [Link(e.target, e.weight)] else before
  }

  function Keep<T>(s: seq<T>, p: T -> bool): seq<T> {
    if s == [] then []
    else
      var before, x := Keep(s[..|s| - 1], p), s[|s| - 1];
      if p(x) then before + [x] else before
  }

  predicate IsHub(n: Node, known: set<Id>) {
    |Links(n.edges, known)| > HUB_THRESHOLD
  }

  function LeastWeight(hub: bool): real {
    if hub then HUB_EDGE_MIN else EDGE_MIN
  }

  function Take<T>(s: seq<T>, n: nat): seq<T> {
    if |s| <= n then s else s[..n]
  }

  function Followed(n: Node, known: set<Id>): seq<Link> {
    var links := Links(n.edges, known);
    var hub := IsHub(n, known);
    var strong := Keep(links, (l: Link) => l.weight >= LeastWeight(hub));
    Take(Sort(strong, Heavier), if hub then HUB_PER_SOURCE else NORMAL_PER_SOURCE)
  }

  // The last node with an id.
  function NodeOf(nodes: seq<Node>, id: Id): Node
    requires exists i :: 0 <= i < |nodes| && nodes[i].id == id
  {
    if nodes[|nodes| - 1].id == id then nodes[|nodes| - 1] else NodeOf(nodes[..|nodes| - 1], id)
  }

  function Known(nodes: seq<Node>): set<Id> {
    set n | n in nodes :: n.id
  }

  predicate IsKnown(nodes: seq<Node>, id: Id) {
    exists i :: 0 <= i < |nodes| && nodes[i].id == id
  }

  function Reach(source: Candidate, link: Link, nodes: seq<Node>): Candidate
    requires IsKnown(nodes, link.target)
  {
    var factor := if IsHub(source.node, Known(nodes)) then HUB_FACTOR else 1.0;
    Candidate(NodeOf(nodes, link.target), 0.0, source.score * link.weight * factor, true)
  }

  datatype Expansion = Expansion(included: set<Id>, found: seq<Candidate>)

  function Follow(x: Expansion, source: Candidate, links: seq<Link>, nodes: seq<Node>): Expansion {
    if links == [] then x
    else
      var before, link := Follow(x, source, links[..|links| - 1], nodes), links[|links| - 1];
      if |before.found| >= MAX_EXPANSIONS || link.target in before.included || !IsKnown(nodes, link.target) then before
      else Expansion(before.included + {link.target}, before.found + [Reach(source, link, nodes)])
  }

  function Ids(candidates: seq<Candidate>): set<Id> {
    set c | c in candidates :: c.node.id
  }

  function Expand(direct: seq<Candidate>, sources: seq<Candidate>, nodes: seq<Node>): Expansion {
    if sources == [] then Expansion(Ids(direct), [])
    else
      var source := sources[|sources| - 1];
      Follow(Expand(direct, sources[..|sources| - 1], nodes), source, Followed(source.node, Known(nodes)), nodes)
  }

  // ---- Spending the budget ----

  type Cost = Node -> nat

  datatype Spent = Spent(used: nat, selected: seq<Candidate>, deferred: seq<Candidate>)
  datatype Pick = Pick(used: nat, share: nat, picked: seq<Candidate>)

  // Direct candidates in order; while there are neighbours, all but the first wait beyond the reserve.
  function DirectPass(candidates: seq<Candidate>, neighbours: bool, limit: nat, cost: Cost): Spent {
    if candidates == [] then Spent(0, [], [])
    else
      var s, c := DirectPass(candidates[..|candidates| - 1], neighbours, limit, cost), candidates[|candidates| - 1];
      var tokens := cost(c.node);
      if s.used + tokens > limit then s
      else if neighbours && s.used + tokens > limit * 7 / 10 && s.used > 0 then s.(deferred := s.deferred + [c])
      else Spent(s.used + tokens, s.selected + [c], s.deferred)
  }

  // A later pass takes what fits into the budget and into its own share of it.
  function Pass(used: nat, candidates: seq<Candidate>, limit: nat, share: nat, cost: Cost): Pick {
    if candidates == [] then Pick(used, 0, [])
    else
      var s, c := Pass(used, candidates[..|candidates| - 1], limit, share, cost), candidates[|candidates| - 1];
      var tokens := cost(c.node);
      if s.used + tokens > limit || s.share + tokens > share then s
      else Pick(s.used + tokens, s.share + tokens, s.picked + [c])
  }

  function ExpansionPass(direct: seq<Candidate>, neighbours: seq<Candidate>, limit: nat, cost: Cost): Pick {
    Pass(DirectPass(direct, neighbours != [], limit, cost).used, neighbours, limit, limit * 3 / 10, cost)
  }

  // What had to wait is offered the whole remaining budget.
  function LastPass(direct: seq<Candidate>, neighbours: seq<Candidate>, limit: nat, cost: Cost): Pick {
    var deferred := DirectPass(direct, neighbours != [], limit, cost).deferred;
    Pass(ExpansionPass(direct, neighbours, limit, cost).used, deferred, limit, limit, cost)
  }

  function SpendAll(direct: seq<Candidate>, neighbours: seq<Candidate>, limit: nat, cost: Cost): seq<Candidate> {
    DirectPass(direct, neighbours != [], limit, cost).selected
    + ExpansionPass(direct, neighbours, limit, cost).picked
    + LastPass(direct, neighbours, limit, cost).picked
  }

  // ---- Zones ----

  predicate Zone3Eligible(c: Candidate, top: real) {
    !c.expansion && c.node.zone == Auto && c.anchor >= ZONE3_MIN && c.anchor >= top * ZONE3_RATIO
  }

  function TopAnchor(candidates: seq<Candidate>): real {
    if candidates == [] then 0.0
    else
      var before, c := TopAnchor(candidates[..|candidates| - 1]), candidates[|candidates| - 1];
      if Zone3Eligible(c, 0.0) && c.anchor > before then c.anchor else before
  }

  function Eligible(candidates: seq<Candidate>, top: real): seq<Candidate> {
    Keep(candidates, (c: Candidate) => Zone3Eligible(c, top))
  }

  function Zone3(candidates: seq<Candidate>): set<Id> {
    var top := TopAnchor(candidates);
    if top < ZONE3_MIN then {} else Ids(Take(Eligible(candidates, top), ZONE3_MAX))
  }

  function ZoneOf(c: Candidate, zone3: set<Id>): nat {
    match c.node.zone
    case Zero => 0
    case Three => 3
    case Auto => if c.node.id in zone3 then 3 else 2
    case Two => 2
  }

  function InZone(selected: seq<Candidate>, zone3: set<Id>, zone: nat): seq<Candidate> {
    Keep(selected, (c: Candidate) => ZoneOf(c, zone3) == zone)
  }

  // A stable sort by zone.
  function ByZone(selected: seq<Candidate>, zone3: set<Id>): seq<Candidate> {
    InZone(selected, zone3, 0) + InZone(selected, zone3, 2) + InZone(selected, zone3, 3)
  }

  function Present(c: Candidate, zone3: set<Id>, cost: Cost): Retrieved {
    Retrieved(c.node.id, ZoneOf(c, zone3), c.anchor, cost(c.node))
  }

  // ---- Retrieval ----

  function SortedDirects(nodes: seq<Node>, q: Query): seq<Candidate> {
    Sort(Directs(nodes, q), Ahead)
  }

  // The direct candidates and the neighbours of the foremost of them.
  function Candidates(nodes: seq<Node>, q: Query): seq<Candidate> {
    var direct := SortedDirects(nodes, q);
    Sort(direct + Expand(direct, Take(direct, EXPANSION_SOURCES), nodes).found, Ahead)
  }

  // The candidates of one kind, in order.
  function Part(candidates: seq<Candidate>, expansion: bool): seq<Candidate> {
    Keep(candidates, (c: Candidate) => c.expansion == expansion)
  }

  function Selected(nodes: seq<Node>, q: Query, limit: nat, cost: Cost): seq<Candidate> {
    var candidates := Candidates(nodes, q);
    Sort(SpendAll(Part(candidates, false), Part(candidates, true), limit, cost), Ahead)
  }

  function Placed(nodes: seq<Node>, q: Query, limit: nat, cost: Cost): seq<Candidate> {
    ByZone(Selected(nodes, q, limit, cost), Zone3(Candidates(nodes, q)))
  }

  function Show(placed: seq<Candidate>, zone3: set<Id>, cost: Cost): seq<Retrieved> {
    if placed == [] then []
    else Show(placed[..|placed| - 1], zone3, cost) + [Present(placed[|placed| - 1], zone3, cost)]
  }

  function Retrieve(nodes: seq<Node>, q: Query, limit: nat, cost: Cost): seq<Retrieved> {
    Show(Placed(nodes, q, limit, cost), Zone3(Candidates(nodes, q)), cost)
  }

  // ---- The loops ----

  method SpendBudget(direct: seq<Candidate>, neighbours: seq<Candidate>, limit: nat, cost: Cost)
    returns (selected: seq<Candidate>)
    ensures selected == SpendAll(direct, neighbours, limit, cost)
  {
    var used: nat, deferred: seq<Candidate> := 0, [];
    selected := [];
    for i := 0 to |direct|
      invariant DirectPass(direct[..i], neighbours != [], limit, cost) == Spent(used, selected, deferred)
    {
      assert direct[..i + 1][..i] == direct[..i];
      var tokens := cost(direct[i].node);
      if used + tokens > limit {
        continue;
      }
      if neighbours != [] && used + tokens > limit * 7 / 10 && used > 0 {
        deferred := deferred + [direct[i]];
        continue;
      }
      used, selected := used + tokens, selected + [direct[i]];
    }
    assert direct[..|direct|] == direct;
    var more, share := TakeFitting(used, neighbours, limit, limit * 3 / 10, cost);
    selected := selected + more;
    more, share := TakeFitting(used + share, deferred, limit, limit, cost);
    selected := selected + more;
  }

  method TakeFitting(used: nat, candidates: seq<Candidate>, limit: nat, ceiling: nat, cost: Cost)
    returns (picked: seq<Candidate>, share: nat)
    ensures Pass(used, candidates, limit, ceiling, cost) == Pick(used + share, share, picked)
  {
    picked, share := [], 0;
    for i := 0 to |candidates|
      invariant Pass(used, candidates[..i], limit, ceiling, cost) == Pick(used + share, share, picked)
    {
      assert candidates[..i + 1][..i] == candidates[..i];
      var tokens := cost(candidates[i].node);
      if used + share + tokens <= limit && share + tokens <= ceiling {
        share, picked := share + tokens, picked + [candidates[i]];
      }
    }
    assert candidates[..|candidates|] == candidates;
  }

  method ExpandNeighbours(direct: seq<Candidate>, sources: seq<Candidate>, nodes: seq<Node>) returns (x: Expansion)
    ensures x == Expand(direct, sources, nodes)
  {
    var included := Ids(direct);
    var found: seq<Candidate> := [];
    for i := 0 to |sources|
      invariant Expand(direct, sources[..i], nodes) == Expansion(included, found)
    {
      assert sources[..i + 1][..i] == sources[..i];
      var links := Followed(sources[i].node, Known(nodes));
      ghost var before := Expansion(included, found);
      for j := 0 to |links|
        invariant Follow(before, sources[i], links[..j], nodes) == Expansion(included, found)
      {
        assert links[..j + 1][..j] == links[..j];
        var link := links[j];
        if |found| < MAX_EXPANSIONS && link.target !in included && IsKnown(nodes, link.target) {
          included, found := included + {link.target}, found + [Reach(sources[i], link, nodes)];
        }
      }
      assert links[..|links|] == links;
    }
    assert sources[..|sources|] == sources;
    x := Expansion(included, found);
  }

  method RetrieveNodes(nodes: seq<Node>, q: Query, limit: nat, cost: Cost) returns (r: seq<Retrieved>)
    ensures r == Retrieve(nodes, q, limit, cost)
  {
    var direct := SortedDirects(nodes, q);
    var expansion := ExpandNeighbours(direct, Take(direct, EXPANSION_SOURCES), nodes);
    var candidates := Sort(direct + expansion.found, Ahead);
    var zone3 := Zone3(candidates);
    var selected := SpendBudget(Part(candidates, false), Part(candidates, true), limit, cost);
    var placed := ByZone(Sort(selected, Ahead), zone3);
    r := ShowAll(placed, zone3, cost);
  }

  method ShowAll(placed: seq<Candidate>, zone3: set<Id>, cost: Cost) returns (r: seq<Retrieved>)
    ensures r == Show(placed, zone3, cost)
  {
    r := [];
    for i := 0 to |placed|
      invariant r == Show(placed[..i], zone3, cost)
    {
      assert placed[..i + 1][..i] == placed[..i];
      r := r + [Present(placed[i], zone3, cost)];
    }
    assert placed[..|placed|] == placed;
  }

  // ---- Sums ----

  function Sum(s: seq<Candidate>, f: Candidate -> nat): nat {
    if s == [] then 0 else Sum(s[..|s| - 1], f) + f(s[|s| - 1])
  }

  lemma {:induction false} SumJoins(a: seq<Candidate>, b: seq<Candidate>, f: Candidate -> nat)
    ensures Sum(a + b, f) == Sum(a, f) + Sum(b, f)
  {
    if b == [] {
      assert a + b == a;
    } else {
      SumJoins(a, b[..|b| - 1], f);
      assert (a + b)[..|a + b| - 1] == a + b[..|b| - 1];
    }
  }

  lemma SumFirst(s: seq<Candidate>, f: Candidate -> nat)
    requires s != []
    ensures Sum(s, f) == f(s[0]) + Sum(s[1..], f)
  {
    assert s == [s[0]] + s[1..];
    assert [s[0]][..0] == [];
    SumJoins([s[0]], s[1..], f);
  }

  lemma {:induction false} SumInsert(s: seq<Candidate>, c: Candidate, less: (Candidate, Candidate) -> bool,
                                     f: Candidate -> nat)
    ensures Sum(Sorting.Insert(s, c, less), f) == Sum(s, f) + f(c)
  {
    SumFirst(Sorting.Insert(s, c, less), f);
    if s == [] {
    } else if less(c, s[0]) {
      assert ([c] + s)[1..] == s;
    } else {
      SumInsert(s[1..], c, less, f);
      SumFirst(s, f);
    }
  }

  lemma {:induction false} SumSort(s: seq<Candidate>, less: (Candidate, Candidate) -> bool, f: Candidate -> nat)
    ensures Sum(Sort(s, less), f) == Sum(s, f)
  {
    if s != [] {
      SumSort(s[1..], less, f);
      SumInsert(Sort(s[1..], less), s[0], less, f);
      SumFirst(s, f);
    }
  }

  lemma {:induction false} SumOf(s: seq<Candidate>, f: Candidate -> nat, g: Candidate -> nat)
    requires forall c | c in s :: f(c) == g(c)
    ensures Sum(s, f) == Sum(s, g)
  {
    if s != [] {
      assert s[|s| - 1] in s && forall c :: c in s[..|s| - 1] ==> c in s;
      SumOf(s[..|s| - 1], f, g);
    }
  }

  function CostOf(cost: Cost): Candidate -> nat {
    (c: Candidate) => cost(c.node)
  }

  // Only neighbours count.
  function CostInShare(c: Candidate, cost: Cost): nat {
    if c.expansion then cost(c.node) else 0
  }

  function ShareOf(cost: Cost): Candidate -> nat {
    (c: Candidate) => CostInShare(c, cost)
  }

  function Tokens(candidates: seq<Candidate>, cost: Cost): nat {
    Sum(candidates, CostOf(cost))
  }

  function Share(candidates: seq<Candidate>, cost: Cost): nat {
    Sum(candidates, ShareOf(cost))
  }

  lemma {:induction false} NoShare(s: seq<Candidate>, cost: Cost)
    requires forall c | c in s :: !c.expansion
    ensures Share(s, cost) == 0
  {
    if s != [] {
      assert s[|s| - 1] in s && forall c :: c in s[..|s| - 1] ==> c in s;
      NoShare(s[..|s| - 1], cost);
    }
  }

  // ---- Unique ids ----

  predicate UniqueIds(candidates: seq<Candidate>) {
    forall i, j :: 0 <= i < j < |candidates| ==> candidates[i].node.id != candidates[j].node.id
  }

  predicate IsNew(c: Candidate, candidates: seq<Candidate>) {
    forall p | p in candidates :: p.node.id != c.node.id
  }

  lemma UniqueInit(candidates: seq<Candidate>)
    requires UniqueIds(candidates) && candidates != []
    ensures UniqueIds(candidates[..|candidates| - 1])
    ensures IsNew(candidates[|candidates| - 1], candidates[..|candidates| - 1])
    ensures candidates == candidates[..|candidates| - 1] + [candidates[|candidates| - 1]]
  {
  }

  lemma UniqueMore(picked: seq<Candidate>, c: Candidate)
    requires UniqueIds(picked) && IsNew(c, picked)
    ensures UniqueIds(picked + [c])
  {
  }

  lemma UniqueInserted(a: seq<Candidate>, b: seq<Candidate>, c: Candidate)
    requires UniqueIds(a + b) && IsNew(c, a + b)
    ensures UniqueIds((a + [c]) + b)
  {
    var s := (a + [c]) + b;
    forall i, j | 0 <= i < j < |s| ensures s[i].node.id != s[j].node.id {
      var f := (k: int) => if k < |a| then k else k - 1;
      assert i != |a| ==> s[i] == (a + b)[f(i)];
      assert j != |a| ==> s[j] == (a + b)[f(j)];
    }
  }

  lemma UniqueParts(a: seq<Candidate>, b: seq<Candidate>)
    requires UniqueIds(a + b)
    ensures UniqueIds(a) && UniqueIds(b) && Ids(a) !! Ids(b)
  {
    forall i, j | 0 <= i < j < |a| ensures a[i].node.id != a[j].node.id {
      assert (a + b)[i] == a[i] && (a + b)[j] == a[j];
    }
    forall i, j | 0 <= i < j < |b| ensures b[i].node.id != b[j].node.id {
      assert (a + b)[|a| + i] == b[i] && (a + b)[|a| + j] == b[j];
    }
    forall p, q | p in a && q in b ensures p.node.id != q.node.id {
      var i :| 0 <= i < |a| && a[i] == p;
      var j :| 0 <= j < |b| && b[j] == q;
      assert (a + b)[i] == p && (a + b)[|a| + j] == q;
    }
  }

  lemma UniqueTwo(a: seq<Candidate>, b: seq<Candidate>)
    requires UniqueIds(a) && UniqueIds(b) && Ids(a) !! Ids(b)
    ensures UniqueIds(a + b)
  {
    forall i, j | 0 <= i < j < |a + b| ensures (a + b)[i].node.id != (a + b)[j].node.id {
      if i < |a| <= j {
        assert a[i] in a && b[j - |a|] in b;
        assert a[i].node.id in Ids(a) && b[j - |a|].node.id in Ids(b);
      }
    }
  }

  // With unique ids the order is total, so sorting is by strict order and keeps ids unique.
  lemma AheadIsOrder()
    ensures Order(Ahead)
  {
    forall a: Candidate ensures !Ahead(a, a) {
      BeforeOrders(a.node.id, a.node.id, a.node.id);
    }
    forall a: Candidate, b: Candidate, c: Candidate | Ahead(a, b) && Ahead(b, c) ensures Ahead(a, c) {
      BeforeOrders(a.node.id, b.node.id, c.node.id);
    }
  }

  lemma Member(candidates: seq<Candidate>, c: Candidate) returns (i: nat)
    requires c in candidates
    ensures i < |candidates| && candidates[i] == c
  {
    i :| 0 <= i < |candidates| && candidates[i] == c;
  }

  lemma SameIdSame(candidates: seq<Candidate>, a: Candidate, b: Candidate)
    requires UniqueIds(candidates) && a in candidates && b in candidates && a.node.id == b.node.id
    ensures a == b
  {
    var i := Member(candidates, a);
    var j := Member(candidates, b);
    assert !(i < j) && !(j < i);
  }

  lemma SortUnique(candidates: seq<Candidate>)
    requires UniqueIds(candidates)
    ensures Sorted(Sort(candidates, Ahead), Ahead) && UniqueIds(Sort(candidates, Ahead))
    ensures forall c :: c in Sort(candidates, Ahead) <==> c in candidates
  {
    AheadIsOrder();
    forall a, b | a in candidates && b in candidates && a != b ensures Ahead(a, b) || Ahead(b, a) {
      if a.node.id == b.node.id {
        SameIdSame(candidates, a, b);
      }
      BeforeOrders(a.node.id, b.node.id, a.node.id);
    }
    SortSorts(candidates, Ahead);
    SortedUnique(Sort(candidates, Ahead), candidates);
  }

  lemma SortedUnique(sorted: seq<Candidate>, candidates: seq<Candidate>)
    requires Order(Ahead) && Sorted(sorted, Ahead) && UniqueIds(candidates) && forall c :: c in sorted ==>
               c in candidates
    ensures UniqueIds(sorted)
  {
    forall i, j | 0 <= i < j < |sorted| ensures sorted[i].node.id != sorted[j].node.id {
      assert Ahead(sorted[i], sorted[j]) && sorted[i] in sorted && sorted[j] in sorted;
      if sorted[i].node.id == sorted[j].node.id {
        SameIdSame(candidates, sorted[i], sorted[j]);
      }
    }
  }

  // ---- Parts of the candidates ----

  lemma {:induction false} KeepHolds<T>(s: seq<T>, p: T -> bool)
    ensures forall x :: x in Keep(s, p) <==> x in s && p(x)
  {
    if s != [] {
      KeepHolds(s[..|s| - 1], p);
      assert s == s[..|s| - 1] + [s[|s| - 1]];
    }
  }

  lemma {:induction false} KeepUnique(s: seq<Candidate>, p: Candidate -> bool)
    requires UniqueIds(s)
    ensures UniqueIds(Keep(s, p))
  {
    if s != [] {
      UniqueInit(s);
      KeepUnique(s[..|s| - 1], p);
      KeepHolds(s[..|s| - 1], p);
      UniqueMore(Keep(s[..|s| - 1], p), s[|s| - 1]);
    }
  }

  lemma {:induction false} KeepSorted<T(!new)>(s: seq<T>, p: T -> bool, less: (T, T) -> bool)
    requires Sorted(s, less)
    ensures Sorted(Keep(s, p), less)
  {
    if s != [] {
      var init, x := s[..|s| - 1], s[|s| - 1];
      KeepSorted(init, p, less);
      KeepHolds(init, p);
      forall y | y in Keep(init, p) ensures less(y, x) {
        var i :| 0 <= i < |init| && init[i] == y;
        assert less(s[i], s[|s| - 1]);
      }
    }
  }

  ghost predicate Kinds(direct: seq<Candidate>, neighbours: seq<Candidate>) {
    && UniqueIds(direct) && UniqueIds(neighbours) && Ids(direct) !! Ids(neighbours)
    && (forall c | c in direct :: !c.expansion) && (forall c | c in neighbours :: c.expansion)
  }

  lemma PartsAreKinds(candidates: seq<Candidate>)
    requires UniqueIds(candidates)
    ensures Kinds(Part(candidates, false), Part(candidates, true))
    ensures forall c :: c in candidates <==> c in Part(candidates, false) || c in Part(candidates, true)
  {
    KeepHolds(candidates, (c: Candidate) => c.expansion == false);
    KeepHolds(candidates, (c: Candidate) => c.expansion == true);
    KeepUnique(candidates, (c: Candidate) => c.expansion == false);
    KeepUnique(candidates, (c: Candidate) => c.expansion == true);
    forall a, b | a in Part(candidates, false) && b in Part(candidates, true) ensures a.node.id != b.node.id {
      if a.node.id == b.node.id {
        SameIdSame(candidates, a, b);
      }
    }
  }

  // ---- The budget ----

  lemma {:induction false} DirectPassSums(candidates: seq<Candidate>, neighbours: bool, limit: nat, cost: Cost)
    ensures var s := DirectPass(candidates, neighbours, limit, cost); s.used == Tokens(s.selected, cost) <= limit
  {
    if candidates != [] {
      var init, c := candidates[..|candidates| - 1], candidates[|candidates| - 1];
      DirectPassSums(init, neighbours, limit, cost);
      var selected := DirectPass(init, neighbours, limit, cost).selected;
      assert (selected + [c])[..|selected|] == selected;
    }
  }

  ghost predicate Handled(candidates: seq<Candidate>, s: Spent, limit: nat, cost: Cost) {
    && UniqueIds(s.selected + s.deferred)
    && (forall c :: c in s.selected || c in s.deferred ==> c in candidates)
    && (forall c | c in candidates :: c in s.selected || c in s.deferred || s.used + cost(c.node) > limit)
  }

  lemma Deferring(init: seq<Candidate>, s: Spent, c: Candidate, limit: nat, cost: Cost)
    requires Handled(init, s, limit, cost) && IsNew(c, init)
    ensures Handled(init + [c], s.(deferred := s.deferred + [c]), limit, cost)
  {
    UniqueMore(s.selected + s.deferred, c);
    assert (s.selected + s.deferred) + [c] == s.selected + (s.deferred + [c]);
  }

  lemma Selecting(init: seq<Candidate>, s: Spent, c: Candidate, limit: nat, cost: Cost)
    requires Handled(init, s, limit, cost) && IsNew(c, init)
    ensures Handled(init + [c], Spent(s.used + cost(c.node), s.selected + [c], s.deferred), limit, cost)
  {
    UniqueInserted(s.selected, s.deferred, c);
  }

  lemma {:induction false} DirectPassHandles(candidates: seq<Candidate>, neighbours: bool, limit: nat, cost: Cost)
    requires UniqueIds(candidates)
    ensures Handled(candidates, DirectPass(candidates, neighbours, limit, cost), limit, cost)
  {
    if candidates != [] {
      var init, c := candidates[..|candidates| - 1], candidates[|candidates| - 1];
      UniqueInit(candidates);
      DirectPassHandles(init, neighbours, limit, cost);
      var s := DirectPass(init, neighbours, limit, cost);
      Deferring(init, s, c, limit, cost);
      Selecting(init, s, c, limit, cost);
      assert s.used + cost(c.node) > limit ==> Handled(init + [c], s, limit, cost);
    }
  }

  /** While there are neighbours, the direct candidates go beyond the reserve only when a single one of
      them takes all that is used, and one waits only when it would take more than the reserve. */
  lemma {:induction false} ReserveIsKept(candidates: seq<Candidate>, limit: nat, cost: Cost)
    ensures var s := DirectPass(candidates, true, limit, cost);
            && (s.used <= limit * 7 / 10 || exists c | c in s.selected :: s.used == cost(c.node))
            && (forall c | c in s.deferred :: s.used + cost(c.node) > limit * 7 / 10)
  {
    if candidates != [] {
      var init, c := candidates[..|candidates| - 1], candidates[|candidates| - 1];
      ReserveIsKept(init, limit, cost);
      var s := DirectPass(init, true, limit, cost);
      if s.used == 0 {
        assert c in s.selected + [c];
      }
      if cost(c.node) == 0 && exists d | d in s.selected :: s.used == cost(d.node) {
        var d :| d in s.selected && s.used == cost(d.node);
        assert d in s.selected + [c];
      }
    }
  }

  lemma {:induction false} PassSums(used: nat, candidates: seq<Candidate>, limit: nat, share: nat, cost: Cost)
    requires used <= limit
    ensures var s := Pass(used, candidates, limit, share, cost);
            s.share == Tokens(s.picked, cost) <= share && s.used == used + s.share <= limit
  {
    if candidates != [] {
      var init, c := candidates[..|candidates| - 1], candidates[|candidates| - 1];
      PassSums(used, init, limit, share, cost);
      var picked := Pass(used, init, limit, share, cost).picked;
      assert (picked + [c])[..|picked|] == picked;
    }
  }

  ghost predicate Picked(candidates: seq<Candidate>, s: Pick, limit: nat, share: nat, cost: Cost) {
    && UniqueIds(s.picked)
    && (forall c :: c in s.picked ==> c in candidates)
    && (forall c | c in candidates :: c in s.picked || s.used + cost(c.node) > limit || s.share + cost(c.node) > share)
  }

  lemma {:induction false} PassPicks(used: nat, candidates: seq<Candidate>, limit: nat, share: nat, cost: Cost)
    requires UniqueIds(candidates)
    ensures Picked(candidates, Pass(used, candidates, limit, share, cost), limit, share, cost)
  {
    if candidates != [] {
      var init, c := candidates[..|candidates| - 1], candidates[|candidates| - 1];
      UniqueInit(candidates);
      PassPicks(used, init, limit, share, cost);
      var s := Pass(used, init, limit, share, cost);
      Picking(init, s, c, limit, share, cost);
    }
  }

  lemma Picking(init: seq<Candidate>, s: Pick, c: Candidate, limit: nat, share: nat, cost: Cost)
    requires Picked(init, s, limit, share, cost) && IsNew(c, init)
    ensures Picked(init + [c], Pick(s.used + cost(c.node), s.share + cost(c.node), s.picked + [c]), limit, share, cost)
    ensures s.used + cost(c.node) > limit || s.share + cost(c.node) > share ==>
              Picked(init + [c], s, limit, share, cost)
  {
    UniqueMore(s.picked, c);
  }

  ghost predicate WellSpent(direct: seq<Candidate>, neighbours: seq<Candidate>, s: seq<Candidate>, limit: nat,
                            cost: Cost)
  {
    && Tokens(s, cost) <= limit && Share(s, cost) <= limit * 3 / 10
    && UniqueIds(s) && (forall c :: c in s ==> c in direct || c in neighbours)
    && (forall c | c in direct :: c in s || Tokens(s, cost) + cost(c.node) > limit)
    && (forall c | c in neighbours ::
          || c in s || Tokens(s, cost) + cost(c.node) > limit || Share(s, cost) + cost(c.node) > limit * 3 / 10)
  }

  /** Within the budget, the neighbours within their share, nothing twice, and nothing left out that
      the remaining budget could take. */
  lemma SpendingIsBounded(direct: seq<Candidate>, neighbours: seq<Candidate>, limit: nat, cost: Cost)
    requires Kinds(direct, neighbours)
    ensures WellSpent(direct, neighbours, SpendAll(direct, neighbours, limit, cost), limit, cost)
  {
    var first := DirectPass(direct, neighbours != [], limit, cost);
    var second := ExpansionPass(direct, neighbours, limit, cost);
    var last := LastPass(direct, neighbours, limit, cost);
    DirectPassSums(direct, neighbours != [], limit, cost);
    DirectPassHandles(direct, neighbours != [], limit, cost);
    UniqueParts(first.selected, first.deferred);
    PassSums(first.used, neighbours, limit, limit * 3 / 10, cost);
    PassPicks(first.used, neighbours, limit, limit * 3 / 10, cost);
    PassSums(second.used, first.deferred, limit, limit, cost);
    PassPicks(second.used, first.deferred, limit, limit, cost);
    ThreePasses(direct, neighbours, first, second, last, limit, limit * 3 / 10, cost);
  }

  lemma JoinedSums(a: seq<Candidate>, b: seq<Candidate>, d: seq<Candidate>, cost: Cost)
    requires (forall c | c in a :: !c.expansion) && (forall c | c in b :: c.expansion)
               && (forall c | c in d :: !c.expansion)
    ensures Tokens(a + b + d, cost) == Tokens(a, cost) + Tokens(b, cost) + Tokens(d, cost)
    ensures Share(a + b + d, cost) == Tokens(b, cost)
  {
    SumJoins(a, b, CostOf(cost));
    SumJoins(a + b, d, CostOf(cost));
    SumJoins(a, b, ShareOf(cost));
    SumJoins(a + b, d, ShareOf(cost));
    NoShare(a, cost);
    NoShare(d, cost);
    SumOf(b, ShareOf(cost), CostOf(cost));
  }

  lemma JoinedIds(a: seq<Candidate>, b: seq<Candidate>, d: seq<Candidate>, deferred: seq<Candidate>,
                  direct: seq<Candidate>, neighbours: seq<Candidate>)
    requires UniqueIds(a) && UniqueIds(b) && UniqueIds(d) && Ids(a) !! Ids(deferred) && Ids(direct) !! Ids(neighbours)
    requires (forall c :: c in d ==> c in deferred) && (forall c :: c in b ==> c in neighbours)
    requires forall c :: c in a || c in deferred ==> c in direct
    ensures UniqueIds(a + b + d)
  {
    assert Ids(a) <= Ids(direct) && Ids(b) <= Ids(neighbours) && Ids(d) <= Ids(deferred) <= Ids(direct);
    UniqueTwo(a, b);
    assert forall c :: c in a + b <==> c in a || c in b;
    assert Ids(a + b) == Ids(a) + Ids(b);
    UniqueTwo(a + b, d);
  }

  // What is left out does not fit into what the three passes leave.
  lemma LeftOut(direct: seq<Candidate>, neighbours: seq<Candidate>, first: Spent, second: Pick, last: Pick,
                c: Candidate, limit: nat, share: nat, cost: Cost)
    requires Handled(direct, first, limit, cost) && Picked(neighbours, second, limit, share, cost)
    requires Picked(first.deferred, last, limit, limit, cost)
    requires first.used <= second.used <= last.used && last.share <= last.used
    ensures c in direct ==> c in first.selected || c in last.picked || last.used + cost(c.node) > limit
    ensures c in neighbours ==>
              c in second.picked || last.used + cost(c.node) > limit || second.share + cost(c.node) > share
  {
  }

  lemma ThreePasses(direct: seq<Candidate>, neighbours: seq<Candidate>, first: Spent, second: Pick, last: Pick,
                    limit: nat, share: nat, cost: Cost)
    requires Kinds(direct, neighbours) && share == limit * 3 / 10
    requires first.used == Tokens(first.selected, cost) && Handled(direct, first, limit, cost)
    requires UniqueIds(first.selected) && Ids(first.selected) !! Ids(first.deferred)
    requires second.share == Tokens(second.picked, cost) <= share && second.used == first.used + second.share
    requires Picked(neighbours, second, limit, share, cost)
    requires last.share == Tokens(last.picked, cost) <= limit && last.used == second.used + last.share <= limit
    requires Picked(first.deferred, last, limit, limit, cost)
    ensures WellSpent(direct, neighbours, first.selected + second.picked + last.picked, limit, cost)
  {
    var a, b, d := first.selected, second.picked, last.picked;
    JoinedSums(a, b, d, cost);
    JoinedIds(a, b, d, first.deferred, direct, neighbours);
    forall c ensures c in a + b + d <==> c in a || c in b || c in d {
    }
    forall c ensures (c in direct ==> c in a || c in d || last.used + cost(c.node) > limit)
      && (c in neighbours ==> c in b || last.used + cost(c.node) > limit || second.share + cost(c.node) > share)
    {
      LeftOut(direct, neighbours, first, second, last, c, limit, share, cost);
    }
    Assembled(direct, neighbours, a + b + d, limit, share, cost);
  }

  // The share as a variable keeps division out of the way.
  lemma Assembled(direct: seq<Candidate>, neighbours: seq<Candidate>, s: seq<Candidate>, limit: nat, share: nat,
                  cost: Cost)
    requires share == limit * 3 / 10 && Tokens(s, cost) <= limit && Share(s, cost) <= share
    requires UniqueIds(s) && (forall c :: c in s ==> c in direct || c in neighbours)
    requires forall c | c in direct :: c in s || Tokens(s, cost) + cost(c.node) > limit
    requires forall c | c in neighbours ::
               c in s || Tokens(s, cost) + cost(c.node) > limit || Share(s, cost) + cost(c.node) > share
    ensures WellSpent(direct, neighbours, s, limit, cost)
  {
  }

  // ---- The candidates ----

  predicate UniqueNodes(nodes: seq<Node>) {
    forall i, j :: 0 <= i < j < |nodes| ==> nodes[i].id != nodes[j].id
  }

  function DirectOf(n: Node, q: Query): Candidate {
    Candidate(n, q.anchor(n.id), q.fused(n.id), false)
  }

  lemma {:induction false} DirectsHold(nodes: seq<Node>, q: Query)
    requires UniqueNodes(nodes)
    ensures UniqueIds(Directs(nodes, q))
    ensures forall c :: c in Directs(nodes, q) <==> c.node in nodes && IsDirect(c.node, q) && c == DirectOf(c.node, q)
  {
    if nodes != [] {
      var init, n := nodes[..|nodes| - 1], nodes[|nodes| - 1];
      DirectsHold(init, q);
      assert nodes == init + [n];
      UniqueMore(Directs(init, q), DirectOf(n, q));
    }
  }

  // A link of the source that is strong enough for it leads to the candidate.
  predicate Leads(e: Edge, source: Candidate, c: Candidate, nodes: seq<Node>) {
    var hub := IsHub(source.node, Known(nodes));
    && e.target == c.node.id && e.weight >= LeastWeight(hub)
    && c.score == source.score * e.weight * (if hub then HUB_FACTOR else 1.0) && c.anchor == 0.0
  }

  predicate ReachedFrom(source: Candidate, c: Candidate, nodes: seq<Node>) {
    exists e | e in source.node.edges :: Leads(e, source, c, nodes)
  }

  predicate Reached(sources: seq<Candidate>, c: Candidate, nodes: seq<Node>) {
    c.node in nodes && exists s | s in sources :: ReachedFrom(s, c, nodes)
  }

  lemma {:induction false} LinksHold(edges: seq<Edge>, known: set<Id>)
    ensures forall l | l in Links(edges, known) ::
              l.target in known && exists e | e in edges :: e.target == l.target && e.weight == l.weight
  {
    if edges != [] {
      var init, e := edges[..|edges| - 1], edges[|edges| - 1];
      LinksHold(init, known);
      assert edges == init + [e];
      assert e in edges;
    }
  }

  lemma FollowedHolds(n: Node, known: set<Id>, l: Link)
    requires l in Followed(n, known)
    ensures l.target in known && l.weight >= LeastWeight(IsHub(n, known))
    ensures exists e | e in n.edges :: e.target == l.target && e.weight == l.weight
  {
    var strong := Keep(Links(n.edges, known), (l: Link) => l.weight >= LeastWeight(IsHub(n, known)));
    assert l in Sort(strong, Heavier);
    SortKeeps(strong, Heavier);
    KeepHolds(Links(n.edges, known), (l: Link) => l.weight >= LeastWeight(IsHub(n, known)));
    LinksHold(n.edges, known);
  }

  lemma {:induction false} NodeOfHolds(nodes: seq<Node>, id: Id)
    requires IsKnown(nodes, id)
    ensures NodeOf(nodes, id) in nodes && NodeOf(nodes, id).id == id
  {
    if nodes[|nodes| - 1].id != id {
      NodeOfHolds(nodes[..|nodes| - 1], id);
    }
  }

  lemma LinkReaches(source: Candidate, l: Link, nodes: seq<Node>)
    requires l in Followed(source.node, Known(nodes)) && IsKnown(nodes, l.target)
    ensures Reach(source, l, nodes).node in nodes && ReachedFrom(source, Reach(source, l, nodes), nodes)
    ensures Reach(source, l, nodes).node.id == l.target
  {
    FollowedHolds(source.node, Known(nodes), l);
    NodeOfHolds(nodes, l.target);
    var e :| e in source.node.edges && e.target == l.target && e.weight == l.weight;
    assert Leads(e, source, Reach(source, l, nodes), nodes);
  }

  ghost predicate Grown(x: Expansion, direct: seq<Candidate>, sources: seq<Candidate>, nodes: seq<Node>) {
    && x.included == Ids(direct) + Ids(x.found) && UniqueIds(direct + x.found) && |x.found| <= MAX_EXPANSIONS
    && (forall c | c in x.found :: c.expansion && Reached(sources, c, nodes))
  }

  lemma Grows(x: Expansion, direct: seq<Candidate>, sources: seq<Candidate>, nodes: seq<Node>, c: Candidate)
    requires Grown(x, direct, sources, nodes) && |x.found| < MAX_EXPANSIONS
    requires c.expansion && Reached(sources, c, nodes) && c.node.id !in x.included
    ensures Grown(Expansion(x.included + {c.node.id}, x.found + [c]), direct, sources, nodes)
  {
    forall p | p in direct + x.found ensures p.node.id != c.node.id {
      assert p in direct ==> p.node.id in Ids(direct);
      assert p in x.found ==> p.node.id in Ids(x.found);
    }
    UniqueMore(direct + x.found, c);
    assert (direct + x.found) + [c] == direct + (x.found + [c]);
    assert forall p :: p in x.found + [c] <==> p in x.found || p == c;
    assert Ids(x.found + [c]) == Ids(x.found) + {c.node.id};
  }

  lemma {:induction false} FollowGrows(x: Expansion, direct: seq<Candidate>, sources: seq<Candidate>, source: Candidate,
                                       links: seq<Link>, nodes: seq<Node>)
    requires Grown(x, direct, sources, nodes) && source in sources
    requires forall l :: l in links ==> l in Followed(source.node, Known(nodes))
    ensures Grown(Follow(x, source, links, nodes), direct, sources, nodes)
  {
    if links != [] {
      var init, l := links[..|links| - 1], links[|links| - 1];
      assert l in links && forall k :: k in init ==> k in links;
      FollowGrows(x, direct, sources, source, init, nodes);
      var before := Follow(x, source, init, nodes);
      if |before.found| < MAX_EXPANSIONS && l.target !in before.included && IsKnown(nodes, l.target) {
        LinkReaches(source, l, nodes);
        Grows(before, direct, sources, nodes, Reach(source, l, nodes));
      }
    }
  }

  lemma {:induction false} ExpandGrows(direct: seq<Candidate>, sources: seq<Candidate>, all: seq<Candidate>,
                                       nodes: seq<Node>)
    requires UniqueIds(direct) && forall s :: s in sources ==> s in all
    ensures Grown(Expand(direct, sources, nodes), direct, all, nodes)
  {
    if sources == [] {
      assert direct + [] == direct;
      assert Ids([]) == {};
    } else {
      var init, s := sources[..|sources| - 1], sources[|sources| - 1];
      assert s in sources && forall k :: k in init ==> k in sources;
      ExpandGrows(direct, init, all, nodes);
      FollowGrows(Expand(direct, init, nodes), direct, all, s, Followed(s.node, Known(nodes)), nodes);
    }
  }

  // The three foremost direct candidates.
  function Sources(nodes: seq<Node>, q: Query): seq<Candidate> {
    Take(SortedDirects(nodes, q), EXPANSION_SOURCES)
  }

  predicate IsDirectOf(c: Candidate, nodes: seq<Node>, q: Query) {
    c.node in nodes && IsDirect(c.node, q) && c == DirectOf(c.node, q)
  }

  /** A candidate is a direct one or was reached from one of the three foremost by a strong link. */
  lemma CandidatesHold(nodes: seq<Node>, q: Query)
    requires UniqueNodes(nodes)
    ensures Sorted(Candidates(nodes, q), Ahead) && UniqueIds(Candidates(nodes, q))
    ensures forall c | c in Candidates(nodes, q) ::
              if c.expansion then Reached(Sources(nodes, q), c, nodes) else IsDirectOf(c, nodes, q)
    ensures forall c | IsDirectOf(c, nodes, q) :: c in Candidates(nodes, q)
  {
    var direct := SortedDirects(nodes, q);
    DirectsHold(nodes, q);
    SortUnique(Directs(nodes, q));
    var x := Expand(direct, Sources(nodes, q), nodes);
    ExpandGrows(direct, Sources(nodes, q), Sources(nodes, q), nodes);
    SortUnique(direct + x.found);
    assert forall c :: c in direct + x.found <==> c in direct || c in x.found;
  }

  // ---- Zones ----

  lemma {:induction false} TopIsTop(candidates: seq<Candidate>)
    ensures TopAnchor(candidates) >= 0.0
    ensures forall c | c in candidates && Zone3Eligible(c, 0.0) :: c.anchor <= TopAnchor(candidates)
    ensures TopAnchor(candidates) == 0.0 || exists c | c in candidates ::
              Zone3Eligible(c, 0.0) && c.anchor == TopAnchor(candidates)
  {
    if candidates != [] {
      var init, c := candidates[..|candidates| - 1], candidates[|candidates| - 1];
      TopIsTop(init);
      assert candidates == init + [c];
      assert c in candidates && forall d :: d in init ==> d in candidates;
    }
  }

  lemma {:induction false} IdsAreFew(candidates: seq<Candidate>)
    ensures |Ids(candidates)| <= |candidates|
  {
    if candidates != [] {
      var init, c := candidates[..|candidates| - 1], candidates[|candidates| - 1];
      IdsAreFew(init);
      assert candidates == init + [c];
      assert Ids(candidates) == Ids(init) + {c.node.id};
    } else {
      assert Ids(candidates) == {};
    }
  }

  /** At most two nodes are raised into zone 3: the foremost direct hits whose anchor score is near the
      top one; a node near the top is passed over only for two that are ahead of it. */
  lemma RaisedAreForemost(candidates: seq<Candidate>)
    requires Sorted(candidates, Ahead) && UniqueIds(candidates)
    ensures var z, top := Zone3(candidates), TopAnchor(candidates);
            && |z| <= ZONE3_MAX
            && (forall c | c in candidates && c.node.id in z :: Zone3Eligible(c, top))
            && (forall c, d | c in candidates && d in candidates ::
                  Zone3Eligible(c, top) && c.node.id !in z && d.node.id in z ==> Ahead(d, c))
            && (forall c | c in candidates && Zone3Eligible(c, top) :: c.node.id in z || |z| == ZONE3_MAX)
  {
    var top := TopAnchor(candidates);
    TopIsTop(candidates);
    var eligible := Eligible(candidates, top);
    KeepHolds(candidates, (c: Candidate) => Zone3Eligible(c, top));
    KeepUnique(candidates, (c: Candidate) => Zone3Eligible(c, top));
    KeepSorted(candidates, (c: Candidate) => Zone3Eligible(c, top), Ahead);
    if top >= ZONE3_MIN {
      FirstTwo(candidates, eligible);
    }
  }

  lemma FirstTwo(candidates: seq<Candidate>, eligible: seq<Candidate>)
    requires UniqueIds(candidates) && UniqueIds(eligible) && Sorted(eligible, Ahead)
    requires forall c :: c in eligible ==> c in candidates
    ensures var z := Ids(Take(eligible, ZONE3_MAX));
            && |z| <= ZONE3_MAX
            && (forall c | c in candidates && c.node.id in z :: c in eligible)
            && (forall c, d | c in eligible && d in candidates :: c.node.id !in z && d.node.id in z ==> Ahead(d, c))
            && (forall c | c in eligible :: c.node.id in z || |z| == ZONE3_MAX)
  {
    var two := Take(eligible, ZONE3_MAX);
    IdsAreFew(two);
    assert forall c :: c in two ==> c in eligible;
    forall c | c in candidates && c.node.id in Ids(two) ensures c in two {
      var d :| d in two && d.node.id == c.node.id;
      SameIdSame(candidates, c, d);
    }
    forall c, d | c in eligible && c !in two && d in two ensures Ahead(d, c) {
      assert eligible == two + eligible[|two|..];
      var i := Member(eligible[|two|..], c);
      var j := Member(two, d);
      assert two[j] == eligible[j] && c == eligible[|two| + i];
    }
    if |eligible| >= ZONE3_MAX {
      assert two[0] in two && two[1] in two && eligible[0].node.id != eligible[1].node.id;
      assert {two[0].node.id, two[1].node.id} <= Ids(two);
      Pair(two[0].node.id, two[1].node.id, Ids(two));
    }
  }

  lemma Pair(a: Id, b: Id, s: set<Id>)
    requires a != b && {a, b} <= s
    ensures |s| >= 2
  {
    assert s == {a, b} + (s - {a, b});
  }

  lemma SumMore(s: seq<Candidate>, c: Candidate, f: Candidate -> nat)
    ensures Sum(s + [c], f) == Sum(s, f) + f(c)
  {
    assert (s + [c])[..|s|] == s;
  }

  lemma ZoneMore(s: seq<Candidate>, zone3: set<Id>, zone: nat, f: Candidate -> nat)
    requires s != []
    ensures var init, c := s[..|s| - 1], s[|s| - 1];
            Sum(InZone(s, zone3, zone), f) == Sum(InZone(init, zone3, zone), f) +
              if ZoneOf(c, zone3) == zone then f(c) else 0
  {
    SumMore(InZone(s[..|s| - 1], zone3, zone), s[|s| - 1], f);
  }

  lemma {:induction false} ZonesSum(s: seq<Candidate>, zone3: set<Id>, f: Candidate -> nat)
    ensures Sum(InZone(s, zone3, 0), f) + Sum(InZone(s, zone3, 2), f) + Sum(InZone(s, zone3, 3), f) == Sum(s, f)
  {
    if s != [] {
      ZonesSum(s[..|s| - 1], zone3, f);
      ZoneMore(s, zone3, 0, f);
      ZoneMore(s, zone3, 2, f);
      ZoneMore(s, zone3, 3, f);
    }
  }

  lemma PlacingKeepsSums(s: seq<Candidate>, zone3: set<Id>, f: Candidate -> nat)
    ensures Sum(ByZone(s, zone3), f) == Sum(s, f)
  {
    ZonesSum(s, zone3, f);
    SumJoins(InZone(s, zone3, 0), InZone(s, zone3, 2), f);
    SumJoins(InZone(s, zone3, 0) + InZone(s, zone3, 2), InZone(s, zone3, 3), f);
  }

  predicate InOrder(a: Candidate, b: Candidate, zone3: set<Id>) {
    ZoneOf(a, zone3) < ZoneOf(b, zone3) || (ZoneOf(a, zone3) == ZoneOf(b, zone3) && Ahead(a, b))
  }

  lemma InZoneHolds(s: seq<Candidate>, zone3: set<Id>, zone: nat)
    requires Sorted(s, Ahead)
    ensures Sorted(InZone(s, zone3, zone), Ahead)
    ensures forall c :: c in InZone(s, zone3, zone) <==> c in s && ZoneOf(c, zone3) == zone
  {
    KeepHolds(s, (c: Candidate) => ZoneOf(c, zone3) == zone);
    KeepSorted(s, (c: Candidate) => ZoneOf(c, zone3) == zone, Ahead);
  }

  lemma ZonesInOrder(a: seq<Candidate>, b: seq<Candidate>, zone3: set<Id>)
    requires Sorted(a, (x: Candidate, y: Candidate) => InOrder(x, y, zone3))
    requires Sorted(b, (x: Candidate, y: Candidate) => InOrder(x, y, zone3))
    requires forall x, y | x in a && y in b :: ZoneOf(x, zone3) < ZoneOf(y, zone3)
    ensures Sorted(a + b, (x: Candidate, y: Candidate) => InOrder(x, y, zone3))
  {
    forall i, j | 0 <= i < j < |a + b| ensures InOrder((a + b)[i], (a + b)[j], zone3) {
      if i < |a| <= j {
        assert a[i] in a && b[j - |a|] in b;
      } else if j < |a| {
        assert InOrder(a[i], a[j], zone3);
      } else {
        assert InOrder(b[i - |a|], b[j - |a|], zone3);
      }
    }
  }

  lemma OneZoneInOrder(s: seq<Candidate>, zone3: set<Id>, zone: nat)
    requires Sorted(s, Ahead) && forall c | c in s :: ZoneOf(c, zone3) == zone
    ensures Sorted(s, (x: Candidate, y: Candidate) => InOrder(x, y, zone3))
  {
    forall i, j | 0 <= i < j < |s| ensures InOrder(s[i], s[j], zone3) {
      assert s[i] in s && s[j] in s && Ahead(s[i], s[j]);
    }
  }

  lemma PlacedInOrder(s: seq<Candidate>, zone3: set<Id>)
    requires Sorted(s, Ahead)
    ensures Sorted(ByZone(s, zone3), (x: Candidate, y: Candidate) => InOrder(x, y, zone3))
    ensures forall c :: c in ByZone(s, zone3) <==> c in s
  {
    var a, b, d := InZone(s, zone3, 0), InZone(s, zone3, 2), InZone(s, zone3, 3);
    InZoneHolds(s, zone3, 0);
    InZoneHolds(s, zone3, 2);
    InZoneHolds(s, zone3, 3);
    OneZoneInOrder(a, zone3, 0);
    OneZoneInOrder(b, zone3, 2);
    OneZoneInOrder(d, zone3, 3);
    ZonesInOrder(a, b, zone3);
    assert forall c :: c in a + b <==> c in a || c in b;
    ZonesInOrder(a + b, d, zone3);
  }

  // ---- What is returned ----

  function Total(r: seq<Retrieved>): nat {
    if r == [] then 0 else Total(r[..|r| - 1]) + r[|r| - 1].tokens
  }

  function DirectIds(nodes: seq<Node>, q: Query): set<Id> {
    set n | n in nodes && IsDirect(n, q) :: n.id
  }

  // What was returned beyond the direct candidates.
  function Beyond(r: seq<Retrieved>, direct: set<Id>): seq<Retrieved> {
    Keep(r, (x: Retrieved) => x.id !in direct)
  }

  predicate Has(r: seq<Retrieved>, id: Id) {
    exists x | x in r :: x.id == id
  }

  lemma {:induction false} ShownAt(s: seq<Candidate>, zone3: set<Id>, cost: Cost)
    ensures |Show(s, zone3, cost)| == |s|
    ensures forall i :: 0 <= i < |s| ==> Show(s, zone3, cost)[i] == Present(s[i], zone3, cost)
  {
    if s != [] {
      var init, c := s[..|s| - 1], s[|s| - 1];
      ShownAt(init, zone3, cost);
      var before := Show(init, zone3, cost);
      forall i | 0 <= i < |s| ensures (before + [Present(c, zone3, cost)])[i] == Present(s[i], zone3, cost) {
        assert i < |init| ==> s[i] == init[i];
      }
    }
  }

  lemma {:induction false} TotalShown(s: seq<Candidate>, zone3: set<Id>, cost: Cost)
    ensures Total(Show(s, zone3, cost)) == Tokens(s, cost)
  {
    if s != [] {
      var init, c := s[..|s| - 1], s[|s| - 1];
      TotalShown(init, zone3, cost);
      TotalMore(Show(init, zone3, cost), Present(c, zone3, cost));
    }
  }

  lemma TotalMore(r: seq<Retrieved>, x: Retrieved)
    ensures Total(r + [x]) == Total(r) + x.tokens
  {
    assert (r + [x])[..|r|] == r;
  }

  lemma {:induction false} ShownBeyond(s: seq<Candidate>, zone3: set<Id>, cost: Cost, direct: set<Id>)
    requires forall c | c in s :: c.expansion <==> c.node.id !in direct
    ensures Total(Beyond(Show(s, zone3, cost), direct)) == Share(s, cost)
  {
    if s != [] {
      var init, c := s[..|s| - 1], s[|s| - 1];
      assert c in s && forall d :: d in init ==> d in s;
      ShownBeyond(init, zone3, cost, direct);
      var before := Show(init, zone3, cost);
      var x := Present(c, zone3, cost);
      BeyondMore(before, x, direct);
      TotalMore(Beyond(before, direct), x);
    }
  }

  lemma BeyondMore(r: seq<Retrieved>, x: Retrieved, direct: set<Id>)
    ensures Beyond(r + [x], direct) == if x.id in direct then Beyond(r, direct) else Beyond(r, direct) + [x]
  {
    assert (r + [x])[..|r|] == r;
  }

  lemma KindsTellDirects(nodes: seq<Node>, q: Query)
    requires UniqueNodes(nodes)
    ensures forall c | c in Candidates(nodes, q) :: c.expansion <==> c.node.id !in DirectIds(nodes, q)
  {
    CandidatesHold(nodes, q);
    forall c | c in Candidates(nodes, q) ensures c.expansion <==> c.node.id !in DirectIds(nodes, q) {
      if c.node.id in DirectIds(nodes, q) {
        var n :| n in nodes && IsDirect(n, q) && n.id == c.node.id;
        assert IsDirectOf(DirectOf(n, q), nodes, q);
        SameIdSame(Candidates(nodes, q), c, DirectOf(n, q));
      }
    }
  }

  lemma SelectedHold(nodes: seq<Node>, q: Query, limit: nat, cost: Cost)
    requires UniqueNodes(nodes)
    ensures var s := Selected(nodes, q, limit, cost);
            && Sorted(s, Ahead) && UniqueIds(s) && (forall c | c in s :: c in Candidates(nodes, q))
            && Tokens(s, cost) <= limit && Share(s, cost) <= limit * 3 / 10
            && (forall c | c in Candidates(nodes, q) && !c.expansion ::
              c in s || Tokens(s, cost) + cost(c.node) > limit)
            && (forall c | c in Candidates(nodes, q) && c.expansion ::
                  || c in s || Tokens(s, cost) + cost(c.node) > limit || Share(s, cost) + cost(c.node) > limit * 3 / 10)
  {
    CandidatesHold(nodes, q);
    var all := Candidates(nodes, q);
    PartsAreKinds(all);
    var spent := SpendAll(Part(all, false), Part(all, true), limit, cost);
    SpendingIsBounded(Part(all, false), Part(all, true), limit, cost);
    SortUnique(spent);
    SumSort(spent, Ahead, CostOf(cost));
    SumSort(spent, Ahead, ShareOf(cost));
  }

  lemma PlacedHold(nodes: seq<Node>, q: Query, limit: nat, cost: Cost)
    requires UniqueNodes(nodes)
    ensures var p, zone3 := Placed(nodes, q, limit, cost), Zone3(Candidates(nodes, q));
            && Sorted(p, (x: Candidate, y: Candidate) => InOrder(x, y, zone3)) && UniqueIds(p)
            && (forall c :: c in p <==> c in Selected(nodes, q, limit, cost))
            && Tokens(p, cost) == Tokens(Selected(nodes, q, limit, cost), cost)
            && Share(p, cost) == Share(Selected(nodes, q, limit, cost), cost)
  {
    var s, zone3 := Selected(nodes, q, limit, cost), Zone3(Candidates(nodes, q));
    SelectedHold(nodes, q, limit, cost);
    PlacedInOrder(s, zone3);
    PlacingKeepsSums(s, zone3, CostOf(cost));
    PlacingKeepsSums(s, zone3, ShareOf(cost));
    PlacedUnique(ByZone(s, zone3), s, zone3);
  }

  lemma PlacedUnique(p: seq<Candidate>, s: seq<Candidate>, zone3: set<Id>)
    requires Sorted(p, (x: Candidate, y: Candidate) => InOrder(x, y, zone3)) && UniqueIds(s) && forall c :: c in p ==>
               c in s
    ensures UniqueIds(p)
  {
    AheadIsOrder();
    forall i, j | 0 <= i < j < |p| ensures p[i].node.id != p[j].node.id {
      assert InOrder(p[i], p[j], zone3) && p[i] in p && p[j] in p;
      if p[i].node.id == p[j].node.id {
        SameIdSame(s, p[i], p[j]);
      }
    }
  }

  // In zone order, and inside a zone in the order of the candidates behind the results.
  ghost predicate Ranked(x: Retrieved, y: Retrieved, candidates: seq<Candidate>) {
    || x.zone < y.zone
    || (x.zone == y.zone
        && forall a, b | a in candidates && b in candidates :: a.node.id == x.id && b.node.id == y.id ==> Ahead(a, b))
  }

  predicate Stands(x: Retrieved, nodes: seq<Node>, zone3: set<Id>, cost: Cost) {
    exists n | n in nodes :: x.id == n.id && x.tokens == cost(n)
      && x.zone == ZoneOf(Candidate(n, 0.0, 0.0, false), zone3)
  }

  lemma ShownStand(c: Candidate, nodes: seq<Node>, zone3: set<Id>, cost: Cost)
    requires c.node in nodes
    ensures Stands(Present(c, zone3, cost), nodes, zone3, cost)
  {
    assert ZoneOf(c, zone3) == ZoneOf(Candidate(c.node, 0.0, 0.0, false), zone3);
  }

  lemma ShownRanked(p: seq<Candidate>, i: int, j: int, zone3: set<Id>, cost: Cost, candidates: seq<Candidate>)
    requires 0 <= i < j < |p| && UniqueIds(candidates) && p[i] in candidates && p[j] in candidates
    requires InOrder(p[i], p[j], zone3)
    ensures Ranked(Present(p[i], zone3, cost), Present(p[j], zone3, cost), candidates)
  {
    forall a, b | a in candidates && b in candidates && a.node.id == p[i].node.id && b.node.id == p[j].node.id
      ensures a == p[i] && b == p[j]
    {
      SameIdSame(candidates, a, p[i]);
      SameIdSame(candidates, b, p[j]);
    }
  }

  lemma ReturnedAreRanked(nodes: seq<Node>, q: Query, limit: nat, cost: Cost)
    requires UniqueNodes(nodes)
    ensures var r := Retrieve(nodes, q, limit, cost);
            forall i, j :: 0 <= i < j < |r| ==> r[i].id != r[j].id && Ranked(r[i], r[j], Candidates(nodes, q))
  {
    var p, zone3, cs := Placed(nodes, q, limit, cost), Zone3(Candidates(nodes, q)), Candidates(nodes, q);
    CandidatesHold(nodes, q);
    SelectedHold(nodes, q, limit, cost);
    PlacedHold(nodes, q, limit, cost);
    ShownAt(p, zone3, cost);
    forall i, j | 0 <= i < j < |p|
      ensures p[i].node.id != p[j].node.id && Ranked(Present(p[i], zone3, cost), Present(p[j], zone3, cost), cs)
    {
      assert p[i] in p && p[j] in p;
      assert InOrder(p[i], p[j], zone3);
      ShownRanked(p, i, j, zone3, cost, cs);
    }
  }

  lemma ReturnedStand(nodes: seq<Node>, q: Query, limit: nat, cost: Cost)
    requires UniqueNodes(nodes)
    ensures forall x | x in Retrieve(nodes, q, limit, cost) :: Stands(x, nodes, Zone3(Candidates(nodes, q)), cost)
  {
    var p, zone3, r := Placed(nodes, q, limit, cost), Zone3(Candidates(nodes, q)), Retrieve(nodes, q, limit, cost);
    CandidatesHold(nodes, q);
    SelectedHold(nodes, q, limit, cost);
    PlacedHold(nodes, q, limit, cost);
    ShownAt(p, zone3, cost);
    forall x | x in r ensures Stands(x, nodes, zone3, cost) {
      var i :| 0 <= i < |r| && r[i] == x;
      assert p[i] in p && p[i] in Candidates(nodes, q);
      ShownStand(p[i], nodes, zone3, cost);
    }
  }

  lemma DirectLeftOut(nodes: seq<Node>, q: Query, limit: nat, cost: Cost, n: Node)
    requires UniqueNodes(nodes) && n in nodes && IsDirect(n, q)
    ensures var r := Retrieve(nodes, q, limit, cost); Has(r, n.id) || Total(r) + cost(n) > limit
  {
    var p, zone3, r := Placed(nodes, q, limit, cost), Zone3(Candidates(nodes, q)), Retrieve(nodes, q, limit, cost);
    var c := DirectOf(n, q);
    CandidatesHold(nodes, q);
    assert IsDirectOf(c, nodes, q);
    SelectedHold(nodes, q, limit, cost);
    PlacedHold(nodes, q, limit, cost);
    TotalShown(p, zone3, cost);
    if c in p {
      var i := Member(p, c);
      ShownAt(p, zone3, cost);
      assert r[i] in r && r[i].id == n.id;
    }
  }

  /** What is returned: within the budget, no node twice, ranked, each an active node with its zone and
      its price; every direct candidate that is left out would not fit into what remains. */
  lemma RetrievalIsBounded(nodes: seq<Node>, q: Query, limit: nat, cost: Cost)
    requires UniqueNodes(nodes)
    ensures var r := Retrieve(nodes, q, limit, cost);
            && Total(r) <= limit
            && (forall i, j :: 0 <= i < j < |r| ==> r[i].id != r[j].id && Ranked(r[i], r[j], Candidates(nodes, q)))
            && (forall x | x in r :: Stands(x, nodes, Zone3(Candidates(nodes, q)), cost))
            && (forall n | n in nodes && IsDirect(n, q) :: Has(r, n.id) || Total(r) + cost(n) > limit)
  {
    SelectedHold(nodes, q, limit, cost);
    PlacedHold(nodes, q, limit, cost);
    TotalShown(Placed(nodes, q, limit, cost), Zone3(Candidates(nodes, q)), cost);
    ReturnedAreRanked(nodes, q, limit, cost);
    ReturnedStand(nodes, q, limit, cost);
    forall n | n in nodes && IsDirect(n, q)
      ensures var r := Retrieve(nodes, q, limit, cost); Has(r, n.id) || Total(r) + cost(n) > limit
    {
      DirectLeftOut(nodes, q, limit, cost, n);
    }
  }

  // The node of a returned entry that is no direct candidate was reached from a foremost one.
  predicate Justified(x: Retrieved, nodes: seq<Node>, q: Query) {
    exists c | c in Candidates(nodes, q) :: c.node.id == x.id && c.expansion && Reached(Sources(nodes, q), c, nodes)
  }

  lemma {:induction false} KeptInOrder(r: seq<Retrieved>, p: Retrieved -> bool)
    ensures |Keep(r, p)| <= |r|
    ensures (forall i, j :: 0 <= i < j < |r| ==> r[i].id != r[j].id) ==>
              forall i, j :: 0 <= i < j < |Keep(r, p)| ==> Keep(r, p)[i].id != Keep(r, p)[j].id
  {
    if r != [] {
      var n := |r| - 1;
      KeptInOrder(r[..n], p);
      KeepHolds(r[..n], p);
      if forall i, j :: 0 <= i < j < |r| ==> r[i].id != r[j].id {
        var k := Keep(r[..n], p);
        forall i | 0 <= i < |k| ensures k[i].id != r[n].id {
          assert k[i] in k;
          var j :| 0 <= j < n && r[..n][j] == k[i];
          assert r[j].id != r[n].id;
        }
      }
    }
  }

  // Different ids, each of some candidate found: no more entries than found.
  lemma {:induction false} NoMoreThanFound(r: seq<Retrieved>, ids: set<Id>)
    requires forall i, j :: 0 <= i < j < |r| ==> r[i].id != r[j].id
    requires forall x | x in r :: x.id in ids
    ensures |r| <= |ids|
  {
    if r != [] {
      var n := |r| - 1;
      assert r[n] in r;
      forall x | x in r[..n] ensures x.id in ids - {r[n].id} {
        assert x in r;
        var i :| 0 <= i < n && r[..n][i] == x;
        assert r[i].id != r[n].id;
      }
      NoMoreThanFound(r[..n], ids - {r[n].id});
    }
  }

  lemma ExpansionsAreFound(nodes: seq<Node>, q: Query, c: Candidate)
    requires UniqueNodes(nodes) && c in Candidates(nodes, q) && c.expansion
    ensures c in Expand(SortedDirects(nodes, q), Sources(nodes, q), nodes).found
  {
    var direct := SortedDirects(nodes, q);
    var found := Expand(direct, Sources(nodes, q), nodes).found;
    DirectsHold(nodes, q);
    SortKeeps(Directs(nodes, q), Ahead);
    SortKeeps(direct + found, Ahead);
    assert c in direct || c in found;
  }

  lemma FoundAreFew(nodes: seq<Node>, q: Query)
    requires UniqueNodes(nodes)
    ensures |Ids(Expand(SortedDirects(nodes, q), Sources(nodes, q), nodes).found)| <= MAX_EXPANSIONS
  {
    var direct := SortedDirects(nodes, q);
    DirectsHold(nodes, q);
    SortUnique(Directs(nodes, q));
    ExpandGrows(direct, Sources(nodes, q), Sources(nodes, q), nodes);
    IdsAreFew(Expand(direct, Sources(nodes, q), nodes).found);
  }

  lemma BeyondIsFound(nodes: seq<Node>, q: Query, limit: nat, cost: Cost, x: Retrieved)
    requires UniqueNodes(nodes) && x in Beyond(Retrieve(nodes, q, limit, cost), DirectIds(nodes, q))
    ensures Justified(x, nodes, q)
    ensures x.id in Ids(Expand(SortedDirects(nodes, q), Sources(nodes, q), nodes).found)
  {
    var p, zone3, direct := Placed(nodes, q, limit, cost), Zone3(Candidates(nodes, q)), DirectIds(nodes, q);
    var r := Retrieve(nodes, q, limit, cost);
    PlacedHold(nodes, q, limit, cost);
    SelectedHold(nodes, q, limit, cost);
    KeepHolds(r, (x: Retrieved) => x.id !in direct);
    ShownAt(p, zone3, cost);
    var i :| 0 <= i < |r| && r[i] == x;
    BeyondIsReached(nodes, q, p[i]);
  }

  lemma BeyondIsReached(nodes: seq<Node>, q: Query, c: Candidate)
    requires UniqueNodes(nodes) && c in Candidates(nodes, q) && c.node.id !in DirectIds(nodes, q)
    ensures c.expansion && Reached(Sources(nodes, q), c, nodes)
    ensures c in Expand(SortedDirects(nodes, q), Sources(nodes, q), nodes).found
  {
    KindsTellDirects(nodes, q);
    CandidatesHold(nodes, q);
    ExpansionsAreFound(nodes, q, c);
  }

  lemma BeyondFitsItsShare(nodes: seq<Node>, q: Query, limit: nat, cost: Cost)
    requires UniqueNodes(nodes)
    ensures Total(Beyond(Retrieve(nodes, q, limit, cost), DirectIds(nodes, q))) <= limit * 3 / 10
  {
    SelectedHold(nodes, q, limit, cost);
    PlacedHold(nodes, q, limit, cost);
    KindsTellDirects(nodes, q);
    ShownBeyond(Placed(nodes, q, limit, cost), Zone3(Candidates(nodes, q)), cost, DirectIds(nodes, q));
  }

  /** What is returned beyond the direct candidates: within its share, at most twelve entries, each
      reached by a strong link of one of the three foremost direct candidates. */
  lemma NeighboursAreBounded(nodes: seq<Node>, q: Query, limit: nat, cost: Cost)
    requires UniqueNodes(nodes)
    ensures var beyond := Beyond(Retrieve(nodes, q, limit, cost), DirectIds(nodes, q));
            && Total(beyond) <= limit * 3 / 10 && |beyond| <= MAX_EXPANSIONS
            && (forall x | x in beyond :: Justified(x, nodes, q))
  {
    var r, direct := Retrieve(nodes, q, limit, cost), DirectIds(nodes, q);
    var found := Ids(Expand(SortedDirects(nodes, q), Sources(nodes, q), nodes).found);
    BeyondFitsItsShare(nodes, q, limit, cost);
    forall x | x in Beyond(r, direct) ensures Justified(x, nodes, q) && x.id in found {
      BeyondIsFound(nodes, q, limit, cost, x);
    }
    RetrievalIsBounded(nodes, q, limit, cost);
    KeptInOrder(r, (x: Retrieved) => x.id !in direct);
    NoMoreThanFound(Beyond(r, direct), found);
    FoundAreFew(nodes, q);
  }

  // ---- The results, in numbers ----

  // A higher fused score comes first, then the anchor score, the importance and the id.
  predicate Leading(a: Candidate, b: Candidate) {
    || a.score > b.score
    || (a.score == b.score && a.anchor > b.anchor)
    || (a.score == b.score && a.anchor == b.anchor && a.node.importance > b.node.importance)
    || (a.score == b.score && a.anchor == b.anchor && a.node.importance == b.node.importance
        && Before(a.node.id, b.node.id))
  }

  // What is shown of a candidate: a zone of its own stays, an automatic node is in zone 3 when it is raised.
  predicate Shows(x: Retrieved, c: Candidate, raised: set<Id>, cost: Cost) {
    && x.id == c.node.id && x.tokens == cost(c.node) && x.score == c.anchor
    && (x.zone == 0 <==> c.node.zone == Zero)
    && (x.zone == 3 <==> c.node.zone == Three || (c.node.zone == Auto && c.node.id in raised))
    && x.zone in {0, 2, 3}
  }

  lemma AheadLeads(a: Candidate, b: Candidate)
    ensures Ahead(a, b) <==> Leading(a, b)
  {
  }

  lemma PresentShows(c: Candidate, raised: set<Id>, cost: Cost)
    ensures Shows(Present(c, raised, cost), c, raised, cost)
  {
  }

  /** Every result shows a candidate, with its own price, anchor score and zone. */
  lemma ResultsExactly(nodes: seq<Node>, q: Query, limit: nat, cost: Cost)
    requires UniqueNodes(nodes)
    ensures forall x | x in Retrieve(nodes, q, limit, cost) ::
              exists c | c in Candidates(nodes, q) :: Shows(x, c, Zone3(Candidates(nodes, q)), cost)
  {
    var p, zone3, r := Placed(nodes, q, limit, cost), Zone3(Candidates(nodes, q)), Retrieve(nodes, q, limit, cost);
    hide Placed, Zone3, Candidates, Selected, Present, Shows, Sorted, UniqueIds, Tokens, Share, InOrder;
    SelectedHold(nodes, q, limit, cost);
    PlacedHold(nodes, q, limit, cost);
    ShownAt(p, zone3, cost);
    forall x | x in r ensures exists c | c in Candidates(nodes, q) :: Shows(x, c, zone3, cost) {
      var i :| 0 <= i < |r| && r[i] == x;
      PresentShows(p[i], zone3, cost);
      assert p[i] in p && p[i] in Candidates(nodes, q);
    }
  }

  /** The results come in the order of their zones, and inside a zone by fused score, anchor score, importance and
      id of their candidates. */
  lemma OrderExactly(nodes: seq<Node>, q: Query, limit: nat, cost: Cost)
    requires UniqueNodes(nodes)
    ensures var r, all := Retrieve(nodes, q, limit, cost), Candidates(nodes, q);
            forall i, j, a, b | 0 <= i < j < |r| && a in all && b in all ::
              r[i].id == a.node.id && r[j].id == b.node.id ==>
                r[i].zone < r[j].zone || (r[i].zone == r[j].zone && Leading(a, b))
  {
    hide Retrieve, Candidates, Ahead, Leading;
    ReturnedAreRanked(nodes, q, limit, cost);
    forall a, b ensures Ahead(a, b) <==> Leading(a, b) {
      AheadLeads(a, b);
    }
  }

  /** The direct candidates are the nodes that an anchor or the vector search hit, and those of zone 0; each with
      its own two scores. */
  lemma DirectsExactly(nodes: seq<Node>, q: Query, n: Node)
    requires UniqueNodes(nodes) && n in nodes
    ensures Candidate(n, q.anchor(n.id), q.fused(n.id), false) in Candidates(nodes, q)
            <==> q.anchor(n.id) > 0.0 || n.id in q.ranked || n.zone == Zero
    ensures forall c | c in Candidates(nodes, q) && c.node == n && !c.expansion ::
              c == Candidate(n, q.anchor(n.id), q.fused(n.id), false)
  {
    CandidatesHold(nodes, q);
    assert DirectOf(n, q) == Candidate(n, q.anchor(n.id), q.fused(n.id), false);
    assert DirectOf(n, q).node == n && (IsDirect(n, q) ==> IsDirectOf(DirectOf(n, q), nodes, q));
  }

  // A direct hit on an automatic node, of at least 0.45 and at least three quarters of every such hit.
  predicate Near(c: Candidate, candidates: seq<Candidate>) {
    && !c.expansion && c.node.zone == Auto && c.anchor >= 0.45
    && forall d | d in candidates && !d.expansion && d.node.zone == Auto && d.anchor >= 0.45 ::
         c.anchor >= d.anchor * 0.75
  }

  /** Raised into zone 3 are exactly the two foremost of those, or all of them when there are no more. */
  lemma RaisedExactly(candidates: seq<Candidate>)
    requires Sorted(candidates, Ahead) && UniqueIds(candidates)
    ensures var raised := Zone3(candidates);
            && |raised| <= 2
            && (forall c | c in candidates && c.node.id in raised :: Near(c, candidates))
            && (forall c | c in candidates && Near(c, candidates) && c.node.id !in raised ::
                  |raised| == 2 && forall d | d in candidates && d.node.id in raised :: Leading(d, c))
  {
    hide Zone3, Zone3Eligible, Near, Ahead, Leading, Sorted, UniqueIds;
    RaisedAreForemost(candidates);
    forall a, b ensures Ahead(a, b) <==> Leading(a, b) {
      AheadLeads(a, b);
    }
    forall c | c in candidates ensures Near(c, candidates) <==> Zone3Eligible(c, TopAnchor(candidates)) {
      NearTheTop(c, candidates);
    }
  }

  lemma NearTheTop(c: Candidate, candidates: seq<Candidate>)
    requires c in candidates
    ensures Near(c, candidates) <==> Zone3Eligible(c, TopAnchor(candidates))
  {
    TopIsTop(candidates);
    var top := TopAnchor(candidates);
    if Zone3Eligible(c, top) {
      forall d | d in candidates && !d.expansion && d.node.zone == Auto && d.anchor >= 0.45
        ensures c.anchor >= d.anchor * 0.75
      {
        assert Zone3Eligible(d, 0.0);
      }
    }
  }

  // The edges that lead to a known node with any weight.
  function Outgoing(edges: seq<Edge>, known: set<Id>): set<nat> {
    set i: nat | i < |edges| && edges[i].weight > 0.0 && edges[i].target in known
  }

  lemma LastLinkPlace(edges: seq<Edge>, known: set<Id>)
    requires edges != []
    ensures var n := |edges| - 1;
            Outgoing(edges, known) == Outgoing(edges[..n], known)
                                      + (if edges[n].weight > 0.0 && edges[n].target in known then {n} else {})
            && n !in Outgoing(edges[..n], known)
  {
  }

  lemma {:induction false} LinksAreEdges(edges: seq<Edge>, known: set<Id>)
    ensures |Links(edges, known)| == |Outgoing(edges, known)|
  {
    if edges == [] {
      assert Outgoing(edges, known) == {};
    } else {
      LinksAreEdges(edges[..|edges| - 1], known);
      MoreLinks(edges, known);
    }
  }

  lemma MoreLinks(edges: seq<Edge>, known: set<Id>)
    requires edges != []
    requires |Links(edges[..|edges| - 1], known)| == |Outgoing(edges[..|edges| - 1], known)|
    ensures |Links(edges, known)| == |Outgoing(edges, known)|
  {
    hide Outgoing;
    LastLinkPlace(edges, known);
  }

  predicate IsLinkOf(l: Link, edges: seq<Edge>) {
    exists e | e in edges :: l == Link(e.target, e.weight)
  }

  lemma {:induction false} LinksExactly(edges: seq<Edge>, known: set<Id>, l: Link)
    ensures l in Links(edges, known) <==> l.weight > 0.0 && l.target in known && IsLinkOf(l, edges)
  {
    if edges != [] {
      var init, e := edges[..|edges| - 1], edges[|edges| - 1];
      LinksExactly(init, known, l);
      assert edges == init + [e];
    }
  }

  /** A source with more than twelve links is a hub. Its links of at least 0.7 are followed, the links of other
      sources from 0.4 on: the four, or six, heaviest. */
  lemma FollowedExactly(n: Node, known: set<Id>)
    ensures var hub := |Outgoing(n.edges, known)| > 12;
            var f, least, most := Followed(n, known), if hub then 0.7 else 0.4, if hub then 4 else 6;
            && IsHub(n, known) == hub && |f| <= most
            && (forall l | l in f ::
                  l.weight >= least && l.target in known && exists e | e in n.edges :: l == Link(e.target, e.weight))
            && (forall e | e in n.edges && e.target in known && e.weight >= least ::
                  || Link(e.target, e.weight) in f
                  || (|f| == most && forall l | l in f ::
                        l.weight > e.weight || (l.weight == e.weight && !Before(e.target, l.target))))
  {
    LinksAreEdges(n.edges, known);
    var f := Followed(n, known);
    forall l | l in f
      ensures l.weight >= LeastWeight(IsHub(n, known)) && l.target in known
              && exists e | e in n.edges :: l == Link(e.target, e.weight)
    {
      FollowedHolds(n, known, l);
      var e :| e in n.edges && e.target == l.target && e.weight == l.weight;
      assert l == Link(e.target, e.weight);
    }
    forall e | e in n.edges && e.target in known && e.weight >= LeastWeight(IsHub(n, known))
      ensures Link(e.target, e.weight) in f
              || (|f| == (if IsHub(n, known) then 4 else 6)
                    && forall l | l in f :: !Heavier(Link(e.target, e.weight), l))
    {
      LinksExactly(n.edges, known, Link(e.target, e.weight));
      if Link(e.target, e.weight) !in f {
        HeaviestAreFollowed(n, known, Link(e.target, e.weight));
      }
    }
  }

  /** The sources are the three foremost direct candidates, or all of them when there are no more. */
  lemma SourcesAreForemost(nodes: seq<Node>, q: Query, c: Candidate)
    requires UniqueNodes(nodes) && c in Candidates(nodes, q) && !c.expansion
    ensures |Sources(nodes, q)| <= 3
    ensures c in Sources(nodes, q) || (|Sources(nodes, q)| == 3 && forall s | s in Sources(nodes, q) :: Leading(s, c))
  {
    var direct := SortedDirects(nodes, q);
    CandidatesHold(nodes, q);
    DirectsHold(nodes, q);
    SortUnique(Directs(nodes, q));
    assert c in direct;
    if c !in Sources(nodes, q) {
      var i := Member(direct, c);
      assert forall s | s in direct[..3] :: exists j :: 0 <= j < 3 && direct[j] == s;
    }
  }

  // ---- What the passes decide, candidate by candidate ----

  lemma {:induction false} KeepSame<T>(s: seq<T>, p: T -> bool, q: T -> bool)
    requires forall x | x in s :: p(x) == q(x)
    ensures Keep(s, p) == Keep(s, q)
  {
    if s != [] {
      assert s[|s| - 1] in s && forall x :: x in s[..|s| - 1] ==> x in s;
      KeepSame(s[..|s| - 1], p, q);
    }
  }

  // What was taken of the candidates ahead of the i-th.
  function Taken(candidates: seq<Candidate>, picked: seq<Candidate>, i: nat): seq<Candidate>
    requires i <= |candidates|
  {
    Keep(candidates[..i], (c: Candidate) => c in picked)
  }

  lemma TakenNone(candidates: seq<Candidate>, i: nat)
    requires candidates == [] && i == 0
    ensures forall picked :: Taken(candidates, picked, i) == []
  {
  }

  lemma TakenBefore(candidates: seq<Candidate>, picked: seq<Candidate>, more: seq<Candidate>, i: nat)
    requires candidates != [] && UniqueIds(candidates) && i < |candidates|
    requires forall c :: c in more ==> c in picked || c == candidates[|candidates| - 1]
    requires forall c :: c in picked ==> c in more
    ensures Taken(candidates, more, i) == Taken(candidates[..|candidates| - 1], picked, i)
  {
    var init := candidates[..|candidates| - 1];
    assert candidates[..i] == init[..i];
    forall c | c in init[..i] ensures (c in more) == (c in picked) {
      var k :| 0 <= k < i && init[k] == c;
      assert candidates[k].node.id != candidates[|candidates| - 1].node.id;
    }
    KeepSame(init[..i], (c: Candidate) => c in more, (c: Candidate) => c in picked);
  }

  lemma TakenAll(candidates: seq<Candidate>, picked: seq<Candidate>, more: seq<Candidate>)
    requires candidates != [] && UniqueIds(candidates)
    requires forall c :: c in more ==> c in picked || c == candidates[|candidates| - 1]
    requires forall c :: c in picked ==> c in more
    ensures var n := |candidates| - 1;
            Taken(candidates, more, n + 1) ==
              Taken(candidates[..n], picked, n) + if candidates[n] in more then [candidates[n]] else []
  {
    var n := |candidates| - 1;
    TakenBefore(candidates, picked, more, n);
    assert candidates[..n + 1][..n] == candidates[..n] && candidates[..n][..n] == candidates[..n];
  }

  lemma {:induction false} DirectPassTakes(candidates: seq<Candidate>, neighbours: bool, limit: nat, cost: Cost, i: nat)
    requires UniqueIds(candidates) && i <= |candidates|
    ensures var s, before := DirectPass(candidates, neighbours, limit, cost),
                DirectPass(candidates[..i], neighbours, limit, cost);
            Taken(candidates, s.selected, i) == before.selected && Taken(candidates, s.deferred, i) == before.deferred
  {
    hide Taken, UniqueIds;
    if candidates == [] {
      assert candidates[..i] == [];
      TakenNone(candidates, i);
    } else {
      var n := |candidates| - 1;
      var init := candidates[..n];
      UniqueInit(candidates);
      var s, more := DirectPass(init, neighbours, limit, cost), DirectPass(candidates, neighbours, limit, cost);
      if i <= n {
        DirectPassTakes(init, neighbours, limit, cost, i);
        TakenBefore(candidates, s.selected, more.selected, i);
        TakenBefore(candidates, s.deferred, more.deferred, i);
        assert init[..i] == candidates[..i];
      } else {
        DirectPassTakes(init, neighbours, limit, cost, n);
        LastIsNew(candidates, s, neighbours, limit, cost);
        TakenAll(candidates, s.selected, more.selected);
        TakenAll(candidates, s.deferred, more.deferred);
        assert init[..n] == init && candidates[..i] == candidates;
      }
    }
  }

  lemma LastIsNew(candidates: seq<Candidate>, s: Spent, neighbours: bool, limit: nat, cost: Cost)
    requires candidates != [] && UniqueIds(candidates)
    requires s == DirectPass(candidates[..|candidates| - 1], neighbours, limit, cost)
    ensures candidates[|candidates| - 1] !in s.selected && candidates[|candidates| - 1] !in s.deferred
  {
    UniqueInit(candidates);
    DirectPassHandles(candidates[..|candidates| - 1], neighbours, limit, cost);
  }

  lemma LastIsNotPicked(used: nat, candidates: seq<Candidate>, limit: nat, share: nat, cost: Cost)
    requires candidates != [] && UniqueIds(candidates)
    ensures candidates[|candidates| - 1] !in Pass(used, candidates[..|candidates| - 1], limit, share, cost).picked
  {
    UniqueInit(candidates);
    PassPicks(used, candidates[..|candidates| - 1], limit, share, cost);
  }

  lemma {:induction false} PassTakes(used: nat, candidates: seq<Candidate>, limit: nat, share: nat, cost: Cost, i: nat)
    requires UniqueIds(candidates) && i <= |candidates|
    ensures Taken(candidates, Pass(used, candidates, limit, share, cost).picked, i)
            == Pass(used, candidates[..i], limit, share, cost).picked
  {
    hide Taken, UniqueIds;
    if candidates == [] {
      assert candidates[..i] == [];
      TakenNone(candidates, i);
    } else {
      var n := |candidates| - 1;
      var init := candidates[..n];
      UniqueInit(candidates);
      var s, more := Pass(used, init, limit, share, cost), Pass(used, candidates, limit, share, cost);
      if i <= n {
        PassTakes(used, init, limit, share, cost, i);
        TakenBefore(candidates, s.picked, more.picked, i);
        assert init[..i] == candidates[..i];
      } else {
        PassTakes(used, init, limit, share, cost, n);
        LastIsNotPicked(used, candidates, limit, share, cost);
        TakenAll(candidates, s.picked, more.picked);
        assert init[..n] == init && candidates[..i] == candidates;
      }
    }
  }

  // What a candidate is taken by is what was taken of the ones ahead of it.
  ghost predicate TakenInTurn(candidates: seq<Candidate>, picked: seq<Candidate>, used: nat, limit: nat, share: nat,
                              cost: Cost)
  {
    forall i :: 0 <= i < |candidates| ==>
      var p := Tokens(Taken(candidates, picked, i), cost) + cost(candidates[i].node);
      candidates[i] in picked <==> used + p <= limit && p <= share
  }

  // What one candidate does to the pass over those ahead of it.
  lemma PassTurns(used: nat, candidates: seq<Candidate>, limit: nat, share: nat, cost: Cost, i: nat)
    requires UniqueIds(candidates) && i < |candidates| && used <= limit
    ensures var before, s := Pass(used, candidates[..i], limit, share, cost),
                Pass(used, candidates[..i + 1], limit, share, cost);
            var p := Tokens(before.picked, cost) + cost(candidates[i].node);
            candidates[i] in s.picked <==> used + p <= limit && p <= share
  {
    hide UniqueIds;
    UniquePrefix(candidates, i);
    PassPicks(used, candidates[..i], limit, share, cost);
    PassSums(used, candidates[..i], limit, share, cost);
    assert candidates[..i + 1][..i] == candidates[..i] && candidates[..i + 1][i] == candidates[i];
  }

  lemma PassDecides(used: nat, candidates: seq<Candidate>, limit: nat, share: nat, cost: Cost)
    requires UniqueIds(candidates) && used <= limit
    ensures TakenInTurn(candidates, Pass(used, candidates, limit, share, cost).picked, used, limit, share, cost)
  {
    hide Pass, Taken, UniqueIds, Tokens;
    var picked := Pass(used, candidates, limit, share, cost).picked;
    forall i | 0 <= i < |candidates|
      ensures var p := Tokens(Taken(candidates, picked, i), cost) + cost(candidates[i].node);
              candidates[i] in picked <==> used + p <= limit && p <= share
    {
      PassTakes(used, candidates, limit, share, cost, i);
      PassTakes(used, candidates, limit, share, cost, i + 1);
      PassTurns(used, candidates, limit, share, cost, i);
      IsTaken(candidates, picked, i);
    }
  }

  lemma UniquePrefix(candidates: seq<Candidate>, i: nat)
    requires UniqueIds(candidates) && i < |candidates|
    ensures UniqueIds(candidates[..i]) && IsNew(candidates[i], candidates[..i]) && candidates[i] !in candidates[..i]
  {
  }

  lemma IsTaken(candidates: seq<Candidate>, picked: seq<Candidate>, i: nat)
    requires i < |candidates|
    ensures candidates[i] in picked <==> candidates[i] in Taken(candidates, picked, i + 1)
  {
    KeepHolds(candidates[..i + 1], (c: Candidate) => c in picked);
    assert candidates[..i + 1][i] == candidates[i];
  }

  // A direct candidate is taken unless it does not fit, or it would go beyond the reserve behind another.
  ghost predicate DirectsInTurn(direct: seq<Candidate>, s: Spent, neighbours: bool, limit: nat, cost: Cost) {
    forall i :: 0 <= i < |direct| ==> IsDecided(direct, s, neighbours, limit, cost, i)
  }

  ghost predicate IsDecided(direct: seq<Candidate>, s: Spent, neighbours: bool, limit: nat, cost: Cost, i: nat)
    requires i < |direct|
  {
    var used, tokens := Tokens(Taken(direct, s.selected, i), cost), cost(direct[i].node);
    var waits := neighbours && used + tokens > limit * 7 / 10 && used > 0;
    && (direct[i] in s.selected <==> used + tokens <= limit && !waits)
    && (direct[i] in s.deferred <==> used + tokens <= limit && waits)
  }

  // What one direct candidate does to the pass over those ahead of it.
  lemma DirectPassTurns(direct: seq<Candidate>, neighbours: bool, limit: nat, cost: Cost, i: nat)
    requires UniqueIds(direct) && i < |direct|
    ensures var before, s := DirectPass(direct[..i], neighbours, limit, cost),
                DirectPass(direct[..i + 1], neighbours, limit, cost);
            var tokens := cost(direct[i].node);
            var waits := neighbours && before.used + tokens > limit * 7 / 10 && before.used > 0;
            && (direct[i] in s.selected <==> before.used + tokens <= limit && !waits)
            && (direct[i] in s.deferred <==> before.used + tokens <= limit && waits)
  {
    hide UniqueIds, Tokens;
    UniquePrefix(direct, i);
    DirectPassHandles(direct[..i], neighbours, limit, cost);
    assert direct[..i + 1][..i] == direct[..i] && direct[..i + 1][i] == direct[i];
  }

  lemma DirectPassDecides(direct: seq<Candidate>, neighbours: bool, limit: nat, cost: Cost)
    requires UniqueIds(direct)
    ensures DirectsInTurn(direct, DirectPass(direct, neighbours, limit, cost), neighbours, limit, cost)
  {
    hide DirectPass, Taken, UniqueIds, Tokens;
    var s := DirectPass(direct, neighbours, limit, cost);
    forall i | 0 <= i < |direct| ensures IsDecided(direct, s, neighbours, limit, cost, i) {
      DirectPassTakes(direct, neighbours, limit, cost, i);
      DirectPassTakes(direct, neighbours, limit, cost, i + 1);
      DirectPassSums(direct[..i], neighbours, limit, cost);
      DirectPassTurns(direct, neighbours, limit, cost, i);
      IsTaken(direct, s.selected, i);
      IsTaken(direct, s.deferred, i);
    }
  }

  /** The order decides. Direct candidates are offered the budget in rank order, then the neighbours theirs, then
      what had to wait: each is taken exactly when it fits with what was taken ahead of it, and a direct one
      waits exactly when it would go beyond 70% of the budget behind another while there are neighbours. */
  lemma BudgetIsSpentInOrder(direct: seq<Candidate>, neighbours: seq<Candidate>, limit: nat, cost: Cost)
    requires Kinds(direct, neighbours)
    ensures exists s: Spent, second: seq<Candidate>, last: seq<Candidate> ::
              && SpendAll(direct, neighbours, limit, cost) == s.selected + second + last
              && DirectsInTurn(direct, s, neighbours != [], limit, cost)
              && TakenInTurn(neighbours, second, Tokens(s.selected, cost), limit, limit * 3 / 10, cost)
              && TakenInTurn(s.deferred, last, Tokens(s.selected + second, cost), limit, limit, cost)
  {
    var s := DirectPass(direct, neighbours != [], limit, cost);
    var second := ExpansionPass(direct, neighbours, limit, cost);
    var last := LastPass(direct, neighbours, limit, cost);
    DirectPassDecides(direct, neighbours != [], limit, cost);
    DirectPassSums(direct, neighbours != [], limit, cost);
    DirectPassHandles(direct, neighbours != [], limit, cost);
    UniqueParts(s.selected, s.deferred);
    PassDecides(s.used, neighbours, limit, limit * 3 / 10, cost);
    PassSums(s.used, neighbours, limit, limit * 3 / 10, cost);
    SumJoins(s.selected, second.picked, CostOf(cost));
    PassDecides(second.used, s.deferred, limit, limit, cost);
    assert SpendAll(direct, neighbours, limit, cost) == s.selected + second.picked + last.picked;
  }

  // ---- No neighbour is passed over ----

  predicate Settled(x: Expansion, l: Link, nodes: seq<Node>) {
    |x.found| >= MAX_EXPANSIONS || l.target in x.included || !IsKnown(nodes, l.target)
  }

  lemma {:induction false} FollowSettles(x: Expansion, source: Candidate, links: seq<Link>, nodes: seq<Node>)
    ensures x.included <= Follow(x, source, links, nodes).included
              && |x.found| <= |Follow(x, source, links, nodes).found|
    ensures forall l | l in links :: Settled(Follow(x, source, links, nodes), l, nodes)
  {
    if links != [] {
      FollowSettles(x, source, links[..|links| - 1], nodes);
      assert links == links[..|links| - 1] + [links[|links| - 1]];
    }
  }

  lemma {:induction false} ExpandSettles(direct: seq<Candidate>, sources: seq<Candidate>, nodes: seq<Node>)
    ensures forall s, l | s in sources && l in Followed(s.node, Known(nodes)) ::
              Settled(Expand(direct, sources, nodes), l, nodes)
  {
    if sources != [] {
      var init, last := sources[..|sources| - 1], sources[|sources| - 1];
      ExpandSettles(direct, init, nodes);
      var before, links := Expand(direct, init, nodes), Followed(last.node, Known(nodes));
      FollowSettles(before, last, links, nodes);
      assert sources == init + [last];
      forall s, l | s in sources && l in Followed(s.node, Known(nodes))
        ensures Settled(Follow(before, last, links, nodes), l, nodes)
      {
        assert s == last || Settled(before, l, nodes);
      }
    }
  }

  lemma HeavierIsOrder()
    ensures Order(Heavier)
  {
    forall a: Link ensures !Heavier(a, a) {
      BeforeOrders(a.target, a.target, a.target);
    }
    forall a: Link, b: Link, c: Link | Heavier(a, b) && Heavier(b, c) ensures Heavier(a, c) {
      BeforeOrders(a.target, b.target, c.target);
    }
  }

  /** A strong link is passed over only for a full set of links none of which it outweighs. */
  lemma HeaviestAreFollowed(n: Node, known: set<Id>, l: Link)
    requires l in Links(n.edges, known) && l.weight >= LeastWeight(IsHub(n, known)) && l !in Followed(n, known)
    ensures |Followed(n, known)| == (if IsHub(n, known) then HUB_PER_SOURCE else NORMAL_PER_SOURCE)
    ensures forall f | f in Followed(n, known) :: !Heavier(l, f)
  {
    HeavierIsOrder();
    var strong := Keep(Links(n.edges, known), (l: Link) => l.weight >= LeastWeight(IsHub(n, known)));
    KeepHolds(Links(n.edges, known), (l: Link) => l.weight >= LeastWeight(IsHub(n, known)));
    SortKeeps(strong, Heavier);
    SortOrders(strong, Heavier);
    TakesForemost(Sort(strong, Heavier), if IsHub(n, known) then HUB_PER_SOURCE else NORMAL_PER_SOURCE, l);
  }

  lemma TakesForemost(sorted: seq<Link>, n: nat, l: Link)
    requires Ordered(sorted, Heavier) && l in sorted && l !in Take(sorted, n)
    ensures |Take(sorted, n)| == n && forall f | f in Take(sorted, n) :: !Heavier(l, f)
  {
    hide Heavier;
    assert sorted == sorted[..n] + sorted[n..];
    var j :| 0 <= j < |sorted[n..]| && sorted[n..][j] == l;
    forall f | f in Take(sorted, n) ensures !Heavier(l, f) {
      var i :| 0 <= i < n && Take(sorted, n)[i] == f;
      assert sorted[i] == f && sorted[n + j] == l;
    }
  }

  lemma FollowedIsKnown(n: Node, nodes: seq<Node>, l: Link)
    requires l in Followed(n, Known(nodes))
    ensures IsKnown(nodes, l.target)
  {
    FollowedHolds(n, Known(nodes), l);
    var m :| m in nodes && m.id == l.target;
    var i :| 0 <= i < |nodes| && nodes[i] == m;
  }

  /** Every link that is followed from a foremost direct candidate leads to a candidate, unless twelve
      neighbours were found already. */
  lemma NoNeighbourIsPassedOver(nodes: seq<Node>, q: Query, source: Candidate, l: Link)
    requires UniqueNodes(nodes) && source in Sources(nodes, q) && l in Followed(source.node, Known(nodes))
    ensures l.target in Ids(Candidates(nodes, q)) || |Part(Candidates(nodes, q), true)| == MAX_EXPANSIONS
  {
    var direct := SortedDirects(nodes, q);
    var x := Expand(direct, Sources(nodes, q), nodes);
    DirectsHold(nodes, q);
    SortUnique(Directs(nodes, q));
    ExpandSettles(direct, Sources(nodes, q), nodes);
    ExpandGrows(direct, Sources(nodes, q), Sources(nodes, q), nodes);
    FollowedIsKnown(source.node, nodes, l);
    SortKeeps(direct + x.found, Ahead);
    assert Settled(x, l, nodes);
    if l.target in x.included {
      var c :| (c in direct || c in x.found) && c.node.id == l.target;
      assert c in direct + x.found;
    } else {
      NeighbourCount(direct, x.found);
    }
  }

  lemma {:induction false} CountPart(s: seq<Candidate>)
    ensures |Part(s, true)| == Sum(s, CountOf)
  {
    if s != [] {
      CountPart(s[..|s| - 1]);
    }
  }

  function CountOf(c: Candidate): nat {
    if c.expansion then 1 else 0
  }

  lemma NeighbourCount(direct: seq<Candidate>, found: seq<Candidate>)
    requires (forall c | c in direct :: !c.expansion) && (forall c | c in found :: c.expansion)
    ensures |Part(Sort(direct + found, Ahead), true)| == |found|
  {
    CountPart(Sort(direct + found, Ahead));
    SumSort(direct + found, Ahead, CountOf);
    SumJoins(direct, found, CountOf);
    Counted(direct, 0);
    Counted(found, 1);
  }

  lemma {:induction false} Counted(s: seq<Candidate>, each: nat)
    requires forall c | c in s :: CountOf(c) == each
    ensures Sum(s, CountOf) == |s| * each
  {
    if s != [] {
      assert s[|s| - 1] in s && forall c :: c in s[..|s| - 1] ==> c in s;
      Counted(s[..|s| - 1], each);
    }
  }
}
