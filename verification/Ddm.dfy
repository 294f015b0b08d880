/**
 Dynamic dispositions: bands with hysteresis, and the selection of the strongest.

 Activations are arbitrary reals in [0, 1].
 */
module Ddm {
  import opened Sorting
  import opened Wrappers

  datatype Band = Latent | Salient | Dominant

  datatype Selection = Selection(topK: nat, salient: real, dominant: real, margin: real)

  predicate Valid(s: Selection) {
    && 1 <= s.topK <= 16
    && 0.0 <= s.salient < s.dominant <= 1.0
    && 0.0 <= s.margin <= 0.25 && s.margin < s.salient
  }

  // ---- Bands ----

  function Level(band: Band): nat {
    match band
    case Latent => 0
    case Salient => 1
    case Dominant => 2
  }

  function AtLeastZero(x: real): real {
    if x >= 0.0 then x else 0.0
  }

  function RawBand(s: Selection, activation: real): Band {
    if activation >= s.dominant then Dominant
    else if activation >= s.salient then Salient
    else Latent
  }

  function HystereticBand(s: Selection, activation: real, previous: Option<Band>): Band {
    match previous
    case None => RawBand(s, activation)
    case Some(Latent) => RawBand(s, activation)
    case Some(Salient) =>
      if activation >= s.dominant then Dominant
      else if activation < AtLeastZero(s.salient - s.margin) then Latent
      else Salient
    case Some(Dominant) =>
      if activation >= AtLeastZero(s.dominant - s.margin) then Dominant
      else if activation >= AtLeastZero(s.salient - s.margin) then Salient
      else Latent
  }

  function Threshold(s: Selection, band: Band): real {
    match band
    case Latent => 0.0
    case Salient => s.salient
    case Dominant => s.dominant
  }

  /** A band differs from the raw one only upwards, towards the previous band, and within the margin. */
  lemma BandsLagWithinMargin(s: Selection, activation: real, previous: Option<Band>)
    requires Valid(s) && 0.0 <= activation <= 1.0
    ensures var raw, band := RawBand(s, activation), HystereticBand(s, activation, previous);
            && Level(raw) <= Level(band)
            && activation >= Threshold(s, band) - s.margin
            && (band != raw ==>
              previous.Some? && Level(band) <= Level(previous.value) && activation < Threshold(s, band))
  {
  }

  /** The band is dominant from its threshold on, and at least salient from that one on; whoever was there before
      stays there within the margin below. */
  lemma BandsExactly(s: Selection, activation: real, previous: Option<Band>)
    requires Valid(s) && 0.0 <= activation <= 1.0
    ensures var band := HystereticBand(s, activation, previous);
            && (band == Dominant <==>
                  activation >= s.dominant || (previous == Some(Dominant) && activation >= s.dominant - s.margin))
            && (band != Latent <==>
                  activation >= s.salient
                  || (previous in {Some(Salient), Some(Dominant)} && activation >= s.salient - s.margin))
  {
  }

  // The bands of a run of activations.
  function Bands(s: Selection, activations: seq<real>, previous: Option<Band>): (bands: seq<Band>)
    ensures |bands| == |activations|
  {
    if activations == [] then []
    else
      var band := HystereticBand(s, activations[0], previous);
      [band] + Bands(s, activations[1..], Some(band))
  }

  predicate Within(activations: seq<real>, low: real, high: real) {
    forall i :: 0 <= i < |activations| ==> low <= activations[i] <= high
  }

  predicate Rising(bands: seq<Band>) {
    forall i, j :: 0 <= i < j < |bands| ==> Level(bands[i]) <= Level(bands[j])
  }

  predicate Falling(bands: seq<Band>) {
    forall i, j :: 0 <= i < j < |bands| ==> Level(bands[i]) >= Level(bands[j])
  }

  // Which way a window no wider than the margin lets the band move.
  predicate OnlyUp(s: Selection, high: real, band: Band) {
    high >= s.dominant || (high >= s.salient && band != Dominant)
  }

  lemma {:induction false} OneWay(s: Selection, activations: seq<real>, low: real, high: real, band: Band)
    requires Valid(s) && high - low <= s.margin && 0.0 <= low && Within(activations, low, high)
    ensures var bands := [band] + Bands(s, activations, Some(band));
            if OnlyUp(s, high, band) then Rising(bands) else Falling(bands)
  {
    if activations != [] {
      var a, next := activations[0], HystereticBand(s, activations[0], Some(band));
      OneWay(s, activations[1..], low, high, next);
      var rest := Bands(s, activations[1..], Some(next));
      assert Bands(s, activations, Some(band)) == [next] + rest;
      assert OnlyUp(s, high, band) ==> OnlyUp(s, high, next) && Level(next) >= Level(band);
      assert !OnlyUp(s, high, band) ==> Level(next) <= Level(band);
      if !OnlyUp(s, high, band) && OnlyUp(s, high, next) {
        // From Dominant to Salient, where the window holds it.
        StaysSalient(s, activations[1..], low, high);
        assert Falling([next] + rest);
      }
      MonotoneMore(band, next, rest);
    }
  }

  lemma MonotoneMore(first: Band, next: Band, rest: seq<Band>)
    ensures Rising([next] + rest) && Level(first) <= Level(next) ==> Rising([first] + ([next] + rest))
    ensures Falling([next] + rest) && Level(first) >= Level(next) ==> Falling([first] + ([next] + rest))
  {
    var some, all := [next] + rest, [first] + ([next] + rest);
    assert forall i :: 0 < i < |all| ==> all[i] == some[i - 1];
    if Rising(some) && Level(first) <= Level(next) {
      forall i, j | 0 <= i < j < |all| ensures Level(all[i]) <= Level(all[j]) {
        assert Level(some[0]) <= Level(some[j - 1]);
      }
    }
    if Falling(some) && Level(first) >= Level(next) {
      forall i, j | 0 <= i < j < |all| ensures Level(all[i]) >= Level(all[j]) {
        assert Level(some[0]) >= Level(some[j - 1]);
      }
    }
  }

  lemma {:induction false} StaysSalient(s: Selection, activations: seq<real>, low: real, high: real)
    requires Valid(s) && high - low <= s.margin && 0.0 <= low && Within(activations, low, high)
    requires s.salient <= high < s.dominant
    ensures forall i :: 0 <= i < |activations| ==> Bands(s, activations, Some(Salient))[i] == Salient
  {
    if activations != [] {
      StaysSalient(s, activations[1..], low, high);
    }
  }

  function Changes(bands: seq<Band>): nat {
    if |bands| <= 1 then 0 else Changes(bands[1..]) + if bands[0] != bands[1] then 1 else 0
  }

  lemma {:induction false} MonotoneChangesTwice(bands: seq<Band>)
    requires Rising(bands) || Falling(bands)
    ensures bands != [] ==> Changes(bands) <= (if Rising(bands) then Level(bands[|bands| - 1]) - Level(bands[0])
                                               else Level(bands[0]) - Level(bands[|bands| - 1]))
    ensures Changes(bands) <= 2
  {
    if |bands| > 1 {
      MonotoneChangesTwice(bands[1..]);
      if Rising(bands) && Falling(bands) {
        assert Level(bands[0]) == Level(bands[1]);
      }
    }
  }

  /** No flapping: while activations stay in a window no wider than the margin, the band moves one way
      only, so it changes at most twice. */
  lemma BandsDoNotFlap(s: Selection, activations: seq<real>, low: real, high: real, previous: Option<Band>)
    requires Valid(s) && high - low <= s.margin && 0.0 <= low && Within(activations, low, high)
    ensures var bands := (if previous.Some? then [previous.value] else []) + Bands(s, activations, previous);
            (Rising(bands) || Falling(bands)) && Changes(bands) <= 2
  {
    var bands := (if previous.Some? then [previous.value] else []) + Bands(s, activations, previous);
    if previous.Some? {
      OneWay(s, activations, low, high, previous.value);
    } else if activations != [] {
      OneWay(s, activations[1..], low, high, HystereticBand(s, activations[0], None));
      assert bands == [HystereticBand(s, activations[0], None)]
                      + Bands(s, activations[1..], Some(HystereticBand(s, activations[0], None)));
    }
    MonotoneChangesTwice(bands);
  }

  // ---- Selection ----

  datatype Item = Item(id: string, activation: real, group: Option<string>)

  // Stronger first; ties go to the smaller id.
  predicate Stronger(a: Item, b: Item) {
    a.activation > b.activation || (a.activation == b.activation && Before(a.id, b.id))
  }

  lemma StrongerIsOrder()
    ensures Order(Stronger)
  {
    forall a: Item ensures !Stronger(a, a) {
      BeforeOrders(a.id, a.id, a.id);
    }
    forall a: Item, b: Item, c: Item | Stronger(a, b) && Stronger(b, c) ensures Stronger(a, c) {
      BeforeOrders(a.id, b.id, c.id);
    }
  }

  predicate UniqueIds(items: seq<Item>) {
    forall i, j :: 0 <= i < j < |items| ==> items[i].id != items[j].id
  }

  lemma UniqueIdsOrder(items: seq<Item>)
    requires UniqueIds(items)
    ensures Distinct(items) && TotalOn(items, Stronger)
  {
    forall a, b | a in items && b in items && a != b ensures Stronger(a, b) || Stronger(b, a) {
      BeforeOrders(a.id, b.id, a.id);
    }
  }

  // The best of each group, and everybody without one, in order; the others are left over.
  function GroupBests(sorted: seq<Item>): seq<Item> {
    if sorted == [] then []
    else
      var before := GroupBests(sorted[..|sorted| - 1]);
      if Shadowed(sorted, |sorted| - 1) then before else before + [sorted[|sorted| - 1]]
  }

  function GroupRest(sorted: seq<Item>): seq<Item> {
    if sorted == [] then []
    else
      var before := GroupRest(sorted[..|sorted| - 1]);
      if Shadowed(sorted, |sorted| - 1) then before + [sorted[|sorted| - 1]] else before
  }

  // An earlier item has the same group.
  predicate Shadowed(sorted: seq<Item>, i: int)
    requires 0 <= i < |sorted|
  {
    sorted[i].group.Some? && exists j :: 0 <= j < i && sorted[j].group == sorted[i].group
  }

  function Ids(items: seq<Item>): seq<string> {
    seq(|items|, i requires 0 <= i < |items| => items[i].id)
  }

  datatype Audit = Audit(effective: seq<Item>, suppressed: seq<string>)

  function Select(items: seq<Item>, topK: nat): Audit {
    var sorted := Sort(items, Stronger);
    var bests, rest := GroupBests(sorted), GroupRest(sorted);
    if |bests| > topK then Audit(bests[..topK], Sort(Ids(rest + bests[topK..]), Before))
    else Audit(bests, Sort(Ids(rest), Before))
  }

  method EvaluateWithPrevious(items: seq<Item>, topK: nat) returns (audit: Audit)
    ensures audit == Select(items, topK)
  {
    var sorted := Sort(items, Stronger);
    var groups: set<string> := {};
    var effective: seq<Item>, suppressed: seq<Item> := [], [];
    for i := 0 to |sorted|
      invariant effective == GroupBests(sorted[..i]) && suppressed == GroupRest(sorted[..i])
      invariant forall g :: g in groups <==> exists j :: 0 <= j < i && sorted[j].group == Some(g)
    {
      assert sorted[..i + 1][..i] == sorted[..i];
      var item := sorted[i];
      assert Shadowed(sorted[..i + 1], i) <==> item.group.Some? && item.group.value in groups by {
        assert forall j :: 0 <= j < i ==> sorted[..i + 1][j] == sorted[j];
        if item.group.Some? && item.group.value in groups {
          var j :| 0 <= j < i && sorted[j].group == Some(item.group.value);
          assert sorted[..i + 1][j].group == item.group;
        }
      }
      if item.group.None? {
        effective := effective + [item];
      } else if item.group.value !in groups {
        groups := groups + {item.group.value};
        effective := effective + [item];
      } else {
        suppressed := suppressed + [item];
      }
    }
    assert sorted[..|sorted|] == sorted;
    if |effective| > topK {
      suppressed := suppressed + effective[topK..];
      effective := effective[..topK];
    }
    audit := Audit(effective, Sort(Ids(suppressed), Before));
  }

  lemma GroupsMore(sorted: seq<Item>, init: seq<Item>, last: Item)
    requires sorted != [] && init == sorted[..|sorted| - 1] && last == sorted[|sorted| - 1]
    ensures if Shadowed(sorted, |sorted| - 1)
            then GroupBests(sorted) == GroupBests(init) && GroupRest(sorted) == GroupRest(init) + [last]
            else GroupBests(sorted) == GroupBests(init) + [last] && GroupRest(sorted) == GroupRest(init)
  {
  }

  lemma {:induction false} GroupsSplit(sorted: seq<Item>)
    requires Sorted(sorted, Stronger)
    ensures multiset(GroupBests(sorted)) + multiset(GroupRest(sorted)) == multiset(sorted)
    ensures forall x :: x in GroupBests(sorted) || x in GroupRest(sorted) ==> x in sorted
  {
    if sorted != [] {
      var n := |sorted| - 1;
      GroupsSplit(sorted[..n]);
      GroupsMore(sorted, sorted[..n], sorted[n]);
      SplitMore(sorted[..n], GroupBests(sorted[..n]), GroupRest(sorted[..n]), sorted[n]);
      assert sorted == sorted[..n] + [sorted[n]];
    }
  }

  lemma SplitMore(init: seq<Item>, bests: seq<Item>, rest: seq<Item>, last: Item)
    requires multiset(bests) + multiset(rest) == multiset(init)
    requires forall x :: x in bests || x in rest ==> x in init
    ensures multiset(bests + [last]) + multiset(rest) == multiset(init + [last])
    ensures multiset(bests) + multiset(rest + [last]) == multiset(init + [last])
    ensures forall x :: x in bests + [last] || x in rest + [last] ==> x in init + [last]
  {
  }

  lemma {:induction false} BestsStaySorted(sorted: seq<Item>)
    requires Sorted(sorted, Stronger)
    ensures Sorted(GroupBests(sorted), Stronger)
  {
    if sorted != [] {
      var n := |sorted| - 1;
      var init, last := sorted[..n], sorted[n];
      BestsStaySorted(init);
      GroupsSplit(init);
      forall x | x in init ensures Stronger(x, last) {
        var i :| 0 <= i < n && sorted[i] == x;
      }
    }
  }

  // Where a kept item stands: nothing before it has its group.
  lemma {:induction false} BestAt(sorted: seq<Item>, x: Item) returns (i: nat)
    requires x in GroupBests(sorted)
    ensures i < |sorted| && sorted[i] == x
    ensures x.group.Some? ==> forall j :: 0 <= j < i ==> sorted[j].group != x.group
  {
    var n := |sorted| - 1;
    if x in GroupBests(sorted[..n]) {
      i := BestAt(sorted[..n], x);
      assert forall j :: 0 <= j < i ==> sorted[..n][j] == sorted[j];
    } else {
      i := n;
    }
  }

  // No kept item shares its group with a stronger one.
  lemma BestIsBest(sorted: seq<Item>, x: Item, y: Item)
    requires Sorted(sorted, Stronger) && x in GroupBests(sorted) && y in sorted
    requires x != y && x.group.Some? && x.group == y.group
    ensures Stronger(x, y)
  {
    var i := BestAt(sorted, x);
    var j :| 0 <= j < |sorted| && sorted[j] == y;
    assert i < j;
  }

  // Every disposition is selected or suppressed, and none is both.
  ghost predicate Partitions(items: seq<Item>, audit: Audit) {
    && (forall item | item in items :: (item in audit.effective) != (item.id in audit.suppressed))
    && (forall item | item in audit.effective :: item in items)
    && (forall id | id in audit.suppressed :: exists i :: 0 <= i < |items| && items[i].id == id)
    && |audit.effective| + |audit.suppressed| == |items|
  }

  // Whatever is stronger than a selected item is selected too, or shadowed by its own group.
  ghost predicate SelectsTheStrongest(items: seq<Item>, audit: Audit) {
    && Sorted(audit.effective, Stronger)
    && (forall x, y | x in audit.effective && y in items && x != y && x.group.Some? && x.group == y.group ::
      Stronger(x, y))
  }

  lemma IdsOfDistinct(items: seq<Item>)
    requires UniqueIds(items)
    ensures Distinct(Ids(items))
    ensures forall id :: id in Ids(items) <==> exists i :: 0 <= i < |items| && items[i].id == id
  {
    forall id | id in Ids(items) ensures exists i :: 0 <= i < |items| && items[i].id == id {
      var i :| 0 <= i < |items| && Ids(items)[i] == id;
    }
    forall i | 0 <= i < |items| ensures items[i].id in Ids(items) {
      assert Ids(items)[i] == items[i].id;
    }
  }

  lemma SameIdSameItem(items: seq<Item>, a: Item, b: Item)
    requires UniqueIds(items) && a in items && b in items && a.id == b.id
    ensures a == b
  {
    var i :| 0 <= i < |items| && items[i] == a;
    var j :| 0 <= j < |items| && items[j] == b;
    assert i == j;
  }

  // A sequence without repetition whose items come from one with unique ids has unique ids.
  lemma FewerUniqueIds(part: seq<Item>, items: seq<Item>)
    requires UniqueIds(items) && Distinct(part) && forall x | x in part :: x in items
    ensures UniqueIds(part)
  {
    forall i, j | 0 <= i < j < |part| ensures part[i].id != part[j].id {
      assert part[i] in part && part[j] in part;
      if part[i].id == part[j].id {
        SameIdSameItem(items, part[i], part[j]);
      }
    }
  }

  lemma DistinctByCount(part: seq<Item>, rest: seq<Item>, whole: seq<Item>)
    requires Distinct(whole) && multiset(part) + multiset(rest) == multiset(whole)
    ensures Distinct(part) && Distinct(rest)
    ensures forall x :: x in whole ==> (x in part) != (x in rest)
    ensures forall x :: x in part || x in rest ==> x in whole
    ensures |part| + |rest| == |whole|
  {
    forall x ensures multiset(whole)[x] <= 1 {
      CountOnce(whole, x);
    }
    forall x ensures multiset(part)[x] + multiset(rest)[x] == multiset(whole)[x] {}
    forall x | x in whole ensures (x in part) != (x in rest) {
      assert x in multiset(whole) && (x in part <==> x in multiset(part)) && (x in rest <==> x in multiset(rest));
    }
    forall x | x in part || x in rest ensures x in whole {
      assert (x in part <==> x in multiset(part)) && (x in rest <==> x in multiset(rest)) && x in multiset(whole);
    }
    OnceIsDistinct(part);
    OnceIsDistinct(rest);
    assert |multiset(part)| == |part| && |multiset(rest)| == |rest| && |multiset(whole)| == |whole|;
  }

  lemma {:induction false} CountOnce(s: seq<Item>, x: Item)
    requires Distinct(s)
    ensures multiset(s)[x] <= 1
  {
    if s != [] {
      assert s == [s[0]] + s[1..];
      CountOnce(s[1..], x);
      if x == s[0] {
        assert x !in s[1..];
        assert x !in multiset(s[1..]);
      }
    }
  }

  lemma {:induction false} OnceIsDistinct(s: seq<Item>)
    requires forall x :: multiset(s)[x] <= 1
    ensures Distinct(s)
  {
    if s != [] {
      assert s == [s[0]] + s[1..];
      forall x ensures multiset(s[1..])[x] <= 1 {
        assert multiset(s)[x] == multiset([s[0]])[x] + multiset(s[1..])[x];
      }
      OnceIsDistinct(s[1..]);
      assert multiset(s)[s[0]] == 1 + multiset(s[1..])[s[0]];
      assert s[0] !in s[1..] by {
        assert s[0] !in multiset(s[1..]);
      }
    }
  }

  // Who is left over, before their ids are sorted.
  function LeftOver(items: seq<Item>, topK: nat): seq<Item> {
    var sorted := Sort(items, Stronger);
    var bests := GroupBests(sorted);
    if |bests| > topK then GroupRest(sorted) + bests[topK..] else GroupRest(sorted)
  }

  lemma SelectedAndLeftOver(items: seq<Item>, topK: nat)
    requires UniqueIds(items)
    ensures var sorted, effective, left := Sort(items, Stronger), Select(items, topK).effective, LeftOver(items, topK);
            && Sorted(sorted, Stronger) && Distinct(sorted) && |sorted| == |items|
            && (forall x :: x in sorted <==> x in items)
            && multiset(effective) + multiset(left) == multiset(sorted)
            && Select(items, topK).suppressed == Sort(Ids(left), Before)
  {
    var sorted := Sort(items, Stronger);
    SortedItems(items);
    GroupsSplit(sorted);
    var bests := GroupBests(sorted);
    if |bests| > topK {
      SplitAt(bests, topK);
    }
  }

  lemma SortedItems(items: seq<Item>)
    requires UniqueIds(items)
    ensures var sorted := Sort(items, Stronger);
            Sorted(sorted, Stronger) && Distinct(sorted) && |sorted| == |items| && forall x ::
              x in sorted <==> x in items
  {
    var sorted := Sort(items, Stronger);
    StrongerIsOrder();
    UniqueIdsOrder(items);
    SortSorts(items, Stronger);
    forall i, j | 0 <= i < j < |sorted| ensures sorted[i] != sorted[j] {
      assert Stronger(sorted[i], sorted[j]);
    }
  }

  lemma SplitAt(items: seq<Item>, n: nat)
    requires n <= |items|
    ensures multiset(items[..n]) + multiset(items[n..]) == multiset(items)
  {
    assert items == items[..n] + items[n..];
  }

  /** Selected and suppressed dispositions partition the profile. */
  lemma SelectionPartitions(items: seq<Item>, topK: nat)
    requires UniqueIds(items)
    ensures Partitions(items, Select(items, topK)) && |Select(items, topK).effective| <= topK
  {
    var audit, sorted, left := Select(items, topK), Sort(items, Stronger), LeftOver(items, topK);
    SelectedAndLeftOver(items, topK);
    DistinctByCount(audit.effective, left, sorted);
    FewerUniqueIds(left, items);
    IdsOfDistinct(left);
    BeforeIsOrder();
    BeforeIsTotal(Ids(left));
    SortSorts(Ids(left), Before);
    assert forall id :: id in audit.suppressed <==> id in Ids(left);
    forall item | item in items ensures (item in audit.effective) != (item.id in audit.suppressed) {
      if item in left {
        var i :| 0 <= i < |left| && left[i] == item;
        assert item in sorted;
      } else {
        forall i | 0 <= i < |left| ensures left[i].id != item.id {
          assert left[i] in left;
          if left[i].id == item.id {
            SameIdSameItem(items, left[i], item);
          }
        }
      }
    }
    forall id | id in audit.suppressed ensures exists i :: 0 <= i < |items| && items[i].id == id {
      var j :| 0 <= j < |left| && left[j].id == id;
      assert left[j] in items;
      var i :| 0 <= i < |items| && items[i] == left[j];
    }
  }

  // What is not selected is shadowed by its group or weaker than everything selected.
  ghost predicate Justified(items: seq<Item>, audit: Audit, topK: nat) {
    forall y | y in items && y !in audit.effective ::
      || (exists x | x in items :: x.group.Some? && x.group == y.group && Stronger(x, y))
      || (|audit.effective| == topK && forall x | x in audit.effective :: Stronger(x, y))
  }

  lemma {:induction false} RestIsShadowed(sorted: seq<Item>)
    requires Sorted(sorted, Stronger)
    ensures forall y | y in GroupRest(sorted) :: exists x | x in sorted ::
              x.group.Some? && x.group == y.group && Stronger(x, y)
  {
    if sorted != [] {
      var n := |sorted| - 1;
      RestIsShadowed(sorted[..n]);
      assert sorted == sorted[..n] + [sorted[n]];
      if Shadowed(sorted, n) {
        var j :| 0 <= j < n && sorted[j].group == sorted[n].group;
        assert sorted[j] in sorted && Stronger(sorted[j], sorted[n]);
      }
    }
  }

  // What the limit leaves over is weaker than everything selected.
  lemma LimitLeavesWeaker(bests: seq<Item>, topK: nat, y: Item)
    requires Sorted(bests, Stronger) && topK < |bests| && y in bests && y !in bests[..topK]
    ensures forall x | x in bests[..topK] :: Stronger(x, y)
  {
    assert bests == bests[..topK] + bests[topK..];
    var j :| 0 <= j < |bests[topK..]| && bests[topK..][j] == y;
    forall x | x in bests[..topK] ensures Stronger(x, y) {
      var i :| 0 <= i < topK && bests[i] == x;
      assert bests[topK + j] == y;
    }
  }

  lemma BestsAndRest(items: seq<Item>)
    requires UniqueIds(items)
    ensures var sorted := Sort(items, Stronger);
            && Sorted(sorted, Stronger)
            && (forall x :: x in sorted <==> x in items)
            && (forall x :: x in sorted <==> x in GroupBests(sorted) || x in GroupRest(sorted))
  {
    var sorted := Sort(items, Stronger);
    StrongerIsOrder();
    UniqueIdsOrder(items);
    SortSorts(items, Stronger);
    GroupsSplit(sorted);
    forall x | x in sorted ensures x in GroupBests(sorted) || x in GroupRest(sorted) {
      assert x in multiset(GroupBests(sorted)) + multiset(GroupRest(sorted));
    }
  }

  lemma SelectedAreBests(items: seq<Item>, topK: nat)
    requires UniqueIds(items)
    ensures SelectsTheStrongest(items, Select(items, topK))
  {
    var effective, sorted := Select(items, topK).effective, Sort(items, Stronger);
    BestsAndRest(items);
    BestsStaySorted(sorted);
    forall x, y | x in effective && y in items && x != y && x.group.Some? && x.group == y.group ensures Stronger(x, y) {
      assert x in GroupBests(sorted);
      BestIsBest(sorted, x, y);
    }
  }

  lemma OthersAreJustified(items: seq<Item>, topK: nat)
    requires UniqueIds(items)
    ensures Justified(items, Select(items, topK), topK)
  {
    var effective, sorted := Select(items, topK).effective, Sort(items, Stronger);
    var bests, rest := GroupBests(sorted), GroupRest(sorted);
    BestsAndRest(items);
    BestsStaySorted(sorted);
    RestIsShadowed(sorted);
    forall y | y in items && y !in effective
      ensures (exists x | x in items :: x.group.Some? && x.group == y.group && Stronger(x, y))
           || (|effective| == topK && forall x | x in effective :: Stronger(x, y))
    {
      if y !in rest {
        LimitLeavesWeaker(bests, topK, y);
      }
    }
  }

  /** Selected dispositions are the strongest, in order, each the best of its exclusive group. */
  lemma SelectionIsStrongest(items: seq<Item>, topK: nat)
    requires UniqueIds(items)
    ensures SelectsTheStrongest(items, Select(items, topK)) && Justified(items, Select(items, topK), topK)
  {
    SelectedAreBests(items, topK);
    OthersAreJustified(items, topK);
  }

  // More active, or equally so with the smaller id.
  predicate Outranks(a: Item, b: Item) {
    a.activation >= b.activation && (a.activation == b.activation ==> Before(a.id, b.id))
  }

  /** In terms of activations: the selected come by falling activation and, where it is equal, by id; the suppressed
      ids in order; and a disposition is not selected only behind one of its exclusive group, or behind all
      of a full selection. */
  lemma SelectionExactly(items: seq<Item>, topK: nat)
    requires UniqueIds(items)
    ensures var audit := Select(items, topK);
            && (forall i, j :: 0 <= i < j < |audit.effective| ==> Outranks(audit.effective[i], audit.effective[j]))
            && Sorted(audit.suppressed, Before)
            && (forall x, y | x in audit.effective && y in items && x != y && x.group.Some? && x.group == y.group ::
                  Outranks(x, y) && y !in audit.effective)
            && (forall y | y in items && y !in audit.effective ::
                  || (exists x | x in items :: x != y && x.group.Some? && x.group == y.group && Outranks(x, y))
                  || (|audit.effective| == topK && forall x | x in audit.effective :: Outranks(x, y)))
  {
    hide Select, Stronger, Outranks;
    forall a, b ensures Stronger(a, b) <==> Outranks(a, b) {
      StrongerOutranks(a, b);
    }
    SelectionIsStrongest(items, topK);
    SuppressedAreSorted(items, topK);
    StrongerIsOrder();
    forall x, y | x in Select(items, topK).effective && y in items && x != y && x.group.Some? && x.group == y.group
      ensures y !in Select(items, topK).effective
    {
      if y in Select(items, topK).effective {
        NoSharedGroup(items, topK, x, y);
      }
    }
  }

  lemma StrongerOutranks(a: Item, b: Item)
    ensures Stronger(a, b) <==> Outranks(a, b)
  {
  }

  lemma SuppressedAreSorted(items: seq<Item>, topK: nat)
    requires UniqueIds(items)
    ensures Sorted(Select(items, topK).suppressed, Before)
  {
    var left := LeftOver(items, topK);
    SelectedAndLeftOver(items, topK);
    DistinctByCount(Select(items, topK).effective, left, Sort(items, Stronger));
    FewerUniqueIds(left, items);
    IdsOfDistinct(left);
    BeforeIsOrder();
    BeforeIsTotal(Ids(left));
    SortSorts(Ids(left), Before);
  }

  /** No two selected dispositions share an exclusive group. */
  lemma NoSharedGroup(items: seq<Item>, topK: nat, x: Item, y: Item)
    requires UniqueIds(items) && x in Select(items, topK).effective && y in Select(items, topK).effective && x != y
    ensures x.group.None? || x.group != y.group
  {
    SelectionIsStrongest(items, topK);
    SelectionPartitions(items, topK);
    StrongerIsOrder();
    assert !(Stronger(x, y) && Stronger(y, x));
  }

  /** The order of the dispositions in the profile does not matter. */
  lemma SelectionIgnoresOrder(items: seq<Item>, reordered: seq<Item>, topK: nat)
    requires UniqueIds(items) && UniqueIds(reordered) && forall x :: x in items <==> x in reordered
    ensures Select(items, topK) == Select(reordered, topK)
  {
    StrongerIsOrder();
    UniqueIdsOrder(items);
    UniqueIdsOrder(reordered);
    SortIgnoresOrder(items, reordered, Stronger);
  }
}
