/**
 Fitting a prompt into a model's context window.

 System sections share their budget by capped, weighted rounds; a section or the newest message that
 does not fit loses its middle; older messages are kept whole or not at all. The token counter is a
 parameter: what holds for every counter is stated for every counter, the rest for those that, like
 the conservative estimate, never charge more for a joined text than for its parts.
 */
module ContextBudget {
  import opened Wrappers
  import opened Text

  const SAFETY_MARGIN: nat := 128
  const MESSAGE_OVERHEAD: nat := 6
  const MARKER: string := "\U{2026}"
  const SEPARATOR: string := "\n\n"

  type Counter = string -> nat

  // ---- The conservative estimate ----

  predicate IsAscii(c: char) {
    (c as int) < 128
  }

  function AsciiUnits(value: string): nat {
    if value == "" then 0 else AsciiUnits(value[..|value| - 1]) + if IsAscii(value[|value| - 1]) then 1 else 0
  }

  function Estimate(value: string): nat {
    (AsciiUnits(value) + 3) / 4 + AllButAscii(value)
  }

  function AllButAscii(value: string): nat {
    if value == "" then 0 else AllButAscii(value[..|value| - 1]) + if IsAscii(value[|value| - 1]) then 0 else 1
  }

  method EstimateTextTokens(value: string) returns (tokens: nat)
    ensures tokens == Estimate(value)
  {
    var ascii, others: nat := 0, 0;
    for i := 0 to |value|
      invariant ascii == AsciiUnits(value[..i]) && others == AllButAscii(value[..i])
    {
      assert value[..i + 1][..i] == value[..i];
      if IsAscii(value[i]) {
        ascii := ascii + 1;
      } else {
        others := others + 1;
      }
    }
    assert value[..|value|] == value;
    tokens := (ascii + 3) / 4 + others;
  }

  // What the budgeting relies on.
  ghost predicate Positive(counter: Counter) {
    counter("") == 0 && forall s :: s != "" ==> counter(s) > 0
  }

  ghost predicate Subadditive(counter: Counter) {
    forall s, t {:trigger counter(s + t)} :: counter(s + t) <= counter(s) + counter(t)
  }

  ghost predicate Monotone(counter: Counter) {
    forall s, t, c {:trigger counter(s + [c] + t)} :: counter(s + t) <= counter(s + [c] + t)
  }

  ghost predicate Tame(counter: Counter) {
    Positive(counter) && Subadditive(counter) && Monotone(counter)
  }

  lemma {:induction false} CountsAdd(s: string, t: string)
    ensures AsciiUnits(s + t) == AsciiUnits(s) + AsciiUnits(t)
    ensures AllButAscii(s + t) == AllButAscii(s) + AllButAscii(t)
  {
    if t == "" {
      assert s + t == s;
    } else {
      CountsAdd(s, t[..|t| - 1]);
      assert (s + t)[..|s + t| - 1] == s + t[..|t| - 1];
    }
  }

  /** The estimate is a tame counter. */
  lemma EstimateIsTame()
    ensures Tame(Estimate)
  {
    forall s: string | s != "" ensures Estimate(s) > 0 {
      CountsAdd(s[..|s| - 1], [s[|s| - 1]]);
      assert s == s[..|s| - 1] + [s[|s| - 1]];
    }
    forall s, t ensures Estimate(s + t) <= Estimate(s) + Estimate(t) {
      CountsAdd(s, t);
    }
    forall s, t, c: char ensures Estimate(s + t) <= Estimate(s + [c] + t) {
      CountsAdd(s, t);
      CountsAdd(s + [c], t);
      CountsAdd(s, [c]);
    }
  }

  function AsciiPlaces(value: string): set<nat> {
    set i: nat | i < |value| && (value[i] as int) < 128
  }

  lemma {:induction false} UnitsAreAscii(value: string)
    ensures AsciiUnits(value) == |AsciiPlaces(value)|
    ensures AsciiUnits(value) + AllButAscii(value) == |value|
  {
    if value == "" {
      assert AsciiPlaces(value) == {};
    } else {
      var n := |value| - 1;
      UnitsAreAscii(value[..n]);
      assert n !in AsciiPlaces(value[..n]);
      assert AsciiPlaces(value) == AsciiPlaces(value[..n]) + if (value[n] as int) < 128 then {n} else {};
    }
  }

  /** A quarter token for every ASCII character, rounded up, and a whole one for every other. */
  lemma EstimateExactly(value: string)
    ensures var n := |AsciiPlaces(value)|;
            n <= |value| && Estimate(value) == (if n % 4 == 0 then n / 4 else n / 4 + 1) + (|value| - n)
  {
    UnitsAreAscii(value);
  }

  // ---- Shortening the middle ----

  function Clipped(value: string, keep: nat): string
    requires keep <= |value|
  {
    Marked(value, (keep + 1) / 2, |value| - keep / 2)
  }

  // The marker between a beginning and an end of the text.
  function Marked(value: string, head: nat, tail: nat): string
    requires head <= tail <= |value|
  {
    value[..head] + MARKER + value[tail..]
  }

  // The clipped form that keeps the most of a text that does not fit; nothing when not even the marker fits.
  ghost predicate BestClip(value: string, budget: nat, counter: Counter, text: string) {
    if counter(MARKER) > budget then text == ""
    else
      exists keep: nat :: IsBest(value, budget, counter, text, keep)
  }

  ghost predicate IsBest(value: string, budget: nat, counter: Counter, text: string, keep: nat) {
    && keep < |value| && text == Clipped(value, keep) && counter(text) <= budget
    && forall more: nat :: keep < more <= |value| ==> counter(Clipped(value, more)) > budget
  }

  // One more character before or behind the marker costs no less.
  lemma HeadGrows(value: string, head: nat, tail: nat, counter: Counter)
    requires head < tail <= |value| && Monotone(counter)
    ensures counter(Marked(value, head, tail)) <= counter(Marked(value, head + 1, tail))
  {
    var rest := MARKER + value[tail..];
    assert Marked(value, head, tail) == value[..head] + rest;
    assert Marked(value, head + 1, tail) == value[..head] + [value[head]] + rest;
  }

  lemma TailGrows(value: string, head: nat, tail: nat, counter: Counter)
    requires head < tail <= |value| && Monotone(counter)
    ensures counter(Marked(value, head, tail)) <= counter(Marked(value, head, tail - 1))
  {
    var start := value[..head] + MARKER;
    assert Marked(value, head, tail) == start + value[tail..];
    assert Marked(value, head, tail - 1) == start + [value[tail - 1]] + value[tail..];
  }

  lemma ClippedGrows(value: string, keep: nat, counter: Counter)
    requires keep < |value| && Monotone(counter)
    ensures counter(Clipped(value, keep)) <= counter(Clipped(value, keep + 1))
  {
    var head, tail := (keep + 1) / 2, |value| - keep / 2;
    if keep % 2 == 0 {
      HeadGrows(value, head, tail, counter);
    } else {
      TailGrows(value, head, tail, counter);
    }
  }

  lemma {:induction false} ClippedOrdered(value: string, keep: nat, more: nat, counter: Counter)
    requires keep <= more <= |value| && Monotone(counter)
    ensures counter(Clipped(value, keep)) <= counter(Clipped(value, more))
  {
    if keep < more {
      ClippedOrdered(value, keep, more - 1, counter);
      ClippedGrows(value, more - 1, counter);
    }
  }

  // Keeping everything only adds the marker.
  lemma ClippedWhole(value: string, counter: Counter)
    requires Monotone(counter)
    ensures counter(value) <= counter(Clipped(value, |value|))
  {
    var head := (|value| + 1) / 2;
    assert value == value[..head] + value[head..];
    assert |value| - |value| / 2 == head;
    assert Clipped(value, |value|) == value[..head] + [MARKER[0]] + value[head..];
  }

  // Binary search for the most that can be kept.
  method SearchClip(value: string, budget: nat, counter: Counter) returns (text: string, ghost kept: nat)
    requires counter(value) > budget && counter(MARKER) <= budget
    ensures kept <= |value| && text == Clipped(value, kept) && counter(text) <= budget
    ensures kept < |value| ==> counter(Clipped(value, kept + 1)) > budget
  {
    var low, high: int := 0, |value|;
    text := MARKER;
    kept := 0;
    assert Clipped(value, 0) == MARKER;
    while low <= high
      invariant 0 <= low <= |value| + 1 && -1 <= high <= |value| && low <= high + 1
      invariant kept <= |value| && text == Clipped(value, kept) && counter(text) <= budget
      invariant kept == if low == 0 then 0 else low - 1
      invariant high < |value| ==> counter(Clipped(value, high + 1)) > budget
      decreases high - low + 1
    {
      var keep := low + (high - low) / 2;
      var candidate := Clipped(value, keep);
      if counter(candidate) <= budget {
        text, kept := candidate, keep;
        low := keep + 1;
      } else if keep == 0 {
        break;
      } else {
        high := keep - 1;
      }
    }
  }

  // With a monotone counter the search's answer is the best.
  lemma SearchIsBest(value: string, budget: nat, counter: Counter, kept: nat)
    requires Monotone(counter) && counter(value) > budget && counter(MARKER) <= budget
    requires kept <= |value| && counter(Clipped(value, kept)) <= budget
    requires kept < |value| ==> counter(Clipped(value, kept + 1)) > budget
    ensures BestClip(value, budget, counter, Clipped(value, kept))
  {
    ClippedWhole(value, counter);
    forall more: nat | kept < more <= |value| ensures counter(Clipped(value, more)) > budget {
      ClippedOrdered(value, kept + 1, more, counter);
    }
    assert IsBest(value, budget, counter, Clipped(value, kept), kept);
  }

  // A beginning and an end of the text with the marker in between, split evenly.
  function BothEnds(value: string, head: nat, tail: nat): string
    requires head + tail <= |value|
  {
    value[..head] + "\U{2026}" + value[|value| - tail..]
  }

  /** What a shortened text keeps: the first and the last characters around one ellipsis, as many in front as
      behind or one more, and no longer pair of ends would fit; nothing where the ellipsis alone does not fit. */
  lemma ClippingKeepsBothEnds(value: string, budget: nat, counter: Counter, text: string)
    requires BestClip(value, budget, counter, text)
    ensures counter("\U{2026}") > budget ==> text == ""
    ensures counter("\U{2026}") <= budget ==>
              exists head: nat, tail: nat ::
                && head + tail < |value| && tail <= head <= tail + 1 && text == BothEnds(value, head, tail)
                && counter(text) <= budget
                && forall h: nat, t: nat | t <= h <= t + 1 && head + tail < h + t <= |value| ::
                     counter(BothEnds(value, h, t)) > budget
  {
    if counter(MARKER) <= budget {
      var keep: nat :| IsBest(value, budget, counter, text, keep);
      var head, tail := (keep + 1) / 2, keep / 2;
      assert text == BothEnds(value, head, tail);
      forall h: nat, t: nat | t <= h <= t + 1 && head + tail < h + t <= |value|
        ensures counter(BothEnds(value, h, t)) > budget
      {
        assert BothEnds(value, h, t) == Clipped(value, h + t);
      }
    }
  }

  method TruncateMessageContent(value: string, messageBudget: nat, counter: Counter)
    returns (text: string, shortened: bool)
    ensures shortened <==> text != value
    ensures messageBudget > MESSAGE_OVERHEAD && counter(value) <= messageBudget - MESSAGE_OVERHEAD ==> text == value
    ensures messageBudget <= MESSAGE_OVERHEAD ==> text == ""
    ensures text == "" || (messageBudget > MESSAGE_OVERHEAD && counter(text) <= messageBudget - MESSAGE_OVERHEAD)
    ensures Tame(counter) && messageBudget > MESSAGE_OVERHEAD && counter(value) > messageBudget - MESSAGE_OVERHEAD ==>
              BestClip(value, messageBudget - MESSAGE_OVERHEAD, counter, text)
  {
    if value == "" || messageBudget <= MESSAGE_OVERHEAD {
      return "", value != "";
    }
    var budget := messageBudget - MESSAGE_OVERHEAD;
    if counter(value) <= budget {
      return value, false;
    }
    text := ClipToBudget(value, budget, counter);
    shortened := true;
  }

  method ClipToBudget(value: string, budget: nat, counter: Counter) returns (text: string)
    requires counter(value) > budget
    ensures text != value || text == ""
    ensures text == "" || counter(text) <= budget
    ensures Tame(counter) ==> BestClip(value, budget, counter, text)
  {
    if counter(MARKER) > budget {
      return "";
    }
    ghost var kept;
    text, kept := SearchClip(value, budget, counter);
    if Tame(counter) {
      SearchIsBest(value, budget, counter, kept);
    }
  }

  // ---- Weighted rounds ----

  function Min(a: int, b: int): int {
    if a <= b then a else b
  }

  function Sum(values: seq<nat>): nat {
    if values == [] then 0 else Sum(values[..|values| - 1]) + values[|values| - 1]
  }

  lemma {:induction false} SumUpdate(values: seq<nat>, index: nat, value: nat)
    requires index < |values|
    ensures Sum(values[index := value]) == Sum(values) - values[index] + value
  {
    var last := |values| - 1;
    if index < last {
      assert values[index := value][..last] == values[..last][index := value];
      SumUpdate(values[..last], index, value);
    } else {
      assert values[index := value][..last] == values[..last];
    }
  }

  lemma {:induction false} SumAtMost(small: seq<nat>, large: seq<nat>)
    requires |small| == |large| && forall i :: 0 <= i < |small| ==> small[i] <= large[i]
    ensures Sum(small) <= Sum(large)
  {
    if small != [] {
      SumAtMost(small[..|small| - 1], large[..|large| - 1]);
    }
  }

  // A section's quota after `rounds` full rounds.
  function Filled(cost: nat, weight: nat, rounds: nat): nat {
    if cost <= rounds * weight then cost else rounds * weight
  }

  // Sections before `index` have had one round more than those after it; `index` is in between.
  ghost predicate Levelled(costs: seq<nat>, weights: seq<nat>, quotas: seq<nat>, rounds: nat, index: nat) {
    && |costs| == |weights| == |quotas|
    && (forall j :: 0 <= j < |costs| && j < index ==> quotas[j] == Filled(costs[j], weights[j], rounds + 1))
    && (forall j :: 0 <= j < |costs| && j > index ==> quotas[j] == Filled(costs[j], weights[j], rounds))
    && (index < |costs| ==>
          && Filled(costs[index], weights[index], rounds) <= quotas[index]
          && quotas[index] <= Filled(costs[index], weights[index], rounds + 1))
  }

  ghost predicate Even(costs: seq<nat>, weights: seq<nat>, quotas: seq<nat>, rounds: nat, index: nat) {
    && Levelled(costs, weights, quotas, rounds, index)
    && (index < |costs| ==> quotas[index] == Filled(costs[index], weights[index], rounds))
  }

  lemma NextRound(cost: nat, weight: nat, rounds: nat)
    ensures Filled(cost, weight, rounds + 1)
         == Filled(cost, weight, rounds) + Min(weight, cost - Filled(cost, weight, rounds))
    ensures Filled(cost, weight, rounds) <= cost
    ensures weight > 0 && Filled(cost, weight, rounds + 1) == Filled(cost, weight, rounds) ==>
              Filled(cost, weight, rounds) == cost
  {
    assert (rounds + 1) * weight == rounds * weight + weight;
  }

  lemma Granted(costs: seq<nat>, weights: seq<nat>, quotas: seq<nat>, rounds: nat, i: nat, grant: nat)
    requires Even(costs, weights, quotas, rounds, i) && i < |costs|
    requires grant <= Min(weights[i], costs[i] - quotas[i])
    ensures Levelled(costs, weights, quotas[i := quotas[i] + grant], rounds, i)
    ensures grant == Min(weights[i], costs[i] - quotas[i]) ==>
              Even(costs, weights, quotas[i := quotas[i] + grant], rounds, i + 1)
    ensures grant == 0 && Min(weights[i], costs[i] - quotas[i]) == 0 && weights[i] > 0 ==> quotas[i] == costs[i]
  {
    NextRound(costs[i], weights[i], rounds);
  }

  lemma NewRound(costs: seq<nat>, weights: seq<nat>, quotas: seq<nat>, rounds: nat)
    requires Even(costs, weights, quotas, rounds, |costs|)
    ensures Even(costs, weights, quotas, rounds + 1, 0)
  {
  }

  // One round: every section in turn gets its weight, or what it still lacks, or what remains.
  method PourRound(costs: seq<nat>, weights: seq<nat>, before: seq<nat>, supply: nat, ghost rounds: nat)
    returns (quotas: seq<nat>, remaining: nat, ghost index: nat)
    requires Even(costs, weights, before, rounds, 0) && supply > 0
    requires forall i :: 0 <= i < |weights| ==> weights[i] > 0
    ensures |quotas| == |costs| && Sum(quotas) + remaining == Sum(before) + supply && remaining <= supply
    ensures remaining > 0 ==> Even(costs, weights, quotas, rounds, |costs|)
    ensures remaining == 0 ==> Levelled(costs, weights, quotas, rounds, index)
    ensures remaining == supply ==> quotas == costs
  {
    quotas, remaining, index := before, supply, 0;
    for i := 0 to |costs|
      invariant |quotas| == |costs| && Sum(quotas) + remaining == Sum(before) + supply && remaining <= supply
      invariant remaining > 0 ==> Even(costs, weights, quotas, rounds, i)
      invariant remaining == 0 ==> Levelled(costs, weights, quotas, rounds, index)
      invariant remaining == supply ==> forall j :: 0 <= j < i ==> quotas[j] == costs[j]
    {
      var wanted := if costs[i] >= quotas[i] then costs[i] - quotas[i] else 0;
      var grant := Min(Min(weights[i], wanted), remaining);
      SumUpdate(quotas, i, quotas[i] + grant);
      if remaining > 0 {
        NextRound(costs[i], weights[i], rounds);
        Granted(costs, weights, quotas, rounds, i, grant);
        index := i;
      } else {
        assert quotas[i := quotas[i] + grant] == quotas;
      }
      quotas := quotas[i := quotas[i] + grant];
      remaining := remaining - grant;
    }
  }

  method WaterFill(costs: seq<nat>, weights: seq<nat>, budget: nat) returns (quotas: seq<nat>)
    requires |costs| == |weights| && forall i :: 0 <= i < |weights| ==> weights[i] > 0
    ensures |quotas| == |costs| && forall i :: 0 <= i < |costs| ==> quotas[i] <= costs[i]
    ensures Sum(quotas) == Min(budget, Sum(costs))
    ensures exists rounds: nat, index: nat :: Levelled(costs, weights, quotas, rounds, index)
    ensures Fair(costs, weights, quotas)
  {
    var remaining := budget;
    quotas := seq(|costs|, i => 0);
    SumZero(|costs|);
    ghost var rounds: nat, index: nat := 0, 0;
    while remaining > 0
      invariant |quotas| == |costs| && Sum(quotas) + remaining == budget
      invariant remaining > 0 ==> Even(costs, weights, quotas, rounds, 0)
      invariant remaining == 0 ==> Levelled(costs, weights, quotas, rounds, index)
    {
      var before := remaining;
      quotas, remaining, index := PourRound(costs, weights, quotas, remaining, rounds);
      if remaining == before {
        index := |costs|;
        break;
      }
      if remaining > 0 {
        NewRound(costs, weights, quotas, rounds);
        rounds := rounds + 1;
      }
    }
    LevelledCapped(costs, weights, quotas, rounds, index);
    RoundsAreFair(costs, weights, quotas, rounds, index);
    SumAtMost(quotas, costs);
  }

  lemma {:induction false} SumZero(n: nat)
    ensures Sum(seq(n, i => 0)) == 0
  {
    if n > 0 {
      SumZero(n - 1);
      assert seq(n, i => 0)[..n - 1] == seq(n - 1, i => 0);
    }
  }

  lemma LevelledCapped(costs: seq<nat>, weights: seq<nat>, quotas: seq<nat>, rounds: nat, index: nat)
    requires Levelled(costs, weights, quotas, rounds, index)
    ensures forall i :: 0 <= i < |costs| ==> quotas[i] <= costs[i]
  {
  }

  predicate FairPair(qi: nat, wi: nat, qj: nat, wj: nat) {
    qj * wi <= (qi + wi) * wj
  }

  // A section cut short trails no other by more than one round of its weight.
  ghost predicate Fair(costs: seq<nat>, weights: seq<nat>, quotas: seq<nat>) {
    && |costs| == |weights| == |quotas|
    && forall i, j {:trigger FairPair(quotas[i], weights[i], quotas[j], weights[j])}
         | 0 <= i < |costs| && 0 <= j < |costs| && quotas[i] < costs[i] ::
         FairPair(quotas[i], weights[i], quotas[j], weights[j])
  }

  // How far any section can be after so many rounds.
  lemma LevelBounds(costs: seq<nat>, weights: seq<nat>, quotas: seq<nat>, rounds: nat, index: nat, i: nat)
    requires Levelled(costs, weights, quotas, rounds, index) && i < |costs|
    ensures |costs| == |weights| == |quotas|
    ensures quotas[i] <= (rounds + 1) * weights[i]
    ensures quotas[i] < costs[i] ==> quotas[i] >= rounds * weights[i]
  {
    assert (rounds + 1) * weights[i] == rounds * weights[i] + weights[i];
  }

  /** Weighted rounds are fair. */
  lemma RoundsAreFair(costs: seq<nat>, weights: seq<nat>, quotas: seq<nat>, rounds: nat, index: nat)
    requires Levelled(costs, weights, quotas, rounds, index)
    ensures Fair(costs, weights, quotas)
  {
    forall i, j | 0 <= i < |costs| && 0 <= j < |costs| && quotas[i] < costs[i]
      ensures FairPair(quotas[i], weights[i], quotas[j], weights[j])
    {
      LevelBounds(costs, weights, quotas, rounds, index, i);
      LevelBounds(costs, weights, quotas, rounds, index, j);
      FairArithmetic(quotas[i], quotas[j], weights[i], weights[j], rounds);
    }
  }

  lemma FairArithmetic(qi: nat, qj: nat, wi: nat, wj: nat, rounds: nat)
    requires qi >= rounds * wi && qj <= (rounds + 1) * wj
    ensures FairPair(qi, wi, qj, wj)
  {
    Scale(qj, (rounds + 1) * wj, wi);
    Scale((rounds + 1) * wi, qi + wi, wj);
    assert (rounds + 1) * wi == rounds * wi + wi;
    assert (rounds + 1) * wj * wi == (rounds + 1) * wi * wj;
  }

  lemma Scale(a: nat, b: nat, factor: nat)
    requires a <= b
    ensures a * factor <= b * factor
  {
    assert b * factor == a * factor + (b - a) * factor;
  }

  // ---- Memory records stay whole ----

  const OPEN_TAG: string := "<momo-record>"
  const CLOSE_TAG: string := "</momo-record>"

  function Rendered(heading: string, records: seq<string>): string {
    if records == [] then heading
    else Rendered(heading, records[..|records| - 1]) + OPEN_TAG + records[|records| - 1] + CLOSE_TAG + SEPARATOR
  }

  // The complete records among the pieces after the first opening tag.
  function Complete(pieces: seq<string>): seq<string> {
    if pieces == [] then []
    else
      var last := pieces[|pieces| - 1];
      Complete(pieces[..|pieces| - 1])
      + match Find(last, CLOSE_TAG, 0)
        case Some(at) => [last[..at]]
        case None => []
  }

  // Whole records, in order, each taken when it still fits behind those taken before it.
  function Taken(heading: string, records: seq<string>, quota: nat, counter: Counter): seq<string> {
    if records == [] then []
    else
      var before := Taken(heading, records[..|records| - 1], quota, counter);
      var more := before + [records[|records| - 1]];
      if counter(Rendered(heading, more)) <= quota then more else before
  }

  ghost predicate RecordsFit(text: string, quota: nat, counter: Counter, result: string) {
    var pieces := Split(text, OPEN_TAG);
    var taken := Taken(pieces[0], Complete(pieces[1..]), quota, counter);
    result == if taken == [] then "" else Rendered(pieces[0], taken)
  }

  lemma {:induction false} TakenFits(heading: string, records: seq<string>, quota: nat, counter: Counter)
    ensures var taken := Taken(heading, records, quota, counter);
            taken != [] ==> counter(Rendered(heading, taken)) <= quota
  {
    if records != [] {
      TakenFits(heading, records[..|records| - 1], quota, counter);
    }
  }

  lemma CompleteMore(pieces: seq<string>, i: nat)
    requires i < |pieces|
    ensures Complete(pieces[..i + 1])
         == Complete(pieces[..i]) + match Find(pieces[i], CLOSE_TAG, 0)
                                    case Some(at) => [pieces[i][..at]]
                                    case None => []
  {
    assert pieces[..i + 1][..i] == pieces[..i];
  }

  lemma TakenMore(heading: string, records: seq<string>, record: string, quota: nat, counter: Counter)
    ensures var before := Taken(heading, records, quota, counter);
            && Rendered(heading, before + [record])
              == Rendered(heading, before) + OPEN_TAG + record + CLOSE_TAG + SEPARATOR
            && Taken(heading, records + [record], quota, counter)
               == if counter(Rendered(heading, before + [record])) <= quota then before + [record] else before
  {
    var before := Taken(heading, records, quota, counter);
    assert (records + [record])[..|records|] == records;
    assert (before + [record])[..|before|] == before;
  }

  method FitMemoryRecords(text: string, quota: nat, counter: Counter) returns (result: string)
    ensures RecordsFit(text, quota, counter, result)
    ensures result == "" || counter(result) <= quota
  {
    var pieces := Split(text, OPEN_TAG);
    var heading, rest := pieces[0], pieces[1..];
    result := heading;
    var any := false;
    ghost var taken: seq<string> := [];
    for i := 0 to |rest|
      invariant taken == Taken(heading, Complete(rest[..i]), quota, counter)
      invariant any <==> taken != []
      invariant result == Rendered(heading, taken)
    {
      CompleteMore(rest, i);
      var at := Find(rest[i], CLOSE_TAG, 0);
      if at.Some? {
        var record := rest[i][..at.value];
        TakenMore(heading, Complete(rest[..i]), record, quota, counter);
        var candidate := result + OPEN_TAG + record + CLOSE_TAG + SEPARATOR;
        if counter(candidate) <= quota {
          result, any, taken := candidate, true, taken + [record];
        }
      } else {
        assert Complete(rest[..i]) + [] == Complete(rest[..i]);
      }
    }
    assert rest[..|rest|] == rest;
    TakenFits(heading, Complete(rest), quota, counter);
    if !any {
      result := "";
    }
  }

  // A text as it is written: a heading, then records between tags, each with what follows it.
  function Written(heading: string, records: seq<string>, gaps: seq<string>): string
    requires |gaps| == |records|
    decreases |records|
  {
    if records == [] then heading
    else
      heading + "<momo-record>" + Written(records[0] + "</momo-record>" + gaps[0], records[1..], gaps[1..])
  }

  // No opening tag starts in the piece.
  predicate Untagged(piece: string) {
    forall i :: 0 <= i < |piece| && piece[i] == '<' ==> i + 1 < |piece| && piece[i + 1] != 'm'
  }

  lemma TagStarts(text: string, tag: string, i: nat)
    requires |tag| >= 2
    ensures OccursAt(text, tag, i) ==> text[i] == tag[0] && text[i + 1] == tag[1]
  {
  }

  lemma NoTagInside(piece: string, rest: string)
    requires Untagged(piece)
    ensures Find(piece + OPEN_TAG + rest, OPEN_TAG, 0) == Some(|piece|)
  {
    var text := piece + OPEN_TAG + rest;
    forall i | 0 <= i < |piece| ensures !OccursAt(text, OPEN_TAG, i) {
      TagStarts(text, OPEN_TAG, i);
      assert text[i] == piece[i] && (i + 1 < |piece| ==> text[i + 1] == piece[i + 1]);
    }
    assert OccursAt(text, OPEN_TAG, |piece|);
    FindsFirst(text, OPEN_TAG, 0, |piece|);
  }

  lemma NoTagAtAll(piece: string)
    requires Untagged(piece)
    ensures Find(piece, OPEN_TAG, 0) == None
  {
    FindTells(piece, OPEN_TAG, 0);
    var at := Find(piece, OPEN_TAG, 0);
    if at.Some? {
      TagStarts(piece, OPEN_TAG, at.value);
    }
  }

  lemma ClosesFirst(record: string, gap: string)
    requires '<' !in record
    ensures Find(record + CLOSE_TAG + gap, CLOSE_TAG, 0) == Some(|record|)
  {
    var piece := record + CLOSE_TAG + gap;
    forall i | 0 <= i < |record| ensures !OccursAt(piece, CLOSE_TAG, i) {
      assert piece[i] == record[i] && record[i] in record;
      TagStarts(piece, CLOSE_TAG, i);
    }
    assert OccursAt(piece, CLOSE_TAG, |record|);
    FindsFirst(piece, CLOSE_TAG, 0, |record|);
  }

  lemma TaggedIsUntagged(record: string, gap: string)
    requires '<' !in record && '<' !in gap
    ensures Untagged(record + CLOSE_TAG + gap)
  {
    var piece := record + CLOSE_TAG + gap;
    assert forall i :: 0 <= i < |record| ==> piece[i] in record;
    assert forall i :: |record| + |CLOSE_TAG| <= i < |piece| ==> piece[i] in gap;
    assert piece[|record|..|record| + |CLOSE_TAG|] == CLOSE_TAG;
  }

  lemma SplitsAtTag(piece: string, rest: string)
    requires Untagged(piece)
    ensures Split(piece + OPEN_TAG + rest, OPEN_TAG) == [piece] + Split(rest, OPEN_TAG)
  {
    hide Untagged;
    var text := piece + OPEN_TAG + rest;
    NoTagInside(piece, rest);
    assert text[..|piece|] == piece && text[|piece| + |OPEN_TAG|..] == rest;
  }

  lemma SplitsNowhere(piece: string)
    requires Untagged(piece)
    ensures Split(piece, OPEN_TAG) == [piece]
  {
    NoTagAtAll(piece);
  }

  lemma {:induction false} WrittenSplits(heading: string, records: seq<string>, gaps: seq<string>)
    requires |gaps| == |records| && Untagged(heading)
    requires forall i :: 0 <= i < |records| ==> '<' !in records[i] && '<' !in gaps[i]
    ensures var pieces := Split(Written(heading, records, gaps), OPEN_TAG);
            && |pieces| == |records| + 1 && pieces[0] == heading
            && forall i :: 0 <= i < |records| ==> pieces[i + 1] == records[i] + CLOSE_TAG + gaps[i]
    decreases |records|
  {
    hide Split, Untagged;
    if records == [] {
      SplitsNowhere(heading);
    } else {
      var first := records[0] + CLOSE_TAG + gaps[0];
      var rest := Written(first, records[1..], gaps[1..]);
      TaggedIsUntagged(records[0], gaps[0]);
      WrittenSplits(first, records[1..], gaps[1..]);
      SplitsAtTag(heading, rest);
      assert Written(heading, records, gaps) == heading + OPEN_TAG + rest;
    }
  }

  lemma LastIsComplete(pieces: seq<string>, record: string, gap: string)
    requires pieces != [] && '<' !in record && pieces[|pieces| - 1] == record + CLOSE_TAG + gap
    ensures Complete(pieces) == Complete(pieces[..|pieces| - 1]) + [record]
  {
    hide Find;
    ClosesFirst(record, gap);
    assert (record + CLOSE_TAG + gap)[..|record|] == record;
  }

  lemma {:induction false} RecordsAreComplete(pieces: seq<string>, records: seq<string>, gaps: seq<string>)
    requires |pieces| == |records| == |gaps|
    requires forall i :: 0 <= i < |records| ==> '<' !in records[i] && pieces[i] == records[i] + CLOSE_TAG + gaps[i]
    ensures Complete(pieces) == records
  {
    if pieces != [] {
      var n := |pieces| - 1;
      RecordsAreComplete(pieces[..n], records[..n], gaps[..n]);
      LastIsComplete(pieces, records[n], gaps[n]);
      assert records == records[..n] + [records[n]];
    }
  }

  // The heading and the records that are chosen.
  function Shown(heading: string, records: seq<string>, chosen: seq<bool>): string
    requires |chosen| == |records|
  {
    if records == [] then heading
    else
      var n := |records| - 1;
      Shown(heading, records[..n], chosen[..n])
      + if chosen[n] then "<momo-record>" + records[n] + "</momo-record>\n\n" else ""
  }

  // A record is chosen exactly when it fits behind those chosen ahead of it.
  ghost predicate IsChoice(heading: string, records: seq<string>, chosen: seq<bool>, quota: nat, counter: Counter) {
    && |chosen| == |records|
    && forall i :: 0 <= i < |records| ==>
         (chosen[i] <==> counter(Shown(heading, records[..i], chosen[..i])
                                 + "<momo-record>" + records[i] + "</momo-record>\n\n") <= quota)
  }

  lemma {:induction false} TakenIsChoice(heading: string, records: seq<string>, quota: nat, counter: Counter)
    returns (chosen: seq<bool>)
    ensures IsChoice(heading, records, chosen, quota, counter)
    ensures Shown(heading, records, chosen) == Rendered(heading, Taken(heading, records, quota, counter))
    ensures true in chosen <==> Taken(heading, records, quota, counter) != []
  {
    chosen := [];
    if records != [] {
      var n := |records| - 1;
      var init, last := records[..n], records[n];
      var before := TakenIsChoice(heading, init, quota, counter);
      assert records == init + [last];
      TakenMore(heading, init, last, quota, counter);
      var fits := counter(Rendered(heading, Taken(heading, init, quota, counter) + [last])) <= quota;
      chosen := before + [fits];
      EndsAlike(Shown(heading, init, before), last);
      ChoiceGrows(heading, init, before, last, fits, quota, counter);
      ShownMore(heading, init, before, last, fits);
    }
  }

  lemma EndsAlike(shown: string, record: string)
    ensures shown + OPEN_TAG + record + CLOSE_TAG + SEPARATOR
         == shown + "<momo-record>" + record + "</momo-record>\n\n"
  {
  }

  lemma ShownMore(heading: string, records: seq<string>, chosen: seq<bool>, record: string, fits: bool)
    requires |chosen| == |records|
    ensures var shown := Shown(heading, records, chosen);
            Shown(heading, records + [record], chosen + [fits])
            == if fits then shown + "<momo-record>" + record + "</momo-record>\n\n" else shown
    ensures true in chosen + [fits] <==> true in chosen || fits
  {
    assert (records + [record])[..|records|] == records && (chosen + [fits])[..|records|] == chosen;
    var shown := Shown(heading, records, chosen);
    assert shown + ("<momo-record>" + record + "</momo-record>\n\n")
        == shown + "<momo-record>" + record + "</momo-record>\n\n";
    assert shown + "" == shown;
  }

  lemma ChoiceGrows(heading: string, records: seq<string>, chosen: seq<bool>, record: string, fits: bool, quota: nat,
                    counter: Counter)
    requires IsChoice(heading, records, chosen, quota, counter)
    requires fits <==> counter(Shown(heading, records, chosen)
                               + "<momo-record>" + record + "</momo-record>\n\n") <= quota
    ensures IsChoice(heading, records + [record], chosen + [fits], quota, counter)
  {
    var more, flags := records + [record], chosen + [fits];
    forall i | 0 <= i < |more|
      ensures flags[i] <==> counter(Shown(heading, more[..i], flags[..i])
                                    + "<momo-record>" + more[i] + "</momo-record>\n\n") <= quota
    {
      assert more[..i] == records[..i] && flags[..i] == chosen[..i];
      if i == |records| {
        assert records[..i] == records && chosen[..i] == chosen;
      }
    }
  }

  /** Records stay whole. Of a text written as a heading and records, the heading is kept and every record that
      fits behind those kept ahead of it, unchanged and between its tags; with no record the heading goes too. */
  lemma RecordsStayWhole(heading: string, records: seq<string>, gaps: seq<string>, quota: nat, counter: Counter,
                         result: string)
    requires |gaps| == |records| && '<' !in heading
    requires forall i :: 0 <= i < |records| ==> '<' !in records[i] && '<' !in gaps[i]
    requires RecordsFit(Written(heading, records, gaps), quota, counter, result)
    ensures exists chosen: seq<bool> ::
              && IsChoice(heading, records, chosen, quota, counter)
              && result == if true in chosen then Shown(heading, records, chosen) else ""
  {
    WrittenSplits(heading, records, gaps);
    var pieces := Split(Written(heading, records, gaps), OPEN_TAG);
    RecordsAreComplete(pieces[1..], records, gaps);
    var chosen := TakenIsChoice(heading, records, quota, counter);
  }

  // ---- System sections ----

  datatype Section = Section(name: string, text: string, weight: nat)
  datatype SectionAudit = SectionAudit(section: string, originalTokens: nat, injectedTokens: nat, truncated: bool,
    omitted: bool)

  // The nonempty texts, separated.
  function Join(texts: seq<string>): string {
    if texts == [] then ""
    else
      var rest, last := Join(texts[..|texts| - 1]), texts[|texts| - 1];
      if last == "" then rest else if rest == "" then last else rest + SEPARATOR + last
  }

  lemma {:induction false} JoinEmpty(texts: seq<string>)
    requires forall i :: 0 <= i < |texts| ==> texts[i] == ""
    ensures Join(texts) == ""
  {
    if texts != [] {
      JoinEmpty(texts[..|texts| - 1]);
    }
  }

  function Linked(a: string, b: string): string {
    if b == "" then a else if a == "" then b else a + "\n\n" + b
  }

  lemma EndJoins(a: string, b: string, c: string)
    ensures Linked(Linked(a, b), c) == Linked(a, Linked(b, c))
  {
    assert a + "\n\n" + (b + "\n\n" + c) == a + "\n\n" + b + "\n\n" + c;
  }

  /** Joining: one text is itself, and two joined texts that are not empty have one blank line between them. */
  lemma {:induction false} JoinSeparates(left: seq<string>, right: seq<string>)
    ensures forall t :: Join([t]) == t
    ensures Join(left + right)
         == Join(left) + (if Join(left) != "" && Join(right) != "" then "\n\n" else "") + Join(right)
  {
    forall t ensures Join([t]) == t {
      assert [t][..0] == [];
    }
    if right == [] {
      assert left + right == left;
    } else {
      var n := |right| - 1;
      JoinSeparates(left, right[..n]);
      assert (left + right)[..|left + right| - 1] == left + right[..n];
      EndJoins(Join(left), Join(right[..n]), right[n]);
    }
  }

  // The cost of the separators between `count` texts.
  function Separators(count: nat, counter: Counter): nat {
    if count <= 1 then 0 else Separators(count - 1, counter) + counter(SEPARATOR)
  }

  lemma {:induction false} SeparatorsMultiply(count: nat, counter: Counter)
    ensures Separators(count, counter) == Less(count, 1) * counter(SEPARATOR)
  {
    if count > 1 {
      SeparatorsMultiply(count - 1, counter);
      assert (count - 2) * counter(SEPARATOR) + counter(SEPARATOR) == (count - 1) * counter(SEPARATOR);
    }
  }

  // A joined text costs no more than its parts and the separators between them.
  lemma {:induction false} JoinCost(texts: seq<string>, costs: seq<nat>, counter: Counter)
    requires Tame(counter) && |texts| == |costs|
    requires forall i :: 0 <= i < |texts| ==> counter(texts[i]) <= costs[i]
    ensures counter(Join(texts)) <= Sum(costs) + Separators(|texts|, counter)
  {
    if texts != [] {
      var n := |texts| - 1;
      JoinCost(texts[..n], costs[..n], counter);
      var rest, last := Join(texts[..n]), texts[n];
      if last != "" && rest != "" {
        assert counter(rest + SEPARATOR + last) <= counter(rest + SEPARATOR) + counter(last);
      }
    }
  }

  function TotalLength(texts: seq<string>): nat {
    if texts == [] then 0 else TotalLength(texts[..|texts| - 1]) + |texts[|texts| - 1]|
  }

  lemma {:induction false} TotalLengthUpdate(texts: seq<string>, index: nat, text: string)
    requires index < |texts|
    ensures TotalLength(texts[index := text]) == TotalLength(texts) - |texts[index]| + |text|
  {
    var last := |texts| - 1;
    if index < last {
      assert texts[index := text][..last] == texts[..last][index := text];
      TotalLengthUpdate(texts[..last], index, text);
    } else {
      assert texts[index := text][..last] == texts[..last];
    }
  }

  method LastNonempty(texts: seq<string>) returns (found: Option<nat>)
    ensures match found
            case Some(i) => i < |texts| && texts[i] != "" && forall j :: i < j < |texts| ==> texts[j] == ""
            case None => forall j :: 0 <= j < |texts| ==> texts[j] == ""
  {
    var i := |texts|;
    while i > 0
      invariant 0 <= i <= |texts| && forall j :: i <= j < |texts| ==> texts[j] == ""
    {
      i := i - 1;
      if texts[i] != "" {
        return Some(i);
      }
    }
    return None;
  }

  // Every text keeps a beginning, and is touched only when nothing behind it is left.
  predicate Cropped(texts: seq<string>, kept: seq<string>) {
    && |kept| == |texts|
    && (forall i :: 0 <= i < |kept| ==> kept[i] <= texts[i])
    && (forall i, j :: 0 <= i < j < |kept| && kept[j] != "" ==> kept[i] == texts[i])
    && (forall i :: 0 <= i < |kept| && Contains(texts[i], "<momo-record>") ==> kept[i] == texts[i] || kept[i] == "")
  }

  // The last text that is not empty loses a character, or everything when it holds records.
  ghost predicate OneDrop(before: seq<string>, after: seq<string>) {
    exists i :: 0 <= i < |before| && before[i] != "" && (forall j :: i < j < |before| ==> before[j] == "")
      && after == before[i := if Contains(before[i], "<momo-record>") then "" else before[i][..|before[i]| - 1]]
  }

  lemma NothingCropped(texts: seq<string>)
    ensures Cropped(texts, texts)
  {
  }

  lemma Dropping(texts: seq<string>, kept: seq<string>, index: nat, shorter: string)
    requires Cropped(texts, kept) && index < |kept| && kept[index] != ""
    requires forall j :: index < j < |kept| ==> kept[j] == ""
    requires shorter == if Contains(kept[index], OPEN_TAG) then "" else kept[index][..|kept[index]| - 1]
    ensures Cropped(texts, kept[index := shorter]) && OneDrop(kept, kept[index := shorter])
  {
    hide Contains;
  }

  // Drops from the back until the joined sections fit, or nothing is left.
  method DropUntilFit(texts: seq<string>, budget: nat, counter: Counter) returns (kept: seq<string>)
    ensures |kept| == |texts|
    ensures Join(kept) == "" || counter(Join(kept)) <= budget
    ensures counter(Join(texts)) <= budget ==> kept == texts
    ensures Cropped(texts, kept)
    ensures kept != texts ==> exists before :: OneDrop(before, kept) && counter(Join(before)) > budget
  {
    hide Contains, OneDrop, Cropped;
    kept := texts;
    NothingCropped(texts);
    while counter(Join(kept)) > budget
      invariant |kept| == |texts| && Cropped(texts, kept)
      invariant kept != texts ==> exists before :: OneDrop(before, kept) && counter(Join(before)) > budget
      invariant counter(Join(texts)) <= budget ==> kept == texts
      decreases TotalLength(kept)
    {
      var found := LastNonempty(kept);
      if found.None? {
        JoinEmpty(kept);
        break;
      }
      var index := found.value;
      var shorter := if Contains(kept[index], OPEN_TAG) then "" else kept[index][..|kept[index]| - 1];
      TotalLengthUpdate(kept, index, shorter);
      Dropping(texts, kept, index, shorter);
      kept := kept[index := shorter];
    }
  }

  // What a section keeps within its quota.
  ghost predicate FitsQuota(text: string, quota: nat, counter: Counter, kept: string) {
    if quota == 0 then kept == ""
    else if Contains(text, OPEN_TAG) then RecordsFit(text, quota, counter, kept)
    else if counter(text) <= quota then kept == text
    else BestClip(text, quota, counter, kept)
  }

  function Costs(sections: seq<Section>, counter: Counter): (costs: seq<nat>)
    ensures |costs| == |sections| && forall i :: 0 <= i < |costs| ==> costs[i] == counter(sections[i].text)
  {
    if sections == [] then []
    else Costs(sections[..|sections| - 1], counter) + [counter(sections[|sections| - 1].text)]
  }

  function Texts(sections: seq<Section>): seq<string> {
    seq(|sections|, i requires 0 <= i < |sections| => sections[i].text)
  }

  function Weights(sections: seq<Section>): seq<nat> {
    seq(|sections|, i requires 0 <= i < |sections| => sections[i].weight)
  }

  predicate AllWeigh(sections: seq<Section>) {
    forall i :: 0 <= i < |sections| ==> sections[i].weight > 0
  }

  function Less(a: nat, b: nat): nat {
    if a >= b then a - b else 0
  }

  // What the sections may spend, the separators between all of them set aside.
  function Spendable(count: nat, budget: nat, counter: Counter): nat {
    Less(Less(budget, MESSAGE_OVERHEAD), Separators(count, counter))
  }

  // A fair division of all there is to spend, each section cut to its share and nothing dropped.
  ghost predicate FairlyFitted(sections: seq<Section>, budget: nat, counter: Counter, kept: seq<string>) {
    exists quotas: seq<nat>, rounds: nat, index: nat ::
      && Levelled(Costs(sections, counter), Weights(sections), quotas, rounds, index)
      && Fair(Costs(sections, counter), Weights(sections), quotas)
      && Sum(quotas) == Spendable(|sections|, budget, counter)
      && |kept| == |sections|
      && forall i :: 0 <= i < |sections| ==> FitsQuota(sections[i].text, quotas[i], counter, kept[i])
  }

  method CutToQuota(text: string, quota: nat, counter: Counter) returns (kept: string)
    ensures kept == "" || (quota > 0 && counter(kept) <= quota)
    ensures Tame(counter) ==> FitsQuota(text, quota, counter, kept)
  {
    if quota == 0 {
      return "";
    }
    if Contains(text, OPEN_TAG) {
      kept := FitMemoryRecords(text, quota, counter);
    } else {
      var text, _ := TruncateMessageContent(text, quota + MESSAGE_OVERHEAD, counter);
      kept := text;
    }
  }

  method FitSystemSections(sections: seq<Section>, budget: nat, counter: Counter)
    returns (content: string, audit: seq<SectionAudit>, ghost kept: seq<string>)
    requires AllWeigh(sections)
    ensures content == Join(kept) && |kept| == |sections| == |audit|
    ensures content == "" || (budget > MESSAGE_OVERHEAD && counter(content) + MESSAGE_OVERHEAD <= budget)
    ensures budget > MESSAGE_OVERHEAD && counter(Join(Texts(sections))) + MESSAGE_OVERHEAD <= budget ==>
              kept == Texts(sections)
    ensures Tame(counter) && !(budget > MESSAGE_OVERHEAD
              && counter(Join(Texts(sections))) + MESSAGE_OVERHEAD <= budget) ==>
              FairlyFitted(sections, budget, counter, kept)
    ensures forall i :: 0 <= i < |sections| ==>
              audit[i] == SectionAudit(sections[i].name, counter(sections[i].text), counter(kept[i]),
                                       kept[i] != sections[i].text, kept[i] == "")
  {
    var texts := Texts(sections);
    var allowed := Less(budget, MESSAGE_OVERHEAD);
    var chosen := texts;
    if budget <= MESSAGE_OVERHEAD || counter(Join(texts)) > allowed {
      chosen := DivideSections(sections, budget, counter);
    }
    audit := seq(|sections|, i requires 0 <= i < |sections| =>
                   SectionAudit(sections[i].name, counter(sections[i].text), counter(chosen[i]),
                                chosen[i] != sections[i].text, chosen[i] == ""));
    kept := chosen;
    content := Join(chosen);
  }

  method DivideSections(sections: seq<Section>, budget: nat, counter: Counter) returns (kept: seq<string>)
    requires AllWeigh(sections)
    requires budget <= MESSAGE_OVERHEAD || counter(Join(Texts(sections))) > budget - MESSAGE_OVERHEAD
    ensures |kept| == |sections|
    ensures Join(kept) == "" || (budget > MESSAGE_OVERHEAD && counter(Join(kept)) + MESSAGE_OVERHEAD <= budget)
    ensures Tame(counter) ==> FairlyFitted(sections, budget, counter, kept)
  {
    var costs, weights := Costs(sections, counter), Weights(sections);
    SeparatorsMultiply(|sections|, counter);
    var supply := Less(Less(budget, MESSAGE_OVERHEAD), Less(|sections|, 1) * counter(SEPARATOR));
    var quotas := WaterFill(costs, weights, supply);
    var cut := CutAll(sections, quotas, counter);
    kept := DropUntilFit(cut, Less(budget, MESSAGE_OVERHEAD), counter);
    if budget <= MESSAGE_OVERHEAD {
      NothingGranted(cut, quotas, counter);
      NothingKept(cut, kept);
    }
    if Tame(counter) {
      AllIsSpent(sections, quotas, budget, counter);
      NothingDropped(cut, quotas, budget, counter);
    }
  }

  method CutAll(sections: seq<Section>, quotas: seq<nat>, counter: Counter) returns (kept: seq<string>)
    requires |quotas| == |sections|
    ensures |kept| == |sections| && WithinQuotas(kept, quotas, counter)
    ensures Tame(counter) ==> EachFits(sections, quotas, counter, kept)
  {
    kept := [];
    for i := 0 to |sections|
      invariant |kept| == i && WithinQuotas(kept, quotas, counter)
      invariant Tame(counter) ==> EachFits(sections, quotas, counter, kept)
    {
      var text := CutToQuota(sections[i].text, quotas[i], counter);
      OneMoreCut(sections, quotas, counter, kept, text);
      kept := kept + [text];
    }
  }

  lemma OneMoreCut(sections: seq<Section>, quotas: seq<nat>, counter: Counter, kept: seq<string>, text: string)
    requires |kept| < |sections| == |quotas| && WithinQuotas(kept, quotas, counter)
    requires text == "" || (quotas[|kept|] > 0 && counter(text) <= quotas[|kept|])
    ensures WithinQuotas(kept + [text], quotas, counter)
    ensures EachFits(sections, quotas, counter, kept)
              && FitsQuota(sections[|kept|].text, quotas[|kept|], counter, text) ==>
              EachFits(sections, quotas, counter, kept + [text])
  {
    var more := kept + [text];
    assert forall j :: 0 <= j < |kept| ==> more[j] == kept[j];
  }

  ghost predicate EachFits(sections: seq<Section>, quotas: seq<nat>, counter: Counter, kept: seq<string>) {
    && |kept| <= |sections| && |kept| <= |quotas|
    && forall j :: 0 <= j < |kept| ==> FitsQuota(sections[j].text, quotas[j], counter, kept[j])
  }

  // Each text is empty or costs at most its quota, and nothing is kept for no quota.
  predicate WithinQuotas(kept: seq<string>, quotas: seq<nat>, counter: Counter) {
    && |kept| <= |quotas|
    && forall j :: 0 <= j < |kept| ==> kept[j] == "" || (quotas[j] > 0 && counter(kept[j]) <= quotas[j])
  }

  lemma {:induction false} NothingGranted(cut: seq<string>, quotas: seq<nat>, counter: Counter)
    requires |cut| == |quotas| && WithinQuotas(cut, quotas, counter) && Sum(quotas) == 0
    ensures forall j :: 0 <= j < |cut| ==> cut[j] == ""
  {
    if cut != [] {
      NothingGranted(cut[..|cut| - 1], quotas[..|quotas| - 1], counter);
    }
  }

  lemma NothingKept(cut: seq<string>, kept: seq<string>)
    requires Cropped(cut, kept) && forall j :: 0 <= j < |cut| ==> cut[j] == ""
    ensures Join(kept) == ""
  {
    forall j | 0 <= j < |kept| ensures kept[j] == "" {
      assert kept[j] <= cut[j];
    }
    JoinEmpty(kept);
  }

  /** An over-budget prompt spends everything but the separators. */
  lemma AllIsSpent(sections: seq<Section>, quotas: seq<nat>, budget: nat, counter: Counter)
    requires Tame(counter)
    requires budget <= MESSAGE_OVERHEAD || counter(Join(Texts(sections))) > budget - MESSAGE_OVERHEAD
    requires Sum(quotas) == Min(Spendable(|sections|, budget, counter), Sum(Costs(sections, counter)))
    ensures Sum(quotas) == Spendable(|sections|, budget, counter)
  {
    var joined, cost := counter(Join(Texts(sections))), Sum(Costs(sections, counter));
    JoinCost(Texts(sections), Costs(sections, counter), counter);
    NothingLeft(budget, joined, cost, Separators(|sections|, counter));
  }

  lemma NothingLeft(budget: nat, joined: nat, cost: nat, separators: nat)
    requires joined <= cost + separators
    requires budget <= MESSAGE_OVERHEAD || joined > budget - MESSAGE_OVERHEAD
    ensures Less(Less(budget, MESSAGE_OVERHEAD), separators) <= cost
  {
  }

  /** With a tame counter the sections cut to their quotas always fit together: none is dropped. */
  lemma NothingDropped(cut: seq<string>, quotas: seq<nat>, budget: nat, counter: Counter)
    requires Tame(counter) && |cut| == |quotas| && WithinQuotas(cut, quotas, counter)
    requires Sum(quotas) <= Spendable(|cut|, budget, counter)
    ensures counter(Join(cut)) <= Less(budget, MESSAGE_OVERHEAD)
  {
    JoinCost(cut, quotas, counter);
    if Sum(quotas) == 0 {
      NothingGranted(cut, quotas, counter);
      JoinEmpty(cut);
    }
  }

  // ---- The prompt ----

  datatype Role = System | User | Assistant | Tool
  datatype Message = Message(role: Role, content: string)
  datatype Budget = Budget(contextWindow: nat, reserveOutputTokens: nat)
  datatype Prepared = Prepared(
    messages: seq<Message>, estimatedInputTokens: nat, omittedMessages: nat, truncatedMessages: nat,
    sectionAudit: seq<SectionAudit>)

  // The parts of a system message, in the order they are injected.
  datatype Parts = Parts(runtimeInstructions: string, character: string, user: string, memory: string,
                         state: string, semanticGraph: string, roleplayDirector: string)

  function Part(name: string, heading: string, text: string, weight: nat): seq<Section> {
    if Trim(text) == "" then [] else [Section(name, heading + Trim(text), weight)]
  }

  function SystemSections(parts: Parts): seq<Section> {
    Part("runtime_instructions", "# Runtime Instructions\n", parts.runtimeInstructions, 4)
    + Part("character", "# Character\n", parts.character, 6)
    + Part("user", "# User\n", parts.user, 3)
    + Part("memory", "# Relevant Memory\n", parts.memory, 3)
    + Part("state", "", parts.state, 3)
    + Part("semantic_graph", "# Active Lore Context\n", parts.semanticGraph, 2)
    + Part("roleplay_director", "# Roleplay Direction\n", parts.roleplayDirector, 6)
  }

  predicate Spoken(text: string) {
    exists i :: 0 <= i < |text| && !IsSpace(text[i])
  }

  // What a part of the system message is made of.
  predicate IsPart(s: Section, name: string, heading: string, text: string, weight: nat) {
    Spoken(text) && s == Section(name, heading + Trim(text), weight)
  }

  function Rank(name: string): nat {
    match name
    case "runtime_instructions" => 0
    case "character" => 1
    case "user" => 2
    case "memory" => 3
    case "state" => 4
    case "semantic_graph" => 5
    case _ => 6
  }

  predicate Ranked(sections: seq<Section>) {
    forall i, j :: 0 <= i < j < |sections| ==> Rank(sections[i].name) < Rank(sections[j].name)
  }

  lemma PartExactly(name: string, heading: string, text: string, weight: nat)
    ensures forall s :: s in Part(name, heading, text, weight) <==> IsPart(s, name, heading, text, weight)
    ensures forall s | s in Part(name, heading, text, weight) :: s.text != "" && s.name == name
    ensures |Part(name, heading, text, weight)| <= 1
  {
    TrimLeaves(text);
  }

  lemma MoreRanked(left: seq<Section>, right: seq<Section>, rank: nat)
    requires Ranked(left) && |right| <= 1
    requires (forall s | s in left :: Rank(s.name) < rank) && forall s | s in right :: Rank(s.name) == rank
    ensures Ranked(left + right) && forall s | s in left + right :: Rank(s.name) < rank + 1
  {
    var all := left + right;
    forall i, j | 0 <= i < j < |all| ensures Rank(all[i].name) < Rank(all[j].name) {
      assert all[i] in left;
    }
  }

  /** The system message has a section for each part that says something, of the part's trimmed text under its
      heading, in one order: the roleplay director comes last. */
  lemma SectionsExactly(parts: Parts)
    ensures forall s :: s in SystemSections(parts) <==>
              || IsPart(s, "runtime_instructions", "# Runtime Instructions\n", parts.runtimeInstructions, 4)
              || IsPart(s, "character", "# Character\n", parts.character, 6)
              || IsPart(s, "user", "# User\n", parts.user, 3)
              || IsPart(s, "memory", "# Relevant Memory\n", parts.memory, 3)
              || IsPart(s, "state", "", parts.state, 3)
              || IsPart(s, "semantic_graph", "# Active Lore Context\n", parts.semanticGraph, 2)
              || IsPart(s, "roleplay_director", "# Roleplay Direction\n", parts.roleplayDirector, 6)
    ensures Ranked(SystemSections(parts)) && forall s | s in SystemSections(parts) :: s.text != ""
  {
    hide Part, IsPart, Ranked;
    var a := Part("runtime_instructions", "# Runtime Instructions\n", parts.runtimeInstructions, 4);
    var b := Part("character", "# Character\n", parts.character, 6);
    var c := Part("user", "# User\n", parts.user, 3);
    var d := Part("memory", "# Relevant Memory\n", parts.memory, 3);
    var e := Part("state", "", parts.state, 3);
    var f := Part("semantic_graph", "# Active Lore Context\n", parts.semanticGraph, 2);
    var g := Part("roleplay_director", "# Roleplay Direction\n", parts.roleplayDirector, 6);
    PartExactly("runtime_instructions", "# Runtime Instructions\n", parts.runtimeInstructions, 4);
    PartExactly("character", "# Character\n", parts.character, 6);
    PartExactly("user", "# User\n", parts.user, 3);
    PartExactly("memory", "# Relevant Memory\n", parts.memory, 3);
    PartExactly("state", "", parts.state, 3);
    PartExactly("semantic_graph", "# Active Lore Context\n", parts.semanticGraph, 2);
    PartExactly("roleplay_director", "# Roleplay Direction\n", parts.roleplayDirector, 6);
    NoneRanked();
    MoreRanked([], a, 0);
    assert [] + a == a;
    MoreRanked(a, b, 1);
    MoreRanked(a + b, c, 2);
    MoreRanked(a + b + c, d, 3);
    MoreRanked(a + b + c + d, e, 4);
    MoreRanked(a + b + c + d + e, f, 5);
    MoreRanked(a + b + c + d + e + f, g, 6);
  }

  lemma NoneRanked()
    ensures Ranked([])
  {
  }

  lemma JoinedWeigh(left: seq<Section>, name: string, heading: string, text: string, weight: nat)
    requires AllWeigh(left) && weight > 0
    ensures AllWeigh(left + Part(name, heading, text, weight))
  {
  }

  lemma SectionsWeigh(parts: Parts)
    ensures AllWeigh(SystemSections(parts))
  {
    var a := Part("runtime_instructions", "# Runtime Instructions\n", parts.runtimeInstructions, 4);
    var b := a + Part("character", "# Character\n", parts.character, 6);
    var c := b + Part("user", "# User\n", parts.user, 3);
    var d := c + Part("memory", "# Relevant Memory\n", parts.memory, 3);
    var e := d + Part("state", "", parts.state, 3);
    var f := e + Part("semantic_graph", "# Active Lore Context\n", parts.semanticGraph, 2);
    JoinedWeigh(a, "character", "# Character\n", parts.character, 6);
    JoinedWeigh(b, "user", "# User\n", parts.user, 3);
    JoinedWeigh(c, "memory", "# Relevant Memory\n", parts.memory, 3);
    JoinedWeigh(d, "state", "", parts.state, 3);
    JoinedWeigh(e, "semantic_graph", "# Active Lore Context\n", parts.semanticGraph, 2);
    JoinedWeigh(f, "roleplay_director", "# Roleplay Direction\n", parts.roleplayDirector, 6);
  }

  function InputLimit(budget: Budget): (limit: nat)
    ensures limit >= 1
    ensures budget.contextWindow > budget.reserveOutputTokens + 128 ==>
              limit == budget.contextWindow - budget.reserveOutputTokens - 128
    ensures budget.contextWindow <= budget.reserveOutputTokens + 128 ==> limit == 1
  {
    var left := Less(Less(budget.contextWindow, budget.reserveOutputTokens), SAFETY_MARGIN);
    if left == 0 then 1 else left
  }

  function HistoryCost(messages: seq<Message>, cost: Message -> nat): nat {
    if messages == [] then 0 else cost(messages[0]) + HistoryCost(messages[1..], cost)
  }

  // The retained history: the longest whole suffix that fits, or a lone shortened newest message.
  ghost predicate Retains(messages: seq<Message>, available: nat, cost: Message -> nat, counter: Counter,
                          kept: seq<Message>)
  {
    && |kept| <= |messages|
    && HistoryCost(kept, cost) <= available
    && if messages != [] && cost(messages[|messages| - 1]) > available then
         && |kept| <= 1 && (kept != [] ==> Shortens(messages[|messages| - 1], available, counter, kept[0]))
         && (kept == [] && Tame(counter) ==> NothingFits(messages[|messages| - 1], available, cost, counter))
       else
         && kept == messages[|messages| - |kept|..]
         && (|kept| < |messages| ==> HistoryCost(messages[|messages| - |kept| - 1..], cost) > available)
  }

  ghost predicate Shortens(message: Message, available: nat, counter: Counter, kept: Message) {
    && kept.role == message.role && kept.content != ""
    && available > MESSAGE_OVERHEAD && counter(kept.content) <= available - MESSAGE_OVERHEAD
    && (Tame(counter) ==>
          if counter(message.content) <= available - MESSAGE_OVERHEAD then kept == message
          else BestClip(message.content, available - MESSAGE_OVERHEAD, counter, kept.content))
  }

  // Even the shortened form is empty or too dear.
  ghost predicate NothingFits(message: Message, available: nat, cost: Message -> nat, counter: Counter) {
    forall t: string :: Shortens(message, available, counter, message.(content := t)) ==>
      cost(message.(content := t)) > available
  }

  lemma BestClipIsUnique(value: string, budget: nat, counter: Counter, a: string, b: string)
    requires BestClip(value, budget, counter, a) && BestClip(value, budget, counter, b)
    ensures a == b
  {
    if counter(MARKER) <= budget {
      var i: nat :| IsBest(value, budget, counter, a, i);
      var j: nat :| IsBest(value, budget, counter, b, j);
      NoLonger(value, budget, counter, a, i, b, j);
      NoLonger(value, budget, counter, b, j, a, i);
    }
  }

  lemma NoLonger(value: string, budget: nat, counter: Counter, a: string, i: nat, b: string, j: nat)
    requires IsBest(value, budget, counter, a, i) && IsBest(value, budget, counter, b, j)
    ensures j <= i
  {
  }

  function ShortenedCount(messages: seq<Message>, kept: seq<Message>): nat {
    if WasShortened(messages, kept) then 1 else 0
  }

  predicate AnyCut(audit: seq<SectionAudit>) {
    exists i :: 0 <= i < |audit| && audit[i].truncated
  }

  function CutCount(audit: seq<SectionAudit>): nat {
    if AnyCut(audit) then 1 else 0
  }

  method RetainHistory(messages: seq<Message>, available: nat, cost: Message -> nat, counter: Counter)
    returns (kept: seq<Message>, tokens: nat, shortened: nat)
    ensures Retains(messages, available, cost, counter, kept)
    ensures tokens == HistoryCost(kept, cost)
    ensures shortened == ShortenedCount(messages, kept)
  {
    kept, tokens, shortened := [], 0, 0;
    var i := |messages|;
    while i > 0
      invariant 0 <= i <= |messages| && kept == messages[i..]
      invariant tokens == HistoryCost(kept, cost) && tokens <= available && shortened == 0
      invariant i < |messages| ==> cost(messages[|messages| - 1]) <= available
    {
      var message := messages[i - 1];
      assert messages[i - 1..] == [message] + messages[i..];
      assert messages[i - 1..][1..] == messages[i..];
      if tokens + cost(message) > available {
        if i == |messages| {
          kept, tokens, shortened := RetainNewest(message, available, cost, counter);
        }
        return;
      }
      tokens := tokens + cost(message);
      kept := [message] + kept;
      if i == |messages| {
        assert HistoryCost(messages[i..], cost) == 0;
      }
      i := i - 1;
    }
  }

  // A message has at most one shortened form.
  lemma ShorteningIsUnique(message: Message, available: nat, counter: Counter, content: string)
    requires Tame(counter)
    requires available > MESSAGE_OVERHEAD && counter(message.content) <= available - MESSAGE_OVERHEAD ==>
               content == message.content
    requires available > MESSAGE_OVERHEAD && counter(message.content) > available - MESSAGE_OVERHEAD ==>
               BestClip(message.content, available - MESSAGE_OVERHEAD, counter, content)
    ensures forall t: string :: Shortens(message, available, counter, message.(content := t)) ==>
              t == content && content != ""
  {
    forall t: string | Shortens(message, available, counter, message.(content := t)) ensures t == content {
      if counter(message.content) > available - MESSAGE_OVERHEAD {
        BestClipIsUnique(message.content, available - MESSAGE_OVERHEAD, counter, t, content);
      } else {
        assert message.(content := t) == message;
      }
    }
  }

  method RetainNewest(message: Message, available: nat, cost: Message -> nat, counter: Counter)
    returns (kept: seq<Message>, tokens: nat, shortened: nat)
    ensures |kept| <= 1 && tokens == HistoryCost(kept, cost) && tokens <= available
    ensures kept != [] ==> Shortens(message, available, counter, kept[0])
    ensures shortened == if kept != [] && kept[0] != message then 1 else 0
    ensures kept == [] && Tame(counter) ==> NothingFits(message, available, cost, counter)
  {
    kept, tokens, shortened := [], 0, 0;
    var content, changed := TruncateMessageContent(message.content, available, counter);
    if Tame(counter) {
      ShorteningIsUnique(message, available, counter, content);
    }
    if content != "" {
      var candidate := message.(content := content);
      if cost(candidate) <= available {
        kept, tokens := [candidate], cost(candidate);
        assert HistoryCost([candidate], cost) == cost(candidate) + HistoryCost([], cost);
        if changed {
          shortened := 1;
        }
      }
    }
  }

  // Room set aside for the newest message before the sections are fitted.
  function NewestReserve(messages: seq<Message>, budget: Budget, cost: Message -> nat): (reserve: nat)
    ensures reserve <= InputLimit(budget)
  {
    if messages == [] then 0 else Min(cost(messages[|messages| - 1]), (InputLimit(budget) + 1) / 2)
  }

  // The parts of a prompt: what leads it, and the messages that were not omitted.
  function Lead(r: Prepared, messages: seq<Message>): seq<Message>
    requires Divides(r, messages)
  {
    r.messages[..|r.messages| - (|messages| - r.omittedMessages)]
  }

  function History(r: Prepared, messages: seq<Message>): seq<Message>
    requires Divides(r, messages)
  {
    r.messages[|r.messages| - (|messages| - r.omittedMessages)..]
  }

  predicate Divides(r: Prepared, messages: seq<Message>) {
    r.omittedMessages <= |messages| && |messages| - r.omittedMessages <= |r.messages|
  }

  // What a prepared prompt is made of, and what it reports.
  ghost predicate Prepares(sections: seq<Section>, messages: seq<Message>, budget: Budget, counter: Counter,
                           cost: Message -> nat, r: Prepared)
  {
    && Divides(r, messages)
    && exists system: seq<Message>, kept: seq<Message> ::
         && MadeOf(sections, messages, budget, counter, cost, r, system, kept)
         && r.messages == system + kept && |kept| + r.omittedMessages == |messages|
  }

  ghost predicate MadeOf(sections: seq<Section>, messages: seq<Message>, budget: Budget, counter: Counter,
                         cost: Message -> nat, r: Prepared, system: seq<Message>, kept: seq<Message>) {
    && SystemFits(sections, InputLimit(budget) - NewestReserve(messages, budget, cost), counter, system, r.sectionAudit)
    && SystemCost(system, counter) <= InputLimit(budget)
    && Retains(messages, InputLimit(budget) - SystemCost(system, counter), cost, counter, kept)
    && r.estimatedInputTokens == SystemCost(system, counter) + HistoryCost(kept, cost)
    && r.truncatedMessages == CutCount(r.sectionAudit) + ShortenedCount(messages, kept)
  }

  method PrepareContext(parts: Parts, messages: seq<Message>, budget: Budget, counter: Counter, cost: Message -> nat)
    returns (r: Prepared)
    ensures Prepares(SystemSections(parts), messages, budget, counter, cost, r)
  {
    var sections := SystemSections(parts);
    SectionsWeigh(parts);
    r := PrepareSections(sections, messages, budget, counter, cost);
  }

  method PrepareSections(sections: seq<Section>, messages: seq<Message>, budget: Budget, counter: Counter,
                         cost: Message -> nat) returns (r: Prepared)
    requires AllWeigh(sections)
    ensures Prepares(sections, messages, budget, counter, cost, r)
  {
    hide SystemFits, Retains, Prepares;
    var limit := InputLimit(budget);
    var newest := NewestReserve(messages, budget, cost);
    var system, audit := PrepareSystem(sections, limit - newest, counter);
    var used := SystemCost(system, counter);
    var kept, tokens, shortened := RetainHistory(messages, limit - used, cost, counter);
    r := Report(messages, system, kept, audit, used + tokens, shortened);
    PreparedFromParts(sections, messages, budget, counter, cost, limit, newest, system, audit, used, kept, tokens,
                      shortened);
  }

  function Report(messages: seq<Message>, system: seq<Message>, kept: seq<Message>, audit: seq<SectionAudit>,
                  tokens: nat, shortened: nat): Prepared
  {
    Prepared(system + kept, tokens, if |kept| <= |messages| then |messages| - |kept| else 0,
             CutCount(audit) + shortened, audit)
  }

  lemma MadeFromParts(sections: seq<Section>, messages: seq<Message>, budget: Budget, counter: Counter,
                      cost: Message -> nat, limit: nat, newest: nat, system: seq<Message>, audit: seq<SectionAudit>,
                      used: nat, kept: seq<Message>, tokens: nat, shortened: nat)
    requires limit == InputLimit(budget) && newest == NewestReserve(messages, budget, cost) && newest <= limit
    requires used == SystemCost(system, counter) && used <= limit - newest
    requires SystemFits(sections, limit - newest, counter, system, audit)
    requires Retains(messages, limit - used, cost, counter, kept)
    requires tokens == HistoryCost(kept, cost) && shortened == ShortenedCount(messages, kept)
    ensures var r := Report(messages, system, kept, audit, used + tokens, shortened);
            && MadeOf(sections, messages, budget, counter, cost, r, system, kept)
            && r.messages == system + kept && |kept| + r.omittedMessages == |messages|
  {
    hide SystemFits, SystemCost, Retains, HistoryCost, CutCount, ShortenedCount, InputLimit, NewestReserve;
    RetainsNoMore(messages, limit - used, cost, counter, kept);
  }

  lemma RetainsNoMore(messages: seq<Message>, available: nat, cost: Message -> nat, counter: Counter,
                      kept: seq<Message>)
    requires Retains(messages, available, cost, counter, kept)
    ensures |kept| <= |messages|
  {
  }

  lemma PreparedFromParts(sections: seq<Section>, messages: seq<Message>, budget: Budget, counter: Counter,
                          cost: Message -> nat, limit: nat, newest: nat, system: seq<Message>,
                          audit: seq<SectionAudit>, used: nat, kept: seq<Message>, tokens: nat, shortened: nat)
    requires limit == InputLimit(budget) && newest == NewestReserve(messages, budget, cost) && newest <= limit
    requires used == SystemCost(system, counter) && used <= limit - newest
    requires SystemFits(sections, limit - newest, counter, system, audit)
    requires Retains(messages, limit - used, cost, counter, kept)
    requires tokens == HistoryCost(kept, cost) && shortened == ShortenedCount(messages, kept)
    ensures Prepares(sections, messages, budget, counter, cost,
                     Report(messages, system, kept, audit, used + tokens, shortened))
  {
    MadeFromParts(sections, messages, budget, counter, cost, limit, newest, system, audit, used, kept, tokens,
                  shortened);
    PromptIsMade(sections, messages, budget, counter, cost,
                 Report(messages, system, kept, audit, used + tokens, shortened), system, kept);
  }

  lemma PromptIsMade(sections: seq<Section>, messages: seq<Message>, budget: Budget, counter: Counter,
                     cost: Message -> nat, r: Prepared, system: seq<Message>, kept: seq<Message>)
    requires MadeOf(sections, messages, budget, counter, cost, r, system, kept)
    requires r.messages == system + kept && |kept| + r.omittedMessages == |messages|
    ensures Prepares(sections, messages, budget, counter, cost, r)
  {
    PromptDivides(r, messages, system, kept);
  }

  lemma PromptDivides(r: Prepared, messages: seq<Message>, system: seq<Message>, kept: seq<Message>)
    requires r.messages == system + kept && |kept| + r.omittedMessages == |messages|
    ensures Divides(r, messages) && Lead(r, messages) == system && History(r, messages) == kept
  {
  }

  // The parts of a prompt are the ones it was made of.
  lemma PromptParts(sections: seq<Section>, messages: seq<Message>, budget: Budget, counter: Counter,
                    cost: Message -> nat, r: Prepared) returns (system: seq<Message>, kept: seq<Message>)
    requires Prepares(sections, messages, budget, counter, cost, r)
    ensures Divides(r, messages) && system == Lead(r, messages) && kept == History(r, messages)
    ensures r.messages == system + kept && MadeOf(sections, messages, budget, counter, cost, r, system, kept)
  {
    hide MadeOf;
    system, kept :|
      && MadeOf(sections, messages, budget, counter, cost, r, system, kept)
      && r.messages == system + kept && |kept| + r.omittedMessages == |messages|;
    PromptDivides(r, messages, system, kept);
  }

  lemma SystemShape(sections: seq<Section>, budget: nat, counter: Counter, system: seq<Message>,
                    audit: seq<SectionAudit>)
    requires SystemFits(sections, budget, counter, system, audit)
    ensures |system| <= 1 && (forall m | m in system :: m.role == System) && SystemCost(system, counter) <= budget
  {
  }

  /** The prompt stays within its limit, whatever the counter and however the gateway prices a message:
      at most one leading message, of the system, and the history after it; and a newest message of at
      most half the limit is kept whole, whatever the sections weigh. */
  lemma PromptWithinLimit(sections: seq<Section>, messages: seq<Message>, budget: Budget, counter: Counter,
                          cost: Message -> nat, r: Prepared)
    requires Prepares(sections, messages, budget, counter, cost, r)
    ensures var system, kept := Lead(r, messages), History(r, messages);
            && r.messages == system + kept && |system| <= 1 && (forall m | m in system :: m.role == System)
            && SystemCost(system, counter) + HistoryCost(kept, cost) == r.estimatedInputTokens <= InputLimit(budget)
            && (messages != [] && cost(messages[|messages| - 1]) <= (InputLimit(budget) + 1) / 2 ==>
                  kept != [] && kept[|kept| - 1] == messages[|messages| - 1])
  {
    hide MadeOf, Prepares;
    var system, kept := PromptParts(sections, messages, budget, counter, cost, r);
    MadeShape(sections, messages, budget, counter, cost, r, system, kept);
    PromptCosts(sections, messages, budget, counter, cost, r, system, kept);
    if messages != [] && cost(messages[|messages| - 1]) <= (InputLimit(budget) + 1) / 2 {
      NewestIsKept(sections, messages, budget, counter, cost, r, system, kept);
    }
  }

  lemma MadeShape(sections: seq<Section>, messages: seq<Message>, budget: Budget, counter: Counter,
                  cost: Message -> nat, r: Prepared, system: seq<Message>, kept: seq<Message>)
    requires MadeOf(sections, messages, budget, counter, cost, r, system, kept)
    ensures |system| <= 1 && (forall m | m in system :: m.role == System)
  {
    SystemShape(sections, InputLimit(budget) - NewestReserve(messages, budget, cost), counter, system, r.sectionAudit);
  }

  lemma PromptCosts(sections: seq<Section>, messages: seq<Message>, budget: Budget, counter: Counter,
                    cost: Message -> nat, r: Prepared, system: seq<Message>, kept: seq<Message>)
    requires MadeOf(sections, messages, budget, counter, cost, r, system, kept)
    ensures SystemCost(system, counter) + HistoryCost(kept, cost) == r.estimatedInputTokens <= InputLimit(budget)
  {
    assert Retains(messages, InputLimit(budget) - SystemCost(system, counter), cost, counter, kept);
  }

  lemma NewestIsKept(sections: seq<Section>, messages: seq<Message>, budget: Budget, counter: Counter,
                     cost: Message -> nat, r: Prepared, system: seq<Message>, kept: seq<Message>)
    requires MadeOf(sections, messages, budget, counter, cost, r, system, kept)
    requires messages != [] && cost(messages[|messages| - 1]) <= (InputLimit(budget) + 1) / 2
    ensures kept != [] && kept[|kept| - 1] == messages[|messages| - 1]
  {
    SystemShape(sections, InputLimit(budget) - NewestReserve(messages, budget, cost), counter, system, r.sectionAudit);
    assert NewestReserve(messages, budget, cost) == cost(messages[|messages| - 1]);
    NewestStays(messages, InputLimit(budget) - SystemCost(system, counter), cost, counter, kept);
  }

  /** Where every message is priced by the counter, the whole prompt costs at most its limit. */
  lemma WholePromptWithinLimit(sections: seq<Section>, messages: seq<Message>, budget: Budget, counter: Counter,
                               cost: Message -> nat, r: Prepared)
    requires Prepares(sections, messages, budget, counter, cost, r)
    requires forall m :: cost(m) == counter(m.content) + MESSAGE_OVERHEAD
    ensures HistoryCost(r.messages, cost) == r.estimatedInputTokens <= InputLimit(budget)
  {
    hide MadeOf, Prepares;
    var system, kept := PromptParts(sections, messages, budget, counter, cost, r);
    PromptWithinLimit(sections, messages, budget, counter, cost, r);
    if system == [] {
      assert r.messages == kept;
    } else {
      assert r.messages == [system[0]] + kept && r.messages[1..] == kept;
    }
  }

  lemma AuditFits(sections: seq<Section>, budget: nat, counter: Counter, system: seq<Message>, audit: seq<SectionAudit>)
    requires SystemFits(sections, budget, counter, system, audit)
    ensures |audit| == |sections|
    ensures forall i :: 0 <= i < |sections| ==>
              audit[i].section == sections[i].name && audit[i].originalTokens == counter(sections[i].text)
    ensures system == [] ==> forall i :: 0 <= i < |audit| ==> audit[i].omitted && audit[i].injectedTokens == counter("")
  {
    if sections != [] {
      var kept: seq<string> :|
        Fits(sections, budget, counter, kept) && system == SystemOf(Join(kept))
          && audit == AuditOf(sections, kept, counter);
      if system == [] {
        JoinedEmpty(kept);
      }
    }
  }

  // The system message is the sections' kept texts, and the audit says of each what is kept of it.
  ghost predicate Accounts(sections: seq<Section>, counter: Counter, system: seq<Message>, audit: seq<SectionAudit>) {
    exists kept: seq<string> ::
      && |kept| == |audit| == |sections|
      && system == (if Join(kept) == "" then [] else [Message(System, Join(kept))])
      && forall i :: 0 <= i < |sections| ==>
           && audit[i].injectedTokens == counter(kept[i])
           && (audit[i].truncated <==> kept[i] != sections[i].text) && (audit[i].omitted <==> kept[i] == "")
  }

  lemma Accounted(sections: seq<Section>, counter: Counter, kept: seq<string>, system: seq<Message>,
                  audit: seq<SectionAudit>)
    requires |kept| == |sections| && system == SystemOf(Join(kept)) && audit == AuditOf(sections, kept, counter)
    ensures Accounts(sections, counter, system, audit)
  {
  }

  lemma AuditAccounts(sections: seq<Section>, budget: nat, counter: Counter, system: seq<Message>,
                      audit: seq<SectionAudit>)
    requires SystemFits(sections, budget, counter, system, audit)
    ensures Accounts(sections, counter, system, audit)
  {
    var kept: seq<string> := [];
    if sections == [] {
      assert Join(kept) == "";
    } else {
      kept :|
        Fits(sections, budget, counter, kept) && system == SystemOf(Join(kept))
          && audit == AuditOf(sections, kept, counter);
    }
    Accounted(sections, counter, kept, system, audit);
  }

  /** The audit tells of every section what it cost and whether it was cut, all of them are omitted when
      there is no system message, and the count of shortened messages is of cut sections and of a cut
      newest message. */
  lemma AuditTellsCuts(sections: seq<Section>, messages: seq<Message>, budget: Budget, counter: Counter,
                       cost: Message -> nat, r: Prepared)
    requires Prepares(sections, messages, budget, counter, cost, r)
    ensures |r.sectionAudit| == |sections|
    ensures forall i :: 0 <= i < |sections| ==>
              r.sectionAudit[i].section == sections[i].name
                && r.sectionAudit[i].originalTokens == counter(sections[i].text)
    ensures Lead(r, messages) == [] ==> forall i :: 0 <= i < |sections| ==> r.sectionAudit[i].omitted
    ensures Accounts(sections, counter, Lead(r, messages), r.sectionAudit)
    ensures r.truncatedMessages == (if AnyCut(r.sectionAudit) then 1 else 0)
                                   + if WasShortened(messages, History(r, messages)) then 1 else 0
  {
    hide MadeOf, Prepares;
    var system, kept := PromptParts(sections, messages, budget, counter, cost, r);
    MadeAudit(sections, messages, budget, counter, cost, r, system, kept);
  }

  lemma MadeAudit(sections: seq<Section>, messages: seq<Message>, budget: Budget, counter: Counter,
                  cost: Message -> nat, r: Prepared, system: seq<Message>, kept: seq<Message>)
    requires MadeOf(sections, messages, budget, counter, cost, r, system, kept)
    ensures |r.sectionAudit| == |sections|
    ensures forall i :: 0 <= i < |sections| ==>
              r.sectionAudit[i].section == sections[i].name
                && r.sectionAudit[i].originalTokens == counter(sections[i].text)
    ensures system == [] ==> forall i :: 0 <= i < |sections| ==> r.sectionAudit[i].omitted
    ensures Accounts(sections, counter, system, r.sectionAudit)
    ensures r.truncatedMessages == (if AnyCut(r.sectionAudit) then 1 else 0)
                                   + if WasShortened(messages, kept) then 1 else 0
  {
    hide SystemFits, Retains, Accounts;
    AuditAccounts(sections, InputLimit(budget) - NewestReserve(messages, budget, cost), counter, system,
                  r.sectionAudit);
    AuditFits(sections, InputLimit(budget) - NewestReserve(messages, budget, cost), counter, system, r.sectionAudit);
  }

  lemma {:induction false} JoinedFilled(texts: seq<string>)
    requires texts != [] && forall t | t in texts :: t != ""
    ensures Join(texts) != ""
  {
    assert texts[|texts| - 1] in texts;
  }

  lemma NothingCut(sections: seq<Section>, budget: nat, counter: Counter, system: seq<Message>,
                   audit: seq<SectionAudit>)
    requires SystemFits(sections, budget, counter, system, audit) && forall s | s in sections :: s.text != ""
    ensures !AnyCut(audit) <==>
              sections == [] || (budget > 6 && counter(Join(Texts(sections))) + 6 <= budget)
    ensures !AnyCut(audit) && sections != [] ==> system == [Message(System, Join(Texts(sections)))]
  {
    if sections != [] {
      var kept: seq<string> :|
        Fits(sections, budget, counter, kept) && system == SystemOf(Join(kept))
          && audit == AuditOf(sections, kept, counter);
      JoinedFilled(Texts(sections));
      assert forall i :: 0 <= i < |sections| ==> (audit[i].truncated <==> kept[i] != Texts(sections)[i]);
      assert AnyCut(audit) <==> kept != Texts(sections);
    }
  }

  lemma {:induction false} SuffixCosts(messages: seq<Message>, from: nat, cost: Message -> nat)
    requires from <= |messages|
    ensures HistoryCost(messages[from..], cost) <= HistoryCost(messages, cost)
  {
    if from > 0 {
      SuffixCosts(messages[1..], from - 1, cost);
      assert messages[1..][from - 1..] == messages[from..];
    }
  }

  lemma NothingOmitted(messages: seq<Message>, available: nat, cost: Message -> nat, counter: Counter,
                       kept: seq<Message>)
    requires Retains(messages, available, cost, counter, kept)
    ensures kept == messages <==> HistoryCost(messages, cost) <= available
  {
    if messages != [] && HistoryCost(messages, cost) <= available {
      var n := |messages| - 1;
      SuffixCosts(messages, n, cost);
      assert messages[n..] == [messages[n]] && messages[n..][1..] == [];
      assert HistoryCost(messages[n..], cost) == cost(messages[n]) + HistoryCost([], cost);
      if |kept| < |messages| {
        SuffixCosts(messages, |messages| - |kept| - 1, cost);
      }
    }
  }

  // What the newest message is sure of: its cost, or half the limit.
  function NewestShare(messages: seq<Message>, limit: nat, cost: Message -> nat): nat {
    var half := (limit + 1) / 2;
    if messages == [] then 0 else if cost(messages[|messages| - 1]) < half then cost(messages[|messages| - 1]) else half
  }

  /** No section is cut exactly when all of them, joined, fit beside the newest message or half the limit,
      whichever is less; the system message is then all of them. */
  lemma NoSectionIsCutExactly(parts: Parts, messages: seq<Message>, budget: Budget, counter: Counter,
                              cost: Message -> nat, r: Prepared)
    requires Prepares(SystemSections(parts), messages, budget, counter, cost, r)
    ensures var room := InputLimit(budget) - NewestShare(messages, InputLimit(budget), cost);
            !AnyCut(r.sectionAudit) <==>
              SystemSections(parts) == []
              || (room > 6 && counter(Join(Texts(SystemSections(parts)))) + 6 <= room)
    ensures !AnyCut(r.sectionAudit) && SystemSections(parts) != [] ==>
              Lead(r, messages) == [Message(System, Join(Texts(SystemSections(parts))))]
  {
    hide MadeOf, Prepares, SystemSections, SystemFits, Retains;
    var sections := SystemSections(parts);
    SectionsExactly(parts);
    var system, kept := PromptParts(sections, messages, budget, counter, cost, r);
    MadeFits(sections, messages, budget, counter, cost, r, system, kept);
    NothingCut(sections, InputLimit(budget) - NewestReserve(messages, budget, cost), counter, system, r.sectionAudit);
  }

  /** The whole history is kept, as it is, exactly when it fits in what the sections leave. */
  lemma NoMessageIsLostExactly(sections: seq<Section>, messages: seq<Message>, budget: Budget, counter: Counter,
                               cost: Message -> nat, r: Prepared)
    requires Prepares(sections, messages, budget, counter, cost, r)
    ensures History(r, messages) == messages <==>
              HistoryCost(messages, cost) <= InputLimit(budget) - SystemCost(Lead(r, messages), counter)
    ensures History(r, messages) == messages ==> r.omittedMessages == 0
  {
    hide MadeOf, Prepares, SystemFits, Retains;
    var system, kept := PromptParts(sections, messages, budget, counter, cost, r);
    MadeFits(sections, messages, budget, counter, cost, r, system, kept);
    NothingOmitted(messages, InputLimit(budget) - SystemCost(system, counter), cost, counter, kept);
  }

  lemma MadeFits(sections: seq<Section>, messages: seq<Message>, budget: Budget, counter: Counter,
                 cost: Message -> nat, r: Prepared, system: seq<Message>, kept: seq<Message>)
    requires MadeOf(sections, messages, budget, counter, cost, r, system, kept)
    ensures SystemFits(sections, InputLimit(budget) - NewestReserve(messages, budget, cost), counter, system,
                       r.sectionAudit)
    ensures SystemCost(system, counter) <= InputLimit(budget)
    ensures Retains(messages, InputLimit(budget) - SystemCost(system, counter), cost, counter, kept)
  {
  }

  predicate WasShortened(messages: seq<Message>, kept: seq<Message>) {
    messages != [] && kept != [] && kept[|kept| - 1] != messages[|messages| - 1]
  }

  lemma {:induction false} JoinedEmpty(kept: seq<string>)
    requires Join(kept) == ""
    ensures forall i :: 0 <= i < |kept| ==> kept[i] == ""
  {
    if kept != [] {
      JoinedEmpty(kept[..|kept| - 1]);
    }
  }

  // What the sections keep: all when they fit, and a fair division otherwise.
  ghost predicate Fits(sections: seq<Section>, budget: nat, counter: Counter, kept: seq<string>) {
    && |kept| == |sections|
    && (Join(kept) == "" || (budget > MESSAGE_OVERHEAD && counter(Join(kept)) + MESSAGE_OVERHEAD <= budget))
    && (if budget > MESSAGE_OVERHEAD && counter(Join(Texts(sections))) + MESSAGE_OVERHEAD <= budget
        then kept == Texts(sections)
        else Tame(counter) ==> FairlyFitted(sections, budget, counter, kept))
  }

  function AuditOf(sections: seq<Section>, kept: seq<string>, counter: Counter): seq<SectionAudit>
    requires |kept| == |sections|
  {
    seq(|sections|, i requires 0 <= i < |sections| =>
          SectionAudit(sections[i].name, counter(sections[i].text), counter(kept[i]), kept[i] != sections[i].text,
            kept[i] == ""))
  }

  function SystemOf(content: string): seq<Message> {
    if content == "" then [] else [Message(System, content)]
  }

  // At most one system message, made of what the sections keep, and the audit of it.
  ghost predicate SystemFits(sections: seq<Section>, budget: nat, counter: Counter, system: seq<Message>,
                             audit: seq<SectionAudit>)
  {
    if sections == [] then system == [] && audit == []
    else
      exists kept: seq<string> ::
        Fits(sections, budget, counter, kept) && system == SystemOf(Join(kept))
          && audit == AuditOf(sections, kept, counter)
  }

  function SystemCost(system: seq<Message>, counter: Counter): nat {
    if system == [] then 0 else counter(system[0].content) + MESSAGE_OVERHEAD
  }

  method PrepareSystem(sections: seq<Section>, budget: nat, counter: Counter)
    returns (system: seq<Message>, audit: seq<SectionAudit>)
    requires AllWeigh(sections)
    ensures SystemCost(system, counter) <= budget
    ensures SystemFits(sections, budget, counter, system, audit)
  {
    system, audit := [], [];
    if sections != [] {
      ghost var kept;
      var content, report;
      content, report, kept := FitSystemSections(sections, budget, counter);
      assert report == AuditOf(sections, kept, counter);
      audit := report;
      if content != "" {
        system := [Message(System, content)];
      }
      assert Fits(sections, budget, counter, kept) && system == SystemOf(Join(kept));
    }
  }

  lemma NewestStays(messages: seq<Message>, available: nat, cost: Message -> nat, counter: Counter, kept: seq<Message>)
    requires messages != [] && cost(messages[|messages| - 1]) <= available
    requires Retains(messages, available, cost, counter, kept)
    ensures kept != [] && kept[|kept| - 1] == messages[|messages| - 1]
  {
    var last := messages[|messages| - 1..];
    assert last == [messages[|messages| - 1]] && last[1..] == [];
    assert HistoryCost(last, cost) == cost(messages[|messages| - 1]) + HistoryCost([], cost);
  }
}
