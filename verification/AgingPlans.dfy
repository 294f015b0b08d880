/**
 Aging seen through the files: the activity ledger that exactly-once recovery counts by is the one
 that aging advances, so the clocks documents age by are counts of acknowledged turns.
 */
module AgingPlans {
  import opened Wrappers
  import opened Files
  import opened PreparedCommit
  import opened PlanRecovery
  import Aging = ActivityAging

  const UUID_LENGTH: nat := 36

  // Contexts are parsed before they are used, so the conversation is a hyphenated UUID.
  predicate Parsed(c: Aging.Context) {
    |c.conversation| == UUID_LENGTH
  }

  function ContextKey(c: Aging.Context): string {
    c.conversation + ":" + c.character
  }

  lemma KeysSeparate(c: Aging.Context, d: Aging.Context)
    requires Parsed(c) && Parsed(d) && ContextKey(c) == ContextKey(d)
    ensures c == d
  {
    assert c.conversation == ContextKey(c)[..UUID_LENGTH] == ContextKey(d)[..UUID_LENGTH] == d.conversation;
    assert c.character == ContextKey(c)[UUID_LENGTH + 1..] == ContextKey(d)[UUID_LENGTH + 1..] == d.character;
  }

  predicate Counts(turns: map<Aging.Context, nat>, key: string) {
    exists c | c in turns :: ContextKey(c) == key
  }

  // The ledger file of the tree records these turns under their keys, and no others.
  ghost predicate LedgerHolds(memory: Memory, turns: map<Aging.Context, nat>) {
    && (forall c | c in turns :: Parsed(c))
    && (forall c :: Parsed(c) ==> Turns(memory, ContextKey(c)) == Aging.Turn(turns, c))
    && (forall key :: Counts(turns, key) || Turns(memory, key) == 0)
  }

  function Seen(a: Aging.Activity): Activity {
    Activity(ContextKey(a.context), a.settings.enabled)
  }

  // The plan moves the tree from the memory before aging to the aged one, its ledger included.
  ghost predicate AgesBy(memory: Memory, m: Aging.Memory, a: Aging.Activity, plan: Plan<Content>) {
    && WellFormed(plan) && AtBefore(memory, plan) && LedgerHolds(memory, m.ledger.contexts)
    && Aging.Prepared(m, a).Ok?
    && LedgerHolds(AfterPlan(memory, plan), Aging.Prepared(m, a).value.ledger.contexts)
    && (!a.settings.enabled ==> plan.files == [])
  }

  lemma KeyMoves(memory: Memory, memory': Memory, m: Aging.Memory, a: Aging.Activity, key: string)
    requires Parsed(a.context) && a.settings.enabled && Aging.Prepared(m, a).Ok?
    requires LedgerHolds(memory, m.ledger.contexts)
    requires LedgerHolds(memory', Aging.Prepared(m, a).value.ledger.contexts)
    ensures Turns(memory', key) == Turns(memory, key) + if key == ContextKey(a.context) then 1 else 0
  {
    var turns, turns' := m.ledger.contexts, Aging.Prepared(m, a).value.ledger.contexts;
    assert turns' == Aging.Counted(m, a);
    if c :| c in turns' && ContextKey(c) == key {
      Aging.TurnsCountOnce(m, Aging.Turned(a), c);
      assert Parsed(c) && Turns(memory', key) == Aging.Turn(turns', c) && Turns(memory, key) == Aging.Turn(turns, c);
      if key == ContextKey(a.context) {
        KeysSeparate(c, a.context);
      }
    } else {
      assert a.context in turns';
      assert !Counts(turns', key);
      assert !Counts(turns, key) by {
        assert forall c | c in turns :: c in turns';
      }
    }
  }

  /** A plan of the modelled aging is one that recovery counts once. */
  lemma AgingAgesOnce(memory: Memory, m: Aging.Memory, a: Aging.Activity, plan: Plan<Content>)
    requires AgesBy(memory, m, a, plan) && Parsed(a.context)
    ensures AgesOnce(memory, Seen(a), plan)
  {
    if a.settings.enabled {
      forall key ensures Turns(AfterPlan(memory, plan), key) == Turns(memory, key) +
        if key == ContextKey(a.context) then 1 else 0 {
        KeyMoves(memory, AfterPlan(memory, plan), m, a, key);
      }
      assert Turns(AfterPlan(memory, plan), ContextKey(a.context)) != Turns(memory, ContextKey(a.context));
      PendingReachesAfter(memory, plan.files);
      if LEDGER !in Targets(plan.files) {
        LedgerDecides(memory, AfterPlan(memory, plan));
      }
    }
  }

  /** The smallest plan recovery counts once writes exactly the ledger that aging advances to. */
  lemma CountTurnHolds(memory: Memory, m: Aging.Memory, a: Aging.Activity)
    requires LedgerHolds(memory, m.ledger.contexts) && Parsed(a.context) && Aging.Prepared(m, a).Ok?
    ensures AgesBy(memory, m, a, CountTurn(memory, Seen(a)))
  {
    CountTurnAgesOnce(memory, Seen(a));
    var plan := CountTurn(memory, Seen(a));
    var after := AfterPlan(memory, plan);
    var turns, turns' := m.ledger.contexts, Aging.Prepared(m, a).value.ledger.contexts;
    if a.settings.enabled {
      forall c | Parsed(c) ensures Turns(after, ContextKey(c)) == Aging.Turn(turns', c) {
        Aging.TurnsCountOnce(m, Aging.Turned(a), c);
        if ContextKey(c) == ContextKey(a.context) {
          KeysSeparate(c, a.context);
        }
      }
      forall key ensures Counts(turns', key) || Turns(after, key) == 0 {
        if key == ContextKey(a.context) {
          assert a.context in turns';
        } else if c :| c in turns && ContextKey(c) == key {
          assert c in turns';
        }
      }
    } else {
      AfterPlanFacts(memory, plan);
    }
  }

  /** However often applying such a plan is interrupted, replaying it leaves the memory aged once. */
  lemma ReplayCannotAgeTwice(memory: Memory, m: Aging.Memory, a: Aging.Activity, plan: Plan<Content>,
                             attempts: seq<nat>)
    requires AgesBy(memory, m, a, plan)
    ensures var reached := Interrupted(memory, plan.files, attempts);
            && Replayable(reached, plan.files)
            && AfterPlan(reached, plan) == AfterPlan(memory, plan)
            && LedgerHolds(AfterPlan(reached, plan), Aging.Prepared(m, a).value.ledger.contexts)
  {
    ReplayEqualsOneApplication(memory, plan, attempts);
  }

  /** The clock a context ages by is the number of its acknowledged turns, over every schedule. */
  lemma ClocksCountEvents(trace: seq<System>, m: Aging.Memory, c: Aging.Context)
    requires IsRun(trace) && trace[|trace| - 1].phase.Admitted? && Parsed(c)
    requires LedgerHolds(trace[|trace| - 1].memory, m.ledger.contexts)
    ensures Aging.Turn(m.ledger.contexts, c) == Count(trace[|trace| - 1].events, ContextKey(c))
  {
    ExactlyOnceAging(trace);
  }
}
