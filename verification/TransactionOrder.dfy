/** The order in which a retried transaction begins, runs, closes and sleeps. */
module TransactionOrder {
  import opened Transactions

  datatype Phase = Idle | Begun | Ran | RolledBack | Committed | Misplaced

  /** A transaction is begun, may run its body once, and is closed. Only after a rollback does
      the loop sleep and begin again, and a commit ends it. */
  function Next(p: Phase, e: Effect): Phase {
    match (p, e)
    case (Idle, Begin) => Begun
    case (Begun, Body) => Ran
    case (Begun, Rollback) => RolledBack
    case (Ran, Commit) => Committed
    case (Ran, Rollback) => RolledBack
    case (RolledBack, Sleep(_)) => Idle
    case _ => Misplaced
  }

  function PhaseAfter(trace: seq<Effect>): Phase {
    if trace == [] then Idle else Next(PhaseAfter(trace[..|trace| - 1]), trace[|trace| - 1])
  }

  lemma One(trace: seq<Effect>, a: Effect)
    ensures PhaseAfter(trace + [a]) == Next(PhaseAfter(trace), a)
  {
    assert (trace + [a])[..|trace|] == trace;
  }

  lemma Two(trace: seq<Effect>, a: Effect, b: Effect)
    ensures PhaseAfter(trace + [a, b]) == Next(Next(PhaseAfter(trace), a), b)
  {
    OneByOne(trace, a, b, b);
    One(trace, a);
    One(trace + [a], b);
  }

  lemma Three(trace: seq<Effect>, a: Effect, b: Effect, c: Effect)
    ensures PhaseAfter(trace + [a, b, c]) == Next(Next(Next(PhaseAfter(trace), a), b), c)
  {
    OneByOne(trace, a, b, c);
    Two(trace, a, b);
    One(trace + [a, b], c);
  }

  lemma {:induction false} RetriesEndIdle(cfg: Config, k: nat)
    ensures PhaseAfter(Retries(cfg, k)) == Idle
  {
    if k > 0 {
      RetriesEndIdle(cfg, k - 1);
      var t, d := Retries(cfg, k - 1), Sleep(Delay(cfg, k - 1));
      Three(t, Begin, Body, Rollback);
      One(t + [Begin, Body, Rollback], d);
      assert Retries(cfg, k) == t + [Begin, Body, Rollback] + [d];
    }
  }

  /** Whatever the database answers, the effects come in this order and leave nothing open. */
  lemma EffectsInOrder(cfg: Config, a: Attempt, k: nat)
    ensures PhaseAfter(Retries(cfg, k) + SettleEffects(a)) ==
            if a.begin.Broken? then Idle
            else if a.isolation.Broken? || a.body.Failed? then RolledBack
            else Committed
  {
    var t := Retries(cfg, k);
    RetriesEndIdle(cfg, k);
    if a.begin.Broken? {
      assert t + SettleEffects(a) == t;
    } else if a.isolation.Broken? {
      Two(t, Begin, Rollback);
    } else {
      Three(t, Begin, Body, if a.body.Failed? then Rollback else Commit);
    }
  }
}
