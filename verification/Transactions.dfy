/** Running a database transaction with retries on serialization failures. */
module Transactions {
  import opened Text
  import opened Words

  datatype Config = Config(maxRetries: nat, retryDelay: nat)

  datatype Answer = Fine | Broken(error: string)

  datatype BodyAnswer = Value(value: string) | Failed(error: string)

  /** What the database and the body would answer on one attempt. A begun transaction whose
      isolation level cannot be set is dropped, which rolls it back. */
  datatype Attempt = Attempt(begin: Answer, isolation: Answer, body: BodyAnswer, commit: Answer)

  datatype Effect = Begin | Body | Commit | Rollback | Sleep(delay: nat)

  datatype Result = Ok(value: string) | Err(error: string) | Exhausted

  predicate SerializationFailure(error: string) {
    Contains(error, "40001") || Contains(error, "serialization failure")
  }

  predicate Retryable(a: Attempt) {
    a.begin.Fine? && a.isolation.Fine? && a.body.Failed? && SerializationFailure(a.body.error)
  }

  /** An attempt may be retried exactly when its transaction began, its body failed, and the
      error text carries the SQLSTATE 40001 or says so in words. */
  lemma RetryableIff(a: Attempt)
    ensures Retryable(a) <==>
            && a.begin.Fine? && a.isolation.Fine? && a.body.Failed?
            && (Around(a.body.error, "40001") || Around(a.body.error, "serialization failure"))
  {
    if a.body.Failed? {
      ContainsIffAround(a.body.error, "40001");
      ContainsIffAround(a.body.error, "serialization failure");
    }
  }

  /** `retry_delay * 2_u32.pow(attempt)`, the power being a 32-bit word. */
  function Delay(cfg: Config, attempt: nat): nat {
    cfg.retryDelay * (Pow2(attempt) % U32)
  }

  /** What one attempt answers if it is not retried. */
  function Settle(a: Attempt): Result {
    if a.begin.Broken? then Err(a.begin.error)
    else if a.isolation.Broken? then Err(a.isolation.error)
    else
      match a.body
      case Failed(e) => Err(e)
      case Value(v) => if a.commit.Fine? then Ok(v) else Err(a.commit.error)
  }

  function SettleEffects(a: Attempt): seq<Effect> {
    if a.begin.Broken? then []
    else if a.isolation.Broken? then [Begin, Rollback]
    else if a.body.Failed? then [Begin, Body, Rollback]
    else [Begin, Body, Commit]
  }

  function Retries(cfg: Config, k: nat): seq<Effect> {
    if k == 0 then [] else Retries(cfg, k - 1) + [Begin, Body, Rollback, Sleep(Delay(cfg, k - 1))]
  }

  /** The loop settles on the first attempt that is not retryable, or on the last one it may
      make, after retrying every attempt before it. `world(k)` answers attempt `k`. */
  method ExecuteTransaction(cfg: Config, world: nat -> Attempt) returns (result: Result, trace: seq<Effect>, settled: nat)
    ensures settled <= cfg.maxRetries
    ensures forall j :: 0 <= j < settled ==> Retryable(world(j))
    ensures settled < cfg.maxRetries ==> !Retryable(world(settled))
    ensures result == Settle(world(settled))
    ensures trace == Retries(cfg, settled) + SettleEffects(world(settled))
  {
    trace := [];
    settled := 0;
    while settled <= cfg.maxRetries
      invariant settled <= cfg.maxRetries
      invariant forall j :: 0 <= j < settled ==> Retryable(world(j))
      invariant trace == Retries(cfg, settled)
      decreases cfg.maxRetries - settled
    {
      var a := world(settled);
      if a.begin.Broken? {
        return Err(a.begin.error), trace, settled;
      }
      trace := trace + [Begin];
      if a.isolation.Broken? {
        return Err(a.isolation.error), trace + [Rollback], settled;
      }
      trace := trace + [Body];
      if a.body.Value? {
        trace := trace + [Commit];
        return if a.commit.Fine? then Ok(a.body.value) else Err(a.commit.error), trace, settled;
      }
      trace := trace + [Rollback];
      if !(SerializationFailure(a.body.error) && settled < cfg.maxRetries) {
        return Err(a.body.error), trace, settled;
      }
      trace := trace + [Sleep(Delay(cfg, settled))];
      settled := settled + 1;
    }
    return Exhausted, trace, settled;
  }

  /** What each step of an attempt answers, in the order in which the steps are taken. */
  function Answers(a: Attempt): seq<Answer> {
    [a.begin, a.isolation, if a.body.Failed? then Broken(a.body.error) else Fine, a.commit]
  }

  /** An attempt that is not retried reports the error of the first step that failed, and the
      body's value when none did. */
  lemma SettlesOnFirstError(a: Attempt, i: nat)
    requires i <= 4 && forall j :: 0 <= j < i ==> Answers(a)[j].Fine?
    ensures i < 4 && Answers(a)[i].Broken? ==> Settle(a) == Err(Answers(a)[i].error)
    ensures i == 4 ==> a.body.Value? && Settle(a) == Ok(a.body.value)
  {
    assert (i > 0 ==> Answers(a)[0].Fine?) && (i > 1 ==> Answers(a)[1].Fine?);
    assert (i > 2 ==> Answers(a)[2].Fine?) && (i > 3 ==> Answers(a)[3].Fine?);
  }

  // --- accounting ---

  datatype Tally = Tally(begins: nat, bodies: nat, commits: nat, rollbacks: nat, slept: nat)

  function Count(t: Tally, e: Effect): Tally {
    match e
    case Begin => t.(begins := t.begins + 1)
    case Body => t.(bodies := t.bodies + 1)
    case Commit => t.(commits := t.commits + 1)
    case Rollback => t.(rollbacks := t.rollbacks + 1)
    case Sleep(d) => t.(slept := t.slept + d)
  }

  function Total(trace: seq<Effect>): Tally {
    if trace == [] then Tally(0, 0, 0, 0, 0) else Count(Total(trace[..|trace| - 1]), trace[|trace| - 1])
  }

  lemma TotalAppend(trace: seq<Effect>, e: Effect)
    ensures Total(trace + [e]) == Count(Total(trace), e)
  {
  }

  lemma OneByOne(trace: seq<Effect>, a: Effect, b: Effect, c: Effect)
    ensures trace + [a, b] == trace + [a] + [b]
    ensures trace + [a, b, c] == trace + [a] + [b] + [c]
  {
  }

  lemma TotalThree(trace: seq<Effect>, a: Effect, b: Effect, c: Effect)
    ensures Total(trace + [a, b, c]) == Count(Count(Count(Total(trace), a), b), c)
  {
    OneByOne(trace, a, b, c);
    TotalAppend(trace, a);
    TotalAppend(trace + [a], b);
    TotalAppend(trace + [a] + [b], c);
  }

  lemma TotalRound(trace: seq<Effect>, d: nat)
    ensures var t := Total(trace);
            Total(trace + [Begin, Body, Rollback, Sleep(d)]) ==
            Tally(t.begins + 1, t.bodies + 1, t.commits, t.rollbacks + 1, t.slept + d)
  {
    TotalThree(trace, Begin, Body, Rollback);
    TotalAppend(trace + [Begin, Body, Rollback], Sleep(d));
    assert trace + [Begin, Body, Rollback, Sleep(d)] == trace + [Begin, Body, Rollback] + [Sleep(d)];
  }

  /** `delay + 2 * delay + ... ` over `k` doublings. */
  function GeometricSum(delay: nat, k: nat): nat {
    delay * (Pow2(k) - 1)
  }

  function Capped(k: nat): nat {
    if k < 32 then k else 32
  }

  lemma SumStep(cfg: Config, k: nat)
    requires k >= 1
    ensures GeometricSum(cfg.retryDelay, Capped(k)) == GeometricSum(cfg.retryDelay, Capped(k - 1)) + Delay(cfg, k - 1)
  {
    Pow2Wraps(k - 1);
    if k <= 32 {
      Distribute(cfg.retryDelay, Pow2(k - 1));
    }
  }

  lemma Distribute(delay: nat, p: nat)
    requires p >= 1
    ensures delay * (2 * p - 1) == delay * (p - 1) + delay * p
  {
  }

  /** `k` retries run and roll back `k` bodies and sleep the geometric sum; the 32-bit power
      makes every retry from the thirty-third on wait nothing. */
  lemma {:induction false} RetriesTotal(cfg: Config, k: nat)
    ensures Total(Retries(cfg, k)) == Tally(k, k, 0, k, GeometricSum(cfg.retryDelay, Capped(k)))
  {
    if k > 0 {
      RetriesTotal(cfg, k - 1);
      TotalRound(Retries(cfg, k - 1), Delay(cfg, k - 1));
      SumStep(cfg, k);
    }
  }

  function One(b: bool): nat {
    if b then 1 else 0
  }

  lemma SettleTotal(before: seq<Effect>, a: Attempt)
    ensures var t, t' := Total(before), Total(before + SettleEffects(a));
            var begun := One(a.begin.Fine?);
            var ran := One(a.begin.Fine? && a.isolation.Fine?);
            var commits := One(a.begin.Fine? && a.isolation.Fine? && a.body.Value?);
            t' == Tally(t.begins + begun, t.bodies + ran, t.commits + commits, t.rollbacks + begun - commits, t.slept)
  {
    var effects := SettleEffects(a);
    if effects == [] {
      assert before + effects == before;
    } else if a.isolation.Broken? {
      TotalAppend(before, Begin);
      TotalAppend(before + [Begin], Rollback);
      assert before + effects == before + [Begin] + [Rollback];
    } else {
      TotalThree(before, Begin, Body, effects[2]);
    }
  }

  /** Whatever the database answers: the body runs at most `maxRetries + 1` times, at most
      one commit is attempted and the result is a value exactly when it went through, every
      transaction begun is closed by exactly one commit or rollback, and the fallback error
      after the loop is never the answer. */
  lemma TransactionAccounts(cfg: Config, a: Attempt, k: nat)
    requires k <= cfg.maxRetries
    ensures var t := Total(Retries(cfg, k) + SettleEffects(a));
            && k <= t.bodies <= t.begins <= k + 1 <= cfg.maxRetries + 1
            && (t.bodies < t.begins <==> a.begin.Fine? && a.isolation.Broken?)
            && t.begins == t.commits + t.rollbacks && t.commits <= 1
            && (Settle(a).Ok? <==> t.commits == 1 && a.commit.Fine?)
            && !Settle(a).Exhausted?
            && t.slept == GeometricSum(cfg.retryDelay, Capped(k))
  {
    RetriesTotal(cfg, k);
    SettleTotal(Retries(cfg, k), a);
  }

  /** The documented exponential backoff is what is slept exactly up to 32 retries. */
  lemma SleptIffWithinWord(cfg: Config, k: nat)
    ensures Total(Retries(cfg, k)).slept == GeometricSum(cfg.retryDelay, k) <==> k <= 32 || cfg.retryDelay == 0
  {
    RetriesTotal(cfg, k);
    CappedSum(cfg.retryDelay, k);
  }

  lemma CappedSum(delay: nat, k: nat)
    ensures GeometricSum(delay, Capped(k)) == GeometricSum(delay, k) <==> k <= 32 || delay == 0
  {
    var c := Capped(k);
    Pow2Increases(c, k);
    SameProduct(delay, Pow2(c) - 1, Pow2(k) - 1);
  }

  lemma SameProduct(d: nat, a: nat, b: nat)
    requires a <= b
    ensures d * a == d * b <==> d == 0 || a == b
  {
  }
}
