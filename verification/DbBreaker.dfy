/** The circuit breaker in front of the database pool, against the history of outcomes
fed to it by connection attempts and by the periodic health probe. */
module DbBreaker {
  import opened Words

  datatype State = Closed | Open | HalfOpen

  /** `threshold` is the configured one raised to at least 1. */
  datatype Config = Config(threshold: nat, openMs: nat) {
    predicate Valid() {
      1 <= threshold < U32
    }
  }

  datatype Cells = Cells(failures: nat, openedAt: nat, trial: nat)

  const START: Cells := Cells(0, 0, 0)

  function StateAt(cfg: Config, c: Cells, now: nat): State {
    if c.openedAt == 0 then Closed
    else if (if now < c.openedAt then 0 else now - c.openedAt) >= cfg.openMs then HalfOpen
    else Open
  }

  /** The failure counter is an unsigned 32-bit word and wraps. */
  function OnFailure(cfg: Config, c: Cells, now: nat): Cells {
    var failures := (c.failures + 1) % U32;
    if failures >= cfg.threshold || StateAt(cfg, c, now).HalfOpen? then Cells(failures, now, 0)
    else Cells(failures, c.openedAt, 0)
  }

  predicate Admits(cfg: Config, c: Cells, now: nat) {
    match StateAt(cfg, c, now)
    case Closed => true
    case Open => false
    case HalfOpen => c.trial == 0
  }

  function OnAttempt(cfg: Config, c: Cells, now: nat): Cells {
    if StateAt(cfg, c, now).HalfOpen? && Admits(cfg, c, now) then c.(trial := 1) else c
  }

  datatype PoolAnswer = Connected | PoolError | TimedOut

  datatype AcquireResult = Connection | ServiceUnavailable | DatabaseError

  class Breaker {
    const cfg: Config
    var failures: nat
    var openedAt: nat
    var trial: nat

    ghost function View(): Cells
      reads this
    {
      Cells(failures, openedAt, trial)
    }

    constructor (configuredThreshold: nat, openSecs: nat)
      requires configuredThreshold < U32
      ensures View() == START && cfg.Valid()
      ensures cfg == Config(if configuredThreshold < 1 then 1 else configuredThreshold, openSecs * 1000)
    {
      cfg := Config(if configuredThreshold < 1 then 1 else configuredThreshold, openSecs * 1000);
      failures, openedAt, trial := 0, 0, 0;
    }

    method State(now: nat) returns (s: State)
      ensures s == StateAt(cfg, View(), now)
    {
      if openedAt == 0 {
        return Closed;
      }
      var elapsed := if now < openedAt then 0 else now - openedAt;
      return if elapsed >= cfg.openMs then HalfOpen else Open;
    }

    method RecordSuccess()
      modifies this
      ensures View() == START
    {
      failures, openedAt, trial := 0, 0, 0;
    }

    method RecordFailure(now: nat)
      modifies this
      ensures View() == OnFailure(cfg, old(View()), now)
    {
      trial := 0;
      failures := (failures + 1) % U32;
      var s := State(now);
      if failures >= cfg.threshold || s == HalfOpen {
        openedAt := now;
      }
    }

    method AllowsRequest(now: nat) returns (allowed: bool)
      modifies this`trial
      ensures allowed == Admits(cfg, old(View()), now)
      ensures View() == OnAttempt(cfg, old(View()), now)
    {
      var s := State(now);
      if s == Closed {
        return true;
      }
      if s == Open || trial != 0 {
        return false;
      }
      trial := 1;
      return true;
    }

    /** Borrow a connection: refused at once while the breaker does not admit, otherwise
        the pool's answer is recorded when it arrives. */
    method Acquire(now: nat, answer: PoolAnswer, answeredAt: nat) returns (r: AcquireResult)
      requires now <= answeredAt
      modifies this
      ensures !Admits(cfg, old(View()), now) ==> r == ServiceUnavailable && View() == old(View())
      ensures Admits(cfg, old(View()), now) ==>
                && (r == Connection <==> answer == Connected) && (r == DatabaseError <==> answer == PoolError)
                && View() == if answer == Connected then START
                             else OnFailure(cfg, OnAttempt(cfg, old(View()), now), answeredAt)
    {
      var allowed := AllowsRequest(now);
      if !allowed {
        return ServiceUnavailable;
      }
      if answer == Connected {
        RecordSuccess();
        return Connection;
      }
      RecordFailure(answeredAt);
      return if answer == PoolError then DatabaseError else ServiceUnavailable;
    }
  }

  // --- histories ---

  datatype Kind = Attempt | Success | Failure

  datatype Event = Event(at: nat, kind: Kind)

  predicate Chronological(h: seq<Event>) {
    && (forall i :: 0 <= i < |h| ==> h[i].at >= 1)
    && (forall i, j :: 0 <= i < j < |h| ==> h[i].at <= h[j].at)
  }

  function Apply(cfg: Config, c: Cells, e: Event): Cells {
    match e.kind
    case Attempt => OnAttempt(cfg, c, e.at)
    case Success => START
    case Failure => OnFailure(cfg, c, e.at)
  }

  function Replay(cfg: Config, h: seq<Event>): Cells {
    if h == [] then START else Apply(cfg, Replay(cfg, h[..|h| - 1]), h[|h| - 1])
  }

  /** Failures since the last success. */
  function FailureRun(h: seq<Event>): nat {
    if h == [] then 0
    else
      match h[|h| - 1].kind
      case Attempt => FailureRun(h[..|h| - 1])
      case Success => 0
      case Failure => FailureRun(h[..|h| - 1]) + 1
  }

  /** When the latest failure since the last success happened; 0 if there is none. */
  function LatestFailure(h: seq<Event>): nat {
    if h == [] then 0
    else
      match h[|h| - 1].kind
      case Attempt => LatestFailure(h[..|h| - 1])
      case Success => 0
      case Failure => h[|h| - 1].at
  }

  lemma WrapStep(run: nat)
    ensures (run % U32 + 1) % U32 == (run + 1) % U32
    ensures run < U32 ==> run % U32 == run
  {
  }

  ghost predicate Follows(cfg: Config, h: seq<Event>, c: Cells) {
    && c.failures == FailureRun(h) % U32
    && (c.openedAt != 0 <==> FailureRun(h) >= cfg.threshold)
    && (cfg.threshold <= FailureRun(h) < U32 ==> c.openedAt == LatestFailure(h))
    && c.openedAt <= (if h == [] then 0 else h[|h| - 1].at)
  }

  lemma FailureStep(cfg: Config, h: seq<Event>, c: Cells)
    requires cfg.Valid() && Chronological(h) && h != [] && h[|h| - 1].kind.Failure? && Follows(cfg, h[..|h| - 1], c)
    ensures Follows(cfg, h, Apply(cfg, c, h[|h| - 1]))
  {
    var n := |h| - 1;
    WrapStep(FailureRun(h[..n]));
    WrapStep(FailureRun(h));
    assert n > 0 ==> h[n - 1].at <= h[n].at;
  }

  /** The cells are a function of the outcome history: the breaker is not Closed exactly
      when the trailing failure run has reached the threshold, and its open time is that of
      the latest failure as long as the 32-bit counter has not wrapped. */
  lemma {:induction false} CellsFollowHistory(cfg: Config, h: seq<Event>)
    requires cfg.Valid() && Chronological(h)
    ensures Follows(cfg, h, Replay(cfg, h))
  {
    if h != [] {
      var n := |h| - 1;
      CellsFollowHistory(cfg, h[..n]);
      if h[n].kind.Failure? {
        FailureStep(cfg, h, Replay(cfg, h[..n]));
      } else {
        assert n > 0 ==> h[n - 1].at <= h[n].at;
      }
    }
  }

  /** The derived state, read off the history. */
  lemma StateFollowsHistory(cfg: Config, h: seq<Event>, now: nat)
    requires cfg.Valid() && Chronological(h) && (h != [] ==> h[|h| - 1].at <= now) && FailureRun(h) < U32
    ensures StateAt(cfg, Replay(cfg, h), now) ==
            if FailureRun(h) < cfg.threshold then Closed
            else if now - LatestFailure(h) >= cfg.openMs then HalfOpen
            else Open
  {
    CellsFollowHistory(cfg, h);
  }

  /** Until the counter wraps, the threshold test alone decides whether a failure reopens
      the breaker: the half-open test beside it changes nothing. */
  lemma HalfOpenTestIsRedundant(cfg: Config, h: seq<Event>, now: nat)
    requires cfg.Valid() && Chronological(h) && FailureRun(h) + 1 < U32
    ensures StateAt(cfg, Replay(cfg, h), now).HalfOpen? ==> (Replay(cfg, h).failures + 1) % U32 >= cfg.threshold
  {
    CellsFollowHistory(cfg, h);
  }

  // --- half-open trials ---

  /** Event `i` is an attempt admitted as a half-open trial. */
  predicate Trial(cfg: Config, h: seq<Event>, i: nat)
    requires i < |h|
  {
    var c := Replay(cfg, h[..i]);
    h[i].kind.Attempt? && StateAt(cfg, c, h[i].at).HalfOpen? && Admits(cfg, c, h[i].at)
  }

  predicate OutcomeBetween(h: seq<Event>, i: nat, j: nat)
    requires i <= j <= |h|
  {
    exists k :: i <= k < j && !h[k].kind.Attempt?
  }

  ghost predicate Pending(cfg: Config, h: seq<Event>) {
    exists i :: 0 <= i < |h| && Trial(cfg, h, i) && !OutcomeBetween(h, i, |h|)
  }

  lemma TrialInPrefix(cfg: Config, h: seq<Event>, n: nat, i: nat)
    requires i < n <= |h|
    ensures Trial(cfg, h[..n], i) == Trial(cfg, h, i)
    ensures OutcomeBetween(h[..n], i, n) == OutcomeBetween(h, i, n)
  {
    assert h[..n][..i] == h[..i];
    assert forall k :: i <= k < n ==> h[..n][k] == h[k];
  }

  /** How the last event changes whether a trial is pending. */
  lemma PendingStep(cfg: Config, h: seq<Event>)
    requires h != []
    ensures var n := |h| - 1;
            Pending(cfg, h) <==> h[n].kind.Attempt? && (Trial(cfg, h, n) || Pending(cfg, h[..n]))
  {
    var n := |h| - 1;
    var init := h[..n];
    forall i | 0 <= i < n
      ensures Trial(cfg, init, i) == Trial(cfg, h, i)
      ensures OutcomeBetween(h, i, |h|) <==> OutcomeBetween(init, i, n) || !h[n].kind.Attempt?
    {
      TrialInPrefix(cfg, h, n, i);
      LastOutcome(h, i);
    }
    if h[n].kind.Attempt? && Pending(cfg, init) {
      var i :| 0 <= i < n && Trial(cfg, init, i) && !OutcomeBetween(init, i, n);
      assert Trial(cfg, h, i) && !OutcomeBetween(h, i, |h|);
    }
    if Trial(cfg, h, n) {
      assert !OutcomeBetween(h, n, |h|);
    }
  }

  lemma LastOutcome(h: seq<Event>, i: nat)
    requires i < |h|
    ensures OutcomeBetween(h, i, |h|) <==> OutcomeBetween(h, i, |h| - 1) || !h[|h| - 1].kind.Attempt?
  {
  }

  /** The trial flag is set exactly while a trial has had no outcome since. */
  lemma {:induction false} FlagMarksPendingTrial(cfg: Config, h: seq<Event>)
    ensures Replay(cfg, h).trial != 0 <==> Pending(cfg, h)
  {
    if h != [] {
      PendingStep(cfg, h);
      FlagMarksPendingTrial(cfg, h[..|h| - 1]);
    }
  }

  /** An attempt that meets a half-open breaker is admitted exactly when no other trial has
      been admitted since the last outcome. */
  lemma TrialIff(cfg: Config, h: seq<Event>, j: nat)
    requires j < |h| && h[j].kind.Attempt? && StateAt(cfg, Replay(cfg, h[..j]), h[j].at).HalfOpen?
    ensures Trial(cfg, h, j) <==> forall i :: 0 <= i < j && Trial(cfg, h, i) ==> OutcomeBetween(h, i, j)
  {
    var init := h[..j];
    FlagMarksPendingTrial(cfg, init);
    forall i | 0 <= i < j
      ensures Trial(cfg, init, i) == Trial(cfg, h, i) && OutcomeBetween(init, i, j) == OutcomeBetween(h, i, j)
    {
      TrialInPrefix(cfg, h, j, i);
    }
  }

  /** Until the counter wraps, an attempt goes through exactly when the trailing failure run is
      below the threshold, or the cooldown since the latest failure is over and no trial has
      been admitted since the last outcome. */
  lemma AdmissionFollowsHistory(cfg: Config, h: seq<Event>, now: nat)
    requires cfg.Valid() && Chronological(h) && (h != [] ==> h[|h| - 1].at <= now) && FailureRun(h) < U32
    ensures Admits(cfg, Replay(cfg, h), now) <==>
            FailureRun(h) < cfg.threshold || (now - LatestFailure(h) >= cfg.openMs && !Pending(cfg, h))
  {
    StateFollowsHistory(cfg, h, now);
    FlagMarksPendingTrial(cfg, h);
  }

  function Trials(cfg: Config, h: seq<Event>): nat {
    if h == [] then 0
    else Trials(cfg, h[..|h| - 1]) + (if Trial(cfg, h, |h| - 1) then 1 else 0)
  }

  function Failures(h: seq<Event>): nat {
    if h == [] then 0 else Failures(h[..|h| - 1]) + (if h[|h| - 1].kind.Failure? then 1 else 0)
  }

  /** Over a whole run the struggling database is probed at most once per recorded failure. */
  lemma {:induction false} TrialsPaidByFailures(cfg: Config, h: seq<Event>)
    requires cfg.Valid()
    ensures Trials(cfg, h) <= Failures(h)
    ensures Replay(cfg, h).openedAt != 0 && Replay(cfg, h).trial == 0 ==> Trials(cfg, h) < Failures(h)
  {
    if h != [] {
      TrialsPaidByFailures(cfg, h[..|h| - 1]);
    }
  }
}
