/** The sequential breaker as one of the interleavings of `HalfOpenProbes`: the accesses to
the probe counter that a history of events makes, and what follows for its `inFlight`. The
history says what happened when; `callOf` says which call event `n` belongs to. */
module ProbeTrace {
  import opened Words
  import opened CircuitBreaker
  import opened BreakerHistory
  import opened HalfOpenProbes

  /** The accesses one event of `call` makes to the probe counter. */
  function Accesses(cfg: Config, c: Counters, e: Event, call: nat): seq<Action> {
    var s := StateAt(c, e.at);
    match e.kind
    case Allow => if s.HalfOpen? then [Load(call), CompareExchange(call)] else []
    case Success =>
      if !s.HalfOpen? then [Leave(call)]
      else if c.successes + 1 >= cfg.successThreshold then [Finish(call), Reset]
      else [Finish(call)]
    case Failure =>
      if s.HalfOpen? then [Finish(call), Reset]
      else if s.Closed? && c.failures + 1 >= cfg.failureThreshold then [Leave(call), Reset]
      else [Leave(call)]
    case ManualTrip => [Reset]
    case ManualReset => [Reset]
  }

  function Trace(cfg: Config, h: seq<Event>, callOf: nat -> nat): seq<Action> {
    if h == [] then []
    else
      var n := |h| - 1;
      Trace(cfg, h[..n], callOf) + Accesses(cfg, Replay(cfg, h[..n]), h[n], callOf(n))
  }

  // --- one or two accesses more ---

  lemma AppendOne(limit: nat, before: seq<Action>, a: Action)
    ensures var all := before + [a];
            && Run(limit, all) == Act(limit, Run(limit, before), a)
            && Counted(limit, all) == (if a.Reset? then {} else Join(limit, Run(limit, before), Counted(limit, before), a))
            && Attempted(all) == Attempted(before) + (if a.Load? then {a.call} else {})
            && (Lawful(all) <==> Lawful(before) && (a.Load? ==> a.call !in Attempted(before)))
            && (Owned(limit, all) <==>
                && Owned(limit, before)
                && (a.Finish? ==> a.call in Counted(limit, before)) && (a.Leave? ==> a.call !in Counted(limit, before)))
  {
    assert Init(before + [a]) == before && Last(before + [a]) == a;
  }

  lemma AppendTwo(limit: nat, before: seq<Action>, a: Action, b: Action)
    ensures Run(limit, before + [a, b]) == Act(limit, Act(limit, Run(limit, before), a), b)
    ensures b.Reset? ==> Counted(limit, before + [a, b]) == {}
    ensures before + [a, b] == before + [a] + [b]
  {
    assert before + [a, b] == before + [a] + [b];
    AppendOne(limit, before, a);
    AppendOne(limit, before + [a], b);
  }

  // --- the counter ---

  lemma AllowAgrees(cfg: Config, before: seq<Action>, c: Counters, e: Event, call: nat)
    requires Run(cfg.probeLimit, before).counter == c.inFlight && e.kind.Allow?
    ensures Run(cfg.probeLimit, before + Accesses(cfg, c, e, call)).counter == Apply(cfg, c, e).inFlight
  {
    assert before + [] == before;
    AppendTwo(cfg.probeLimit, before, Load(call), CompareExchange(call));
  }

  lemma SuccessAgrees(cfg: Config, before: seq<Action>, c: Counters, e: Event, call: nat)
    requires Run(cfg.probeLimit, before).counter == c.inFlight && e.kind.Success?
    ensures Run(cfg.probeLimit, before + Accesses(cfg, c, e, call)).counter == Apply(cfg, c, e).inFlight
  {
    AppendOne(cfg.probeLimit, before, Leave(call));
    AppendOne(cfg.probeLimit, before, Finish(call));
    AppendTwo(cfg.probeLimit, before, Finish(call), Reset);
  }

  lemma FailureAgrees(cfg: Config, before: seq<Action>, c: Counters, e: Event, call: nat)
    requires Run(cfg.probeLimit, before).counter == c.inFlight && e.kind.Failure?
    ensures Run(cfg.probeLimit, before + Accesses(cfg, c, e, call)).counter == Apply(cfg, c, e).inFlight
  {
    AppendOne(cfg.probeLimit, before, Leave(call));
    AppendTwo(cfg.probeLimit, before, Finish(call), Reset);
    AppendTwo(cfg.probeLimit, before, Leave(call), Reset);
  }

  /** The breaker's counter is the shared counter after those accesses. */
  lemma {:induction false} InFlightIsSharedCounter(cfg: Config, h: seq<Event>, callOf: nat -> nat)
    ensures Replay(cfg, h).inFlight == Run(cfg.probeLimit, Trace(cfg, h, callOf)).counter
  {
    if h != [] {
      var n := |h| - 1;
      InFlightIsSharedCounter(cfg, h[..n], callOf);
      var before, c := Trace(cfg, h[..n], callOf), Replay(cfg, h[..n]);
      match h[n].kind
      case Allow => AllowAgrees(cfg, before, c, h[n], callOf(n));
      case Success => SuccessAgrees(cfg, before, c, h[n], callOf(n));
      case Failure => FailureAgrees(cfg, before, c, h[n], callOf(n));
      case _ => AppendOne(cfg.probeLimit, before, Reset);
    }
  }

  // --- the probes ---

  /** No two admission attempts belong to the same call. */
  predicate DistinctCalls(h: seq<Event>, callOf: nat -> nat) {
    forall i, j :: 0 <= i < j < |h| && h[i].kind.Allow? && h[j].kind.Allow? ==> callOf(i) != callOf(j)
  }

  ghost predicate AskedIn(h: seq<Event>, callOf: nat -> nat, call: nat) {
    exists i :: 0 <= i < |h| && h[i].kind.Allow? && callOf(i) == call
  }

  lemma EventAttempts(cfg: Config, before: seq<Action>, c: Counters, e: Event, call: nat)
    ensures var all := before + Accesses(cfg, c, e, call);
            && Attempted(before) <= Attempted(all) <= Attempted(before) + (if e.kind.Allow? then {call} else {})
            && (Lawful(before) && (e.kind.Allow? ==> call !in Attempted(before)) ==> Lawful(all))
  {
    var acts, all := Accesses(cfg, c, e, call), before + Accesses(cfg, c, e, call);
    if |acts| == 0 {
      assert all == before;
    } else {
      AppendOne(cfg.probeLimit, before, acts[0]);
      if |acts| == 1 {
        assert all == before + [acts[0]];
      } else {
        AppendTwo(cfg.probeLimit, before, acts[0], acts[1]);
        AppendOne(cfg.probeLimit, before + [acts[0]], acts[1]);
        assert all == before + [acts[0], acts[1]];
      }
    }
  }

  lemma {:induction false} TraceIsLawful(cfg: Config, h: seq<Event>, callOf: nat -> nat)
    requires DistinctCalls(h, callOf)
    ensures Lawful(Trace(cfg, h, callOf))
    ensures forall c :: c in Attempted(Trace(cfg, h, callOf)) ==> AskedIn(h, callOf, c)
  {
    if h != [] {
      var n := |h| - 1;
      var before := Trace(cfg, h[..n], callOf);
      TraceIsLawful(cfg, h[..n], callOf);
      EventAttempts(cfg, before, Replay(cfg, h[..n]), h[n], callOf(n));
      forall c | c in Attempted(Trace(cfg, h, callOf))
        ensures AskedIn(h, callOf, c)
      {
        if c in Attempted(before) {
          var i :| 0 <= i < n && h[..n][i].kind.Allow? && callOf(i) == c;
          assert h[i].kind.Allow?;
        } else {
          assert h[n].kind.Allow? && callOf(n) == c;
        }
      }
    }
  }

  /** The event ends a call while the breaker is half-open. */
  predicate EndsProbe(cfg: Config, h: seq<Event>)
    requires h != []
  {
    var n := |h| - 1;
    (h[n].kind.Success? || h[n].kind.Failure?) && StateAt(Replay(cfg, h[..n]), h[n].at).HalfOpen?
  }

  /** Every call that ends while the breaker is half-open was counted since the last trip. */
  predicate OutcomesOwned(cfg: Config, h: seq<Event>, callOf: nat -> nat) {
    h == [] ||
    var n := |h| - 1;
    && OutcomesOwned(cfg, h[..n], callOf)
    && (EndsProbe(cfg, h) ==> callOf(n) in Counted(cfg.probeLimit, Trace(cfg, h[..n], callOf)))
  }

  /** The event stores zero in the counter. */
  predicate Resets(cfg: Config, c: Counters, e: Event) {
    var acts := Accesses(cfg, c, e, 0);
    acts != [] && acts[|acts| - 1].Reset?
  }

  lemma StaysHalfOpen(cfg: Config, c: Counters, e: Event)
    requires StateAt(c, e.at).HalfOpen? && !Resets(cfg, c, e)
    ensures StateAt(Apply(cfg, c, e), e.at).HalfOpen?
  {
  }

  lemma ResetClears(cfg: Config, before: seq<Action>, c: Counters, e: Event, call: nat)
    requires Resets(cfg, c, e)
    ensures Counted(cfg.probeLimit, before + Accesses(cfg, c, e, call)) == {}
  {
    var acts := Accesses(cfg, c, e, call);
    if |acts| == 1 {
      AppendOne(cfg.probeLimit, before, Reset);
    } else {
      AppendTwo(cfg.probeLimit, before, acts[0], Reset);
      assert acts == [acts[0], Reset];
    }
  }

  /** An event outside half-open counts nobody. */
  lemma NoneJoins(cfg: Config, before: seq<Action>, c: Counters, e: Event, call: nat)
    requires !StateAt(c, e.at).HalfOpen? && !Resets(cfg, c, e) && Counted(cfg.probeLimit, before) == {}
    ensures Counted(cfg.probeLimit, before + Accesses(cfg, c, e, call)) == {}
  {
    assert before + [] == before;
    AppendOne(cfg.probeLimit, before, Leave(call));
  }

  lemma HalfOpenLater(c: Counters, now: nat, later: nat)
    requires StateAt(c, now).HalfOpen? && now <= later
    ensures StateAt(c, later).HalfOpen?
  {
  }

  /** Counted probes exist only while the breaker is half-open. */
  lemma {:induction false} CountedWhileHalfOpen(cfg: Config, h: seq<Event>, callOf: nat -> nat, now: nat)
    requires Chronological(h) && (h != [] ==> h[|h| - 1].at <= now)
    ensures Counted(cfg.probeLimit, Trace(cfg, h, callOf)) != {} ==> StateAt(Replay(cfg, h), now).HalfOpen?
  {
    if h != [] {
      var n := |h| - 1;
      var before, c, e := Trace(cfg, h[..n], callOf), Replay(cfg, h[..n]), h[n];
      CountedWhileHalfOpen(cfg, h[..n], callOf, e.at);
      if Resets(cfg, c, e) {
        ResetClears(cfg, before, c, e, callOf(n));
      } else if StateAt(c, e.at).HalfOpen? {
        StaysHalfOpen(cfg, c, e);
        HalfOpenLater(Apply(cfg, c, e), e.at, now);
      } else {
        NoneJoins(cfg, before, c, e, callOf(n));
      }
    }
  }

  lemma EventOwned(cfg: Config, before: seq<Action>, c: Counters, e: Event, call: nat)
    requires Counted(cfg.probeLimit, before) != {} ==> StateAt(c, e.at).HalfOpen?
    ensures Owned(cfg.probeLimit, before + Accesses(cfg, c, e, call)) <==>
            && Owned(cfg.probeLimit, before)
            && ((e.kind.Success? || e.kind.Failure?) && StateAt(c, e.at).HalfOpen? ==>
                  call in Counted(cfg.probeLimit, before))
  {
    var acts, all := Accesses(cfg, c, e, call), before + Accesses(cfg, c, e, call);
    if |acts| == 0 {
      assert all == before;
    } else {
      AppendOne(cfg.probeLimit, before, acts[0]);
      if |acts| == 1 {
        assert all == before + [acts[0]];
      } else {
        AppendOne(cfg.probeLimit, before + [acts[0]], acts[1]);
        assert all == before + [acts[0]] + [acts[1]];
      }
    }
  }

  lemma {:induction false} OwnedIffOutcomesOwned(cfg: Config, h: seq<Event>, callOf: nat -> nat)
    requires Chronological(h)
    ensures Owned(cfg.probeLimit, Trace(cfg, h, callOf)) <==> OutcomesOwned(cfg, h, callOf)
  {
    if h != [] {
      var n := |h| - 1;
      OwnedIffOutcomesOwned(cfg, h[..n], callOf);
      assert n > 0 ==> h[..n][n - 1].at <= h[n].at;
      CountedWhileHalfOpen(cfg, h[..n], callOf, h[n].at);
      EventOwned(cfg, Trace(cfg, h[..n], callOf), Replay(cfg, h[..n]), h[n], callOf(n));
    }
  }

  /** Throughout a history, the breaker's counter is the number of probes counted since the
      last trip or close and still in flight, if and only if every call that ends while the
      breaker is half-open is one of them. Then it is within the limit, and a half-open
      breaker admits exactly while fewer than the limit are in flight. */
  lemma CounterIsProbesIff(cfg: Config, h: seq<Event>, callOf: nat -> nat, now: nat)
    requires cfg.probeLimit < U32 && Chronological(h) && DistinctCalls(h, callOf)
    ensures CountsProbes(cfg.probeLimit, Trace(cfg, h, callOf)) <==> OutcomesOwned(cfg, h, callOf)
    ensures OutcomesOwned(cfg, h, callOf) ==>
              var inFlight := |Counted(cfg.probeLimit, Trace(cfg, h, callOf))|;
              && Replay(cfg, h).inFlight == inFlight <= cfg.probeLimit
              && (StateAt(Replay(cfg, h), now).HalfOpen? ==>
                    (Admits(cfg, Replay(cfg, h), now) <==> inFlight < cfg.probeLimit))
  {
    TraceIsLawful(cfg, h, callOf);
    OwnedIffOutcomesOwned(cfg, h, callOf);
    CountsProbesIffOwned(cfg.probeLimit, Trace(cfg, h, callOf));
    InFlightIsSharedCounter(cfg, h, callOf);
  }
}
