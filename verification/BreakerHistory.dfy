/** The counters of the external circuit breaker against a specification that looks at
the whole history of events instead of keeping any counter. */
module BreakerHistory {
  import opened Words
  import opened CircuitBreaker

  datatype Kind = Allow | Success | Failure | ManualTrip | ManualReset

  datatype Event = Event(at: nat, kind: Kind)

  predicate Chronological(h: seq<Event>) {
    && (forall i :: 0 <= i < |h| ==> h[i].at >= 1)
    && (forall i, j :: 0 <= i < j < |h| ==> h[i].at <= h[j].at)
  }

  // --- the implementation, replayed ---

  function Apply(cfg: Config, c: Counters, e: Event): Counters {
    match e.kind
    case Allow => OnAllow(cfg, c, e.at)
    case Success => OnSuccess(cfg, c, e.at)
    case Failure => OnFailure(cfg, c, e.at)
    case ManualTrip => Trip(cfg, c.(manual := true), e.at)
    case ManualReset => Initial(cfg)
  }

  function Replay(cfg: Config, h: seq<Event>): Counters {
    if h == [] then Initial(cfg) else Apply(cfg, Replay(cfg, h[..|h| - 1]), h[|h| - 1])
  }

  // --- the specification: questions about the history ---

  /** Failures since the last success or manual event, admissions aside. */
  function FailureRun(h: seq<Event>): nat {
    if h == [] then 0
    else
      var init := h[..|h| - 1];
      match h[|h| - 1].kind
      case Failure => FailureRun(init) + 1
      case Allow => FailureRun(init)
      case _ => 0
  }

  /** Is a manual trip in force? */
  predicate Overridden(h: seq<Event>) {
    h != [] &&
    match h[|h| - 1].kind
    case ManualTrip => true
    case ManualReset => false
    case _ => Overridden(h[..|h| - 1])
  }

  /** Successes after event `i` that came no earlier than `due`. */
  function ProbeSuccesses(h: seq<Event>, i: nat, due: nat): nat {
    if |h| <= i + 1 then 0
    else
      var last := h[|h| - 1];
      ProbeSuccesses(h[..|h| - 1], i, due) + (if last.kind.Success? && last.at >= due then 1 else 0)
  }

  datatype Opening = NotOpen | OpenedBy(i: nat)

  function AtLeastOne(n: nat): nat {
    if n < 1 then 1 else n
  }

  /** Which event opened the breaker, if it is open or half-open now. */
  function OpenSince(cfg: Config, h: seq<Event>): (o: Opening)
    ensures o.OpenedBy? ==> o.i < |h|
    decreases |h|, 1
  {
    if h == [] then NotOpen
    else
      var n := |h| - 1;
      var init, e := h[..n], h[n];
      var before := OpenSince(cfg, init);
      match e.kind
      case Allow => before
      case ManualTrip => OpenedBy(n)
      case ManualReset => NotOpen
      case Failure =>
        if before.NotOpen? then (if FailureRun(h) >= cfg.failureThreshold then OpenedBy(n) else NotOpen)
        else if Overridden(init) || e.at < Due(cfg, init) then before
        else OpenedBy(n)
      case Success =>
        if before.NotOpen? || Overridden(init) || e.at < Due(cfg, init) then before
        else if ProbeSuccesses(h, before.i, Due(cfg, init)) >= cfg.successThreshold then NotOpen
        else before
  }

  /** How often the breaker has opened since it was last closed. */
  function TripCount(cfg: Config, h: seq<Event>): (k: nat)
    ensures OpenSince(cfg, h).OpenedBy? ==> k >= 1
    decreases |h|, 2
  {
    match OpenSince(cfg, h)
    case NotOpen => 0
    case OpenedBy(i) => TripCount(cfg, h[..|h| - 1]) + (if i == |h| - 1 then 1 else 0)
  }

  /** When an open breaker becomes half-open. */
  function Due(cfg: Config, h: seq<Event>): nat
    requires OpenSince(cfg, h).OpenedBy?
    decreases |h|, 3
  {
    h[OpenSince(cfg, h).i].at + Cooldown(cfg, TripCount(cfg, h))
  }

  function SpecState(cfg: Config, h: seq<Event>, now: nat): State {
    if Overridden(h) then Open
    else if OpenSince(cfg, h).NotOpen? then Closed
    else if now >= Due(cfg, h) then HalfOpen
    else Open
  }

  // --- the refinement ---

  /** Every counter is the answer to a question about the history. */
  ghost predicate Matches(cfg: Config, h: seq<Event>, c: Counters) {
    && c.manual == Overridden(h)
    && c.trips == TripCount(cfg, h)
    && match OpenSince(cfg, h)
       case NotOpen =>
         && !c.manual && c.openedAt == 0 && c.cooldown == cfg.initialMs
         && c.failures == FailureRun(h) < AtLeastOne(cfg.failureThreshold)
       case OpenedBy(i) =>
         && c.openedAt == h[i].at >= 1 && c.cooldown == Cooldown(cfg, TripCount(cfg, h)) && c.failures == 0
         && (!c.manual ==>
               c.successes == ProbeSuccesses(h, i, Due(cfg, h)) < AtLeastOne(cfg.successThreshold))
  }

  lemma MatchesGivesState(cfg: Config, h: seq<Event>, c: Counters, now: nat)
    requires Matches(cfg, h, c) && (h != [] ==> h[|h| - 1].at <= now) && Chronological(h)
    ensures StateAt(c, now) == SpecState(cfg, h, now)
  {
  }

  /** No success counts as a probe before the cooldown is over. */
  lemma NoEarlyProbes(h: seq<Event>, i: nat, due: nat)
    requires Chronological(h) && (h != [] ==> h[|h| - 1].at < due)
    ensures ProbeSuccesses(h, i, due) == 0
  {
  }

  lemma ManualStep(cfg: Config, h: seq<Event>, c: Counters)
    requires h != [] && Chronological(h) && Matches(cfg, h[..|h| - 1], c)
    requires h[|h| - 1].kind.ManualTrip? || h[|h| - 1].kind.ManualReset?
    ensures Matches(cfg, h, Apply(cfg, c, h[|h| - 1]))
  {
  }

  lemma AllowStep(cfg: Config, h: seq<Event>, c: Counters)
    requires h != [] && Chronological(h) && Matches(cfg, h[..|h| - 1], c) && h[|h| - 1].kind.Allow?
    ensures Matches(cfg, h, Apply(cfg, c, h[|h| - 1]))
  {
    var init := h[..|h| - 1];
    assert OpenSince(cfg, h) == OpenSince(cfg, init);
    if OpenSince(cfg, h).OpenedBy? {
      assert Due(cfg, h) == Due(cfg, init);
    }
  }

  lemma ClosedStep(cfg: Config, h: seq<Event>, c: Counters)
    requires h != [] && Chronological(h) && Matches(cfg, h[..|h| - 1], c)
    requires OpenSince(cfg, h[..|h| - 1]).NotOpen?
    requires h[|h| - 1].kind.Success? || h[|h| - 1].kind.Failure?
    ensures Matches(cfg, h, Apply(cfg, c, h[|h| - 1]))
  {
  }

  lemma OpenStep(cfg: Config, h: seq<Event>, c: Counters)
    requires h != [] && Chronological(h) && Matches(cfg, h[..|h| - 1], c)
    requires OpenSince(cfg, h[..|h| - 1]).OpenedBy?
    requires h[|h| - 1].kind.Success? || h[|h| - 1].kind.Failure?
    requires Overridden(h[..|h| - 1]) || h[|h| - 1].at < Due(cfg, h[..|h| - 1])
    ensures Matches(cfg, h, Apply(cfg, c, h[|h| - 1]))
  {
    var init, e := h[..|h| - 1], h[|h| - 1];
    var o := OpenSince(cfg, init);
    assert OpenSince(cfg, h) == o && Due(cfg, h) == Due(cfg, init);
    assert init[o.i].at <= e.at;
    assert StateAt(c, e.at).Open?;
    if !c.manual {
      assert |init| > 0 ==> init[|init| - 1].at <= e.at;
      NoEarlyProbes(init, o.i, Due(cfg, init));
    }
  }

  lemma ProbeStep(cfg: Config, h: seq<Event>, c: Counters)
    requires h != [] && Chronological(h) && Matches(cfg, h[..|h| - 1], c)
    requires OpenSince(cfg, h[..|h| - 1]).OpenedBy?
    requires h[|h| - 1].kind.Success? || h[|h| - 1].kind.Failure?
    requires !Overridden(h[..|h| - 1]) && h[|h| - 1].at >= Due(cfg, h[..|h| - 1])
    ensures Matches(cfg, h, Apply(cfg, c, h[|h| - 1]))
  {
    var init, e := h[..|h| - 1], h[|h| - 1];
    var o := OpenSince(cfg, init);
    assert init[o.i].at <= e.at;
    assert StateAt(c, e.at).HalfOpen?;
    if OpenSince(cfg, h) == o {
      assert Due(cfg, h) == Due(cfg, init);
    }
  }

  /** After every history, the counters are exactly what the specification reads off the
      history: the trailing failure run, the opening event, the trip count, the probe
      successes and the manual override. */
  lemma {:induction false} ReplayMatches(cfg: Config, h: seq<Event>)
    requires Chronological(h)
    ensures Matches(cfg, h, Replay(cfg, h))
  {
    if h != [] {
      var init, e := h[..|h| - 1], h[|h| - 1];
      ReplayMatches(cfg, init);
      var c := Replay(cfg, init);
      match e.kind
      case Allow => AllowStep(cfg, h, c);
      case ManualTrip => ManualStep(cfg, h, c);
      case ManualReset => ManualStep(cfg, h, c);
      case _ =>
        if OpenSince(cfg, init).NotOpen? {
          ClosedStep(cfg, h, c);
        } else if Overridden(init) || e.at < Due(cfg, init) {
          OpenStep(cfg, h, c);
        } else {
          ProbeStep(cfg, h, c);
        }
    }
  }

  /** Successes in a row since the breaker closed, while it is closed. */
  function ClosedSuccesses(cfg: Config, h: seq<Event>): nat {
    if h == [] then 0
    else
      var init := h[..|h| - 1];
      match h[|h| - 1].kind
      case Allow => ClosedSuccesses(cfg, init)
      case Success => if OpenSince(cfg, init).NotOpen? then ClosedSuccesses(cfg, init) + 1 else 0
      case _ => 0
  }

  /** The success counter of a closed breaker is that run. */
  lemma {:induction false} ClosedCountsSuccesses(cfg: Config, h: seq<Event>)
    requires Chronological(h) && OpenSince(cfg, h).NotOpen?
    ensures Replay(cfg, h).successes == ClosedSuccesses(cfg, h)
  {
    if h != [] {
      var init, e := h[..|h| - 1], h[|h| - 1];
      ReplayMatches(cfg, init);
      assert init != [] ==> init[|init| - 1].at <= e.at;
      MatchesGivesState(cfg, init, Replay(cfg, init), e.at);
      if OpenSince(cfg, init).NotOpen? {
        ClosedCountsSuccesses(cfg, init);
      }
    }
  }

  /** The derived state is the specified one at every moment after every history. */
  lemma StateIsSpecified(cfg: Config, h: seq<Event>, now: nat)
    requires Chronological(h) && (h != [] ==> h[|h| - 1].at <= now)
    ensures StateAt(Replay(cfg, h), now) == SpecState(cfg, h, now)
  {
    ReplayMatches(cfg, h);
    MatchesGivesState(cfg, h, Replay(cfg, h), now);
  }

  // --- what a client observes ---

  lemma DropLast(h: seq<Event>, e: Event)
    requires Chronological(h + [e])
    ensures (h + [e])[..|h|] == h && Chronological(h) && (h != [] ==> h[|h| - 1].at <= e.at)
  {
    var all := h + [e];
    assert forall i :: 0 <= i < |h| ==> h[i] == all[i] && all[i].at <= all[|h|].at;
  }

  /** The breaker leaves Closed exactly on a manual trip or on the failure that completes
      a run of `failureThreshold`. */
  lemma LeavesClosedIff(cfg: Config, h: seq<Event>, e: Event)
    requires Chronological(h + [e]) && StateAt(Replay(cfg, h), e.at).Closed?
    ensures !StateAt(Replay(cfg, h + [e]), e.at).Closed? <==>
            e.kind.ManualTrip? || (e.kind.Failure? && FailureRun(h) + 1 >= cfg.failureThreshold)
  {
    DropLast(h, e);
    StateIsSpecified(cfg, h, e.at);
    StateIsSpecified(cfg, h + [e], e.at);
    ReplayMatches(cfg, h);
  }

  /** It returns to Closed exactly on a manual reset or on the half-open success that
      completes `successThreshold` of them since the last trip. */
  lemma ReturnsToClosedIff(cfg: Config, h: seq<Event>, e: Event)
    requires Chronological(h + [e]) && !StateAt(Replay(cfg, h), e.at).Closed?
    ensures OpenSince(cfg, h).OpenedBy?
    ensures StateAt(Replay(cfg, h + [e]), e.at).Closed? <==>
            || e.kind.ManualReset?
            || (e.kind.Success? && !Overridden(h) && e.at >= Due(cfg, h) &&
                ProbeSuccesses(h, OpenSince(cfg, h).i, Due(cfg, h)) + 1 >= cfg.successThreshold)
  {
    DropLast(h, e);
    StateIsSpecified(cfg, h, e.at);
    StateIsSpecified(cfg, h + [e], e.at);
    ReplayMatches(cfg, h);
    ReplayMatches(cfg, h + [e]);
  }

  /** Requests always pass while closed, and never during a cooldown or an override. */
  lemma AdmissionFollowsHistory(cfg: Config, h: seq<Event>, now: nat)
    requires Chronological(h) && (h != [] ==> h[|h| - 1].at <= now)
    ensures OpenSince(cfg, h).NotOpen? ==> Admits(cfg, Replay(cfg, h), now)
    ensures OpenSince(cfg, h).OpenedBy? && (Overridden(h) || now < Due(cfg, h)) ==> !Admits(cfg, Replay(cfg, h), now)
  {
    StateIsSpecified(cfg, h, now);
    ReplayMatches(cfg, h);
  }

  // --- a late success ---

  /** `n` events of one kind in the first millisecond. */
  function Repeated(kind: Kind, n: nat): seq<Event> {
    seq(n, _ => Event(1, kind))
  }

  /** One call more than the failure threshold is admitted while closed, and all but one of
      them fail at once. */
  function Tripping(cfg: Config, failed: nat): seq<Event> {
    Repeated(Allow, AtLeastOne(cfg.failureThreshold) + 1) + Repeated(Failure, failed)
  }

  lemma {:induction false} AdmittedWhileClosed(cfg: Config, n: nat)
    ensures Replay(cfg, Repeated(Allow, n)) == Initial(cfg)
  {
    if n > 0 {
      AdmittedWhileClosed(cfg, n - 1);
      assert Repeated(Allow, n)[..n - 1] == Repeated(Allow, n - 1);
    }
  }

  lemma {:induction false} FailuresTrip(cfg: Config, n: nat)
    requires n <= AtLeastOne(cfg.failureThreshold)
    ensures var c := Initial(cfg).(failures := n);
            Replay(cfg, Tripping(cfg, n)) == if n < AtLeastOne(cfg.failureThreshold) then c else Trip(cfg, c, 1)
  {
    if n == 0 {
      AdmittedWhileClosed(cfg, AtLeastOne(cfg.failureThreshold) + 1);
      assert Tripping(cfg, 0) == Repeated(Allow, AtLeastOne(cfg.failureThreshold) + 1);
    } else {
      FailuresTrip(cfg, n - 1);
      var h := Tripping(cfg, n);
      assert h[..|h| - 1] == Tripping(cfg, n - 1) && h[|h| - 1] == Event(1, Failure);
    }
  }

  function LateSuccess(cfg: Config): seq<Event> {
    Tripping(cfg, AtLeastOne(cfg.failureThreshold)) + [Event(1 + Cooldown(cfg, 1), Success)]
  }

  lemma LateSuccessWraps(cfg: Config, failures: nat, now: nat)
    requires cfg.probeLimit < U32 && now >= 1 + Cooldown(cfg, 1)
    ensures var c := OnSuccess(cfg, Trip(cfg, Initial(cfg).(failures := failures), 1), 1 + Cooldown(cfg, 1));
            && (!Admits(cfg, c, now) <==> cfg.successThreshold >= 2)
            && (cfg.successThreshold >= 2 ==> StateAt(c, now).HalfOpen? && c.inFlight == U32 - 1)
  {
  }

  /** The decrement of the half-open counter is not tied to a counted probe. When the last
      of the calls admitted while closed succeeds after the cooldown, it wraps the counter,
      and unless that success closes the breaker, the half-open breaker then admits nobody,
      however long it waits. */
  lemma LateSuccessWedgesBreaker(cfg: Config, now: nat)
    requires cfg.probeLimit < U32 && now >= 1 + Cooldown(cfg, 1)
    ensures var h, calls := LateSuccess(cfg), AtLeastOne(cfg.failureThreshold) + 1;
            && Chronological(h)
            && (forall i :: 0 <= i < calls ==> h[i].kind.Allow? && Admits(cfg, Replay(cfg, h[..i]), 1))
            && (!Admits(cfg, Replay(cfg, h), now) <==> cfg.successThreshold >= 2)
            && (cfg.successThreshold >= 2 ==> StateAt(Replay(cfg, h), now).HalfOpen? && Replay(cfg, h).inFlight == U32 - 1)
  {
    var h, n := LateSuccess(cfg), AtLeastOne(cfg.failureThreshold);
    forall i | 0 <= i < n + 1
      ensures Admits(cfg, Replay(cfg, h[..i]), 1)
    {
      assert h[..i] == Repeated(Allow, i);
      AdmittedWhileClosed(cfg, i);
    }
    FailuresTrip(cfg, n);
    LateSuccessWraps(cfg, n, now);
    assert h[..|h| - 1] == Tripping(cfg, n);
  }
}
