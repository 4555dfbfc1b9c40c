/** What the per-IP counter of the security middleware bounds: forwards per aligned window,
and through that, forwards in any interval. `IntervalPeak` adds what burst detection does. */
module FixedWindow {
  import opened Expiring
  import opened SecurityGuard
  import opened BackoffLevels

  /** Request `i` of the run got as far as the per-IP window counter. */
  predicate Reached(cfg: Config, rs: seq<Request>, i: nat)
    requires Usable(cfg) && i < |rs|
  {
    ReachesCounter(Answer(cfg, rs, i))
  }

  predicate ReachesCounter(o: Outcome) {
    o.BackoffBlocked? || o.RateLimited? || o.TooLarge? || o.Forwarded?
  }

  /** How many requests of `ip` in aligned window `n` reached the counter. */
  function Arrivals(cfg: Config, rs: seq<Request>, ip: Ip, n: nat): nat
    requires Usable(cfg)
  {
    if rs == [] then 0
    else
      var k := |rs| - 1;
      Arrivals(cfg, rs[..k], ip, n) +
      if rs[k].ip == ip && Window(cfg, rs[k].at) == n && Reached(cfg, rs, k) then 1 else 0
  }

  /** How many of them were forwarded to the application. */
  function Forwards(cfg: Config, rs: seq<Request>, ip: Ip, n: nat): nat
    requires Usable(cfg)
  {
    if rs == [] then 0
    else
      var k := |rs| - 1;
      Forwards(cfg, rs[..k], ip, n) +
      if rs[k].ip == ip && Window(cfg, rs[k].at) == n && Answer(cfg, rs, k).Forwarded? then 1 else 0
  }

  /** Forwards with `from <= at < to`. */
  function ForwardsBetween(cfg: Config, rs: seq<Request>, ip: Ip, from: nat, to: nat): nat
    requires Usable(cfg)
  {
    if rs == [] then 0
    else
      var k := |rs| - 1;
      ForwardsBetween(cfg, rs[..k], ip, from, to) +
      if rs[k].ip == ip && from <= rs[k].at < to && Answer(cfg, rs, k).Forwarded? then 1 else 0
  }

  lemma DivBounds(x: nat, w: nat)
    requires w >= 1
    ensures Aligned(x, w) * w <= x < Aligned(x, w) * w + w
  {
  }

  /** The end of an aligned window, in milliseconds. */
  function WindowEnd(cfg: Config, n: nat): nat {
    1000 * ((n + 1) * cfg.windowSecs)
  }

  lemma WindowBounds(cfg: Config, at: nat)
    requires Usable(cfg)
    ensures var n := Window(cfg, at);
            at < WindowEnd(cfg, n) <= at + 1000 * cfg.windowSecs
  {
  }

  /** The counter of an aligned window is the number of arrivals in it: its key never expires
      before the window ends. */
  predicate Exact(cfg: Config, g: Guard, ip: Ip, n: nat, arrivals: nat) {
    && ((ip, n) in g.windows <==> arrivals > 0)
    && ((ip, n) in g.windows ==> g.windows[(ip, n)].value == arrivals && WindowEnd(cfg, n) <= g.windows[(ip, n)].expiry)
  }

  /** What a step does to the window counters. */
  lemma StepCounts(cfg: Config, g: Guard, r: Request)
    requires Usable(cfg)
    ensures var o := Judge(cfg, g, r);
            var key := (r.ip, Window(cfg, r.at));
            && Handle(cfg, g, r).windows == (if ReachesCounter(o)
                                             then Increment(g.windows, key, r.at, 1000 * cfg.windowSecs) else g.windows)
            && (o.Forwarded? ==> NextCount(g.windows, key, r.at) <= cfg.limit)
  {
  }

  lemma StepKeepsExact(cfg: Config, g: Guard, r: Request, ip: Ip, n: nat, arrivals: nat)
    requires Usable(cfg) && Exact(cfg, g, ip, n, arrivals)
    ensures var o := Judge(cfg, g, r);
            var here := r.ip == ip && Window(cfg, r.at) == n && ReachesCounter(o);
            && Exact(cfg, Handle(cfg, g, r), ip, n, arrivals + if here then 1 else 0)
            && (here && o.Forwarded? ==> arrivals + 1 <= cfg.limit)
  {
    StepCounts(cfg, g, r);
    WindowBounds(cfg, r.at);
    if r.ip == ip && Window(cfg, r.at) == n {
      assert NextCount(g.windows, (ip, n), r.at) == arrivals + 1;
    }
  }

  lemma {:induction false} CounterIsArrivals(cfg: Config, rs: seq<Request>, ip: Ip, n: nat)
    requires Usable(cfg)
    ensures Exact(cfg, Run(cfg, rs), ip, n, Arrivals(cfg, rs, ip, n))
    ensures Forwards(cfg, rs, ip, n) <= Arrivals(cfg, rs, ip, n)
    ensures Forwards(cfg, rs, ip, n) <= cfg.limit
  {
    if rs != [] {
      var k := |rs| - 1;
      CounterIsArrivals(cfg, rs[..k], ip, n);
      StepKeepsExact(cfg, Run(cfg, rs[..k]), rs[k], ip, n, Arrivals(cfg, rs[..k], ip, n));
    }
  }

  lemma AlignedMonotone(x: nat, y: nat, w: nat)
    requires 1 <= w && x <= y
    ensures Aligned(x, w) <= Aligned(y, w)
  {
    DivBounds(x, w);
    DivBounds(y, w);
    if Aligned(y, w) < Aligned(x, w) {
      Scale(Aligned(y, w) + 1, Aligned(x, w), w);
    }
  }

  lemma SameQuotient(d: nat, q: nat, w: nat, x: nat)
    requires d * w <= x < d * w + w && q * w <= x < q * w + w
    ensures d == q
  {
    Scale(d + 1, q, w);
    Scale(q + 1, d, w);
  }

  lemma AlignedShift(x: nat, w: nat)
    requires 1 <= w
    ensures Aligned(x + w, w) == Aligned(x, w) + 1
  {
    DivBounds(x, w);
    DivBounds(x + w, w);
    SameQuotient(Aligned(x + w, w), Aligned(x, w) + 1, w, x + w);
  }

  /** An instant less than one window length after `from` is in the same aligned window or
      the next. */
  lemma TwoWindows(cfg: Config, from: nat, at: nat)
    requires Usable(cfg) && from <= at < from + 1000 * cfg.windowSecs
    ensures Window(cfg, at) == Window(cfg, from) || Window(cfg, at) == Window(cfg, from) + 1
  {
    var a, b := from / 1000, at / 1000;
    AlignedShift(a, cfg.windowSecs);
    AlignedMonotone(a, b, cfg.windowSecs);
    AlignedMonotone(b, a + cfg.windowSecs, cfg.windowSecs);
  }

  lemma Scale(x: nat, y: nat, w: nat)
    ensures x <= y ==> x * w <= y * w
    ensures (x + 1) * w == x * w + w
  {
  }

  lemma {:induction false} IntervalCoveredByWindows(cfg: Config, rs: seq<Request>, ip: Ip, from: nat)
    requires Usable(cfg)
    ensures var n := Window(cfg, from);
            ForwardsBetween(cfg, rs, ip, from, from + 1000 * cfg.windowSecs) <=
            Forwards(cfg, rs, ip, n) + Forwards(cfg, rs, ip, n + 1)
  {
    if rs != [] {
      var k := |rs| - 1;
      IntervalCoveredByWindows(cfg, rs[..k], ip, from);
      if from <= rs[k].at < from + 1000 * cfg.windowSecs {
        TwoWindows(cfg, from, rs[k].at);
      }
    }
  }

  /** Every run forwards at most `limit` requests of an address per aligned window, and at
      most twice that in any interval of the window's length. */
  lemma AtMostTwiceTheLimit(cfg: Config, rs: seq<Request>, ip: Ip, n: nat, from: nat)
    requires Usable(cfg)
    ensures Forwards(cfg, rs, ip, n) <= cfg.limit
    ensures ForwardsBetween(cfg, rs, ip, from, from + 1000 * cfg.windowSecs) <= 2 * cfg.limit
  {
    CounterIsArrivals(cfg, rs, ip, n);
    CounterIsArrivals(cfg, rs, ip, Window(cfg, from));
    CounterIsArrivals(cfg, rs, ip, Window(cfg, from) + 1);
    IntervalCoveredByWindows(cfg, rs, ip, from);
  }
}
