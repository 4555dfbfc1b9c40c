/** The most requests of one address that the security middleware forwards in an interval of
the window's length: the aligned window counter and burst detection together, exactly. */
module IntervalPeak {
  import opened SecurityGuard
  import opened BackoffLevels
  import opened FixedWindow
  import BlockList

  /** What burst detection lets through in `secs` clock seconds. */
  function Budget(cfg: Config, secs: nat): nat {
    if secs == 0 then 0 else Budget(cfg, secs - 1) + cfg.burstThreshold
  }

  lemma {:induction false} BudgetIsProduct(cfg: Config, secs: nat)
    ensures Budget(cfg, secs) == secs * cfg.burstThreshold
  {
    if secs > 0 {
      BudgetIsProduct(cfg, secs - 1);
      Scale(secs - 1, secs, cfg.burstThreshold);
    }
  }

  lemma {:induction false} BudgetAdds(cfg: Config, x: nat, y: nat)
    ensures Budget(cfg, x + y) == Budget(cfg, x) + Budget(cfg, y)
  {
    if y > 0 {
      BudgetAdds(cfg, x, y - 1);
    }
  }

  lemma BudgetGrows(cfg: Config, x: nat, y: nat)
    requires x <= y
    ensures Budget(cfg, x) <= Budget(cfg, y)
  {
    BudgetAdds(cfg, x, y - x);
  }

  /** The most that `secs` clock seconds of one aligned window forward. */
  function Quota(cfg: Config, secs: nat): nat {
    Min(cfg.limit, Budget(cfg, secs))
  }

  /** An interval of the window's length touches one clock second more than the window has,
      and does best to have half of them on each side of a window boundary. */
  function Half(cfg: Config): nat {
    (cfg.windowSecs + 1) / 2
  }

  function Peak(cfg: Config): nat {
    Quota(cfg, Half(cfg)) + Quota(cfg, cfg.windowSecs + 1 - Half(cfg))
  }

  /** No other split of the seconds yields more. */
  lemma PeakIsBestSplit(cfg: Config, before: nat, after: nat)
    requires before + after == cfg.windowSecs + 1
    ensures Quota(cfg, before) + Quota(cfg, after) <= Peak(cfg)
  {
    var h := Half(cfg);
    var h' := cfg.windowSecs + 1 - h;
    BudgetAdds(cfg, before, after);
    BudgetAdds(cfg, h, h');
    BudgetGrows(cfg, h, h');
    if before <= h {
      BudgetGrows(cfg, before, h);
    } else {
      BudgetGrows(cfg, after, h);
    }
    EvenSplit(cfg.limit, Budget(cfg, before), Budget(cfg, after), Budget(cfg, h), Budget(cfg, h'));
  }

  lemma EvenSplit(limit: nat, x: nat, y: nat, low: nat, high: nat)
    requires x + y == low + high && low <= high && (x <= low || y <= low)
    ensures Min(limit, x) + Min(limit, y) <= Min(limit, low) + Min(limit, high)
  {
  }

  // --- no interval exceeds the peak ---

  lemma {:induction false} SplitForwards(cfg: Config, rs: seq<Request>, ip: Ip, from: nat, mid: nat, to: nat)
    requires Usable(cfg) && from <= mid <= to
    ensures ForwardsBetween(cfg, rs, ip, from, to) ==
            ForwardsBetween(cfg, rs, ip, from, mid) + ForwardsBetween(cfg, rs, ip, mid, to)
  {
    if rs != [] {
      SplitForwards(cfg, rs[..|rs| - 1], ip, from, mid, to);
    }
  }

  lemma {:induction false} WiderForwardsMore(cfg: Config, rs: seq<Request>, ip: Ip, from: nat, to: nat, from': nat, to': nat)
    requires Usable(cfg) && from' <= from && to <= to'
    ensures ForwardsBetween(cfg, rs, ip, from, to) <= ForwardsBetween(cfg, rs, ip, from', to')
  {
    if rs != [] {
      WiderForwardsMore(cfg, rs[..|rs| - 1], ip, from, to, from', to');
    }
  }

  lemma {:induction false} SecondForwardsPassed(cfg: Config, rs: seq<Request>, ip: Ip, s: nat)
    requires Usable(cfg)
    ensures ForwardsBetween(cfg, rs, ip, 1000 * s, 1000 * (s + 1)) <= BlockList.Passed(cfg, rs, ip, s)
  {
    if rs != [] {
      SecondForwardsPassed(cfg, rs[..|rs| - 1], ip, s);
    }
  }

  lemma {:induction false} SecondsForward(cfg: Config, rs: seq<Request>, ip: Ip, first: nat, secs: nat)
    requires Usable(cfg)
    ensures ForwardsBetween(cfg, rs, ip, 1000 * first, 1000 * (first + secs)) <= Budget(cfg, secs)
  {
    if secs == 0 {
      EmptyInterval(cfg, rs, ip, 1000 * first);
    } else {
      var last := first + secs - 1;
      SecondsForward(cfg, rs, ip, first, secs - 1);
      SplitForwards(cfg, rs, ip, 1000 * first, 1000 * last, 1000 * (last + 1));
      SecondForwardsPassed(cfg, rs, ip, last);
      BlockList.BurstBound(cfg, rs, ip, last);
    }
  }

  lemma {:induction false} EmptyInterval(cfg: Config, rs: seq<Request>, ip: Ip, at: nat)
    requires Usable(cfg)
    ensures ForwardsBetween(cfg, rs, ip, at, at) == 0
  {
    if rs != [] {
      EmptyInterval(cfg, rs[..|rs| - 1], ip, at);
    }
  }

  /** An interval inside one aligned window. */
  lemma {:induction false} InsideWindow(cfg: Config, rs: seq<Request>, ip: Ip, from: nat, to: nat, n: nat)
    requires Usable(cfg) && forall at: nat :: from <= at < to ==> Window(cfg, at) == n
    ensures ForwardsBetween(cfg, rs, ip, from, to) <= Forwards(cfg, rs, ip, n)
  {
    if rs != [] {
      InsideWindow(cfg, rs[..|rs| - 1], ip, from, to, n);
    }
  }

  lemma PartQuota(cfg: Config, rs: seq<Request>, ip: Ip, from: nat, to: nat, n: nat, first: nat, secs: nat)
    requires Usable(cfg) && forall at: nat :: from <= at < to ==> Window(cfg, at) == n
    requires 1000 * first <= from && to <= 1000 * (first + secs)
    ensures ForwardsBetween(cfg, rs, ip, from, to) <= Quota(cfg, secs)
  {
    InsideWindow(cfg, rs, ip, from, to, n);
    CounterIsArrivals(cfg, rs, ip, n);
    WiderForwardsMore(cfg, rs, ip, from, to, 1000 * first, 1000 * (first + secs));
    SecondsForward(cfg, rs, ip, first, secs);
  }

  lemma WindowMonotone(cfg: Config, a: nat, b: nat)
    requires Usable(cfg) && a <= b
    ensures Window(cfg, a) <= Window(cfg, b)
  {
    AlignedMonotone(a / 1000, b / 1000, cfg.windowSecs);
  }

  lemma WindowEndsAt(cfg: Config, n: nat)
    requires Usable(cfg)
    ensures Window(cfg, WindowEnd(cfg, n)) == n + 1
  {
    var w := cfg.windowSecs;
    assert WindowEnd(cfg, n) / 1000 == (n + 1) * w;
    DivBounds((n + 1) * w, w);
    SameQuotient(Aligned((n + 1) * w, w), n + 1, w, (n + 1) * w);
  }

  /** Every moment of the interval is in the window of its start up to that window's end, and
      in the next one from there on. */
  lemma BoundaryInside(cfg: Config, from: nat, at: nat)
    requires Usable(cfg) && from <= at < from + 1000 * cfg.windowSecs
    ensures var n := Window(cfg, from);
            Window(cfg, at) == if at < WindowEnd(cfg, n) then n else n + 1
  {
    var n := Window(cfg, from);
    TwoWindows(cfg, from, at);
    WindowBounds(cfg, at);
    if at >= WindowEnd(cfg, n) {
      WindowEndsAt(cfg, n);
      WindowMonotone(cfg, WindowEnd(cfg, n), at);
    } else if Window(cfg, at) == n + 1 {
      DivBounds(at / 1000, cfg.windowSecs);
    }
  }

  /** Every run forwards at most the peak in any interval of the window's length. */
  lemma AtMostPeak(cfg: Config, rs: seq<Request>, ip: Ip, from: nat)
    requires Usable(cfg)
    ensures ForwardsFrom(cfg, rs, ip, from) <= Peak(cfg)
  {
    var n, to := Window(cfg, from), from + 1000 * cfg.windowSecs;
    var end := WindowEnd(cfg, n);
    WindowBounds(cfg, from);
    forall at: nat | from <= at < to
      ensures Window(cfg, at) == if at < end then n else n + 1
    {
      BoundaryInside(cfg, from, at);
    }
    var first, border := from / 1000, (n + 1) * cfg.windowSecs;
    assert end == 1000 * border && first < border <= first + cfg.windowSecs;
    SplitForwards(cfg, rs, ip, from, end, to);
    PartQuota(cfg, rs, ip, from, end, n, first, border - first);
    PartQuota(cfg, rs, ip, end, to, n + 1, border, first + cfg.windowSecs + 1 - border);
    PeakIsBestSplit(cfg, border - first, first + cfg.windowSecs + 1 - border);
  }

  function ForwardsFrom(cfg: Config, rs: seq<Request>, ip: Ip, from: nat): nat
    requires Usable(cfg)
  {
    ForwardsBetween(cfg, rs, ip, from, from + 1000 * cfg.windowSecs)
  }

  // --- some run reaches the peak ---

  /** `ip` is not blocked; no request is later than `t`; in the clock second and the window of
      `t` it has made `inSecond` and `inWindow` requests; `total` were forwarded from `from`. */
  ghost predicate Steady(cfg: Config, ip: Ip, rs: seq<Request>, t: nat, inSecond: nat, inWindow: nat, from: nat, total: nat)
    requires Usable(cfg)
  {
    && Chronological(rs) && NoneAfter(rs, t)
    && ip !in Run(cfg, rs).blocks
    && BlockList.Arrivals(cfg, rs, ip, t / 1000) == inSecond
    && Arrivals(cfg, rs, ip, Window(cfg, t)) == inWindow
    && ForwardsFrom(cfg, rs, ip, from) == total
  }

  /** Below both thresholds an address that is not blocked is forwarded. */
  lemma WithinQuotaForwarded(cfg: Config, rs: seq<Request>, ip: Ip, t: nat)
    requires Usable(cfg) && ip !in Run(cfg, rs).blocks
    requires BlockList.Arrivals(cfg, rs, ip, t / 1000) < cfg.burstThreshold
    requires Arrivals(cfg, rs, ip, Window(cfg, t)) < cfg.limit
    ensures Judge(cfg, Run(cfg, rs), Request(t, ip, false, false)).Forwarded?
  {
    BlockList.BurstBound(cfg, rs, ip, t / 1000);
    CounterIsArrivals(cfg, rs, ip, Window(cfg, t));
    WindowBounds(cfg, t);
  }

  lemma AppendForwarded(cfg: Config, rs: seq<Request>, r: Request, from: nat)
    requires Usable(cfg) && Judge(cfg, Run(cfg, rs), r).Forwarded? && from <= r.at < from + 1000 * cfg.windowSecs
    ensures var rs' := rs + [r];
            && Run(cfg, rs').blocks == Run(cfg, rs).blocks
            && BlockList.Arrivals(cfg, rs', r.ip, r.at / 1000) == BlockList.Arrivals(cfg, rs, r.ip, r.at / 1000) + 1
            && Arrivals(cfg, rs', r.ip, Window(cfg, r.at)) == Arrivals(cfg, rs, r.ip, Window(cfg, r.at)) + 1
            && ForwardsFrom(cfg, rs', r.ip, from) == ForwardsFrom(cfg, rs, r.ip, from) + 1
  {
    assert (rs + [r])[..|rs|] == rs;
  }

  lemma SendOne(cfg: Config, ip: Ip, rs: seq<Request>, t: nat, inSecond: nat, inWindow: nat, from: nat, total: nat)
    requires Usable(cfg) && Steady(cfg, ip, rs, t, inSecond, inWindow, from, total)
    requires inSecond < cfg.burstThreshold && inWindow < cfg.limit && from <= t < from + 1000 * cfg.windowSecs
    ensures Steady(cfg, ip, rs + [Request(t, ip, false, false)], t, inSecond + 1, inWindow + 1, from, total + 1)
  {
    WithinQuotaForwarded(cfg, rs, ip, t);
    AppendForwarded(cfg, rs, Request(t, ip, false, false), from);
  }

  lemma {:induction false} SendMany(cfg: Config, ip: Ip, rs: seq<Request>, t: nat, inWindow: nat, from: nat, total: nat, k: nat)
    returns (rs': seq<Request>)
    requires Usable(cfg) && Steady(cfg, ip, rs, t, 0, inWindow, from, total)
    requires k <= cfg.burstThreshold && inWindow + k <= cfg.limit && from <= t < from + 1000 * cfg.windowSecs
    ensures Steady(cfg, ip, rs', t, k, inWindow + k, from, total + k)
  {
    if k == 0 {
      rs' := rs;
    } else {
      rs' := SendMany(cfg, ip, rs, t, inWindow, from, total, k - 1);
      SendOne(cfg, ip, rs', t, k - 1, inWindow + k - 1, from, total + k - 1);
      rs' := rs' + [Request(t, ip, false, false)];
    }
  }

  lemma {:induction false} NothingLater(cfg: Config, rs: seq<Request>, ip: Ip, t: nat, s: nat, n: nat)
    requires Usable(cfg) && NoneAfter(rs, t)
    ensures t / 1000 < s ==> BlockList.Arrivals(cfg, rs, ip, s) == 0
    ensures Window(cfg, t) < n ==> Arrivals(cfg, rs, ip, n) == 0
  {
    if rs != [] {
      NothingLater(cfg, rs[..|rs| - 1], ip, t, s, n);
      WindowMonotone(cfg, rs[|rs| - 1].at, t);
    }
  }

  /** Waiting for a later clock second. */
  lemma MoveOn(cfg: Config, ip: Ip, rs: seq<Request>, t: nat, t': nat, inSecond: nat, inWindow: nat, from: nat, total: nat)
    requires Usable(cfg) && Steady(cfg, ip, rs, t, inSecond, inWindow, from, total) && t / 1000 < t' / 1000
    ensures Steady(cfg, ip, rs, t', 0, if Window(cfg, t) == Window(cfg, t') then inWindow else 0, from, total)
  {
    NothingLater(cfg, rs, ip, t, t' / 1000, Window(cfg, t'));
    WindowMonotone(cfg, t, t');
  }

  lemma QuotaStep(cfg: Config, k: nat)
    ensures Quota(cfg, k) <= Quota(cfg, k + 1) <= Quota(cfg, k) + cfg.burstThreshold
    ensures Quota(cfg, 0) == 0
  {
  }

  /** One more clock second of the same window is used up. */
  lemma FillSecond(cfg: Config, ip: Ip, rs: seq<Request>, t: nat, t': nat, inSecond: nat, secs: nat, from: nat, total: nat)
    returns (rs': seq<Request>)
    requires Usable(cfg) && Steady(cfg, ip, rs, t, inSecond, Quota(cfg, secs), from, total)
    requires t / 1000 < t' / 1000 && Window(cfg, t) == Window(cfg, t') && from <= t' < from + 1000 * cfg.windowSecs
    ensures Steady(cfg, ip, rs', t', Quota(cfg, secs + 1) - Quota(cfg, secs), Quota(cfg, secs + 1), from,
                   total + Quota(cfg, secs + 1) - Quota(cfg, secs))
  {
    QuotaStep(cfg, secs);
    MoveOn(cfg, ip, rs, t, t', inSecond, Quota(cfg, secs), from, total);
    rs' := SendMany(cfg, ip, rs, t', Quota(cfg, secs), from, total, Quota(cfg, secs + 1) - Quota(cfg, secs));
  }

  /** Clock second number `k` from `at` on; the first one is used at `at` itself. */
  function Moment(at: nat, k: nat): nat {
    if k == 0 then at else 1000 * (at / 1000 + k)
  }

  /** `secs` clock seconds of one window, from `at` on, forward all they can. */
  lemma {:induction false} FillSeconds(cfg: Config, ip: Ip, rs: seq<Request>, at: nat, secs: nat, from: nat, total: nat)
    returns (rs': seq<Request>, inSecond: nat)
    requires Usable(cfg) && secs >= 1 && Steady(cfg, ip, rs, at, 0, 0, from, total)
    requires from <= at < from + 1000 * cfg.windowSecs && Moment(at, secs - 1) < from + 1000 * cfg.windowSecs
    requires Window(cfg, Moment(at, secs - 1)) == Window(cfg, at)
    ensures Steady(cfg, ip, rs', Moment(at, secs - 1), inSecond, Quota(cfg, secs), from, total + Quota(cfg, secs))
  {
    if secs == 1 {
      QuotaStep(cfg, 0);
      inSecond := Quota(cfg, 1);
      rs' := SendMany(cfg, ip, rs, at, 0, from, total, inSecond);
    } else {
      var t, t' := Moment(at, secs - 2), Moment(at, secs - 1);
      WindowMonotone(cfg, at, t);
      WindowMonotone(cfg, t, t');
      rs', inSecond := FillSeconds(cfg, ip, rs, at, secs - 1, from, total);
      rs' := FillSecond(cfg, ip, rs', t, t', inSecond, secs - 1, from, total + Quota(cfg, secs - 1));
      QuotaStep(cfg, secs - 1);
      inSecond := Quota(cfg, secs) - Quota(cfg, secs - 1);
    }
  }

  lemma SecondWindow(w: nat, s: nat)
    requires 1 <= w && s < 2 * w
    ensures Aligned(s, w) == if s < w then 0 else 1
  {
    DivBounds(s, w);
    SameQuotient(Aligned(s, w), if s < w then 0 else 1, w, s);
  }

  /** For every split of the seconds, a run spends the quota of both sides of a boundary.
      The first second is used in its last millisecond, so that the interval reaches into
      one second more at its end. */
  lemma SplitIsReached(cfg: Config, ip: Ip, before: nat) returns (rs: seq<Request>, from: nat)
    requires Usable(cfg) && 1 <= before <= cfg.windowSecs
    ensures Chronological(rs)
    ensures ForwardsFrom(cfg, rs, ip, from) == Quota(cfg, before) + Quota(cfg, cfg.windowSecs + 1 - before)
  {
    var w, after := cfg.windowSecs, cfg.windowSecs + 1 - before;
    from := 1000 * (w - before) + 999;
    SecondWindow(w, w - before);
    SecondWindow(w, w - 1);
    SecondWindow(w, w);
    SecondWindow(w, w + after - 1);
    assert Steady(cfg, ip, [], from, 0, 0, from, 0);
    var n: nat;
    rs, n := FillSeconds(cfg, ip, [], from, before, from, 0);
    MoveOn(cfg, ip, rs, Moment(from, before - 1), 1000 * w, n, Quota(cfg, before), from, Quota(cfg, before));
    rs, n := FillSeconds(cfg, ip, rs, 1000 * w, after, from, Quota(cfg, before));
  }

  // --- the exact conditions ---

  /** `most` is the largest number of forwards that any run has in any interval of the
      window's length. */
  ghost predicate IsMost(cfg: Config, most: nat)
    requires Usable(cfg)
  {
    && (forall rs, ip, from :: Chronological(rs) ==> ForwardsFrom(cfg, rs, ip, from) <= most)
    && (exists rs, ip, from :: Chronological(rs) && ForwardsFrom(cfg, rs, ip, from) == most)
  }

  lemma PeakIsMost(cfg: Config)
    requires Usable(cfg)
    ensures IsMost(cfg, Peak(cfg))
  {
    forall rs, ip, from | Chronological(rs)
      ensures ForwardsFrom(cfg, rs, ip, from) <= Peak(cfg)
    {
      AtMostPeak(cfg, rs, ip, from);
    }
    var rs, from := SplitIsReached(cfg, "ip", Half(cfg));
    assert ForwardsFrom(cfg, rs, "ip", from) == Peak(cfg);
  }

  /** No run forwards more than `limit` requests of an address in any interval of the
      window's length. */
  ghost predicate BoundsEveryInterval(cfg: Config)
    requires Usable(cfg)
  {
    forall rs, ip, from :: Chronological(rs) ==> ForwardsFrom(cfg, rs, ip, from) <= cfg.limit
  }

  /** As a sliding-window limit, which is how the setting is described, the counter holds
      exactly for the limit that admits nothing and for limits that burst detection alone
      enforces. */
  lemma BoundsEveryIntervalIff(cfg: Config)
    requires Usable(cfg)
    ensures BoundsEveryInterval(cfg) <==> cfg.limit == 0 || (cfg.windowSecs + 1) * cfg.burstThreshold <= cfg.limit
  {
    PeakIsMost(cfg);
    PeakWithinLimitIff(cfg);
    if BoundsEveryInterval(cfg) {
      var rs, ip, from :| Chronological(rs) && ForwardsFrom(cfg, rs, ip, from) == Peak(cfg);
      assert ForwardsFrom(cfg, rs, ip, from) <= cfg.limit;
    }
  }

  lemma PeakWithinLimitIff(cfg: Config)
    requires Usable(cfg)
    ensures Peak(cfg) <= cfg.limit <==> cfg.limit == 0 || (cfg.windowSecs + 1) * cfg.burstThreshold <= cfg.limit
  {
    var h := Half(cfg);
    BudgetIsProduct(cfg, cfg.windowSecs + 1);
    BudgetAdds(cfg, h, cfg.windowSecs + 1 - h);
    BudgetGrows(cfg, h, cfg.windowSecs + 1 - h);
    BudgetGrows(cfg, 1, h);
    NoBudget(cfg, cfg.windowSecs + 1 - h);
  }

  lemma {:induction false} NoBudget(cfg: Config, secs: nat)
    ensures cfg.burstThreshold == 0 ==> Budget(cfg, secs) == 0
  {
    if secs > 0 {
      NoBudget(cfg, secs - 1);
    }
  }

  /** Some run forwards twice the limit in one interval exactly when half the seconds that
      an interval touches are enough for burst detection to let the limit through. */
  lemma TwiceTheLimitIff(cfg: Config)
    requires Usable(cfg)
    ensures IsMost(cfg, 2 * cfg.limit) <==> cfg.limit <= Half(cfg) * cfg.burstThreshold
  {
    PeakIsMost(cfg);
    MostIsUnique(cfg, Peak(cfg), 2 * cfg.limit);
    BudgetIsProduct(cfg, Half(cfg));
    BudgetGrows(cfg, Half(cfg), cfg.windowSecs + 1 - Half(cfg));
  }

  lemma MostIsUnique(cfg: Config, m: nat, n: nat)
    requires Usable(cfg) && IsMost(cfg, m)
    ensures IsMost(cfg, n) <==> m == n
  {
    if IsMost(cfg, n) {
      var rs, ip, from :| Chronological(rs) && ForwardsFrom(cfg, rs, ip, from) == m;
      assert ForwardsFrom(cfg, rs, ip, from) <= n;
      var rs', ip', from' :| Chronological(rs') && ForwardsFrom(cfg, rs', ip', from') == n;
      assert ForwardsFrom(cfg, rs', ip', from') <= m;
    }
  }

  /** The default settings keep violation levels within the threshold, but let 240 requests
      through in a minute where 120 are documented. */
  lemma DefaultSettings()
    ensures NeverExceeds(DEFAULT) && IsMost(DEFAULT, 240) && !BoundsEveryInterval(DEFAULT)
  {
    NeverExceedsIff(DEFAULT);
    TwiceTheLimitIff(DEFAULT);
    BoundsEveryIntervalIff(DEFAULT);
  }
}
