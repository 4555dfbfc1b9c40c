/** Every answer of the security middleware, read off the history of requests and answers. */
module GuardVerdict {
  import opened Expiring
  import opened SecurityGuard
  import opened BackoffLevels
  import opened BlockList
  import FixedWindow

  /** Violations of `ip` in a row, each within the backoff lifetime of the one before, the
      last of them within it at `now`. */
  function Streak(cfg: Config, rs: seq<Request>, ip: Ip, now: nat): nat
    requires Usable(cfg)
  {
    if rs == [] then 0
    else
      var n := |rs| - 1;
      if rs[n].ip != ip || !HasLevel(Answer(cfg, rs, n)) then Streak(cfg, rs[..n], ip, now)
      else if now < rs[n].at + 1000 * cfg.backoffSecs then Streak(cfg, rs[..n], ip, rs[n].at) + 1
      else 0
  }

  lemma {:induction false} LevelIsStreak(cfg: Config, rs: seq<Request>, ip: Ip, now: nat)
    requires Usable(cfg)
    ensures NextCount(Run(cfg, rs).backoffs, ip, now) == Streak(cfg, rs, ip, now) + 1
  {
    if rs != [] {
      var n := |rs| - 1;
      StepEffect(cfg, Run(cfg, rs[..n]), rs[n]);
      LevelIsStreak(cfg, rs[..n], ip, now);
      LevelIsStreak(cfg, rs[..n], ip, rs[n].at);
    }
  }

  lemma CountersAreArrivals(cfg: Config, rs: seq<Request>, r: Request)
    requires Usable(cfg)
    ensures BurstExceeded(cfg, Run(cfg, rs), r) <==> Arrivals(cfg, rs, r.ip, r.at / 1000) >= cfg.burstThreshold
    ensures WindowExceeded(cfg, Run(cfg, rs), r) <==>
            FixedWindow.Arrivals(cfg, rs, r.ip, Window(cfg, r.at)) >= cfg.limit
  {
    BurstBound(cfg, rs, r.ip, r.at / 1000);
    FixedWindow.CounterIsArrivals(cfg, rs, r.ip, Window(cfg, r.at));
    FixedWindow.WindowBounds(cfg, r.at);
  }

  /** The answer to `r` given whether a block is in force, how many requests were counted in
      its clock second and its window, and how long the streak of violations is. */
  predicate Expected(cfg: Config, r: Request, blocked: bool, inSecond: nat, inWindow: nat, streak: nat, o: Outcome) {
    var level := streak + 1;
    if r.whitelisted then o == Bypassed
    else if blocked then o.Blocked?
    else if inSecond >= cfg.burstThreshold then o == BurstLimited(level, Backoff(level, cfg))
    else if inWindow >= cfg.limit then
      o == if level >= cfg.blockThreshold then BackoffBlocked(level, cfg.blockSecs)
           else RateLimited(level, Backoff(level, cfg))
    else o == if r.tooLarge then TooLarge else Forwarded
  }

  lemma JudgeIsExpected(cfg: Config, g: Guard, r: Request, inSecond: nat, inWindow: nat, streak: nat)
    requires Usable(cfg) && Level(g, r) == streak + 1
    requires BurstExceeded(cfg, g, r) <==> inSecond >= cfg.burstThreshold
    requires WindowExceeded(cfg, g, r) <==> inWindow >= cfg.limit
    ensures Expected(cfg, r, Alive(g.blocks, r.ip, r.at), inSecond, inWindow, streak, Judge(cfg, g, r))
  {
  }

  /** In every run, each answer follows from the history before it: the whitelist, a block in
      force, the requests counted in this clock second and in this window, the streak of
      violations, and the size of the body, in this order. */
  lemma AnswerFollowsHistory(cfg: Config, rs: seq<Request>, i: nat)
    requires Usable(cfg) && Chronological(rs) && i < |rs|
    ensures var before, r := rs[..i], rs[i];
            Expected(cfg, r, SomeInForce(cfg, before, r.ip, r.at), Arrivals(cfg, before, r.ip, r.at / 1000),
                     FixedWindow.Arrivals(cfg, before, r.ip, Window(cfg, r.at)), Streak(cfg, before, r.ip, r.at),
                     Answer(cfg, rs, i))
  {
    var before, r := rs[..i], rs[i];
    assert i > 0 ==> before[i - 1].at <= r.at;
    BlockedIffInForce(cfg, before, r.ip, r.at);
    CountersAreArrivals(cfg, before, r);
    LevelIsStreak(cfg, before, r.ip, r.at);
    JudgeIsExpected(cfg, Run(cfg, before), r, Arrivals(cfg, before, r.ip, r.at / 1000),
                    FixedWindow.Arrivals(cfg, before, r.ip, Window(cfg, r.at)), Streak(cfg, before, r.ip, r.at));
  }

  // --- the wait a blocked request is told ---

  lemma {:induction false} BlockEndsWithIt(cfg: Config, rs: seq<Request>, j: nat, ip: Ip, now: nat)
    requires Usable(cfg) && Chronological(rs) && j < |rs| && InForce(cfg, rs, j, ip, now)
    requires rs[|rs| - 1].at <= now
    ensures ip in Run(cfg, rs).blocks && Run(cfg, rs).blocks[ip].expiry == rs[j].at + 1000 * cfg.blockSecs
  {
    var n := |rs| - 1;
    var init, r := rs[..n], rs[n];
    StepEffect(cfg, Run(cfg, init), r);
    if j < n {
      InForceInPrefix(cfg, rs, n, j, ip, now);
      assert InForce(cfg, init, j, ip, r.at) && init[n - 1].at <= r.at;
      BlockEndsWithIt(cfg, init, j, ip, r.at);
      AnswerLevel(cfg, Run(cfg, init), r);
    }
  }

  /** A blocked request is told the time to the end of the block in force, to the nearest
      second, and at least one second. */
  lemma BlockedWait(cfg: Config, rs: seq<Request>, i: nat, j: nat)
    requires Usable(cfg) && Chronological(rs) && j < i < |rs| && !rs[i].whitelisted
    requires InForce(cfg, rs, j, rs[i].ip, rs[i].at)
    ensures var o, left := Answer(cfg, rs, i), rs[j].at + 1000 * cfg.blockSecs - rs[i].at;
            && o.Blocked? && 1 <= o.retryAfter && left < 1000 * o.retryAfter + 500
            && (o.retryAfter > 1 ==> 1000 * o.retryAfter - 500 <= left)
  {
    var before := rs[..i];
    assert before[i - 1].at <= rs[i].at;
    InForceInPrefix(cfg, rs, i, j, rs[i].ip, rs[i].at);
    BlockEndsWithIt(cfg, before, j, rs[i].ip, rs[i].at);
  }
}
