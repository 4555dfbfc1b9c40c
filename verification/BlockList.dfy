/** Blocks and bursts in the security middleware, over whole runs. */
module BlockList {
  import opened Expiring
  import opened SecurityGuard
  import opened BackoffLevels

  /** Answers that put the address on the block list. */
  predicate Blocks(o: Outcome) {
    o.BurstLimited? || o.BackoffBlocked?
  }

  /** Request `i` of the run blocked `ip`, and that block is in force at `now`. */
  predicate InForce(cfg: Config, rs: seq<Request>, i: nat, ip: Ip, now: nat)
    requires Usable(cfg) && i < |rs|
  {
    rs[i].ip == ip && Blocks(Answer(cfg, rs, i)) && now < rs[i].at + 1000 * cfg.blockSecs
  }

  ghost predicate SomeInForce(cfg: Config, rs: seq<Request>, ip: Ip, now: nat)
    requires Usable(cfg)
  {
    exists i :: 0 <= i < |rs| && InForce(cfg, rs, i, ip, now)
  }

  lemma InForceInPrefix(cfg: Config, rs: seq<Request>, n: nat, i: nat, ip: Ip, now: nat)
    requires Usable(cfg) && i < n <= |rs|
    ensures InForce(cfg, rs[..n], i, ip, now) == InForce(cfg, rs, i, ip, now)
  {
    assert rs[..n][..i] == rs[..i];
  }

  lemma SomeInForceStep(cfg: Config, rs: seq<Request>, ip: Ip, now: nat)
    requires Usable(cfg) && rs != []
    ensures var n := |rs| - 1;
            SomeInForce(cfg, rs, ip, now) <==> SomeInForce(cfg, rs[..n], ip, now) || InForce(cfg, rs, n, ip, now)
  {
    var n := |rs| - 1;
    if SomeInForce(cfg, rs[..n], ip, now) {
      var i :| 0 <= i < n && InForce(cfg, rs[..n], i, ip, now);
      InForceInPrefix(cfg, rs, n, i, ip, now);
    }
    if SomeInForce(cfg, rs, ip, now) {
      var i :| 0 <= i < |rs| && InForce(cfg, rs, i, ip, now);
      if i < n {
        InForceInPrefix(cfg, rs, n, i, ip, now);
      }
    }
  }

  lemma InForceEarlier(cfg: Config, rs: seq<Request>, ip: Ip, before: nat, now: nat)
    requires Usable(cfg) && before <= now && SomeInForce(cfg, rs, ip, now)
    ensures SomeInForce(cfg, rs, ip, before)
  {
    var i :| 0 <= i < |rs| && InForce(cfg, rs, i, ip, now);
    assert InForce(cfg, rs, i, ip, before);
  }

  /** An address is on the block list exactly while the block set by some earlier answer to
      it is in force; nothing lifts a block early and nothing else blocks. */
  lemma {:induction false} BlockedIffInForce(cfg: Config, rs: seq<Request>, ip: Ip, now: nat)
    requires Usable(cfg) && Chronological(rs) && (rs != [] ==> rs[|rs| - 1].at <= now)
    ensures Alive(Run(cfg, rs).blocks, ip, now) <==> SomeInForce(cfg, rs, ip, now)
  {
    if rs != [] {
      var n := |rs| - 1;
      var init, r := rs[..n], rs[n];
      SomeInForceStep(cfg, rs, ip, now);
      StepEffect(cfg, Run(cfg, init), r);
      if r.ip == ip && Blocks(Answer(cfg, rs, n)) {
        AnswerLevel(cfg, Run(cfg, init), r);
        BlockedIffInForce(cfg, init, ip, r.at);
        if SomeInForce(cfg, init, ip, now) {
          InForceEarlier(cfg, init, ip, r.at, now);
        }
      } else {
        BlockedIffInForce(cfg, init, ip, now);
      }
    }
  }

  /** So every request that is not whitelisted is refused as blocked exactly while a block
      is in force. */
  lemma AnsweredBlockedIff(cfg: Config, rs: seq<Request>, j: nat)
    requires Usable(cfg) && Chronological(rs) && j < |rs| && !rs[j].whitelisted
    ensures Answer(cfg, rs, j).Blocked? <==>
            exists i :: 0 <= i < j && InForce(cfg, rs, i, rs[j].ip, rs[j].at)
  {
    var init := rs[..j];
    assert j > 0 ==> init[j - 1].at <= rs[j].at;
    BlockedIffInForce(cfg, init, rs[j].ip, rs[j].at);
    forall i: nat | i < j
      ensures InForce(cfg, init, i, rs[j].ip, rs[j].at) == InForce(cfg, rs, i, rs[j].ip, rs[j].at)
    {
      InForceInPrefix(cfg, rs, j, i, rs[j].ip, rs[j].at);
    }
    if SomeInForce(cfg, init, rs[j].ip, rs[j].at) {
      var i :| 0 <= i < |init| && InForce(cfg, init, i, rs[j].ip, rs[j].at);
      assert InForce(cfg, rs, i, rs[j].ip, rs[j].at);
    }
  }

  // --- bursts ---

  /** The answer lies behind burst detection. */
  predicate Counted(o: Outcome) {
    !o.Bypassed? && !o.Blocked?
  }

  /** Requests of `ip` in clock second `s` that reached burst detection. */
  function Arrivals(cfg: Config, rs: seq<Request>, ip: Ip, s: nat): nat
    requires Usable(cfg)
  {
    if rs == [] then 0
    else
      var k := |rs| - 1;
      Arrivals(cfg, rs[..k], ip, s) + if rs[k].ip == ip && rs[k].at / 1000 == s && Counted(Answer(cfg, rs, k)) then 1 else 0
  }

  /** Those of them that passed it. */
  function Passed(cfg: Config, rs: seq<Request>, ip: Ip, s: nat): nat
    requires Usable(cfg)
  {
    if rs == [] then 0
    else
      var k := |rs| - 1;
      var o := Answer(cfg, rs, k);
      Passed(cfg, rs[..k], ip, s) +
      if rs[k].ip == ip && rs[k].at / 1000 == s && Counted(o) && !o.BurstLimited? then 1 else 0
  }

  /** The burst counter is exact: its key outlives the second it counts, by less than two. */
  predicate BurstExact(g: Guard, ip: Ip, s: nat, arrivals: nat) {
    && ((ip, s) in g.bursts <==> arrivals > 0)
    && ((ip, s) in g.bursts ==> g.bursts[(ip, s)].value == arrivals && 1000 * (s + 1) <= g.bursts[(ip, s)].expiry < 1000 * (s + 3))
  }

  lemma BurstStep(cfg: Config, g: Guard, r: Request)
    requires Usable(cfg)
    ensures var o := Judge(cfg, g, r);
            && Handle(cfg, g, r).bursts == (if Counted(o) then CountBurst(g, r).bursts else g.bursts)
            && (Counted(o) ==> (o.BurstLimited? <==> NextCount(g.bursts, (r.ip, r.at / 1000), r.at) > cfg.burstThreshold))
  {
    match Judge(cfg, g, r)
    case BurstLimited(_, _) =>
    case BackoffBlocked(_, _) =>
    case RateLimited(_, _) =>
    case _ =>
  }

  /** In every run, at most `burstThreshold` requests of an address pass burst detection in
      one clock second, however they are answered afterwards. */
  lemma {:induction false} BurstBound(cfg: Config, rs: seq<Request>, ip: Ip, s: nat)
    requires Usable(cfg)
    ensures BurstExact(Run(cfg, rs), ip, s, Arrivals(cfg, rs, ip, s))
    ensures Passed(cfg, rs, ip, s) <= Arrivals(cfg, rs, ip, s)
    ensures Passed(cfg, rs, ip, s) <= cfg.burstThreshold
  {
    if rs != [] {
      var k := |rs| - 1;
      BurstBound(cfg, rs[..k], ip, s);
      BurstStep(cfg, Run(cfg, rs[..k]), rs[k]);
    }
  }
}
