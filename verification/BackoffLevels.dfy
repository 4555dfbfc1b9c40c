/** How high the per-IP violation level can climb, over whole runs of the middleware. */
module BackoffLevels {
  import opened Expiring
  import opened Words
  import opened SecurityGuard

  predicate Chronological(rs: seq<Request>) {
    forall i, j :: 0 <= i < j < |rs| ==> rs[i].at <= rs[j].at
  }

  function Run(cfg: Config, rs: seq<Request>): Guard
    requires Usable(cfg)
  {
    if rs == [] then EMPTY else Handle(cfg, Run(cfg, rs[..|rs| - 1]), rs[|rs| - 1])
  }

  /** What request `i` of the run is answered. */
  function Answer(cfg: Config, rs: seq<Request>, i: nat): Outcome
    requires Usable(cfg) && i < |rs|
  {
    Judge(cfg, Run(cfg, rs[..i]), rs[i])
  }

  predicate HasLevel(o: Outcome) {
    o.BurstLimited? || o.BackoffBlocked? || o.RateLimited?
  }

  // --- the invariant ---

  /** A live counter is within the threshold, and one at the threshold is shielded by a
      block that lasts at least as long. */
  predicate Shielded(cfg: Config, g: Guard, ip: Ip, now: nat) {
    Alive(g.backoffs, ip, now) ==>
      && g.backoffs[ip].value <= cfg.blockThreshold
      && (g.backoffs[ip].value == cfg.blockThreshold ==>
            ip in g.blocks && g.backoffs[ip].expiry <= g.blocks[ip].expiry)
  }

  /** An address that is not blocked has room for one more violation. */
  lemma RoomForOne(cfg: Config, g: Guard, r: Request)
    requires cfg.blockThreshold >= 1 && Shielded(cfg, g, r.ip, r.at) && !Alive(g.blocks, r.ip, r.at)
    ensures 1 <= Level(g, r) <= cfg.blockThreshold
  {
  }

  /** What a step does to the two keys that carry the level and its shield. */
  lemma StepEffect(cfg: Config, g: Guard, r: Request)
    requires Usable(cfg)
    ensures var o, g' := Judge(cfg, g, r), Handle(cfg, g, r);
            && g'.backoffs == (if HasLevel(o) then RaiseBackoff(cfg, g, r).backoffs else g.backoffs)
            && g'.blocks == (if o.BurstLimited? || o.BackoffBlocked? then SetBlock(cfg, g, r).blocks else g.blocks)
  {
    match Judge(cfg, g, r)
    case BurstLimited(_, _) =>
    case BackoffBlocked(_, _) =>
    case RateLimited(_, _) =>
    case _ =>
  }

  lemma AnswerLevel(cfg: Config, g: Guard, r: Request)
    requires Usable(cfg)
    ensures var o := Judge(cfg, g, r);
            && (HasLevel(o) ==> !Alive(g.blocks, r.ip, r.at) && o.level == Level(g, r))
            && (o.RateLimited? ==> o.level < cfg.blockThreshold)
  {
  }

  lemma StepKeepsShield(cfg: Config, g: Guard, r: Request, ip: Ip)
    requires Usable(cfg) && cfg.blockThreshold >= 1 && cfg.backoffSecs <= cfg.blockSecs
    requires Shielded(cfg, g, ip, r.at) && Shielded(cfg, g, r.ip, r.at)
    ensures Shielded(cfg, Handle(cfg, g, r), ip, r.at)
    ensures HasLevel(Judge(cfg, g, r)) ==> 1 <= Judge(cfg, g, r).level <= cfg.blockThreshold
  {
    StepEffect(cfg, g, r);
    AnswerLevel(cfg, g, r);
    if HasLevel(Judge(cfg, g, r)) {
      RoomForOne(cfg, g, r);
    }
  }

  lemma {:induction false} RunKeepsShield(cfg: Config, rs: seq<Request>, ip: Ip, now: nat)
    requires Usable(cfg) && cfg.blockThreshold >= 1 && cfg.backoffSecs <= cfg.blockSecs && Chronological(rs)
    requires rs != [] ==> rs[|rs| - 1].at <= now
    ensures Shielded(cfg, Run(cfg, rs), ip, now)
  {
    if rs != [] {
      var init, r := rs[..|rs| - 1], rs[|rs| - 1];
      RunKeepsShield(cfg, init, ip, r.at);
      RunKeepsShield(cfg, init, r.ip, r.at);
      StepKeepsShield(cfg, Run(cfg, init), r, ip);
    }
  }

  lemma AnswerWithinThreshold(cfg: Config, rs: seq<Request>, i: nat)
    requires Usable(cfg) && cfg.blockThreshold >= 1 && cfg.backoffSecs <= cfg.blockSecs && Chronological(rs) && i < |rs|
    ensures HasLevel(Answer(cfg, rs, i)) ==> 1 <= Answer(cfg, rs, i).level <= cfg.blockThreshold
  {
    assert i > 0 ==> rs[..i][i - 1].at <= rs[i].at;
    RunKeepsShield(cfg, rs[..i], rs[i].ip, rs[i].at);
    StepKeepsShield(cfg, Run(cfg, rs[..i]), rs[i], rs[i].ip);
  }

  // --- the exact condition on the configuration ---

  /** No run of the middleware reports a level above the threshold. */
  ghost predicate NeverExceeds(cfg: Config)
    requires Usable(cfg)
  {
    forall rs, i: nat :: Chronological(rs) && i < |rs| && HasLevel(Answer(cfg, rs, i)) ==>
      Answer(cfg, rs, i).level <= cfg.blockThreshold
  }

  predicate NoneAfter(rs: seq<Request>, t: nat) {
    forall i :: 0 <= i < |rs| ==> rs[i].at <= t
  }

  /** `ip` is not blocked at `t` and has a live level of at least `level`. */
  predicate Climbing(g: Guard, ip: Ip, t: nat, level: nat) {
    !Alive(g.blocks, ip, t) && (level > 0 ==> Alive(g.backoffs, ip, t) && g.backoffs[ip].value >= level)
  }

  /** `ip` was blocked at `t` with a level above `level`. */
  predicate Climbed(cfg: Config, g: Guard, ip: Ip, t: nat, level: nat) {
    && ip in g.backoffs && g.backoffs[ip].value > level && g.backoffs[ip].expiry == t + 1000 * cfg.backoffSecs
    && ip in g.blocks && g.blocks[ip].expiry == t + 1000 * cfg.blockSecs
  }

  function Attempts(g: Guard, ip: Ip, t: nat): nat {
    NextCount(g.bursts, (ip, t / 1000), t)
  }

  /** One more request either gets the address blocked or counts towards a burst. */
  lemma ClimbStep(cfg: Config, g: Guard, ip: Ip, t: nat, level: nat)
    requires Usable(cfg) && Climbing(g, ip, t, level) && (level > 0 ==> cfg.backoffSecs >= 1)
    ensures var r := Request(t, ip, false, false);
            var o, g' := Judge(cfg, g, r), Handle(cfg, g, r);
            if o.BurstLimited? || o.BackoffBlocked? then o.level > level && Climbed(cfg, g', ip, t, level)
            else
              && Climbing(g', ip, t, level)
              && Attempts(g, ip, t) <= cfg.burstThreshold && Attempts(g', ip, t) == Attempts(g, ip, t) + 1
  {
    var r := Request(t, ip, false, false);
    StepEffect(cfg, g, r);
    AnswerLevel(cfg, g, r);
  }

  lemma Append(cfg: Config, rs: seq<Request>, r: Request)
    requires Usable(cfg) && Chronological(rs) && NoneAfter(rs, r.at)
    ensures var rs' := rs + [r];
            && Chronological(rs') && NoneAfter(rs', r.at)
            && Run(cfg, rs') == Handle(cfg, Run(cfg, rs), r)
            && Answer(cfg, rs', |rs|) == Judge(cfg, Run(cfg, rs), r)
  {
    assert (rs + [r])[..|rs|] == rs;
  }

  /** Enough requests at one moment get the address blocked. */
  lemma {:induction false} ClimbUntilBlocked(cfg: Config, ip: Ip, rs: seq<Request>, t: nat, level: nat)
    returns (rs': seq<Request>)
    requires Usable(cfg) && Chronological(rs) && NoneAfter(rs, t)
    requires Climbing(Run(cfg, rs), ip, t, level) && (level > 0 ==> cfg.backoffSecs >= 1)
    ensures Chronological(rs') && NoneAfter(rs', t) && rs' != []
    ensures var o := Answer(cfg, rs', |rs'| - 1);
            HasLevel(o) && o.level > level && Climbed(cfg, Run(cfg, rs'), ip, t, level)
    decreases if Attempts(Run(cfg, rs), ip, t) > cfg.burstThreshold then 0
              else cfg.burstThreshold + 1 - Attempts(Run(cfg, rs), ip, t)
  {
    var r := Request(t, ip, false, false);
    rs' := rs + [r];
    Append(cfg, rs, r);
    ClimbStep(cfg, Run(cfg, rs), ip, t, level);
    var o := Judge(cfg, Run(cfg, rs), r);
    if !o.BurstLimited? && !o.BackoffBlocked? {
      rs' := ClimbUntilBlocked(cfg, ip, rs', t, level);
    }
  }

  /** If the counter outlives the block, every level is reached: a burst after each block
      that ran out climbs one further. */
  lemma {:induction false} ClimbTo(cfg: Config, ip: Ip, level: nat) returns (rs: seq<Request>, t: nat)
    requires Usable(cfg) && cfg.blockSecs < cfg.backoffSecs
    ensures Chronological(rs) && NoneAfter(rs, t) && Climbing(Run(cfg, rs), ip, t, level)
  {
    if level == 0 {
      rs, t := [], 0;
    } else {
      rs, t := ClimbTo(cfg, ip, level - 1);
      rs := ClimbUntilBlocked(cfg, ip, rs, t, level - 1);
      t := t + 1000 * cfg.blockSecs;
    }
  }

  /** In every configuration, no level above the threshold is ever reported exactly when the
      threshold is positive and the counter's lifetime is at most the block's. */
  lemma NeverExceedsIff(cfg: Config)
    requires Usable(cfg)
    ensures NeverExceeds(cfg) <==> cfg.blockThreshold >= 1 && cfg.backoffSecs <= cfg.blockSecs
  {
    if cfg.blockThreshold >= 1 && cfg.backoffSecs <= cfg.blockSecs {
      forall rs, i: nat | Chronological(rs) && i < |rs| && HasLevel(Answer(cfg, rs, i))
        ensures Answer(cfg, rs, i).level <= cfg.blockThreshold
      {
        AnswerWithinThreshold(cfg, rs, i);
      }
    } else {
      var rs, t := [], 0;
      if cfg.blockThreshold > 0 {
        rs, t := ClimbTo(cfg, "ip", cfg.blockThreshold);
      }
      rs := ClimbUntilBlocked(cfg, "ip", rs, t, cfg.blockThreshold);
      assert Answer(cfg, rs, |rs| - 1).level > cfg.blockThreshold;
    }
  }

  // --- the delay ---

  /** Up to level 64 the delay is the documented `min(base * 2^(level - 1), max)`: neither
      the shift nor the product is cut short. */
  lemma DelayFormula(cfg: Config, level: nat)
    requires 1 <= level <= 64 && cfg.maxSecs <= U64_MAX
    ensures Backoff(level, cfg) == Min(cfg.baseSecs * Pow2(level - 1), cfg.maxSecs)
  {
  }

  lemma NoViolationNoDelay(cfg: Config)
    ensures Backoff(0, cfg) == 0
  {
  }

  /** From level 65 on the shift wraps, and some configuration gets a shorter delay. */
  lemma ShiftWraps(level: nat)
    requires level > 64
    ensures var cfg := Config(0, 1, 1, 1, 1, U64_MAX, 1, 1);
            Backoff(level, cfg) < Min(cfg.baseSecs * Pow2(level - 1), cfg.maxSecs)
  {
    Pow2DoubleWord();
    Pow2Increases((level - 1) % 64, 63);
    Pow2Increases(64, level - 1);
  }

  /** The delay documented for a level is the one computed, for every configuration, exactly
      up to level 64. */
  ghost predicate DelayAsDocumented(level: nat)
    requires level >= 1
  {
    forall cfg: Config :: cfg.maxSecs <= U64_MAX ==>
      Backoff(level, cfg) == Min(cfg.baseSecs * Pow2(level - 1), cfg.maxSecs)
  }

  lemma DelayAsDocumentedIff(level: nat)
    requires level >= 1
    ensures DelayAsDocumented(level) <==> level <= 64
  {
    if level <= 64 {
      forall cfg: Config | cfg.maxSecs <= U64_MAX
        ensures Backoff(level, cfg) == Min(cfg.baseSecs * Pow2(level - 1), cfg.maxSecs)
      {
        DelayFormula(cfg, level);
      }
    } else {
      ShiftWraps(level);
    }
  }

  /** In every run, every advertised backoff is the documented delay for its level. */
  lemma AdvertisedDelay(cfg: Config, rs: seq<Request>, i: nat)
    requires Usable(cfg) && 1 <= cfg.blockThreshold <= 64 && cfg.backoffSecs <= cfg.blockSecs && cfg.maxSecs <= U64_MAX
    requires Chronological(rs) && i < |rs|
    ensures var o := Answer(cfg, rs, i);
            o.BurstLimited? || o.RateLimited? ==>
              1 <= o.level <= cfg.blockThreshold && o.retryAfter == Min(cfg.baseSecs * Pow2(o.level - 1), cfg.maxSecs)
  {
    AnswerWithinThreshold(cfg, rs, i);
    var o := Answer(cfg, rs, i);
    if o.BurstLimited? || o.RateLimited? {
      DelayFormula(cfg, o.level);
    }
  }
}
