/** The per-IP steps of the security middleware: block list, burst detection, fixed-window
rate limit and exponential backoff. The clock is in milliseconds; Redis lifetimes are in
seconds. */
module SecurityGuard {
  import opened Expiring
  import opened Words

  type Ip = string

  datatype Config = Config(
    limit: nat,
    windowSecs: nat,
    burstThreshold: nat,
    blockSecs: nat,
    baseSecs: nat,
    maxSecs: nat,
    backoffSecs: nat,
    blockThreshold: nat)

  const DEFAULT: Config := Config(120, 60, 30, 300, 1, 60, 300, 5)

  /** A zero window divides by zero in the source. */
  predicate Usable(cfg: Config) {
    cfg.windowSecs >= 1
  }

  datatype Guard = Guard(
    blocks: map<Ip, Slot<()>>,
    bursts: map<(Ip, nat), Slot<nat>>,
    windows: map<(Ip, nat), Slot<nat>>,
    backoffs: map<Ip, Slot<nat>>)

  const EMPTY: Guard := Guard(map[], map[], map[], map[])

  datatype Request = Request(at: nat, ip: Ip, whitelisted: bool, tooLarge: bool)

  datatype Outcome =
    | Bypassed
    | Blocked(retryAfter: nat)
    | BurstLimited(level: nat, retryAfter: nat)
    | BackoffBlocked(level: nat, retryAfter: nat)
    | RateLimited(level: nat, retryAfter: nat)
    | TooLarge
    | Forwarded

  function Min(a: nat, b: nat): nat {
    if a < b then a else b
  }

  /** A 64-bit shift uses the shift amount modulo 64; the product saturates. */
  function Backoff(level: nat, cfg: Config): nat {
    if level == 0 then 0
    else Min(Min(cfg.baseSecs * Pow2((level - 1) % 64), U64_MAX), cfg.maxSecs)
  }

  function Window(cfg: Config, at: nat): nat
    requires Usable(cfg)
  {
    Aligned(at / 1000, cfg.windowSecs)
  }

  function Aligned(secs: nat, length: nat): nat
    requires length >= 1
  {
    secs / length
  }

  /** `TTL` rounds to the nearest second and is raised to at least 1. */
  function BlockTtl(g: Guard, r: Request): nat
    requires Alive(g.blocks, r.ip, r.at)
  {
    var secs := (g.blocks[r.ip].expiry - r.at + 500) / 1000;
    if secs < 1 then 1 else secs
  }

  function SetBlock(cfg: Config, g: Guard, r: Request): Guard {
    g.(blocks := g.blocks[r.ip := Slot((), r.at + 1000 * cfg.blockSecs)])
  }

  function RaiseBackoff(cfg: Config, g: Guard, r: Request): Guard {
    g.(backoffs := Increment(g.backoffs, r.ip, r.at, 1000 * cfg.backoffSecs))
  }

  function CountBurst(g: Guard, r: Request): Guard {
    g.(bursts := Increment(g.bursts, (r.ip, r.at / 1000), r.at, 2000))
  }

  function CountWindow(cfg: Config, g: Guard, r: Request): Guard
    requires Usable(cfg)
  {
    g.(windows := Increment(g.windows, (r.ip, Window(cfg, r.at)), r.at, 1000 * cfg.windowSecs))
  }

  function Level(g: Guard, r: Request): nat {
    NextCount(g.backoffs, r.ip, r.at)
  }

  predicate BurstExceeded(cfg: Config, g: Guard, r: Request) {
    NextCount(g.bursts, (r.ip, r.at / 1000), r.at) > cfg.burstThreshold
  }

  predicate WindowExceeded(cfg: Config, g: Guard, r: Request)
    requires Usable(cfg)
  {
    NextCount(g.windows, (r.ip, Window(cfg, r.at)), r.at) > cfg.limit
  }

  function Judge(cfg: Config, g: Guard, r: Request): Outcome
    requires Usable(cfg)
  {
    if r.whitelisted then Bypassed
    else if Alive(g.blocks, r.ip, r.at) then Blocked(BlockTtl(g, r))
    else if BurstExceeded(cfg, g, r) then BurstLimited(Level(g, r), Backoff(Level(g, r), cfg))
    else if WindowExceeded(cfg, g, r) then
      if Level(g, r) >= cfg.blockThreshold then BackoffBlocked(Level(g, r), cfg.blockSecs)
      else RateLimited(Level(g, r), Backoff(Level(g, r), cfg))
    else if r.tooLarge then TooLarge
    else Forwarded
  }

  function Handle(cfg: Config, g: Guard, r: Request): Guard
    requires Usable(cfg)
  {
    match Judge(cfg, g, r)
    case Bypassed => g
    case Blocked(_) => g
    case BurstLimited(_, _) => RaiseBackoff(cfg, SetBlock(cfg, CountBurst(g, r), r), r)
    case BackoffBlocked(_, _) => SetBlock(cfg, RaiseBackoff(cfg, CountWindow(cfg, CountBurst(g, r), r), r), r)
    case RateLimited(_, _) => RaiseBackoff(cfg, CountWindow(cfg, CountBurst(g, r), r), r)
    case TooLarge => CountWindow(cfg, CountBurst(g, r), r)
    case Forwarded => CountWindow(cfg, CountBurst(g, r), r)
  }

  class Middleware {
    const cfg: Config
    var blocks: map<Ip, Slot<()>>
    var bursts: map<(Ip, nat), Slot<nat>>
    var windows: map<(Ip, nat), Slot<nat>>
    var backoffs: map<Ip, Slot<nat>>

    ghost function View(): Guard
      reads this
    {
      Guard(blocks, bursts, windows, backoffs)
    }

    constructor (cfg: Config)
      ensures this.cfg == cfg && View() == EMPTY
    {
      this.cfg := cfg;
      blocks, bursts, windows, backoffs := map[], map[], map[], map[];
    }

    method IncrementBackoff(r: Request) returns (level: nat)
      modifies this`backoffs
      ensures level == Level(old(View()), r) && View() == RaiseBackoff(cfg, old(View()), r)
    {
      level := if r.ip in backoffs && r.at < backoffs[r.ip].expiry then backoffs[r.ip].value + 1 else 1;
      backoffs := backoffs[r.ip := Slot(level, r.at + 1000 * cfg.backoffSecs)];
    }

    method Block(r: Request)
      modifies this`blocks
      ensures View() == SetBlock(cfg, old(View()), r)
    {
      blocks := blocks[r.ip := Slot((), r.at + 1000 * cfg.blockSecs)];
    }

    method DetectBurst(r: Request) returns (exceeded: bool)
      modifies this`bursts
      ensures exceeded == BurstExceeded(cfg, old(View()), r) && View() == CountBurst(old(View()), r)
    {
      var key := (r.ip, r.at / 1000);
      var count := if key in bursts && r.at < bursts[key].expiry then bursts[key].value + 1 else 1;
      bursts := bursts[key := Slot(count, r.at + 2000)];
      exceeded := count > cfg.burstThreshold;
    }

    method CheckWindow(r: Request) returns (exceeded: bool)
      requires Usable(cfg)
      modifies this`windows
      ensures exceeded == WindowExceeded(cfg, old(View()), r) && View() == CountWindow(cfg, old(View()), r)
    {
      var key := (r.ip, Window(cfg, r.at));
      var count := if key in windows && r.at < windows[key].expiry then windows[key].value + 1 else 1;
      windows := windows[key := Slot(count, r.at + 1000 * cfg.windowSecs)];
      exceeded := count > cfg.limit;
    }

    method Call(r: Request) returns (o: Outcome)
      requires Usable(cfg)
      modifies this
      ensures o == Judge(cfg, old(View()), r)
      ensures View() == Handle(cfg, old(View()), r)
    {
      if r.whitelisted {
        return Bypassed;
      }
      if r.ip in blocks && r.at < blocks[r.ip].expiry {
        var ttl := (blocks[r.ip].expiry - r.at + 500) / 1000;
        return Blocked(if ttl < 1 then 1 else ttl);
      }
      var burst := DetectBurst(r);
      if burst {
        Block(r);
        var level := IncrementBackoff(r);
        return BurstLimited(level, Backoff(level, cfg));
      }
      var exceeded := CheckWindow(r);
      if exceeded {
        var level := IncrementBackoff(r);
        if level >= cfg.blockThreshold {
          Block(r);
          return BackoffBlocked(level, cfg.blockSecs);
        }
        return RateLimited(level, Backoff(level, cfg));
      }
      return if r.tooLarge then TooLarge else Forwarded;
    }
  }
}
