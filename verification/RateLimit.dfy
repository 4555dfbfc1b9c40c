/** The Redis sorted-set rate limiter: one set of millisecond timestamps per bucket and
identity. Member and score are the same timestamp, so requests in the same millisecond
collapse into one member. */
module RateLimit {
  import opened Expiring
  import opened Text

  datatype Bucket = Bucket(name: string, limit: nat, windowSecs: nat)

  // --- which bucket a request falls into ---

  function Lower(c: char): char {
    if 'A' <= c <= 'Z' then (c as int + 32) as char else c
  }

  predicate EqIgnoreCase(a: string, b: string) {
    |a| == |b| && forall i :: 0 <= i < |a| ==> Lower(a[i]) == Lower(b[i])
  }

  datatype Tier =
    | AuthStrict | Auth | MatchmakingMutate | Matchmaking | MatchReport
    | Matches | Tournament | StakingMutate | Read | Default

  function ResolveTier(verb: string, path: string): Tier {
    if path == "/api/auth/login" || path == "/api/auth/register" || path == "/api/auth/refresh" then AuthStrict
    else if StartsWith(path, "/api/auth") then Auth
    else if path == "/api/matchmaking/join" || path == "/api/matchmaking/leave" then MatchmakingMutate
    else if StartsWith(path, "/api/matchmaking") then Matchmaking
    else if Contains(path, "/complete") || Contains(path, "/dispute") || Contains(path, "/finalize") then MatchReport
    else if StartsWith(path, "/api/matches") then Matches
    else if StartsWith(path, "/api/tournaments") then Tournament
    else if path == "/api/staking/stake" || path == "/api/staking/claim" then StakingMutate
    else if EqIgnoreCase(verb, "GET") || EqIgnoreCase(verb, "HEAD") then Read
    else Default
  }

  function BucketOf(tier: Tier, defaultLimit: nat, defaultWindow: nat): Bucket {
    match tier
    case AuthStrict => Bucket("auth_strict", 5, 60)
    case Auth => Bucket("auth", 30, 60)
    case MatchmakingMutate => Bucket("matchmaking_mutate", 20, 60)
    case Matchmaking => Bucket("matchmaking", 60, 60)
    case MatchReport => Bucket("match_report", 30, 60)
    case Matches => Bucket("matches", 60, 60)
    case Tournament => Bucket("tournament", 10, 60)
    case StakingMutate => Bucket("staking_mutate", 10, 60)
    case Read => Bucket("read", 100, 60)
    case Default => Bucket("default", defaultLimit, defaultWindow)
  }

  predicate ReportPath(path: string) {
    Contains(path, "/complete") || Contains(path, "/dispute") || Contains(path, "/finalize")
  }

  lemma DifferAt(a: string, b: string, c: string, i: nat)
    requires i < |a| && i < |b| && a[i] != b[i] && a <= c
    ensures !(b <= c) && b != c
  {
  }

  /** Tournament paths get the tight tournament tier unless they report on a match; then the
      earlier report rule takes them, at three times the limit. */
  lemma TournamentTier(verb: string, path: string)
    requires StartsWith(path, "/api/tournaments")
    ensures ResolveTier(verb, path) == if ReportPath(path) then MatchReport else Tournament
  {
    var t := "/api/tournaments";
    DifferAt(t, "/api/auth/login", path, 5);
    DifferAt(t, "/api/auth/register", path, 5);
    DifferAt(t, "/api/auth/refresh", path, 5);
    DifferAt(t, "/api/auth", path, 5);
    DifferAt(t, "/api/matchmaking/join", path, 5);
    DifferAt(t, "/api/matchmaking/leave", path, 5);
    DifferAt(t, "/api/matchmaking", path, 5);
    DifferAt(t, "/api/matches", path, 5);
  }

  function Key(bucket: Bucket, identity: string): string {
    "rl:" + bucket.name + ":" + identity
  }

  /** Length and first letter of a tier's name, which already tell the tiers apart. */
  function Shape(tier: Tier): (nat, char) {
    match tier
    case AuthStrict => (11, 'a')
    case Auth => (4, 'a')
    case MatchmakingMutate => (18, 'm')
    case Matchmaking => (11, 'm')
    case MatchReport => (12, 'm')
    case Matches => (7, 'm')
    case Tournament => (10, 't')
    case StakingMutate => (14, 's')
    case Read => (4, 'r')
    case Default => (7, 'd')
  }

  lemma NameShape(tier: Tier, limit: nat, window: nat)
    ensures var n := BucketOf(tier, limit, window).name;
            |n| == Shape(tier).0 && n[0] == Shape(tier).1 && ':' !in n
  {
  }

  lemma NamesDiffer(tier: Tier, tier': Tier, limit: nat, window: nat)
    ensures BucketOf(tier, limit, window).name == BucketOf(tier', limit, window).name <==> tier == tier'
  {
  }

  /** Requests that share a Redis key share the bucket and the identity, so each sorted set
      is only ever used with one limit and one window. */
  lemma SharedKeySharesBucket(tier: Tier, id: string, tier': Tier, id': string, defaultLimit: nat, defaultWindow: nat)
    ensures var b, b' := BucketOf(tier, defaultLimit, defaultWindow), BucketOf(tier', defaultLimit, defaultWindow);
            Key(b, id) == Key(b', id') <==> b == b' && id == id'
  {
    var b, b' := BucketOf(tier, defaultLimit, defaultWindow), BucketOf(tier', defaultLimit, defaultWindow);
    NamesDiffer(tier, tier', defaultLimit, defaultWindow);
    NameShape(tier, defaultLimit, defaultWindow);
    NameShape(tier', defaultLimit, defaultWindow);
    SameKey(b, id, b', id');
  }

  lemma SameKey(b: Bucket, id: string, b': Bucket, id': string)
    requires ':' !in b.name && ':' !in b'.name
    ensures Key(b, id) == Key(b', id') <==> b.name == b'.name && id == id'
  {
    SplitAtFirst(b.name, id, b'.name, id', ':');
    var k, k' := Key(b, id), Key(b', id');
    assert k == "rl:" + (b.name + [':'] + id) && k' == "rl:" + (b'.name + [':'] + id');
    assert k[3..] == b.name + [':'] + id && k'[3..] == b'.name + [':'] + id';
  }

  // --- the sliding window ---

  type Windows = map<string, Slot<set<nat>>>

  function WindowStart(now: nat, windowMs: nat): nat {
    if now < windowMs then 0 else now - windowMs
  }

  /** `ZADD now`, then `ZREMRANGEBYSCORE 0 start`. */
  function Recorded(w: Windows, key: string, windowMs: nat, now: nat): set<nat> {
    set t | t in Members(w, key, now) + {now} && WindowStart(now, windowMs) < t
  }

  function Check(w: Windows, key: string, windowMs: nat, now: nat): Windows {
    w[key := Slot(Recorded(w, key, windowMs, now), now + windowMs)]
  }

  datatype Decision = Decision(admitted: bool, remaining: nat, resetSecs: nat, retryAfter: nat)

  class Limiter {
    var windows: Windows

    constructor ()
      ensures windows == map[]
    {
      windows := map[];
    }

    method SlidingWindowCheck(key: string, windowSecs: nat, now: nat) returns (count: nat, resetSecs: nat)
      modifies this
      ensures windows == Check(old(windows), key, windowSecs * 1000, now)
      ensures count == |Recorded(old(windows), key, windowSecs * 1000, now)|
      ensures resetSecs == now / 1000 + windowSecs
    {
      var windowMs := windowSecs * 1000;
      var start := if now < windowMs then 0 else now - windowMs;
      var present := if key in windows && now < windows[key].expiry then windows[key].value else {};
      assert present == Members(windows, key, now) && start == WindowStart(now, windowMs);
      var kept := set t | t in present + {now} && start < t;
      assert kept == Recorded(windows, key, windowMs, now);
      windows := windows[key := Slot(kept, now + windowMs)];
      count := |kept|;
      resetSecs := now / 1000 + windowSecs;
    }

    method Decide(bucket: Bucket, identity: string, now: nat) returns (d: Decision)
      modifies this
      ensures windows == Check(old(windows), Key(bucket, identity), bucket.windowSecs * 1000, now)
      ensures var count := |Recorded(old(windows), Key(bucket, identity), bucket.windowSecs * 1000, now)|;
              && d.admitted == (count <= bucket.limit)
              && d.remaining == (if count < bucket.limit then bucket.limit - count else 0)
      ensures d.retryAfter == bucket.windowSecs && d.resetSecs == now / 1000 + bucket.windowSecs
    {
      var count, reset := SlidingWindowCheck(Key(bucket, identity), bucket.windowSecs, now);
      var remaining := if count < bucket.limit then bucket.limit - count else 0;
      var nowSecs := now / 1000;
      d := Decision(count <= bucket.limit, remaining, reset, reset - nowSecs);
    }
  }
}
