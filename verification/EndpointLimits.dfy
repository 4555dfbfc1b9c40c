/** From a request line to its limit: which endpoints fall into which bucket, and what the
limiter then guarantees for them. */
module EndpointLimits {
  import opened Text
  import opened RateLimit
  import opened SlidingWindow

  const LOGIN := "/api/auth/login"
  const REGISTER := "/api/auth/register"
  const REFRESH := "/api/auth/refresh"
  const AUTH := "/api/auth"
  const JOIN := "/api/matchmaking/join"
  const LEAVE := "/api/matchmaking/leave"
  const MATCHMAKING := "/api/matchmaking"
  const MATCHES := "/api/matches"
  const TOURNAMENTS := "/api/tournaments"
  const STAKE := "/api/staking/stake"
  const CLAIM := "/api/staking/claim"

  /** Which requests a tier is for, each tier on its own: no rule depends on the order in
      which the others are tried, except that reports on a match come first among the game
      endpoints. */
  predicate Belongs(tier: Tier, verb: string, path: string) {
    match tier
    case AuthStrict => path in {LOGIN, REGISTER, REFRESH}
    case Auth => AUTH <= path && path !in {LOGIN, REGISTER, REFRESH}
    case MatchmakingMutate => path in {JOIN, LEAVE}
    case Matchmaking => MATCHMAKING <= path && path !in {JOIN, LEAVE}
    case MatchReport => ReportPath(path) && !(AUTH <= path) && !(MATCHMAKING <= path)
    case Matches => MATCHES <= path && !ReportPath(path)
    case Tournament => TOURNAMENTS <= path && !ReportPath(path)
    case StakingMutate => path in {STAKE, CLAIM}
    case Read => Unlisted(path) && ReadVerb(verb)
    case Default => Unlisted(path) && !ReadVerb(verb)
  }

  predicate Unlisted(path: string) {
    && !(AUTH <= path) && !(MATCHMAKING <= path) && !(MATCHES <= path) && !(TOURNAMENTS <= path)
    && !ReportPath(path) && path !in {STAKE, CLAIM}
  }

  predicate ReadVerb(verb: string) {
    || (|verb| == 3 && verb[0] in {'G', 'g'} && verb[1] in {'E', 'e'} && verb[2] in {'T', 't'})
    || (|verb| == 4 && verb[0] in {'H', 'h'} && verb[1] in {'E', 'e'} && verb[2] in {'A', 'a'} && verb[3] in {'D', 'd'})
  }

  lemma LowerIs(c: char, upper: char)
    requires 'A' <= upper <= 'Z'
    ensures Lower(c) == Lower(upper) <==> c == upper || c == (upper as int + 32) as char
  {
  }

  lemma ReadsIgnoreCase(verb: string)
    ensures EqIgnoreCase(verb, "GET") || EqIgnoreCase(verb, "HEAD") <==> ReadVerb(verb)
  {
    if |verb| == 3 {
      LowerIs(verb[0], 'G');
      LowerIs(verb[1], 'E');
      LowerIs(verb[2], 'T');
    } else if |verb| == 4 {
      LowerIs(verb[0], 'H');
      LowerIs(verb[1], 'E');
      LowerIs(verb[2], 'A');
      LowerIs(verb[3], 'D');
    }
  }

  /** At most one of the prefixes fits a path. */
  lemma PrefixesApart(path: string)
    ensures AUTH <= path ==> !(MATCHMAKING <= path) && !(MATCHES <= path) && !(TOURNAMENTS <= path)
    ensures MATCHMAKING <= path ==> !(MATCHES <= path) && !(TOURNAMENTS <= path)
    ensures MATCHES <= path ==> !(TOURNAMENTS <= path)
  {
    if AUTH <= path {
      assert path[5] == 'a';
    }
    if MATCHMAKING <= path {
      assert path[5] == 'm' && path[10] == 'm';
    }
    if MATCHES <= path {
      assert path[5] == 'm' && path[10] == 'e';
    }
    if TOURNAMENTS <= path {
      assert path[5] == 't';
    }
  }

  lemma PathsHavePrefixes()
    ensures AUTH <= LOGIN && AUTH <= REGISTER && AUTH <= REFRESH && MATCHMAKING <= JOIN && MATCHMAKING <= LEAVE
    ensures STAKE[5] == CLAIM[5] == 's'
  {
  }

  lemma FirstThree(path: string, part: string, i: nat)
    requires |part| >= 3 && i <= |path|
    ensures part <= path[i..] ==>
              i + 2 < |path| && path[i] == part[0] && path[i + 1] == part[1] && path[i + 2] == part[2]
  {
  }

  /** No three characters in a row of `path` are the first three of `part`. */
  lemma NotIn(path: string, part: string)
    requires |part| >= 3
    requires forall i :: 0 <= i < |path| - 2 ==> !(path[i] == part[0] && path[i + 1] == part[1] && path[i + 2] == part[2])
    ensures !Contains(path, part)
  {
    forall i | 0 <= i <= |path|
      ensures !(part <= path[i..])
    {
      FirstThree(path, part, i);
    }
  }

  lemma StakeSlashes(i: nat)
    requires i < |STAKE| && STAKE[i] == '/'
    ensures i == 0 || i == 4 || i == 12
  {
  }

  lemma ClaimSlashes(i: nat)
    requires i < |CLAIM| && CLAIM[i] == '/'
    ensures i == 0 || i == 4 || i == 12
  {
  }

  lemma StakeIsNoReport(part: string)
    requires |part| >= 3 && part[0] == '/' && part[1] in {'c', 'd', 'f'}
    ensures !Contains(STAKE, part)
  {
    forall i | 0 <= i < |STAKE| - 2
      ensures !(STAKE[i] == part[0] && STAKE[i + 1] == part[1] && STAKE[i + 2] == part[2])
    {
      if STAKE[i] == '/' {
        StakeSlashes(i);
      }
    }
    NotIn(STAKE, part);
  }

  lemma ClaimIsNoReport(part: string)
    requires |part| >= 3 && part[0] == '/' && (part[1] in {'d', 'f'} || (part[1] == 'c' && part[2] == 'o'))
    ensures !Contains(CLAIM, part)
  {
    forall i | 0 <= i < |CLAIM| - 2
      ensures !(CLAIM[i] == part[0] && CLAIM[i + 1] == part[1] && CLAIM[i + 2] == part[2])
    {
      if CLAIM[i] == '/' {
        ClaimSlashes(i);
      }
    }
    NotIn(CLAIM, part);
  }

  lemma StakingIsNoReport()
    ensures !ReportPath(STAKE) && !ReportPath(CLAIM)
  {
    StakeIsNoReport("/complete");
    StakeIsNoReport("/dispute");
    StakeIsNoReport("/finalize");
    ClaimIsNoReport("/complete");
    ClaimIsNoReport("/dispute");
    ClaimIsNoReport("/finalize");
  }

  lemma StakingUnlistedBefore(path: string)
    requires path in {STAKE, CLAIM}
    ensures !(AUTH <= path) && !(MATCHMAKING <= path) && !(MATCHES <= path) && !(TOURNAMENTS <= path) && !ReportPath(path)
  {
    StakingIsNoReport();
    assert path[5] == 's';
    assert AUTH[5] == 'a' && MATCHMAKING[5] == MATCHES[5] == 'm' && TOURNAMENTS[5] == 't';
  }

  /** A request gets a tier exactly when it belongs to it. */
  lemma ResolvesIffBelongs(tier: Tier, verb: string, path: string)
    ensures ResolveTier(verb, path) == tier <==> Belongs(tier, verb, path)
  {
    PrefixesApart(path);
    PathsHavePrefixes();
    ReadsIgnoreCase(verb);
    if path in {STAKE, CLAIM} {
      StakingUnlistedBefore(path);
    }
  }

  // --- what a client can count on ---

  /** Every bucket is used with its own limit and window. */
  ghost predicate Configured(rules: Rules, defaultLimit: nat, defaultWindow: nat) {
    forall tier, id ::
      var b := BucketOf(tier, defaultLimit, defaultWindow);
      rules.limitOf(Key(b, id)) == b.limit && rules.windowMsOf(Key(b, id)) == 1000 * b.windowSecs
  }

  /** The tier whose bucket name a key carries. */
  ghost function TierOf(key: string): Tier {
    if t: Tier :| Key(BucketOf(t, 0, 0), "") <= key then t else Default
  }

  lemma TierOfKey(tier: Tier, id: string, defaultLimit: nat, defaultWindow: nat)
    ensures TierOf(Key(BucketOf(tier, defaultLimit, defaultWindow), id)) == tier
  {
    var key := Key(BucketOf(tier, defaultLimit, defaultWindow), id);
    assert BucketOf(tier, defaultLimit, defaultWindow).name == BucketOf(tier, 0, 0).name;
    assert Key(BucketOf(tier, 0, 0), "") <= key;
    forall t: Tier | Key(BucketOf(t, 0, 0), "") <= key
      ensures t == tier
    {
      var rest := key[|Key(BucketOf(t, 0, 0), "")|..];
      assert key == Key(BucketOf(t, 0, 0), rest) == Key(BucketOf(tier, 0, 0), id);
      NameShape(t, 0, 0);
      NameShape(tier, 0, 0);
      SameKey(BucketOf(t, 0, 0), rest, BucketOf(tier, 0, 0), id);
      NamesDiffer(t, tier, 0, 0);
    }
  }

  /** Since a key belongs to one bucket only, there are such rules for every default. */
  lemma RulesExist(defaultLimit: nat, defaultWindow: nat) returns (rules: Rules)
    ensures Configured(rules, defaultLimit, defaultWindow)
  {
    rules := Rules(key => BucketOf(TierOf(key), defaultLimit, defaultWindow).limit,
                   key => 1000 * BucketOf(TierOf(key), defaultLimit, defaultWindow).windowSecs);
    forall tier, id
      ensures TierOf(Key(BucketOf(tier, defaultLimit, defaultWindow), id)) == tier
    {
      TierOfKey(tier, id, defaultLimit, defaultWindow);
    }
  }

  /** The key under which a request is counted. */
  function KeyFor(verb: string, path: string, identity: string, defaultLimit: nat, defaultWindow: nat): string {
    Key(BucketOf(ResolveTier(verb, path), defaultLimit, defaultWindow), identity)
  }

  /** The limit of an endpoint; `defaultLimit` where no rule names it. */
  function EndpointLimit(verb: string, path: string, defaultLimit: nat): nat {
    if path in {LOGIN, REGISTER, REFRESH} then 5
    else if AUTH <= path then 30
    else if path in {JOIN, LEAVE} then 20
    else if MATCHMAKING <= path then 60
    else if ReportPath(path) then 30
    else if MATCHES <= path then 60
    else if TOURNAMENTS <= path || path in {STAKE, CLAIM} then 10
    else if ReadVerb(verb) then 100
    else defaultLimit
  }

  /** In every history, an identity is admitted in at most as many milliseconds of any minute
      as its endpoint's limit says; endpoints without one get the configured
      default and its window. */
  lemma EndpointIsLimited(rules: Rules, h: seq<Attempt>, verb: string, path: string, identity: string, after: int,
                          defaultLimit: nat, defaultWindow: nat)
    requires Chronological(h) && Configured(rules, defaultLimit, defaultWindow)
    ensures var key := KeyFor(verb, path, identity, defaultLimit, defaultWindow);
            && rules.windowMsOf(key) == (if Unlisted(path) && !ReadVerb(verb) then 1000 * defaultWindow else 60000)
            && rules.limitOf(key) == EndpointLimit(verb, path, defaultLimit)
            && |AdmittedWithin(rules, h, key, after)| <= EndpointLimit(verb, path, defaultLimit)
  {
    var tier := ResolveTier(verb, path);
    ResolvesIffBelongs(tier, verb, path);
    TierIsEndpointLimit(tier, verb, path, defaultLimit, defaultWindow);
    AnyWindowBounded(rules, h, Key(BucketOf(tier, defaultLimit, defaultWindow), identity), after);
  }

  lemma TierIsEndpointLimit(tier: Tier, verb: string, path: string, defaultLimit: nat, defaultWindow: nat)
    requires Belongs(tier, verb, path)
    ensures var b := BucketOf(tier, defaultLimit, defaultWindow);
            && b.limit == EndpointLimit(verb, path, defaultLimit)
            && b.windowSecs == if Unlisted(path) && !ReadVerb(verb) then defaultWindow else 60
  {
    PrefixesApart(path);
    PathsHavePrefixes();
    if path in {STAKE, CLAIM} {
      StakingUnlistedBefore(path);
    }
  }

  /** A request is limited apart from every other endpoint group and every other identity. */
  lemma CountedTogetherIff(verb: string, path: string, id: string, verb': string, path': string, id': string,
                           defaultLimit: nat, defaultWindow: nat)
    ensures KeyFor(verb, path, id, defaultLimit, defaultWindow) == KeyFor(verb', path', id', defaultLimit, defaultWindow) <==>
            ResolveTier(verb, path) == ResolveTier(verb', path') && id == id'
  {
    var t, t' := ResolveTier(verb, path), ResolveTier(verb', path');
    SharedKeySharesBucket(t, id, t', id', defaultLimit, defaultWindow);
    NamesDiffer(t, t', defaultLimit, defaultWindow);
  }
}
