/** Is revoking a user's sessions complete? The index set that revocation walks has its
own time to live, so the answer depends on the two configured lifetimes. */
module SessionRevocation {
  import opened Expiring
  import opened TokenStore

  datatype Event =
    | Issue(user: User, session: SessionId)
    | IssueSocket(user: User, session: SessionId)
    | Check(token: Token, blacklisted: bool)
    | RevokeOne(session: SessionId)
    | RevokeUser(user: User)

  datatype Step = Step(at: int, event: Event)

  const EMPTY: Sessions := Sessions(map[], map[])

  function Apply(cfg: Config, st: Sessions, s: Step): Sessions {
    match s.event
    case Issue(u, sid) => StoreSession(cfg, st, sid, u, s.at)
    case IssueSocket(u, sid) => StoreSocketSession(st, sid, u, s.at)
    case Check(t, b) => Validate(cfg, st, t, b, s.at)
    case RevokeOne(sid) => RevokeSession(st, sid)
    case RevokeUser(u) => RevokeSessionsOf(st, u, s.at)
  }

  function Init(steps: seq<Step>): seq<Step>
    requires steps != []
  {
    steps[..|steps| - 1]
  }

  function Last(steps: seq<Step>): Step
    requires steps != []
  {
    steps[|steps| - 1]
  }

  function Run(cfg: Config, steps: seq<Step>): Sessions {
    if steps == [] then EMPTY else Apply(cfg, Run(cfg, Init(steps)), Last(steps))
  }

  predicate Issues(s: Step) {
    s.event.Issue? || s.event.IssueSocket?
  }

  function TokenOf(cfg: Config, s: Step): Token
    requires Issues(s)
  {
    Token(s.event.user, s.event.session, Stamp(s.at) + if s.event.Issue? then cfg.accessSecs else SOCKET_TOKEN_SECS)
  }

  /** The tokens a run has issued. */
  function Issued(cfg: Config, steps: seq<Step>): set<Token> {
    if steps == [] then {}
    else Issued(cfg, Init(steps)) + if Issues(Last(steps)) then {TokenOf(cfg, Last(steps))} else {}
  }

  predicate NewSession(issued: set<Token>, sid: SessionId) {
    forall t :: t in issued ==> t.session != sid
  }

  /** The clock does not run backwards, session identifiers are never reused, and only
      tokens issued earlier in the run are presented. */
  predicate Lawful(cfg: Config, steps: seq<Step>) {
    steps == [] ||
    var init, last := Init(steps), Last(steps);
    && Lawful(cfg, init)
    && (init != [] ==> Last(init).at <= last.at)
    && (Issues(last) ==> NewSession(Issued(cfg, init), last.event.session))
    && (last.event.Check? ==> last.event.token in Issued(cfg, init))
  }

  lemma Shorter(steps: seq<Step>, n: nat)
    requires n < |steps|
    ensures Init(steps)[..n] == steps[..n]
  {
  }

  lemma {:induction false} LawfulPrefix(cfg: Config, steps: seq<Step>, n: nat)
    requires Lawful(cfg, steps) && n <= |steps|
    ensures Lawful(cfg, steps[..n])
  {
    if n < |steps| {
      LawfulPrefix(cfg, Init(steps), n);
      Shorter(steps, n);
    } else {
      assert steps[..n] == steps;
    }
  }

  lemma {:induction false} InOrder(cfg: Config, steps: seq<Step>, i: nat)
    requires Lawful(cfg, steps) && i < |steps|
    ensures steps[i].at <= Last(steps).at
  {
    if i < |steps| - 1 {
      InOrder(cfg, Init(steps), i);
    }
  }

  lemma {:induction false} TokenIsIssued(cfg: Config, steps: seq<Step>, i: nat)
    requires i < |steps| && Issues(steps[i])
    ensures TokenOf(cfg, steps[i]) in Issued(cfg, steps)
  {
    if i < |steps| - 1 {
      TokenIsIssued(cfg, Init(steps), i);
    }
  }

  /** A session has one token, the one issued with it. */
  lemma {:induction false} OneToken(cfg: Config, steps: seq<Step>, i: nat, t: Token)
    requires Lawful(cfg, steps) && i < |steps| && Issues(steps[i])
    requires t in Issued(cfg, steps) && t.session == steps[i].event.session
    ensures t == TokenOf(cfg, steps[i])
  {
    if i < |steps| - 1 {
      TokenIsIssued(cfg, Init(steps), i);
      OneToken(cfg, Init(steps), i, t);
    }
  }

  // --- what is known about the session issued by step `issue` ---

  /** The last moment at which the token of a session issued at `t0` decodes. */
  function LastUse(cfg: Config, t0: int): int {
    1000 * (Stamp(t0) + cfg.accessSecs + LEEWAY) + 999
  }

  predicate Tracked(cfg: Config, issue: Step, st: Sessions, now: int)
    requires issue.event.Issue?
  {
    var t0, sid, user := issue.at, issue.event.session, issue.event.user;
    && (sid in st.live ==> st.live[sid].expiry <= LastUse(cfg, t0) + 1000 * cfg.accessSecs)
    && (Alive(st.live, sid, now) && now < t0 + 1000 * cfg.refreshSecs ==>
          user in st.index && sid in st.index[user].value && t0 + 1000 * cfg.refreshSecs <= st.index[user].expiry)
  }

  lemma TrackedStep(cfg: Config, issue: Step, st: Sessions, before: int, s: Step)
    requires cfg.Valid() && issue.event.Issue? && Tracked(cfg, issue, st, before) && issue.at <= before <= s.at
    requires Issues(s) ==> s.event.session != issue.event.session
    requires s.event.Check? && s.event.token.session == issue.event.session ==> s.event.token == TokenOf(cfg, issue)
    ensures Tracked(cfg, issue, Apply(cfg, st, s), s.at)
  {
  }

  lemma {:induction false} RunTracks(cfg: Config, steps: seq<Step>, i: nat)
    requires cfg.Valid() && Lawful(cfg, steps) && i < |steps| && steps[i].event.Issue?
    ensures Tracked(cfg, steps[i], Run(cfg, steps), Last(steps).at)
  {
    if i < |steps| - 1 {
      var init, s := Init(steps), Last(steps);
      RunTracks(cfg, init, i);
      InOrder(cfg, init, i);
      TokenIsIssued(cfg, init, i);
      if s.event.Check? && s.event.token.session == steps[i].event.session {
        OneToken(cfg, init, i, s.event.token);
      }
      TrackedStep(cfg, steps[i], Run(cfg, init), Last(init).at, s);
    }
  }

  lemma GoneStep(cfg: Config, st: Sessions, s: Step, sid: SessionId, before: int)
    requires !Alive(st.live, sid, before) && before <= s.at && !(Issues(s) && s.event.session == sid)
    ensures !Alive(Apply(cfg, st, s).live, sid, s.at)
  {
  }

  /** A session that is gone never comes back. */
  lemma {:induction false} GoneForGood(cfg: Config, steps: seq<Step>, i: nat, m: nat)
    requires Lawful(cfg, steps) && i < m <= |steps| && Issues(steps[i])
    requires !Alive(Run(cfg, steps[..m]).live, steps[i].event.session, steps[m - 1].at)
    ensures !Alive(Run(cfg, steps).live, steps[i].event.session, Last(steps).at)
  {
    if m == |steps| {
      assert steps[..m] == steps;
    } else {
      var init, s := Init(steps), Last(steps);
      Shorter(steps, m);
      GoneForGood(cfg, init, i, m);
      TokenIsIssued(cfg, init, i);
      GoneStep(cfg, Run(cfg, init), s, steps[i].event.session, Last(init).at);
    }
  }

  // --- how long a token is accepted ---

  /** Sessions are listed for the user they were issued to. */
  lemma {:induction false} IndexProvenance(cfg: Config, steps: seq<Step>, user: User, sid: SessionId)
    requires user in Run(cfg, steps).index && sid in Run(cfg, steps).index[user].value
    ensures exists t :: t in Issued(cfg, steps) && t.user == user && t.session == sid
  {
    var init, s := Init(steps), Last(steps);
    if user in Run(cfg, init).index && sid in Run(cfg, init).index[user].value {
      IndexProvenance(cfg, init, user, sid);
      var t :| t in Issued(cfg, init) && t.user == user && t.session == sid;
      assert t in Issued(cfg, steps);
    } else {
      assert TokenOf(cfg, s) in Issued(cfg, steps);
    }
  }

  /** When the session that step `i` issued runs out: its first life, and a new access
      lifetime from every check of its token that found it alive. */
  function ActiveUntil(cfg: Config, steps: seq<Step>, i: nat): int
    requires i < |steps| && Issues(steps[i])
  {
    if i == |steps| - 1 then
      steps[i].at + 1000 * (if steps[i].event.Issue? then cfg.accessSecs else SOCKET_SESSION_SECS)
    else
      var until, s := ActiveUntil(cfg, Init(steps), i), Last(steps);
      if s.event == Check(TokenOf(cfg, steps[i]), false) && s.at < until && s.at < DeadFrom(cfg, steps[i])
      then s.at + 1000 * cfg.accessSecs else until
  }

  /** The first moment at which the token no longer decodes. */
  function DeadFrom(cfg: Config, issue: Step): int
    requires Issues(issue)
  {
    1000 * (Stamp(issue.at) + (if issue.event.Issue? then cfg.accessSecs else SOCKET_TOKEN_SECS) + LEEWAY + 1)
  }

  /** No step after `i` revokes the session that step `i` issued. */
  predicate NeverRevoked(steps: seq<Step>, i: nat)
    requires i < |steps| && Issues(steps[i])
  {
    forall j :: i < j < |steps| ==>
      steps[j].event != RevokeOne(steps[i].event.session) && steps[j].event != RevokeUser(steps[i].event.user)
  }

  lemma ActiveStep(cfg: Config, issue: Step, st: Sessions, s: Step, until: int)
    requires Issues(issue) && issue.event.session in st.live && st.live[issue.event.session].expiry == until
    requires s.event != RevokeOne(issue.event.session) && s.event != RevokeUser(issue.event.user)
    requires Issues(s) ==> s.event.session != issue.event.session
    requires s.event.RevokeUser? ==> issue.event.session !in Members(st.index, s.event.user, s.at)
    requires s.event.Check? && s.event.token.session == issue.event.session ==> s.event.token == TokenOf(cfg, issue)
    ensures var live, sid := Apply(cfg, st, s).live, issue.event.session;
            && sid in live
            && live[sid].expiry == if s.event == Check(TokenOf(cfg, issue), false) && s.at < until && s.at < DeadFrom(cfg, issue)
                                   then s.at + 1000 * cfg.accessSecs else until
  {
  }

  lemma {:induction false} LivesUntil(cfg: Config, steps: seq<Step>, i: nat)
    requires Lawful(cfg, steps) && i < |steps| && Issues(steps[i]) && NeverRevoked(steps, i)
    ensures var live, sid := Run(cfg, steps).live, steps[i].event.session;
            sid in live && live[sid].expiry == ActiveUntil(cfg, steps, i)
  {
    if i < |steps| - 1 {
      var init, s, issue := Init(steps), Last(steps), steps[i];
      LivesUntil(cfg, init, i);
      TokenIsIssued(cfg, init, i);
      if s.event.Check? && s.event.token.session == issue.event.session {
        OneToken(cfg, init, i, s.event.token);
      }
      if s.event.RevokeUser? && issue.event.session in Members(Run(cfg, init).index, s.event.user, s.at) {
        IndexProvenance(cfg, init, s.event.user, issue.event.session);
        var t :| t in Issued(cfg, init) && t.user == s.event.user && t.session == issue.event.session;
        OneToken(cfg, init, i, t);
      }
      ActiveStep(cfg, issue, Run(cfg, init), s, ActiveUntil(cfg, init, i));
    }
  }

  /** In every run that does not revoke it, a token is accepted exactly when it is not
      blacklisted, still decodes, and was used within the access lifetime. */
  lemma AcceptedIff(cfg: Config, steps: seq<Step>, i: nat, blacklisted: bool, now: int)
    requires Lawful(cfg, steps) && i < |steps| && Issues(steps[i]) && NeverRevoked(steps, i) && Last(steps).at <= now
    ensures var verdict := Judge(Run(cfg, steps), TokenOf(cfg, steps[i]), blacklisted, now);
            && (verdict.Accepted? <==> !blacklisted && now < DeadFrom(cfg, steps[i]) && now < ActiveUntil(cfg, steps, i))
            && (verdict.Expired? <==> now >= DeadFrom(cfg, steps[i]))
            && (verdict.Blacklisted? <==> blacklisted && now < DeadFrom(cfg, steps[i]))
  {
    LivesUntil(cfg, steps, i);
  }

  // --- completeness ---

  /** Step `i` issued an access token, and step `r` later revoked that user. */
  predicate IssuedThenRevoked(cfg: Config, steps: seq<Step>, i: nat, r: nat) {
    && Lawful(cfg, steps) && i < r < |steps|
    && steps[i].event.Issue? && steps[r].event == RevokeUser(steps[i].event.user)
  }

  /** No access token is accepted, at any later time, once its user has been revoked. */
  ghost predicate RevocationComplete(cfg: Config) {
    forall steps: seq<Step>, i: nat, r: nat, blacklisted, now ::
      IssuedThenRevoked(cfg, steps, i, r) && Last(steps).at <= now ==>
        !Judge(Run(cfg, steps), TokenOf(cfg, steps[i]), blacklisted, now).Accepted?
  }

  lemma RevokedIsRejected(cfg: Config, steps: seq<Step>, i: nat, r: nat, blacklisted: bool, now: int)
    requires cfg.Valid() && cfg.accessSecs + LEEWAY < cfg.refreshSecs
    requires IssuedThenRevoked(cfg, steps, i, r) && Last(steps).at <= now
    ensures !Judge(Run(cfg, steps), TokenOf(cfg, steps[i]), blacklisted, now).Accepted?
  {
    InOrder(cfg, steps, r);
    if steps[r].at < steps[i].at + 1000 * cfg.refreshSecs {
      RevokedAtOnce(cfg, steps, i, r);
      GoneForGood(cfg, steps, i, r + 1);
    } else {
      TooLate(cfg, Run(cfg, steps), steps[i], blacklisted, now);
    }
  }

  /** With such lifetimes, no token decodes any more when the index has expired. */
  lemma TooLate(cfg: Config, st: Sessions, s: Step, blacklisted: bool, now: int)
    requires cfg.accessSecs + LEEWAY < cfg.refreshSecs && s.event.Issue? && s.at + 1000 * cfg.refreshSecs <= now
    ensures !Judge(st, TokenOf(cfg, s), blacklisted, now).Accepted?
  {
  }

  /** While the index that listed a session lives, revoking its user deletes the session. */
  lemma RevokedAtOnce(cfg: Config, steps: seq<Step>, i: nat, r: nat)
    requires cfg.Valid() && IssuedThenRevoked(cfg, steps, i, r)
    requires steps[r].at < steps[i].at + 1000 * cfg.refreshSecs
    ensures !Alive(Run(cfg, steps[..r + 1]).live, steps[i].event.session, steps[r].at)
  {
    var run := steps[..r + 1];
    LawfulPrefix(cfg, steps, r + 1);
    assert Init(run) == steps[..r];
    RunTracks(cfg, Init(run), i);
  }

  // --- and the configurations for which it fails ---

  /** Appending a check of an issued token, or a revocation, keeps a run lawful. */
  lemma ExtendLawful(cfg: Config, steps: seq<Step>, s: Step)
    requires Lawful(cfg, steps) && (steps != [] ==> Last(steps).at <= s.at) && !Issues(s)
    requires s.event.Check? ==> s.event.token in Issued(cfg, steps)
    ensures Lawful(cfg, steps + [s]) && Run(cfg, steps + [s]) == Apply(cfg, Run(cfg, steps), s)
    ensures Issued(cfg, steps + [s]) == Issued(cfg, steps)
  {
    assert Init(steps + [s]) == steps;
  }

  /** The session is issued at the start of a second and checked every half second. */
  function Tick(n: nat): int {
    1000 + 500 * n
  }

  function Started(user: User, sid: SessionId): Step {
    Step(Tick(0), Issue(user, sid))
  }

  /** A lawful run that issued one session, has kept it alive for `n` half seconds, and has
      left its index with the expiry it was given at the start. */
  predicate KeptAlive(cfg: Config, user: User, sid: SessionId, n: nat, steps: seq<Step>) {
    && steps != [] && steps[0] == Started(user, sid) && Last(steps).at == Tick(n)
    && Lawful(cfg, steps) && TokenOf(cfg, Started(user, sid)) in Issued(cfg, steps)
    && sid in Run(cfg, steps).live && Run(cfg, steps).live[sid].expiry == Tick(n) + 1000 * cfg.accessSecs
    && user in Run(cfg, steps).index && Run(cfg, steps).index[user].expiry == Tick(0) + 1000 * cfg.refreshSecs
  }

  lemma KeptAliveStart(cfg: Config, user: User, sid: SessionId)
    ensures KeptAlive(cfg, user, sid, 0, [Started(user, sid)])
  {
  }

  function CheckAt(cfg: Config, user: User, sid: SessionId, n: nat): Step {
    Step(Tick(n), Check(TokenOf(cfg, Started(user, sid)), false))
  }

  lemma KeptAliveStep(cfg: Config, user: User, sid: SessionId, n: nat, steps: seq<Step>)
    requires cfg.Valid() && n <= 2 * (cfg.accessSecs + LEEWAY) && KeptAlive(cfg, user, sid, n, steps)
    ensures KeptAlive(cfg, user, sid, n + 1, steps + [CheckAt(cfg, user, sid, n + 1)])
  {
    var s := CheckAt(cfg, user, sid, n + 1);
    ExtendLawful(cfg, steps, s);
    assert Judge(Run(cfg, steps), s.event.token, false, s.at).Accepted?;
  }

  lemma {:induction false} KeptAliveUntil(cfg: Config, user: User, sid: SessionId, n: nat) returns (steps: seq<Step>)
    requires cfg.Valid() && n <= 2 * (cfg.accessSecs + LEEWAY) + 1
    ensures KeptAlive(cfg, user, sid, n, steps)
  {
    if n == 0 {
      steps := [Started(user, sid)];
      KeptAliveStart(cfg, user, sid);
    } else {
      steps := KeptAliveUntil(cfg, user, sid, n - 1);
      KeptAliveStep(cfg, user, sid, n - 1, steps);
      steps := steps + [CheckAt(cfg, user, sid, n)];
    }
  }

  /** If the index can expire while a token still decodes, a session kept busy outlives its
      index, and revoking the user leaves it accepted. */
  lemma IndexExpiresFirst(cfg: Config)
    requires cfg.Valid() && cfg.refreshSecs <= cfg.accessSecs + LEEWAY
    ensures !RevocationComplete(cfg)
  {
    var n, user := 2 * cfg.refreshSecs, "user";
    var busy := KeptAliveUntil(cfg, user, "session", n);
    var s := Step(Tick(n), RevokeUser(user));
    ExtendLawful(cfg, busy, s);
    var steps := busy + [s];
    assert IssuedThenRevoked(cfg, steps, 0, |busy|);
    assert Run(cfg, steps).live == Run(cfg, busy).live - {};
    assert Judge(Run(cfg, steps), TokenOf(cfg, steps[0]), false, Tick(n)).Accepted?;
  }

  /** Revocation is complete in every run exactly when the refresh lifetime exceeds the
      access lifetime by more than the leeway. */
  lemma CompleteIffIndexOutlivesToken(cfg: Config)
    requires cfg.Valid()
    ensures RevocationComplete(cfg) <==> cfg.accessSecs + LEEWAY < cfg.refreshSecs
  {
    if cfg.accessSecs + LEEWAY < cfg.refreshSecs {
      forall steps: seq<Step>, i: nat, r: nat, blacklisted, now |
        IssuedThenRevoked(cfg, steps, i, r) && Last(steps).at <= now
        ensures !Judge(Run(cfg, steps), TokenOf(cfg, steps[i]), blacklisted, now).Accepted?
      {
        RevokedIsRejected(cfg, steps, i, r, blacklisted, now);
      }
    } else {
      IndexExpiresFirst(cfg);
    }
  }

  // --- listing ---

  /** At any time after any run, every live access session is listed in its user's live
      index, so listing and revoking miss none. */
  ghost predicate AlwaysListed(cfg: Config) {
    forall steps: seq<Step>, i: nat, now ::
      Lawful(cfg, steps) && i < |steps| && steps[i].event.Issue? && Last(steps).at <= now ==>
        Listed(Run(cfg, steps), steps[i].event.user, steps[i].event.session, now)
  }

  predicate Listed(st: Sessions, user: User, sid: SessionId, now: int) {
    Alive(st.live, sid, now) ==> sid in Members(st.index, user, now)
  }

  /** A session renewed at its token's last use outlives an index without room for that. */
  lemma RenewedPastIndex(cfg: Config)
    requires cfg.Valid() && cfg.refreshSecs <= 2 * cfg.accessSecs + LEEWAY
    ensures !AlwaysListed(cfg)
  {
    var n := 2 * (cfg.accessSecs + LEEWAY) + 1;
    var steps := KeptAliveUntil(cfg, "user", "session", n);
    var now := Tick(n) + 1000 * cfg.accessSecs - 500;
    assert !Listed(Run(cfg, steps), steps[0].event.user, steps[0].event.session, now);
  }

  /** Every live access session is listed in every run exactly when the refresh lifetime
      leaves room for a renewal at the token's last use. */
  lemma LiveSessionsAreIndexed(cfg: Config)
    requires cfg.Valid()
    ensures AlwaysListed(cfg) <==> 2 * cfg.accessSecs + LEEWAY < cfg.refreshSecs
  {
    if 2 * cfg.accessSecs + LEEWAY < cfg.refreshSecs {
      forall steps: seq<Step>, i: nat, now |
        Lawful(cfg, steps) && i < |steps| && steps[i].event.Issue? && Last(steps).at <= now
        ensures Listed(Run(cfg, steps), steps[i].event.user, steps[i].event.session, now)
      {
        RunTracks(cfg, steps, i);
      }
    } else {
      RenewedPastIndex(cfg);
    }
  }

  /** WebSocket tokens are outside the index: revoking the user does not reach them, for
      any configuration, until their own session runs out. */
  lemma SocketTokenSurvivesRevocation(cfg: Config, user: User, sid: SessionId, now: int)
    requires 1000 <= now < 1000 * (1 + SOCKET_SESSION_SECS)
    ensures var steps := [Step(1000, IssueSocket(user, sid)), Step(1000, RevokeUser(user))];
            Lawful(cfg, steps) && Judge(Run(cfg, steps), TokenOf(cfg, steps[0]), false, now).Accepted?
  {
    var steps := [Step(1000, IssueSocket(user, sid)), Step(1000, RevokeUser(user))];
    assert steps[..1][..0] == [] && steps[..2] == steps && steps[..2][..1] == steps[..1];
    assert Run(cfg, []) == EMPTY;
    var st := Run(cfg, steps[..1]);
    assert st == StoreSocketSession(EMPTY, sid, user, 1000);
    assert Run(cfg, steps).live == st.live - {};
  }
}
