/** Sessions and refresh-token records kept in Redis, each with a per-user index set.

The clock is in milliseconds and Redis lifetimes are exact to it; claims and record
timestamps are truncated to whole seconds. Token signatures, the blacklist and key rotation
are outside the model: a token is its claims, and the blacklist answer is an input. */
module TokenStore {
  import opened Expiring

  type User = string
  type SessionId = string
  type Hash = string

  const LEEWAY: nat := 30
  const SOCKET_TOKEN_SECS: nat := 60
  const SOCKET_SESSION_SECS: nat := 65

  /** Redis refuses a zero time to live, so both lifetimes are positive. */
  datatype Config = Config(accessSecs: nat, refreshSecs: nat) {
    predicate Valid() {
      accessSecs >= 1 && refreshSecs >= 1
    }
  }

  datatype Token = Token(user: User, session: SessionId, exp: int)

  datatype Session = Session(user: User, createdAt: int, lastActivity: int)

  datatype Sessions = Sessions(live: map<SessionId, Slot<Session>>, index: map<User, Slot<set<SessionId>>>)

  datatype Record = Record(user: User, createdAt: int)

  datatype Refreshes = Refreshes(records: map<Hash, Slot<Record>>, index: map<User, Slot<set<Hash>>>)

  datatype Found = Found(hash: Hash, record: Record)

  datatype Verdict = Blacklisted | Expired | SessionNotFound | Accepted

  // --- sessions ---

  function StoreSession(cfg: Config, st: Sessions, sid: SessionId, user: User, now: int): Sessions {
    Sessions(st.live[sid := Slot(Session(user, Stamp(now), Stamp(now)), now + 1000 * cfg.accessSecs)],
             AddMember(st.index, user, sid, now, 1000 * cfg.refreshSecs))
  }

  /** The WebSocket handshake session: short-lived, and not put in the user's index. */
  function StoreSocketSession(st: Sessions, sid: SessionId, user: User, now: int): Sessions {
    st.(live := st.live[sid := Slot(Session(user, Stamp(now), Stamp(now)), now + 1000 * SOCKET_SESSION_SECS)])
  }

  /** A token decodes until the second of its expiry claim plus the leeway is over. */
  predicate Decodes(t: Token, now: int) {
    Stamp(now) <= t.exp + LEEWAY
  }

  function Judge(st: Sessions, t: Token, blacklisted: bool, now: int): Verdict {
    if Decodes(t, now) && blacklisted then Blacklisted
    else if !Decodes(t, now) then Expired
    else if !Alive(st.live, t.session, now) then SessionNotFound
    else Accepted
  }

  function Touch(cfg: Config, st: Sessions, sid: SessionId, now: int): Sessions {
    if Alive(st.live, sid, now)
    then st.(live := st.live[sid := Slot(st.live[sid].value.(lastActivity := Stamp(now)), now + 1000 * cfg.accessSecs)])
    else st
  }

  function Validate(cfg: Config, st: Sessions, t: Token, blacklisted: bool, now: int): Sessions {
    if Judge(st, t, blacklisted, now).Accepted? then Touch(cfg, st, t.session, now) else st
  }

  function RevokeSession(st: Sessions, sid: SessionId): Sessions {
    st.(live := st.live - {sid})
  }

  function RevokeSessionsOf(st: Sessions, user: User, now: int): Sessions {
    Sessions(st.live - Members(st.index, user, now), st.index - {user})
  }

  // --- refresh-token records ---

  function Generate(cfg: Config, st: Refreshes, user: User, hash: Hash, now: int): Refreshes {
    Refreshes(st.records[hash := Slot(Record(user, Stamp(now)), now + 1000 * cfg.refreshSecs)],
              AddMember(st.index, user, hash, now, 1000 * cfg.refreshSecs))
  }

  function Invalidate(st: Refreshes, hash: Hash, user: User): Refreshes {
    Refreshes(st.records - {hash}, RemoveMember(st.index, user, hash))
  }

  function RevokeAll(st: Refreshes, user: User, now: int): Refreshes {
    Refreshes(st.records - Members(st.index, user, now), st.index - {user})
  }

  /** The members of the user's index whose record is still there. */
  function ActiveHashes(st: Refreshes, user: User, now: int): set<Hash> {
    set h | h in Members(st.index, user, now) && Alive(st.records, h, now)
  }

  /** Listing prunes the members whose record has expired. */
  function Prune(st: Refreshes, user: User, now: int): Refreshes {
    if Alive(st.index, user, now)
    then st.(index := st.index[user := st.index[user].(value := ActiveHashes(st, user, now))])
    else st
  }

  class JwtService {
    const cfg: Config
    var live: map<SessionId, Slot<Session>>
    var sessionIndex: map<User, Slot<set<SessionId>>>
    var records: map<Hash, Slot<Record>>
    var recordIndex: map<User, Slot<set<Hash>>>

    ghost function SessionView(): Sessions
      reads this
    {
      Sessions(live, sessionIndex)
    }

    ghost function RefreshView(): Refreshes
      reads this
    {
      Refreshes(records, recordIndex)
    }

    constructor (cfg: Config)
      ensures this.cfg == cfg && SessionView() == Sessions(map[], map[]) && RefreshView() == Refreshes(map[], map[])
    {
      this.cfg := cfg;
      live, sessionIndex, records, recordIndex := map[], map[], map[], map[];
    }

    /** `sid` is a fresh random identifier. */
    method GenerateAccessToken(user: User, sid: SessionId, now: int) returns (t: Token)
      modifies this`live, this`sessionIndex
      ensures t == Token(user, sid, Stamp(now) + cfg.accessSecs)
      ensures SessionView() == StoreSession(cfg, old(SessionView()), sid, user, now)
    {
      live := live[sid := Slot(Session(user, Stamp(now), Stamp(now)), now + 1000 * cfg.accessSecs)];
      var present := if user in sessionIndex && now < sessionIndex[user].expiry then sessionIndex[user].value else {};
      sessionIndex := sessionIndex[user := Slot(present + {sid}, now + 1000 * cfg.refreshSecs)];
      t := Token(user, sid, Stamp(now) + cfg.accessSecs);
    }

    method GenerateSocketToken(user: User, sid: SessionId, now: int) returns (t: Token)
      modifies this`live
      ensures t == Token(user, sid, Stamp(now) + SOCKET_TOKEN_SECS)
      ensures SessionView() == StoreSocketSession(old(SessionView()), sid, user, now)
    {
      live := live[sid := Slot(Session(user, Stamp(now), Stamp(now)), now + 1000 * SOCKET_SESSION_SECS)];
      t := Token(user, sid, Stamp(now) + SOCKET_TOKEN_SECS);
    }

    method ValidateToken(t: Token, blacklisted: bool, now: int) returns (v: Verdict)
      modifies this`live
      ensures v == Judge(old(SessionView()), t, blacklisted, now)
      ensures SessionView() == Validate(cfg, old(SessionView()), t, blacklisted, now)
    {
      var decodes := Stamp(now) <= t.exp + LEEWAY;
      if decodes && blacklisted {
        return Blacklisted;
      }
      if !decodes {
        return Expired;
      }
      if t.session !in live || live[t.session].expiry <= now {
        return SessionNotFound;
      }
      var session := live[t.session].value;
      live := live[t.session := Slot(session.(lastActivity := Stamp(now)), now + 1000 * cfg.accessSecs)];
      return Accepted;
    }

    method RevokeOne(sid: SessionId)
      modifies this`live
      ensures SessionView() == RevokeSession(old(SessionView()), sid)
    {
      live := live - {sid};
    }

    /** Deletes every indexed session and every indexed refresh record of the user, and
        both index sets. The count is the larger of the two. */
    method RevokeUserSessions(user: User, now: int) returns (count: nat)
      modifies this
      ensures SessionView() == RevokeSessionsOf(old(SessionView()), user, now)
      ensures RefreshView() == RevokeAll(old(RefreshView()), user, now)
      ensures var s := |Members(old(sessionIndex), user, now)|;
              var r := |Members(old(recordIndex), user, now)|;
              count == if s < r then r else s
    {
      var ids := if user in sessionIndex && now < sessionIndex[user].expiry then sessionIndex[user].value else {};
      var pending := ids;
      while pending != {}
        invariant pending <= ids
        invariant live == old(live) - (ids - pending)
        invariant sessionIndex == old(sessionIndex) && RefreshView() == old(RefreshView())
        decreases pending
      {
        var sid :| sid in pending;
        live := live - {sid};
        pending := pending - {sid};
      }
      assert ids - {} == ids;
      sessionIndex := sessionIndex - {user};
      var refreshCount := RevokeAllRefreshTokens(user, now);
      count := if |ids| < refreshCount then refreshCount else |ids|;
    }

    method GenerateRefreshToken(user: User, hash: Hash, now: int)
      modifies this`records, this`recordIndex
      ensures RefreshView() == Generate(cfg, old(RefreshView()), user, hash, now)
    {
      records := records[hash := Slot(Record(user, Stamp(now)), now + 1000 * cfg.refreshSecs)];
      var present := if user in recordIndex && now < recordIndex[user].expiry then recordIndex[user].value else {};
      recordIndex := recordIndex[user := Slot(present + {hash}, now + 1000 * cfg.refreshSecs)];
    }

    method InvalidateRefreshToken(hash: Hash, user: User)
      modifies this`records, this`recordIndex
      ensures RefreshView() == Invalidate(old(RefreshView()), hash, user)
    {
      records := records - {hash};
      if user in recordIndex {
        var slot := recordIndex[user];
        recordIndex := recordIndex[user := slot.(value := slot.value - {hash})];
      }
    }

    method RevokeAllRefreshTokens(user: User, now: int) returns (count: nat)
      modifies this`records, this`recordIndex
      ensures RefreshView() == RevokeAll(old(RefreshView()), user, now)
      ensures count == |Members(old(recordIndex), user, now)|
    {
      var hashes := if user in recordIndex && now < recordIndex[user].expiry then recordIndex[user].value else {};
      var pending := hashes;
      while pending != {}
        invariant pending <= hashes
        invariant records == old(records) - (hashes - pending) && recordIndex == old(recordIndex)
        decreases pending
      {
        var hash :| hash in pending;
        records := records - {hash};
        pending := pending - {hash};
      }
      assert hashes - {} == hashes;
      recordIndex := recordIndex - {user};
      count := |hashes|;
    }

    /** Lists the records behind the user's index, one each, and prunes the members whose
        record has expired. */
    method GetActiveRefreshTokens(user: User, now: int) returns (found: seq<Found>)
      modifies this`recordIndex
      ensures forall i, j :: 0 <= i < j < |found| ==> found[i].hash != found[j].hash
      ensures (set f | f in found :: f.hash) == ActiveHashes(old(RefreshView()), user, now)
      ensures forall f :: f in found ==> f.hash in records && f.record == records[f.hash].value
      ensures RefreshView() == Prune(old(RefreshView()), user, now)
    {
      var alive := user in recordIndex && now < recordIndex[user].expiry;
      var members := if alive then recordIndex[user].value else {};
      var pending, stale := members, {};
      found := [];
      ghost var listed := {};
      while pending != {}
        invariant pending <= members && stale <= members
        invariant listed == (set f | f in found :: f.hash)
        invariant listed == set h | h in members - pending && Alive(records, h, now)
        invariant stale == set h | h in members - pending && !Alive(records, h, now)
        invariant forall f :: f in found ==> f.hash in records && f.record == records[f.hash].value
        invariant forall i, j :: 0 <= i < j < |found| ==> found[i].hash != found[j].hash
        decreases pending
      {
        var hash :| hash in pending;
        if hash in records && now < records[hash].expiry {
          assert hash !in listed;
          found := found + [Found(hash, records[hash].value)];
          listed := listed + {hash};
        } else {
          stale := stale + {hash};
        }
        pending := pending - {hash};
      }
      if alive {
        assert members - stale == ActiveHashes(old(RefreshView()), user, now);
        recordIndex := recordIndex[user := recordIndex[user].(value := members - stale)];
      }
    }
  }
}
