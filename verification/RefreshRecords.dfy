/** Refresh-token records and the per-user set that lists them, over whole runs. */
module RefreshRecords {
  import opened Expiring
  import TS = TokenStore

  datatype Event =
    | Generate(user: TS.User, hash: TS.Hash)
    | Invalidate(hash: TS.Hash, user: TS.User)
    | RevokeAll(user: TS.User)
    | ListActive(user: TS.User)

  datatype Step = Step(at: int, event: Event)

  const EMPTY: TS.Refreshes := TS.Refreshes(map[], map[])

  function Apply(cfg: TS.Config, st: TS.Refreshes, s: Step): TS.Refreshes {
    match s.event
    case Generate(u, h) => TS.Generate(cfg, st, u, h, s.at)
    case Invalidate(h, u) => TS.Invalidate(st, h, u)
    case RevokeAll(u) => TS.RevokeAll(st, u, s.at)
    case ListActive(u) => TS.Prune(st, u, s.at)
  }

  function Init(steps: seq<Step>): seq<Step>
    requires steps != []
  {
    steps[..|steps| - 1]
  }

  function Last(steps: seq<Step>): Step
    requires steps != []
  {
    steps[|steps| - 1]
  }

  function Run(cfg: TS.Config, steps: seq<Step>): TS.Refreshes {
    if steps == [] then EMPTY else Apply(cfg, Run(cfg, Init(steps)), Last(steps))
  }

  /** The generations of a run. */
  function Generated(steps: seq<Step>): set<Event> {
    if steps == [] then {}
    else Generated(Init(steps)) + if Last(steps).event.Generate? then {Last(steps).event} else {}
  }

  predicate NewHash(generated: set<Event>, h: TS.Hash) {
    forall e :: e in generated ==> e.Generate? && e.hash != h
  }

  /** The clock does not run backwards and no two generated tokens hash alike. */
  predicate Lawful(steps: seq<Step>) {
    steps == [] ||
    var init, last := Init(steps), Last(steps);
    && Lawful(init)
    && (init != [] ==> Last(init).at <= last.at)
    && (last.event.Generate? ==> NewHash(Generated(init), last.event.hash))
  }

  lemma {:induction false} LawfulPrefix(steps: seq<Step>, n: nat)
    requires Lawful(steps) && n <= |steps|
    ensures Lawful(steps[..n])
  {
    if n < |steps| {
      LawfulPrefix(Init(steps), n);
      assert Init(steps)[..n] == steps[..n];
    } else {
      assert steps[..n] == steps;
    }
  }

  lemma {:induction false} IsGenerated(steps: seq<Step>, i: nat)
    requires i < |steps| && steps[i].event.Generate?
    ensures steps[i].event in Generated(steps)
  {
    if i < |steps| - 1 {
      IsGenerated(Init(steps), i);
    }
  }

  /** A hash was generated for one user only. */
  lemma {:induction false} OneOwner(steps: seq<Step>, h: TS.Hash, u: TS.User, u': TS.User)
    requires Lawful(steps) && Generate(u, h) in Generated(steps) && Generate(u', h) in Generated(steps)
    ensures u == u'
  {
    var init := Init(steps);
    if Generate(u, h) in Generated(init) && Generate(u', h) in Generated(init) {
      OneOwner(init, h, u, u');
    }
  }

  /** A live record is in its user's set, which expires no earlier than the record. */
  ghost predicate Indexed(cfg: TS.Config, st: TS.Refreshes, h: TS.Hash, now: int) {
    Alive(st.records, h, now) ==>
      var user := st.records[h].value.user;
      && user in st.index && h in st.index[user].value
      && st.records[h].expiry <= st.index[user].expiry
      && st.records[h].expiry <= now + 1000 * cfg.refreshSecs
  }

  lemma IndexedStep(cfg: TS.Config, st: TS.Refreshes, h: TS.Hash, s: Step)
    requires Indexed(cfg, st, h, s.at)
    ensures Indexed(cfg, Apply(cfg, st, s), h, s.at)
  {
  }

  lemma {:induction false} LiveRecordsIndexed(cfg: TS.Config, steps: seq<Step>, h: TS.Hash, now: int)
    requires Lawful(steps) && (steps != [] ==> Last(steps).at <= now)
    ensures Indexed(cfg, Run(cfg, steps), h, now)
  {
    if steps != [] {
      LiveRecordsIndexed(cfg, Init(steps), h, Last(steps).at);
      IndexedStep(cfg, Run(cfg, Init(steps)), h, Last(steps));
    }
  }

  /** Records and set members only come from generation. */
  lemma {:induction false} Provenance(cfg: TS.Config, steps: seq<Step>, user: TS.User, h: TS.Hash)
    ensures var st := Run(cfg, steps);
            && (h in st.records && st.records[h].value.user == user ==> Generate(user, h) in Generated(steps))
            && (user in st.index && h in st.index[user].value ==> Generate(user, h) in Generated(steps))
  {
    if steps != [] {
      Provenance(cfg, Init(steps), user, h);
    }
  }

  /** Listing returns exactly the user's live records, in every reachable state. */
  lemma ListingIsExact(cfg: TS.Config, steps: seq<Step>, user: TS.User, now: int)
    requires Lawful(steps) && (steps != [] ==> Last(steps).at <= now)
    ensures var st := Run(cfg, steps);
            TS.ActiveHashes(st, user, now) == set h | h in st.records && Alive(st.records, h, now) && st.records[h].value.user == user
  {
    var st := Run(cfg, steps);
    forall h | h in st.records && Alive(st.records, h, now)
      ensures h in Members(st.index, user, now) <==> st.records[h].value.user == user
    {
      var owner := st.records[h].value.user;
      LiveRecordsIndexed(cfg, steps, h, now);
      Provenance(cfg, steps, owner, h);
      if h in Members(st.index, user, now) {
        Provenance(cfg, steps, user, h);
        OneOwner(steps, h, owner, user);
      }
    }
  }

  /** Revoking everything leaves the user without a live record. */
  lemma RevokeAllLeavesNone(cfg: TS.Config, steps: seq<Step>, user: TS.User, now: int, h: TS.Hash, later: int)
    requires Lawful(steps) && (steps != [] ==> Last(steps).at <= now) && now <= later
    ensures var st := TS.RevokeAll(Run(cfg, steps), user, now);
            Alive(st.records, h, later) ==> st.records[h].value.user != user
  {
    LiveRecordsIndexed(cfg, steps, h, now);
  }

  lemma GoneStep(cfg: TS.Config, st: TS.Refreshes, s: Step, h: TS.Hash, before: int)
    requires !Alive(st.records, h, before) && before <= s.at && !(s.event.Generate? && s.event.hash == h)
    ensures !Alive(Apply(cfg, st, s).records, h, s.at)
  {
  }

  /** A record that is gone after its token was generated is never found again. */
  lemma {:induction false} GoneForGood(cfg: TS.Config, steps: seq<Step>, i: nat, m: nat)
    requires Lawful(steps) && i < m <= |steps| && steps[i].event.Generate?
    requires !Alive(Run(cfg, steps[..m]).records, steps[i].event.hash, steps[m - 1].at)
    ensures !Alive(Run(cfg, steps).records, steps[i].event.hash, Last(steps).at)
  {
    if m == |steps| {
      assert steps[..m] == steps;
    } else {
      var init := Init(steps);
      assert init[..m] == steps[..m];
      GoneForGood(cfg, init, i, m);
      IsGenerated(init, i);
      GoneStep(cfg, Run(cfg, init), Last(steps), steps[i].event.hash, Last(init).at);
    }
  }

  lemma OwnerIsGenerator(cfg: TS.Config, steps: seq<Step>, i: nat)
    requires Lawful(steps) && i < |steps| && steps[i].event.Generate?
    ensures var st, g := Run(cfg, steps), steps[i].event;
            g.hash in st.records ==> st.records[g.hash].value.user == g.user
  {
    var st, g := Run(cfg, steps), steps[i].event;
    if g.hash in st.records {
      var owner := st.records[g.hash].value.user;
      Provenance(cfg, steps, owner, g.hash);
      IsGenerated(steps, i);
      OneOwner(steps, g.hash, owner, g.user);
    }
  }

  lemma RetiredAtOnce(cfg: TS.Config, steps: seq<Step>, i: nat)
    requires Lawful(steps) && i < |steps| - 1 && steps[i].event.Generate?
    requires Retires(Last(steps).event, steps[i].event)
    ensures !Alive(Run(cfg, steps).records, steps[i].event.hash, Last(steps).at)
  {
    if Last(steps).event.RevokeAll? {
      var init, at, g := Init(steps), Last(steps).at, steps[i].event;
      RevokeAllLeavesNone(cfg, init, g.user, at, g.hash, at);
      OwnerIsGenerator(cfg, init, i);
    }
  }

  /** `e` rotates away or revokes the token that `g` generated. */
  predicate Retires(e: Event, g: Event)
    requires g.Generate?
  {
    (e.Invalidate? && e.hash == g.hash) || e == RevokeAll(g.user)
  }

  /** A rotated-away or revoked token is dead for the rest of every run. */
  lemma RetiredTokenStaysDead(cfg: TS.Config, steps: seq<Step>, i: nat, j: nat, now: int)
    requires Lawful(steps) && i < j < |steps| && Last(steps).at <= now && steps[i].event.Generate?
    requires Retires(steps[j].event, steps[i].event)
    ensures !Alive(Run(cfg, steps).records, steps[i].event.hash, now)
  {
    LawfulPrefix(steps, j + 1);
    RetiredAtOnce(cfg, steps[..j + 1], i);
    GoneForGood(cfg, steps, i, j + 1);
  }

  /** No step after `i` rotates away or revokes the token that step `i` generated. */
  predicate NeverRetired(steps: seq<Step>, i: nat)
    requires i < |steps| && steps[i].event.Generate?
  {
    forall j :: i < j < |steps| ==> !Retires(steps[j].event, steps[i].event)
  }

  lemma RecordStep(cfg: TS.Config, st: TS.Refreshes, s: Step, g: Event)
    requires g.Generate? && g.hash in st.records && !Retires(s.event, g)
    requires s.event.Generate? ==> s.event.hash != g.hash
    requires s.event.RevokeAll? ==> g.hash !in Members(st.index, s.event.user, s.at)
    ensures var st' := Apply(cfg, st, s);
            g.hash in st'.records && st'.records[g.hash] == st.records[g.hash]
  {
  }

  /** Until it is retired, a generated record stays as it was stored. */
  lemma {:induction false} RecordKept(cfg: TS.Config, steps: seq<Step>, i: nat)
    requires Lawful(steps) && i < |steps| && steps[i].event.Generate? && NeverRetired(steps, i)
    ensures var st, g, at := Run(cfg, steps), steps[i].event, steps[i].at;
            g.hash in st.records && st.records[g.hash] == Slot(TS.Record(g.user, Stamp(at)), at + 1000 * cfg.refreshSecs)
  {
    if i < |steps| - 1 {
      var init, s, g := Init(steps), Last(steps), steps[i].event;
      assert !Retires(steps[|steps| - 1].event, g);
      RecordKept(cfg, init, i);
      IsGenerated(init, i);
      if s.event.RevokeAll? && g.hash in Members(Run(cfg, init).index, s.event.user, s.at) {
        Provenance(cfg, init, s.event.user, g.hash);
        OneOwner(init, g.hash, g.user, s.event.user);
      }
      RecordStep(cfg, Run(cfg, init), s, g);
    }
  }

  /** In every run, a generated token's record is found exactly until the refresh lifetime is
      over or the token is rotated away or revoked. */
  lemma RecordFoundIff(cfg: TS.Config, steps: seq<Step>, i: nat, now: int)
    requires Lawful(steps) && i < |steps| && steps[i].event.Generate? && Last(steps).at <= now
    ensures Alive(Run(cfg, steps).records, steps[i].event.hash, now) <==>
            now < steps[i].at + 1000 * cfg.refreshSecs && NeverRetired(steps, i)
  {
    if NeverRetired(steps, i) {
      RecordKept(cfg, steps, i);
    } else {
      var j :| i < j < |steps| && Retires(steps[j].event, steps[i].event);
      RetiredTokenStaysDead(cfg, steps, i, j, now);
    }
  }
}
