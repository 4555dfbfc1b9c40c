/** Whole runs of the response cache against the origin it stands in front of.

A run is any sequence of cache fills (a read-through miss or a background refresh
storing what it computed), refresh-lock attempts and origin writes that invalidate
tags. Reads change nothing, so they are quantified over in the theorems instead.
 */
module CacheCoherence {
  import opened Expiring
  import opened ResponseCache

  /** Which policy and which tags the call sites use for each key. */
  datatype Catalog = Catalog(policyOf: string -> Policy, tagsOf: string -> seq<string>)

  datatype Event =
    | Fill(key: string, sample: string)
    | TryRefresh(key: string)
    | Write(origin: map<string, string>, tags: seq<string>)

  datatype Step = Step(at: int, event: Event)

  datatype World = World(store: Store, origin: map<string, string>)

  ghost function Apply(cat: Catalog, w: World, s: Step): World {
    match s.event
    case Fill(k, v) => w.(store := Put(w.store, k, v, cat.policyOf(k), cat.tagsOf(k), s.at))
    case TryRefresh(k) => w.(store := TryLock(w.store, k, cat.policyOf(k), s.at))
    case Write(o, tags) => World(DropTags(w.store, tags, s.at), o)
  }

  ghost function Run(cat: Catalog, origin: map<string, string>, steps: seq<Step>): World {
    if steps == [] then World(EMPTY, origin)
    else Apply(cat, Run(cat, origin, steps[..|steps| - 1]), steps[|steps| - 1])
  }

  predicate Current(origin: map<string, string>, key: string, value: string) {
    key in origin && origin[key] == value
  }

  predicate Changed(before: map<string, string>, after: map<string, string>, key: string) {
    (key in before) != (key in after) || (key in before && before[key] != after[key])
  }

  /** A fill stores a value no write has overtaken since it was computed, and a write
      invalidates some tag of every key whose value it changes. */
  ghost predicate Allowed(cat: Catalog, w: World, s: Step) {
    match s.event
    case Fill(k, v) => Current(w.origin, k, v)
    case TryRefresh(_) => true
    case Write(o, tags) =>
      forall k :: Changed(w.origin, o, k) ==> exists t :: t in tags && t in cat.tagsOf(k)
  }

  predicate Chronological(steps: seq<Step>) {
    forall i, j :: 0 <= i < j < |steps| ==> steps[i].at <= steps[j].at
  }

  ghost predicate Disciplined(cat: Catalog, origin: map<string, string>, steps: seq<Step>) {
    steps == [] ||
    var init, last := steps[..|steps| - 1], steps[|steps| - 1];
    && Disciplined(cat, origin, init)
    && (init != [] ==> init[|init| - 1].at <= last.at)
    && Allowed(cat, Run(cat, origin, init), last)
  }

  /** Keys that share a tag have entry lifetimes within a factor of four. */
  ghost predicate Compatible(cat: Catalog) {
    forall k, k', t :: t in cat.tagsOf(k) && t in cat.tagsOf(k') ==>
      cat.policyOf(k).TtlSecs() <= 4 * cat.policyOf(k').TtlSecs()
  }

  /** Every hit, fresh or stale, at any moment after any disciplined run, is the origin's
      current value. */
  ghost predicate Coherent(cat: Catalog) {
    forall origin, steps: seq<Step>, key, now ::
      Disciplined(cat, origin, steps) && (steps != [] ==> steps[|steps| - 1].at <= now) ==>
        HitIsCurrent(Run(cat, origin, steps), key, cat.policyOf(key), now)
  }

  predicate HitIsCurrent(w: World, key: string, policy: Policy, now: int) {
    var hit := Lookup(w.store, key, policy, now);
    hit.Hit? ==> Current(w.origin, key, hit.value)
  }

  // --- the invariant ---

  /** A live entry holds the current value and sits in each of its tag sets, none of
      which expires before it. */
  ghost predicate EntryGuarded(cat: Catalog, w: World, key: string, now: int) {
    Alive(w.store.entries, key, now) ==>
      var e := w.store.entries[key];
      && Current(w.origin, key, e.value.payload)
      && e.expiry <= now + 1000 * cat.policyOf(key).TtlSecs()
      && forall t :: t in cat.tagsOf(key) ==> TagHolds(w.store, t, key, e.expiry)
  }

  predicate TagHolds(st: Store, tag: string, key: string, expiry: int) {
    tag in st.tags && key in st.tags[tag].value && expiry <= st.tags[tag].expiry
  }

  ghost predicate Guarded(cat: Catalog, w: World, now: int) {
    forall key :: EntryGuarded(cat, w, key, now)
  }

  lemma FillKeepsGuarded(cat: Catalog, w: World, s: Step, key: string)
    requires Compatible(cat) && s.event.Fill? && Allowed(cat, w, s) && Guarded(cat, w, s.at)
    ensures EntryGuarded(cat, Apply(cat, w, s), key, s.at)
  {
    var k, now := s.event.key, s.at;
    var ttl := cat.policyOf(k).TtlSecs();
    var w' := Apply(cat, w, s);
    TagAllEffect(w.store.tags, cat.tagsOf(k), k, now, 4000 * ttl);
    if key != k && Alive(w'.store.entries, key, now) {
      assert EntryGuarded(cat, w, key, now);
      var e := w.store.entries[key];
      forall t | t in cat.tagsOf(key)
        ensures TagHolds(w'.store, t, key, e.expiry)
      {
        assert TagHolds(w.store, t, key, e.expiry);
        if t in cat.tagsOf(k) {
          assert Alive(w.store.tags, t, now);
        }
      }
    }
  }

  lemma WriteKeepsGuarded(cat: Catalog, w: World, s: Step, key: string)
    requires s.event.Write? && Allowed(cat, w, s) && Guarded(cat, w, s.at)
    ensures EntryGuarded(cat, Apply(cat, w, s), key, s.at)
  {
    var o, tags, now := s.event.origin, s.event.tags, s.at;
    var w' := Apply(cat, w, s);
    DropTagsEffect(w.store, tags, now);
    if Alive(w'.store.entries, key, now) {
      assert EntryGuarded(cat, w, key, now);
      var e := w.store.entries[key];
      forall t | t in cat.tagsOf(key)
        ensures t !in tags && TagHolds(w'.store, t, key, e.expiry)
      {
        assert TagHolds(w.store, t, key, e.expiry);
        assert key in Members(w.store.tags, t, now);
      }
      assert !Changed(w.origin, o, key);
    }
  }

  lemma StepKeepsGuarded(cat: Catalog, w: World, s: Step)
    requires Compatible(cat) && Allowed(cat, w, s) && Guarded(cat, w, s.at)
    ensures Guarded(cat, Apply(cat, w, s), s.at)
  {
    forall key
      ensures EntryGuarded(cat, Apply(cat, w, s), key, s.at)
    {
      match s.event
      case Fill(_, _) => FillKeepsGuarded(cat, w, s, key);
      case TryRefresh(k) => assert EntryGuarded(cat, w, key, s.at);
      case Write(_, _) => WriteKeepsGuarded(cat, w, s, key);
    }
  }

  lemma GuardedLater(cat: Catalog, w: World, now: int, later: int)
    requires Guarded(cat, w, now) && now <= later
    ensures Guarded(cat, w, later)
  {
    forall key
      ensures EntryGuarded(cat, w, key, later)
    {
      assert EntryGuarded(cat, w, key, now);
    }
  }

  lemma {:induction false} RunIsGuarded(cat: Catalog, origin: map<string, string>, steps: seq<Step>, now: int)
    requires Compatible(cat) && Disciplined(cat, origin, steps)
    requires steps != [] ==> steps[|steps| - 1].at <= now
    ensures Guarded(cat, Run(cat, origin, steps), now)
  {
    if steps != [] {
      var init, last := steps[..|steps| - 1], steps[|steps| - 1];
      RunIsGuarded(cat, origin, init, last.at);
      StepKeepsGuarded(cat, Run(cat, origin, init), last);
      GuardedLater(cat, Run(cat, origin, steps), last.at, now);
    }
  }

  // --- the theorem, in both directions ---

  lemma ExtendDisciplined(cat: Catalog, origin: map<string, string>, steps: seq<Step>, s: Step)
    requires Disciplined(cat, origin, steps) && Allowed(cat, Run(cat, origin, steps), s)
    requires steps != [] ==> steps[|steps| - 1].at <= s.at
    ensures Disciplined(cat, origin, steps + [s])
    ensures Run(cat, origin, steps + [s]) == Apply(cat, Run(cat, origin, steps), s)
  {
  }

  lemma FillIsRecorded(cat: Catalog, w: World, s: Step)
    requires s.event.Fill?
    ensures var w', k := Apply(cat, w, s), s.event.key;
            var ttl := cat.policyOf(k).TtlSecs();
            && w'.origin == w.origin
            && w'.store.entries == w.store.entries[k := Slot(Envelope(Stamp(s.at), s.event.sample), s.at + 1000 * ttl)]
            && (forall t :: t in cat.tagsOf(k) ==> t in w'.store.tags && w'.store.tags[t].expiry == s.at + 4000 * ttl)
  {
    var k := s.event.key;
    TagAllEffect(w.store.tags, cat.tagsOf(k), k, s.at, 4000 * cat.policyOf(k).TtlSecs());
  }

  /** Filling the short-lived of two keys that share a tag cuts the tag set's life short. */
  lemma ShortenedTag(cat: Catalog, origin: map<string, string>, k: string, k': string, t: string)
    requires k in origin && k' in origin && k != k' && t in cat.tagsOf(k')
    ensures var steps := [] + [Step(0, Fill(k, origin[k]))] + [Step(0, Fill(k', origin[k']))];
            var w := Run(cat, origin, steps);
            && Disciplined(cat, origin, steps) && w.origin == origin
            && k in w.store.entries
            && w.store.entries[k] == Slot(Envelope(0, origin[k]), 1000 * cat.policyOf(k).TtlSecs())
            && t in w.store.tags && w.store.tags[t].expiry == 4000 * cat.policyOf(k').TtlSecs()
  {
    var a, b := Step(0, Fill(k, origin[k])), Step(0, Fill(k', origin[k']));
    ExtendDisciplined(cat, origin, [], a);
    FillIsRecorded(cat, World(EMPTY, origin), a);
    ExtendDisciplined(cat, origin, [] + [a], b);
    FillIsRecorded(cat, Run(cat, origin, [] + [a]), b);
  }

  /** Two keys sharing a tag with lifetimes more than a factor of four apart: after the
      short-lived one was filled, a later write misses the long-lived one. */
  lemma StrandedEntry(cat: Catalog, k: string, k': string, t: string)
    requires t in cat.tagsOf(k) && t in cat.tagsOf(k')
    requires cat.policyOf(k).TtlSecs() > 4 * cat.policyOf(k').TtlSecs()
    ensures !Coherent(cat)
  {
    var origin := map[k := "old", k' := "other"];
    var steps := [] + [Step(0, Fill(k, origin[k]))] + [Step(0, Fill(k', origin[k']))];
    var c := Step(4000 * cat.policyOf(k').TtlSecs(), Write(origin[k := "new"], [t]));
    ShortenedTag(cat, origin, k, k', t);
    assert Allowed(cat, Run(cat, origin, steps), c);
    ExtendDisciplined(cat, origin, steps, c);
    StrandedRead(cat, Run(cat, origin, steps), c, k, t);
  }

  /** A write that comes after the tag set has expired leaves the entry to be served. */
  lemma StrandedRead(cat: Catalog, w: World, s: Step, k: string, t: string)
    requires s.event.Write? && s.event.tags == [t] && !Alive(w.store.tags, t, s.at)
    requires Alive(w.store.entries, k, s.at) && !Current(s.event.origin, k, w.store.entries[k].value.payload)
    ensures !HitIsCurrent(Apply(cat, w, s), k, cat.policyOf(k), s.at)
  {
    DropTagsEffect(w.store, [t], s.at);
  }

  /** The cache is coherent in every disciplined run exactly when tag-sharing keys have
      lifetimes within a factor of four. */
  lemma CoherentIffCompatible(cat: Catalog)
    ensures Coherent(cat) <==> Compatible(cat)
  {
    if Compatible(cat) {
      forall origin, steps: seq<Step>, key, now |
        Disciplined(cat, origin, steps) && (steps != [] ==> steps[|steps| - 1].at <= now)
        ensures HitIsCurrent(Run(cat, origin, steps), key, cat.policyOf(key), now)
      {
        RunIsGuarded(cat, origin, steps, now);
        assert EntryGuarded(cat, Run(cat, origin, steps), key, now);
      }
    } else {
      var k, k', t :| t in cat.tagsOf(k) && t in cat.tagsOf(k') &&
        cat.policyOf(k).TtlSecs() > 4 * cat.policyOf(k').TtlSecs();
      StrandedEntry(cat, k, k', t);
    }
  }

  // --- the discipline on fills ---

  /** Every write of the run invalidates some tag of every key whose value it changes. */
  ghost predicate WritesInvalidate(cat: Catalog, origin: map<string, string>, steps: seq<Step>) {
    forall n :: 0 <= n < |steps| && steps[n].event.Write? ==> Allowed(cat, Run(cat, origin, steps[..n]), steps[n])
  }

  /** At every moment of the run, every hit is the origin's current value. */
  ghost predicate CurrentThroughout(cat: Catalog, origin: map<string, string>, steps: seq<Step>) {
    forall n, key, now :: 0 <= n <= |steps| && (n > 0 ==> steps[n - 1].at <= now) ==>
      HitIsCurrent(Run(cat, origin, steps[..n]), key, cat.policyOf(key), now)
  }

  lemma FillServesItsSample(cat: Catalog, w: World, s: Step)
    requires s.event.Fill?
    ensures var k := s.event.key;
            HitIsCurrent(Apply(cat, w, s), k, cat.policyOf(k), s.at) <==> Allowed(cat, w, s)
  {
  }

  lemma {:induction false} DisciplinedPrefix(cat: Catalog, origin: map<string, string>, steps: seq<Step>, n: nat)
    requires Disciplined(cat, origin, steps) && n <= |steps|
    ensures Disciplined(cat, origin, steps[..n])
  {
    if n < |steps| {
      var init := steps[..|steps| - 1];
      DisciplinedPrefix(cat, origin, init, n);
      assert init[..n] == steps[..n];
    } else {
      assert steps[..n] == steps;
    }
  }

  lemma CurrentImpliesAllowed(cat: Catalog, origin: map<string, string>, steps: seq<Step>, n: nat)
    requires n < |steps| && WritesInvalidate(cat, origin, steps) && CurrentThroughout(cat, origin, steps)
    ensures Allowed(cat, Run(cat, origin, steps[..n]), steps[n])
  {
    var s, w := steps[n], Run(cat, origin, steps[..n]);
    if s.event.Fill? {
      assert steps[..n + 1][..n] == steps[..n];
      assert HitIsCurrent(Run(cat, origin, steps[..n + 1]), s.event.key, cat.policyOf(s.event.key), s.at);
      FillServesItsSample(cat, w, s);
    }
  }

  lemma {:induction false} CurrentImpliesDisciplined(cat: Catalog, origin: map<string, string>, steps: seq<Step>, n: nat)
    requires Chronological(steps) && n <= |steps|
    requires WritesInvalidate(cat, origin, steps) && CurrentThroughout(cat, origin, steps)
    ensures Disciplined(cat, origin, steps[..n])
  {
    if n > 0 {
      CurrentImpliesDisciplined(cat, origin, steps, n - 1);
      CurrentImpliesAllowed(cat, origin, steps, n - 1);
      ExtendDisciplined(cat, origin, steps[..n - 1], steps[n - 1]);
      assert steps[..n] == steps[..n - 1] + [steps[n - 1]];
    }
  }

  /** With compatible lifetimes and invalidating writes, one run serves only current values
      exactly when no write overtakes a value between its computation and its fill. */
  lemma CurrentIffDisciplined(cat: Catalog, origin: map<string, string>, steps: seq<Step>)
    requires Compatible(cat) && Chronological(steps) && WritesInvalidate(cat, origin, steps)
    ensures CurrentThroughout(cat, origin, steps) <==> Disciplined(cat, origin, steps)
  {
    if Disciplined(cat, origin, steps) {
      forall n, key, now | 0 <= n <= |steps| && (n > 0 ==> steps[n - 1].at <= now)
        ensures HitIsCurrent(Run(cat, origin, steps[..n]), key, cat.policyOf(key), now)
      {
        DisciplinedPrefix(cat, origin, steps, n);
        RunIsGuarded(cat, origin, steps[..n], now);
        assert EntryGuarded(cat, Run(cat, origin, steps[..n]), key, now);
      }
    }
    if CurrentThroughout(cat, origin, steps) {
      CurrentImpliesDisciplined(cat, origin, steps, |steps|);
      assert steps[..|steps|] == steps;
    }
  }

  /** Of the shipped policies, any two of the first three may share a tag, and the
      achievement catalogue may share one only with itself. */
  lemma ShippedPolicies(p: Policy, q: Policy)
    requires p in {LEADERBOARD, PLAYER_STATS, TOURNAMENT_LIST} && q in {LEADERBOARD, PLAYER_STATS, TOURNAMENT_LIST}
    ensures p.TtlSecs() <= 4 * q.TtlSecs()
    ensures ACHIEVEMENT_CATALOG.TtlSecs() > 4 * q.TtlSecs()
  {
  }
}
