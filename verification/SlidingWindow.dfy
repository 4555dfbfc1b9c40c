/** The sorted-set limiter against a plain log of attempts. */
module SlidingWindow {
  import opened Expiring
  import opened RateLimit

  datatype Attempt = Attempt(at: nat, key: string)

  predicate Chronological(h: seq<Attempt>) {
    && (forall i :: 0 <= i < |h| ==> h[i].at >= 1)
    && (forall i, j :: 0 <= i < j < |h| ==> h[i].at <= h[j].at)
  }

  /** The limit and window each key is used with. */
  datatype Rules = Rules(limitOf: string -> nat, windowMsOf: string -> nat)

  function Run(rules: Rules, h: seq<Attempt>): Windows {
    if h == [] then map[]
    else
      var last := h[|h| - 1];
      Check(Run(rules, h[..|h| - 1]), last.key, rules.windowMsOf(last.key), last.at)
  }

  /** Distinct timestamps of attempts on `key` in the interval (now - window, now]. */
  function Logged(h: seq<Attempt>, key: string, windowMs: nat, now: nat): set<nat> {
    set i | 0 <= i < |h| && h[i].key == key && now < h[i].at + windowMs && h[i].at <= now :: h[i].at
  }

  /** The latest attempt on a key; 0 if there has been none. */
  function Latest(h: seq<Attempt>, key: string): nat {
    if h == [] then 0
    else if h[|h| - 1].key == key then h[|h| - 1].at
    else Latest(h[..|h| - 1], key)
  }

  lemma LatestBounds(h: seq<Attempt>, key: string)
    requires Chronological(h)
    ensures forall i :: 0 <= i < |h| && h[i].key == key ==> 1 <= h[i].at <= Latest(h, key)
    ensures h != [] ==> Latest(h, key) <= h[|h| - 1].at
  {
  }

  /** The stored set is the log as of the key's latest attempt. */
  predicate Tracks(w: Windows, h: seq<Attempt>, key: string, windowMs: nat) {
    && (key !in w ==> forall i :: 0 <= i < |h| ==> h[i].key != key)
    && (key in w ==> w[key] == Slot(Logged(h, key, windowMs, Latest(h, key)), Latest(h, key) + windowMs))
  }

  lemma RecordedWasLogged(w: Windows, h: seq<Attempt>, key: string, windowMs: nat)
    requires h != [] && Chronological(h) && h[|h| - 1].key == key && Tracks(w, h[..|h| - 1], key, windowMs)
    ensures Recorded(w, key, windowMs, h[|h| - 1].at) <= Logged(h, key, windowMs, h[|h| - 1].at)
  {
  }

  lemma LoggedIsRecorded(w: Windows, h: seq<Attempt>, key: string, windowMs: nat)
    requires h != [] && Chronological(h) && h[|h| - 1].key == key && Tracks(w, h[..|h| - 1], key, windowMs)
    ensures Logged(h, key, windowMs, h[|h| - 1].at) <= Recorded(w, key, windowMs, h[|h| - 1].at)
  {
    var n := |h| - 1;
    var init, now := h[..n], h[n].at;
    LatestBounds(init, key);
    assert n > 0 ==> init[n - 1].at <= now;
    forall t | t in Logged(h, key, windowMs, now)
      ensures t in Recorded(w, key, windowMs, now)
    {
      var i :| 0 <= i < |h| && h[i].key == key && now < h[i].at + windowMs && h[i].at == t;
      if i < n {
        assert init[i] == h[i];
        assert t in Logged(init, key, windowMs, Latest(init, key));
      }
    }
  }

  /** Recording an attempt turns the log as of the previous attempt into the log as of
      this one; whether the set had expired in between makes no difference. */
  lemma RecordedIsLogged(w: Windows, h: seq<Attempt>, key: string, windowMs: nat)
    requires h != [] && Chronological(h) && h[|h| - 1].key == key && Tracks(w, h[..|h| - 1], key, windowMs)
    ensures Recorded(w, key, windowMs, h[|h| - 1].at) == Logged(h, key, windowMs, h[|h| - 1].at)
  {
    RecordedWasLogged(w, h, key, windowMs);
    LoggedIsRecorded(w, h, key, windowMs);
  }

  /** The sorted set of a key is the log as of the key's latest attempt. */
  lemma {:induction false} WindowIsLog(rules: Rules, h: seq<Attempt>, key: string)
    requires Chronological(h)
    ensures Tracks(Run(rules, h), h, key, rules.windowMsOf(key))
  {
    if h != [] {
      var n := |h| - 1;
      var init := h[..n];
      WindowIsLog(rules, init, key);
      if h[n].key == key {
        RecordedIsLogged(Run(rules, init), h, key, rules.windowMsOf(key));
      } else {
        var at, windowMs := Latest(init, key), rules.windowMsOf(key);
        assert forall i :: 0 <= i < n ==> init[i] == h[i];
        assert Logged(h, key, windowMs, at) == Logged(init, key, windowMs, at);
      }
    }
  }

  // --- what the limiter guarantees ---

  /** The count the limiter sees at attempt `i`. */
  function Count(rules: Rules, h: seq<Attempt>, i: nat): nat
    requires i < |h|
  {
    |Recorded(Run(rules, h[..i]), h[i].key, rules.windowMsOf(h[i].key), h[i].at)|
  }

  predicate Admitted(rules: Rules, h: seq<Attempt>, i: nat)
    requires i < |h|
  {
    Count(rules, h, i) <= rules.limitOf(h[i].key)
  }

  lemma ChronologicalPrefix(h: seq<Attempt>, n: nat)
    requires Chronological(h) && n <= |h|
    ensures Chronological(h[..n])
  {
  }

  /** The count is the number of distinct milliseconds, in the window ending now, with an
      attempt on the key; the key's expiry never changes it. */
  lemma CountIsDistinctAttempts(rules: Rules, h: seq<Attempt>, i: nat)
    requires Chronological(h) && i < |h|
    ensures Count(rules, h, i) == |Logged(h[..i + 1], h[i].key, rules.windowMsOf(h[i].key), h[i].at)|
  {
    ChronologicalPrefix(h, i);
    ChronologicalPrefix(h, i + 1);
    assert h[..i + 1][..i] == h[..i];
    WindowIsLog(rules, h[..i], h[i].key);
    RecordedIsLogged(Run(rules, h[..i]), h[..i + 1], h[i].key, rules.windowMsOf(h[i].key));
  }

  /** Distinct milliseconds in (after, after + window] with an admitted attempt on the key. */
  function AdmittedWithin(rules: Rules, h: seq<Attempt>, key: string, after: int): set<nat> {
    set i | 0 <= i < |h| && h[i].key == key && Admitted(rules, h, i) &&
            after < h[i].at <= after + rules.windowMsOf(key) :: h[i].at
  }

  lemma SubsetCard(a: set<nat>, b: set<nat>)
    requires a <= b
    ensures |a| <= |b|
  {
    if a != {} {
      var x :| x in a;
      SubsetCard(a - {x}, b - {x});
    }
  }

  lemma Greatest(s: set<nat>) returns (m: nat)
    requires s != {}
    ensures m in s && forall x :: x in s ==> x <= m
  {
    var x :| x in s;
    var rest := s - {x};
    assert s == rest + {x};
    if rest == {} {
      m := x;
    } else {
      m := Greatest(rest);
      m := if m < x then x else m;
    }
  }

  /** Everything admitted in the interval up to the admitted attempt `i`, whose millisecond
      is the last one, was in the log that attempt `i` was counted against. */
  lemma AdmittedWereLogged(rules: Rules, h: seq<Attempt>, key: string, after: int, i: nat)
    requires Chronological(h) && i < |h| && h[i].key == key && after < h[i].at <= after + rules.windowMsOf(key)
    requires forall t :: t in AdmittedWithin(rules, h, key, after) ==> t <= h[i].at
    ensures AdmittedWithin(rules, h, key, after) <= Logged(h[..i + 1], key, rules.windowMsOf(key), h[i].at)
  {
    var windowMs := rules.windowMsOf(key);
    forall t | t in AdmittedWithin(rules, h, key, after)
      ensures t in Logged(h[..i + 1], key, windowMs, h[i].at)
    {
      var j :| 0 <= j < |h| && h[j].key == key && Admitted(rules, h, j) && after < h[j].at <= after + windowMs && h[j].at == t;
      var k := if j <= i then j else i;
      assert h[k].at == t;
      assert h[..i + 1][k] == h[k];
    }
  }

  /** No interval of the window's length, wherever it is placed, holds more than `limit`
      distinct milliseconds with an admitted request. */
  lemma AnyWindowBounded(rules: Rules, h: seq<Attempt>, key: string, after: int)
    requires Chronological(h)
    ensures |AdmittedWithin(rules, h, key, after)| <= rules.limitOf(key)
  {
    var s, windowMs := AdmittedWithin(rules, h, key, after), rules.windowMsOf(key);
    if s != {} {
      var m := Greatest(s);
      var i :| 0 <= i < |h| && h[i].key == key && Admitted(rules, h, i) && after < h[i].at <= after + windowMs && h[i].at == m;
      AdmittedWereLogged(rules, h, key, after, i);
      SubsetCard(s, Logged(h[..i + 1], key, windowMs, m));
      CountIsDistinctAttempts(rules, h, i);
    }
  }

  /** Requests in one millisecond collapse: any number of them is admitted together, so the
      bound above cannot be a bound on requests. */
  lemma SameMillisecondCollapses(rules: Rules, key: string, at: nat, n: nat, i: nat)
    requires at >= 1 && i < n && rules.limitOf(key) >= 1
    ensures Admitted(rules, seq(n, _ => Attempt(at, key)), i)
  {
    var h := seq(n, _ => Attempt(at, key));
    CountIsDistinctAttempts(rules, h, i);
    var l := Logged(h[..i + 1], key, rules.windowMsOf(key), at);
    assert l <= {at};
    SubsetCard(l, {at});
  }

  /** After a silent wait of `Retry-After`, which is the window length, the next attempt on
      the key is admitted exactly when the limit allows any request at all. */
  lemma RetryAfterSuffices(rules: Rules, h: seq<Attempt>, key: string, now: nat)
    requires Chronological(h) && now >= 1 && rules.windowMsOf(key) > 0
    requires forall i :: 0 <= i < |h| ==> h[i].at <= now
    requires forall i :: 0 <= i < |h| && h[i].key == key ==> h[i].at + rules.windowMsOf(key) <= now
    ensures Admitted(rules, h + [Attempt(now, key)], |h|) <==> rules.limitOf(key) >= 1
  {
    var all := h + [Attempt(now, key)];
    CountIsDistinctAttempts(rules, all, |h|);
    assert all[..|h| + 1] == all;
    var l := Logged(all, key, rules.windowMsOf(key), now);
    assert all[|h|].at == now;
    assert l == {now};
  }

  // --- requests, when no two share a millisecond ---

  /** The admitted requests themselves. */
  function RequestsWithin(rules: Rules, h: seq<Attempt>, key: string, after: int): set<nat> {
    set i: nat | 0 <= i < |h| && h[i].key == key && Admitted(rules, h, i) &&
                 after < h[i].at <= after + rules.windowMsOf(key)
  }

  lemma {:induction false} ImageCard(h: seq<Attempt>, s: set<nat>, image: set<nat>)
    requires forall i :: i in s ==> i < |h| && h[i].at in image
    requires forall i, j :: i in s && j in s && i < j ==> h[i].at != h[j].at
    ensures |s| <= |image|
  {
    if s != {} {
      var i :| i in s;
      ImageCard(h, s - {i}, image - {h[i].at});
    }
  }

  /** If attempts on the key never share a millisecond, every interval of the window's
      length admits at most `limit` requests. */
  lemma DistinctAttemptsBounded(rules: Rules, h: seq<Attempt>, key: string, after: int)
    requires Chronological(h)
    requires forall i, j :: 0 <= i < j < |h| && h[i].key == key && h[j].key == key ==> h[i].at != h[j].at
    ensures |RequestsWithin(rules, h, key, after)| <= rules.limitOf(key)
  {
    ImageCard(h, RequestsWithin(rules, h, key, after), AdmittedWithin(rules, h, key, after));
    AnyWindowBounded(rules, h, key, after);
  }

  // --- when the limit is a limit on requests ---

  /** The attempts on `key` in one millisecond. */
  function Together(h: seq<Attempt>, key: string, at: nat): set<nat> {
    set i: nat | 0 <= i < |h| && h[i].key == key && h[i].at == at
  }

  /** No millisecond sees more than `n` attempts on the key. */
  ghost predicate AtMostTogether(h: seq<Attempt>, key: string, n: nat) {
    forall at :: |Together(h, key, at)| <= n
  }

  /** As long as at most `n` attempts on the key share a millisecond, no interval of the
      window's length admits more than `limit` requests. */
  ghost predicate LimitsRequests(rules: Rules, key: string, n: nat) {
    forall h: seq<Attempt>, after ::
      Chronological(h) && AtMostTogether(h, key, n) ==> |RequestsWithin(rules, h, key, after)| <= rules.limitOf(key)
  }

  lemma PairTogether(h: seq<Attempt>, key: string, i: nat, j: nat)
    requires i < j < |h| && h[i].key == key && h[j].key == key && h[i].at == h[j].at
    ensures |Together(h, key, h[i].at)| >= 2
  {
    SubsetCard({i, j}, Together(h, key, h[i].at));
  }

  lemma NeverTogether(h: seq<Attempt>, key: string)
    requires AtMostTogether(h, key, 1)
    ensures forall i, j :: 0 <= i < j < |h| && h[i].key == key && h[j].key == key ==> h[i].at != h[j].at
  {
    forall i: nat, j: nat | i < j < |h| && h[i].key == key && h[j].key == key
      ensures h[i].at != h[j].at
    {
      if h[i].at == h[j].at {
        PairTogether(h, key, i, j);
      }
    }
  }

  function Range(lo: nat, hi: nat): (s: set<nat>)
    requires lo <= hi
    ensures |s| == hi - lo && forall x :: x in s <==> lo <= x < hi
  {
    if lo == hi then {} else Range(lo, hi - 1) + {hi - 1}
  }

  // --- enough room for everybody, or for nobody ---

  lemma SplitCard(s: set<nat>, part: set<nat>)
    requires part <= s
    ensures |s| == |part| + |s - part|
  {
    assert s == part + (s - part);
  }

  /** Attempts on the key in `len` milliseconds, at most `n` in each. */
  lemma {:induction false} AttemptsWithin(h: seq<Attempt>, key: string, n: nat, s: set<nat>, after: int, len: nat)
    requires AtMostTogether(h, key, n)
    requires forall i :: i in s ==> i < |h| && h[i].key == key && after < h[i].at <= after + len
    ensures |s| <= n * len
  {
    if len == 0 {
      assert s == {};
    } else {
      var last := set i | i in s && h[i].at == after + len;
      SplitCard(s, last);
      AttemptsWithin(h, key, n, s - last, after, len - 1);
      if last != {} {
        SubsetCard(last, Together(h, key, after + len));
      }
      assert n * len == n * (len - 1) + n;
    }
  }

  lemma RoomForAll(rules: Rules, h: seq<Attempt>, key: string, n: nat, after: int)
    requires AtMostTogether(h, key, n)
    ensures |RequestsWithin(rules, h, key, after)| <= n * rules.windowMsOf(key)
  {
    AttemptsWithin(h, key, n, RequestsWithin(rules, h, key, after), after, rules.windowMsOf(key));
  }

  /** A limit of zero admits nothing, unless the window is empty. */
  lemma RoomForNone(rules: Rules, h: seq<Attempt>, key: string, after: int)
    requires Chronological(h) && rules.limitOf(key) == 0
    ensures RequestsWithin(rules, h, key, after) == {}
  {
    forall i: nat | i < |h| && h[i].key == key && rules.windowMsOf(key) > 0
      ensures !Admitted(rules, h, i)
    {
      var recorded := Recorded(Run(rules, h[..i]), key, rules.windowMsOf(key), h[i].at);
      assert h[i].at in recorded;
    }
  }

  // --- and a history that breaks the limit otherwise ---

  /** `n` attempts in each of the milliseconds 1 to `millis`. */
  function Crowd(key: string, n: nat, millis: nat): seq<Attempt> {
    if millis == 0 then [] else Crowd(key, n, millis - 1) + seq(n, _ => Attempt(millis, key))
  }

  /** In the crowd, the attempts of a millisecond sit next to each other. */
  lemma {:induction false} CrowdLayout(key: string, n: nat, millis: nat)
    ensures var h := Crowd(key, n, millis);
            |h| == n * millis && Chronological(h) && Early(h, key, millis)
  {
    if millis > 0 {
      CrowdLayout(key, n, millis - 1);
      assert n * millis == n * (millis - 1) + n;
    }
  }

  lemma {:induction false} CrowdTogether(key: string, n: nat, millis: nat, at: nat)
    ensures |Together(Crowd(key, n, millis), key, at)| <= n
  {
    var h := Crowd(key, n, millis);
    if millis > 0 {
      var init := Crowd(key, n, millis - 1);
      CrowdTogether(key, n, millis - 1, at);
      CrowdLayout(key, n, millis - 1);
      if at == millis {
        SubsetCard(Together(h, key, at), Range(|init|, |init| + n));
      } else {
        assert Together(h, key, at) == Together(init, key, at);
      }
    }
  }

  /** All attempts lie in the milliseconds 1 to `millis`. */
  predicate Early(h: seq<Attempt>, key: string, millis: nat) {
    forall i :: 0 <= i < |h| ==> h[i].key == key && 1 <= h[i].at <= millis
  }

  lemma FewMillisecondsAdmitted(rules: Rules, h: seq<Attempt>, key: string, millis: nat, i: nat)
    requires Chronological(h) && Early(h, key, millis) && millis <= rules.limitOf(key) && i < |h|
    ensures Admitted(rules, h, i)
  {
    CountIsDistinctAttempts(rules, h, i);
    var l := Logged(h[..i + 1], key, rules.windowMsOf(key), h[i].at);
    forall t | t in l
      ensures t in Range(1, millis + 1)
    {
      assert 1 <= t <= millis;
    }
    SubsetCard(l, Range(1, millis + 1));
  }

  lemma EarlyAllWithin(rules: Rules, h: seq<Attempt>, key: string, millis: nat)
    requires Chronological(h) && Early(h, key, millis) && millis <= rules.limitOf(key) && millis <= rules.windowMsOf(key)
    ensures |RequestsWithin(rules, h, key, 0)| >= |h|
  {
    forall i: nat | i < |h|
      ensures i in RequestsWithin(rules, h, key, 0)
    {
      FewMillisecondsAdmitted(rules, h, key, millis, i);
    }
    SubsetCard(Range(0, |h|), RequestsWithin(rules, h, key, 0));
  }

  lemma MoreThanLimit(n: nat, millis: nat, limit: nat, windowMs: nat)
    requires n >= 2 && limit >= 1 && n * windowMs > limit && millis == if limit < windowMs then limit else windowMs
    ensures n * millis > limit
  {
    assert n * limit >= 2 * limit;
  }

  lemma CrowdAtMostTogether(key: string, n: nat, millis: nat)
    ensures AtMostTogether(Crowd(key, n, millis), key, n)
  {
    forall at
      ensures |Together(Crowd(key, n, millis), key, at)| <= n
    {
      CrowdTogether(key, n, millis, at);
    }
  }

  lemma SharingBreaksLimit(rules: Rules, key: string, n: nat)
    requires n >= 2 && rules.limitOf(key) >= 1 && n * rules.windowMsOf(key) > rules.limitOf(key)
    ensures !LimitsRequests(rules, key, n)
  {
    var limit, windowMs := rules.limitOf(key), rules.windowMsOf(key);
    var millis := if limit < windowMs then limit else windowMs;
    MoreThanLimit(n, millis, limit, windowMs);
    CrowdLayout(key, n, millis);
    CrowdAtMostTogether(key, n, millis);
    EarlyAllWithin(rules, Crowd(key, n, millis), key, millis);
    TooManyWithin(rules, Crowd(key, n, millis), key, n);
  }

  lemma TooManyWithin(rules: Rules, h: seq<Attempt>, key: string, n: nat)
    requires Chronological(h) && AtMostTogether(h, key, n) && |RequestsWithin(rules, h, key, 0)| > rules.limitOf(key)
    ensures !LimitsRequests(rules, key, n)
  {
  }

  /** The documented limit on requests per window holds, in every history with at most `n`
      attempts on the key in a millisecond, exactly when no two attempts share one, or
      nothing is admitted, or `n` in every millisecond are within the limit anyway. */
  lemma LimitsRequestsIff(rules: Rules, key: string, n: nat)
    ensures LimitsRequests(rules, key, n) <==>
            n <= 1 || rules.limitOf(key) == 0 || n * rules.windowMsOf(key) <= rules.limitOf(key)
  {
    if n <= 1 || rules.limitOf(key) == 0 || n * rules.windowMsOf(key) <= rules.limitOf(key) {
      forall h: seq<Attempt>, after | Chronological(h) && AtMostTogether(h, key, n)
        ensures |RequestsWithin(rules, h, key, after)| <= rules.limitOf(key)
      {
        if n <= 1 {
          NeverTogether(h, key);
          DistinctAttemptsBounded(rules, h, key, after);
        } else if rules.limitOf(key) == 0 {
          RoomForNone(rules, h, key, after);
        } else {
          RoomForAll(rules, h, key, n, after);
        }
      }
    } else {
      SharingBreaksLimit(rules, key, n);
    }
  }
}
