/** How many probes the counter lets run at the same time. The limit is documented as the
maximum of concurrent probes; it is that maximum exactly as long as every decrement is made
by a probe in flight and no reset overtakes one. */
module ProbeCapacity {
  import opened Words
  import opened HalfOpenProbes

  predicate Admissions(actions: seq<Action>) {
    forall i :: 0 <= i < |actions| ==> actions[i].Load? || actions[i].CompareExchange?
  }

  /** The most probes that further calls can bring into flight together is the limit. */
  ghost predicate CapacityIsLimit(limit: nat, actions: seq<Action>) {
    && (forall more :: Admissions(more) && Lawful(actions + more) ==> |Running(limit, actions + more)| <= limit)
    && (exists more :: Admissions(more) && Lawful(actions + more) && |Running(limit, actions + more)| == limit)
  }

  /** At every moment so far. */
  ghost predicate CapacityKept(limit: nat, actions: seq<Action>) {
    CapacityIsLimit(limit, actions) && (actions == [] || CapacityKept(limit, Init(actions)))
  }

  /** Every decrement is made by a probe in flight, a probe ends by making one, and no probe
      is in flight at a reset. */
  predicate Attributed(limit: nat, actions: seq<Action>) {
    actions == [] ||
    (Attributed(limit, Init(actions)) &&
     var running := Running(limit, Init(actions));
     match Last(actions)
     case Finish(c) => c in running
     case Leave(c) => c !in running
     case Reset => running == {}
     case _ => true)
  }

  // --- what admissions can do ---

  lemma Snoc(limit: nat, actions: seq<Action>, a: Action)
    ensures Run(limit, actions + [a]) == Act(limit, Run(limit, actions), a)
    ensures Running(limit, actions + [a]) == Join(limit, Run(limit, actions), Running(limit, actions), a)
    ensures Attempted(actions + [a]) == Attempted(actions) + if a.Load? then {a.call} else {}
    ensures Lawful(actions + [a]) <==> Lawful(actions) && (a.Load? ==> a.call !in Attempted(actions))
    ensures Bounded(limit, actions + [a]) <==> Bounded(limit, actions) && Act(limit, Run(limit, actions), a).counter <= limit
  {
    assert Init(actions + [a]) == actions && Last(actions + [a]) == a;
  }

  lemma MoreInit(actions: seq<Action>, more: seq<Action>)
    requires more != []
    ensures Init(actions + more) == actions + Init(more) && Last(actions + more) == Last(more)
  {
  }

  lemma AdmissionStep(limit: nat, actions: seq<Action>)
    requires actions != [] && Lawful(actions) && (Last(actions).Load? || Last(actions).CompareExchange?)
    ensures var k, k' := Run(limit, Init(actions)).counter, Run(limit, actions).counter;
            && |Running(limit, actions)| - |Running(limit, Init(actions))| == k' - k
            && (k <= limit ==> k' <= limit) && (k > limit ==> k' == k)
  {
    ProbesAsked(limit, Init(actions));
  }

  /** An admission raises the counter and the number of probes in flight alike. */
  lemma {:induction false} AdmissionsBalance(limit: nat, actions: seq<Action>, more: seq<Action>)
    requires Admissions(more) && Lawful(actions + more)
    ensures var k, k' := Run(limit, actions).counter, Run(limit, actions + more).counter;
            && |Running(limit, actions + more)| - |Running(limit, actions)| == k' - k
            && (k <= limit ==> k' <= limit) && (k > limit ==> k' == k)
    decreases |more|
  {
    if more == [] {
      assert actions + more == actions;
    } else {
      MoreInit(actions, more);
      AdmissionsBalance(limit, actions, Init(more));
      AdmissionStep(limit, actions + more);
    }
  }

  /** A call that has not asked yet. */
  function Fresh(actions: seq<Action>): (c: nat)
    ensures forall a :: a in Attempted(actions) ==> a < c
  {
    if actions == [] then 0
    else
      var c := Fresh(Init(actions));
      if Last(actions).Load? && Last(actions).call >= c then Last(actions).call + 1 else c
  }

  lemma AdmitOne(limit: nat, actions: seq<Action>) returns (c: nat)
    requires Lawful(actions) && Run(limit, actions).counter < limit
    ensures var next := actions + [Load(c)] + [CompareExchange(c)];
            Lawful(next) && Run(limit, next).counter == Run(limit, actions).counter + 1
  {
    c := Fresh(actions);
    Snoc(limit, actions, Load(c));
    Snoc(limit, actions + [Load(c)], CompareExchange(c));
  }

  lemma {:induction false} AdmitUntilFull(limit: nat, actions: seq<Action>) returns (more: seq<Action>)
    requires Lawful(actions) && Run(limit, actions).counter <= limit
    ensures Admissions(more) && Lawful(actions + more) && Run(limit, actions + more).counter == limit
    decreases limit - Run(limit, actions).counter
  {
    if Run(limit, actions).counter == limit {
      more := [];
      assert actions + more == actions;
    } else {
      var c := AdmitOne(limit, actions);
      var next := actions + [Load(c)] + [CompareExchange(c)];
      var rest := AdmitUntilFull(limit, next);
      more := [Load(c), CompareExchange(c)] + rest;
      assert actions + more == next + rest;
    }
  }

  lemma CapacityInRange(limit: nat, actions: seq<Action>)
    requires Lawful(actions) && Run(limit, actions).counter <= limit
    ensures CapacityIsLimit(limit, actions) <==> |Running(limit, actions)| == Run(limit, actions).counter
  {
    var full := AdmitUntilFull(limit, actions);
    AdmissionsBalance(limit, actions, full);
    forall more | Admissions(more) && Lawful(actions + more)
      ensures |Running(limit, actions + more)| <= limit + |Running(limit, actions)| - Run(limit, actions).counter
    {
      AdmissionsBalance(limit, actions, more);
    }
  }

  /** A counter past the limit admits nobody. */
  lemma CapacityOutOfRange(limit: nat, actions: seq<Action>)
    requires Lawful(actions) && Run(limit, actions).counter > limit && |Running(limit, actions)| != limit
    ensures !CapacityIsLimit(limit, actions)
  {
    forall more | Admissions(more) && Lawful(actions + more)
      ensures |Running(limit, actions + more)| == |Running(limit, actions)|
    {
      AdmissionsBalance(limit, actions, more);
    }
  }

  // --- the exact condition ---

  lemma AttributedStep(limit: nat, actions: seq<Action>)
    requires limit < U32 && Lawful(actions) && actions != [] && Attributed(limit, actions)
    requires Run(limit, Init(actions)).counter == |Running(limit, Init(actions))| <= limit
    ensures Run(limit, actions).counter == |Running(limit, actions)| <= limit
  {
    ProbesAsked(limit, Init(actions));
    DecrementCases(Run(limit, Init(actions)).counter);
    JoinCard(limit, Run(limit, Init(actions)), Running(limit, Init(actions)), Last(actions));
  }

  /** As long as everything is attributed, the counter is the number of probes in flight. */
  lemma {:induction false} AttributedCountsRunning(limit: nat, actions: seq<Action>)
    requires limit < U32 && Lawful(actions) && Attributed(limit, actions)
    ensures Run(limit, actions).counter == |Running(limit, actions)| <= limit
  {
    if actions != [] {
      AttributedCountsRunning(limit, Init(actions));
      AttributedStep(limit, actions);
    }
  }

  /** The first step that is not attributed loses or gains a place. */
  lemma FirstMisattributed(limit: nat, actions: seq<Action>)
    requires 1 <= limit < U32 - 1 && Lawful(actions) && actions != []
    requires Attributed(limit, Init(actions)) && !Attributed(limit, actions)
    ensures !CapacityIsLimit(limit, actions)
  {
    AttributedCountsRunning(limit, Init(actions));
    var before := Running(limit, Init(actions));
    DecrementCases(Run(limit, Init(actions)).counter);
    JoinCard(limit, Run(limit, Init(actions)), before, Last(actions));
    if Last(actions).Finish? && before == {} {
      CapacityOutOfRange(limit, actions);
    } else {
      CapacityInRange(limit, actions);
    }
  }

  /** In every interleaving, the documented maximum of concurrent probes is the maximum at
      every moment if and only if every decrement is made by a probe in flight, every probe
      ends by making one, and no probe is in flight at a reset. */
  lemma {:induction false} CapacityKeptIffAttributed(limit: nat, actions: seq<Action>)
    requires 1 <= limit < U32 - 1 && Lawful(actions)
    ensures CapacityKept(limit, actions) <==> Attributed(limit, actions)
  {
    if actions != [] {
      CapacityKeptIffAttributed(limit, Init(actions));
    }
    if Attributed(limit, actions) {
      AttributedCountsRunning(limit, actions);
      CapacityInRange(limit, actions);
    } else if Attributed(limit, Init(actions)) {
      FirstMisattributed(limit, actions);
    }
  }

  // --- a late call takes a probe's place ---

  /** A probe is in flight when a call admitted earlier, while the breaker was closed, ends;
      then another call asks. */
  function LateEnd(probe: nat, late: nat, next: nat): seq<Action> {
    [Load(probe), CompareExchange(probe), Finish(late), Load(next), CompareExchange(next)]
  }

  /** With a limit of one, two probes are then in flight, though the counter has never left
      its range. */
  lemma LateEndAdmitsSecond(probe: nat, late: nat, next: nat)
    requires probe != late && probe != next
    ensures var actions := LateEnd(probe, late, next);
            && Lawful(actions) && Paired(1, actions) && Bounded(1, actions)
            && Running(1, actions) == {probe, next} && |Running(1, actions)| == 2
  {
    var a2 := [] + [Load(probe)] + [CompareExchange(probe)];
    var a4 := a2 + [Finish(late)] + [Load(next)];
    Snoc(1, [], Load(probe));
    Snoc(1, [] + [Load(probe)], CompareExchange(probe));
    DecrementCases(1);
    Snoc(1, a2, Finish(late));
    Snoc(1, a2 + [Finish(late)], Load(next));
    Snoc(1, a4, CompareExchange(next));
    assert a4 + [CompareExchange(next)] == LateEnd(probe, late, next);
    BoundedIffPaired(1, LateEnd(probe, late, next));
  }
}
