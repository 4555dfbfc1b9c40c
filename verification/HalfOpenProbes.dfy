/** The half-open probe counter under any interleaving of any number of calls.

`allow_request` loads the counter and later compare-exchanges it, so other calls may act in
between. A call that ends while the breaker is half-open decrements the counter, whether or
not it was counted; one that ends in another state leaves it alone; tripping or closing the
breaker stores zero. The counter is one atomic word, so its accesses form one total order. */
module HalfOpenProbes {
  import opened Words
  import opened CircuitBreaker

  datatype Action =
    | Load(call: nat)
    | CompareExchange(call: nat)
    | Finish(call: nat)
    | Leave(call: nat)
    | Reset

  /** The counter, and the value each call holds between its load and its exchange. */
  datatype Shared = Shared(counter: nat, loaded: map<nat, nat>)

  predicate Succeeds(limit: nat, s: Shared, c: nat) {
    c in s.loaded && s.loaded[c] < limit && s.counter == s.loaded[c]
  }

  function Act(limit: nat, s: Shared, a: Action): Shared {
    match a
    case Load(c) => s.(loaded := s.loaded[c := s.counter])
    case CompareExchange(c) =>
      Shared(if Succeeds(limit, s, c) then s.counter + 1 else s.counter, s.loaded - {c})
    case Finish(_) => s.(counter := Decrement(s.counter))
    case Leave(_) => s
    case Reset => s.(counter := 0)
  }

  function Init(actions: seq<Action>): seq<Action>
    requires actions != []
  {
    actions[..|actions| - 1]
  }

  function Last(actions: seq<Action>): Action
    requires actions != []
  {
    actions[|actions| - 1]
  }

  function Run(limit: nat, actions: seq<Action>): Shared {
    if actions == [] then Shared(0, map[]) else Act(limit, Run(limit, Init(actions)), Last(actions))
  }

  // --- the range of the counter ---

  /** Probes counted since the last reset, less the decrements since then. */
  function Outstanding(limit: nat, actions: seq<Action>): int {
    if actions == [] then 0
    else
      var before := Outstanding(limit, Init(actions));
      match Last(actions)
      case CompareExchange(c) => before + (if Succeeds(limit, Run(limit, Init(actions)), c) then 1 else 0)
      case Finish(_) => before - 1
      case Reset => 0
      case _ => before
  }

  /** At every decrement, some counted probe is outstanding. */
  predicate Paired(limit: nat, actions: seq<Action>) {
    actions == [] ||
    (Paired(limit, Init(actions)) && (Last(actions).Finish? ==> Outstanding(limit, Init(actions)) > 0))
  }

  /** The counter has been within the limit at every moment. */
  predicate Bounded(limit: nat, actions: seq<Action>) {
    Run(limit, actions).counter <= limit && (actions == [] || Bounded(limit, Init(actions)))
  }

  lemma {:induction false} PairedCountsProbes(limit: nat, actions: seq<Action>)
    requires limit < U32 && Paired(limit, actions)
    ensures Run(limit, actions).counter == Outstanding(limit, actions) <= limit
  {
    if actions != [] {
      PairedCountsProbes(limit, Init(actions));
    }
  }

  /** The first decrement without an outstanding probe leaves the counter at the largest
      32-bit value. */
  lemma FirstUnpaired(limit: nat, actions: seq<Action>)
    requires limit < U32 - 1 && actions != [] && Paired(limit, Init(actions)) && !Paired(limit, actions)
    ensures Run(limit, actions).counter == U32 - 1
  {
    PairedCountsProbes(limit, Init(actions));
  }

  /** In every interleaving, the counter stays within the probe limit at every moment if
      and only if decrements never outnumber the probes counted since the last reset. */
  lemma {:induction false} BoundedIffPaired(limit: nat, actions: seq<Action>)
    requires limit < U32 - 1
    ensures Bounded(limit, actions) <==> Paired(limit, actions)
  {
    if actions != [] {
      BoundedIffPaired(limit, Init(actions));
      if Paired(limit, actions) {
        PairedCountsProbes(limit, actions);
      } else if Paired(limit, Init(actions)) {
        FirstUnpaired(limit, actions);
      }
    }
  }

  // --- the calls behind the counter ---

  /** The calls that have asked to be admitted as probes. */
  function Attempted(actions: seq<Action>): set<nat> {
    if actions == [] then {}
    else Attempted(Init(actions)) + if Last(actions).Load? then {Last(actions).call} else {}
  }

  /** Every call asks at most once. */
  predicate Lawful(actions: seq<Action>) {
    actions == [] ||
    (Lawful(Init(actions)) && (Last(actions).Load? ==> Last(actions).call !in Attempted(Init(actions))))
  }

  /** A call joins when its exchange succeeds, and leaves when it ends. */
  function Join(limit: nat, s: Shared, calls: set<nat>, a: Action): set<nat> {
    match a
    case CompareExchange(c) => if Succeeds(limit, s, c) then calls + {c} else calls
    case Finish(c) => calls - {c}
    case Leave(c) => calls - {c}
    case _ => calls
  }

  /** The probes in flight: calls whose exchange succeeded and that have not ended. */
  function Running(limit: nat, actions: seq<Action>): set<nat> {
    if actions == [] then {}
    else Join(limit, Run(limit, Init(actions)), Running(limit, Init(actions)), Last(actions))
  }

  /** Those of them whose exchange succeeded since the last reset. */
  function Counted(limit: nat, actions: seq<Action>): set<nat> {
    if actions == [] || Last(actions).Reset? then {}
    else Join(limit, Run(limit, Init(actions)), Counted(limit, Init(actions)), Last(actions))
  }

  /** A call between its load and its exchange is not a probe yet. */
  lemma {:induction false} ProbesAsked(limit: nat, actions: seq<Action>)
    requires Lawful(actions)
    ensures Counted(limit, actions) <= Running(limit, actions) <= Attempted(actions)
    ensures forall c :: c in Run(limit, actions).loaded ==> c in Attempted(actions) && c !in Running(limit, actions)
  {
    if actions != [] {
      ProbesAsked(limit, Init(actions));
    }
  }

  /** Every decrement is made by a counted probe, and a counted probe ends by making one. */
  predicate Owned(limit: nat, actions: seq<Action>) {
    actions == [] ||
    (Owned(limit, Init(actions)) &&
     match Last(actions)
     case Finish(c) => c in Counted(limit, Init(actions))
     case Leave(c) => c !in Counted(limit, Init(actions))
     case _ => true)
  }

  /** At every moment the counter has been the number of counted probes. */
  predicate CountsProbes(limit: nat, actions: seq<Action>) {
    && Run(limit, actions).counter == |Counted(limit, actions)|
    && (actions == [] || CountsProbes(limit, Init(actions)))
  }

  lemma {:induction false} CountedWithinLimit(limit: nat, actions: seq<Action>)
    requires limit < U32 && Lawful(actions) && CountsProbes(limit, actions)
    ensures Run(limit, actions).counter <= limit
  {
    if actions != [] {
      CountedWithinLimit(limit, Init(actions));
    }
  }

  lemma DecrementCases(n: nat)
    requires n < U32
    ensures Decrement(n) == if n == 0 then U32 - 1 else n - 1
  {
  }

  lemma JoinCard(limit: nat, s: Shared, calls: set<nat>, a: Action)
    requires a.CompareExchange? ==> (Succeeds(limit, s, a.call) ==> a.call !in calls)
    ensures |Join(limit, s, calls, a)| ==
            match a
            case CompareExchange(c) => |calls| + (if Succeeds(limit, s, c) then 1 else 0)
            case Finish(c) => |calls| - (if c in calls then 1 else 0)
            case Leave(c) => |calls| - (if c in calls then 1 else 0)
            case _ => |calls|
  {
  }

  lemma OwnedStep(limit: nat, actions: seq<Action>)
    requires limit < U32 && Lawful(actions) && actions != []
    requires CountsProbes(limit, Init(actions)) && Owned(limit, Init(actions))
    ensures Run(limit, actions).counter == |Counted(limit, actions)| <==> Owned(limit, actions)
  {
    ProbesAsked(limit, Init(actions));
    CountedWithinLimit(limit, Init(actions));
    DecrementCases(Run(limit, Init(actions)).counter);
    JoinCard(limit, Run(limit, Init(actions)), Counted(limit, Init(actions)), Last(actions));
  }

  /** In every interleaving, the counter is the number of probes counted since the last
      reset that are still in flight, at every moment, if and only if every decrement is made
      by one of them; and then it is within the limit. */
  lemma {:induction false} CountsProbesIffOwned(limit: nat, actions: seq<Action>)
    requires limit < U32 && Lawful(actions)
    ensures CountsProbes(limit, actions) <==> Owned(limit, actions)
    ensures Owned(limit, actions) ==> Run(limit, actions).counter == |Counted(limit, actions)| <= limit
  {
    if actions != [] {
      CountsProbesIffOwned(limit, Init(actions));
      if Owned(limit, Init(actions)) {
        OwnedStep(limit, actions);
      }
    }
    if Owned(limit, actions) {
      CountedWithinLimit(limit, actions);
    }
  }
}
