/** Role expansion, access decisions and the bounded audit log. */
module Authorization {

  type Role = string

  // --- permissions ---

  datatype Id = AllIds | Only(id: string)

  datatype Permission = Permission(action: string, resource: string, id: Id)

  predicate Matches(held: Permission, required: Permission) {
    && (held.action == "*" || held.action == required.action)
    && (held.resource == "*" || held.resource == required.resource)
    && match held.id
       case AllIds => true
       case Only(id) => id == "*" || required.id.AllIds? || required.id == Only(id)
  }

  /** `p` is `q` with some parts opened up by a wildcard. */
  predicate Widens(p: Permission, q: Permission) {
    && (p.action == q.action || p.action == "*")
    && (p.resource == q.resource || p.resource == "*")
    && (p.id == q.id || p.id == AllIds || p.id == Only("*"))
  }

  /** Opening up a held permission never loses a request, and the fully open one meets all. */
  lemma WideningKeepsMatches(p: Permission, q: Permission, required: Permission)
    ensures Widens(p, q) && Matches(q, required) ==> Matches(p, required)
    ensures Matches(Permission("*", "*", AllIds), required)
  {
  }

  /** A held permission meets one action, one resource and one id only, unless that part is a
      wildcard; and a request for one id is met exactly by what widens it. */
  lemma MatchesOnlyItsOwn(held: Permission, r: Permission, other: Permission)
    requires Matches(held, r) && Matches(held, other)
    ensures held.action != "*" ==> r.action == other.action == held.action
    ensures held.resource != "*" ==> r.resource == other.resource == held.resource
    ensures held.id.Only? && held.id.id != "*" && r.id.Only? && other.id.Only? ==> r.id == other.id == held.id
  {
  }

  lemma MatchesIffWidens(held: Permission, r: Permission)
    requires r.id.Only?
    ensures Matches(held, r) <==> Widens(held, r)
  {
  }

  /** A request without an id is met by holding the permission for some id; it is met for
      every id only when the held permission is not tied to one. */
  lemma UnspecificRequest(held: Permission, required: Permission)
    requires required.id.AllIds?
    ensures Matches(held, required) <==> exists id :: Matches(held, required.(id := Only(id)))
    ensures (forall id :: Matches(held, required.(id := Only(id)))) <==>
            Matches(held, required) && (held.id.AllIds? || held.id.id == "*")
  {
    var any := if held.id.AllIds? then "" else held.id.id;
    assert Matches(held, required) ==> Matches(held, required.(id := Only(any)));
    var other := any + "x";
    assert |other| != |any|;
    assert Matches(held, required.(id := Only(other))) ==> held.id.AllIds? || held.id.id == "*";
  }

  // --- the role hierarchy ---

  /** Role to the roles it inherits from; cycles are allowed. */
  type Hierarchy = map<Role, seq<Role>>

  function Parents(h: Hierarchy, r: Role): set<Role> {
    if r in h then set p | p in h[r] else {}
  }

  predicate ClosedUnderParents(h: Hierarchy, s: set<Role>) {
    forall r :: r in s ==> Parents(h, r) <= s
  }

  /** `s` is the least set that contains `roles` and is closed under inheritance. */
  ghost predicate IsClosure(h: Hierarchy, roles: set<Role>, s: set<Role>) {
    && roles <= s && ClosedUnderParents(h, s)
    && forall t: set<Role> :: roles <= t && ClosedUnderParents(h, t) ==> s <= t
  }

  function AsSet(roles: seq<Role>): set<Role> {
    set r | r in roles
  }

  ghost function AllParents(h: Hierarchy): set<Role> {
    set r, p | r in h && p in h[r] :: p
  }

  /** Terminates on every hierarchy, cyclic ones included: each role is expanded once. */
  method ExpandRoles(h: Hierarchy, roles: seq<Role>) returns (expanded: set<Role>)
    ensures IsClosure(h, AsSet(roles), expanded)
  {
    expanded := {};
    var stack := roles;
    ghost var start := AsSet(roles);
    ghost var universe := start + AllParents(h);
    while stack != []
      invariant expanded <= universe && forall r :: r in stack ==> r in universe
      invariant forall r :: r in roles ==> r in expanded || r in stack
      invariant forall r, p :: r in expanded && p in Parents(h, r) ==> p in expanded || p in stack
      invariant forall t: set<Role> :: start <= t && ClosedUnderParents(h, t) ==>
                  expanded <= t && forall r :: r in stack ==> r in t
      decreases universe - expanded, |stack|
    {
      var role := stack[|stack| - 1];
      stack := stack[..|stack| - 1];
      if role !in expanded {
        expanded := expanded + {role};
        if role in h {
          var i := 0;
          ghost var rest := stack;
          while i < |h[role]|
            invariant 0 <= i <= |h[role]|
            invariant forall r :: r in rest ==> r in stack
            invariant forall r :: r in stack ==> r in rest || r in h[role]
            invariant forall k :: 0 <= k < i ==> h[role][k] in expanded || h[role][k] in stack
          {
            if h[role][i] !in expanded {
              stack := stack + [h[role][i]];
            }
            i := i + 1;
          }
        }
      }
    }
  }

  // --- what expansion means ---

  predicate Chain(h: Hierarchy, path: seq<Role>) {
    path != [] && forall i :: 0 <= i < |path| - 1 ==> path[i + 1] in Parents(h, path[i])
  }

  /** Some chain of inheritance leads from one of `roles` to `r`. */
  ghost predicate Reachable(h: Hierarchy, roles: set<Role>, r: Role) {
    exists path :: Chain(h, path) && path[0] in roles && path[|path| - 1] == r
  }

  lemma {:induction false} ChainStaysInside(h: Hierarchy, s: set<Role>, path: seq<Role>)
    requires ClosedUnderParents(h, s) && Chain(h, path) && path[0] in s
    ensures path[|path| - 1] in s
  {
    if |path| > 1 {
      var init := path[..|path| - 1];
      ChainStaysInside(h, s, init);
      assert path[|path| - 1] in Parents(h, path[|path| - 2]);
    }
  }

  lemma ReachableExtends(h: Hierarchy, roles: set<Role>, r: Role, p: Role)
    requires Reachable(h, roles, r) && p in Parents(h, r)
    ensures Reachable(h, roles, p)
  {
    var path :| Chain(h, path) && path[0] in roles && path[|path| - 1] == r;
    var longer := path + [p];
    assert Chain(h, longer) && longer[|longer| - 1] == p;
  }

  /** The closure is exactly what inheritance chains reach. */
  lemma ClosureIsReachable(h: Hierarchy, roles: set<Role>, s: set<Role>, r: Role)
    requires IsClosure(h, roles, s)
    ensures r in s <==> Reachable(h, roles, r)
  {
    if Reachable(h, roles, r) {
      var path :| Chain(h, path) && path[0] in roles && path[|path| - 1] == r;
      ChainStaysInside(h, s, path);
    }
    var t := set q | q in s && Reachable(h, roles, q);
    forall q | q in roles
      ensures q in t
    {
      assert Chain(h, [q]) && [q][0] in roles && [q][|[q]| - 1] == q;
    }
    forall q, p | q in t && p in Parents(h, q)
      ensures p in t
    {
      ReachableExtends(h, roles, q, p);
    }
    assert s <= t;
  }

  /** Expansion is a closure operator that distributes over union. */
  lemma ExpansionLaws(h: Hierarchy, a: set<Role>, sa: set<Role>, b: set<Role>, sb: set<Role>)
    requires IsClosure(h, a, sa) && IsClosure(h, b, sb)
    ensures IsClosure(h, sa, sa)
    ensures a <= b ==> sa <= sb
    ensures a == b ==> sa == sb
    ensures IsClosure(h, a + b, sa + sb)
  {
  }

  // --- access decisions ---

  type Templates = map<Role, seq<Permission>>

  ghost predicate Grants(h: Hierarchy, templates: Templates, roles: set<Role>, explicit: seq<Permission>, required: Permission) {
    || (exists p :: p in explicit && Matches(p, required))
    || (exists r, p :: Reachable(h, roles, r) && r in templates && p in templates[r] && Matches(p, required))
  }

  /** The template of `r` meets the request. */
  ghost predicate Offers(templates: Templates, r: Role, required: Permission) {
    r in templates && exists p :: p in templates[r] && Matches(p, required)
  }

  /** Without explicit permissions, access is what the templates of the expanded roles offer. */
  lemma GrantsThroughClosure(h: Hierarchy, templates: Templates, roles: set<Role>, s: set<Role>, required: Permission)
    requires IsClosure(h, roles, s)
    ensures Grants(h, templates, roles, [], required) <==> exists r :: r in s && Offers(templates, r, required)
  {
    forall r
      ensures r in s <==> Reachable(h, roles, r)
    {
      ClosureIsReachable(h, roles, s, r);
    }
    if Grants(h, templates, roles, [], required) {
      var r, p :| Reachable(h, roles, r) && r in templates && p in templates[r] && Matches(p, required);
      assert r in s && Offers(templates, r, required);
    }
  }

  /** More roles or more explicit permissions never take access away. */
  lemma GrantsMonotone(h: Hierarchy, templates: Templates, roles: set<Role>, roles': set<Role>,
                       explicit: seq<Permission>, explicit': seq<Permission>, required: Permission)
    requires roles <= roles' && (forall p :: p in explicit ==> p in explicit')
    requires Grants(h, templates, roles, explicit, required)
    ensures Grants(h, templates, roles', explicit', required)
  {
  }

  /** A role inherits every grant of the roles it reaches. */
  lemma InheritsGrants(h: Hierarchy, templates: Templates, role: Role, ancestor: Role, required: Permission)
    requires Reachable(h, {role}, ancestor) && Grants(h, templates, {ancestor}, [], required)
    ensures Grants(h, templates, {role}, [], required)
  {
    var r, p :| Reachable(h, {ancestor}, r) && r in templates && p in templates[r] && Matches(p, required);
    var path :| Chain(h, path) && path[0] in {ancestor} && path[|path| - 1] == r;
    ReachableThrough(h, {role}, path);
  }

  lemma {:induction false} ReachableThrough(h: Hierarchy, roles: set<Role>, path: seq<Role>)
    requires Chain(h, path) && Reachable(h, roles, path[0])
    ensures Reachable(h, roles, path[|path| - 1])
  {
    if |path| > 1 {
      ReachableThrough(h, roles, path[..|path| - 1]);
      ReachableExtends(h, roles, path[|path| - 2], path[|path| - 1]);
    }
  }

  // --- the audit log ---

  datatype Subject = Anonymous | Known(userId: string)

  datatype AuditEntry = AuditEntry(user: Subject, role: Role, required: Permission, granted: bool)

  function Push(log: seq<AuditEntry>, capacity: nat, e: AuditEntry): seq<AuditEntry>
    requires capacity >= 1
  {
    (if |log| >= capacity then log[1..] else log) + [e]
  }

  function PushAll(capacity: nat, entries: seq<AuditEntry>): seq<AuditEntry>
    requires capacity >= 1
  {
    if entries == [] then [] else Push(PushAll(capacity, entries[..|entries| - 1]), capacity, entries[|entries| - 1])
  }

  function KeepLast(entries: seq<AuditEntry>, n: nat): seq<AuditEntry> {
    if |entries| <= n then entries else entries[|entries| - n..]
  }

  lemma PushKeepsLast(entries: seq<AuditEntry>, capacity: nat)
    requires capacity >= 1 && entries != []
    ensures Push(KeepLast(entries[..|entries| - 1], capacity), capacity, entries[|entries| - 1]) == KeepLast(entries, capacity)
  {
  }

  /** After any run the log is the most recent `capacity` decisions, in order. */
  lemma {:induction false} LogIsMostRecent(capacity: nat, entries: seq<AuditEntry>)
    requires capacity >= 1
    ensures PushAll(capacity, entries) == KeepLast(entries, capacity)
  {
    if entries != [] {
      LogIsMostRecent(capacity, entries[..|entries| - 1]);
      PushKeepsLast(entries, capacity);
    }
  }

  class Engine {
    const hierarchy: Hierarchy
    const templates: Templates
    const capacity: nat
    var log: seq<AuditEntry>

    /** Every decision taken, for the specification of `log`. */
    ghost var decisions: seq<AuditEntry>

    /** An empty log of capacity zero cannot drop its oldest entry. */
    ghost predicate Valid()
      reads this
    {
      capacity >= 1 && log == KeepLast(decisions, capacity)
    }

    constructor (hierarchy: Hierarchy, templates: Templates, capacity: nat)
      requires capacity >= 1
      ensures Valid() && decisions == []
      ensures this.hierarchy == hierarchy && this.templates == templates && this.capacity == capacity
    {
      this.hierarchy, this.templates, this.capacity := hierarchy, templates, capacity;
      log, decisions := [], [];
    }

    method LogDecision(e: AuditEntry)
      requires Valid()
      modifies this
      ensures Valid() && decisions == old(decisions) + [e]
      ensures log == Push(old(log), capacity, e)
    {
      if |log| >= capacity {
        log := log[1..];
      }
      log := log + [e];
      decisions := decisions + [e];
    }

    /** Grants exactly on an explicit permission or one templated for a reachable role, and
        records the decision. */
    method CheckAccess(user: Subject, roles: seq<Role>, explicit: seq<Permission>, required: Permission)
      returns (granted: bool)
      requires Valid()
      modifies this
      ensures granted <==> Grants(hierarchy, templates, AsSet(roles), explicit, required)
      ensures Valid()
      ensures decisions == old(decisions) + [AuditEntry(user, if roles == [] then "guest" else roles[0], required, granted)]
    {
      var available := explicit;
      var expanded := ExpandRoles(hierarchy, roles);
      var pending := expanded;
      while pending != {}
        invariant pending <= expanded
        invariant forall p :: p in explicit ==> p in available
        invariant forall r, p :: r in expanded - pending && r in templates && p in templates[r] ==> p in available
        invariant forall p :: p in available ==> p in explicit || Templated(expanded, p)
        invariant Valid() && decisions == old(decisions)
        decreases pending
      {
        var role :| role in pending;
        if role in templates {
          available := available + templates[role];
        }
        pending := pending - {role};
      }
      granted := AnyMatches(available, required);
      forall r
        ensures r in expanded <==> Reachable(hierarchy, AsSet(roles), r)
      {
        ClosureIsReachable(hierarchy, AsSet(roles), expanded, r);
      }
      LogDecision(AuditEntry(user, if roles == [] then "guest" else roles[0], required, granted));
    }

    ghost predicate Templated(roles: set<Role>, p: Permission) {
      exists r :: r in roles && r in templates && p in templates[r]
    }
  }

  method AnyMatches(available: seq<Permission>, required: Permission) returns (found: bool)
    ensures found <==> exists p :: p in available && Matches(p, required)
  {
    var i := 0;
    while i < |available|
      invariant 0 <= i <= |available|
      invariant forall k :: 0 <= k < i ==> !Matches(available[k], required)
    {
      if Matches(available[i], required) {
        return true;
      }
      i := i + 1;
    }
    return false;
  }
}
