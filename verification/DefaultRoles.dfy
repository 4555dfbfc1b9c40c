/** The shipped roles: what the default hierarchy and the default templates grant, as one
table of role, action and resource. */
module DefaultRoles {
  import opened Authorization

  const GUEST: Role := "guest"
  const USER: Role := "user"
  const MODERATOR: Role := "moderator"
  const ORGANIZER: Role := "tournament_organizer"
  const ADMIN: Role := "admin"
  const SUPER_ADMIN: Role := "super_admin"

  const HIERARCHY: Hierarchy := map[
    SUPER_ADMIN := [ADMIN],
    ADMIN := [MODERATOR],
    MODERATOR := [USER],
    ORGANIZER := [USER],
    USER := [GUEST]]

  function For(action: string, resource: string): Permission {
    Permission(action, resource, AllIds)
  }

  const TEMPLATES: Templates := map[
    SUPER_ADMIN := [For("*", "*")],
    ADMIN := [For("*", "user"), For("*", "tournament"), For("*", "match"), For("*", "staking"), For("*", "governance")],
    ORGANIZER := [For("create", "tournament"), For("update", "tournament"), For("delete", "tournament"),
                  For("manage", "match"), For("read", "tournament")],
    MODERATOR := [For("read", "user"), For("flag", "user"), For("read", "tournament"), For("update", "tournament"),
                  For("read", "match"), For("moderate", "match")],
    USER := [For("read", "tournament"), For("join", "tournament"), For("read", "match"), For("play", "match"),
             For("read", "user")],
    GUEST := [For("read", "tournament"), For("read", "match")]]

  /** The roles a shipped role inherits from, itself included. */
  function Inherited(role: Role): set<Role> {
    if role == GUEST then {GUEST}
    else if role == USER then {USER, GUEST}
    else if role == MODERATOR then {MODERATOR, USER, GUEST}
    else if role == ORGANIZER then {ORGANIZER, USER, GUEST}
    else if role == ADMIN then {ADMIN, MODERATOR, USER, GUEST}
    else if role == SUPER_ADMIN then {SUPER_ADMIN, ADMIN, MODERATOR, USER, GUEST}
    else {role}
  }

  lemma RolesDiffer()
    ensures |GUEST| == 5 && |USER| == 4 && |MODERATOR| == 9 && |ORGANIZER| == 20 && |ADMIN| == 5 && |SUPER_ADMIN| == 11
    ensures GUEST[0] != ADMIN[0]
  {
  }

  lemma ParentsOf(role: Role)
    ensures Parents(HIERARCHY, role) ==
            if role == SUPER_ADMIN then {ADMIN} else if role == ADMIN then {MODERATOR}
            else if role == MODERATOR || role == ORGANIZER then {USER} else if role == USER then {GUEST} else {}
  {
    RolesDiffer();
  }

  lemma InheritedIsClosure(role: Role)
    ensures IsClosure(HIERARCHY, {role}, Inherited(role))
  {
    RolesDiffer();
    forall r | r in Inherited(role)
      ensures Parents(HIERARCHY, r) <= Inherited(role)
    {
      ParentsOf(r);
    }
    forall t: set<Role> | {role} <= t && ClosedUnderParents(HIERARCHY, t)
      ensures Inherited(role) <= t
    {
      forall r | r in t
        ensures Parents(HIERARCHY, r) <= t
      {
      }
      ParentsOf(SUPER_ADMIN);
      ParentsOf(ADMIN);
      ParentsOf(MODERATOR);
      ParentsOf(ORGANIZER);
      ParentsOf(USER);
    }
  }

  // --- the access table ---

  /** What a shipped role may do, inheritance included. */
  predicate Allowed(role: Role, action: string, resource: string) {
    if role == GUEST then action == "read" && resource in {"tournament", "match"}
    else if role == USER then PlayerMay(action, resource)
    else if role == MODERATOR then
      || PlayerMay(action, resource)
      || (action == "flag" && resource == "user")
      || (action == "update" && resource == "tournament")
      || (action == "moderate" && resource == "match")
    else if role == ORGANIZER then
      || PlayerMay(action, resource)
      || (resource == "tournament" && action in {"create", "update", "delete"})
      || (resource == "match" && action == "manage")
    else if role == ADMIN then resource in {"user", "tournament", "match", "staking", "governance"}
    else role == SUPER_ADMIN
  }

  predicate PlayerMay(action: string, resource: string) {
    || (action == "read" && resource in {"tournament", "match", "user"})
    || (action == "join" && resource == "tournament")
    || (action == "play" && resource == "match")
  }

  /** A role's own template meets the request. */
  ghost predicate Own(role: Role, required: Permission) {
    Offers(TEMPLATES, role, required)
  }

  lemma OwnGuest(required: Permission)
    ensures Own(GUEST, required) <==> Allowed(GUEST, required.action, required.resource)
  {
    RolesDiffer();
    var t := TEMPLATES[GUEST];
    assert t[0] in t && t[1] in t;
  }

  lemma OwnUser(required: Permission)
    ensures Own(USER, required) <==> PlayerMay(required.action, required.resource)
  {
    RolesDiffer();
    var t := TEMPLATES[USER];
    assert t[0] in t && t[1] in t && t[2] in t && t[3] in t && t[4] in t;
  }

  lemma ModeratorOwnsOnly(required: Permission)
    ensures Own(MODERATOR, required) ==> Allowed(MODERATOR, required.action, required.resource)
  {
    RolesDiffer();
  }

  lemma OwnModerator(required: Permission)
    ensures Own(MODERATOR, required) ==> Allowed(MODERATOR, required.action, required.resource)
    ensures Allowed(MODERATOR, required.action, required.resource) ==>
              Own(MODERATOR, required) || PlayerMay(required.action, required.resource)
  {
    RolesDiffer();
    ModeratorOwnsOnly(required);
    var t := TEMPLATES[MODERATOR];
    assert t[1] in t && t[3] in t && t[5] in t;
  }

  lemma OwnOrganizer(required: Permission)
    ensures Own(ORGANIZER, required) ==> Allowed(ORGANIZER, required.action, required.resource)
    ensures Allowed(ORGANIZER, required.action, required.resource) ==>
              Own(ORGANIZER, required) || PlayerMay(required.action, required.resource)
  {
    RolesDiffer();
    var t := TEMPLATES[ORGANIZER];
    assert t[0] in t && t[1] in t && t[2] in t && t[3] in t && t[4] in t;
  }

  lemma OwnAdmin(required: Permission)
    ensures Own(ADMIN, required) <==> Allowed(ADMIN, required.action, required.resource)
    ensures Own(SUPER_ADMIN, required)
  {
    RolesDiffer();
    var t := TEMPLATES[ADMIN];
    assert t[0] in t && t[1] in t && t[2] in t && t[3] in t && t[4] in t;
    assert TEMPLATES[SUPER_ADMIN][0] in TEMPLATES[SUPER_ADMIN];
  }

  lemma OthersOwnNothing(role: Role, required: Permission)
    requires role !in {GUEST, USER, MODERATOR, ORGANIZER, ADMIN, SUPER_ADMIN}
    ensures !Own(role, required)
  {
  }

  lemma GrantsIsInherited(role: Role, required: Permission)
    ensures Grants(HIERARCHY, TEMPLATES, {role}, [], required) <==>
            exists r :: r in Inherited(role) && Own(r, required)
  {
    InheritedIsClosure(role);
    GrantsThroughClosure(HIERARCHY, TEMPLATES, {role}, Inherited(role), required);
    if r :| r in Inherited(role) && Own(r, required) {
      assert Offers(TEMPLATES, r, required);
    }
    if r :| r in Inherited(role) && Offers(TEMPLATES, r, required) {
      assert Own(r, required);
    }
  }

  /** With the shipped hierarchy and templates, a role without explicit permissions is granted
      exactly what the table lists, whatever id is asked for; an unknown role gets nothing. */
  lemma DefaultAccess(role: Role, required: Permission)
    ensures Grants(HIERARCHY, TEMPLATES, {role}, [], required) <==> Allowed(role, required.action, required.resource)
  {
    GrantsIsInherited(role, required);
    OwnGuest(required);
    OwnUser(required);
    OwnModerator(required);
    OwnOrganizer(required);
    OwnAdmin(required);
    if role !in {GUEST, USER, MODERATOR, ORGANIZER, ADMIN, SUPER_ADMIN} {
      OthersOwnNothing(role, required);
    }
    InheritedOwn(role, required);
  }

  lemma InheritedOwn(role: Role, required: Permission)
    ensures (exists r :: r in Inherited(role) && Own(r, required)) <==>
            || Own(role, required)
            || (role in {USER, MODERATOR, ORGANIZER, ADMIN, SUPER_ADMIN} && Own(GUEST, required))
            || (role in {MODERATOR, ORGANIZER, ADMIN, SUPER_ADMIN} && Own(USER, required))
            || (role in {ADMIN, SUPER_ADMIN} && Own(MODERATOR, required))
            || (role == SUPER_ADMIN && Own(ADMIN, required))
  {
    RolesDiffer();
  }
}
