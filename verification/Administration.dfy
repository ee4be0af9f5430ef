/** The services behind those requests, changing the role and account tables in place. */
module Administration {
  import opened Wrappers
  import opened Privilege
  import opened PrivilegeRuns

  class Tables {
    const cfg: Config
    var roles: map<string, Role>
    var users: map<nat, set<nat>>

    constructor (cfg: Config, world: World)
      ensures this.cfg == cfg && State() == world
    {
      this.cfg := cfg;
      roles, users := world.roles, world.users;
    }

    function State(): World
      reads this
    {
      World(roles, users)
    }

    /**
     Role names to roles, each once, in the order asked for; or the first name that
     no role carries.
     */
    method ResolveRoles(names: seq<string>) returns (r: Result<seq<Role>, string>)
      requires Distinct(State())
      ensures match FirstMissing(State(), names)
              case Some(name) => r == Err(name)
              case None => r.Ok? && OncePerId(r.value) && ToSet(r.value) == RolesNamed(State(), ToSet(names))
    {
      var resolved: seq<Role> := [];
      var seen: set<nat> := {};
      assert names[0..] == names;
      for k := 0 to |names|
        invariant FirstMissing(State(), names) == FirstMissing(State(), names[k..])
        invariant ToSet(resolved) == RolesNamed(State(), ToSet(names[..k]))
        invariant seen == IdsIn(resolved)
        invariant OncePerId(resolved)
      {
        assert names[k..][1..] == names[k + 1..];
        if names[k] !in roles {
          return Err(names[k]);
        }
        var role := roles[names[k]];
        OneMoreName(State(), names, k);
        if role.id in seen {
          AlreadyResolved(State(), names, k, resolved);
        } else {
          OneMoreRole(resolved, role);
          seen := seen + {role.id};
          resolved := resolved + [role];
        }
      }
      assert names[..|names|] == names;
      return Ok(resolved);
    }

    method RequireMayConfer(actor: Option<nat>, permissions: set<string>) returns (refusal: Option<Refusal>)
      ensures refusal == ConferRefusal(State(), actor, permissions)
    {
      var held := State().Held(actor);
      if ADMIN_ALL in held {
        return None;
      }
      var exceeded := permissions - held;
      if exceeded != {} {
        return Some(PermissionDenied(exceeded));
      }
      return None;
    }

    /** What a request answers, and the tables it leaves, are those of the step it is. */
    ghost predicate Did(step: Step, before: World, refusal: Option<Refusal>)
      reads this
    {
      match Try(cfg, before, step)
      case Ok(after) => refusal.None? && State() == after
      case Err(e) => refusal == Some(e) && State() == before
    }

    method CreateRole(actor: Option<nat>, name: string, permissions: seq<string>, id: nat, validName: bool)
      returns (refusal: Option<Refusal>)
      modifies this`roles
      ensures Did(Step.CreateRole(actor, name, permissions, id, validName), old(State()), refusal)
    {
      var wanted := ToSet(permissions);
      if !(wanted <= cfg.known) {
        return Some(PermissionsNotFound);
      }
      refusal := RequireMayConfer(actor, wanted);
      if refusal.Some? {
        return;
      }
      if !validName {
        return Some(BadName);
      }
      if name in roles {
        return Some(RoleExists);
      }
      roles := roles[name := Role(id, false, wanted)];
    }

    method UpdateRolePermissions(actor: Option<nat>, name: string, permissions: seq<string>, noAdminLeft: bool)
      returns (refusal: Option<Refusal>)
      modifies this`roles
      ensures Did(UpdateRole(actor, name, permissions, noAdminLeft), old(State()), refusal)
    {
      var wanted := ToSet(permissions);
      if !(wanted <= cfg.known) {
        return Some(PermissionsNotFound);
      }
      refusal := RequireMayConfer(actor, wanted);
      if refusal.Some? {
        return;
      }
      if name in roles && !roles[name].isSystem && ADMIN_ALL !in wanted {
        if ADMIN_ALL in roles[name].permissions && noAdminLeft {
          return Some(LastAdministrator);
        }
      }
      if name !in roles {
        return Some(RoleNotFound(name));
      }
      if roles[name].isSystem {
        return Some(RoleIsSystem);
      }
      roles := roles[name := roles[name].(permissions := wanted)];
    }

    method UpdateUserRoles(actor: Option<nat>, user: nat, names: seq<string>, noAdminLeft: bool)
      returns (refusal: Option<Refusal>)
      requires Distinct(State())
      modifies this`users
      ensures Did(AssignRoles(actor, user, names, noAdminLeft), old(State()), refusal)
    {
      var resolved := ResolveRoles(names);
      if resolved.Err? {
        return Some(RoleNotFound(resolved.error));
      }
      ResolvedIsNamed(State(), ToSet(names), resolved.value);
      if GUEST in ToSet(names) {
        return Some(RoleNotAssignable);
      }
      refusal := RequireMayConfer(actor, Conferred(resolved.value));
      if refusal.Some? {
        return;
      }
      var beyond := BeyondReach(State().Held(actor), State().HeldBy(user));
      if beyond != {} {
        return Some(PermissionDenied(beyond));
      }
      if ADMIN_ALL in State().HeldBy(user) && ADMIN_ALL !in Conferred(resolved.value) && noAdminLeft {
        return Some(LastAdministrator);
      }
      if user !in users {
        return Some(UserNotFound);
      }
      if names == [] {
        return Some(NoRoles);
      }
      users := users[user := IdsIn(resolved.value)];
    }

    method CreateUser(actor: Option<nat>, user: nat, names: seq<string>) returns (refusal: Option<Refusal>)
      requires Distinct(State()) && user !in users
      modifies this`users
      ensures Did(Step.CreateUser(actor, user, names), old(State()), refusal)
    {
      var worn: set<nat>;
      if names == [] {
        if cfg.defaultRole !in roles {
          return Some(NoDefaultRole);
        }
        if cfg.defaultRole == GUEST {
          return Some(RoleNotAssignable);
        }
        worn := {roles[cfg.defaultRole].id};
      } else {
        var resolved := ResolveRoles(names);
        if resolved.Err? {
          return Some(RoleNotFound(resolved.error));
        }
        ResolvedIsNamed(State(), ToSet(names), resolved.value);
        if GUEST in ToSet(names) {
          return Some(RoleNotAssignable);
        }
        refusal := RequireMayConfer(actor, Conferred(resolved.value));
        if refusal.Some? {
          return;
        }
        worn := IdsIn(resolved.value);
      }
      users := users[user := worn];
      refusal := None;
    }

    /** Takes the role off everybody, then puts those it left bare on the default role. */
    method DeleteRole(actor: Option<nat>, name: string, noAdminLeft: bool) returns (refusal: Option<Refusal>)
      modifies this`roles, this`users
      ensures Did(Step.DeleteRole(actor, name, noAdminLeft), old(State()), refusal)
    {
      if name !in roles {
        return Some(RoleNotFound(name));
      }
      var doomed := roles[name];
      if doomed.isSystem {
        return Some(RoleIsSystem);
      }
      if ADMIN_ALL in doomed.permissions && noAdminLeft {
        return Some(LastAdministrator);
      }
      roles := roles - {name};
      TakeOff(doomed.id);
      refusal := None;
    }

    method TakeOff(gone: nat)
      modifies this`users
      ensures users == map u | u in old(users) :: WornWithout(cfg, roles, old(users)[u], gone)
    {
      var wearers := set u | u in users && gone in users[u];
      users := map u | u in users :: users[u] - {gone};
      ghost var bare := users;
      PutTheBareOnesBack(wearers);
      forall u | u in old(users) ensures users[u] == WornWithout(cfg, roles, old(users)[u], gone) {
        BareMeansOnlyRole(old(users)[u], gone);
        assert bare[u] == old(users)[u] - {gone};
      }
    }

    method PutTheBareOnesBack(wearers: set<nat>)
      requires wearers <= users.Keys
      modifies this`users
      ensures users == map u | u in old(users) ::
        if u in wearers && old(users)[u] == {} && cfg.defaultRole in roles && cfg.defaultRole != GUEST
        then {roles[cfg.defaultRole].id} else old(users)[u]
    {
      if cfg.defaultRole !in roles || cfg.defaultRole == GUEST {
        return;
      }
      var todo := wearers;
      while todo != {}
        invariant todo <= wearers
        invariant users.Keys == old(users).Keys
        invariant forall u <- old(users) ::
          users[u] == if u in wearers - todo && old(users)[u] == {} then {roles[cfg.defaultRole].id} else old(users)[u]
      {
        var u :| u in todo;
        if users[u] == {} {
          users := users[u := {roles[cfg.defaultRole].id}];
        }
        todo := todo - {u};
      }
    }
  }

  lemma BareMeansOnlyRole(worn: set<nat>, gone: nat)
    ensures gone in worn && worn - {gone} == {} <==> worn == {gone}
  {
    if gone in worn && worn - {gone} == {} {
      assert forall x <- worn :: x == gone || x in worn - {gone};
    }
  }

  predicate OncePerId(roles: seq<Role>) {
    forall i, j :: 0 <= i < j < |roles| ==> roles[i].id != roles[j].id
  }

  function RolesNamed(w: World, names: set<string>): set<Role> {
    set n | n in names && n in w.roles :: w.roles[n]
  }

  lemma OneMoreName(w: World, names: seq<string>, k: nat)
    requires k < |names| && names[k] in w.roles
    ensures RolesNamed(w, ToSet(names[..k + 1])) == RolesNamed(w, ToSet(names[..k])) + {w.roles[names[k]]}
  {
    assert names[..k + 1] == names[..k] + [names[k]];
    assert ToSet(names[..k + 1]) == ToSet(names[..k]) + {names[k]};
  }

  lemma OneMoreRole(roles: seq<Role>, role: Role)
    ensures ToSet(roles + [role]) == ToSet(roles) + {role} && IdsIn(roles + [role]) == IdsIn(roles) + {role.id}
  {
    var more := roles + [role];
    assert more[|roles|] == role && forall i :: 0 <= i < |roles| ==> more[i] == roles[i];
    forall id | id in IdsIn(roles) ensures id in IdsIn(more) {
      var i :| 0 <= i < |roles| && roles[i].id == id;
      assert more[i].id == id;
    }
    assert more[|roles|].id in IdsIn(more);
  }

  function IdsIn(roles: seq<Role>): set<nat> {
    set i | 0 <= i < |roles| :: roles[i].id
  }

  /** All the permissions these roles carry. */
  function Conferred(roles: seq<Role>): set<string> {
    set i, p | 0 <= i < |roles| && p in roles[i].permissions :: p
  }

  lemma ResolvedIsNamed(w: World, names: set<string>, roles: seq<Role>)
    requires ToSet(roles) == RolesNamed(w, names)
    ensures IdsIn(roles) == IdsOf(w, names) && Conferred(roles) == PermissionsOf(w, names)
  {
    forall i | 0 <= i < |roles| ensures roles[i] in RolesNamed(w, names) {
      assert roles[i] in ToSet(roles);
    }
    forall id | id in IdsOf(w, names) ensures id in IdsIn(roles) {
      var n :| n in names && n in w.roles && w.roles[n].id == id;
      var _ := IndexOf(w, names, roles, n);
    }
    forall p | p in PermissionsOf(w, names) ensures p in Conferred(roles) {
      var n :| n in names && n in w.roles && p in w.roles[n].permissions;
      var _ := IndexOf(w, names, roles, n);
    }
  }

  lemma IndexOf(w: World, names: set<string>, roles: seq<Role>, n: string) returns (i: nat)
    requires ToSet(roles) == RolesNamed(w, names) && n in names && n in w.roles
    ensures i < |roles| && roles[i] == w.roles[n]
  {
    assert w.roles[n] in ToSet(roles);
    i :| 0 <= i < |roles| && roles[i] == w.roles[n];
  }

  /** A role whose id was seen is one already resolved. */
  lemma AlreadyResolved(w: World, names: seq<string>, k: nat, resolved: seq<Role>)
    requires Distinct(w) && k < |names| && names[k] in w.roles
    requires ToSet(resolved) == RolesNamed(w, ToSet(names[..k]))
    requires w.roles[names[k]].id in IdsIn(resolved)
    ensures w.roles[names[k]] in ToSet(resolved)
  {
    var i :| 0 <= i < |resolved| && resolved[i].id == w.roles[names[k]].id;
    assert resolved[i] in ToSet(resolved);
  }
}
