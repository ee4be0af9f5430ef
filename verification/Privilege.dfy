/**
 Handing out privileges: the rule that nobody confers what they do not hold, and
 the administrative operations that ask it, as steps over roles and accounts.
 */
module Privilege {
  import opened Wrappers
  import opened Text

  const ADMIN_ALL := "admin:all"
  const GUEST := "guest"

  datatype Role = Role(id: nat, isSystem: bool, permissions: set<string>)

  /** Role names are unique in the table; accounts wear roles by id. */
  datatype World = World(roles: map<string, Role>, users: map<nat, set<nat>>) {
    function Worn(user: nat): set<nat> {
      if user in users then users[user] else {}
    }

    /** Every permission an account holds through the roles it wears. */
    function HeldBy(user: nat): set<string> {
      set n, p | n in roles && roles[n].id in Worn(user) && p in roles[n].permissions :: p
    }

    /** The same for whoever acts, where nobody holds nothing. */
    function Held(actor: Option<nat>): set<string> {
      if actor.Some? then HeldBy(actor.value) else {}
    }
  }

  datatype Config = Config(known: set<string>, defaultRole: string)

  datatype Refusal =
    | PermissionsNotFound
    | PermissionDenied(exceeded: set<string>)
    | RoleExists
    | RoleNotFound(name: string)
    | RoleIsSystem
    | RoleNotAssignable
    | UserNotFound
    | NoRoles
    | NoDefaultRole
    | LastAdministrator
    | BadName

  /* -------------------- the rules -------------------- */

  /** What an actor would hand out beyond what they hold; nothing for a superuser. */
  function Exceeded(held: set<string>, permissions: set<string>): set<string> {
    if ADMIN_ALL in held then {} else permissions - held
  }

  const PRIVILEGED: set<string> := {"admin", "audit", "logs"}

  /** Authority over the service, or reaching past one's own rows. */
  predicate IsPrivileged(permission: string) {
    var action := After(permission, ':');
    Before(permission, ':') in PRIVILEGED || (|action| >= 4 && action[|action| - 4..] == "_any")
  }

  /** What keeps an actor from acting on an account that holds more authority. */
  function BeyondReach(held: set<string>, target: set<string>): set<string> {
    if ADMIN_ALL in held then {} else set p | p in target && IsPrivileged(p) && p !in held
  }

  /* -------------------- looking names up -------------------- */

  function ToSet<T>(s: seq<T>): set<T> {
    set x | x in s
  }

  /** The first name no role carries. */
  function FirstMissing(w: World, names: seq<string>): Option<string> {
    if names == [] then None
    else if names[0] !in w.roles then Some(names[0])
    else FirstMissing(w, names[1..])
  }

  function IdsOf(w: World, names: set<string>): set<nat> {
    set n | n in names && n in w.roles :: w.roles[n].id
  }

  function PermissionsOf(w: World, names: set<string>): set<string> {
    set n, p | n in names && n in w.roles && p in w.roles[n].permissions :: p
  }

  /* -------------------- the operations -------------------- */

  /**
   One administrative request. `noAdminLeft` is what the last-administrator count
   would answer, where the request asks it; `validName` is the rule for role names.
   */
  datatype Step =
    | CreateRole(actor: Option<nat>, name: string, permissions: seq<string>, id: nat, validName: bool)
    | UpdateRole(actor: Option<nat>, name: string, permissions: seq<string>, noAdminLeft: bool)
    | DeleteRole(actor: Option<nat>, name: string, noAdminLeft: bool)
    | AssignRoles(actor: Option<nat>, user: nat, names: seq<string>, noAdminLeft: bool)
    | CreateUser(actor: Option<nat>, user: nat, names: seq<string>)

  /** Ids are new when they are made. */
  predicate Enabled(w: World, step: Step) {
    match step
    case CreateRole(_, _, _, id, _) =>
      && (forall n <- w.roles :: w.roles[n].id != id)
      && (forall u <- w.users :: id !in w.users[u])
    case CreateUser(_, user, _) => user !in w.users
    case _ => true
  }

  function ConferRefusal(w: World, actor: Option<nat>, permissions: set<string>): Option<Refusal> {
    var exceeded := Exceeded(w.Held(actor), permissions);
    if exceeded != {} then Some(PermissionDenied(exceeded)) else None
  }

  function CreateRoleIn(cfg: Config, w: World, actor: Option<nat>, name: string, permissions: set<string>, id: nat, validName: bool)
    : Result<World, Refusal>
  {
    var refusal := ConferRefusal(w, actor, permissions);
    if !(permissions <= cfg.known) then Err(PermissionsNotFound)
    else if refusal.Some? then Err(refusal.value)
    else if !validName then Err(BadName)
    else if name in w.roles then Err(RoleExists)
    else Ok(w.(roles := w.roles[name := Role(id, false, permissions)]))
  }

  function UpdateRoleIn(cfg: Config, w: World, actor: Option<nat>, name: string, permissions: set<string>, noAdminLeft: bool)
    : Result<World, Refusal>
  {
    var refusal := ConferRefusal(w, actor, permissions);
    if !(permissions <= cfg.known) then Err(PermissionsNotFound)
    else if refusal.Some? then Err(refusal.value)
    else if name !in w.roles then Err(RoleNotFound(name))
    else
      var role := w.roles[name];
      if role.isSystem then Err(RoleIsSystem)
      else if ADMIN_ALL !in permissions && ADMIN_ALL in role.permissions && noAdminLeft then Err(LastAdministrator)
      else Ok(w.(roles := w.roles[name := role.(permissions := permissions)]))
  }

  /** What an account wears once a role is gone: the default one, if it was the only one. */
  function WornWithout(cfg: Config, roles: map<string, Role>, worn: set<nat>, gone: nat): set<nat> {
    if gone in worn && worn == {gone} && cfg.defaultRole in roles && cfg.defaultRole != GUEST then
      {roles[cfg.defaultRole].id}
    else worn - {gone}
  }

  function DeleteRoleIn(cfg: Config, w: World, name: string, noAdminLeft: bool): Result<World, Refusal> {
    if name !in w.roles then Err(RoleNotFound(name))
    else
      var role := w.roles[name];
      if role.isSystem then Err(RoleIsSystem)
      else if ADMIN_ALL in role.permissions && noAdminLeft then Err(LastAdministrator)
      else
        var roles := w.roles - {name};
        Ok(World(roles, map u | u in w.users :: WornWithout(cfg, roles, w.users[u], role.id)))
  }

  function AssignRolesIn(w: World, actor: Option<nat>, user: nat, names: seq<string>, noAdminLeft: bool)
    : Result<World, Refusal>
  {
    var missing, wanted := FirstMissing(w, names), ToSet(names);
    if missing.Some? then Err(RoleNotFound(missing.value))
    else if GUEST in wanted then Err(RoleNotAssignable)
    else
      var refusal := ConferRefusal(w, actor, PermissionsOf(w, wanted));
      var beyond := BeyondReach(w.Held(actor), w.HeldBy(user));
      if refusal.Some? then Err(refusal.value)
      else if beyond != {} then Err(PermissionDenied(beyond))
      else if ADMIN_ALL in w.HeldBy(user) && ADMIN_ALL !in PermissionsOf(w, wanted) && noAdminLeft then
        Err(LastAdministrator)
      else if user !in w.users then Err(UserNotFound)
      else if names == [] then Err(NoRoles)
      else Ok(w.(users := w.users[user := IdsOf(w, wanted)]))
  }

  /** Asked for no role, the account is given the default one, and nobody is asked. */
  function CreateUserIn(cfg: Config, w: World, actor: Option<nat>, user: nat, names: seq<string>): Result<World, Refusal> {
    if names == [] then
      if cfg.defaultRole !in w.roles then Err(NoDefaultRole)
      else if cfg.defaultRole == GUEST then Err(RoleNotAssignable)
      else Ok(w.(users := w.users[user := {w.roles[cfg.defaultRole].id}]))
    else
      var missing, wanted := FirstMissing(w, names), ToSet(names);
      if missing.Some? then Err(RoleNotFound(missing.value))
      else if GUEST in wanted then Err(RoleNotAssignable)
      else
        var refusal := ConferRefusal(w, actor, PermissionsOf(w, wanted));
        if refusal.Some? then Err(refusal.value) else Ok(w.(users := w.users[user := IdsOf(w, wanted)]))
  }

  function Try(cfg: Config, w: World, step: Step): Result<World, Refusal> {
    match step
    case CreateRole(actor, name, permissions, id, validName) =>
      CreateRoleIn(cfg, w, actor, name, ToSet(permissions), id, validName)
    case UpdateRole(actor, name, permissions, noAdminLeft) =>
      UpdateRoleIn(cfg, w, actor, name, ToSet(permissions), noAdminLeft)
    case DeleteRole(_, name, noAdminLeft) => DeleteRoleIn(cfg, w, name, noAdminLeft)
    case AssignRoles(actor, user, names, noAdminLeft) => AssignRolesIn(w, actor, user, names, noAdminLeft)
    case CreateUser(actor, user, names) => CreateUserIn(cfg, w, actor, user, names)
  }

  /** A refused request changes nothing. */
  function Apply(cfg: Config, w: World, step: Step): World {
    match Try(cfg, w, step)
    case Ok(after) => after
    case Err(_) => w
  }
}
