/** No escalation, over every run of administrative requests. */
module PrivilegeRuns {
  import opened Wrappers
  import opened Privilege

  function Run(cfg: Config, w: World, steps: seq<Step>): World {
    if steps == [] then w else Apply(cfg, Run(cfg, w, steps[..|steps| - 1]), steps[|steps| - 1])
  }

  predicate ValidRun(cfg: Config, w: World, steps: seq<Step>) {
    steps == [] ||
    var before := steps[..|steps| - 1];
    ValidRun(cfg, w, before) && Enabled(Run(cfg, w, before), steps[|steps| - 1])
  }

  /** Ids tell roles apart. */
  predicate Distinct(w: World) {
    forall m, n :: m in w.roles && n in w.roles && w.roles[m].id == w.roles[n].id ==> m == n
  }

  /** The requests that can hand out the default role without asking anybody. */
  predicate UsesDefault(step: Step) {
    step.DeleteRole? || (step.CreateUser? && step.names == [])
  }

  /** Who acts in a run, and whether the default role may be given away in it. */
  predicate Within(steps: seq<Step>, actors: set<nat>, gifts: bool) {
    forall step <- steps :: (step.actor.Some? ==> step.actor.value in actors) && (UsesDefault(step) ==> gifts)
  }

  function DefaultPermissions(cfg: Config, w: World): set<string> {
    if cfg.defaultRole in w.roles then w.roles[cfg.defaultRole].permissions else {}
  }

  /** All that the acting accounts hold, and the default role if it may be given away. */
  function Ceiling(cfg: Config, w: World, actors: set<nat>, gifts: bool): set<string> {
    (set a, p | a in actors && p in w.HeldBy(a) :: p) + if gifts then DefaultPermissions(cfg, w) else {}
  }

  /** A role is as it was at the start, or grants nothing above the ceiling. */
  predicate RoleBounded(start: World, w: World, ceiling: set<string>, name: string) {
    name in w.roles ==>
      (name in start.roles && w.roles[name] == start.roles[name]) || w.roles[name].permissions <= ceiling
  }

  /** A role an account wears it wore at the start, unchanged, or it grants nothing above the ceiling. */
  predicate WearerBounded(start: World, w: World, ceiling: set<string>, user: nat, name: string) {
    name in w.roles && w.roles[name].id in w.Worn(user) ==>
      || (name in start.roles && w.roles[name] == start.roles[name] && w.roles[name].id in start.Worn(user))
      || w.roles[name].permissions <= ceiling
  }

  ghost predicate Bounded(cfg: Config, start: World, w: World, ceiling: set<string>, gifts: bool) {
    && Distinct(w)
    && (forall name :: RoleBounded(start, w, ceiling, name))
    && (forall user, name :: WearerBounded(start, w, ceiling, user, name))
    && (gifts ==> DefaultPermissions(cfg, w) <= ceiling)
  }

  /** What an account holds is bounded by what it held and the ceiling. */
  lemma BoundedHolds(cfg: Config, start: World, w: World, ceiling: set<string>, gifts: bool, user: nat)
    requires Bounded(cfg, start, w, ceiling, gifts)
    ensures w.HeldBy(user) <= start.HeldBy(user) + ceiling
  {
    forall p | p in w.HeldBy(user) ensures p in start.HeldBy(user) + ceiling {
      var n :| n in w.roles && w.roles[n].id in w.Worn(user) && p in w.roles[n].permissions;
      assert WearerBounded(start, w, ceiling, user, n);
    }
  }

  /** Whoever acts holds nothing above the ceiling, so nor does what they may confer. */
  lemma ActorBounded(cfg: Config, start: World, w: World, actors: set<nat>, gifts: bool, actor: Option<nat>, granted: set<string>)
    requires var ceiling := Ceiling(cfg, start, actors, gifts);
             Bounded(cfg, start, w, ceiling, gifts) && ADMIN_ALL !in ceiling
    requires actor.Some? ==> actor.value in actors
    requires ConferRefusal(w, actor, granted).None?
    ensures granted <= Ceiling(cfg, start, actors, gifts)
  {
    var ceiling := Ceiling(cfg, start, actors, gifts);
    if actor.Some? {
      BoundedHolds(cfg, start, w, ceiling, gifts, actor.value);
      assert start.HeldBy(actor.value) <= ceiling;
    }
    assert w.Held(actor) <= ceiling;
    assert ADMIN_ALL !in w.Held(actor);
    forall p | p in granted ensures p in ceiling {
      assert p !in granted - w.Held(actor);
    }
  }

  /* -------------------- what each request keeps -------------------- */

  lemma CreateRoleKeeps(cfg: Config, start: World, w: World, ceiling: set<string>, gifts: bool, name: string, role: Role)
    requires Bounded(cfg, start, w, ceiling, gifts) && role.permissions <= ceiling
    requires name !in w.roles && forall n <- w.roles :: w.roles[n].id != role.id
    ensures Bounded(cfg, start, w.(roles := w.roles[name := role]), ceiling, gifts)
  {
    var after := w.(roles := w.roles[name := role]);
    forall n ensures RoleBounded(start, after, ceiling, n) {
      assert RoleBounded(start, w, ceiling, n);
    }
    forall u, n ensures WearerBounded(start, after, ceiling, u, n) {
      assert WearerBounded(start, w, ceiling, u, n);
    }
  }

  lemma UpdateRoleKeeps(cfg: Config, start: World, w: World, ceiling: set<string>, gifts: bool, name: string, permissions: set<string>)
    requires Bounded(cfg, start, w, ceiling, gifts) && permissions <= ceiling && name in w.roles
    ensures Bounded(cfg, start, w.(roles := w.roles[name := w.roles[name].(permissions := permissions)]), ceiling, gifts)
  {
    var after := w.(roles := w.roles[name := w.roles[name].(permissions := permissions)]);
    forall n ensures RoleBounded(start, after, ceiling, n) {
      assert RoleBounded(start, w, ceiling, n);
    }
    forall u, n ensures WearerBounded(start, after, ceiling, u, n) {
      assert WearerBounded(start, w, ceiling, u, n);
    }
  }

  lemma DeleteRoleKeeps(cfg: Config, start: World, w: World, ceiling: set<string>, name: string, noAdminLeft: bool)
    requires Bounded(cfg, start, w, ceiling, true) && DeleteRoleIn(cfg, w, name, noAdminLeft).Ok?
    ensures Bounded(cfg, start, DeleteRoleIn(cfg, w, name, noAdminLeft).value, ceiling, true)
  {
    var after := DeleteRoleIn(cfg, w, name, noAdminLeft).value;
    forall n ensures RoleBounded(start, after, ceiling, n) {
      assert RoleBounded(start, w, ceiling, n);
    }
    forall u, n ensures WearerBounded(start, after, ceiling, u, n) {
      assert WearerBounded(start, w, ceiling, u, n);
      if n in after.roles && after.roles[n].id in after.Worn(u) && after.roles[n].id !in w.Worn(u) {
        assert after.roles[n].id == after.roles[cfg.defaultRole].id;
        assert n == cfg.defaultRole;
      }
    }
  }

  /** Roles are given to an account whose permissions stay below the ceiling. */
  lemma GivingKeeps(cfg: Config, start: World, w: World, ceiling: set<string>, gifts: bool, user: nat, names: set<string>)
    requires Bounded(cfg, start, w, ceiling, gifts) && PermissionsOf(w, names) <= ceiling
    ensures Bounded(cfg, start, w.(users := w.users[user := IdsOf(w, names)]), ceiling, gifts)
  {
    var after := w.(users := w.users[user := IdsOf(w, names)]);
    forall n ensures RoleBounded(start, after, ceiling, n) {
      assert RoleBounded(start, w, ceiling, n);
    }
    forall u, n ensures WearerBounded(start, after, ceiling, u, n) {
      assert WearerBounded(start, w, ceiling, u, n);
      if u == user && n in w.roles && w.roles[n].id in IdsOf(w, names) {
        assert n in names;
        assert w.roles[n].permissions <= PermissionsOf(w, names);
      }
    }
  }

  lemma StepKeeps(cfg: Config, start: World, w: World, actors: set<nat>, gifts: bool, step: Step)
    requires var ceiling := Ceiling(cfg, start, actors, gifts);
             Bounded(cfg, start, w, ceiling, gifts) && ADMIN_ALL !in ceiling
    requires Enabled(w, step) && Within([step], actors, gifts)
    ensures Bounded(cfg, start, Apply(cfg, w, step), Ceiling(cfg, start, actors, gifts), gifts)
  {
    var ceiling := Ceiling(cfg, start, actors, gifts);
    assert step in [step];
    if Try(cfg, w, step).Ok? {
      match step
      case CreateRole(actor, name, permissions, id, _) =>
        ActorBounded(cfg, start, w, actors, gifts, actor, ToSet(permissions));
        CreateRoleKeeps(cfg, start, w, ceiling, gifts, name, Role(id, false, ToSet(permissions)));
      case UpdateRole(actor, name, permissions, _) =>
        ActorBounded(cfg, start, w, actors, gifts, actor, ToSet(permissions));
        UpdateRoleKeeps(cfg, start, w, ceiling, gifts, name, ToSet(permissions));
      case DeleteRole(_, name, noAdminLeft) => DeleteRoleKeeps(cfg, start, w, ceiling, name, noAdminLeft);
      case AssignRoles(actor, user, names, _) =>
        ActorBounded(cfg, start, w, actors, gifts, actor, PermissionsOf(w, ToSet(names)));
        GivingKeeps(cfg, start, w, ceiling, gifts, user, ToSet(names));
      case CreateUser(actor, user, names) =>
        if names == [] {
          DefaultIsBounded(cfg, w, ceiling);
          GivingKeeps(cfg, start, w, ceiling, gifts, user, {cfg.defaultRole});
          assert IdsOf(w, {cfg.defaultRole}) == {w.roles[cfg.defaultRole].id};
        } else {
          ActorBounded(cfg, start, w, actors, gifts, actor, PermissionsOf(w, ToSet(names)));
          GivingKeeps(cfg, start, w, ceiling, gifts, user, ToSet(names));
        }
    }
  }

  lemma DefaultIsBounded(cfg: Config, w: World, ceiling: set<string>)
    requires DefaultPermissions(cfg, w) <= ceiling
    ensures PermissionsOf(w, {cfg.defaultRole}) <= ceiling
  {
  }

  lemma {:induction false} AlwaysBounded(cfg: Config, w: World, steps: seq<Step>, actors: set<nat>, gifts: bool)
    requires Distinct(w) && ValidRun(cfg, w, steps) && Within(steps, actors, gifts)
    requires ADMIN_ALL !in Ceiling(cfg, w, actors, gifts)
    ensures Bounded(cfg, w, Run(cfg, w, steps), Ceiling(cfg, w, actors, gifts), gifts)
  {
    if steps != [] {
      var before, step := steps[..|steps| - 1], steps[|steps| - 1];
      assert step in steps;
      AlwaysBounded(cfg, w, before, actors, gifts);
      StepKeeps(cfg, w, Run(cfg, w, before), actors, gifts, step);
    }
  }

  /**
   Nobody escalates: after any run of requests by accounts none of which holds
   `admin:all`, what an account has gained was held by one of the acting accounts
   at the start, or comes with the default role where that may be given away.
   */
  lemma NoEscalation(cfg: Config, w: World, steps: seq<Step>, actors: set<nat>, gifts: bool, user: nat)
    requires Distinct(w) && ValidRun(cfg, w, steps) && Within(steps, actors, gifts)
    requires ADMIN_ALL !in Ceiling(cfg, w, actors, gifts)
    ensures Run(cfg, w, steps).HeldBy(user) - w.HeldBy(user) <= Ceiling(cfg, w, actors, gifts)
    ensures user in actors ==> Run(cfg, w, steps).HeldBy(user) <= Ceiling(cfg, w, actors, gifts)
  {
    AlwaysBounded(cfg, w, steps, actors, gifts);
    BoundedHolds(cfg, w, Run(cfg, w, steps), Ceiling(cfg, w, actors, gifts), gifts, user);
  }

  /**
   Why the default role counts: an account that holds nothing at all can still have
   it handed to a new one.
   */
  lemma TheDefaultRoleIsAGift(cfg: Config, w: World, actor: nat, user: nat, p: string)
    requires actor !in w.users && user !in w.users && cfg.defaultRole != GUEST
    requires cfg.defaultRole in w.roles && p in w.roles[cfg.defaultRole].permissions
    ensures p in Apply(cfg, w, CreateUser(Some(actor), user, [])).HeldBy(user)
    ensures p !in w.HeldBy(user) && p !in w.HeldBy(actor)
  {
    var after := Apply(cfg, w, CreateUser(Some(actor), user, []));
    assert after.roles[cfg.defaultRole].id in after.Worn(user);
  }

  /* -------------------- reaching accounts -------------------- */

  /** The account wears the role it wore at the start, unchanged. */
  predicate Keeps(start: World, w: World, user: nat, n: string) {
    n in start.roles && n in w.roles && w.roles[n] == start.roles[n] && w.roles[n].id in w.Worn(user)
  }

  /** A passing edit or deletion of the role: the requests that ask nothing about its wearers. */
  predicate Takes(cfg: Config, w: World, step: Step, n: string) {
    (step.UpdateRole? || step.DeleteRole?) && step.name == n && Try(cfg, w, step).Ok?
  }

  predicate EverTaken(cfg: Config, w: World, steps: seq<Step>, n: string) {
    exists k :: 0 <= k < |steps| && Takes(cfg, Run(cfg, w, steps[..k]), steps[k], n)
  }

  lemma EverTakenGrows(cfg: Config, w: World, steps: seq<Step>, n: string)
    requires steps != []
    ensures var before := steps[..|steps| - 1];
            EverTaken(cfg, w, steps, n) <==>
              EverTaken(cfg, w, before, n) || Takes(cfg, Run(cfg, w, before), steps[|steps| - 1], n)
  {
    var before := steps[..|steps| - 1];
    assert forall k :: 0 <= k <= |before| ==> steps[..k] == before[..k];
    assert before[..|before|] == before;
    if EverTaken(cfg, w, before, n) {
      var k :| 0 <= k < |before| && Takes(cfg, Run(cfg, w, before[..k]), before[k], n);
      assert Takes(cfg, Run(cfg, w, steps[..k]), steps[k], n);
    }
    if Takes(cfg, Run(cfg, w, before), steps[|before|], n) {
      assert Takes(cfg, Run(cfg, w, steps[..|before|]), steps[|before|], n);
    }
    if EverTaken(cfg, w, steps, n) {
      var k :| 0 <= k < |steps| && Takes(cfg, Run(cfg, w, steps[..k]), steps[k], n);
      assert k < |before| ==> Takes(cfg, Run(cfg, w, before[..k]), before[k], n);
    }
  }

  /**
   How authority is lost, over every run: an account that holds an authority above
   the ceiling through a role loses that role if and only if an edit or a deletion
   of the role itself passed. No re-roling by the acting accounts takes it off, and
   once gone it does not come back.
   */
  lemma {:induction false} AuthorityIsLostExactly(
    cfg: Config, w: World, steps: seq<Step>, actors: set<nat>, gifts: bool, user: nat, n: string, p: string)
    requires Distinct(w) && ValidRun(cfg, w, steps) && Within(steps, actors, gifts)
    requires ADMIN_ALL !in Ceiling(cfg, w, actors, gifts)
    requires Keeps(w, w, user, n) && p in w.roles[n].permissions
    requires IsPrivileged(p) && p !in Ceiling(cfg, w, actors, gifts)
    ensures var after := Run(cfg, w, steps);
            && (Keeps(w, after, user, n) <==> !EverTaken(cfg, w, steps, n))
            && (EverTaken(cfg, w, steps, n) && n in after.roles ==> p !in after.roles[n].permissions)
  {
    if steps != [] {
      var before, step := steps[..|steps| - 1], steps[|steps| - 1];
      var mid := Run(cfg, w, before);
      assert step in steps;
      AuthorityIsLostExactly(cfg, w, before, actors, gifts, user, n, p);
      AlwaysBounded(cfg, w, before, actors, gifts);
      EverTakenGrows(cfg, w, steps, n);
      if Keeps(w, mid, user, n) {
        KeptUnlessTaken(cfg, w, mid, actors, gifts, step, user, n, p);
      } else {
        LostStaysLost(cfg, w, mid, actors, gifts, step, n, p);
      }
    }
  }

  lemma KeptUnlessTaken(cfg: Config, start: World, w: World, actors: set<nat>, gifts: bool, step: Step, user: nat, n: string, p: string)
    requires var ceiling := Ceiling(cfg, start, actors, gifts);
             Bounded(cfg, start, w, ceiling, gifts) && ADMIN_ALL !in ceiling && p !in ceiling
    requires Enabled(w, step) && Within([step], actors, gifts)
    requires Keeps(start, w, user, n) && p in w.roles[n].permissions && IsPrivileged(p)
    ensures var after := Apply(cfg, w, step);
            && (Keeps(start, after, user, n) <==> !Takes(cfg, w, step, n))
            && (Takes(cfg, w, step, n) && n in after.roles ==> p !in after.roles[n].permissions)
  {
    assert step in [step];
    assert p in w.HeldBy(user);
    if step.AssignRoles? && step.user == user {
      Unreachable(cfg, start, w, actors, gifts, step, p);
    } else if step.UpdateRole? && Takes(cfg, w, step, n) {
      ActorBounded(cfg, start, w, actors, gifts, step.actor, ToSet(step.permissions));
    } else if step.DeleteRole? && Try(cfg, w, step).Ok? && step.name != n {
      assert w.roles[step.name].id != w.roles[n].id;
    }
  }

  lemma LostStaysLost(cfg: Config, start: World, w: World, actors: set<nat>, gifts: bool, step: Step, n: string, p: string)
    requires var ceiling := Ceiling(cfg, start, actors, gifts);
             Bounded(cfg, start, w, ceiling, gifts) && ADMIN_ALL !in ceiling && p !in ceiling
    requires Within([step], actors, gifts) && (n in w.roles ==> p !in w.roles[n].permissions)
    ensures var after := Apply(cfg, w, step); n in after.roles ==> p !in after.roles[n].permissions
  {
    assert step in [step];
    if (step.CreateRole? || step.UpdateRole?) && Try(cfg, w, step).Ok? {
      ActorBounded(cfg, start, w, actors, gifts, step.actor, ToSet(step.permissions));
    }
  }

  /** The account still wears a role that granted it `p` at the start and was never taken. */
  ghost predicate StillGranted(cfg: Config, w: World, steps: seq<Step>, user: nat, p: string) {
    exists n :: Keeps(w, w, user, n) && p in w.roles[n].permissions && !EverTaken(cfg, w, steps, n)
  }

  /**
   What becomes of an authority above the ceiling, for every account and every run:
   the account holds it at the end exactly when some role that granted it to the
   account at the start was never edited or deleted. Nobody else has gained it.
   */
  lemma AuthorityIsHeldExactly(
    cfg: Config, w: World, steps: seq<Step>, actors: set<nat>, gifts: bool, user: nat, p: string)
    requires Distinct(w) && ValidRun(cfg, w, steps) && Within(steps, actors, gifts)
    requires ADMIN_ALL !in Ceiling(cfg, w, actors, gifts)
    requires IsPrivileged(p) && p !in Ceiling(cfg, w, actors, gifts)
    ensures p in Run(cfg, w, steps).HeldBy(user) <==> StillGranted(cfg, w, steps, user, p)
  {
    var after, ceiling := Run(cfg, w, steps), Ceiling(cfg, w, actors, gifts);
    if p in after.HeldBy(user) {
      AlwaysBounded(cfg, w, steps, actors, gifts);
      var n :| n in after.roles && after.roles[n].id in after.Worn(user) && p in after.roles[n].permissions;
      assert WearerBounded(w, after, ceiling, user, n);
      AuthorityIsLostExactly(cfg, w, steps, actors, gifts, user, n, p);
    }
    if StillGranted(cfg, w, steps, user, p) {
      var n :| Keeps(w, w, user, n) && p in w.roles[n].permissions && !EverTaken(cfg, w, steps, n);
      AuthorityIsLostExactly(cfg, w, steps, actors, gifts, user, n, p);
    }
  }

  /** A system role is never taken, nor is one that no edit or deletion names. */
  lemma {:induction false} NeverTaken(cfg: Config, w: World, steps: seq<Step>, n: string)
    requires n in w.roles
    requires w.roles[n].isSystem || forall step <- steps :: (step.UpdateRole? || step.DeleteRole?) ==> step.name != n
    ensures !EverTaken(cfg, w, steps, n)
    ensures w.roles[n].isSystem ==> n in Run(cfg, w, steps).roles && Run(cfg, w, steps).roles[n] == w.roles[n]
  {
    if steps != [] {
      assert steps[|steps| - 1] in steps;
      NeverTaken(cfg, w, steps[..|steps| - 1], n);
      EverTakenGrows(cfg, w, steps, n);
    }
  }

  /**
   So authority held through a system role, or through one that no edit or deletion
   names, is out of reach of every run of the acting accounts.
   */
  lemma AuthorityIsOutOfReach(
    cfg: Config, w: World, steps: seq<Step>, actors: set<nat>, gifts: bool, user: nat, n: string, p: string)
    requires Distinct(w) && ValidRun(cfg, w, steps) && Within(steps, actors, gifts)
    requires ADMIN_ALL !in Ceiling(cfg, w, actors, gifts)
    requires Keeps(w, w, user, n) && p in w.roles[n].permissions
    requires IsPrivileged(p) && p !in Ceiling(cfg, w, actors, gifts)
    requires w.roles[n].isSystem || forall step <- steps :: (step.UpdateRole? || step.DeleteRole?) ==> step.name != n
    ensures Keeps(w, Run(cfg, w, steps), user, n) && p in Run(cfg, w, steps).HeldBy(user)
  {
    AuthorityIsLostExactly(cfg, w, steps, actors, gifts, user, n, p);
    NeverTaken(cfg, w, steps, n);
  }

  /**
   And the way it is lost: whoever asks, even nobody at all, emptying a role that is
   not the service's own takes every permission of it off an account that wears
   nothing else.
   */
  lemma EditsTakeAuthority(cfg: Config, w: World, user: nat, n: string, p: string)
    requires Distinct(w) && n in w.roles && !w.roles[n].isSystem && w.Worn(user) == {w.roles[n].id}
    requires p in w.roles[n].permissions
    ensures p in w.HeldBy(user) && Takes(cfg, w, UpdateRole(None, n, [], false), n)
    ensures Apply(cfg, w, UpdateRole(None, n, [], false)).HeldBy(user) == {}
  {
    var step := UpdateRole(None, n, [], false);
    var after := Apply(cfg, w, step);
    assert w.roles[n].id in w.Worn(user);
    assert ToSet<string>([]) == {};
    forall m | m in after.roles && after.roles[m].id in after.Worn(user) ensures after.roles[m].permissions == {} {
      assert m == n;
    }
  }

  lemma Unreachable(cfg: Config, start: World, w: World, actors: set<nat>, gifts: bool, step: Step, p: string)
    requires var ceiling := Ceiling(cfg, start, actors, gifts);
             Bounded(cfg, start, w, ceiling, gifts) && ADMIN_ALL !in ceiling && p !in ceiling
    requires step.AssignRoles? && (step.actor.Some? ==> step.actor.value in actors)
    requires p in w.HeldBy(step.user) && IsPrivileged(p)
    ensures Try(cfg, w, step).Err?
  {
    var ceiling := Ceiling(cfg, start, actors, gifts);
    if step.actor.Some? {
      BoundedHolds(cfg, start, w, ceiling, gifts, step.actor.value);
      assert start.HeldBy(step.actor.value) <= ceiling;
    }
    assert p in BeyondReach(w.Held(step.actor), w.HeldBy(step.user));
  }
}
