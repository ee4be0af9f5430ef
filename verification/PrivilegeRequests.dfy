/** One administrative request: when it passes, and exactly what it then leaves. */
module PrivilegeRequests {
  import opened Wrappers
  import opened Seqs
  import opened Text
  import opened Privilege
  import opened PrivilegeRuns

  /* -------------------- the rules -------------------- */

  /** A superuser anything, anybody else what they hold. */
  predicate MayConfer(w: World, actor: Option<nat>, permissions: set<string>) {
    "admin:all" in w.Held(actor) || permissions <= w.Held(actor)
  }

  /** Who may confer what, and what a refusal names. */
  lemma MayConferExactly(w: World, actor: Option<nat>, permissions: set<string>)
    ensures ConferRefusal(w, actor, permissions) ==
      if MayConfer(w, actor, permissions) then None else Some(PermissionDenied(permissions - w.Held(actor)))
  {
    var held := w.Held(actor);
    if permissions <= held {
      assert permissions - held == {};
    } else {
      var p :| p in permissions && p !in held;
      assert p in permissions - held;
    }
  }

  /** Authority is by resource, or by reaching past one's own rows. */
  lemma PrivilegedExactly(resource: string, action: string)
    requires Free(resource, ':')
    ensures IsPrivileged(resource + ":" + action) <==>
      resource == "admin" || resource == "audit" || resource == "logs" || EndsIn(action, "_any")
  {
    CutAt(resource, action, ':');
  }

  predicate EndsIn(s: string, end: string) {
    exists k :: 0 <= k <= |s| && s[k..] == end
  }

  /** An actor reaches an account that holds no authority they do not. */
  predicate MayReach(w: World, actor: Option<nat>, user: nat) {
    "admin:all" in w.Held(actor) || forall p <- w.HeldBy(user) :: IsPrivileged(p) ==> p in w.Held(actor)
  }

  predicate IsFirstMissing(w: World, names: seq<string>, k: int) {
    0 <= k < |names| && names[k] !in w.roles && forall j :: 0 <= j < k ==> names[j] in w.roles
  }

  /** The name reported missing is the first that is. */
  lemma {:induction false} FirstMissingExactly(w: World, names: seq<string>)
    ensures FirstMissing(w, names).None? <==> forall n <- names :: n in w.roles
    ensures FirstMissing(w, names).Some? ==> exists k :: IsFirstMissing(w, names, k) && names[k] == FirstMissing(w, names).value
  {
    if names != [] && names[0] !in w.roles {
      assert IsFirstMissing(w, names, 0);
    } else if names != [] {
      var rest := names[1..];
      FirstMissingExactly(w, rest);
      assert forall n <- names :: n == names[0] || n in rest;
      assert forall j :: 1 <= j < |names| ==> names[j] == rest[j - 1];
      if FirstMissing(w, names).Some? {
        var k :| IsFirstMissing(w, rest, k) && rest[k] == FirstMissing(w, rest).value;
        assert IsFirstMissing(w, names, k + 1);
      }
    }
  }

  /* -------------------- creating and editing roles -------------------- */

  /** Every role but one is as it was, and every account wears what it wore. */
  predicate OnlyRole(w: World, after: World, name: string) {
    && after.users == w.users && name in after.roles && after.roles.Keys == w.roles.Keys + {name}
    && forall n <- w.roles :: n != name ==> after.roles[n] == w.roles[n]
  }

  /**
   A role is created exactly for known permissions the actor may confer, under a good
   name nobody has. It is not the service's own, grants exactly what was asked for, and
   nobody wears it yet.
   */
  lemma RolesAreCreatedExactly(cfg: Config, w: World, step: Step, user: nat)
    requires step.CreateRole? && Enabled(w, step)
    ensures var asked := ToSet(step.permissions);
            Try(cfg, w, step).Ok? <==>
              asked <= cfg.known && MayConfer(w, step.actor, asked) && step.validName && step.name !in w.roles
    ensures Try(cfg, w, step).Ok? ==>
      var after := Apply(cfg, w, step);
      && OnlyRole(w, after, step.name) && after.roles[step.name].id == step.id && !after.roles[step.name].isSystem
      && (forall p :: p in after.roles[step.name].permissions <==> p in step.permissions)
      && after.HeldBy(user) == w.HeldBy(user)
    ensures Try(cfg, w, step).Err? ==> Apply(cfg, w, step) == w
  {
    MayConferExactly(w, step.actor, ToSet(step.permissions));
    if Try(cfg, w, step).Ok? {
      var after := Apply(cfg, w, step);
      forall p ensures p in after.HeldBy(user) <==> p in w.HeldBy(user) {
        if p in w.HeldBy(user) {
          var n :| n in w.roles && w.roles[n].id in w.Worn(user) && p in w.roles[n].permissions;
          assert n in after.roles;
        }
      }
    }
  }

  /**
   A role is edited exactly if it is not the service's own, for known permissions the
   actor may confer, and not where that takes away the last administrator. It then
   grants exactly what was asked for, and its wearers hold exactly that and what their
   other roles grant.
   */
  lemma RolesAreEditedExactly(cfg: Config, w: World, step: Step, user: nat)
    requires Distinct(w) && step.UpdateRole?
    ensures var asked := ToSet(step.permissions);
            Try(cfg, w, step).Ok? <==>
              && asked <= cfg.known && MayConfer(w, step.actor, asked)
              && step.name in w.roles && !w.roles[step.name].isSystem
              && !(step.noAdminLeft && ADMIN_ALL in w.roles[step.name].permissions && ADMIN_ALL !in asked)
    ensures Try(cfg, w, step).Ok? ==>
      var after := Apply(cfg, w, step);
      && OnlyRole(w, after, step.name)
      && after.roles[step.name].id == w.roles[step.name].id && after.roles[step.name].isSystem == w.roles[step.name].isSystem
      && (forall p :: p in after.roles[step.name].permissions <==> p in step.permissions)
      && after.HeldBy(user) ==
           HeldWithout(w, user, step.name) + (if w.roles[step.name].id in w.Worn(user) then ToSet(step.permissions) else {})
    ensures Try(cfg, w, step).Err? ==> Apply(cfg, w, step) == w
  {
    MayConferExactly(w, step.actor, ToSet(step.permissions));
    if Try(cfg, w, step).Ok? {
      EditedHold(w, Apply(cfg, w, step), step.name, ToSet(step.permissions), user);
    }
  }

  lemma EditedHold(w: World, after: World, name: string, asked: set<string>, user: nat)
    requires OnlyRole(w, after, name) && name in w.roles && after.roles[name] == w.roles[name].(permissions := asked)
    ensures after.HeldBy(user) == HeldWithout(w, user, name) + (if w.roles[name].id in w.Worn(user) then asked else {})
  {
    var wears := w.roles[name].id in w.Worn(user);
    forall p ensures p in after.HeldBy(user) <==> p in HeldWithout(w, user, name) || (wears && p in asked) {
      if p in after.HeldBy(user) {
        var n :| n in after.roles && after.roles[n].id in after.Worn(user) && p in after.roles[n].permissions;
        assert n != name ==> n in w.roles && after.roles[n] == w.roles[n];
      }
      if p in HeldWithout(w, user, name) {
        var n :| n in w.roles && n != name && w.roles[n].id in w.Worn(user) && p in w.roles[n].permissions;
        assert n in after.roles && after.roles[n] == w.roles[n];
      }
      if wears && p in asked {
        assert after.roles[name].id in after.Worn(user);
      }
    }
  }

  /** A role is deleted exactly if it is there, not the service's own, and no last administrator hangs on it. */
  lemma RolesAreDeletedExactly(cfg: Config, w: World, step: Step)
    requires step.DeleteRole?
    ensures Try(cfg, w, step).Ok? <==>
      && step.name in w.roles && !w.roles[step.name].isSystem
      && !(step.noAdminLeft && ADMIN_ALL in w.roles[step.name].permissions)
    ensures Try(cfg, w, step).Err? ==> Apply(cfg, w, step) == w
    ensures Try(cfg, w, step).Ok? ==>
      Apply(cfg, w, step).roles == w.roles - {step.name} && Apply(cfg, w, step).users.Keys == w.users.Keys
  {
  }

  /* -------------------- giving roles to accounts -------------------- */

  /** The roles are all there, all to be worn, and all within what the actor may confer. */
  predicate MayGive(w: World, actor: Option<nat>, names: seq<string>) {
    && (forall n <- names :: n in w.roles && n != "guest")
    && MayConfer(w, actor, PermissionsOf(w, ToSet(names)))
  }

  /**
   An account is re-roled exactly if it is there, the roles may be given and are not
   none, the actor may reach it, and it does not stop being the last administrator.
   */
  lemma AccountsAreReroledExactly(cfg: Config, w: World, step: Step)
    requires step.AssignRoles?
    ensures Try(cfg, w, step).Ok? <==>
      && step.user in w.users && step.names != [] && MayGive(w, step.actor, step.names) && MayReach(w, step.actor, step.user)
      && !(step.noAdminLeft && ADMIN_ALL in w.HeldBy(step.user) && ADMIN_ALL !in PermissionsOf(w, ToSet(step.names)))
    ensures Try(cfg, w, step).Err? ==> Apply(cfg, w, step) == w
  {
    FirstMissingExactly(w, step.names);
    MayConferExactly(w, step.actor, PermissionsOf(w, ToSet(step.names)));
    ReachExactly(w, step.actor, step.user);
  }

  lemma ReachExactly(w: World, actor: Option<nat>, user: nat)
    ensures BeyondReach(w.Held(actor), w.HeldBy(user)) == {} <==> MayReach(w, actor, user)
  {
    var beyond := BeyondReach(w.Held(actor), w.HeldBy(user));
    if ADMIN_ALL !in w.Held(actor) {
      if beyond == {} {
        forall p | p in w.HeldBy(user) && IsPrivileged(p) ensures p in w.Held(actor) {
          assert p !in beyond;
        }
      } else {
        var p :| p in beyond;
      }
    }
  }

  /**
   An account is created exactly with roles that may be given, and holds exactly what
   they grant; or with none named, with the default role if there is one to be worn.
   */
  lemma AccountsAreCreatedExactly(cfg: Config, w: World, step: Step, other: nat)
    requires Distinct(w) && step.CreateUser? && Enabled(w, step)
    ensures Try(cfg, w, step).Ok? <==>
      if step.names == [] then cfg.defaultRole in w.roles && cfg.defaultRole != "guest" else MayGive(w, step.actor, step.names)
    ensures Try(cfg, w, step).Ok? ==>
      var after := Apply(cfg, w, step);
      && after.roles == w.roles && after.users.Keys == w.users.Keys + {step.user}
      && after.HeldBy(step.user) ==
           (if step.names == [] then DefaultPermissions(cfg, w) else PermissionsOf(w, ToSet(step.names)))
      && (other != step.user ==> after.HeldBy(other) == w.HeldBy(other))
    ensures Try(cfg, w, step).Err? ==> Apply(cfg, w, step) == w
  {
    FirstMissingExactly(w, step.names);
    MayConferExactly(w, step.actor, PermissionsOf(w, ToSet(step.names)));
    if Try(cfg, w, step).Ok? {
      var after := Apply(cfg, w, step);
      assert other != step.user ==> after.Worn(other) == w.Worn(other);
      if step.names == [] {
        var d := cfg.defaultRole;
        assert IdsOf(w, {d}) == {w.roles[d].id};
        GivenHoldsExactly(w, after, step.user, {d});
        assert PermissionsOf(w, {d}) == w.roles[d].permissions;
      } else {
        GivenHoldsExactly(w, after, step.user, ToSet(step.names));
      }
    }
  }

  lemma GivenHoldsExactly(w: World, after: World, user: nat, names: set<string>)
    requires Distinct(w) && after.roles == w.roles && after.Worn(user) == IdsOf(w, names)
    ensures after.HeldBy(user) == PermissionsOf(w, names)
  {
    forall p ensures p in after.HeldBy(user) <==> p in PermissionsOf(w, names) {
      if p in after.HeldBy(user) {
        var n :| n in w.roles && w.roles[n].id in IdsOf(w, names) && p in w.roles[n].permissions;
        assert n in names;
      }
      if p in PermissionsOf(w, names) {
        var n :| n in names && n in w.roles && p in w.roles[n].permissions;
        assert w.roles[n].id in IdsOf(w, names);
      }
    }
  }

  /** Re-roled, an account holds exactly what the named roles grant, and nobody else's changes. */
  lemma AssignedHoldsExactly(cfg: Config, w: World, step: Step, other: nat)
    requires Distinct(w) && step.AssignRoles? && Try(cfg, w, step).Ok?
    ensures var after := Apply(cfg, w, step);
            && after.roles == w.roles
            && after.HeldBy(step.user) == PermissionsOf(w, ToSet(step.names))
            && (other != step.user ==> after.HeldBy(other) == w.HeldBy(other))
  {
    var after := Apply(cfg, w, step);
    GivenHoldsExactly(w, after, step.user, ToSet(step.names));
    assert other != step.user ==> after.Worn(other) == w.Worn(other);
  }

  /** What an account holds through the roles other than one. */
  function HeldWithout(w: World, user: nat, name: string): set<string> {
    set n, p | n in w.roles && n != name && w.roles[n].id in w.Worn(user) && p in w.roles[n].permissions :: p
  }

  /**
   A deleted role is taken off everybody: an account keeps what its other roles
   grant, and one that wore nothing else is put on the default role.
   */
  lemma DeletedRoleIsGone(cfg: Config, w: World, step: Step, user: nat)
    requires Distinct(w) && step.DeleteRole? && Try(cfg, w, step).Ok? && user in w.users
    ensures var after, gone := Apply(cfg, w, step), w.roles[step.name].id;
            && step.name !in after.roles && user in after.users && gone !in after.Worn(user)
            && after.HeldBy(user) ==
                 if w.Worn(user) == {gone} && cfg.defaultRole != GUEST then DefaultPermissions(cfg, after)
                 else HeldWithout(w, user, step.name)
  {
    var after, gone := Apply(cfg, w, step), w.roles[step.name].id;
    assert forall n <- after.roles :: n != step.name && after.roles[n] == w.roles[n] && after.roles[n].id != gone;
    if w.Worn(user) == {gone} && cfg.defaultRole != GUEST {
      BareAccountHoldsDefault(cfg, after, user, gone);
    } else {
      assert after.Worn(user) == w.Worn(user) - {gone};
      forall p ensures p in after.HeldBy(user) <==> p in HeldWithout(w, user, step.name) {
        if p in HeldWithout(w, user, step.name) {
          var n :| n in w.roles && n != step.name && w.roles[n].id in w.Worn(user) && p in w.roles[n].permissions;
          assert n in after.roles;
        }
      }
    }
  }

  lemma BareAccountHoldsDefault(cfg: Config, w: World, user: nat, gone: nat)
    requires Distinct(w) && forall n <- w.roles :: w.roles[n].id != gone
    requires w.Worn(user) == if cfg.defaultRole in w.roles then {w.roles[cfg.defaultRole].id} else {}
    ensures w.HeldBy(user) == DefaultPermissions(cfg, w)
  {
    if cfg.defaultRole in w.roles {
      var d := w.roles[cfg.defaultRole];
      forall p ensures p in w.HeldBy(user) <==> p in d.permissions {
        if p in d.permissions {
          assert d.id in w.Worn(user);
        }
      }
    }
  }
}
