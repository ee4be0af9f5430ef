/** The loader, working row by row through a session that does not flush by itself. */
module RoleLoader {
  import opened Wrappers
  import opened SeedTable
  import opened RoleSeeding

  /** Queries see the flushed rows; added rows wait until the next flush. */
  class Session {
    var permissions: seq<Row<Attrs>>
    var pendingPermissions: seq<Row<Attrs>>
    var roles: seq<Row<RoleBody>>
    var pendingRoles: seq<Row<RoleBody>>

    constructor (tables: Tables)
      ensures permissions == tables.permissions && roles == tables.roles
      ensures pendingPermissions == [] && pendingRoles == []
    {
      permissions, roles := tables.permissions, tables.roles;
      pendingPermissions, pendingRoles := [], [];
    }

    /** What a commit would leave in the tables. */
    ghost function Committed(): Tables
      reads this
    {
      Tables(permissions + pendingPermissions, roles + pendingRoles)
    }

    method Flush()
      modifies this
      ensures Committed() == old(Committed()) && pendingPermissions == [] && pendingRoles == []
      ensures permissions == old(permissions + pendingPermissions) && roles == old(roles + pendingRoles)
    {
      permissions, pendingPermissions := permissions + pendingPermissions, [];
      roles, pendingRoles := roles + pendingRoles, [];
    }
  }

  method FindsRepeated(names: seq<string>) returns (repeated: bool)
    ensures repeated <==> Repeats(names)
  {
    var seen := {};
    for k := 0 to |names|
      invariant forall name :: name in seen <==> name in names[..k]
      invariant forall i, j :: 0 <= i < j < k ==> names[i] != names[j]
    {
      if names[k] in seen {
        var i :| 0 <= i < k && names[..k][i] == names[k];
        return true;
      }
      assert names[..k + 1] == names[..k] + [names[k]];
      seen := seen + {names[k]};
    }
    return false;
  }

  class Loader {
    const session: Session

    constructor (session: Session)
      ensures this.session == session
    {
      this.session := session;
    }

    static method RefuseDuplicateNames(file: File) returns (refused: bool)
      ensures refused <==> NamesRepeat(file)
    {
      refused := FindsRepeated(PermissionNames(file.permissions));
      if !refused {
        refused := FindsRepeated(Names(file.roles));
      }
    }

    method UpsertPermission(def: PermissionDef, update: bool, summary: Summary) returns (noted: Summary)
      modifies session`permissions, session`pendingPermissions
      ensures session.permissions == Change(old(session.permissions), PermissionPlan(def, update))
      ensures session.pendingPermissions == old(session.pendingPermissions) +
        if Has(old(session.permissions), def.name) then [] else [Row(def.name, def.attrs)]
      ensures noted == NotePermission(summary, old(session.permissions), def)
    {
      noted := summary;
      if Has(session.permissions, def.name) {
        var i := Find(session.permissions, def.name);
        if update {
          var row := session.permissions[i];
          session.permissions := session.permissions[i := row.(body := row.body + def.attrs)];
        }
      } else {
        session.pendingPermissions := session.pendingPermissions + [Row(def.name, def.attrs)];
        noted := noted.(permissionsCreated := noted.permissionsCreated + [def.name]);
      }
    }

    /** The rows of the role tables after one entry, unless it is refused. */
    method UpsertRole(def: RoleDef, update: bool, valid: RoleDef -> bool, summary: Summary)
      returns (r: Result<Summary, Refusal>)
      modifies session`roles, session`pendingRoles
      ensures var was, known := old(session.roles), NamesOf(session.permissions);
              match RefusalOf(def, Has(was, def.name), known, update, valid)
              case Some(refusal) => r == Err(refusal)
              case None =>
                && r == Ok(NoteRole(summary, was, def, update))
                && session.roles == Change(was, RolePlan(def, update))
                && session.pendingRoles == old(session.pendingRoles) +
                     if Has(was, def.name) then [] else [Row(def.name, RolePlan(def, update).initial)]
    {
      if !valid(def) {
        return Err(BadRole(def.name));
      }
      var noted := summary;
      if Has(session.roles, def.name) {
        var i := Find(session.roles, def.name);
        var body := session.roles[i].body;
        if update {
          body := body.(attrs := body.attrs + def.attrs);
          if def.isSystem.Some? {
            body := body.(isSystem := def.isSystem.value);
          }
          var unknown := def.Granted() - NamesOf(session.permissions);
          if unknown != {} {
            return Err(UnknownPermissions(unknown));
          }
          var before := body.permissions;
          body := body.(permissions := def.Granted());
          if before != def.Granted() {
            noted := noted.(rolesRegranted := noted.rolesRegranted +
                              [Regranted(def.name, before, def.Granted(), body.isSystem)]);
          }
        } else if def.isSystem == Some(true) && !body.isSystem {
          body := body.(isSystem := true);
          noted := noted.(rolesReprotected := noted.rolesReprotected + [def.name]);
        } else {
          noted := noted.(rolesLeftAlone := noted.rolesLeftAlone + [def.name]);
        }
        session.roles := session.roles[i := Row(def.name, body)];
      } else {
        noted := noted.(rolesCreated := noted.rolesCreated + [def.name]);
        var unknown := def.Granted() - NamesOf(session.permissions);
        if unknown != {} {
          return Err(UnknownPermissions(unknown));
        }
        var body := RoleBody(def.attrs, def.isSystem == Some(true), def.Granted());
        session.pendingRoles := session.pendingRoles + [Row(def.name, body)];
      }
      return Ok(noted);
    }

    method LoadPermissions(file: File, update: bool) returns (summary: Summary)
      requires session.pendingPermissions == []
      modifies session`permissions, session`pendingPermissions
      ensures session.permissions == RowsAfter(old(session.permissions), PermissionPlans(file, update))
      ensures session.pendingPermissions == Added(old(session.permissions), PermissionPlans(file, update))
      ensures summary == NotePermissions(NOTHING, old(session.permissions), file.permissions)
    {
      ghost var plans, was := PermissionPlans(file, update), session.permissions;
      summary := NOTHING;
      for k := 0 to |file.permissions|
        invariant session.permissions == RowsAfter(was, plans[..k])
        invariant session.pendingPermissions == Added(was, plans[..k])
        invariant summary == NotePermissions(NOTHING, was, file.permissions[..k])
      {
        OneMorePermission(file, update, was, k);
        summary := UpsertPermission(file.permissions[k], update, summary);
      }
      assert plans[..|plans|] == plans && file.permissions[..|plans|] == file.permissions;
    }

    method LoadRoles(file: File, update: bool, valid: RoleDef -> bool, noted: Summary)
      returns (r: Result<Summary, Refusal>)
      requires session.pendingRoles == [] && !NamesRepeat(file)
      modifies session`roles, session`pendingRoles
      ensures var was, known := old(session.roles), NamesOf(session.permissions);
              match FirstRefusal(file.roles, was, known, update, valid)
              case Some(refusal) => r == Err(refusal)
              case None =>
                && r == Ok(NoteRoles(noted, was, file.roles, update))
                && session.roles == RowsAfter(was, RolePlans(file, update))
                && session.pendingRoles == Added(was, RolePlans(file, update))
    {
      ghost var was, known := session.roles, NamesOf(session.permissions);
      var summary := noted;
      NothingDoneYet(file, update, was, noted);
      for k := 0 to |file.roles|
        invariant session.permissions == old(session.permissions)
        invariant FirstRefusal(file.roles[..k], was, known, update, valid).None?
        invariant UpTo(file, update, was, k, noted, session.roles, session.pendingRoles, summary)
      {
        OneMoreRole(file, update, was, k, noted, session.roles, session.pendingRoles, summary);
        OneMoreRefusal(file.roles, k, was, known, update, valid);
        var one := UpsertRole(file.roles[k], update, valid, summary);
        if one.Err? {
          RefusalStands(file.roles, k + 1, was, known, update, valid);
          return one;
        }
        summary := one.value;
      }
      AllDone(file, update, was, noted, session.roles, session.pendingRoles, summary);
      assert file.roles[..|file.roles|] == file.roles;
      return Ok(summary);
    }

    /** One pass: what it returns and what it leaves to commit are those of `Load`. */
    method LoadFromFile(file: File, update: bool, valid: RoleDef -> bool) returns (r: Result<Summary, Refusal>)
      requires session.pendingPermissions == [] && session.pendingRoles == []
      modifies session
      ensures var before := old(Tables(session.permissions, session.roles));
              match Load(before, file, update, valid)
              case Err(refusal) => r == Err(refusal)
              case Ok(outcome) => r == Ok(outcome.summary) && session.Committed() == outcome.tables
    {
      var refused := RefuseDuplicateNames(file);
      if refused {
        return Err(DuplicateName);
      }
      var summary := LoadPermissions(file, update);
      assert session.roles + session.pendingRoles == session.roles;
      session.Flush();
      r := LoadRoles(file, update, valid, summary);
      assert session.permissions + session.pendingPermissions == session.permissions;
    }
  }

  lemma OneMorePermission(file: File, update: bool, rows: seq<Row<Attrs>>, k: nat)
    requires k < |file.permissions|
    ensures var plans, def := PermissionPlans(file, update), file.permissions[k];
            var now := RowsAfter(rows, plans[..k]);
            && (Has(now, def.name) <==> Has(rows, def.name))
            && RowsAfter(rows, plans[..k + 1]) == Change(now, PermissionPlan(def, update))
            && Added(rows, plans[..k + 1]) == Added(rows, plans[..k]) + (if Has(rows, def.name) then [] else [Row(def.name, def.attrs)])
            && forall s :: NotePermissions(s, rows, file.permissions[..k + 1])
                        == NotePermission(NotePermissions(s, rows, file.permissions[..k]), rows, def)
  {
    var plans := PermissionPlans(file, update);
    assert plans[..k + 1][..k] == plans[..k] && file.permissions[..k + 1][..k] == file.permissions[..k];
    NamesStay(rows, plans[..k]);
    SameNamesSameLookups(rows, RowsAfter(rows, plans[..k]), file.permissions[k].name);
  }

  /** When an entry's turn comes, its row is still as the pass found it. */
  lemma StillAsFound(file: File, update: bool, rows: seq<Row<RoleBody>>, k: nat)
    requires !NamesRepeat(file) && k < |file.roles|
    ensures var now, name := RowsAfter(rows, RolePlans(file, update)[..k]), file.roles[k].name;
            && SameNames(rows, now) && (Has(now, name) <==> Has(rows, name))
            && (Has(rows, name) ==> Find(now, name) == Find(rows, name) && now[Find(now, name)] == rows[Find(rows, name)])
  {
    var plans := RolePlans(file, update)[..k];
    var name := file.roles[k].name;
    PlansAreUnique(file, update);
    NamesStay(rows, plans);
    SameNamesSameLookups(rows, RowsAfter(rows, plans), name);
    if Has(rows, name) {
      UntouchedRow(rows, plans, Find(rows, name));
    }
  }

  /** The first `k` entries have been worked through. */
  ghost predicate UpTo(file: File, update: bool, rows: seq<Row<RoleBody>>, k: nat, noted: Summary,
                       now: seq<Row<RoleBody>>, pending: seq<Row<RoleBody>>, summary: Summary)
  {
    && k <= |file.roles|
    && now == RowsAfter(rows, RolePlans(file, update)[..k])
    && pending == Added(rows, RolePlans(file, update)[..k])
    && summary == NoteRoles(noted, rows, file.roles[..k], update)
  }

  lemma NothingDoneYet(file: File, update: bool, rows: seq<Row<RoleBody>>, noted: Summary)
    ensures UpTo(file, update, rows, 0, noted, rows, [], noted)
  {
  }

  lemma AllDone(file: File, update: bool, rows: seq<Row<RoleBody>>, noted: Summary,
                now: seq<Row<RoleBody>>, pending: seq<Row<RoleBody>>, summary: Summary)
    requires UpTo(file, update, rows, |file.roles|, noted, now, pending, summary)
    ensures now == RowsAfter(rows, RolePlans(file, update)) && pending == Added(rows, RolePlans(file, update))
    ensures summary == NoteRoles(noted, rows, file.roles, update)
  {
    var plans := RolePlans(file, update);
    assert plans[..|plans|] == plans && file.roles[..|plans|] == file.roles;
  }

  lemma OneMoreRole(file: File, update: bool, rows: seq<Row<RoleBody>>, k: nat, noted: Summary,
                    now: seq<Row<RoleBody>>, pending: seq<Row<RoleBody>>, summary: Summary)
    requires !NamesRepeat(file) && k < |file.roles|
    requires UpTo(file, update, rows, k, noted, now, pending, summary)
    ensures var def := file.roles[k];
            var added := if Has(now, def.name) then [] else [Row(def.name, RolePlan(def, update).initial)];
            && (Has(now, def.name) <==> Has(rows, def.name))
            && UpTo(file, update, rows, k + 1, noted,
                    Change(now, RolePlan(def, update)), pending + added, NoteRole(summary, now, def, update))
  {
    var plans := RolePlans(file, update);
    StillAsFound(file, update, rows, k);
    assert plans[..k + 1][..k] == plans[..k] && file.roles[..k + 1][..k] == file.roles[..k];
  }

  lemma OneMoreRefusal(defs: seq<RoleDef>, k: nat, rows: seq<Row<RoleBody>>, known: set<string>, update: bool, valid: RoleDef -> bool)
    requires k < |defs| && FirstRefusal(defs[..k], rows, known, update, valid).None?
    ensures FirstRefusal(defs[..k + 1], rows, known, update, valid)
         == RefusalOf(defs[k], Has(rows, defs[k].name), known, update, valid)
  {
    assert defs[..k + 1][..k] == defs[..k];
  }

  lemma {:induction false} RefusalStands(defs: seq<RoleDef>, k: nat, rows: seq<Row<RoleBody>>, known: set<string>, update: bool, valid: RoleDef -> bool)
    requires k <= |defs| && FirstRefusal(defs[..k], rows, known, update, valid).Some?
    ensures FirstRefusal(defs, rows, known, update, valid) == FirstRefusal(defs[..k], rows, known, update, valid)
  {
    if k == |defs| {
      assert defs[..k] == defs;
    } else {
      assert defs[..|defs| - 1][..k] == defs[..k];
      RefusalStands(defs[..|defs| - 1], k, rows, known, update, valid);
    }
  }
}
