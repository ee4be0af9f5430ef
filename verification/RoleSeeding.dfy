/** Seeding roles and permissions from a file: one pass as a function of the tables. */
module RoleSeeding {
  import opened Wrappers
  import opened SeedTable

  type Attrs = map<string, string>

  datatype PermissionDef = PermissionDef(name: string, attrs: Attrs)

  /** `isSystem` is `None` where the file does not say. */
  datatype RoleDef = RoleDef(name: string, attrs: Attrs, isSystem: Option<bool>, permissions: seq<string>) {
    function Granted(): set<string> {
      set p | p in permissions
    }
  }

  datatype File = File(permissions: seq<PermissionDef>, roles: seq<RoleDef>)

  datatype RoleBody = RoleBody(attrs: Attrs, isSystem: bool, permissions: set<string>)

  datatype Tables = Tables(permissions: seq<Row<Attrs>>, roles: seq<Row<RoleBody>>) {
    predicate Unique() {
      UniqueRows(permissions) && UniqueRows(roles)
    }
  }

  datatype Regranted = Regranted(name: string, before: set<string>, after: set<string>, isSystem: bool)

  datatype Summary = Summary(
    permissionsCreated: seq<string>,
    rolesCreated: seq<string>,
    rolesLeftAlone: seq<string>,
    rolesReprotected: seq<string>,
    rolesRegranted: seq<Regranted>)

  const NOTHING := Summary([], [], [], [], [])

  datatype Refusal = DuplicateName | BadRole(name: string) | UnknownPermissions(names: set<string>)

  datatype Outcome = Outcome(tables: Tables, summary: Summary)

  /* -------------------- what the entries ask for -------------------- */

  function PermissionPlan(def: PermissionDef, update: bool): Plan<Attrs> {
    Plan(def.name, def.attrs, (a: Attrs) => if update then a + def.attrs else a)
  }

  /** Without update only the system flag is raised; with it every field given is replaced. */
  function Revised(def: RoleDef, update: bool, body: RoleBody): RoleBody {
    if update then
      RoleBody(body.attrs + def.attrs, if def.isSystem.Some? then def.isSystem.value else body.isSystem, def.Granted())
    else body.(isSystem := body.isSystem || def.isSystem == Some(true))
  }

  function RolePlan(def: RoleDef, update: bool): Plan<RoleBody> {
    Plan(def.name, RoleBody(def.attrs, def.isSystem == Some(true), def.Granted()), (b: RoleBody) => Revised(def, update, b))
  }

  function PermissionPlans(file: File, update: bool): seq<Plan<Attrs>> {
    seq(|file.permissions|, i requires 0 <= i < |file.permissions| => PermissionPlan(file.permissions[i], update))
  }

  function RolePlans(file: File, update: bool): seq<Plan<RoleBody>> {
    seq(|file.roles|, i requires 0 <= i < |file.roles| => RolePlan(file.roles[i], update))
  }

  /* -------------------- refusals -------------------- */

  predicate Repeats(names: seq<string>) {
    exists i, j :: 0 <= i < j < |names| && names[i] == names[j]
  }

  function PermissionNames(defs: seq<PermissionDef>): seq<string> {
    seq(|defs|, i requires 0 <= i < |defs| => defs[i].name)
  }

  function Names(defs: seq<RoleDef>): seq<string> {
    seq(|defs|, i requires 0 <= i < |defs| => defs[i].name)
  }

  predicate NamesRepeat(file: File) {
    Repeats(PermissionNames(file.permissions)) || Repeats(Names(file.roles))
  }

  function NamesOf<A>(rows: seq<Row<A>>): set<string> {
    set i | 0 <= i < |rows| :: rows[i].name
  }

  /** Why one role of the file cannot be seeded, if so. */
  function RefusalOf(def: RoleDef, present: bool, known: set<string>, update: bool, valid: RoleDef -> bool): Option<Refusal> {
    if !valid(def) then Some(BadRole(def.name))
    else if (!present || update) && def.Granted() - known != {} then Some(UnknownPermissions(def.Granted() - known))
    else None
  }

  /** The first refusal in file order. */
  function FirstRefusal(defs: seq<RoleDef>, rows: seq<Row<RoleBody>>, known: set<string>, update: bool, valid: RoleDef -> bool)
    : Option<Refusal>
  {
    if defs == [] then None
    else
      var earlier := FirstRefusal(defs[..|defs| - 1], rows, known, update, valid);
      var def := defs[|defs| - 1];
      if earlier.Some? then earlier else RefusalOf(def, Has(rows, def.name), known, update, valid)
  }

  /* -------------------- the report -------------------- */

  function NotePermission(s: Summary, rows: seq<Row<Attrs>>, def: PermissionDef): Summary {
    if Has(rows, def.name) then s else s.(permissionsCreated := s.permissionsCreated + [def.name])
  }

  function NoteRole(s: Summary, rows: seq<Row<RoleBody>>, def: RoleDef, update: bool): Summary {
    if !Has(rows, def.name) then s.(rolesCreated := s.rolesCreated + [def.name])
    else
      var body := rows[Find(rows, def.name)].body;
      if update then
        if body.permissions == def.Granted() then s
        else s.(rolesRegranted := s.rolesRegranted +
                  [Regranted(def.name, body.permissions, def.Granted(), Revised(def, true, body).isSystem)])
      else if def.isSystem == Some(true) && !body.isSystem then s.(rolesReprotected := s.rolesReprotected + [def.name])
      else s.(rolesLeftAlone := s.rolesLeftAlone + [def.name])
  }

  function NotePermissions(s: Summary, rows: seq<Row<Attrs>>, defs: seq<PermissionDef>): Summary {
    if defs == [] then s
    else NotePermission(NotePermissions(s, rows, defs[..|defs| - 1]), rows, defs[|defs| - 1])
  }

  function NoteRoles(s: Summary, rows: seq<Row<RoleBody>>, defs: seq<RoleDef>, update: bool): Summary {
    if defs == [] then s
    else NoteRole(NoteRoles(s, rows, defs[..|defs| - 1], update), rows, defs[|defs| - 1], update)
  }

  /* -------------------- one pass -------------------- */

  function PermissionsAfter(t: Tables, file: File, update: bool): seq<Row<Attrs>> {
    RowsAfter(t.permissions, PermissionPlans(file, update)) + Added(t.permissions, PermissionPlans(file, update))
  }

  function RolesAfter(t: Tables, file: File, update: bool): seq<Row<RoleBody>> {
    RowsAfter(t.roles, RolePlans(file, update)) + Added(t.roles, RolePlans(file, update))
  }

  /** `valid` is the rule for role names and descriptions. A refused pass is rolled back. */
  function Load(t: Tables, file: File, update: bool, valid: RoleDef -> bool): Result<Outcome, Refusal> {
    if NamesRepeat(file) then Err(DuplicateName)
    else
      var permissions := PermissionsAfter(t, file, update);
      match FirstRefusal(file.roles, t.roles, NamesOf(permissions), update, valid)
      case Some(refusal) => Err(refusal)
      case None =>
        Ok(Outcome(Tables(permissions, RolesAfter(t, file, update)),
                   NoteRoles(NotePermissions(NOTHING, t.permissions, file.permissions), t.roles, file.roles, update)))
  }

  /* -------------------- what a pass promises -------------------- */

  lemma PlansAreUnique(file: File, update: bool)
    requires !NamesRepeat(file)
    ensures UniquePlans(PermissionPlans(file, update)) && UniquePlans(RolePlans(file, update))
    ensures forall i, j :: 0 <= i < j < |file.roles| ==> file.roles[i].name != file.roles[j].name
  {
    var permissions, roles := PermissionNames(file.permissions), Names(file.roles);
    forall i, j | 0 <= i < j < |file.permissions| ensures file.permissions[i].name != file.permissions[j].name {
      assert permissions[i] != permissions[j];
    }
    forall i, j | 0 <= i < j < |file.roles| ensures file.roles[i].name != file.roles[j].name {
      assert roles[i] != roles[j];
    }
  }

  /** Names stay unique, although lookups do not see the rows a pass has pending. */
  lemma NamesStayUnique(t: Tables, file: File, update: bool, valid: RoleDef -> bool)
    requires t.Unique() && Load(t, file, update, valid).Ok?
    ensures Load(t, file, update, valid).value.tables.Unique()
  {
    PlansAreUnique(file, update);
    UniqueExactlyWithoutClash(t.permissions, PermissionPlans(file, update));
    UniqueExactlyWithoutClash(t.roles, RolePlans(file, update));
  }

  /** Whether the file calls this role a system role. */
  predicate MarkedSystem(file: File, name: string) {
    exists def <- file.roles :: def.name == name && def.isSystem == Some(true)
  }

  /**
   A pass without update is not destructive: permissions stay as they are, every
   role keeps its fields and its permissions, and its system flag can only be
   raised, where the file says so.
   */
  lemma ExistingRowsAreKept(t: Tables, file: File, valid: RoleDef -> bool)
    requires t.Unique() && Load(t, file, false, valid).Ok?
    ensures var after := Load(t, file, false, valid).value.tables;
            && |after.permissions| >= |t.permissions| && after.permissions[..|t.permissions|] == t.permissions
            && |after.roles| >= |t.roles|
            && forall i :: 0 <= i < |t.roles| ==> after.roles[i] == Protected(t.roles[i], file)
  {
    var plans, perms := RolePlans(file, false), PermissionPlans(file, false);
    PlansAreUnique(file, false);
    NamesStay(t.permissions, perms);
    NamesStay(t.roles, plans);
    forall i | 0 <= i < |t.permissions| ensures RowsAfter(t.permissions, perms)[i] == t.permissions[i] {
      if k :| 0 <= k < |perms| && perms[k].name == t.permissions[i].name {
        TouchedRow(t.permissions, perms, i, k);
      } else {
        UntouchedRow(t.permissions, perms, i);
      }
    }
    forall i | 0 <= i < |t.roles| ensures RowsAfter(t.roles, plans)[i] == Protected(t.roles[i], file) {
      KeptRole(t, file, i);
    }
  }

  function Protected(row: Row<RoleBody>, file: File): Row<RoleBody> {
    row.(body := row.body.(isSystem := row.body.isSystem || MarkedSystem(file, row.name)))
  }

  lemma KeptRole(t: Tables, file: File, i: nat)
    requires t.Unique() && !NamesRepeat(file) && i < |t.roles|
    ensures var rows := RowsAfter(t.roles, RolePlans(file, false));
            |rows| == |t.roles| && rows[i] == Protected(t.roles[i], file)
  {
    var plans, row := RolePlans(file, false), t.roles[i];
    PlansAreUnique(file, false);
    if k :| 0 <= k < |plans| && plans[k].name == row.name {
      TouchedRow(t.roles, plans, i, k);
      assert file.roles[k] in file.roles;
      assert MarkedSystem(file, row.name) <==> file.roles[k].isSystem == Some(true);
    } else {
      UntouchedRow(t.roles, plans, i);
      forall k | 0 <= k < |file.roles| ensures file.roles[k].name != row.name {
        assert plans[k].name == file.roles[k].name;
      }
    }
  }

  /* -------------------- the second pass -------------------- */

  lemma {:induction false} NoRefusalMeansNone(defs: seq<RoleDef>, rows: seq<Row<RoleBody>>, known: set<string>, update: bool, valid: RoleDef -> bool)
    ensures FirstRefusal(defs, rows, known, update, valid).None? <==>
      forall k :: 0 <= k < |defs| ==> RefusalOf(defs[k], Has(rows, defs[k].name), known, update, valid).None?
  {
    if defs != [] {
      var before := defs[..|defs| - 1];
      NoRefusalMeansNone(before, rows, known, update, valid);
      assert forall k :: 0 <= k < |before| ==> before[k] == defs[k];
    }
  }

  lemma {:induction false} NothingCreated(s: Summary, rows: seq<Row<Attrs>>, defs: seq<PermissionDef>)
    requires forall k :: 0 <= k < |defs| ==> Has(rows, defs[k].name)
    ensures NotePermissions(s, rows, defs) == s
  {
    if defs != [] {
      NothingCreated(s, rows, defs[..|defs| - 1]);
    }
  }

  /** What a pass with nothing left to do reports. */
  function Quiet(defs: seq<RoleDef>, update: bool): Summary {
    if update then NOTHING else NOTHING.(rolesLeftAlone := Names(defs))
  }

  lemma {:induction false} NothingToReport(rows: seq<Row<RoleBody>>, defs: seq<RoleDef>, update: bool)
    requires forall k :: 0 <= k < |defs| ==> Settled(rows, RolePlan(defs[k], update))
    ensures NoteRoles(NOTHING, rows, defs, update) == Quiet(defs, update)
  {
    if defs == [] {
      assert Names(defs) == [];
    } else {
      var before, def := defs[..|defs| - 1], defs[|defs| - 1];
      assert forall k :: 0 <= k < |before| ==> before[k] == defs[k];
      NothingToReport(rows, before, update);
      assert Settled(rows, RolePlan(def, update));
      SettledRole(def, update, rows[Find(rows, def.name)].body);
      assert Names(defs) == Names(before) + [def.name];
    }
  }

  /** A role its entry would not change has its permissions and its flag already. */
  lemma SettledRole(def: RoleDef, update: bool, body: RoleBody)
    requires RolePlan(def, update).change(body) == body
    ensures Revised(def, update, body) == body
    ensures update ==> body.permissions == def.Granted()
    ensures !update && def.isSystem == Some(true) ==> body.isSystem
  {
  }

  lemma PlansSettle(file: File, update: bool)
    ensures forall k :: 0 <= k < |file.permissions| ==> Settles(PermissionPlan(file.permissions[k], update))
    ensures forall k :: 0 <= k < |file.roles| ==> Settles(RolePlan(file.roles[k], update))
  {
    forall k | 0 <= k < |file.permissions| ensures Settles(PermissionPlan(file.permissions[k], update)) {
      MergeTwice(file.permissions[k].attrs);
    }
    forall k | 0 <= k < |file.roles| ensures Settles(RolePlan(file.roles[k], update)) {
      RoleSettles(file.roles[k], update);
    }
  }

  lemma MergeTwice(d: Attrs)
    ensures d + d == d && forall a: Attrs :: (a + d) + d == a + d
  {
    forall a: Attrs ensures (a + d) + d == a + d {
    }
  }

  lemma RoleSettles(def: RoleDef, update: bool)
    ensures Settles(RolePlan(def, update))
  {
    MergeTwice(def.attrs);
    forall b ensures Revised(def, update, Revised(def, update, b)) == Revised(def, update, b) {
      assert (b.attrs + def.attrs) + def.attrs == b.attrs + def.attrs;
    }
  }

  /**
   Seeding is idempotent, with update or without: the second pass is not refused,
   changes no row, and reports nothing created, reprotected or regranted.
   */
  lemma SecondPass(t: Tables, file: File, update: bool, valid: RoleDef -> bool)
    requires t.Unique() && Load(t, file, update, valid).Ok?
    ensures var after := Load(t, file, update, valid).value.tables;
            Load(after, file, update, valid) == Ok(Outcome(after, Quiet(file.roles, update)))
  {
    var after := Load(t, file, update, valid).value.tables;
    var perms, roles := PermissionPlans(file, update), RolePlans(file, update);
    PlansAreUnique(file, update);
    PlansSettle(file, update);
    SecondPassDoesNothing(t.permissions, perms);
    SecondPassDoesNothing(t.roles, roles);
    SettledTables(t, file, update);
    assert after.permissions + [] == after.permissions && after.roles + [] == after.roles;
    NothingCreated(NOTHING, after.permissions, file.permissions);
    NothingToReport(after.roles, file.roles, update);
    NoRefusalMeansNone(file.roles, t.roles, NamesOf(after.permissions), update, valid);
    NoRefusalMeansNone(file.roles, after.roles, NamesOf(after.permissions), update, valid);
  }

  lemma SettledTables(t: Tables, file: File, update: bool)
    requires t.Unique() && !NamesRepeat(file)
    ensures forall k :: 0 <= k < |file.permissions| ==> Has(PermissionsAfter(t, file, update), file.permissions[k].name)
    ensures forall k :: 0 <= k < |file.roles| ==> Settled(RolesAfter(t, file, update), RolePlan(file.roles[k], update))
  {
    PlansAreUnique(file, update);
    PlansSettle(file, update);
    forall k | 0 <= k < |file.permissions| ensures Has(PermissionsAfter(t, file, update), file.permissions[k].name) {
      SettledAfter(t.permissions, PermissionPlans(file, update), k);
    }
    forall k | 0 <= k < |file.roles| ensures Settled(RolesAfter(t, file, update), RolePlan(file.roles[k], update)) {
      SettledAfter(t.roles, RolePlans(file, update), k);
    }
  }

  /** After a pass with update every role of the file grants exactly what the file lists. */
  lemma UpdateGrantsTheFile(t: Tables, file: File, valid: RoleDef -> bool, k: nat)
    requires t.Unique() && Load(t, file, true, valid).Ok? && k < |file.roles|
    ensures var roles := Load(t, file, true, valid).value.tables.roles;
            Has(roles, file.roles[k].name) &&
            roles[Find(roles, file.roles[k].name)].body.permissions == file.roles[k].Granted()
  {
    SettledTables(t, file, true);
    var roles, def := RolesAfter(t, file, true), file.roles[k];
    SettledRole(def, true, roles[Find(roles, def.name)].body);
  }

  /* -------------------- the report of an update -------------------- */

  ghost predicate Reported(s: Summary, r: Regranted) {
    r in s.rolesRegranted
  }

  lemma {:induction false} RegrantsOf(s: Summary, rows: seq<Row<RoleBody>>, defs: seq<RoleDef>, r: Regranted)
    requires s.rolesRegranted == []
    ensures Reported(NoteRoles(s, rows, defs, true), r) <==>
      exists k :: 0 <= k < |defs| && Regrants(rows, defs[k], r)
  {
    if defs != [] {
      var before, def := defs[..|defs| - 1], defs[|defs| - 1];
      RegrantsOf(s, rows, before, r);
      assert forall k :: 0 <= k < |before| ==> before[k] == defs[k];
      assert Regrants(rows, def, r) ==> Regrants(rows, defs[|before|], r);
    }
  }

  /** `r` is what replacing the permissions of this entry's role is reported as. */
  predicate Regrants(rows: seq<Row<RoleBody>>, def: RoleDef, r: Regranted) {
    Has(rows, def.name) &&
    var body := rows[Find(rows, def.name)].body;
    body.permissions != def.Granted() &&
    r == Regranted(def.name, body.permissions, def.Granted(), Revised(def, true, body).isSystem)
  }

  lemma {:induction false} NotesKeepRegrants(s: Summary, rows: seq<Row<Attrs>>, defs: seq<PermissionDef>)
    ensures NotePermissions(s, rows, defs).rolesRegranted == s.rolesRegranted
  {
    if defs != [] {
      NotesKeepRegrants(s, rows, defs[..|defs| - 1]);
    }
  }

  /**
   An update reports exactly what it changed: a role that was there is reported as
   regranted, with what it granted before and after, if and only if the two differ.
   */
  lemma RegrantsAreTheChanges(t: Tables, file: File, valid: RoleDef -> bool, i: nat)
    requires t.Unique() && Load(t, file, true, valid).Ok? && i < |t.roles|
    ensures var o := Load(t, file, true, valid).value;
            |o.tables.roles| >= |t.roles| && o.tables.roles[i].name == t.roles[i].name &&
            var before, after := t.roles[i].body, o.tables.roles[i].body;
            before.permissions != after.permissions <==>
              Reported(o.summary, Regranted(t.roles[i].name, before.permissions, after.permissions, after.isSystem))
  {
    var o, plans := Load(t, file, true, valid).value, RolePlans(file, true);
    var before, after := t.roles[i].body, RowsAfter(t.roles, plans);
    PlansAreUnique(file, true);
    NamesStay(t.roles, plans);
    var s := NotePermissions(NOTHING, t.permissions, file.permissions);
    NotesKeepRegrants(NOTHING, t.permissions, file.permissions);
    var r := Regranted(t.roles[i].name, before.permissions, after[i].body.permissions, after[i].body.isSystem);
    RegrantsOf(s, t.roles, file.roles, r);
    if k :| 0 <= k < |plans| && plans[k].name == t.roles[i].name {
      TouchedRow(t.roles, plans, i, k);
      assert Find(t.roles, file.roles[k].name) == i;
      assert before.permissions != after[i].body.permissions ==> Regrants(t.roles, file.roles[k], r);
    } else {
      UntouchedRow(t.roles, plans, i);
    }
  }

  /* -------------------- the rest of the report -------------------- */

  lemma {:induction false} CreatedPermissions(s: Summary, rows: seq<Row<Attrs>>, defs: seq<PermissionDef>, name: string)
    requires s == NOTHING
    ensures var noted := NotePermissions(s, rows, defs);
            && noted == NOTHING.(permissionsCreated := noted.permissionsCreated)
            && (name in noted.permissionsCreated <==> name in PermissionNames(defs) && !Has(rows, name))
  {
    if defs != [] {
      var before, def := defs[..|defs| - 1], defs[|defs| - 1];
      CreatedPermissions(s, rows, before, name);
      assert PermissionNames(defs) == PermissionNames(before) + [def.name];
    }
  }

  /** Which list a role of the file goes on. */
  lemma {:induction false} NotedRoles(s: Summary, rows: seq<Row<RoleBody>>, defs: seq<RoleDef>, name: string)
    requires s.rolesCreated == [] && s.rolesLeftAlone == [] && s.rolesReprotected == []
    ensures var noted := NoteRoles(s, rows, defs, false);
            && noted.permissionsCreated == s.permissionsCreated
            && (name in noted.rolesCreated <==> name in Names(defs) && !Has(rows, name))
            && (name in noted.rolesReprotected <==>
                  Has(rows, name) && !rows[Find(rows, name)].body.isSystem && Marks(defs, name, true))
            && (name in noted.rolesLeftAlone <==>
                  Has(rows, name) && (Marks(defs, name, false) || (rows[Find(rows, name)].body.isSystem && Marks(defs, name, true))))
  {
    if defs != [] {
      var before, def := defs[..|defs| - 1], defs[|defs| - 1];
      NotedRoles(s, rows, before, name);
      assert Names(defs) == Names(before) + [def.name];
      assert forall marked :: Marks(defs, name, marked) <==>
        Marks(before, name, marked) || (def.name == name && (def.isSystem == Some(true)) == marked);
    }
  }

  /** The file has an entry of that name that does, or does not, call the role a system role. */
  predicate Marks(defs: seq<RoleDef>, name: string, system: bool) {
    exists def <- defs :: def.name == name && (def.isSystem == Some(true)) == system
  }

  lemma NamedExactlyOnce(file: File, name: string)
    requires !NamesRepeat(file)
    ensures name in Names(file.roles) <==> Marks(file.roles, name, true) || Marks(file.roles, name, false)
    ensures !(Marks(file.roles, name, true) && Marks(file.roles, name, false))
    ensures Marks(file.roles, name, true) <==> MarkedSystem(file, name)
  {
    PlansAreUnique(file, false);
    var names := Names(file.roles);
    if name in names {
      var i :| 0 <= i < |names| && names[i] == name;
      assert file.roles[i] in file.roles && file.roles[i].name == name;
      assert Marks(file.roles, name, file.roles[i].isSystem == Some(true));
    }
    if def :| def in file.roles && def.name == name {
      var i :| 0 <= i < |file.roles| && file.roles[i] == def;
      assert names[i] == name;
    }
  }

  lemma {:induction false} CreatedRoles(s: Summary, rows: seq<Row<RoleBody>>, defs: seq<RoleDef>, update: bool, name: string)
    requires s.rolesCreated == []
    ensures var noted := NoteRoles(s, rows, defs, update);
            && noted.permissionsCreated == s.permissionsCreated
            && (name in noted.rolesCreated <==> name in Names(defs) && !Has(rows, name))
  {
    if defs != [] {
      var before, def := defs[..|defs| - 1], defs[|defs| - 1];
      CreatedRoles(s, rows, before, update, name);
      assert Names(defs) == Names(before) + [def.name];
    }
  }

  /** With update or without, exactly what was missing is reported as created. */
  lemma CreationsAreReported(t: Tables, file: File, update: bool, valid: RoleDef -> bool, name: string)
    requires Load(t, file, update, valid).Ok?
    ensures var s := Load(t, file, update, valid).value.summary;
            && (name in s.permissionsCreated <==> name in PermissionNames(file.permissions) && !Has(t.permissions, name))
            && (name in s.rolesCreated <==> name in Names(file.roles) && !Has(t.roles, name))
  {
    CreatedPermissions(NOTHING, t.permissions, file.permissions, name);
    CreatedRoles(NotePermissions(NOTHING, t.permissions, file.permissions), t.roles, file.roles, update, name);
  }

  /**
   A pass without update reports exactly what it did: what it created, which roles
   had their system flag raised, and which it left as they were.
   */
  lemma ReportIsExact(t: Tables, file: File, valid: RoleDef -> bool, name: string)
    requires t.Unique() && Load(t, file, false, valid).Ok?
    ensures var o := Load(t, file, false, valid).value;
            && |o.tables.roles| >= |t.roles|
            && (name in o.summary.permissionsCreated <==> name in PermissionNames(file.permissions) && !Has(t.permissions, name))
            && (name in o.summary.rolesCreated <==> name in Names(file.roles) && !Has(t.roles, name))
            && (Has(t.roles, name) ==>
                  var before, after := t.roles[Find(t.roles, name)], o.tables.roles[Find(t.roles, name)];
                  && (name in o.summary.rolesReprotected <==> before != after)
                  && (name in o.summary.rolesLeftAlone <==> name in Names(file.roles) && before == after))
  {
    CreatedPermissions(NOTHING, t.permissions, file.permissions, name);
    NotedRoles(NotePermissions(NOTHING, t.permissions, file.permissions), t.roles, file.roles, name);
    NamedExactlyOnce(file, name);
    ExistingRowsAreKept(t, file, valid);
    if Has(t.roles, name) {
      assert t.roles[Find(t.roles, name)].name == name;
    }
  }

  /* -------------------- what the rows of the file become -------------------- */

  /**
   A role the table did not have is added as the file has it: its fields, its flag if
   the file sets it, and exactly the permissions listed; so is a permission.
   */
  lemma NewRowsAreTheFile(t: Tables, file: File, update: bool, valid: RoleDef -> bool)
    requires Load(t, file, update, valid).Ok?
    ensures var after := Load(t, file, update, valid).value.tables;
            && (forall def <- file.roles :: !Has(t.roles, def.name) ==>
                  Row(def.name, RoleBody(def.attrs, def.isSystem == Some(true), set p | p in def.permissions)) in after.roles)
            && (forall def <- file.permissions :: !Has(t.permissions, def.name) ==> Row(def.name, def.attrs) in after.permissions)
  {
    var perms, roles := PermissionPlans(file, update), RolePlans(file, update);
    AddedAreTheMissing(t.permissions, perms);
    AddedAreTheMissing(t.roles, roles);
    forall def | def in file.roles && !Has(t.roles, def.name)
      ensures Row(def.name, RoleBody(def.attrs, def.isSystem == Some(true), set p | p in def.permissions)) in Added(t.roles, roles)
    {
      var k :| 0 <= k < |file.roles| && file.roles[k] == def;
      assert roles[k] == RolePlan(def, update);
    }
    forall def | def in file.permissions && !Has(t.permissions, def.name)
      ensures Row(def.name, def.attrs) in Added(t.permissions, perms)
    {
      var k :| 0 <= k < |file.permissions| && file.permissions[k] == def;
      assert perms[k] == PermissionPlan(def, update);
    }
  }

  /** Fields the file gives are replaced, the others stay. */
  predicate Merged(before: Attrs, given: Attrs, after: Attrs) {
    && after.Keys == before.Keys + given.Keys
    && (forall key <- given :: after[key] == given[key])
    && (forall key <- before :: key !in given ==> after[key] == before[key])
  }

  /**
   With update, a row that was there takes the fields the file gives and keeps the
   others; a role takes the flag if the file sets or clears it, and exactly the
   permissions listed.
   */
  lemma UpdatedRowsAreTheFile(t: Tables, file: File, valid: RoleDef -> bool, i: nat, k: nat)
    requires t.Unique() && Load(t, file, true, valid).Ok? && i < |t.roles| && k < |file.roles|
    requires file.roles[k].name == t.roles[i].name
    ensures var after, def := Load(t, file, true, valid).value.tables.roles, file.roles[k];
            && |after| >= |t.roles| && after[i].name == def.name
            && Merged(t.roles[i].body.attrs, def.attrs, after[i].body.attrs)
            && after[i].body.isSystem == (if def.isSystem.Some? then def.isSystem.value else t.roles[i].body.isSystem)
            && (forall p :: p in after[i].body.permissions <==> p in def.permissions)
  {
    var plans := RolePlans(file, true);
    PlansAreUnique(file, true);
    NamesStay(t.roles, plans);
    TouchedRow(t.roles, plans, i, k);
  }

  lemma UpdatedPermissionsAreTheFile(t: Tables, file: File, valid: RoleDef -> bool, i: nat, k: nat)
    requires t.Unique() && Load(t, file, true, valid).Ok? && i < |t.permissions| && k < |file.permissions|
    requires file.permissions[k].name == t.permissions[i].name
    ensures var after, def := Load(t, file, true, valid).value.tables.permissions, file.permissions[k];
            |after| >= |t.permissions| && after[i].name == def.name && Merged(t.permissions[i].body, def.attrs, after[i].body)
  {
    var plans := PermissionPlans(file, true);
    PlansAreUnique(file, true);
    NamesStay(t.permissions, plans);
    TouchedRow(t.permissions, plans, i, k);
  }

  /** A row the file does not name stays as it is, update or not. */
  lemma UnnamedRowsStay(t: Tables, file: File, update: bool, valid: RoleDef -> bool, i: nat)
    requires Load(t, file, update, valid).Ok? && i < |t.roles| && t.roles[i].name !in Names(file.roles)
    ensures var after := Load(t, file, update, valid).value.tables.roles; |after| >= |t.roles| && after[i] == t.roles[i]
  {
    var plans, names := RolePlans(file, update), Names(file.roles);
    forall k | 0 <= k < |plans| ensures plans[k].name != t.roles[i].name {
      assert names[k] == plans[k].name;
    }
    NamesStay(t.roles, plans);
    UntouchedRow(t.roles, plans, i);
  }

  /* -------------------- when a pass is refused -------------------- */

  /** The permission is in the table or among those the file brings. */
  predicate Known(t: Tables, file: File, p: string) {
    Has(t.permissions, p) || p in PermissionNames(file.permissions)
  }

  /**
   A pass goes through exactly if the file repeats no name, every role in it is called
   and described as a role may be, and every role it would write lists known
   permissions only.
   */
  lemma PassesExactly(t: Tables, file: File, update: bool, valid: RoleDef -> bool)
    ensures Load(t, file, update, valid).Ok? <==>
      && !NamesRepeat(file)
      && (forall def <- file.roles :: valid(def))
      && (forall def <- file.roles :: update || !Has(t.roles, def.name) ==> forall p <- def.permissions :: Known(t, file, p))
  {
    var known := NamesOf(PermissionsAfter(t, file, update));
    NoRefusalMeansNone(file.roles, t.roles, known, update, valid);
    forall p ensures p in known <==> Known(t, file, p) {
      KnownAfter(t, file, update, p);
    }
    forall k | 0 <= k < |file.roles|
      ensures RefusalOf(file.roles[k], Has(t.roles, file.roles[k].name), known, update, valid).None? <==>
        valid(file.roles[k]) && (update || !Has(t.roles, file.roles[k].name) ==> forall p <- file.roles[k].permissions :: Known(t, file, p))
    {
      var def := file.roles[k];
      if p :| p in def.Granted() && p !in known {
        assert p in def.Granted() - known;
      } else {
        assert def.Granted() - known == {};
      }
    }
  }

  /** The permissions a pass knows are those of the table and those of the file. */
  lemma KnownAfter(t: Tables, file: File, update: bool, p: string)
    ensures p in NamesOf(PermissionsAfter(t, file, update)) <==> Known(t, file, p)
  {
    var plans := PermissionPlans(file, update);
    var there, added := RowsAfter(t.permissions, plans), Added(t.permissions, plans);
    var all, names := there + added, PermissionNames(file.permissions);
    NamesStay(t.permissions, plans);
    AddedAreTheMissing(t.permissions, plans);
    if p in NamesOf(all) {
      var i :| 0 <= i < |all| && all[i].name == p;
      if i < |there| {
        assert t.permissions[i].name == p;
      } else {
        assert Comes(added[i - |there|], plans);
        var k :| 0 <= k < |plans| && plans[k].name == p;
        assert names[k] == p;
      }
    }
    if Has(t.permissions, p) {
      assert all[Find(t.permissions, p)].name == p;
    } else if p in names {
      var k :| 0 <= k < |names| && names[k] == p;
      var j := IndexOfRow(Row(plans[k].name, plans[k].initial), added);
      assert all[|there| + j].name == p;
    }
  }
}
