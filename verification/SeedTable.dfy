/**
 Upserting by name into a table whose lookups do not see rows still pending: what
 a whole pass leaves, and what a second one does.
 */
module SeedTable {
  datatype Row<A> = Row(name: string, body: A)

  /** What a file entry asks for: a new row, or a change to the one that is there. */
  datatype Plan<!A> = Plan(name: string, initial: A, change: A -> A)

  predicate Has<A>(rows: seq<Row<A>>, name: string) {
    exists i :: 0 <= i < |rows| && rows[i].name == name
  }

  /** The first row of that name. */
  function Find<A>(rows: seq<Row<A>>, name: string): (i: nat)
    requires Has(rows, name)
    ensures i < |rows| && rows[i].name == name
    ensures forall j :: 0 <= j < i ==> rows[j].name != name
  {
    if rows[0].name == name then 0
    else
      assert forall i :: 0 < i < |rows| ==> rows[i] == rows[1..][i - 1];
      1 + Find(rows[1..], name)
  }

  predicate UniqueRows<A>(rows: seq<Row<A>>) {
    forall i, j :: 0 <= i < j < |rows| ==> rows[i].name != rows[j].name
  }

  predicate UniquePlans<A>(plans: seq<Plan<A>>) {
    forall i, j :: 0 <= i < j < |plans| ==> plans[i].name != plans[j].name
  }

  /** One entry applied to the rows that can be found. */
  function Change<A>(rows: seq<Row<A>>, plan: Plan<A>): seq<Row<A>> {
    if Has(rows, plan.name) then
      var i := Find(rows, plan.name);
      rows[i := Row(plan.name, plan.change(rows[i].body))]
    else rows
  }

  /** The rows that were there, after all the entries. */
  function RowsAfter<A>(rows: seq<Row<A>>, plans: seq<Plan<A>>): seq<Row<A>> {
    if plans == [] then rows
    else Change(RowsAfter(rows, plans[..|plans| - 1]), plans[|plans| - 1])
  }

  /** The rows added, which no lookup of the same pass sees. */
  function Added<A>(rows: seq<Row<A>>, plans: seq<Plan<A>>): seq<Row<A>> {
    if plans == [] then []
    else
      var plan := plans[|plans| - 1];
      Added(rows, plans[..|plans| - 1]) + if Has(rows, plan.name) then [] else [Row(plan.name, plan.initial)]
  }

  predicate SameNames<A>(rows: seq<Row<A>>, other: seq<Row<A>>) {
    |rows| == |other| && forall i :: 0 <= i < |rows| ==> rows[i].name == other[i].name
  }

  lemma {:induction false} NamesStay<A>(rows: seq<Row<A>>, plans: seq<Plan<A>>)
    ensures SameNames(rows, RowsAfter(rows, plans))
  {
    if plans != [] {
      NamesStay(rows, plans[..|plans| - 1]);
    }
  }

  lemma SameNamesSameLookups<A>(rows: seq<Row<A>>, other: seq<Row<A>>, name: string)
    requires SameNames(rows, other)
    ensures Has(rows, name) <==> Has(other, name)
    ensures Has(rows, name) ==> Find(rows, name) == Find(other, name)
  {
    if Has(rows, name) {
      assert other[Find(rows, name)].name == name;
    }
    if Has(other, name) {
      assert rows[Find(other, name)].name == name;
    }
  }

  /* -------------------- which rows a pass adds -------------------- */

  /** Every added row comes from an entry that was not there, and every such entry is added. */
  lemma {:induction false} AddedAreTheMissing<A>(rows: seq<Row<A>>, plans: seq<Plan<A>>)
    ensures forall i :: 0 <= i < |Added(rows, plans)| ==>
      !Has(rows, Added(rows, plans)[i].name) && Comes(Added(rows, plans)[i], plans)
    ensures forall k :: 0 <= k < |plans| && !Has(rows, plans[k].name) ==>
      Row(plans[k].name, plans[k].initial) in Added(rows, plans)
  {
    if plans != [] {
      var before, plan := plans[..|plans| - 1], plans[|plans| - 1];
      AddedAreTheMissing(rows, before);
      forall i | 0 <= i < |Added(rows, plans)|
        ensures !Has(rows, Added(rows, plans)[i].name) && Comes(Added(rows, plans)[i], plans)
      {
        if i < |Added(rows, before)| {
          assert Added(rows, plans)[i] == Added(rows, before)[i] && Comes(Added(rows, before)[i], before);
        }
      }
    }
  }

  ghost predicate Comes<A>(row: Row<A>, plans: seq<Plan<A>>) {
    exists k :: 0 <= k < |plans| && plans[k].name == row.name && plans[k].initial == row.body
  }

  /** Whether two entries would add the same name. */
  predicate Clash<A>(rows: seq<Row<A>>, plans: seq<Plan<A>>) {
    exists i, j :: 0 <= i < j < |plans| && plans[i].name == plans[j].name && !Has(rows, plans[i].name)
  }

  /**
   Names stay unique exactly when no two entries would add the same one: lookups do
   not see what is pending, so nothing but the file itself can prevent it.
   */
  lemma {:induction false} UniqueExactlyWithoutClash<A>(rows: seq<Row<A>>, plans: seq<Plan<A>>)
    requires UniqueRows(rows)
    ensures UniqueRows(RowsAfter(rows, plans) + Added(rows, plans)) <==> !Clash(rows, plans)
  {
    NamesStay(rows, plans);
    AddedAreTheMissing(rows, plans);
    if Clash(rows, plans) {
      ClashBreaksUnique(rows, plans);
    } else {
      NoClashKeepsUnique(rows, plans);
    }
    var there, added := RowsAfter(rows, plans), Added(rows, plans);
    forall i, j | 0 <= i < |there| && 0 <= j < |added| ensures there[i].name != added[j].name {
      assert rows[i].name == there[i].name && !Has(rows, added[j].name);
    }
    UniqueConcat(there, added);
  }

  lemma UniqueConcat<A>(a: seq<Row<A>>, b: seq<Row<A>>)
    requires UniqueRows(a) && forall i, j :: 0 <= i < |a| && 0 <= j < |b| ==> a[i].name != b[j].name
    ensures UniqueRows(a + b) <==> UniqueRows(b)
  {
    if UniqueRows(a + b) {
      forall i, j | 0 <= i < j < |b| ensures b[i].name != b[j].name {
        assert (a + b)[|a| + i] == b[i] && (a + b)[|a| + j] == b[j];
      }
    }
  }

  lemma {:induction false} NoClashKeepsUnique<A>(rows: seq<Row<A>>, plans: seq<Plan<A>>)
    requires !Clash(rows, plans)
    ensures UniqueRows(Added(rows, plans))
  {
    if plans != [] {
      var before, plan := plans[..|plans| - 1], plans[|plans| - 1];
      var added := Added(rows, before);
      assert forall i :: 0 <= i < |before| ==> plans[i] == before[i];
      NoClashKeepsUnique(rows, before);
      AddedAreTheMissing(rows, before);
      forall a | 0 <= a < |added| && !Has(rows, plan.name) ensures added[a].name != plan.name {
        assert Comes(added[a], before);
        var k :| 0 <= k < |before| && before[k].name == added[a].name && before[k].initial == added[a].body;
        assert plans[k] == before[k];
      }
    }
  }

  lemma {:induction false} ClashBreaksUnique<A>(rows: seq<Row<A>>, plans: seq<Plan<A>>)
    requires Clash(rows, plans)
    ensures !UniqueRows(Added(rows, plans))
  {
    var before := plans[..|plans| - 1];
    var added, all := Added(rows, before), Added(rows, plans);
    if Clash(rows, before) {
      ClashBreaksUnique(rows, before);
      var a, b :| 0 <= a < b < |added| && added[a].name == added[b].name;
      assert all[a].name == all[b].name;
    } else {
      var i, j :| 0 <= i < j < |plans| && plans[i].name == plans[j].name && !Has(rows, plans[i].name);
      assert forall m :: 0 <= m < |before| ==> before[m] == plans[m];
      assert j == |before|;
      AddedAreTheMissing(rows, before);
      var k := IndexOfRow(Row(before[i].name, before[i].initial), added);
      assert all[k].name == all[|added|].name;
    }
  }

  lemma IndexOfRow<A>(row: Row<A>, rows: seq<Row<A>>) returns (k: nat)
    requires row in rows
    ensures k < |rows| && rows[k] == row
  {
    k :| 0 <= k < |rows| && rows[k] == row;
  }

  /* -------------------- what a pass makes of each row -------------------- */

  lemma {:induction false} UntouchedRow<A>(rows: seq<Row<A>>, plans: seq<Plan<A>>, i: nat)
    requires i < |rows| && forall k :: 0 <= k < |plans| ==> plans[k].name != rows[i].name
    ensures |RowsAfter(rows, plans)| == |rows| && RowsAfter(rows, plans)[i] == rows[i]
  {
    if plans != [] {
      UntouchedRow(rows, plans[..|plans| - 1], i);
    }
  }

  /** With unique names each row meets its one entry, and meets it once. */
  lemma {:induction false} TouchedRow<A>(rows: seq<Row<A>>, plans: seq<Plan<A>>, i: nat, k: nat)
    requires UniqueRows(rows) && UniquePlans(plans)
    requires i < |rows| && k < |plans| && plans[k].name == rows[i].name
    ensures |RowsAfter(rows, plans)| == |rows|
    ensures RowsAfter(rows, plans)[i] == Row(rows[i].name, plans[k].change(rows[i].body))
  {
    var before, plan := plans[..|plans| - 1], plans[|plans| - 1];
    var midway := RowsAfter(rows, before);
    NamesStay(rows, before);
    SameNamesSameLookups(rows, midway, plan.name);
    if k == |before| {
      UntouchedRow(rows, before, i);
      assert Has(rows, plan.name);
      assert Find(rows, plan.name) == i;
    } else {
      TouchedRow(rows, before, i, k);
      assert plan.name != rows[i].name;
    }
  }

  /* -------------------- a second pass -------------------- */

  /** Changing again changes nothing, nor does changing what was just made. */
  ghost predicate Settles<A(!new)>(plan: Plan<A>) {
    plan.change(plan.initial) == plan.initial && forall b :: plan.change(plan.change(b)) == plan.change(b)
  }

  /** Every row is as its entry wants it. */
  ghost predicate Settled<A>(rows: seq<Row<A>>, plan: Plan<A>) {
    Has(rows, plan.name) && forall i :: 0 <= i < |rows| && rows[i].name == plan.name ==> plan.change(rows[i].body) == rows[i].body
  }

  lemma SettledAfter<A(!new)>(rows: seq<Row<A>>, plans: seq<Plan<A>>, k: nat)
    requires UniqueRows(rows) && UniquePlans(plans) && k < |plans| && Settles(plans[k])
    ensures Settled(RowsAfter(rows, plans) + Added(rows, plans), plans[k])
  {
    var plan := plans[k];
    var there, added := RowsAfter(rows, plans), Added(rows, plans);
    NamesStay(rows, plans);
    AddedAreTheMissing(rows, plans);
    var all: seq<Row<A>> := there + added;
    forall i | 0 <= i < |all| && all[i].name == plan.name ensures plan.change(all[i].body) == all[i].body
    {
      if i < |there| {
        TouchedRow(rows, plans, i, k);
      } else {
        assert Comes(added[i - |there|], plans);
      }
    }
    if Has(rows, plan.name) {
      assert all[Find(rows, plan.name)].name == plan.name;
    } else {
      var j := IndexOfRow(Row(plan.name, plan.initial), added);
      assert all[|there| + j].name == plan.name;
    }
  }

  lemma {:induction false} SettledPassDoesNothing<A>(rows: seq<Row<A>>, plans: seq<Plan<A>>)
    requires forall k :: 0 <= k < |plans| ==> Settled(rows, plans[k])
    ensures RowsAfter(rows, plans) == rows && Added(rows, plans) == []
  {
    if plans != [] {
      SettledPassDoesNothing(rows, plans[..|plans| - 1]);
      assert Settled(rows, plans[|plans| - 1]);
    }
  }

  /** A second pass over what the first one left changes nothing and adds nothing. */
  lemma SecondPassDoesNothing<A(!new)>(rows: seq<Row<A>>, plans: seq<Plan<A>>)
    requires UniqueRows(rows) && UniquePlans(plans)
    requires forall k :: 0 <= k < |plans| ==> Settles(plans[k])
    ensures var all := RowsAfter(rows, plans) + Added(rows, plans);
            RowsAfter(all, plans) == all && Added(all, plans) == []
  {
    var all := RowsAfter(rows, plans) + Added(rows, plans);
    forall k | 0 <= k < |plans| ensures Settled(all, plans[k]) {
      SettledAfter(rows, plans, k);
    }
    SettledPassDoesNothing(all, plans);
  }
}
