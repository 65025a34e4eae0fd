/** Resetting a sandbox: its own rows of an allowlist of tables are replaced by the predefined fixture, and
    nothing else is touched. */
module SandboxReset {
  import opened Collections

  type OrgId = int

  datatype Row = Row(org: OrgId, data: int)

  type Rows = map<int, Row>

  type Tables = map<string, Rows>

  /** A row of the fixture, under the id generated for it. */
  datatype Seed = Seed(name: string, id: int, data: int)

  /** Derived records first, source records last. */
  const RESETTABLE := [
    "narrative_revisions", "incidents", "reconstruction_jobs", "alerts", "detection_events",
    "validation_reports", "decoy_plans", "placement_plans", "context_profiles", "repositories"]

  function RowsOf(tables: Tables, name: string): Rows {
    if name in tables then tables[name] else map[]
  }

  function OwnedBy(rows: Rows, org: OrgId): set<int> {
    set id | id in rows && rows[id].org == org
  }

  /** What an organization has in a table. */
  function Own(rows: Rows, org: OrgId): map<int, int> {
    map id | id in rows && rows[id].org == org :: rows[id].data
  }

  function Seeded(rows: Rows, name: string, org: OrgId, seeds: seq<Seed>): Rows {
    if seeds == [] then rows
    else
      var earlier, seed := Seeded(rows, name, org, seeds[..|seeds| - 1]), seeds[|seeds| - 1];
      if seed.name == name then earlier[seed.id := Row(org, seed.data)] else earlier
  }

  /** The fixture's rows for one table. */
  function Fixture(seeds: seq<Seed>, name: string): map<int, int> {
    if seeds == [] then map[]
    else
      var earlier, seed := Fixture(seeds[..|seeds| - 1], name), seeds[|seeds| - 1];
      if seed.name == name then earlier[seed.id := seed.data] else earlier
  }

  class SandboxResetService {
    var tables: Tables

    constructor (tables: Tables)
      ensures this.tables == tables
    {
      this.tables := tables;
    }

    /** `DELETE FROM table WHERE organization_id = :org`, answering how many rows went. */
    method DeleteOwned(name: string, org: OrgId) returns (count: nat)
      modifies this
      ensures RowsOf(tables, name) == RowsOf(old(tables), name) - OwnedBy(RowsOf(old(tables), name), org)
      ensures forall other :: other != name ==> RowsOf(tables, other) == RowsOf(old(tables), other)
      ensures count == |OwnedBy(RowsOf(old(tables), name), org)|
    {
      var owned := OwnedBy(RowsOf(tables, name), org);
      tables := tables[name := RowsOf(tables, name) - owned];
      count := |owned|;
    }

    /** The pipeline writes the fixture into the organization. */
    method Plant(org: OrgId, seeds: seq<Seed>)
      modifies this
      ensures forall name :: RowsOf(tables, name) == Seeded(RowsOf(old(tables), name), name, org, seeds)
    {
      for i := 0 to |seeds|
        invariant forall name :: RowsOf(tables, name) == Seeded(RowsOf(old(tables), name), name, org, seeds[..i])
      {
        var seed := seeds[i];
        assert seeds[..i + 1][..i] == seeds[..i];
        tables := tables[seed.name := RowsOf(tables, seed.name)[seed.id := Row(org, seed.data)]];
      }
      assert seeds[..|seeds|] == seeds;
    }

    method Reset(org: OrgId, seeds: seq<Seed>) returns (deleted: map<string, nat>)
      modifies this
      ensures forall name :: RowsOf(tables, name) == AfterReset(RowsOf(old(tables), name), name, org, seeds)
      ensures deleted.Keys == Elements(RESETTABLE)
      ensures forall name :: name in deleted ==> deleted[name] == |OwnedBy(RowsOf(old(tables), name), org)|
    {
      deleted := map[];
      TablesDistinct();
      hide RESETTABLE, OwnedBy, Seeded;
      for i := 0 to |RESETTABLE|
        invariant forall name :: name in RESETTABLE[..i] ==> RowsOf(tables, name) == Emptied(RowsOf(old(tables), name), name, org)
        invariant forall name :: name !in RESETTABLE[..i] ==> RowsOf(tables, name) == RowsOf(old(tables), name)
        invariant deleted.Keys == Elements(RESETTABLE[..i])
        invariant forall name :: name in deleted ==> deleted[name] == |OwnedBy(RowsOf(old(tables), name), org)|
      {
        var name := RESETTABLE[i];
        PrefixGrows(RESETTABLE, i);
        assert name !in RESETTABLE[..i] && name in RESETTABLE;
        var count := DeleteOwned(name, org);
        deleted := deleted[name := count];
      }
      assert RESETTABLE[..|RESETTABLE|] == RESETTABLE;
      Plant(org, seeds);
    }
  }

  function Emptied(rows: Rows, name: string, org: OrgId): Rows {
    if name in RESETTABLE then rows - OwnedBy(rows, org) else rows
  }

  function AfterReset(rows: Rows, name: string, org: OrgId, seeds: seq<Seed>): Rows {
    Seeded(Emptied(rows, name, org), name, org, seeds)
  }

  lemma TablesDistinct()
    ensures Distinct(RESETTABLE)
  {
    forall i, j | 0 <= i < j < |RESETTABLE| ensures RESETTABLE[i] != RESETTABLE[j] {
      assert RESETTABLE[i][0] != RESETTABLE[j][0] || |RESETTABLE[i]| != |RESETTABLE[j]|;
    }
  }

  // ---- what the organizations see ----

  /** Ids are generated at random, so an id belongs to the organization it was generated for. */
  ghost predicate Belong(rows: Rows, owner: int -> OrgId) {
    forall id :: id in rows ==> rows[id].org == owner(id)
  }

  ghost predicate FixtureFor(seeds: seq<Seed>, org: OrgId, owner: int -> OrgId) {
    forall i :: 0 <= i < |seeds| ==> seeds[i].name in RESETTABLE && owner(seeds[i].id) == org
  }

  lemma PutViews(rows: Rows, org: OrgId, id: int, data: int, owner: int -> OrgId)
    requires Belong(rows, owner) && owner(id) == org
    ensures var after := rows[id := Row(org, data)];
      && Belong(after, owner)
      && Own(after, org) == Own(rows, org)[id := data]
      && forall other :: other != org ==> Own(after, other) == Own(rows, other)
  {
    var after := rows[id := Row(org, data)];
    forall other | other != org ensures Own(after, other) == Own(rows, other) {
      assert id !in Own(rows, other);
    }
  }

  lemma {:induction false} SeededViews(rows: Rows, name: string, org: OrgId, seeds: seq<Seed>, owner: int -> OrgId)
    requires Belong(rows, owner) && FixtureFor(seeds, org, owner)
    ensures Belong(Seeded(rows, name, org, seeds), owner)
    ensures Own(Seeded(rows, name, org, seeds), org) == Own(rows, org) + Fixture(seeds, name)
    ensures forall other :: other != org ==> Own(Seeded(rows, name, org, seeds), other) == Own(rows, other)
    ensures name !in RESETTABLE ==> Seeded(rows, name, org, seeds) == rows
  {
    if seeds == [] {
      assert Own(rows, org) + map[] == Own(rows, org);
    } else {
      var earlier, seed := Seeded(rows, name, org, seeds[..|seeds| - 1]), seeds[|seeds| - 1];
      SeededViews(rows, name, org, seeds[..|seeds| - 1], owner);
      PutViews(earlier, org, seed.id, seed.data, owner);
      var fixture := Fixture(seeds[..|seeds| - 1], name);
      assert (Own(rows, org) + fixture)[seed.id := seed.data] == Own(rows, org) + fixture[seed.id := seed.data];
      hide Own, Belong;
    }
  }

  /** Whatever the session had done, after a reset it sees exactly the fixture in the listed tables and exactly
      what it saw before in all others; and nobody else sees any difference anywhere. */
  lemma ResetRestores(rows: Rows, name: string, org: OrgId, seeds: seq<Seed>, owner: int -> OrgId)
    requires Belong(rows, owner) && FixtureFor(seeds, org, owner)
    ensures var after := AfterReset(rows, name, org, seeds);
      && Belong(after, owner)
      && Own(after, org) == (if name in RESETTABLE then Fixture(seeds, name) else Own(rows, org))
      && forall other :: other != org ==> Own(after, other) == Own(rows, other)
  {
    var emptied := Emptied(rows, name, org);
    SeededViews(emptied, name, org, seeds, owner);
    assert name in RESETTABLE ==> Own(emptied, org) == map[];
    assert map[] + Fixture(seeds, name) == Fixture(seeds, name);
    forall other | other != org ensures Own(emptied, other) == Own(rows, other) {
    }
  }

  /** Authentication, the session with its quota accounting, and the audit trail are not listed. */
  lemma Preserved(name: string)
    requires name in ["api_keys", "judge_sandboxes", "security_audit"]
    ensures name !in RESETTABLE
  {
    forall i | 0 <= i < |RESETTABLE| ensures RESETTABLE[i] != name {
      assert RESETTABLE[i][0] != name[0] || |RESETTABLE[i]| != |name|;
    }
  }

  // ---- whole runs, seen in one table ----

  datatype Op = Write(writer: OrgId, name: string, id: int, data: int) | Reset(org: OrgId, seeds: seq<Seed>)

  function ActorOf(op: Op): OrgId {
    if op.Write? then op.writer else op.org
  }

  ghost predicate Lawful(op: Op, owner: int -> OrgId) {
    if op.Write? then owner(op.id) == op.writer else FixtureFor(op.seeds, op.org, owner)
  }

  function Apply(rows: Rows, name: string, op: Op): Rows {
    match op
    case Write(writer, written, id, data) => if written == name then rows[id := Row(writer, data)] else rows
    case Reset(org, seeds) => AfterReset(rows, name, org, seeds)
  }

  function Run(name: string, ops: seq<Op>): Rows {
    if ops == [] then map[] else Apply(Run(name, ops[..|ops| - 1]), name, ops[|ops| - 1])
  }

  /** The part of a run that one organization caused. */
  function By(ops: seq<Op>, org: OrgId): seq<Op> {
    if ops == [] then []
    else By(ops[..|ops| - 1], org) + (if ActorOf(ops[|ops| - 1]) == org then [ops[|ops| - 1]] else [])
  }

  lemma ApplyViews(rows: Rows, alone: Rows, name: string, op: Op, org: OrgId, owner: int -> OrgId)
    requires Belong(rows, owner) && Belong(alone, owner) && Lawful(op, owner)
    requires Own(rows, org) == Own(alone, org)
    ensures Belong(Apply(rows, name, op), owner) && Belong(Apply(alone, name, op), owner)
    ensures Own(Apply(rows, name, op), org) == Own(if ActorOf(op) == org then Apply(alone, name, op) else alone, org)
  {
    match op
    case Write(writer, written, id, data) =>
      PutViews(rows, writer, id, data, owner);
      PutViews(alone, writer, id, data, owner);
      hide Own, Belong;
    case Reset(who, seeds) =>
      ResetRestores(rows, name, who, seeds, owner);
      ResetRestores(alone, name, who, seeds, owner);
  }

  /** No interference: in any run of writes and resets by any number of organizations, each of them sees in
      every table what it would have seen alone. */
  lemma {:induction false} SandboxesAreIsolated(name: string, ops: seq<Op>, org: OrgId, owner: int -> OrgId)
    requires forall i :: 0 <= i < |ops| ==> Lawful(ops[i], owner)
    ensures Belong(Run(name, ops), owner) && Belong(Run(name, By(ops, org)), owner)
    ensures Own(Run(name, ops), org) == Own(Run(name, By(ops, org)), org)
  {
    if ops != [] {
      var n := |ops| - 1;
      SandboxesAreIsolated(name, ops[..n], org, owner);
      var alone := By(ops[..n], org);
      ApplyViews(Run(name, ops[..n]), Run(name, alone), name, ops[n], org, owner);
      assert By(ops, org) == alone + (if ActorOf(ops[n]) == org then [ops[n]] else []);
      assert (alone + [ops[n]])[..|alone|] == alone;
      assert alone + [] == alone;
    }
  }

  /** What the fixture holds, before ids are generated for it. */
  datatype Item = Item(name: string, data: int)

  function Under(items: seq<Item>, ids: seq<int>): seq<Seed>
    requires |ids| == |items|
  {
    seq(|items|, i requires 0 <= i < |items| => Seed(items[i].name, ids[i], items[i].data))
  }

  /** The view is exactly the fixture's part of one table, under these ids. */
  ghost predicate Shows(view: map<int, int>, items: seq<Item>, ids: seq<int>, name: string)
    requires |ids| == |items|
  {
    && (forall i :: 0 <= i < |items| && items[i].name == name ==> ids[i] in view && view[ids[i]] == items[i].data)
    && (forall id :: id in view ==> exists i :: 0 <= i < |items| && items[i].name == name && ids[i] == id)
  }

  lemma {:induction false} FixtureShows(items: seq<Item>, ids: seq<int>, name: string)
    requires |ids| == |items| && Distinct(ids)
    ensures Shows(Fixture(Under(items, ids), name), items, ids, name)
  {
    if items != [] {
      var n := |items| - 1;
      FixtureShows(items[..n], ids[..n], name);
      assert Under(items, ids)[..n] == Under(items[..n], ids[..n]);
      var earlier, view := Fixture(Under(items[..n], ids[..n]), name), Fixture(Under(items, ids), name);
      assert view == if items[n].name == name then earlier[ids[n] := items[n].data] else earlier;
      forall id | id in view ensures exists i :: 0 <= i < |items| && items[i].name == name && ids[i] == id {
        if id in earlier {
          var i :| 0 <= i < n && items[..n][i].name == name && ids[..n][i] == id;
          assert items[i].name == name && ids[i] == id;
        }
      }
      forall i | 0 <= i < |items| && items[i].name == name ensures ids[i] in view && view[ids[i]] == items[i].data {
        if i < n {
          assert items[..n][i].name == name && ids[..n][i] == ids[i];
        }
      }
    }
  }

  /** So a reset brings a session back to its starting point: under its own fresh ids, the session then sees in
      the listed tables the same fixture as after its very first seeding, whatever anyone did in between. */
  lemma ResetIsAFreshStart(
    name: string, ops: seq<Op>, org: OrgId, items: seq<Item>, first: seq<int>, again: seq<int>, owner: int -> OrgId)
    requires forall i :: 0 <= i < |ops| ==> Lawful(ops[i], owner)
    requires |first| == |items| == |again| && Distinct(first) && Distinct(again)
    requires FixtureFor(Under(items, first), org, owner) && FixtureFor(Under(items, again), org, owner)
    requires name in RESETTABLE
    ensures Shows(Own(Run(name, [Reset(org, Under(items, first))]), org), items, first, name)
    ensures Shows(Own(Run(name, ops + [Reset(org, Under(items, again))]), org), items, again, name)
  {
    SandboxesAreIsolated(name, ops, org, owner);
    ResetRestores(Run(name, ops), name, org, Under(items, again), owner);
    ResetRestores(map[], name, org, Under(items, first), owner);
    FixtureShows(items, first, name);
    FixtureShows(items, again, name);
    assert (ops + [Reset(org, Under(items, again))])[..|ops|] == ops;
    assert Run(name, [Reset(org, Under(items, first))]) == Apply(map[], name, Reset(org, Under(items, first))) by {
      assert [Reset(org, Under(items, first))][..0] == [];
    }
    hide Under, Fixture, Shows, AfterReset;
  }
}
