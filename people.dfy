/** The people side of the pipeline as functions on the tables: grouping a
    company's relationship rows by person (`get_people`, first loop), the
    two short-circuiting keyed lookups (`get_people_from_object`,
    `get_people_from_people`) and the rightmost-wins merge. */
module People {
  import opened Common
  import opened Text
  import opened Rows

  // Relationship-table field names; the quotes are part of the names.
  const RelCompanyField := "'relationship_object_id'"
  const RelPersonField := "'person_object_id'"
  const RelIdField := "'id'"
  const RelRelationshipIdField := "'relationship_id'"

  // Key fields of the objects table and of the people table.
  const ObjectKeyField := "id"
  const PeopleKeyField := "object_id"
  const PeopleIdField := "id"

  const RolesField := "roles"

  /** The relationship-table field names are pairwise different. */
  lemma FieldNamesDistinct()
    ensures RelCompanyField != RelPersonField && RelCompanyField != RelIdField && RelCompanyField != RelRelationshipIdField
    ensures RelPersonField != RelIdField && RelPersonField != RelRelationshipIdField && RelIdField != RelRelationshipIdField
  {
    assert |RelIdField| == 4;
  }

  /** Person id to the role rows recorded for that person. */
  type Roles = map<Value, seq<Row>>

  /** A relationship row as it is stored among the roles: without its two
      internal identifiers, normalised. */
  function RoleRow(rel: Row): Row {
    Normalized(rel - {RelIdField, RelRelationshipIdField})
  }

  /** One turn of the relationship loop. A matching row loses `'id'` and
      `'relationship_id'` (KeyError if absent), is normalised, and is
      appended under its raw person id when that id is already a key;
      otherwise it starts a new list under its normalised person id. */
  function AddRelationship(roles: Result<Roles>, rel: Row, company: Value): Result<Roles> {
    match roles
    case Err(e) => Err(e)
    case Ok(m) =>
      if RelCompanyField !in rel then Err(MissingField(RelCompanyField))
      else if rel[RelCompanyField] != company then Ok(m)
      else if RelIdField !in rel then Err(MissingField(RelIdField))
      else if RelRelationshipIdField !in rel then Err(MissingField(RelRelationshipIdField))
      else
        var stripped := rel - {RelIdField, RelRelationshipIdField};
        if RelPersonField !in stripped then Err(MissingField(RelPersonField))
        else
          match NormalizeRow(stripped)
          case Err(e) => Err(e)
          case Ok(n) =>
            var raw := stripped[RelPersonField];
            if raw in m then Ok(m[raw := m[raw] + [n]]) else Ok(m[n[RelPersonField] := [n]])
  }

  /** The roles map that `get_people` builds from the relationships table;
      its key set is the `people_ids` set. */
  function GroupRoles(rels: seq<Row>, company: Value): Result<Roles> {
    if rels == [] then Ok(map[])
    else AddRelationship(GroupRoles(rels[..|rels| - 1], company), rels[|rels| - 1], company)
  }

  /** Reference definition: the role rows recorded between `company` and
      person `pid`, in table order. */
  function RolesOf(rels: seq<Row>, company: Value, pid: string): seq<Row> {
    if rels == [] then []
    else
      var last := rels[|rels| - 1];
      RolesOf(rels[..|rels| - 1], company, pid) +
        if RelCompanyField in last && last[RelCompanyField] == company
           && RelPersonField in last && last[RelPersonField] == Some(pid)
        then [RoleRow(last)] else []
  }

  /** Every key of the roles map is a real person id, or null for rows
      whose person id is the sentinel. */
  predicate KeysAreIds(m: Roles) {
    forall k :: k in m ==> k == None || !IsSentinel(k.value)
  }

  /** One entry per person id met among the company's relationship rows,
      holding every such row in table order. */
  ghost predicate GroupsRolesOf(m: Roles, rels: seq<Row>, company: Value) {
    forall pid :: !IsSentinel(pid) ==>
      && (Some(pid) in m <==> RolesOf(rels, company, pid) != [])
      && (Some(pid) in m ==> m[Some(pid)] == RolesOf(rels, company, pid))
  }

  /** The grouping is correct: its keys are person ids (or null), and it
      holds, under each real person id, exactly that person's role rows. */
  lemma {:induction false} GroupRolesCorrect(rels: seq<Row>, company: Value)
    requires GroupRoles(rels, company).Ok?
    ensures KeysAreIds(GroupRoles(rels, company).value)
    ensures GroupsRolesOf(GroupRoles(rels, company).value, rels, company)
  {
    if rels != [] {
      var init := rels[..|rels| - 1];
      var rel := rels[|rels| - 1];
      assert rels == init + [rel];
      GroupRolesCorrect(init, company);
      GroupRolesStep(init, rel, company);
    }
  }

  /** One more relationship row keeps the grouping correct. */
  lemma GroupRolesStep(init: seq<Row>, rel: Row, company: Value)
    requires GroupRoles(init, company).Ok? && GroupRoles(init + [rel], company).Ok?
    requires KeysAreIds(GroupRoles(init, company).value)
    requires GroupsRolesOf(GroupRoles(init, company).value, init, company)
    ensures KeysAreIds(GroupRoles(init + [rel], company).value)
    ensures GroupsRolesOf(GroupRoles(init + [rel], company).value, init + [rel], company)
  {
    FieldNamesDistinct();
    var rels := init + [rel];
    assert rels[..|rels| - 1] == init && rels[|rels| - 1] == rel;
    var m := GroupRoles(init, company).value;
    var m' := GroupRoles(rels, company).value;
    assert m' == AddRelationship(Ok(m), rel, company).value;
    if rel[RelCompanyField] == company {
      var stripped := rel - {RelIdField, RelRelationshipIdField};
      var n := Normalized(stripped);
      var raw := stripped[RelPersonField];
      assert raw == rel[RelPersonField] && raw.Some?;
      assert RoleRow(rel) == n;
      if IsSentinel(raw.value) {
        assert n[RelPersonField] == None;
        assert m' == m[None := [n]];
        UnrelatedRowKeepsRoles(init, rel, company);
      } else {
        assert n[RelPersonField] == raw;
        assert m' == m[raw := if raw in m then m[raw] + [n] else [n]];
        PersonRowAddsRole(init, rel, company, m, raw.value);
      }
    } else {
      UnrelatedRowKeepsRoles(init, rel, company);
    }
  }

  /** A row that does not relate `company` to a real person id changes no
      person's roles. */
  lemma UnrelatedRowKeepsRoles(init: seq<Row>, rel: Row, company: Value)
    requires !(RelCompanyField in rel && rel[RelCompanyField] == company
               && RelPersonField in rel && rel[RelPersonField].Some? && !IsSentinel(rel[RelPersonField].value))
    ensures forall pid :: !IsSentinel(pid) ==> RolesOf(init + [rel], company, pid) == RolesOf(init, company, pid)
  {
    var rels := init + [rel];
    assert rels[..|rels| - 1] == init && rels[|rels| - 1] == rel;
  }

  /** A row relating `company` to person `p` adds its role row to `p` only. */
  lemma PersonRowAddsRole(init: seq<Row>, rel: Row, company: Value, m: Roles, p: string)
    requires RelCompanyField in rel && rel[RelCompanyField] == company
    requires RelPersonField in rel && rel[RelPersonField] == Some(p) && !IsSentinel(p)
    requires GroupsRolesOf(m, init, company)
    ensures var m' := m[Some(p) := if Some(p) in m then m[Some(p)] + [RoleRow(rel)] else [RoleRow(rel)]];
      GroupsRolesOf(m', init + [rel], company)
  {
    var rels := init + [rel];
    assert rels[..|rels| - 1] == init && rels[|rels| - 1] == rel;
    var m' := m[Some(p) := if Some(p) in m then m[Some(p)] + [RoleRow(rel)] else [RoleRow(rel)]];
    forall pid | !IsSentinel(pid)
      ensures Some(pid) in m' <==> RolesOf(rels, company, pid) != []
      ensures Some(pid) in m' ==> m'[Some(pid)] == RolesOf(rels, company, pid)
    {
      if pid == p {
        assert RolesOf(rels, company, pid) == RolesOf(init, company, pid) + [RoleRow(rel)];
      } else {
        assert RolesOf(rels, company, pid) == RolesOf(init, company, pid);
      }
    }
  }

  /** The sentinel is not itself whitespace-padded: `"N"` strips to `"N"`. */
  lemma BareSentinel()
    ensures IsSentinel("N")
  {
    assert !IsSpace('N');
    assert TrimStart("N") == "N";
    assert TrimEnd("N") == "N";
  }

  /** Two relationship rows relating the company to the sentinel person id
      `N`: the first is stored under the normalised id null, and the second
      looks itself up under the raw id `N`, misses, and replaces it. */
  lemma SentinelPersonIdsCollide(r1: Row, r2: Row, company: Value)
    requires RelCompanyField in r1 && r1[RelCompanyField] == company && RelCompanyField in r2 && r2[RelCompanyField] == company
    requires RelIdField in r1 && RelRelationshipIdField in r1 && RelIdField in r2 && RelRelationshipIdField in r2
    requires RelPersonField in r1 && r1[RelPersonField] == Some("N") && RelPersonField in r2 && r2[RelPersonField] == Some("N")
    requires AllStrings(r1) && AllStrings(r2)
    ensures GroupRoles([r1, r2], company) == Ok(map[None := [RoleRow(r2)]])
  {
    FieldNamesDistinct();
    BareSentinel();
    var s1 := r1 - {RelIdField, RelRelationshipIdField};
    var s2 := r2 - {RelIdField, RelRelationshipIdField};
    assert NormalizeRow(s1) == Ok(RoleRow(r1)) && RoleRow(r1)[RelPersonField] == None;
    assert NormalizeRow(s2) == Ok(RoleRow(r2)) && RoleRow(r2)[RelPersonField] == None;
    assert [r1][..0] == [] && [r1, r2][..1] == [r1];
    var m: Roles := map[None := [RoleRow(r1)]];
    assert GroupRoles([r1], company) == Ok(m);
    assert s2[RelPersonField] == Some("N") && Some("N") !in m;
    assert AddRelationship(Ok(m), r2, company) == Ok(m[None := [RoleRow(r2)]]);
    assert m[None := [RoleRow(r2)]] == map[None := [RoleRow(r2)]];
    assert GroupRoles([r1, r2], company) == AddRelationship(Ok(m), r2, company);
  }

  /** An exception raised within the first `k` rows ends the grouping there. */
  lemma {:induction false} GroupRolesPrefixErr(rels: seq<Row>, company: Value, k: nat)
    requires k <= |rels| && GroupRoles(rels[..k], company).Err?
    ensures GroupRoles(rels, company) == GroupRoles(rels[..k], company)
  {
    if k < |rels| {
      var init := rels[..|rels| - 1];
      assert init[..k] == rels[..k];
      GroupRolesPrefixErr(init, company, k);
    } else {
      assert rels[..k] == rels;
    }
  }

  /** A company with no relationship rows has no people. */
  lemma {:induction false} NoRelationshipsNoRoles(rels: seq<Row>, company: Value)
    requires forall rel :: rel in rels ==> RelCompanyField in rel && rel[RelCompanyField] != company
    ensures GroupRoles(rels, company) == Ok(map[])
  {
    if rels != [] {
      assert rels[|rels| - 1] in rels;
      NoRelationshipsNoRoles(rels[..|rels| - 1], company);
    }
  }

  /** The progress of a keyed lookup: what has been found, and whether the
      loop has broken out because every requested id is found. */
  datatype Scan = Scan(found: map<Value, Row>, done: bool)

  /** The value stored for a matching row: the row itself, or for the people
      table the row without `id` and the key field (KeyError when the row
      has no `id`). */
  function Entry(row: Row, keyField: string, dropIds: bool): (r: Result<Row>)
    requires keyField in row
    ensures r.Err? <==> dropIds && PeopleIdField !in row
    ensures r.Err? ==> r.error == MissingField(PeopleIdField)
    ensures r.Ok? ==> r.value.Keys == row.Keys - (if dropIds then {PeopleIdField, keyField} else {})
    ensures r.Ok? ==> forall k :: k in r.value ==> r.value[k] == row[k]
  {
    if !dropIds then Ok(row)
    else if PeopleIdField !in row then Err(MissingField(PeopleIdField))
    else Ok(row - {PeopleIdField, keyField})
  }

  /** One turn of a lookup loop: rows after the break are not read. */
  function LookupStep(s: Result<Scan>, row: Row, keyField: string, dropIds: bool, ids: set<Value>): Result<Scan> {
    match s
    case Err(e) => Err(e)
    case Ok(sc) =>
      if sc.done then s
      else if keyField !in row then Err(MissingField(keyField))
      else if row[keyField] !in ids then s
      else
        match Entry(row, keyField, dropIds)
        case Err(e) => Err(e)
        case Ok(v) =>
          var m := sc.found[row[keyField] := v];
          Ok(Scan(m, |m| == |ids|))
  }

  function LookupScan(table: seq<Row>, keyField: string, dropIds: bool, ids: set<Value>): Result<Scan> {
    if table == [] then Ok(Scan(map[], false))
    else LookupStep(LookupScan(table[..|table| - 1], keyField, dropIds, ids), table[|table| - 1], keyField, dropIds, ids)
  }

  /** The dictionary a keyed lookup returns. */
  function Lookup(table: seq<Row>, keyField: string, dropIds: bool, ids: set<Value>): Result<map<Value, Row>> {
    match LookupScan(table, keyField, dropIds, ids)
    case Err(e) => Err(e)
    case Ok(sc) => Ok(sc.found)
  }

  /** The row `row` of the table is stored under key `k`. */
  predicate StoredFrom(table: seq<Row>, keyField: string, dropIds: bool, k: Value, v: Row) {
    exists j :: 0 <= j < |table| && keyField in table[j] && table[j][keyField] == k
      && Entry(table[j], keyField, dropIds) == Ok(v)
  }

  predicate KeyOccurs(table: seq<Row>, keyField: string, k: Value) {
    exists j :: 0 <= j < |table| && keyField in table[j] && table[j][keyField] == k
  }

  /** A successful lookup holds only requested ids, and has broken out of
      its loop exactly when it holds all of them. */
  lemma {:induction false} LookupKeys(table: seq<Row>, keyField: string, dropIds: bool, ids: set<Value>)
    requires LookupScan(table, keyField, dropIds, ids).Ok?
    ensures var sc := LookupScan(table, keyField, dropIds, ids).value;
      sc.found.Keys <= ids && (sc.done <==> sc.found.Keys == ids && ids != {})
  {
    if table != [] {
      var init := table[..|table| - 1];
      var row := table[|table| - 1];
      var s0 := LookupScan(init, keyField, dropIds, ids);
      assert LookupScan(table, keyField, dropIds, ids) == LookupStep(s0, row, keyField, dropIds, ids);
      LookupKeys(init, keyField, dropIds, ids);
      var sc0 := s0.value;
      var sc := LookupScan(table, keyField, dropIds, ids).value;
      if !sc0.done && row[keyField] in ids {
        var v := Entry(row, keyField, dropIds).value;
        assert sc.found == sc0.found[row[keyField] := v];
        assert sc.done == (|sc.found| == |ids|);
        assert sc.found.Keys <= ids;
        SubsetOfSameSize(sc.found.Keys, ids);
      }
    }
  }

  /** A subset as large as its superset is the superset. */
  lemma SubsetOfSameSize<T>(a: set<T>, b: set<T>)
    requires a <= b
    ensures |a| == |b| <==> a == b
  {
    var rest := b - a;
    assert b == a + rest && a * rest == {};
    assert |b| == |a| + |rest|;
  }

  /** Every value a successful lookup holds is stored from a table row with
      that key. */
  lemma {:induction false} LookupStored(table: seq<Row>, keyField: string, dropIds: bool, ids: set<Value>)
    requires LookupScan(table, keyField, dropIds, ids).Ok?
    ensures var sc := LookupScan(table, keyField, dropIds, ids).value;
      forall k :: k in sc.found ==> StoredFrom(table, keyField, dropIds, k, sc.found[k])
  {
    if table != [] {
      var init := table[..|table| - 1];
      var row := table[|table| - 1];
      LookupStored(init, keyField, dropIds, ids);
      var sc0 := LookupScan(init, keyField, dropIds, ids).value;
      var sc := LookupScan(table, keyField, dropIds, ids).value;
      forall k | k in sc.found ensures StoredFrom(table, keyField, dropIds, k, sc.found[k]) {
        if !sc0.done && row[keyField] in ids && k == row[keyField] {
          assert table[|table| - 1] == row;
        } else {
          assert sc.found[k] == sc0.found[k];
          var j :| 0 <= j < |init| && keyField in init[j] && init[j][keyField] == k
            && Entry(init[j], keyField, dropIds) == Ok(sc0.found[k]);
          assert table[j] == init[j];
        }
      }
    }
  }

  /** A successful lookup finds every requested id that occurs in the table. */
  lemma {:induction false} LookupComplete(table: seq<Row>, keyField: string, dropIds: bool, ids: set<Value>)
    requires LookupScan(table, keyField, dropIds, ids).Ok?
    ensures var sc := LookupScan(table, keyField, dropIds, ids).value;
      forall k :: k in ids && KeyOccurs(table, keyField, k) ==> k in sc.found
  {
    if table != [] {
      var init := table[..|table| - 1];
      var row := table[|table| - 1];
      LookupComplete(init, keyField, dropIds, ids);
      LookupKeys(init, keyField, dropIds, ids);
      var sc0 := LookupScan(init, keyField, dropIds, ids).value;
      var sc := LookupScan(table, keyField, dropIds, ids).value;
      assert sc0.found.Keys <= sc.found.Keys;
      forall k | k in ids && KeyOccurs(table, keyField, k) ensures k in sc.found {
        var j :| 0 <= j < |table| && keyField in table[j] && table[j][keyField] == k;
        if j < |init| {
          assert init[j] == table[j];
          assert KeyOccurs(init, keyField, k);
        }
      }
    }
  }

  /** What a successful lookup returns: only requested ids, each stored from
      a row of the table with that key; every requested id whose key occurs
      in the table is found; the loop has broken out exactly when all are. */
  lemma LookupCorrect(table: seq<Row>, keyField: string, dropIds: bool, ids: set<Value>)
    requires LookupScan(table, keyField, dropIds, ids).Ok?
    ensures var sc := LookupScan(table, keyField, dropIds, ids).value;
      && sc.found.Keys <= ids
      && (sc.done <==> sc.found.Keys == ids && ids != {})
      && (forall k :: k in sc.found ==> StoredFrom(table, keyField, dropIds, k, sc.found[k]))
      && (forall k :: k in ids && KeyOccurs(table, keyField, k) ==> k in sc.found)
  {
    LookupKeys(table, keyField, dropIds, ids);
    LookupStored(table, keyField, dropIds, ids);
    LookupComplete(table, keyField, dropIds, ids);
  }

  /** Once every requested id is found, or an exception is raised, the rest
      of the table is never read: it neither changes the result nor can make
      the lookup fail. */
  lemma {:induction false} LookupStops(table: seq<Row>, keyField: string, dropIds: bool, ids: set<Value>, k: nat)
    requires k <= |table|
    requires LookupScan(table[..k], keyField, dropIds, ids).Ok? ==> LookupScan(table[..k], keyField, dropIds, ids).value.done
    ensures LookupScan(table, keyField, dropIds, ids) == LookupScan(table[..k], keyField, dropIds, ids)
  {
    if k < |table| {
      var init := table[..|table| - 1];
      assert init[..k] == table[..k];
      LookupStops(init, keyField, dropIds, ids, k);
    } else {
      assert table[..k] == table;
    }
  }

  /** `get_people_from_object(ids)`: objects-table rows by their `id`. */
  function ObjectLookup(objects: seq<Row>, ids: set<Value>): Result<map<Value, Row>> {
    Lookup(objects, ObjectKeyField, false, ids)
  }

  /** `get_people_from_people(ids)`: people-table rows by their `object_id`,
      stripped of `id` and `object_id`. */
  function PeopleLookup(people: seq<Row>, ids: set<Value>): Result<map<Value, Row>> {
    Lookup(people, PeopleKeyField, true, ids)
  }

  /** A field of a merged person record: a cell, or the list of roles. */
  datatype Field = Cell(value: Value) | RoleList(rows: seq<Row>)

  /** A merged person record. */
  type Person = map<string, Field>

  /** A row's cells as fields of a person record. */
  function Lift(row: Row): Person {
    map k | k in row :: Cell(row[k])
  }

  /** Spreading a row into a record loses nothing: different rows give
      different records. */
  lemma LiftInjective(a: Row, b: Row)
    ensures Lift(a) == Lift(b) ==> a == b
  {
    if Lift(a) == Lift(b) {
      assert a.Keys == Lift(a).Keys && b.Keys == Lift(b).Keys;
      forall k | k in a ensures a[k] == b[k] {
        assert Lift(a)[k] == Cell(a[k]) && Lift(b)[k] == Cell(b[k]);
      }
    }
  }

  /** `{'roles': roles, **obj, **person}`. */
  function MergePerson(roles: seq<Row>, obj: Row, person: Row): Person {
    map[RolesField := RoleList(roles)] + Lift(obj) + Lift(person)
  }

  /** In a merged record later sources win on a shared key: the people row
      over the objects row, both over the roles. */
  lemma MergeRightmostWins(roles: seq<Row>, obj: Row, person: Row)
    ensures var p := MergePerson(roles, obj, person);
      && p.Keys == {RolesField} + obj.Keys + person.Keys
      && (forall k :: k in person ==> p[k] == Cell(person[k]))
      && (forall k :: k in obj && k !in person ==> p[k] == Cell(obj[k]))
      && (RolesField !in obj && RolesField !in person ==> p[RolesField] == RoleList(roles))
  {
  }

  /** The merge loop of `get_people`: a record for every person id, or the
      KeyError raised for an id missing from either lookup. */
  function MergeAll(roles: Roles, o: map<Value, Row>, p: map<Value, Row>): (r: Result<map<Value, Person>>)
    ensures r.Err? <==> exists id :: id in roles && (id !in o || id !in p)
    ensures r.Err? ==> r.error == MissingPerson
    ensures r.Ok? ==> r.value.Keys == roles.Keys
  {
    if roles.Keys <= o.Keys && roles.Keys <= p.Keys
    then Ok(map id | id in roles.Keys :: MergePerson(roles[id], o[id], p[id]))
    else Err(MissingPerson)
  }

  /** Each record of a successful merge is the person's roles, objects row
      and people row merged with later sources winning: its fields are
      the union of theirs, the people row's cells win over the objects
      row's, and the roles survive unless a row has a `roles` column. */
  lemma MergedRecord(roles: Roles, o: map<Value, Row>, p: map<Value, Row>, id: Value)
    requires MergeAll(roles, o, p).Ok? && id in roles
    ensures id in o && id in p && id in MergeAll(roles, o, p).value
    ensures var rec := MergeAll(roles, o, p).value[id];
      && rec.Keys == {RolesField} + o[id].Keys + p[id].Keys
      && (forall k :: k in p[id] ==> rec[k] == Cell(p[id][k]))
      && (forall k :: k in o[id] && k !in p[id] ==> rec[k] == Cell(o[id][k]))
      && (RolesField !in o[id] && RolesField !in p[id] ==> rec[RolesField] == RoleList(roles[id]))
  {
    MergeRightmostWins(roles[id], o[id], p[id]);
  }

  /** A person id missing from either lookup table is the `KeyError` of the
      merge, whatever the other ids are. */
  lemma MissingPersonRaises(roles: Roles, o: map<Value, Row>, p: map<Value, Row>, id: Value)
    requires id in roles && (id !in o || id !in p)
    ensures MergeAll(roles, o, p) == Err(MissingPerson)
  {
  }

  /** The people of a company keyed by person id, as `get_people` assembles
      them, or the exception it raises; a person missing from either lookup
      table is the KeyError of the merge. */
  function PeopleOf(objects: seq<Row>, people: seq<Row>, rels: seq<Row>, company: Value): Result<map<Value, Person>> {
    match GroupRoles(rels, company)
    case Err(e) => Err(e)
    case Ok(roles) =>
      match ObjectLookup(objects, roles.Keys)
      case Err(e) => Err(e)
      case Ok(o) =>
        match PeopleLookup(people, roles.Keys)
        case Err(e) => Err(e)
        case Ok(p) => MergeAll(roles, o, p)
  }

  /** A company without relationship rows has no people (given tables whose
      rows all carry their key fields). */
  lemma NoRelationshipsNoPeople(objects: seq<Row>, people: seq<Row>, rels: seq<Row>, company: Value)
    requires forall rel :: rel in rels ==> RelCompanyField in rel && rel[RelCompanyField] != company
    requires forall row :: row in objects ==> ObjectKeyField in row
    requires forall row :: row in people ==> PeopleKeyField in row
    ensures PeopleOf(objects, people, rels, company) == Ok(map[])
  {
    NoRelationshipsNoRoles(rels, company);
    var roles: Roles := map[];
    assert roles.Keys == {};
    LookupOfNothing(objects, ObjectKeyField, false);
    LookupOfNothing(people, PeopleKeyField, true);
    assert ObjectLookup(objects, roles.Keys) == Ok(map[]);
    assert PeopleLookup(people, roles.Keys) == Ok(map[]);
  }

  /** Looking up no ids reads the whole table and finds nothing. */
  lemma {:induction false} LookupOfNothing(table: seq<Row>, keyField: string, dropIds: bool)
    requires forall row :: row in table ==> keyField in row
    ensures LookupScan(table, keyField, dropIds, {}) == Ok(Scan(map[], false))
  {
    if table != [] {
      assert table[|table| - 1] in table;
      LookupOfNothing(table[..|table| - 1], keyField, dropIds);
    }
  }

  /** `list` enumerates the values of `m` along `order`, a duplicate-free
      listing of its keys. */
  ghost predicate Enumerates(list: seq<Person>, order: seq<Value>, m: map<Value, Person>) {
    && |order| == |list|
    && (forall i, j :: 0 <= i < j < |order| ==> order[i] != order[j])
    && (forall k :: k in m ==> k in order)
    && (forall i :: 0 <= i < |order| ==> order[i] in m)
    && (forall i :: 0 <= i < |order| ==> list[i] == m[order[i]])
  }

  /** A duplicate-free listing of every person id, each paired with its
      merged record, enumerates the merge. */
  lemma MergeListed(roles: Roles, o: map<Value, Row>, p: map<Value, Row>, list: seq<Person>, order: seq<Value>)
    requires |order| == |list|
    requires forall a, b :: 0 <= a < b < |order| ==> order[a] != order[b]
    requires forall k :: 0 <= k < |order| ==>
      && order[k] in roles && order[k] in o && order[k] in p
      && list[k] == MergePerson(roles[order[k]], o[order[k]], p[order[k]])
    requires forall id :: id in roles ==> id in order
    ensures MergeAll(roles, o, p).Ok?
    ensures Enumerates(list, order, MergeAll(roles, o, p).value)
    ensures |list| == |MergeAll(roles, o, p).value|
    ensures forall i :: 0 <= i < |list| ==> list[i] in MergeAll(roles, o, p).value.Values
    ensures forall id :: id in MergeAll(roles, o, p).value ==> MergeAll(roles, o, p).value[id] in list
  {
    forall id | id in roles ensures id in o && id in p {
      var k :| 0 <= k < |order| && order[k] == id;
    }
    EnumeratedPeople(list, order, MergeAll(roles, o, p).value);
  }

  /** Every id along `order` is in the roles and in both lookups. */
  predicate AllFound(roles: Roles, o: map<Value, Row>, p: map<Value, Row>, order: seq<Value>) {
    forall k :: 0 <= k < |order| ==> order[k] in roles && order[k] in o && order[k] in p
  }

  /** The merged records of the ids along `order`, in that order. */
  function MergedAlong(roles: Roles, o: map<Value, Row>, p: map<Value, Row>, order: seq<Value>): (list: seq<Person>)
    requires AllFound(roles, o, p, order)
    ensures |list| == |order|
  {
    if order == [] then []
    else
      var last := order[|order| - 1];
      MergedAlong(roles, o, p, order[..|order| - 1]) + [MergePerson(roles[last], o[last], p[last])]
  }

  lemma {:induction false} MergedAlongAt(roles: Roles, o: map<Value, Row>, p: map<Value, Row>, order: seq<Value>, k: nat)
    requires AllFound(roles, o, p, order) && k < |order|
    ensures MergedAlong(roles, o, p, order)[k] == MergePerson(roles[order[k]], o[order[k]], p[order[k]])
  {
    var init := order[..|order| - 1];
    if k < |init| {
      MergedAlongAt(roles, o, p, init, k);
    }
  }

  /** The merged records along a duplicate-free order of every person id
      enumerate the merge. */
  lemma MergedAlongListed(roles: Roles, o: map<Value, Row>, p: map<Value, Row>, order: seq<Value>)
    requires AllFound(roles, o, p, order)
    requires forall a, b :: 0 <= a < b < |order| ==> order[a] != order[b]
    requires forall id :: id in roles ==> id in order
    ensures MergeAll(roles, o, p).Ok?
    ensures Enumerates(MergedAlong(roles, o, p, order), order, MergeAll(roles, o, p).value)
    ensures |MergedAlong(roles, o, p, order)| == |MergeAll(roles, o, p).value|
    ensures forall i :: 0 <= i < |order| ==> MergedAlong(roles, o, p, order)[i] in MergeAll(roles, o, p).value.Values
    ensures forall id :: id in MergeAll(roles, o, p).value ==> MergeAll(roles, o, p).value[id] in MergedAlong(roles, o, p, order)
  {
    var list := MergedAlong(roles, o, p, order);
    forall k | 0 <= k < |order| ensures list[k] == MergePerson(roles[order[k]], o[order[k]], p[order[k]]) {
      MergedAlongAt(roles, o, p, order, k);
    }
    MergeListed(roles, o, p, list, order);
  }

  /** A duplicate-free sequence has as many distinct elements as positions. */
  lemma {:induction false} DistinctElements(order: seq<Value>)
    requires forall i, j :: 0 <= i < j < |order| ==> order[i] != order[j]
    ensures |set x | x in order| == |order|
  {
    if order != [] {
      var init := order[..|order| - 1];
      var last := order[|order| - 1];
      DistinctElements(init);
      assert (set x | x in order) == (set x | x in init) + {last};
      assert last !in init;
    }
  }

  /** A list that enumerates `m` holds one record per key of `m`, each of
      them a value of `m`, and every value of `m` appears in it. */
  lemma EnumeratedPeople(list: seq<Person>, order: seq<Value>, m: map<Value, Person>)
    requires Enumerates(list, order, m)
    ensures |list| == |m|
    ensures forall i :: 0 <= i < |list| ==> list[i] in m.Values
    ensures forall id :: id in m ==> m[id] in list
  {
    DistinctElements(order);
    assert (set x | x in order) == m.Keys;
    forall i | 0 <= i < |list| ensures list[i] in m.Values {
      assert m[order[i]] == list[i];
    }
    forall id | id in m ensures m[id] in list {
      var i :| 0 <= i < |order| && order[i] == id;
      assert list[i] == m[id];
    }
  }

  /** `list` holds the people of `m`, one per key, in some order. */
  ghost predicate ListsPeople(list: seq<Person>, m: map<Value, Person>) {
    exists order :: Enumerates(list, order, m)
  }
}
