/** The reader of `dump/CrunchbaseReader.py`: `convert_empty_fields`, the
    JSON-lines output file, and the `CrunchbaseReader` class whose methods
    scan the CSV tables row by row. Each method is proved to compute the
    function of the tables that the modules Rows, Funding, People and
    Pipeline define. */
module CrunchbaseReader {
  import opened Common
  import opened Text
  import opened Rows
  import opened Funding
  import opened People
  import opened Pipeline

  /** `convert_empty_fields(cb_dict)`: every cell whose stripped text is
      `"N"` becomes null; a null cell makes `.strip()` raise. */
  method ConvertEmptyFields(cbDict: Row) returns (r: Result<Row>)
    ensures r == NormalizeRow(cbDict)
  {
    var d := cbDict;
    var keys := cbDict.Keys;
    while keys != {}
      invariant keys <= cbDict.Keys
      invariant d.Keys == cbDict.Keys
      invariant forall k :: k in cbDict && k !in keys ==> cbDict[k].Some? && d[k] == NormalizedCell(cbDict[k])
      invariant forall k :: k in keys ==> d[k] == cbDict[k]
      decreases keys
    {
      var key :| key in keys;
      var val := d[key];
      if val.None? {
        return Err(NullField);
      }
      if Strip(val.value) == "N" {
        d := d[key := None];
      }
      keys := keys - {key};
    }
    assert d == Normalized(cbDict);
    return Ok(d);
  }

  /** One line of the output: a company, its people and its funding rounds. */
  datatype Record = Record(company: Row, people: seq<Person>, fundingRounds: seq<Row>)

  /** The record is the one the verdict `v` asks for; the people may come in
      any order. */
  ghost predicate Describes(rec: Record, v: Verdict) {
    && v.Emit?
    && rec.company == v.company
    && rec.fundingRounds == v.rounds
    && ListsPeople(rec.people, v.people)
  }

  /** What the loop body of `convert_companies` makes of one objects row:
      nothing, a record, or the exception it raises. */
  ghost predicate Realizes(res: Result<Option<Record>>, v: Verdict) {
    match v
    case Skip => res == Ok(None)
    case Fail(e) => res == Err(e)
    case Emit(_, _, _) => res.Ok? && res.value.Some? && Describes(res.value.value, v)
  }

  /** One turn of the loop of `convert_companies`, stated on the verdicts:
      what the scan state becomes after the row's outcome `res`. */
  lemma RecordStep(vs: seq<Verdict>, cap: int, i: nat, emitted: seq<nat>, res: Result<Option<Record>>)
    requires i < |vs| && Run(vs, cap, i) == RunState(emitted, i, false, None)
    requires Realizes(res, vs[i])
    ensures res.Err? ==> Run(vs, cap, |vs|) == RunState(emitted, i + 1, true, Some(res.error))
    ensures res == Ok(None) ==> Run(vs, cap, i + 1) == RunState(emitted, i + 1, |emitted| == cap, None)
    ensures res.Ok? && res.value.Some? ==>
      && Run(vs, cap, i + 1) == RunState(emitted + [i], i + 1, |emitted| + 1 == cap, None)
      && Describes(res.value.value, vs[i])
  {
    if res.Err? {
      StoppedStaysStopped(vs, cap, i + 1, |vs|);
    }
  }

  /** The records from position `base` on describe, in order, the verdicts
      at the indices `emitted`. */
  ghost predicate Written(records: seq<Record>, base: nat, emitted: seq<nat>, vs: seq<Verdict>) {
    && |records| == base + |emitted|
    && forall j :: 0 <= j < |emitted| ==> emitted[j] < |vs| && Describes(records[base + j], vs[emitted[j]])
  }

  /** Appending the record of verdict `i` extends what is written by `i`. */
  lemma WrittenAppend(records: seq<Record>, base: nat, emitted: seq<nat>, vs: seq<Verdict>, rec: Record, i: nat)
    requires Written(records, base, emitted, vs) && i < |vs| && Describes(rec, vs[i])
    ensures Written(records + [rec], base, emitted + [i], vs)
    ensures (records + [rec])[..base] == records[..base]
  {
    var e := emitted + [i];
    var r := records + [rec];
    forall j | 0 <= j < |e| ensures e[j] < |vs| && Describes(r[base + j], vs[e[j]]) {
      if j < |emitted| {
        assert r[base + j] == records[base + j];
      }
    }
  }

  /** The JSON-lines file that `convert_companies` appends to. */
  class JsonLinesFile {
    var records: seq<Record>

    constructor (existing: seq<Record>)
      ensures records == existing
    {
      records := existing;
    }

    /** `json.dump(entry, open_json)` followed by a newline. */
    method Append(entry: Record)
      modifies this
      ensures records == old(records) + [entry]
    {
      records := records + [entry];
    }
  }

  /** How `convert_companies` ends: by running out of rows or reaching the
      cap, or by an exception. */
  datatype Outcome = Finished | Aborted(error: Error)

  /** The first row at or after `from` whose `id` is `target`; a row
      without an `id` column before it is a KeyError. */
  function FirstWithId(table: seq<Row>, target: string, from: nat): (r: Result<Option<nat>>)
    requires from <= |table|
    decreases |table| - from
    ensures r.Ok? && r.value.Some? ==>
      && from <= r.value.value < |table|
      && IdField in table[r.value.value] && table[r.value.value][IdField] == Some(target)
      && forall j :: from <= j < r.value.value ==> IdField in table[j] && table[j][IdField] != Some(target)
    ensures r == Ok(None) <==>
      forall j :: from <= j < |table| ==> IdField in table[j] && table[j][IdField] != Some(target)
    ensures r.Err? ==> r.error == MissingField(IdField)
  {
    if from == |table| then Ok(None)
    else if IdField !in table[from] then Err(MissingField(IdField))
    else if table[from][IdField] == Some(target) then Ok(Some(from))
    else FirstWithId(table, target, from + 1)
  }

  /** The lookup raises the KeyError exactly when a row without an `id`
      comes before any row carrying the target. */
  lemma {:induction false} FirstWithIdFails(table: seq<Row>, target: string, from: nat)
    requires from <= |table|
    decreases |table| - from
    ensures FirstWithId(table, target, from).Err? <==> exists k ::
      && from <= k < |table| && IdField !in table[k]
      && forall j :: from <= j < k ==> IdField in table[j] && table[j][IdField] != Some(target)
  {
    if from < |table| && IdField in table[from] && table[from][IdField] != Some(target) {
      FirstWithIdFails(table, target, from + 1);
      if FirstWithId(table, target, from).Err? {
        var k :| from + 1 <= k < |table| && IdField !in table[k]
          && forall j :: from + 1 <= j < k ==> IdField in table[j] && table[j][IdField] != Some(target);
        assert from <= k < |table| && IdField !in table[k]
          && forall j :: from <= j < k ==> IdField in table[j] && table[j][IdField] != Some(target);
      }
    } else if from < |table| && IdField !in table[from] {
      assert from <= from < |table| && IdField !in table[from];
    } else if from < |table| {
      assert !exists k ::
        && from <= k < |table| && IdField !in table[k]
        && forall j :: from <= j < k ==> IdField in table[j] && table[j][IdField] != Some(target);
    }
  }

  /** A row carrying the id that is reached before any row without an `id`
      is the one `company` returns. */
  lemma PresentIsFound(table: seq<Row>, target: string, k: nat)
    requires k < |table| && IdField in table[k] && table[k][IdField] == Some(target)
    requires forall j :: 0 <= j < k ==> IdField in table[j] && table[j][IdField] != Some(target)
    ensures FirstWithId(table, target, 0) == Ok(Some(k))
  {
    FirstWithIdFails(table, target, 0);
  }

  class CrunchbaseReader {
    // The contents of the CSV files the reader is given, row by row.
    const objectsFile: seq<Row>
    const fundingRoundsFile: seq<Row>
    const peopleFile: seq<Row>
    const relationshipsFile: seq<Row>
    const minInvestmentsUsd: int
    const numCompaniesCap: int
    const accCategoryCodes: Option<set<string>>

    constructor (objectsFile: seq<Row>, fundingRoundsFile: seq<Row>, peopleFile: seq<Row>,
                 relationshipsFile: seq<Row>, minInvestmentsUsd: int,
                 numCompaniesCap: int := -1, accCategoryCodes: Option<set<string>> := None)
      ensures Data() == Dataset(objectsFile, fundingRoundsFile, peopleFile, relationshipsFile)
      ensures Settings() == Config(minInvestmentsUsd, numCompaniesCap, accCategoryCodes)
    {
      this.objectsFile := objectsFile;
      this.fundingRoundsFile := fundingRoundsFile;
      this.peopleFile := peopleFile;
      this.relationshipsFile := relationshipsFile;
      this.minInvestmentsUsd := minInvestmentsUsd;
      this.numCompaniesCap := numCompaniesCap;
      this.accCategoryCodes := accCategoryCodes;
    }

    function Data(): Dataset {
      Dataset(objectsFile, fundingRoundsFile, peopleFile, relationshipsFile)
    }

    function Settings(): Config {
      Config(minInvestmentsUsd, numCompaniesCap, accCategoryCodes)
    }

    /** `get_total_investment_usd(rounds)`. */
    method GetTotalInvestmentUsd(rounds: seq<Row>) returns (r: Result<int>)
      ensures r == TotalUsd(rounds)
    {
      var totalAmount := 0;
      for i := 0 to |rounds|
        invariant TotalUsd(rounds[..i]) == Ok(totalAmount)
      {
        var round := rounds[i];
        assert rounds[..i + 1][..i] == rounds[..i];
        if AmountField !in round {
          TotalUsdPrefixErr(rounds, i + 1);
          return Err(MissingField(AmountField));
        }
        if round[AmountField].Some? {
          var amount := ParseInt(round[AmountField].value);
          if amount.None? {
            TotalUsdPrefixErr(rounds, i + 1);
            return Err(BadInteger(round[AmountField].value));
          }
          totalAmount := totalAmount + amount.value;
        }
      }
      assert rounds[..|rounds|] == rounds;
      return Ok(totalAmount);
    }

    /** `get_investment_rounds(company_id)`. */
    method GetInvestmentRounds(companyId: Value) returns (r: Result<seq<Row>>)
      ensures r == InvestmentRounds(fundingRoundsFile, companyId)
    {
      var rounds: seq<Row> := [];
      for i := 0 to |fundingRoundsFile|
        invariant InvestmentRounds(fundingRoundsFile[..i], companyId) == Ok(rounds)
      {
        var round := fundingRoundsFile[i];
        assert fundingRoundsFile[..i + 1][..i] == fundingRoundsFile[..i];
        if CompanyField !in round {
          InvestmentRoundsPrefixErr(fundingRoundsFile, companyId, i + 1);
          return Err(MissingField(CompanyField));
        }
        if round[CompanyField] == companyId {
          var converted := ConvertEmptyFields(round);
          if converted.Err? {
            InvestmentRoundsPrefixErr(fundingRoundsFile, companyId, i + 1);
            return Err(converted.error);
          }
          rounds := rounds + [converted.value];
        }
      }
      assert fundingRoundsFile[..|fundingRoundsFile|] == fundingRoundsFile;
      return Ok(rounds);
    }

    /** `get_people_from_object(people_ids)`: objects rows by `id`, breaking
        out as soon as every id is found. */
    method GetPeopleFromObject(peopleIds: set<Value>) returns (r: Result<map<Value, Row>>)
      ensures r == ObjectLookup(objectsFile, peopleIds)
    {
      var people: map<Value, Row> := map[];
      var i := 0;
      ghost var done := false;
      while i < |objectsFile|
        invariant 0 <= i <= |objectsFile|
        invariant LookupScan(objectsFile[..i], ObjectKeyField, false, peopleIds) == Ok(Scan(people, false))
      {
        var person := objectsFile[i];
        assert objectsFile[..i + 1][..i] == objectsFile[..i];
        if ObjectKeyField !in person {
          LookupStops(objectsFile, ObjectKeyField, false, peopleIds, i + 1);
          return Err(MissingField(ObjectKeyField));
        }
        if person[ObjectKeyField] in peopleIds {
          people := people[person[ObjectKeyField] := person];
          if |people| == |peopleIds| {
            LookupStops(objectsFile, ObjectKeyField, false, peopleIds, i + 1);
            done := true;
            break;
          }
        }
        i := i + 1;
      }
      assert LookupScan(objectsFile, ObjectKeyField, false, peopleIds) == Ok(Scan(people, done)) by {
        if !done { assert objectsFile[..i] == objectsFile; }
      }
      return Ok(people);
    }

    /** `get_people_from_people(people_ids)`: people rows by `object_id`,
        each without its `id` and `object_id`, breaking out as soon as every
        id is found. */
    method GetPeopleFromPeople(peopleIds: set<Value>) returns (r: Result<map<Value, Row>>)
      ensures r == PeopleLookup(peopleFile, peopleIds)
    {
      var people: map<Value, Row> := map[];
      var i := 0;
      ghost var done := false;
      while i < |peopleFile|
        invariant 0 <= i <= |peopleFile|
        invariant LookupScan(peopleFile[..i], PeopleKeyField, true, peopleIds) == Ok(Scan(people, false))
      {
        var person := peopleFile[i];
        assert peopleFile[..i + 1][..i] == peopleFile[..i];
        if PeopleKeyField !in person {
          LookupStops(peopleFile, PeopleKeyField, true, peopleIds, i + 1);
          return Err(MissingField(PeopleKeyField));
        }
        if person[PeopleKeyField] in peopleIds {
          var pId := person[PeopleKeyField];
          if PeopleIdField !in person {
            LookupStops(peopleFile, PeopleKeyField, true, peopleIds, i + 1);
            return Err(MissingField(PeopleIdField));
          }
          person := person - {PeopleIdField};
          person := person - {PeopleKeyField};
          assert person == peopleFile[i] - {PeopleIdField, PeopleKeyField};
          people := people[pId := person];
          if |people| == |peopleIds| {
            LookupStops(peopleFile, PeopleKeyField, true, peopleIds, i + 1);
            done := true;
            break;
          }
        }
        i := i + 1;
      }
      assert LookupScan(peopleFile, PeopleKeyField, true, peopleIds) == Ok(Scan(people, done)) by {
        if !done { assert peopleFile[..i] == peopleFile; }
      }
      return Ok(people);
    }

    /** One turn of the relationship loop of `get_people`: a row of the
        company loses `'id'` and `'relationship_id'`, is normalised, and is
        added to the roles under its person id, which joins `people_ids`. */
    method AddRole(peopleRoles: Roles, peopleIds: set<Value>, rel: Row, companyId: Value)
      returns (r: Result<Roles>, ids: set<Value>)
      requires peopleIds == peopleRoles.Keys && KeysAreIds(peopleRoles)
      ensures r == AddRelationship(Ok(peopleRoles), rel, companyId)
      ensures r.Ok? ==> ids == r.value.Keys && KeysAreIds(r.value)
    {
      FieldNamesDistinct();
      ids := peopleIds;
      if RelCompanyField !in rel {
        return Err(MissingField(RelCompanyField)), ids;
      }
      if rel[RelCompanyField] != companyId {
        return Ok(peopleRoles), ids;
      }
      var row := rel;
      if RelIdField !in row {
        return Err(MissingField(RelIdField)), ids;
      }
      row := row - {RelIdField};
      if RelRelationshipIdField !in row {
        return Err(MissingField(RelRelationshipIdField)), ids;
      }
      row := row - {RelRelationshipIdField};
      assert row == rel - {RelIdField, RelRelationshipIdField};
      if RelPersonField !in row {
        return Err(MissingField(RelPersonField)), ids;
      }
      var raw := row[RelPersonField];
      var converted := ConvertEmptyFields(row);
      if converted.Err? {
        return Err(converted.error), ids;
      }
      var roles := peopleRoles;
      if raw in roles {
        roles := roles[raw := roles[raw] + [converted.value]];
      } else {
        roles := roles[converted.value[RelPersonField] := [converted.value]];
      }
      ids := ids + {converted.value[RelPersonField]};
      return Ok(roles), ids;
    }

    /** The relationship loop of `get_people`: the company's role rows
        grouped by person id, with the set of those ids. */
    method GroupRelationships(companyId: Value) returns (r: Result<Roles>, peopleIds: set<Value>)
      ensures r == GroupRoles(relationshipsFile, companyId)
      ensures r.Ok? ==> peopleIds == r.value.Keys
    {
      var peopleRoles: Roles := map[];
      peopleIds := {};
      for i := 0 to |relationshipsFile|
        invariant GroupRoles(relationshipsFile[..i], companyId) == Ok(peopleRoles)
        invariant peopleIds == peopleRoles.Keys && KeysAreIds(peopleRoles)
      {
        assert relationshipsFile[..i + 1][..i] == relationshipsFile[..i];
        var next, ids := AddRole(peopleRoles, peopleIds, relationshipsFile[i], companyId);
        if next.Err? {
          GroupRolesPrefixErr(relationshipsFile, companyId, i + 1);
          return next, ids;
        }
        peopleRoles, peopleIds := next.value, ids;
      }
      assert relationshipsFile[..|relationshipsFile|] == relationshipsFile;
      return Ok(peopleRoles), peopleIds;
    }

    /** `get_people(company_id)`: the company's people, one merged record per
        person id, listed along `order`; or the exception raised. */
    method GetPeople(companyId: Value) returns (r: Result<seq<Person>>, ghost order: seq<Value>)
      ensures var expected := PeopleOf(objectsFile, peopleFile, relationshipsFile, companyId);
        && (expected.Err? ==> r == Err(expected.error))
        && (expected.Ok? ==> r.Ok? && Enumerates(r.value, order, expected.value))
        && (expected.Ok? ==>
              && |r.value| == |expected.value|
              && (forall i :: 0 <= i < |r.value| ==> r.value[i] in expected.value.Values)
              && (forall id :: id in expected.value ==> expected.value[id] in r.value))
    {
      order := [];
      var grouped, peopleIds := GroupRelationships(companyId);
      if grouped.Err? {
        return Err(grouped.error), order;
      }
      var peopleRoles := grouped.value;
      var peopleObj := GetPeopleFromObject(peopleIds);
      if peopleObj.Err? {
        return Err(peopleObj.error), order;
      }
      var peoplePeople := GetPeopleFromPeople(peopleIds);
      if peoplePeople.Err? {
        return Err(peoplePeople.error), order;
      }
      r, order := MergePeople(peopleRoles, peopleIds, peopleObj.value, peoplePeople.value);
      if r.Ok? {
        EnumeratedPeople(r.value, order, MergeAll(peopleRoles, peopleObj.value, peoplePeople.value).value);
      }
    }

    /** The merge loop of `get_people`: for each person id, in the order the
        set yields them, the roles, the objects row and the people row
        merged, later sources winning. */
    method MergePeople(peopleRoles: Roles, peopleIds: set<Value>, peopleObj: map<Value, Row>, peoplePeople: map<Value, Row>)
      returns (r: Result<seq<Person>>, ghost order: seq<Value>)
      requires peopleIds == peopleRoles.Keys
      ensures var expected := MergeAll(peopleRoles, peopleObj, peoplePeople);
        && (expected.Err? ==> r == Err(MissingPerson))
        && (expected.Ok? ==> r.Ok? && Enumerates(r.value, order, expected.value))
        && (expected.Ok? ==>
              && |r.value| == |expected.value|
              && (forall i :: 0 <= i < |r.value| ==> r.value[i] in expected.value.Values)
              && (forall id :: id in expected.value ==> expected.value[id] in r.value))
    {
      r, order := MergeEach(peopleRoles, peopleIds, peopleObj, peoplePeople);
      if r.Ok? {
        MergedAlongListed(peopleRoles, peopleObj, peoplePeople, order);
      }
    }

    /** The loop itself: the merged records along a duplicate-free order
        of every person id, or the KeyError of the first id missing from a
        lookup. */
    method MergeEach(peopleRoles: Roles, peopleIds: set<Value>, peopleObj: map<Value, Row>, peoplePeople: map<Value, Row>)
      returns (r: Result<seq<Person>>, ghost order: seq<Value>)
      requires peopleIds == peopleRoles.Keys
      ensures r.Err? ==> r == Err(MissingPerson) && MergeAll(peopleRoles, peopleObj, peoplePeople).Err?
      ensures r.Ok? ==>
        && AllFound(peopleRoles, peopleObj, peoplePeople, order)
        && (forall a, b :: 0 <= a < b < |order| ==> order[a] != order[b])
        && (forall id :: id in peopleRoles ==> id in order)
        && r.value == MergedAlong(peopleRoles, peopleObj, peoplePeople, order)
    {
      order := [];
      var people: seq<Person> := [];
      var remaining := peopleIds;
      while remaining != {}
        invariant remaining <= peopleIds
        invariant forall a, b :: 0 <= a < b < |order| ==> order[a] != order[b]
        invariant forall k :: 0 <= k < |order| ==> order[k] !in remaining
        invariant forall id :: id in peopleRoles && id !in remaining ==> id in order
        invariant AllFound(peopleRoles, peopleObj, peoplePeople, order)
        invariant people == MergedAlong(peopleRoles, peopleObj, peoplePeople, order)
        decreases remaining
      {
        var pId :| pId in remaining;
        if pId !in peopleObj || pId !in peoplePeople {
          MissingPersonRaises(peopleRoles, peopleObj, peoplePeople, pId);
          return Err(MissingPerson), order;
        }
        assert forall k :: 0 <= k < |order| ==> order[k] != pId;
        people := people + [MergePerson(peopleRoles[pId], peopleObj[pId], peoplePeople[pId])];
        var before := order;
        order := order + [pId];
        assert order[..|order| - 1] == before;
        assert AllFound(peopleRoles, peopleObj, peoplePeople, order);
        remaining := remaining - {pId};
      }
      return Ok(people), order;
    }

    /** The body of the loop of `convert_companies` for one objects row,
        without the write: the filter, the funding threshold, then the
        record. */
    method ConvertObject(i: nat) returns (res: Result<Option<Record>>)
      requires i < |objectsFile|
      ensures Realizes(res, Verdicts(Data(), Settings())[i])
    {
      var obj := objectsFile[i];
      VerdictAt(Data(), Settings(), i);
      var pass := CandidateTest(obj, accCategoryCodes);
      if pass.Err? {
        return Err(pass.error);
      }
      if !pass.value {
        return Ok(None);
      }
      if IdField !in obj {
        return Err(MissingField(IdField));
      }
      var rounds := GetInvestmentRounds(obj[IdField]);
      if rounds.Err? {
        return Err(rounds.error);
      }
      var total := GetTotalInvestmentUsd(rounds.value);
      if total.Err? {
        return Err(total.error);
      }
      if total.value < minInvestmentsUsd {
        return Ok(None);
      }
      var company := ConvertEmptyFields(obj);
      if company.Err? {
        return Err(company.error);
      }
      var people, order := GetPeople(company.value[IdField]);
      if people.Err? {
        return Err(people.error);
      }
      res := Ok(Some(Record(company.value, people.value, rounds.value)));
      assert Enumerates(people.value, order, Examine(Data(), Settings(), obj).people);
    }

    /** `convert_companies(output)`: appends to `output` the records of the
        run that `Convert` describes, in order, and reports its exception. */
    method ConvertCompanies(output: JsonLinesFile) returns (outcome: Outcome)
      modifies output
      ensures var s := Convert(Data(), Settings());
        var vs := Verdicts(Data(), Settings());
        && Written(output.records, |old(output.records)|, s.emitted, vs)
        && output.records[..|old(output.records)|] == old(output.records)
        && outcome == if s.failure.Some? then Aborted(s.failure.value) else Finished
    {
      ghost var vs := Verdicts(Data(), Settings());
      ghost var emitted: seq<nat> := [];
      var foundCompanies := 0;
      var i := 0;
      while i < |objectsFile|
        invariant 0 <= i <= |objectsFile|
        invariant Run(vs, numCompaniesCap, i) == RunState(emitted, i, false, None)
        invariant foundCompanies == |emitted|
        invariant Written(output.records, |old(output.records)|, emitted, vs)
        invariant output.records[..|old(output.records)|] == old(output.records)
      {
        var res := ConvertObject(i);
        RecordStep(vs, numCompaniesCap, i, emitted, res);
        if res.Err? {
          return Aborted(res.error);
        }
        if res.value.Some? {
          WrittenAppend(output.records, |old(output.records)|, emitted, vs, res.value.value, i);
          output.Append(res.value.value);
          foundCompanies := foundCompanies + 1;
          emitted := emitted + [i];
        }
        if foundCompanies == numCompaniesCap {
          StoppedStaysStopped(vs, numCompaniesCap, i + 1, |vs|);
          break;
        }
        i := i + 1;
      }
      return Finished;
    }

    /** `company(company_id)`: the first objects row whose `id` is
        `"c:" + company_id`, or nothing. */
    method Company(companyId: string) returns (r: Result<Option<Row>>)
      ensures match FirstWithId(objectsFile, "c:" + companyId, 0)
        case Err(e) => r == Err(e)
        case Ok(None) => r == Ok(None)
        case Ok(Some(k)) => k < |objectsFile| && r == Ok(Some(objectsFile[k]))
    {
      var i := 0;
      while i < |objectsFile|
        invariant 0 <= i <= |objectsFile|
        invariant FirstWithId(objectsFile, "c:" + companyId, i) == FirstWithId(objectsFile, "c:" + companyId, 0)
      {
        var obj := objectsFile[i];
        if IdField !in obj {
          return Err(MissingField(IdField));
        }
        if obj[IdField] == Some("c:" + companyId) {
          return Ok(Some(obj));
        }
        i := i + 1;
      }
      return Ok(None);
    }
  }
}
