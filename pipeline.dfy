/** The company driver `convert_companies` as functions on the tables: the
    filter, the verdict on one objects row, and the scan with its cap. */
module Pipeline {
  import opened Common
  import opened Text
  import opened Rows
  import opened Funding
  import opened People

  /** The contents of the four CSV files the reader opens. */
  datatype Dataset = Dataset(objects: seq<Row>, fundingRounds: seq<Row>, people: seq<Row>, relationships: seq<Row>)

  /** The reader's settings. A cap that is negative (the default -1) or
      `None` never equals the count; `accCategoryCodes == None` accepts
      every category. */
  datatype Config = Config(minInvestmentsUsd: int, numCompaniesCap: int, accCategoryCodes: Option<set<string>>)

  const EntityTypeField := "entity_type"
  const IdField := "id"
  const CategoryField := "category_code"
  const ParentField := "parent_id"

  /** The filter of `convert_companies`, stated on a row: a company by type
      or by id prefix, of an accepted category, and not a child entity. */
  predicate IsCompanyRow(row: Row, codes: Option<set<string>>) {
    && ((EntityTypeField in row && row[EntityTypeField].Some? && Strip(row[EntityTypeField].value) == "Company")
        || (IdField in row && row[IdField].Some? && StartsWith(row[IdField].value, "c:")))
    && (codes.None? || (CategoryField in row && row[CategoryField].Some? && row[CategoryField].value in codes.value))
    && (ParentField !in row || row[ParentField] == Some("N"))
  }

  /** Evaluating the filter as the code does, left to right with
      short-circuiting, including the exceptions it can raise. */
  function CandidateTest(row: Row, codes: Option<set<string>>): (r: Result<bool>)
    ensures r.Ok? ==> (r.value <==> IsCompanyRow(row, codes))
    ensures r.Ok? <==>
      && EntityTypeField in row && row[EntityTypeField].Some?
      && (Strip(row[EntityTypeField].value) != "Company" ==> IdField in row && row[IdField].Some?)
      && (codes.Some? && (Strip(row[EntityTypeField].value) == "Company" || StartsWith(row[IdField].value, "c:"))
          ==> CategoryField in row)
    ensures r.Err? ==> r.error == NullField || r.error in {MissingField(EntityTypeField), MissingField(IdField), MissingField(CategoryField)}
  {
    if EntityTypeField !in row then Err(MissingField(EntityTypeField))
    else if row[EntityTypeField].None? then Err(NullField)
    else
      var byType := Strip(row[EntityTypeField].value) == "Company";
      if !byType && IdField !in row then Err(MissingField(IdField))
      else if !byType && row[IdField].None? then Err(NullField)
      else if !(byType || StartsWith(row[IdField].value, "c:")) then Ok(false)
      else if codes.Some? && CategoryField !in row then Err(MissingField(CategoryField))
      else if !(codes.None? || (row[CategoryField].Some? && row[CategoryField].value in codes.value)) then Ok(false)
      else Ok(ParentField !in row || row[ParentField] == Some("N"))
  }

  /** What the scan does with one objects row. */
  datatype Verdict =
    | Skip
    | Emit(company: Row, people: map<Value, Person>, rounds: seq<Row>)
    | Fail(error: Error)

  /** The verdict on one objects row: filter, funding threshold, then the
      record with the normalised company row and its people. */
  function Examine(d: Dataset, c: Config, row: Row): Verdict
  {
    match CandidateTest(row, c.accCategoryCodes)
    case Err(e) => Fail(e)
    case Ok(pass) =>
      if !pass then Skip
      else if IdField !in row then Fail(MissingField(IdField))
      else
        match InvestmentRounds(d.fundingRounds, row[IdField])
        case Err(e) => Fail(e)
        case Ok(rounds) =>
          match TotalUsd(rounds)
          case Err(e) => Fail(e)
          case Ok(total) =>
            if total < c.minInvestmentsUsd then Skip
            else
              match NormalizeRow(row)
              case Err(e) => Fail(e)
              case Ok(company) =>
                match PeopleOf(d.objects, d.people, d.relationships, company[IdField])
                case Err(e) => Fail(e)
                case Ok(people) => Emit(company, people, rounds)
  }

  /** An emitted row passes the filter, has the required total, and carries
      its normalised company row, its funding rounds and its people; a
      skipped row fails the filter or the threshold. */
  lemma ExamineMeans(d: Dataset, c: Config, row: Row)
    ensures Examine(d, c, row).Emit? ==>
      && IsCompanyRow(row, c.accCategoryCodes)
      && IdField in row
      && InvestmentRounds(d.fundingRounds, row[IdField]) == Ok(Examine(d, c, row).rounds)
      && TotalUsd(Examine(d, c, row).rounds).Ok? && TotalUsd(Examine(d, c, row).rounds).value >= c.minInvestmentsUsd
      && Examine(d, c, row).company == Normalized(row)
      && PeopleOf(d.objects, d.people, d.relationships, Examine(d, c, row).company[IdField]) == Ok(Examine(d, c, row).people)
    ensures Examine(d, c, row) == Skip ==>
      || !IsCompanyRow(row, c.accCategoryCodes)
      || (IdField in row && InvestmentRounds(d.fundingRounds, row[IdField]).Ok?
          && TotalUsd(InvestmentRounds(d.fundingRounds, row[IdField]).value).Ok?
          && TotalUsd(InvestmentRounds(d.fundingRounds, row[IdField]).value).value < c.minInvestmentsUsd)
  {
  }

  /** The verdict on every row of `rows`, in order. */
  function VerdictsOf(d: Dataset, c: Config, rows: seq<Row>): (vs: seq<Verdict>)
    ensures |vs| == |rows|
  {
    if rows == [] then [] else VerdictsOf(d, c, rows[..|rows| - 1]) + [Examine(d, c, rows[|rows| - 1])]
  }

  lemma {:induction false} VerdictsOfAt(d: Dataset, c: Config, rows: seq<Row>, i: nat)
    requires i < |rows|
    ensures VerdictsOf(d, c, rows)[i] == Examine(d, c, rows[i])
  {
    if i < |rows| - 1 {
      VerdictsOfAt(d, c, rows[..|rows| - 1], i);
    }
  }

  /** The verdict on every row of the objects table, in table order. */
  function Verdicts(d: Dataset, c: Config): (vs: seq<Verdict>)
    ensures |vs| == |d.objects|
  {
    VerdictsOf(d, c, d.objects)
  }

  /** Verdict `i` is the verdict on row `i`. */
  lemma VerdictAt(d: Dataset, c: Config, i: nat)
    requires i < |d.objects|
    ensures Verdicts(d, c)[i] == Examine(d, c, d.objects[i])
  {
    VerdictsOfAt(d, c, d.objects, i);
  }

  /** The state of the scan over the objects table: the indices of the rows
      emitted so far, how many rows have been read, whether the loop has
      ended early (by the cap or by an exception) and the exception. */
  datatype RunState = RunState(emitted: seq<nat>, scanned: nat, stopped: bool, failure: Option<Error>)

  /** One turn of the loop over the verdicts `vs`: act on verdict `k`, then
      `if found_companies == num_companies_cap: break`, checked after every
      row whether or not it was emitted. */
  function Step(vs: seq<Verdict>, cap: int, s: RunState, k: nat): RunState
    requires k < |vs|
  {
    if s.stopped then s
    else
      match vs[k]
      case Fail(e) => RunState(s.emitted, k + 1, true, Some(e))
      case Skip => RunState(s.emitted, k + 1, |s.emitted| == cap, None)
      case Emit(_, _, _) => RunState(s.emitted + [k], k + 1, |s.emitted| + 1 == cap, None)
  }

  /** The scan after the first `n` verdicts. */
  function Run(vs: seq<Verdict>, cap: int, n: nat): (s: RunState)
    requires n <= |vs|
    ensures s.scanned <= n
  {
    if n == 0 then RunState([], 0, false, None) else Step(vs, cap, Run(vs, cap, n - 1), n - 1)
  }

  /** The whole run of `convert_companies`. */
  function Convert(d: Dataset, c: Config): (s: RunState)
    ensures s.scanned <= |d.objects|
  {
    Run(Verdicts(d, c), c.numCompaniesCap, |d.objects|)
  }

  /** The number of emitting verdicts among the first `n`. */
  function EmitCount(vs: seq<Verdict>, n: nat): nat
    requires n <= |vs|
  {
    if n == 0 then 0 else EmitCount(vs, n - 1) + if vs[n - 1].Emit? then 1 else 0
  }

  /** After `n` verdicts the scan has read all of them unless it has
      stopped, and an exception stops it on the verdict that raised it. */
  lemma {:induction false} RunShape(vs: seq<Verdict>, cap: int, n: nat)
    requires n <= |vs|
    ensures var s := Run(vs, cap, n);
      && (!s.stopped ==> s.scanned == n && s.failure.None?)
      && (s.failure.Some? ==> s.scanned >= 1 && vs[s.scanned - 1] == Fail(s.failure.value))
  {
    if n > 0 {
      RunShape(vs, cap, n - 1);
    }
  }

  /** The emitted indices increase, and each is a read emitting verdict. */
  lemma {:induction false} RunEmitsValid(vs: seq<Verdict>, cap: int, n: nat)
    requires n <= |vs|
    ensures var s := Run(vs, cap, n);
      && (forall i, j :: 0 <= i < j < |s.emitted| ==> s.emitted[i] < s.emitted[j])
      && (forall j :: 0 <= j < |s.emitted| ==> s.emitted[j] < s.scanned && vs[s.emitted[j]].Emit?)
  {
    if n > 0 {
      RunShape(vs, cap, n - 1);
      RunEmitsValid(vs, cap, n - 1);
    }
  }

  /** Every emitting verdict the scan has read is emitted. */
  lemma {:induction false} RunEmitsAll(vs: seq<Verdict>, cap: int, n: nat)
    requires n <= |vs|
    ensures var s := Run(vs, cap, n);
      forall i :: 0 <= i < s.scanned && vs[i].Emit? ==> i in s.emitted
  {
    if n > 0 {
      RunShape(vs, cap, n - 1);
      RunEmitsAll(vs, cap, n - 1);
      var s := Run(vs, cap, n - 1);
      var s' := Run(vs, cap, n);
      if !s.stopped {
        forall i | 0 <= i < s'.scanned && vs[i].Emit? ensures i in s'.emitted {
          if i < n - 1 {
            assert i in s.emitted;
          }
        }
      }
    }
  }

  /** No verdict read before the last one is an exception, nor the last one
      when the scan has not failed. */
  lemma {:induction false} RunNoEarlyFail(vs: seq<Verdict>, cap: int, n: nat)
    requires n <= |vs|
    ensures var s := Run(vs, cap, n);
      forall i :: 0 <= i < s.scanned && (s.failure.None? || i < s.scanned - 1) ==> !vs[i].Fail?
  {
    if n > 0 {
      RunShape(vs, cap, n - 1);
      RunNoEarlyFail(vs, cap, n - 1);
    }
  }

  /** Without an exception, the scan has emitted every emitting verdict it read. */
  lemma {:induction false} RunCount(vs: seq<Verdict>, cap: int, n: nat)
    requires n <= |vs|
    ensures var s := Run(vs, cap, n);
      s.failure.None? ==> |s.emitted| == EmitCount(vs, s.scanned)
  {
    if n > 0 {
      RunShape(vs, cap, n - 1);
      RunCount(vs, cap, n - 1);
    }
  }

  /** The scan stops without an exception only on reaching the cap, and a
      cap of 1 or more is never exceeded. */
  lemma {:induction false} RunCap(vs: seq<Verdict>, cap: int, n: nat)
    requires n <= |vs|
    ensures var s := Run(vs, cap, n);
      && (s.stopped && s.failure.None? ==> |s.emitted| == cap)
      && (cap >= 1 ==> |s.emitted| <= cap)
      && (cap >= 1 && !s.stopped ==> |s.emitted| < cap)
  {
    if n > 0 {
      RunCap(vs, cap, n - 1);
    }
  }

  /** Over any verdicts: records appear in order; a verdict read before the
      loop ended is emitted exactly when it is an emit; an exception can
      come only from the last verdict read. */
  lemma ScanEmitsInOrder(vs: seq<Verdict>, cap: int)
    ensures var s := Run(vs, cap, |vs|);
      && (forall i, j :: 0 <= i < j < |s.emitted| ==> s.emitted[i] < s.emitted[j])
      && (forall i :: 0 <= i < s.scanned ==> (i in s.emitted <==> vs[i].Emit?))
      && (forall i :: 0 <= i < s.scanned - 1 ==> !vs[i].Fail?)
      && (s.failure.Some? ==> s.scanned >= 1 && vs[s.scanned - 1] == Fail(s.failure.value))
  {
    RunShape(vs, cap, |vs|);
    RunEmitsValid(vs, cap, |vs|);
    RunEmitsAll(vs, cap, |vs|);
    RunNoEarlyFail(vs, cap, |vs|);
  }

  /** Row `i`, read before the loop ended, is emitted exactly when it passes
      the filter, the threshold and the lookups; it raised an exception only
      if it is the last row read and the run failed with that exception. */
  lemma ConvertRowVerdict(d: Dataset, c: Config, i: nat)
    requires i < Convert(d, c).scanned
    ensures i in Convert(d, c).emitted <==> Examine(d, c, d.objects[i]).Emit?
    ensures Examine(d, c, d.objects[i]).Fail? ==>
      i == Convert(d, c).scanned - 1 && Convert(d, c).failure == Some(Examine(d, c, d.objects[i]).error)
  {
    var vs := Verdicts(d, c);
    assert Convert(d, c) == Run(vs, c.numCompaniesCap, |vs|);
    RunShape(vs, c.numCompaniesCap, |vs|);
    RunEmitsValid(vs, c.numCompaniesCap, |vs|);
    RunEmitsAll(vs, c.numCompaniesCap, |vs|);
    RunNoEarlyFail(vs, c.numCompaniesCap, |vs|);
    VerdictAt(d, c, i);
  }

  /** With a cap of 1 or more and no exception, the scan emits the cap or
      every emitting verdict, whichever is fewer: at most cap records, and
      exactly cap when that many qualify. */
  lemma {:induction false} CapBoundsRecords(vs: seq<Verdict>, cap: int)
    requires cap >= 1
    requires Run(vs, cap, |vs|).failure.None?
    ensures |Run(vs, cap, |vs|).emitted| == if EmitCount(vs, |vs|) < cap then EmitCount(vs, |vs|) else cap
  {
    RunShape(vs, cap, |vs|);
    RunCount(vs, cap, |vs|);
    RunCap(vs, cap, |vs|);
    var s := Run(vs, cap, |vs|);
    if s.stopped {
      EmitCountMonotone(vs, s.scanned, |vs|);
    }
  }

  lemma {:induction false} EmitCountMonotone(vs: seq<Verdict>, m: nat, n: nat)
    requires m <= n <= |vs|
    ensures EmitCount(vs, m) <= EmitCount(vs, n)
  {
    if m < n {
      EmitCountMonotone(vs, m, n - 1);
    }
  }

  /** A cap that the count never equals (the default -1, or `None`) never
      ends the loop early: every verdict is read and every emitting one is
      emitted, unless an exception ends the run. */
  lemma NegativeCapReadsAll(vs: seq<Verdict>, cap: int)
    requires cap < 0
    requires Run(vs, cap, |vs|).failure.None?
    ensures Run(vs, cap, |vs|).scanned == |vs|
    ensures |Run(vs, cap, |vs|).emitted| == EmitCount(vs, |vs|)
  {
    RunShape(vs, cap, |vs|);
    RunCount(vs, cap, |vs|);
    RunCap(vs, cap, |vs|);
  }

  /** The cap test follows every row, emitted or not: a cap of 0 ends the
      loop after the first row only when that row is not emitted; once it
      is, the count has passed 0 and the loop runs to the end. */
  lemma CapZeroAfterFirstEmit(vs: seq<Verdict>)
    requires |vs| > 0 && vs[0].Emit?
    requires Run(vs, 0, |vs|).failure.None?
    ensures Run(vs, 0, |vs|).scanned == |vs|
    ensures |Run(vs, 0, |vs|).emitted| == EmitCount(vs, |vs|)
  {
    RunShape(vs, 0, |vs|);
    RunCount(vs, 0, |vs|);
    CapZeroKeepsGoing(vs, |vs|);
  }

  lemma {:induction false} CapZeroKeepsGoing(vs: seq<Verdict>, n: nat)
    requires 1 <= n <= |vs| && vs[0].Emit?
    ensures Run(vs, 0, n).failure.None? ==> !Run(vs, 0, n).stopped && |Run(vs, 0, n).emitted| >= 1
  {
    if n > 1 {
      CapZeroKeepsGoing(vs, n - 1);
    }
  }

  /** A cap of 0 with a first row that is not emitted reads that row only. */
  lemma CapZeroStopsAfterFirstSkip(vs: seq<Verdict>)
    requires |vs| > 0 && vs[0] == Skip
    ensures Run(vs, 0, |vs|).scanned == 1 && Run(vs, 0, |vs|).emitted == []
  {
    StoppedStaysStopped(vs, 0, 1, |vs|);
  }

  /** Once the loop has ended, later rows change nothing. */
  lemma {:induction false} StoppedStaysStopped(vs: seq<Verdict>, cap: int, m: nat, n: nat)
    requires m <= n <= |vs|
    requires Run(vs, cap, m).stopped
    ensures Run(vs, cap, n) == Run(vs, cap, m)
  {
    if m < n {
      StoppedStaysStopped(vs, cap, m, n - 1);
    }
  }
}
