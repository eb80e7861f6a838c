/** The funding-round side of the pipeline: which rows of the funding-rounds
    table belong to a company (`get_investment_rounds`) and what they add up
    to (`get_total_investment_usd`), as functions on the table. */
module Funding {
  import opened Common
  import opened Text
  import opened Rows

  const CompanyField := "object_id"
  const AmountField := "raised_amount_usd"

  /** The rows of a funding-rounds table that name company `id`, in table order. */
  function Matching(table: seq<Row>, id: Value): (r: seq<Row>)
    ensures |r| <= |table|
    ensures forall x :: x in r <==> x in table && CompanyField in x && x[CompanyField] == id
  {
    if table == [] then []
    else
      var last := table[|table| - 1];
      Matching(table[..|table| - 1], id) + if CompanyField in last && last[CompanyField] == id then [last] else []
  }

  /** The outcome of `get_investment_rounds(id)`: scanning the table front to
      back, a KeyError at the first row without `object_id`, an
      AttributeError at the first matching row with a null cell, otherwise
      the matching rows, normalised. */
  function InvestmentRounds(table: seq<Row>, id: Value): Result<seq<Row>>
  {
    if table == [] then Ok([])
    else
      match InvestmentRounds(table[..|table| - 1], id)
      case Err(e) => Err(e)
      case Ok(rounds) =>
        var last := table[|table| - 1];
        if CompanyField !in last then Err(MissingField(CompanyField))
        else if last[CompanyField] != id then Ok(rounds)
        else
          match NormalizeRow(last)
          case Err(e) => Err(e)
          case Ok(n) => Ok(rounds + [n])
  }

  /** When the scan succeeds it returns exactly the matching rows, in table
      order, each one normalised. */
  lemma {:induction false} InvestmentRoundsAreMatching(table: seq<Row>, id: Value)
    requires InvestmentRounds(table, id).Ok?
    ensures var rounds := InvestmentRounds(table, id).value;
      && |rounds| == |Matching(table, id)|
      && forall i :: 0 <= i < |rounds| ==> rounds[i] == Normalized(Matching(table, id)[i])
  {
    if table != [] {
      InvestmentRoundsAreMatching(table[..|table| - 1], id);
    }
  }

  /** An exception raised within the first `k` rows ends the scan there. */
  lemma {:induction false} InvestmentRoundsPrefixErr(table: seq<Row>, id: Value, k: nat)
    requires k <= |table| && InvestmentRounds(table[..k], id).Err?
    ensures InvestmentRounds(table, id) == InvestmentRounds(table[..k], id)
  {
    if k < |table| {
      var init := table[..|table| - 1];
      assert init[..k] == table[..k];
      InvestmentRoundsPrefixErr(init, id, k);
    } else {
      assert table[..k] == table;
    }
  }

  /** The scan fails exactly when some row lacks `object_id` or some
      matching row has a null cell. */
  lemma {:induction false} InvestmentRoundsOk(table: seq<Row>, id: Value)
    ensures InvestmentRounds(table, id).Ok? <==>
      forall x :: x in table ==> CompanyField in x && (x[CompanyField] == id ==> AllStrings(x))
  {
    if table != [] {
      var init := table[..|table| - 1];
      InvestmentRoundsOk(init, id);
      assert table == init + [table[|table| - 1]];
    }
  }

  /** What one round adds to the total: 0 for a null amount, the parsed
      integer otherwise, or the KeyError / ValueError the code raises. */
  function RoundAmount(round: Row): (r: Result<int>)
    ensures r.Ok? ==> r.value >= 0
    ensures r.Ok? <==> AmountField in round && (round[AmountField].Some? ==> ParseInt(round[AmountField].value).Some?)
    ensures AmountField in round && round[AmountField] == None ==> r == Ok(0)
    ensures AmountField !in round ==> r == Err(MissingField(AmountField))
    ensures r.Err? && AmountField in round ==> r == Err(BadInteger(round[AmountField].value))
  {
    if AmountField !in round then Err(MissingField(AmountField))
    else
      match round[AmountField]
      case None => Ok(0)
      case Some(s) =>
        match ParseInt(s)
        case None => Err(BadInteger(s))
        case Some(n) => Ok(n)
  }

  /** A round whose amount is the decimal rendering of `n` adds `n`. */
  lemma RoundAmountOfDecimal(round: Row, n: nat)
    requires AmountField in round && round[AmountField] == Some(ToDecimal(n))
    ensures RoundAmount(round) == Ok(n)
  {
    ParseToDecimal(n);
  }

  /** The running total after one more amount: an earlier failure wins. */
  function AddAmount(total: Result<int>, amount: Result<int>): Result<int> {
    match total
    case Err(e) => Err(e)
    case Ok(t) =>
      match amount
      case Err(e) => Err(e)
      case Ok(a) => Ok(t + a)
  }

  /** The running total after one more round. */
  function AddRound(total: Result<int>, round: Row): Result<int> {
    AddAmount(total, RoundAmount(round))
  }

  /** The outcome of `get_total_investment_usd(rounds)`: the amounts added up
      front to back, or the first round's failure. */
  function TotalUsd(rounds: seq<Row>): (r: Result<int>)
    ensures r.Ok? ==> r.value >= 0
  {
    if rounds == [] then Ok(0) else AddRound(TotalUsd(rounds[..|rounds| - 1]), rounds[|rounds| - 1])
  }

  /** Failures in the first part win; otherwise totals add up. */
  function CombineTotals(a: Result<int>, b: Result<int>): Result<int> {
    match a
    case Err(e) => Err(e)
    case Ok(x) =>
      match b
      case Err(e) => Err(e)
      case Ok(y) => Ok(x + y)
  }

  /** The total of two runs of rounds is the sum of their totals. */
  lemma {:induction false} TotalUsdAppend(a: seq<Row>, b: seq<Row>)
    ensures TotalUsd(a + b) == CombineTotals(TotalUsd(a), TotalUsd(b))
  {
    if b == [] {
      assert a + b == a;
    } else {
      var b' := b[..|b| - 1];
      var last := b[|b| - 1];
      TotalUsdAppend(a, b');
      assert (a + b)[..|a + b| - 1] == a + b';
      assert (a + b)[|a + b| - 1] == last;
      assert TotalUsd(a + b) == AddAmount(TotalUsd(a + b'), RoundAmount(last));
      assert TotalUsd(b) == AddAmount(TotalUsd(b'), RoundAmount(last));
      AddAmountCombined(TotalUsd(a), TotalUsd(b'), RoundAmount(last));
    }
  }

  lemma AddAmountCombined(x: Result<int>, y: Result<int>, amount: Result<int>)
    ensures AddAmount(CombineTotals(x, y), amount) == CombineTotals(x, AddAmount(y, amount))
  {
  }

  /** A failure within the first `k` rounds is the failure of the whole sum. */
  lemma TotalUsdPrefixErr(rounds: seq<Row>, k: nat)
    requires k <= |rounds| && TotalUsd(rounds[..k]).Err?
    ensures TotalUsd(rounds) == TotalUsd(rounds[..k])
  {
    TotalUsdAppend(rounds[..k], rounds[k..]);
    assert rounds[..k] + rounds[k..] == rounds;
  }

  /** A round whose amount is null adds nothing. */
  lemma NullRoundAddsNothing(rounds: seq<Row>, round: Row)
    requires AmountField in round && round[AmountField] == None
    ensures TotalUsd(rounds + [round]) == TotalUsd(rounds)
  {
    var t := rounds + [round];
    assert t[..|t| - 1] == rounds && t[|t| - 1] == round;
    assert RoundAmount(round) == Ok(0);
    assert TotalUsd(t) == AddAmount(TotalUsd(rounds), Ok(0));
  }

  /** The total is the sum over the rounds exactly when every round has the
      amount column and every non-null amount is a digit string. */
  lemma {:induction false} TotalUsdOk(rounds: seq<Row>)
    ensures TotalUsd(rounds).Ok? <==> forall x :: x in rounds ==> RoundAmount(x).Ok?
  {
    if rounds != [] {
      var init := rounds[..|rounds| - 1];
      TotalUsdOk(init);
      assert rounds == init + [rounds[|rounds| - 1]];
    }
  }

  /** Rounds of 40 dollars, of an undisclosed amount and of 2 dollars total 42. */
  lemma TotalOfThreeRounds()
    ensures TotalUsd([map[AmountField := Some("40")], map[AmountField := None], map[AmountField := Some("2")]]) == Ok(42)
  {
    var r1: Row := map[AmountField := Some("40")];
    var r2: Row := map[AmountField := None];
    var r3: Row := map[AmountField := Some("2")];
    assert "40"[..1] == "4" && "4"[..0] == [] && "2"[..0] == [];
    assert RoundAmount(r1) == Ok(40) && RoundAmount(r2) == Ok(0) && RoundAmount(r3) == Ok(2);
    assert [r1][..0] == [];
    assert TotalUsd([r1]) == Ok(40);
    assert [r1, r2][..1] == [r1];
    assert TotalUsd([r1, r2]) == Ok(40);
    assert [r1, r2, r3][..2] == [r1, r2];
  }
}
