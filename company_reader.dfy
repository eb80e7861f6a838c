/** The stand-alone company lookup of `dump/CompanyReader.py`: the objects
    file read as raw CSV lines, the first line taken as the header, and the
    first later line whose first cell is the company's id zipped with it. */
module CompanyReader {
  import opened Common

  /** One CSV line as a plain CSV reader yields it: its cells in order. A
      blank line yields no cells at all. */
  type Line = seq<string>

  /** A company as `dict(zip(headers, obj))` builds it. */
  type Company = map<string, string>

  function Min(a: nat, b: nat): nat {
    if a <= b then a else b
  }

  /** The dictionary built from the first `n` header/cell pairs, inserted
      left to right, so that a later duplicate header overwrites an earlier one. */
  function ZipPrefix(headers: Line, cells: Line, n: nat): Company
    requires n <= |headers| && n <= |cells|
  {
    if n == 0 then map[] else ZipPrefix(headers, cells, n - 1)[headers[n - 1] := cells[n - 1]]
  }

  /** `dict(zip(headers, cells))`: `zip` stops at the shorter of the two. */
  function Zip(headers: Line, cells: Line): Company {
    ZipPrefix(headers, cells, Min(|headers|, |cells|))
  }

  /** The keys are the first `n` headers, and a header that does not occur
      again later among them maps to the cell in its own position. */
  lemma {:induction false} ZipPrefixShape(headers: Line, cells: Line, n: nat)
    requires n <= |headers| && n <= |cells|
    ensures ZipPrefix(headers, cells, n).Keys == set i | 0 <= i < n :: headers[i]
    ensures forall i :: 0 <= i < n && (forall j :: i < j < n ==> headers[j] != headers[i]) ==>
      ZipPrefix(headers, cells, n)[headers[i]] == cells[i]
  {
    if n > 0 {
      ZipPrefixShape(headers, cells, n - 1);
      var before := set i | 0 <= i < n - 1 :: headers[i];
      assert (set i | 0 <= i < n :: headers[i]) == before + {headers[n - 1]};
    }
  }

  /** The shape of `dict(zip(headers, cells))`: its keys are exactly the
      headers that have a cell beside them, and, when no header repeats,
      every one of them maps to the cell in its position. */
  lemma ZipShape(headers: Line, cells: Line)
    ensures Zip(headers, cells).Keys == set i | 0 <= i < Min(|headers|, |cells|) :: headers[i]
    ensures (forall i, j :: 0 <= i < j < |headers| ==> headers[i] != headers[j]) ==>
      forall i :: 0 <= i < Min(|headers|, |cells|) ==> Zip(headers, cells)[headers[i]] == cells[i]
  {
    ZipPrefixShape(headers, cells, Min(|headers|, |cells|));
  }

  /** The search of `company`: from line `from` on, the first line whose
      first cell is `target`; an IndexError at a blank line met before it. */
  function FirstMatchFrom(lines: seq<Line>, target: string, from: nat): (r: Result<Option<nat>>)
    requires from <= |lines|
    decreases |lines| - from
    ensures r.Ok? && r.value.Some? ==>
      && from <= r.value.value < |lines|
      && |lines[r.value.value]| > 0 && lines[r.value.value][0] == target
      && forall j :: from <= j < r.value.value ==> |lines[j]| > 0 && lines[j][0] != target
    ensures r == Ok(None) <==> forall j :: from <= j < |lines| ==> |lines[j]| > 0 && lines[j][0] != target
    ensures r.Err? ==> r.error == BlankLine
  {
    if from == |lines| then Ok(None)
    else if |lines[from]| == 0 then Err(BlankLine)
    else if lines[from][0] == target then Ok(Some(from))
    else FirstMatchFrom(lines, target, from + 1)
  }

  /** The line `company` picks: the header (line 0) is consumed before the
      search, and an empty file has no header and no candidates. */
  function FirstMatch(lines: seq<Line>, target: string): (r: Result<Option<nat>>)
    ensures r.Ok? && r.value.Some? ==> 1 <= r.value.value < |lines|
  {
    if lines == [] then Ok(None) else FirstMatchFrom(lines, target, 1)
  }

  /** The outcome of `company(company_id)` on a file of `lines`. */
  function CompanyOf(lines: seq<Line>, companyId: string): Result<Option<Company>> {
    match FirstMatch(lines, "c:" + companyId)
    case Err(e) => Err(e)
    case Ok(None) => Ok(None)
    case Ok(Some(k)) => Ok(Some(Zip(lines[0], lines[k])))
  }

  /** A company that is found comes from the first data line carrying its
      id, zipped with the header line, and no earlier data line carries it. */
  lemma CompanyIsFirstMatch(lines: seq<Line>, companyId: string, c: Company)
    requires CompanyOf(lines, companyId) == Ok(Some(c))
    ensures exists k ::
      && 1 <= k < |lines| && |lines[k]| > 0 && lines[k][0] == "c:" + companyId
      && c == Zip(lines[0], lines[k])
      && forall j :: 1 <= j < k ==> |lines[j]| > 0 && lines[j][0] != "c:" + companyId
  {
    var k := FirstMatch(lines, "c:" + companyId).value.value;
    assert 1 <= k < |lines| && c == Zip(lines[0], lines[k]);
  }

  /** `company` returns None exactly when no data line carries the id and
      none is blank; this covers the empty file, and the header line never
      counts as a match even when its first cell equals the id. */
  lemma NoMatchIsNone(lines: seq<Line>, companyId: string)
    ensures CompanyOf(lines, companyId) == Ok(None) <==>
      forall j :: 1 <= j < |lines| ==> |lines[j]| > 0 && lines[j][0] != "c:" + companyId
  {
    if lines != [] {
      assert FirstMatch(lines, "c:" + companyId) == FirstMatchFrom(lines, "c:" + companyId, 1);
    }
  }

  /** `company` raises IndexError only for a blank line that comes before
      any match, and the lines before it are neither blank nor matches. */
  lemma BlankLineFails(lines: seq<Line>, companyId: string)
    ensures CompanyOf(lines, companyId).Err? <==>
      exists k :: 1 <= k < |lines| && |lines[k]| == 0
        && forall j :: 1 <= j < k ==> |lines[j]| > 0 && lines[j][0] != "c:" + companyId
  {
    var target := "c:" + companyId;
    if lines != [] {
      BlankLineFailsFrom(lines, target, 1);
    }
  }

  lemma {:induction false} BlankLineFailsFrom(lines: seq<Line>, target: string, from: nat)
    requires from <= |lines|
    decreases |lines| - from
    ensures FirstMatchFrom(lines, target, from).Err? <==>
      exists k :: from <= k < |lines| && |lines[k]| == 0
        && forall j :: from <= j < k ==> |lines[j]| > 0 && lines[j][0] != target
  {
    if from < |lines| && |lines[from]| > 0 && lines[from][0] != target {
      BlankLineFailsFrom(lines, target, from + 1);
      if FirstMatchFrom(lines, target, from).Err? {
        var k :| from + 1 <= k < |lines| && |lines[k]| == 0
          && forall j :: from + 1 <= j < k ==> |lines[j]| > 0 && lines[j][0] != target;
        assert from <= k < |lines| && |lines[k]| == 0
          && forall j :: from <= j < k ==> |lines[j]| > 0 && lines[j][0] != target;
      }
    } else if from < |lines| && |lines[from]| == 0 {
      assert from <= from < |lines| && |lines[from]| == 0;
    } else if from < |lines| {
      assert !exists k ::
        && from <= k < |lines| && |lines[k]| == 0
        && forall j :: from <= j < k ==> |lines[j]| > 0 && lines[j][0] != target;
    }
  }

  /** With distinct header names, a found company's first field holds the
      id that was asked for, and every field's name is a header name. */
  lemma FoundCompanyHasId(lines: seq<Line>, companyId: string, c: Company)
    requires CompanyOf(lines, companyId) == Ok(Some(c))
    requires |lines| > 0 && |lines[0]| > 0
    requires forall i, j :: 0 <= i < j < |lines[0]| ==> lines[0][i] != lines[0][j]
    ensures lines[0][0] in c && c[lines[0][0]] == "c:" + companyId
    ensures forall k :: k in c ==> k in lines[0]
  {
    var n := FirstMatch(lines, "c:" + companyId).value.value;
    ZipShape(lines[0], lines[n]);
    forall k | k in c ensures k in lines[0] {
      var i :| 0 <= i < Min(|lines[0]|, |lines[n]|) && lines[0][i] == k;
    }
  }

  /** On a file whose header is `id,name` and whose one data line is
      company 10, asking for `10` gives that company and asking for `213`
      gives None. */
  lemma SmallFile()
    ensures CompanyOf([["id", "name"], ["c:10", "Acme"]], "10") == Ok(Some(map["id" := "c:10", "name" := "Acme"]))
    ensures CompanyOf([["id", "name"], ["c:10", "Acme"]], "213") == Ok(None)
  {
    var lines: seq<Line> := [["id", "name"], ["c:10", "Acme"]];
    assert "c:" + "10" == "c:10";
    assert FirstMatch(lines, "c:10") == Ok(Some(1));
    assert ZipPrefix(lines[0], lines[1], 1) == map["id" := "c:10"];
    assert Zip(lines[0], lines[1]) == ZipPrefix(lines[0], lines[1], 2);
    assert "c:" + "213" != "c:10" by {
      assert ("c:" + "213")[2] == '2';
    }
    assert FirstMatchFrom(lines, "c:213", 2) == Ok(None);
  }

  class CompanyReader {
    // The lines of the objects file, as a plain CSV reader yields them.
    const objectsFile: seq<Line>

    constructor (objectsFile: seq<Line>)
      ensures this.objectsFile == objectsFile
    {
      this.objectsFile := objectsFile;
    }

    /** `company(company_id)`: take the header line, then scan the
        remaining lines and return the first one whose first cell is the id,
        zipped with the header. */
    method Company(companyId: string) returns (r: Result<Option<Company>>)
      ensures r == CompanyOf(objectsFile, companyId)
    {
      if |objectsFile| == 0 {
        return Ok(None);
      }
      var headers := objectsFile[0];
      var target := "c:" + companyId;
      var i := 1;
      while i < |objectsFile|
        invariant 1 <= i <= |objectsFile|
        invariant FirstMatchFrom(objectsFile, target, i) == FirstMatch(objectsFile, target)
      {
        var obj := objectsFile[i];
        if |obj| == 0 {
          return Err(BlankLine);
        }
        if obj[0] == target {
          return Ok(Some(Zip(headers, obj)));
        }
        i := i + 1;
      }
      return Ok(None);
    }
  }
}
