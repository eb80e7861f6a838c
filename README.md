# Crunchbase dump reader, modelled in Dafny

The system reads a startup-funding database dump, a set of CSV tables keyed
by foreign ids. For each qualifying company it writes one JSON line. The line
holds the company's own row, the people related to it and its funding rounds.
A row qualifies when it is:

- a company, by entity type or by an id prefixed `c:`;
- of an accepted category;
- a top-level entity, with no parent;
- funded with a total of at least a configured amount.

On top of that, a cap bounds how many records are written.

The model covers the two reader files of the repository:

- `dump/CrunchbaseReader.py`:
  - `convert_empty_fields`, which turns the `"N"` sentinel into null;
  - the `CrunchbaseReader` class, with `convert_companies`,
    `get_total_investment_usd`, `get_investment_rounds`, `get_people`,
    `get_people_from_object`, `get_people_from_people` and `company`.
- `dump/CompanyReader.py`: `CompanyReader.company`, which zips the header
  line with the first data line carrying a company id.

Shape of the model:

- Every Python exception the code lets escape becomes an explicit error
  result. These are a `KeyError` on a missing column, an `AttributeError`
  from `.strip()` on a null cell, a `ValueError` from `int(...)`, a
  `KeyError` for a person missing from a lookup table, and an `IndexError`
  on a blank CSV line.
- The data-processing modules are pure functions over the tables:
  `Text`, `Rows`, `Funding`, `People` and `Pipeline`.
- The reader modules `CrunchbaseReader` and `CompanyReader` keep the
  source's form. They are classes whose methods scan the tables with
  `while` loops, and each method is proved to compute the function that
  specifies it.
- The properties the code promises are proved as lemmas about those
  functions. They cover order, first match, grouping, key sets, sums, the
  cap and the error paths.

Files:

- `common.dfy`: options, CSV rows (`map<string, Option<string>>`), errors and
  results.
- `text.dfy`: `str.strip` with Python's whitespace set, the sentinel test,
  `startswith`, and `int(...)` on digit strings.
- `rows.dfy`: normalisation of one row.
- `funding.dfy`: funding-round selection and the funding total.
- `people.dfy`: relationship grouping, the two keyed lookups with their
  early `break`, and the per-person merge.
- `pipeline.dfy`: the company filter, the verdict on one objects row, and
  the scan of `convert_companies` with its cap.
- `crunchbase_reader.dfy`: `convert_empty_fields`, the output file and the
  `CrunchbaseReader` class.
- `company_reader.dfy`: `CompanyReader`.

Where the intended behaviour and the code disagree, the model follows the
code. The intended behaviour comes from the docstrings, the stated goal at the
head of `dump/CrunchbaseReader.py` and the tests:

- Normalisation reads as if it were idempotent. The code's second application
  raises on the nulls the first one produced, because `None.strip()` fails
  (`Rows.ReapplyFailsOnSentinel`). Only the pure map is idempotent
  (`Rows.NormalizedIdempotent`).
- The tests expect a person missing from a lookup table to get an all-null
  placeholder (`tests/test_CrunchbaseReader.py`, lines 47-49). The code
  raises `KeyError` instead (`People.MissingPersonRaises`).
- A relationship row whose person id is the sentinel `N` is stored under
  null. A second such row looks itself up under the raw `N`, misses, and
  replaces the first (`People.SentinelPersonIdsCollide`). The merge then
  raises `KeyError` for null, unless some objects and people rows have a
  null key.
- "The main company, not a child of another entity" is, in the code, a
  `parent_id` column that is absent or whose raw cell is exactly `N`
  (`Pipeline.IsCompanyRow`).
- The cap is checked after every row, not only after an emitted one. With a
  cap of 0, the scan therefore stops after a first row that is skipped
  (`Pipeline.CapZeroStopsAfterFirstSkip`). It runs to the end when the first
  row is emitted (`Pipeline.CapZeroAfterFirstEmit`).
- The output file is opened for appending and never truncated. The records
  already in it stay in front (`CrunchbaseReader.CrunchbaseReader.ConvertCompanies`).
- An accepted-category set that is present but empty accepts nothing.

## Model

| member | source | states |
|---|---|---|
| Text.TrimStartDropsLeadingSpace | dump/CrunchbaseReader.py:39 | the left half of `strip` returns a suffix of its input, drops only whitespace, and starts with a non-space |
| Text.TrimEndDropsTrailingSpace | dump/CrunchbaseReader.py:39 | the right half of `strip` returns a prefix of its input, drops only whitespace, and ends with a non-space |
| Text.SentinelShape | dump/CrunchbaseReader.py:39 | `val.strip() == 'N'` holds exactly when the text is one `N` with only whitespace around it |
| Text.Strip | dump/CrunchbaseReader.py:39 | specification of `val.strip()`: leading then trailing whitespace removed; its meaning is stated by the two trim lemmas and `Text.SentinelShape` |
| Text.ParseInt | dump/CrunchbaseReader.py:98 | `int(s)` succeeds exactly on a non-empty run of decimal digits; the value of an n-digit numeral is below 10^n and, without a leading zero, at least 10^(n-1) |
| Text.ParseIntAppendDigit | dump/CrunchbaseReader.py:98 | `int(...)` of a digit string with one more digit on the right is ten times the old value plus that digit |
| Text.DigitsPrepend | dump/CrunchbaseReader.py:98 | a digit on the left adds its value times ten to the length of the rest, so digits count most significant first |
| Text.ParseIntLeadingZero | dump/CrunchbaseReader.py:98 | a leading zero does not change the parsed amount, as with Python's `int` |
| Text.ToDecimal | dump/CrunchbaseReader.py:98 | the decimal rendering of a number is a non-empty digit string |
| Text.ParseToDecimal | dump/CrunchbaseReader.py:98 | parsing the decimal rendering of any number gives the number back |
| Rows.Normalized | dump/CrunchbaseReader.py:38-40 | specification of the loop body applied to every cell; its meaning is `Rows.NormalizedMeans` |
| Rows.NormalizeRow | dump/CrunchbaseReader.py:36-41 | `convert_empty_fields` fails exactly when some cell is null; otherwise its result has the same keys, every sentinel cell null, and every other cell unchanged |
| Rows.NormalizedMeans | dump/CrunchbaseReader.py:38-40 | the normalised row has the same keys, every sentinel cell is null and every other cell is unchanged |
| Rows.NormalizedIdempotent | dump/CrunchbaseReader.py:36-41 | as a map on rows, normalising twice equals normalising once |
| Rows.ReapplyFailsOnSentinel | dump/CrunchbaseReader.py:38-40 | a second `convert_empty_fields` on its own output fails exactly when the first one nulled a sentinel cell |
| Funding.InvestmentRounds | dump/CrunchbaseReader.py:101-109 | specification of `get_investment_rounds`; its meaning is stated by `Funding.InvestmentRoundsAreMatching`, `Funding.InvestmentRoundsOk` and `Funding.InvestmentRoundsPrefixErr` |
| Funding.Matching | dump/CrunchbaseReader.py:106-108 | the reference selection holds exactly the funding rows whose `object_id` is the company id, and is no longer than the table |
| Funding.InvestmentRoundsAreMatching | dump/CrunchbaseReader.py:101-109 | a successful `get_investment_rounds` returns exactly the matching rows, in table order, each normalised |
| Funding.InvestmentRoundsOk | dump/CrunchbaseReader.py:106-108 | `get_investment_rounds` succeeds exactly when every row has `object_id` and every matching row has no null cell |
| Funding.InvestmentRoundsPrefixErr | dump/CrunchbaseReader.py:106-108 | an exception on an early row is the outcome of the whole scan |
| Funding.RoundAmount | dump/CrunchbaseReader.py:97-98 | one round adds a non-negative amount exactly when it has the amount column and the amount is null or a digit string; a null amount adds 0; a missing column is the `KeyError` and any other failure the `ValueError` on that text |
| Funding.RoundAmountOfDecimal | dump/CrunchbaseReader.py:98 | a round whose amount is the decimal rendering of `n` adds exactly `n` |
| Funding.TotalUsd | dump/CrunchbaseReader.py:93-99 | the total of any rounds is non-negative |
| Funding.TotalUsdAppend | dump/CrunchbaseReader.py:95-99 | the total over two runs of rounds is the sum of their totals, or the first failure |
| Funding.TotalUsdPrefixErr | dump/CrunchbaseReader.py:96-98 | a failing round among the first `k` is the failure of the whole sum |
| Funding.NullRoundAddsNothing | dump/CrunchbaseReader.py:97 | a round with a null amount leaves the total unchanged |
| Funding.TotalUsdOk | dump/CrunchbaseReader.py:96-98 | the total is defined exactly when every round's amount is |
| Funding.TotalOfThreeRounds | dump/CrunchbaseReader.py:93-99 | amounts `40`, null and `2` total 42 |
| People.AddRelationship | dump/CrunchbaseReader.py:123-130 | specification of one turn of the relationship loop (raw id for the lookup and the append, normalised id for a new key); its effect is stated by `People.GroupRolesStep`, `People.PersonRowAddsRole` and `People.UnrelatedRowKeepsRoles` |
| People.GroupRoles | dump/CrunchbaseReader.py:118-130 | specification of the relationship loop; its meaning is `People.GroupRolesCorrect` against the reference `People.RolesOf` |
| People.GroupRolesCorrect | dump/CrunchbaseReader.py:122-130 | the grouping's keys are person ids or null, and under each real person id it holds exactly that person's role rows with the company, in table order (reference `People.RolesOf`) |
| People.GroupRolesStep | dump/CrunchbaseReader.py:122-130 | one more relationship row preserves the grouping invariant |
| People.UnrelatedRowKeepsRoles | dump/CrunchbaseReader.py:123 | a row not relating the company to a real person id changes nobody's roles |
| People.PersonRowAddsRole | dump/CrunchbaseReader.py:126-130 | a row relating the company to person `p` appends its role row under `p` and changes no other person |
| People.GroupRolesPrefixErr | dump/CrunchbaseReader.py:122-130 | an exception on an early relationship row ends the grouping with it |
| People.NoRelationshipsNoRoles | dump/CrunchbaseReader.py:122-123 | a company named in no relationship row has an empty roles map |
| People.SentinelPersonIdsCollide | dump/CrunchbaseReader.py:126-129 | two rows with the sentinel person id `N` collide: the first is stored under null, the second looks up the raw `N`, misses and replaces it, leaving only its own role |
| People.LookupStep | dump/CrunchbaseReader.py:146-165 | specification of one turn of a lookup loop, the `break` included; its meaning is stated by `People.LookupCorrect` and `People.LookupStops` |
| People.LookupScan | dump/CrunchbaseReader.py:145-151 | specification of a whole lookup loop and its break flag; see `People.LookupCorrect` |
| People.Lookup | dump/CrunchbaseReader.py:141-166 | specification of the dictionary a lookup returns; see `People.LookupCorrect` |
| People.ObjectLookup | dump/CrunchbaseReader.py:141-151 | specification of `get_people_from_object`: rows keyed by `id`, kept whole |
| People.PeopleLookup | dump/CrunchbaseReader.py:153-166 | specification of `get_people_from_people`: rows keyed by `object_id`, without `id` and `object_id` |
| People.LookupKeys | dump/CrunchbaseReader.py:145-150 | a lookup holds only requested ids, and has broken out exactly when it holds all of them and some were requested |
| People.LookupStored | dump/CrunchbaseReader.py:146-148 | every value found comes from a table row whose key field is that id |
| People.LookupComplete | dump/CrunchbaseReader.py:146-150 | every requested id whose key occurs in the table is found |
| People.LookupCorrect | dump/CrunchbaseReader.py:141-166 | both lookups return exactly the requested ids present in the table, each stored from its row |
| People.LookupStops | dump/CrunchbaseReader.py:149-150 | after the `break` or an exception, the rest of the table neither changes nor fails the lookup |
| People.LookupOfNothing | dump/CrunchbaseReader.py:145-151 | looking up no ids reads the whole table and finds nothing |
| People.SubsetOfSameSize | dump/CrunchbaseReader.py:149 | a subset of the requested ids as large as the set is the whole set, which justifies the `len(people) == len(people_ids)` test |
| People.MergePerson | dump/CrunchbaseReader.py:135 | specification of `{'roles': …, **obj, **person}`; its meaning is `People.MergeRightmostWins` |
| People.MergeRightmostWins | dump/CrunchbaseReader.py:135 | in `{'roles': …, **obj, **person}` the keys are the union; the people row wins over the objects row, both win over the roles |
| People.MergedRecord | dump/CrunchbaseReader.py:133-135 | every record of a successful merge has the fields of the roles, the objects row and the people row; the people row wins over the objects row, and the roles survive unless a row has a `roles` column |
| People.MissingPersonRaises | dump/CrunchbaseReader.py:135 | a person id missing from either lookup table makes the whole merge the `KeyError` |
| People.PeopleOf | dump/CrunchbaseReader.py:111-139 | specification of `get_people` keyed by person id: the grouping, both lookups, then the merge, with the first exception winning; see `People.MergedRecord` and `People.NoRelationshipsNoPeople` |
| People.NoRelationshipsNoPeople | dump/CrunchbaseReader.py:111-139 | a company without relationship rows has no people |
| People.MergeListed | dump/CrunchbaseReader.py:133-139 | a duplicate-free list of every person id, each with its merged record, enumerates the merge: the merge succeeds, and the list has one entry per person, each a merged record, and contains every merged record |
| People.MergedAlongAt | dump/CrunchbaseReader.py:133-139 | the list the merge loop builds along an order of ids holds, at each position, the merge of that position's id |
| People.MergedAlongListed | dump/CrunchbaseReader.py:133-139 | the records merged along a duplicate-free order of every person id enumerate the merge: it succeeds, with one entry per person, each a merged record, and every merged record listed |
| People.EnumeratedPeople | dump/CrunchbaseReader.py:133-135 | a list built along a duplicate-free order of the person ids has one entry per person, each a merged record, and contains every merged record |
| Pipeline.IsCompanyRow | dump/CrunchbaseReader.py:72-74 | specification of the filter as a predicate on the row |
| Pipeline.CandidateTest | dump/CrunchbaseReader.py:72-74 | the short-circuiting filter agrees with the company predicate whenever it does not raise; it does not raise exactly when `entity_type` is present and non-null, `id` is present and non-null when the type is not `Company`, and `category_code` is present when a category set is given and the row got past the first test; otherwise it raises the `KeyError` or the `AttributeError` |
| Pipeline.Examine | dump/CrunchbaseReader.py:72-87 | specification of the loop body on one objects row; its meaning is `Pipeline.ExamineMeans` |
| Pipeline.ExamineMeans | dump/CrunchbaseReader.py:72-87 | an emitted row passes the filter, reaches the funding threshold, and carries its normalised row, its rounds and its people; a skipped row fails the filter or the threshold |
| Pipeline.VerdictAt | dump/CrunchbaseReader.py:69-75 | the verdict on row `i` of the objects table is the row's examination |
| Pipeline.Step | dump/CrunchbaseReader.py:75-91 | specification of one turn of the scan: record, skip or raise, then the cap test; its effect is stated by the `Pipeline.Run…` lemmas |
| Pipeline.Run | dump/CrunchbaseReader.py:69-91 | the scan after `n` rows has read at most `n` of them |
| Pipeline.Convert | dump/CrunchbaseReader.py:63-91 | the whole run of `convert_companies` reads at most the objects table; its meaning is `Pipeline.ConvertRowVerdict` and `Pipeline.CapBoundsRecords` |
| Pipeline.RunShape | dump/CrunchbaseReader.py:69-91 | until the scan stops it has read every row, and an exception stops it on the row that raised it |
| Pipeline.RunEmitsValid | dump/CrunchbaseReader.py:69-87 | records are written in increasing row order, each for a read row that qualifies |
| Pipeline.RunEmitsAll | dump/CrunchbaseReader.py:72-87 | every qualifying row read is written |
| Pipeline.RunNoEarlyFail | dump/CrunchbaseReader.py:69-91 | only the last row read can have raised |
| Pipeline.RunCount | dump/CrunchbaseReader.py:87 | without an exception, `found_companies` is the number of qualifying rows read |
| Pipeline.RunCap | dump/CrunchbaseReader.py:90-91 | the scan stops without an exception only at the cap, and a cap of 1 or more is never exceeded |
| Pipeline.ScanEmitsInOrder | dump/CrunchbaseReader.py:69-91 | over any verdicts, records come in row order, a read row is written exactly when it qualifies, and an exception can only come from the last row read |
| Pipeline.ConvertRowVerdict | dump/CrunchbaseReader.py:63-91 | an objects row read by `convert_companies` is written exactly when it qualifies; one that raised is the last read and its exception ends the run |
| Pipeline.CapBoundsRecords | dump/CrunchbaseReader.py:87-91 | with a cap of 1 or more and no exception, the number of records is the smaller of the cap and the number of qualifying rows |
| Pipeline.NegativeCapReadsAll | dump/CrunchbaseReader.py:50-91 | with the default cap of -1, the whole table is read and every qualifying row is written |
| Pipeline.CapZeroAfterFirstEmit | dump/CrunchbaseReader.py:87-91 | with a cap of 0 and a first row that qualifies, the count passes 0 and the cap never stops the scan |
| Pipeline.CapZeroKeepsGoing | dump/CrunchbaseReader.py:87-91 | with a cap of 0 and a qualifying first row, no prefix of the scan stops at the cap |
| Pipeline.CapZeroStopsAfterFirstSkip | dump/CrunchbaseReader.py:90-91 | with a cap of 0 and a first row that is skipped, the scan stops after that row with no record |
| Pipeline.StoppedStaysStopped | dump/CrunchbaseReader.py:90-91 | once the loop has broken out or raised, later rows change nothing |
| CrunchbaseReader.ConvertEmptyFields | dump/CrunchbaseReader.py:36-41 | the loop over the cells returns the normalised row, or the `AttributeError` of a null cell |
| CrunchbaseReader.RecordStep | dump/CrunchbaseReader.py:75-91 | one turn of the loop: the scan state after a skipped, written or failing row |
| CrunchbaseReader.JsonLinesFile.Append | dump/CrunchbaseReader.py:84-86 | a write appends one record and keeps the earlier ones |
| CrunchbaseReader.FirstWithId | dump/CrunchbaseReader.py:171-174 | the first objects row whose `id` is the target, with no earlier one; none exactly when every row has an `id` and none matches; otherwise the `KeyError` |
| CrunchbaseReader.FirstWithIdFails | dump/CrunchbaseReader.py:171-174 | the `KeyError` is raised exactly when a row without `id` comes before any row carrying the target |
| CrunchbaseReader.PresentIsFound | dump/CrunchbaseReader.py:168-175 | a row carrying the requested id, reached before any row without `id`, is the one returned |
| CrunchbaseReader.CrunchbaseReader.constructor | dump/CrunchbaseReader.py:44-61 | the reader keeps its tables, threshold, cap (default -1) and categories (default none) |
| CrunchbaseReader.CrunchbaseReader.GetTotalInvestmentUsd | dump/CrunchbaseReader.py:93-99 | the loop computes the funding total or its first failure |
| CrunchbaseReader.CrunchbaseReader.GetInvestmentRounds | dump/CrunchbaseReader.py:101-109 | the loop returns the company's normalised funding rounds or the scan's exception |
| CrunchbaseReader.CrunchbaseReader.GetPeopleFromObject | dump/CrunchbaseReader.py:141-151 | the loop with its `break` computes the objects lookup |
| CrunchbaseReader.CrunchbaseReader.GetPeopleFromPeople | dump/CrunchbaseReader.py:153-166 | the loop with its `break` computes the people lookup, with `id` and `object_id` removed |
| CrunchbaseReader.CrunchbaseReader.AddRole | dump/CrunchbaseReader.py:123-130 | one relationship row updates the roles map and `people_ids` together, which stays equal to its key set |
| CrunchbaseReader.CrunchbaseReader.GroupRelationships | dump/CrunchbaseReader.py:118-130 | the relationship loop builds the grouping, with `people_ids` the set of its keys |
| CrunchbaseReader.CrunchbaseReader.GetPeople | dump/CrunchbaseReader.py:111-139 | `get_people` returns one merged record per person id of the company, each a record of the merge and every record of the merge listed, or raises what the grouping, a lookup or the merge raises |
| CrunchbaseReader.CrunchbaseReader.MergeEach | dump/CrunchbaseReader.py:133-139 | the loop visits every person id once, each found in both lookups, and builds the records merged along that order, or stops with the `KeyError` of a person missing from a lookup, which the merge also raises |
| CrunchbaseReader.CrunchbaseReader.MergePeople | dump/CrunchbaseReader.py:133-139 | the merge loop lists exactly the merged records, one per person id, or raises the `KeyError` of a missing person |
| CrunchbaseReader.CrunchbaseReader.ConvertObject | dump/CrunchbaseReader.py:72-87 | the loop body produces nothing, the record or the exception that the row's verdict calls for |
| CrunchbaseReader.CrunchbaseReader.ConvertCompanies | dump/CrunchbaseReader.py:63-91 | the output gains exactly the records of the qualifying rows read before the cap or an exception, in order, after the records already there; the outcome is that exception, if any |
| CrunchbaseReader.CrunchbaseReader.Company | dump/CrunchbaseReader.py:168-175 | the loop returns the first objects row with the requested id, none, or the `KeyError` of a row without `id` |
| CompanyReader.Zip | dump/CompanyReader.py:16 | specification of `dict(zip(headers, obj))`; its meaning is `CompanyReader.ZipShape` |
| CompanyReader.ZipPrefixShape | dump/CompanyReader.py:16 | building the dictionary pair by pair gives the first `n` headers as keys, each unrepeated header mapped to its own cell |
| CompanyReader.ZipShape | dump/CompanyReader.py:16 | `dict(zip(headers, obj))` has as keys the headers that have a cell beside them; with distinct headers each maps to the cell in its position |
| CompanyReader.FirstMatchFrom | dump/CompanyReader.py:14-16 | the first line from a given one whose first cell is the target, with no earlier one; none exactly when no line is blank or matches; otherwise the `IndexError` |
| CompanyReader.FirstMatch | dump/CompanyReader.py:13-14 | a match is never the header line |
| CompanyReader.CompanyOf | dump/CompanyReader.py:10-17 | specification of `company`; its meaning is stated by `CompanyReader.CompanyIsFirstMatch`, `CompanyReader.NoMatchIsNone` and `CompanyReader.BlankLineFails` |
| CompanyReader.CompanyIsFirstMatch | dump/CompanyReader.py:14-16 | a found company is the header zipped with the first data line carrying `"c:"+id`, and no earlier data line carries it |
| CompanyReader.NoMatchIsNone | dump/CompanyReader.py:13-17 | `company` returns None exactly when no data line is blank or carries the id, including on an empty file and when only the header matches |
| CompanyReader.BlankLineFails | dump/CompanyReader.py:15 | `company` raises `IndexError` exactly when a blank line comes before any match |
| CompanyReader.BlankLineFailsFrom | dump/CompanyReader.py:14-15 | the same from any starting line |
| CompanyReader.FoundCompanyHasId | dump/CompanyReader.py:15-16 | with distinct headers, a found company's first field is `"c:"+id`, and every field name is a header |
| CompanyReader.SmallFile | tests/test_CompanyReader.py:12-18 | on a two-line file, id `10` gives the company with `id` `c:10`, and id `213` gives None |
| CompanyReader.CompanyReader.constructor | dump/CompanyReader.py:6-8 | the reader keeps the lines of its objects file |
| CompanyReader.CompanyReader.Company | dump/CompanyReader.py:10-17 | the loop after the header returns the header zipped with the first matching line, None, or the `IndexError` of a blank line |

## Left out

- File I/O, CSV parsing and JSON serialisation: tables are given as sequences of rows. `csv.DictReader` fills short rows with null, which the model allows as null cells. Each write adds one abstract record to `JsonLinesFile`.
- Progress printing and wall-clock timing: they are side effects only.
- `ipos_file_path` and `speed_up`: stored by the constructor but never used.
- The `CategoryCodes` enum: the accepted categories are a set of strings.
- The command-line scripts `dump_companies.py` and `dump_company.py`: thin wrappers.
- Resuming (`keep_going`) and the null placeholder for missing people: the code has neither.
- Text.ParseInt: does not model what Python's `int` accepts beyond plain decimal digits: signs, surrounding whitespace, underscores and non-ASCII digits. Such amounts are treated as a `ValueError`.
- CrunchbaseReader.ConvertEmptyFields: uses value semantics. The in-place update of the caller's dict and the resulting aliasing are not modelled; the model uses the returned value wherever the code relies on the mutation.
- People.MergeAll: the `KeyError` for a missing person does not say which id. The id Python names depends on the set's iteration order.
- CrunchbaseReader.CrunchbaseReader.GetPeople: promises no order for the people list, because it follows the iteration order of a Python set. The ghost `order` names the order one run picked.
- Rows longer than the header: `csv.DictReader` puts the extra cells in a list under the key `None`, and `convert_empty_fields` then raises `AttributeError` on `list.strip()`. A `Row` maps strings to optional strings and cannot hold such a row, so this failure is not modelled.
- The test fixtures under `tests/resources`: not part of this model.
