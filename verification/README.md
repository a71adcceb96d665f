# Ship database randomize-and-compare, modelled in Dafny

The repository is a small test rig around a relational ship database.
`create_db.py` generates the original database:
- numbered weapons, hulls and engines with attribute values drawn from 1..20;
- ships that each reference one component of every kind.

The pytest fixture in `conftest.py` copies that database and randomizes the copy with one of two strategies:
- **A, component swap:** every ship moves one of its references to another existing component of the same kind.
- **B, parameter change:** for every kind, a few sampled components each get one attribute overwritten.

`test_ships.py` then runs one test per (ship, component kind) pair. Each test compares the original and the randomized database and reports the first discrepancy, in a fixed order.

The model is functional:
- A database is a value `Db` with four maps: ships to their three references, and each component kind's ids to rows.
- A row is a positional sequence of integers aligned with the kind's column list.
- Every draw of Python's `random` module is an explicit input, constrained to the values that call can return.

The modules follow the program's pieces:

| file | module | models |
|---|---|---|
| basics.dfy | `Basics` | `Option`, `Result`, `Distinct` |
| schema.dfy | `Schema` | kinds, columns (`WEAPON_PARAMS`, ...), the value range, the per-kind change bounds |
| dataset.dfy | `Dataset` | ships, rows, the database value; well-shaped tables and resolving references |
| seed.dfy | `Seed` | `populate_weapons` / `populate_hulls` / `populate_engines`, `populate_ships`, the run in `main` |
| randomizer.dfy | `Randomizer` | strategies A and B of the `db_cursors` fixture |
| enumeration.dfy | `Enumeration` | `pytest_generate_tests` |
| comparator.dfy | `Comparator` | `fetch_ship_component_id`, `fetch_component_params`, `test_ship_component_changes` |
| roundtrip.dfy | `RoundTrip` | end-to-end lemmas: randomize, then compare |

The central results are the round-trip lemmas:
- **`SwapVerdict`:** after strategy A, the test of (ship, kind) fails with a reference mismatch exactly when that ship's swap hit that kind and had a candidate. It reports the old id as expected and the new id as actual. Otherwise the test passes.
- **`ParameterChangeVerdict`:** after strategy B, the test passes when the ship's component was not sampled, or was rewritten with its old value. Otherwise it fails at the rewritten parameter, with the old value expected and the new value actual.

Notes on the behaviour the code fixes:
- The test first fails when the ship is missing from either database (`test_ships.py:35-39`), before it compares references.
- The strategy B sample size is drawn from `1..max(1, min(bound, n))` (`conftest.py:61`). On an empty table the sample still asks for one id, and `random.sample` raises (`conftest.py:62`). The model returns `Failure(SampleLargerThanPopulation(kind, 1, 0))`.
- A strategy B write may store the value that was already there; the test then passes.
- The "parameter missing from the randomized record" failure (`test_ships.py:61-65`) cannot be reached when both tables have the declared columns. `NoParamMissing` proves this.

## Model

| member | source | states |
|---|---|---|
| Schema.Params | conftest.py:10-12 | every kind has at least one column: five for weapons, three for hulls, two for engines (the lists themselves are the body) |
| Comparator.FetchShipComponentId | test_ships.py:10-14 | `None` exactly when the ship is not in the ships table; otherwise the ship's reference column for the kind |
| Comparator.Zip | test_ships.py:27 | `dict(zip(names, values))` with distinct names: the i-th name is bound to the i-th value for every i below both lengths, and no other name is a key |
| Comparator.ZipSize | test_ships.py:27 | the zipped record has as many entries as the shorter of names and values, as Python's `zip` truncates |
| Comparator.FetchComponentParams | test_ships.py:16-27 | an absent component gives the empty record; a present one binds each of the kind's parameter names to the stored value in its column; no other key appears |
| Comparator.FetchedEmptyIff | test_ships.py:47-58 | a fetched record is empty exactly when the component is absent or its row has no values, the cases the test reports as missing records |
| Comparator.FetchedFull | test_ships.py:16-27 | on well-shaped tables a fetched record is non-empty and holds every parameter of the kind |
| Comparator.Check | test_ships.py:29-73 | the verdict of one (ship, kind) test; defined by its body, and described by CheckOrderShips, CheckOrderRecords, CheckPassIff and CheckFirstDifference |
| Comparator.CompareParams | test_ships.py:60-73 | the loop over the original record: passes exactly when every original parameter is present in the randomized record with the same value; otherwise reports a missing parameter or a differing value, with both values, at the first offending parameter in list order |
| Comparator.CheckOrderShips | test_ships.py:32-45 | the test fails with missing ids exactly when the ship is absent from either database, before any other check; otherwise it fails with a reference mismatch, original id expected and randomized id actual, exactly when the references differ |
| Comparator.CheckOrderRecords | test_ships.py:47-58 | with equal references, the test fails on a missing original record first; only after that does it fail on a missing randomized record; each failure names the component and kind |
| Comparator.CheckComparesRows | test_ships.py:47-73 | with equal references resolving in both databases, the verdict is the parameter comparison of the two fetched records |
| Comparator.AgreeIffRowsEqual | test_ships.py:60-73 | two fetched well-shaped records agree on every parameter exactly when the stored rows are equal |
| Comparator.CheckPassIff | test_ships.py:29-73 | the test passes exactly when the ship is in both databases with the same reference, that reference resolves in both, and both rows are equal |
| Comparator.NoParamMissing | test_ships.py:60-65 | on well-shaped tables the "parameter missing" failure is never reported |
| Comparator.CheckFirstDifference | test_ships.py:60-73 | when column j is the first column where the rows differ, the test fails at parameter j with the original value expected and the randomized value actual |
| Randomizer.SwapShip | conftest.py:37-56 | one ship's swap: no other kind's reference changes; the ship is unchanged when the kind has no other component; otherwise the new reference is an existing component different from the current one |
| Randomizer.SwapAll | conftest.py:34-56 | strategy A keeps the set of ships and writes only the ships table |
| Randomizer.SwapAllEffect | conftest.py:34-56 | strategy A leaves component tables and the non-chosen kinds as they were; the chosen reference changes exactly when an alternative exists, and then to an existing component |
| Randomizer.SwapAllConsistent | conftest.py:42-54 | references that resolved before strategy A still resolve after it |
| Randomizer.SwapAllWellShaped | conftest.py:30-56 | strategy A keeps the column layout of a well-shaped database |
| Randomizer.SingleComponentNeverSwapped | conftest.py:51-53 | with a single component of a kind, no reference to that kind changes |
| Randomizer.ComponentSwap | conftest.py:30-56 | the loop over `SELECT ship FROM ships`, swapping one ship at a time, computes the same database as the ship-by-ship definition `SwapAll` |
| Schema.ChangeBound | conftest.py:61 | the per-kind cap on sampled components: 3 for weapons (line 61), 2 for hulls (line 71) and 2 for engines (line 80); SampleLimit states its use |
| Randomizer.SampleLimit | conftest.py:61 | the upper end of the sample size: exactly min(bound, n) for a non-empty population of n, and 1 for an empty one; always between 1 and the kind's bound (3, 2, 2) |
| Randomizer.EditedIdsCount | conftest.py:62 | sampling without replacement touches exactly as many components as were sampled |
| Randomizer.SetParam | conftest.py:67 | an `UPDATE` of one column: the row keeps its length, holds the new value in the parameter's column, and every other column is kept |
| Randomizer.SetParamOnlyParam | conftest.py:63-67 | overwriting one parameter leaves every other parameter of the kind unchanged, and an in-range row stays in range after an in-range write |
| Randomizer.WriteEdits | conftest.py:63-67 | the update loop over the sampled ids: the table keeps its ids and layout; unsampled rows are unchanged; each sampled row is its old row with the one drawn parameter overwritten |
| Randomizer.WriteEditsInRange | conftest.py:64-65 | new values drawn from 1..20 keep every stored value within 1..20 |
| Randomizer.ChangeKind | conftest.py:58-67 | the step for one kind fails exactly when the table is empty, with a sample of size 1 from a population of 0; otherwise only that kind's table changes, to the written edits, and the layout is kept |
| Randomizer.ParameterChange | conftest.py:57-85 | strategy B fails exactly when some table is empty, naming the first empty kind in weapon-hull-engine order; otherwise the ships table is unchanged and each table holds its own kind's edits |
| Randomizer.ParameterChangeSucceeds | conftest.py:57-85 | with every table populated, strategy B succeeds and keeps the column layout |
| Randomizer.DrawsAreEdits | conftest.py:61-62 | on a populated table a drawn sample is a list of distinct existing ids with valid parameters and values |
| Enumeration.TestCases | conftest.py:106-113 | the nested loop yields 3·n cases; case m is ship m / 3 with kind m % 3 (weapon, hull, engine) |
| Dataset.ListingLength | conftest.py:102-103 | a listing of every ship exactly once is as long as the ships table |
| Enumeration.CrossProductMembers | conftest.py:102-113 | with the ship ids listed from the ships table, there are three cases per ship, and a (ship, kind) pair is a case exactly when the ship is in the table |
| Enumeration.CrossProductDistinct | conftest.py:102-113 | with the ship ids listed from the ships table, no (ship, kind) case repeats |
| Seed.Decimal | create_db.py:49 | the digits `f'{i}'` writes for a natural number: never empty, at least two from 10 on; DecimalInjective states that distinct numbers print differently |
| Seed.NumberedSeq | create_db.py:47-49 | the ids of `range(1, count + 1)` with a prefix, `count` of them; NumberedSeqSpec states their form and distinctness |
| Seed.DecimalInjective | create_db.py:49 | different numbers print as different decimal strings |
| Seed.NumberedIdInjective | create_db.py:49 | `f'{prefix}{i}'` ids with different numbers differ |
| Seed.NumberedSeqSpec | create_db.py:47-49 | the id list of `range(1, count + 1)` holds `prefix(i+1)` at index i, and its ids are distinct |
| Seed.InsertRows | create_db.py:56 | inserting rows under distinct keys gives a table whose keys are exactly those keys, each bound to its row |
| Seed.PopulateComponents | create_db.py:45-83 | `count` rows with ids `<Kind>-1`..`<Kind>-count`, returned in order and distinct; row i is the i-th draw; the table has `count` rows of the kind's width, with values in 1..20 |
| Seed.PopulateShips | create_db.py:85-99 | nothing is inserted when an id list is missing or empty; otherwise ships `Ship-1`..`Ship-count`, ship i built from the i-th picks, each reference a member of the given id list |
| Seed.Generate | create_db.py:109-115 | the generated database is well-shaped, every reference resolves, all values are in 1..20, and the table sizes are the requested counts |
| RoundTrip.UntouchedPasses | test_ships.py:29-73 | a (ship, kind) pair whose reference and referenced row are unchanged passes |
| RoundTrip.SwapVerdict | conftest.py:30-56 | after strategy A, a test fails with the swap's reference mismatch, old id expected and new id actual, exactly when the swap hit that kind and had a candidate; otherwise it passes |
| RoundTrip.EditedComponentVerdict | conftest.py:63-67 | a component written once gives a pass when the old value was written back, and otherwise a mismatch at that parameter, old value expected and new value actual |
| RoundTrip.EditedKindVerdict | conftest.py:63-67 | for a kind whose table was rewritten: an unsampled component passes, and a sampled one yields the verdict of its write |
| RoundTrip.ParameterChangeVerdict | conftest.py:57-85 | after strategy B on populated tables, every test of (ship, kind) passes or reports exactly the write to the ship's component of that kind |

## Left out

- SQLite, SQL strings and the table definitions (`create_tables`). Tables are maps; the column layout is the `WellShaped` predicate.
- File copy and removal, the existence check with `pytest.exit`, connections, commits and `print`. This is process and I/O, not logic.
- The distributions of `random.randint`, `random.choice` and `random.sample`. The drawn values are inputs; preconditions restrict them to the values the calls can return.
- The coin flip choosing the strategy (`conftest.py:27`). The two strategies are separate operations, and each has its own round-trip lemma.
- The order of the id lists that `random.choice` picks from in strategy A. Tables are maps, so only membership of the replacement is modelled.
- Strategy A reads the current reference from the randomized copy, not the original. Every ship is visited once, so that copy still holds the original reference; the model reads it from the ships map being updated.
- The original database is never written. The model's operations are functions of values that return a new database, so "the original is unchanged" holds by construction and has no lemma.
- The comparator is a function, so evaluating it twice gives the same verdict by construction.
- NULL values and NULL references. The generator writes neither, and rows are sequences of integers.
- The default counts of `main` (20 weapons, 5 hulls, 6 engines, 200 ships). `Generate` takes the counts through the lengths of its inputs, so the defaults are one instance.
- Text of the failure messages. Each failure is a `Verdict` constructor carrying the values the message prints.
