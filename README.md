# Employee CRUD layer — a Dafny model

This project models a small PHP data-access layer for one entity, the employee. It has three parts:

- **Storage gateway** (`DataBase`, module `Storage`). It fetches a row by id, inserts a row, deletes a row by id, and selects ids with a comparison operator. The MySQL table `employees` becomes a map from id to a five-field `Row`, plus the engine's auto-increment counter `nextId`. A ghost `log` records every statement that reaches the engine. This is how "raises before any query" is stated.
- **Employee entity** (`Employee`, module `Entity`). It has six fields, and each setter changes one field and returns the object. `setAllFields` chains the six setters over a PHP array. `getEmployeeDataAsArray` returns that array. The constructor has two modes: load a row by id, or set the fields from an array and save them. Two wrappers change the exceptions the store throws. There is also the conversion from a gender binary to its label, and `formatEmployee`.
- **List processor** (`EmployeeListProcessor`, module `Bulk`). It checks that the operator is `<`, `>` or `!=`, then stores the ids the store returns. A read loop and a fail-fast delete loop run over that id list.

Module `Records` holds the shared values:

- `Result`/`Option` and the error kinds;
- the PHP associative array as `map<ArrayKey, Value>`;
- the `Fields` record and its encoding as that array;
- the decimal text PHP produces when it appends an int to a string.

Exceptions become `Result.Failure`. `Error.IsException()` separates a PHP `Exception` from a `TypeError`. This matters because `catch (Exception $e)` does not catch a `TypeError`.

## Behaviour that follows from the PHP as written

The model follows the code, including where it does not do what its comments and messages suggest. It does not follow the code in three places, each listed under "## Left out": as written, every constructor throws at its `class_exists('X.php')` guard; a load raises a `TypeError` at `setBirthDate` on the driver's date string, after `id`, `name` and `lastName` are set; and binding one variable to the six columns of `SELECT *` fails in the driver. The model takes these guards to pass, birth dates to arrive as dates, and the fetch to yield each matching id. Within those assumptions:

- **Unmatched lookup.** `getEmployeeById` is declared `: array`. When no row matches, it returns the undefined `$employees`. PHP turns that null return into a `TypeError` (`TypeError(NullReturned)`) instead of returning "nothing". `getEmployeeIdsByOperator` does the same when no id matches.
- **Read loop.** The read loop indexes a record keyed by field names with `[0]`. So an id that has a row never adds anything. An id without a row makes the call throw that `TypeError`, and the loop does not catch it. A completed read therefore always returns an empty list (`Bulk.ReadAllKeepsNothing`).
- **Absent mapping.** The parameter of `setAllFields` is declared `array`. Passing null is therefore a `TypeError` (`NullArgument`) before the `isset` check runs. That check, and its "data fields are empty" message, can never fire.
- **Field types.** Under `strict_types`, a missing or mistyped entry makes its setter raise a `TypeError` (`FieldArgument(key)`). By then the earlier setters in the chain have already run. So in create mode the array must carry an `id` entry. The sample driver script passes arrays without one.
- **Id write-back.** The id the store assigns on insert is not written back to the entity.
- **`$conn` guard.** `$conn` is a typed `mysqli` parameter, so `!$conn` is never true. Only `empty($dbname)` is checked, and it is also true for `"0"`.
- **Query result.** `getEmployeeIdsByOperator` overwrites `$ids` on each fetch. It therefore returns one id at most: the greatest matching one, since rows are taken to be fetched in primary-key order.

## Model

| member | source | states |
|---|---|---|
| `Storage.DataBase.Connect` | DataBase.php:33-46 | Fails with the connection error exactly when dbname is PHP-empty ("" or "0"); otherwise a fresh gateway on the given table whose only statement so far is `CREATE DATABASE` |
| `Storage.Lookup` | DataBase.php:70-101 | Negative id: invalid-id error; stored id: the row's six-field array; otherwise the TypeError of returning the undefined variable |
| `Storage.DataBase.GetEmployeeById` | DataBase.php:70-102 | Result equals `Lookup` on the table; negative ids send no statement; table and counter unchanged |
| `Storage.DataBase.SaveEmployee` | DataBase.php:111-134 | Inserts name, lastName, birthDate, gender, birthCity under the old counter value, ignoring the entity's id; returns that fresh id (at least 1, not previously present); existing rows unchanged |
| `Storage.DeleteOne` | DataBase.php:142-162 | Succeeds iff id is non-negative and present, removing exactly that key and keeping every other row; otherwise invalid-id or deletion error carrying the id |
| `Storage.DataBase.DeleteEmployeeById` | DataBase.php:142-162 | Negative id: error, table unchanged, no statement; present id: `true` and exactly that row removed; absent id: deletion error, table unchanged |
| `Records.DeletionMessage` | DataBase.php:155-159 | The deletion error's message is the deletion prefix followed by the id's canonical decimal text: only digits, no leading zero for a positive id, and they read back as the id |
| `Records.DecimalRoundTrip` | DataBase.php:158 | The decimal text of a natural number reads back as that number |
| `Storage.LastSelected` | DataBase.php:178-180 | The last id from the fetch loop is the greatest matching id in range; none is fetched iff no stored id matches |
| `Storage.IdsQueryKeepsLast` | DataBase.php:171-184 | The query returns exactly one id, the greatest stored id satisfying the comparison, and fails iff the operator is not SQL or nothing matches |
| `Storage.DataBase.GetEmployeeIdsByOperator` | DataBase.php:171-184 | Result equals `IdsQuery` on the table; one statement sent; table unchanged |
| `Storage.StoreAcceptsOtherOperators` | DataBase.php:173 | The store does not validate the operator: `<=` runs and returns a matching id |
| `Entity.Employee.New` | Employee.php:58-76 | Load mode: fields are the row's, nothing is inserted, lookup errors propagate; create mode: a null or ill-typed array fails with the store untouched, otherwise exactly one row is inserted and the entity keeps the array's id |
| `Entity.Employee.SetId` | Employee.php:94-98 | Returns the same object; only `id` changes |
| `Entity.Employee.SetName` | Employee.php:116-120 | Returns the same object; only `name` changes |
| `Entity.Employee.SetLastName` | Employee.php:138-142 | Returns the same object; only `lastName` changes |
| `Entity.Employee.SetBirthDate` | Employee.php:160-164 | Returns the same object; only `birthDate` changes |
| `Entity.Employee.SetGender` | Employee.php:182-186 | Returns the same object; only `gender` changes |
| `Entity.Employee.SetBirthCity` | Employee.php:204-208 | Returns the same object; only `birthCity` changes |
| `Entity.Employee.SetAllFields` | Employee.php:280-293 | Null array: TypeError with no field assigned; otherwise the fields before the first missing or mistyped entry are assigned and the rest kept, success iff all six are well typed |
| `Entity.Employee.GetEmployeeDataAsArray` | Employee.php:300-310 | The array has exactly the six field keys and decodes back to the entity's fields |
| `Records.DecodeEncode` | Employee.php:280-310 | An encoded record is fully well typed and decodes to itself over any previous fields |
| `Entity.SaveLoadRoundTrip` | DataBase.php:70-134 | Loading the id an insert returns yields a fully well-typed array that decodes to the saved fields with that fresh id |
| `Entity.Employee.SaveEmployeeToDataBase` | Employee.php:215-225 | Returns true, inserts this entity's row under a fresh id, leaves the entity's fields unchanged (the store's exceptions would go through `Records.Rewrap`, but the modelled insert never throws) |
| `Entity.Employee.DeleteEmployeeFromDataBase` | Employee.php:233-242 | Deletes the argument id: on success true and that row removed; any store failure becomes the delete error (`Records.Rewrap` of an `Exception`) with the table unchanged; one delete statement is sent unless the id is negative; fields unchanged |
| `Entity.Employee.ConvertBinaryToGender` | Employee.php:263-272 | Succeeds iff the binary is 0 or 1, with the label that maps back to it; any other integer gives the gender error |
| `Entity.Employee.FormatEmployee` | Employee.php:320-336 | Reads only the argument employee; fails iff gender formatting meets a gender outside {0,1}; same keys, every entry other than birthDate and gender unchanged, birthDate replaced by the age and gender by its label exactly when asked |
| `Entity.FormatUnflagged` | Employee.php:320-336 | With both flags false the result is the employee's array unchanged |
| `Entity.FormatGenderOnly` | Employee.php:331-333 | With only the gender flag, only the gender entry is replaced, by its label |
| `Records.EncodedKeys` | EmployeeListProcessor.php:76 | An employee's array has only the six field-name keys, so any integer index is unset |
| `Bulk.SupportedOperator` | EmployeeListProcessor.php:52-58 | Accepts exactly `<`, `>` and `!=`, each of which the store reads as the matching comparison |
| `Bulk.ValidationIsStricterThanStore` | EmployeeListProcessor.php:52-60 | `<=` is refused here although the store would run it |
| `Bulk.EmployeeListProcessor.FindEmployeesByOperator` | EmployeeListProcessor.php:50-61 | An unsupported operator fails with no statement sent; otherwise the store's query result |
| `Bulk.EmployeeListProcessor.New` | EmployeeListProcessor.php:33-41 | The processor stores the query's id list on the same gateway; query errors propagate; no row changes |
| `Bulk.ReadAllFailureSticks` | EmployeeListProcessor.php:75-76 | An exception from an earlier id ends the read with that exception |
| `Bulk.ReadAllFailsOnFirstMissing` | EmployeeListProcessor.php:75-79 | The read fails iff some listed id has no successful lookup, with the error of the first such id |
| `Bulk.ReadAllKeepsNothing` | EmployeeListProcessor.php:74-82 | A completed read returns an empty list, hence never longer than the id list |
| `Bulk.EmployeeListProcessor.GetEmployeesByIdList` | EmployeeListProcessor.php:68-83 | No id list: the id-list error with the store untouched; otherwise the ids are read in list order as `ReadAll` says, and the statements sent are `ReadSent`'s (one lookup per visited id, none after the first throw); table and id list unchanged |
| `Bulk.DeleteAllEffect` | EmployeeListProcessor.php:96-98 | The delete loop removes exactly the ids before the first failing one, all of which had rows; every other row is untouched; the failing id is refused by the table at that point |
| `Bulk.DeleteAllRemovesEvery` | EmployeeListProcessor.php:96-100 | After a completed loop no listed id has a row, and every remaining row is unchanged |
| `Bulk.PartialDeletion` | EmployeeListProcessor.php:96-98 | With ids [2, 3, 4] and no row 3: 2 is deleted, the loop stops with the deletion error for 3, 4 is untouched |
| `Bulk.EmployeeListProcessor.DeleteEmployeesByIdList` | EmployeeListProcessor.php:90-101 | No id list: the id-list error with the store untouched; otherwise the table is `DeleteAll`'s, the result is true exactly when no delete failed, and the statements sent are `DeleteAllSent`'s; the id list is unchanged |

## Left out

- The `class_exists('X.php')` guards. They depend on PHP's class registry and on a constant declared in files that are not part of this model.
- MySQL itself: connecting, preparing, binding and closing statements. SQL text is replaced by operations on the map. The engine's error text for a failed connection is a parameter of `Connect`.
- The failure path of `CREATE DATABASE IF NOT EXISTS`. When the guard passes, `Connect` only records the statement.
- `convertBirthDateToAge`. It reads the system clock and uses PHP's calendar arithmetic. `FormatEmployee` takes the age conversion as a parameter `ageOf`.
- Birth dates are opaque `Date` values; this affects `Storage.DataBase.SaveEmployee`, `Storage.Lookup` and `Entity.Employee.New`. The model leaves out two things: their formatting to `'Y-m-d H:i:s'` on insert, and the driver returning them as strings on lookup. Under `strict_types` those strings would not pass `setBirthDate(DateTime)`.
- `Storage.SqlComparison`: the model gives a meaning to these seven comparison texts only: `<`, `>`, `!=`, `<>`, `=`, `<=`, `>=`. Every other text is modelled as a statement the engine refuses (`StatementFailed`), including `<=>`, which MySQL would run.
- SQL injection through the spliced operator. There is no SQL engine in the model.
- In `getEmployeeIdsByOperator`, one variable is bound to a `SELECT *` result. That column-count mismatch is driver behaviour and is not modelled: the fetch yields each matching id.
- The order in which the engine returns rows is taken to be ascending id.
- The plain getters (`getId`, `getName`, …). Each returns one field, and `Employee.Record()` stands for all of them.
- Reading an uninitialised typed property. Objects start from the placeholder `BLANK` fields, and a constructor that fails discards its object.
- The messages of PHP's own `TypeError`s, and the text of engine errors.
- The "data is not set" guard in `saveEmployee` (DataBase.php:114-116). It cannot fire, because `getEmployeeDataAsArray` always returns an array.
- `Entity.Employee.SaveEmployeeToDataBase`: the model's insert cannot fail, so the result is always true. The rewrap of a store exception into the save error is never reached, and the model states nothing about it.
- `index.php`, the driver script with fixed connection parameters and echo output.
