/** The storage gateway: the `employees` table as a map from id to row, with
    the engine's auto-increment counter. SQL text is replaced by operations on
    the map; a ghost log records which statements reached the engine. */
module Storage {
  import opened Records

  /** The statements the gateway sends to the engine. */
  datatype Statement =
    | CreateDatabase(dbname: string)
    | SelectById(id: int)
    | Insert(row: Row)
    | DeleteById(id: int)
    | SelectByOperator(number: int, operator: string)

  /** What an auto-increment table guarantees: ids start at 1 and stay below the counter. */
  ghost predicate TableInvariant(rows: map<int, Row>, nextId: int) {
    1 <= nextId && forall k :: k in rows ==> 1 <= k < nextId
  }

  /** PHP `empty()` on a string: true for "" and for "0". */
  predicate PhpEmpty(s: string) {
    s == "" || s == "0"
  }

  /** The statement a lookup sends: none for a negative id, which is refused first. */
  function SelectSent(id: int): seq<Statement> {
    if id < 0 then [] else [SelectById(id)]
  }

  /** The statement a deletion sends: none for a negative id, which is refused first. */
  function DeleteSent(id: int): seq<Statement> {
    if id < 0 then [] else [DeleteById(id)]
  }

  // ---------------------------------------------------------------------------
  // Specification functions

  /** The row set a `SELECT * FROM employees WHERE id = ?` yields. */
  function RowsWithId(rows: map<int, Row>, id: int): (s: seq<FieldMap>)
    ensures |s| <= 1
  {
    if id in rows then [Encode(FieldsOf(id, rows[id]))] else []
  }

  function Last<T>(s: seq<T>): Option<T> {
    if s == [] then None else Some(s[|s| - 1])
  }

  /** What `getEmployeeById` returns or throws. */
  function Lookup(rows: map<int, Row>, id: int): (r: Result<FieldMap>)
    ensures id < 0 ==> r == Failure(InvalidId)
    ensures 0 <= id && id in rows ==> r == Success(Encode(FieldsOf(id, rows[id])))
    ensures 0 <= id && id !in rows ==> r == Failure(TypeError(NullReturned))
  {
    if id < 0 then Failure(InvalidId)
    else match Last(RowsWithId(rows, id))
      case None => Failure(TypeError(NullReturned))
      case Some(found) => Success(found)
  }

  /** What `deleteEmployeeById` does to the table, or the exception it throws. */
  function DeleteOne(rows: map<int, Row>, id: int): (r: Result<map<int, Row>>)
    ensures r.Success? <==> 0 <= id && id in rows
    ensures r.Success? ==> r.value.Keys == rows.Keys - {id} && forall k :: k in r.value ==> r.value[k] == rows[k]
    ensures r.Failure? ==> r.error == (if id < 0 then InvalidId else DeletionFailed(id))
  {
    if id < 0 then Failure(InvalidId)
    else if id in rows then Success(rows - {id})
    else Failure(DeletionFailed(id))
  }

  /** The comparisons the engine understands in `id <operator> ?`. */
  datatype Comparison = Lt | Gt | Ne | Eq | Le | Ge

  /** How the engine reads the operator text that is spliced into the SQL. */
  function SqlComparison(op: string): Option<Comparison> {
    if op == "<" then Some(Lt)
    else if op == ">" then Some(Gt)
    else if op == "!=" || op == "<>" then Some(Ne)
    else if op == "=" then Some(Eq)
    else if op == "<=" then Some(Le)
    else if op == ">=" then Some(Ge)
    else None
  }

  predicate Holds(c: Comparison, id: int, number: int) {
    match c
    case Lt => id < number
    case Gt => id > number
    case Ne => id != number
    case Eq => id == number
    case Le => id <= number
    case Ge => id >= number
  }

  /** The ids in [lo, hi) that are stored and satisfy the comparison, in ascending (primary-key) order. */
  function Selected(rows: map<int, Row>, c: Comparison, number: int, lo: int, hi: int): seq<int>
    decreases hi - lo
  {
    if lo >= hi then []
    else (if lo in rows && Holds(c, lo, number) then [lo] else []) + Selected(rows, c, number, lo + 1, hi)
  }

  /** The last id fetched is the greatest matching one; none is fetched exactly when nothing matches. */
  lemma {:induction false} LastSelected(rows: map<int, Row>, c: Comparison, number: int, lo: int, hi: int)
    ensures Last(Selected(rows, c, number, lo, hi)).None? <==>
            forall k :: lo <= k < hi && k in rows ==> !Holds(c, k, number)
    ensures Last(Selected(rows, c, number, lo, hi)).Some? ==>
            var m := Last(Selected(rows, c, number, lo, hi)).value;
            lo <= m < hi && m in rows && Holds(c, m, number) &&
            forall k :: m < k < hi && k in rows ==> !Holds(c, k, number)
    decreases hi - lo
  {
    if lo < hi {
      LastSelected(rows, c, number, lo + 1, hi);
      var head := if lo in rows && Holds(c, lo, number) then [lo] else [];
      var tail := Selected(rows, c, number, lo + 1, hi);
      assert Selected(rows, c, number, lo, hi) == head + tail;
      if tail != [] {
        assert Last(head + tail) == Last(tail);
      }
    }
  }

  /** What `getEmployeeIdsByOperator` returns (the values of the array it builds) or throws. */
  function IdsQuery(rows: map<int, Row>, nextId: int, number: int, op: string): Result<seq<int>> {
    match SqlComparison(op)
    case None => Failure(StatementFailed)
    case Some(c) =>
      match Last(Selected(rows, c, number, 1, nextId))
      case None => Failure(TypeError(NullReturned))
      case Some(id) => Success([id])
  }

  /** The query yields one id at most, the greatest matching one, because each fetch overwrites `$ids`. */
  lemma IdsQueryKeepsLast(rows: map<int, Row>, nextId: int, number: int, op: string)
    requires TableInvariant(rows, nextId)
    ensures var r := IdsQuery(rows, nextId, number, op);
            r.Success? ==>
              |r.value| == 1 && r.value[0] in rows &&
              Holds(SqlComparison(op).value, r.value[0], number) &&
              forall k :: k in rows && Holds(SqlComparison(op).value, k, number) ==> k <= r.value[0]
    ensures var r := IdsQuery(rows, nextId, number, op);
            r.Failure? <==>
              SqlComparison(op).None? || forall k :: k in rows ==> !Holds(SqlComparison(op).value, k, number)
  {
    if SqlComparison(op).Some? {
      LastSelected(rows, SqlComparison(op).value, number, 1, nextId);
    }
  }

  /** The operator is not validated here: a comparison the list processor refuses still runs. */
  lemma StoreAcceptsOtherOperators(rows: map<int, Row>, nextId: int)
    requires TableInvariant(rows, nextId) && 1 in rows
    ensures SqlComparison("<=") == Some(Le)
    ensures IdsQuery(rows, nextId, 1, "<=") == Success([1])
  {
    IdsQueryKeepsLast(rows, nextId, 1, "<=");
  }

  // ---------------------------------------------------------------------------

  class DataBase {
    const dbname: string
    var rows: map<int, Row>
    var nextId: int
    ghost var log: seq<Statement>

    ghost predicate Valid()
      reads this
    {
      TableInvariant(rows, nextId)
    }

    /** Runs `CREATE DATABASE IF NOT EXISTS` against an engine holding `rows`. */
    constructor (dbname: string, rows: map<int, Row>, nextId: int)
      requires TableInvariant(rows, nextId)
      ensures Valid()
      ensures this.dbname == dbname && this.rows == rows && this.nextId == nextId
      ensures log == [CreateDatabase(dbname)]
    {
      this.dbname := dbname;
      this.rows := rows;
      this.nextId := nextId;
      log := [CreateDatabase(dbname)];
    }

    /** The public constructor: an empty dbname is refused before any statement is sent. */
    static method Connect(dbname: string, driverError: string, rows: map<int, Row>, nextId: int)
      returns (r: Result<DataBase>)
      requires TableInvariant(rows, nextId)
      ensures r.Failure? <==> PhpEmpty(dbname)
      ensures r.Failure? ==> r.error == ConnectionFailed(driverError)
      ensures r.Success? ==> fresh(r.value) && r.value.Valid() && r.value.dbname == dbname &&
                             r.value.rows == rows && r.value.nextId == nextId &&
                             r.value.log == [CreateDatabase(dbname)]
    {
      if PhpEmpty(dbname) {
        return Failure(ConnectionFailed(driverError));
      }
      var db := new DataBase(dbname, rows, nextId);
      return Success(db);
    }

    method GetEmployeeById(id: int) returns (r: Result<FieldMap>)
      requires Valid()
      modifies this
      ensures Valid() && rows == old(rows) && nextId == old(nextId)
      ensures r == Lookup(old(rows), id)
      ensures log == old(log) + SelectSent(id)
    {
      if id < 0 {
        return Failure(InvalidId);
      }
      log := log + [SelectById(id)];
      var resultSet := RowsWithId(rows, id);
      var employees: Option<FieldMap> := None;
      var i := 0;
      while i < |resultSet|
        invariant 0 <= i <= |resultSet|
        invariant employees == Last(resultSet[..i])
      {
        employees := Some(resultSet[i]);
        i := i + 1;
      }
      assert resultSet[..i] == resultSet;
      // the declared return type `array` refuses the undefined variable
      r := if employees.None? then Failure(TypeError(NullReturned)) else Success(employees.value);
    }

    /** Inserts name, lastName, birthDate, gender and birthCity; the entity's own id is not used. */
    method SaveEmployee(employee: Fields) returns (id: int)
      requires Valid()
      modifies this
      ensures Valid()
      ensures id == old(nextId) && id >= 1 && id !in old(rows)
      ensures rows == old(rows)[id := RowOf(employee)]
      ensures nextId == old(nextId) + 1
      ensures log == old(log) + [Insert(RowOf(employee))]
    {
      var row := RowOf(employee);
      log := log + [Insert(row)];
      id := nextId;
      rows := rows[id := row];
      nextId := nextId + 1;
    }

    method DeleteEmployeeById(id: int) returns (r: Result<bool>)
      requires Valid()
      modifies this
      ensures Valid() && nextId == old(nextId)
      ensures id < 0 ==> r == Failure(InvalidId) && rows == old(rows)
      ensures log == old(log) + DeleteSent(id)
      ensures 0 <= id && id in old(rows) ==> r == Success(true) && rows == old(rows) - {id}
      ensures 0 <= id && id !in old(rows) ==> r == Failure(DeletionFailed(id)) && rows == old(rows)
    {
      if id < 0 {
        return Failure(InvalidId);
      }
      log := log + [DeleteById(id)];
      var affectedRows := if id in rows then 1 else 0;
      rows := rows - {id};
      if affectedRows > 0 {
        r := Success(true);
      } else {
        r := Failure(DeletionFailed(id));
      }
    }

    method GetEmployeeIdsByOperator(number: int, operator: string) returns (r: Result<seq<int>>)
      requires Valid()
      modifies this
      ensures Valid() && rows == old(rows) && nextId == old(nextId)
      ensures log == old(log) + [SelectByOperator(number, operator)]
      ensures r == IdsQuery(old(rows), old(nextId), number, operator)
    {
      log := log + [SelectByOperator(number, operator)];
      var c := SqlComparison(operator);
      if c.None? {
        return Failure(StatementFailed);
      }
      var resultSet := Selected(rows, c.value, number, 1, nextId);
      var ids: Option<seq<int>> := None;
      var i := 0;
      while i < |resultSet|
        invariant 0 <= i <= |resultSet|
        invariant ids == if i == 0 then None else Some([resultSet[i - 1]])
      {
        ids := Some([resultSet[i]]);
        i := i + 1;
      }
      r := if ids.None? then Failure(TypeError(NullReturned)) else Success(ids.value);
    }
  }
}
