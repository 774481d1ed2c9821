/** The employee list processor: selects ids with a comparison against a number,
    keeps that id list, and reads or deletes the listed employees one by one. */
module Bulk {
  import opened Records
  import opened Storage

  /** The operators the processor lets through to the storage gateway. */
  function SupportedOperator(op: string): (ok: bool)
    ensures ok <==> op in {"<", ">", "!="}
    ensures ok ==> SqlComparison(op) == Some(if op == "<" then Lt else if op == ">" then Gt else Ne)
  {
    !(op != "<" && op != ">" && op != "!=")
  }

  /** The operator `<=` is refused here although the store would run it. */
  lemma ValidationIsStricterThanStore()
    ensures !SupportedOperator("<=") && SqlComparison("<=").Some?
  {
  }

  // ---------------------------------------------------------------------------
  // Reading the listed employees

  /** What one visit of the read loop appends: `getEmployeeById($id)[0]` when it is set. */
  function Kept(fetched: FieldMap): seq<Value> {
    var data := Index(fetched, IntKey(0));
    if data.Some? then [data.value] else []
  }

  /** The read loop over `ids` in list order: the first lookup that throws ends it. */
  function ReadAll(rows: map<int, Row>, ids: seq<int>): Result<seq<Value>>
    decreases |ids|
  {
    if ids == [] then Success([])
    else match ReadAll(rows, ids[..|ids| - 1])
      case Failure(e) => Failure(e)
      case Success(acc) =>
        match Lookup(rows, ids[|ids| - 1])
        case Failure(e) => Failure(e)
        case Success(fetched) => Success(acc + Kept(fetched))
  }

  /** The statements the read loop sends: one lookup per visited id, up to the first that throws. */
  function ReadSent(rows: map<int, Row>, ids: seq<int>): seq<Statement>
    decreases |ids|
  {
    if ids == [] then []
    else if ReadAll(rows, ids[..|ids| - 1]).Failure? then ReadSent(rows, ids[..|ids| - 1])
    else ReadSent(rows, ids[..|ids| - 1]) + SelectSent(ids[|ids| - 1])
  }

  /** Once a prefix of the list has failed, the whole read fails with the same error, and no
      statement is sent for the ids after it. */
  lemma {:induction false} ReadAllFailureSticks(rows: map<int, Row>, ids: seq<int>, k: nat)
    requires k <= |ids|
    requires ReadAll(rows, ids[..k]).Failure?
    ensures ReadAll(rows, ids) == ReadAll(rows, ids[..k])
    ensures ReadSent(rows, ids) == ReadSent(rows, ids[..k])
    decreases |ids|
  {
    if k < |ids| {
      var init := ids[..|ids| - 1];
      assert init[..k] == ids[..k];
      ReadAllFailureSticks(rows, init, k);
    } else {
      assert ids[..k] == ids;
    }
  }

  /** A completed read returns nothing: an existing row's array is keyed by field name, so
      index 0 is never set; hence the result is never longer than the id list. */
  lemma {:induction false} ReadAllKeepsNothing(rows: map<int, Row>, ids: seq<int>)
    ensures ReadAll(rows, ids).Success? ==> ReadAll(rows, ids).value == [] && |ReadAll(rows, ids).value| <= |ids|
    decreases |ids|
  {
    if ids != [] {
      ReadAllKeepsNothing(rows, ids[..|ids| - 1]);
      var last := ids[|ids| - 1];
      if 0 <= last && last in rows {
        EncodedKeys(FieldsOf(last, rows[last]), 0);
      }
    }
  }

  /** The read throws exactly when some listed id is negative or has no row; the error is
      that of the first such id. */
  lemma {:induction false} ReadAllFailsOnFirstMissing(rows: map<int, Row>, ids: seq<int>)
    ensures ReadAll(rows, ids).Failure? <==> exists i :: 0 <= i < |ids| && Lookup(rows, ids[i]).Failure?
    ensures ReadAll(rows, ids).Failure? ==>
              exists i :: 0 <= i < |ids| && Lookup(rows, ids[i]).Failure? &&
                          ReadAll(rows, ids).error == Lookup(rows, ids[i]).error &&
                          forall j :: 0 <= j < i ==> Lookup(rows, ids[j]).Success?
    decreases |ids|
  {
    if ids != [] {
      var init := ids[..|ids| - 1];
      ReadAllFailsOnFirstMissing(rows, init);
      forall i | 0 <= i < |init| ensures init[i] == ids[i] { }
      if ReadAll(rows, init).Failure? {
        var i :| 0 <= i < |init| && Lookup(rows, init[i]).Failure? &&
                 ReadAll(rows, init).error == Lookup(rows, init[i]).error &&
                 forall j :: 0 <= j < i ==> Lookup(rows, init[j]).Success?;
        assert Lookup(rows, ids[i]).Failure?;
      } else if Lookup(rows, ids[|ids| - 1]).Failure? {
        assert forall j :: 0 <= j < |ids| - 1 ==> Lookup(rows, ids[j]).Success?;
      } else {
        forall i | 0 <= i < |ids| ensures Lookup(rows, ids[i]).Success? {
          if i < |init| { assert ids[i] == init[i]; }
        }
      }
    }
  }

  // ---------------------------------------------------------------------------
  // Deleting the listed employees

  /** The table after a fail-fast delete loop and the exception that stopped it, if any. */
  datatype BulkDelete = BulkDelete(table: map<int, Row>, failure: Option<Error>)

  function DeleteAll(rows: map<int, Row>, ids: seq<int>): BulkDelete
    decreases |ids|
  {
    if ids == [] then BulkDelete(rows, None)
    else match DeleteOne(rows, ids[0])
      case Failure(e) => BulkDelete(rows, Some(e))
      case Success(rest) => DeleteAll(rest, ids[1..])
  }

  /** The statements the delete loop sends: one per visited id, up to the first that throws. */
  function DeleteAllSent(rows: map<int, Row>, ids: seq<int>): seq<Statement>
    decreases |ids|
  {
    if ids == [] then []
    else DeleteSent(ids[0]) + match DeleteOne(rows, ids[0])
      case Failure(_) => []
      case Success(rest) => DeleteAllSent(rest, ids[1..])
  }

  /** One visit of the delete loop: the first id is deleted or ends the loop. */
  lemma DeleteStep(rows: map<int, Row>, ids: seq<int>)
    requires ids != []
    ensures DeleteOne(rows, ids[0]).Failure? ==>
              DeleteAll(rows, ids) == BulkDelete(rows, Some(DeleteOne(rows, ids[0]).error)) &&
              DeleteAllSent(rows, ids) == DeleteSent(ids[0])
    ensures DeleteOne(rows, ids[0]).Success? ==>
              DeleteAll(rows, ids) == DeleteAll(DeleteOne(rows, ids[0]).value, ids[1..]) &&
              DeleteAllSent(rows, ids) == DeleteSent(ids[0]) + DeleteAllSent(DeleteOne(rows, ids[0]).value, ids[1..])
  {
  }

  /** How many leading ids the delete loop removes before it stops. */
  function Completed(rows: map<int, Row>, ids: seq<int>): nat
    decreases |ids|
  {
    if ids == [] then 0
    else match DeleteOne(rows, ids[0])
      case Failure(_) => 0
      case Success(rest) => 1 + Completed(rest, ids[1..])
  }

  /** The delete loop removes exactly the ids before the first failing one, each of which had
      a row; every row of a later id is untouched; the failing id is refused by the table
      left at that point, and the loop stops early exactly when an error is raised. */
  lemma {:induction false} DeleteAllEffect(rows: map<int, Row>, ids: seq<int>)
    ensures var k := Completed(rows, ids);
            var o := DeleteAll(rows, ids);
            k <= |ids| &&
            (o.failure.None? <==> k == |ids|) &&
            o.table == rows - (set j | 0 <= j < k :: ids[j]) &&
            (forall j :: 0 <= j < k ==> ids[j] in rows) &&
            (o.failure.Some? ==> DeleteOne(o.table, ids[k]) == Failure(o.failure.value))
    decreases |ids|
  {
    if ids != [] && DeleteOne(rows, ids[0]).Success? {
      var rest := DeleteOne(rows, ids[0]).value;
      var tail := ids[1..];
      DeleteAllEffect(rest, tail);
      var k := Completed(rest, tail);
      var whole := set j | 0 <= j < k + 1 :: ids[j];
      var later := set j | 0 <= j < k :: tail[j];
      assert whole == {ids[0]} + later by {
        forall x | x in whole ensures x in {ids[0]} + later {
          var j :| 0 <= j < k + 1 && ids[j] == x;
          if j > 0 { assert tail[j - 1] == x; }
        }
        forall x | x in later ensures x in whole {
          var j :| 0 <= j < k && tail[j] == x;
          assert ids[j + 1] == x;
        }
      }
      forall j | 0 <= j < k + 1 ensures ids[j] in rows {
        if j > 0 { assert ids[j] == tail[j - 1]; }
      }
    }
  }

  /** When the loop completes, no listed id has a row any more. */
  lemma DeleteAllRemovesEvery(rows: map<int, Row>, ids: seq<int>)
    requires DeleteAll(rows, ids).failure.None?
    ensures forall i :: 0 <= i < |ids| ==> ids[i] !in DeleteAll(rows, ids).table
    ensures forall id :: id in DeleteAll(rows, ids).table ==> id in rows && DeleteAll(rows, ids).table[id] == rows[id]
  {
    DeleteAllEffect(rows, ids);
    var k := Completed(rows, ids);
    forall i | 0 <= i < |ids| ensures ids[i] in (set j | 0 <= j < k :: ids[j]) { }
  }

  /** With ids [2, 3, 4] and no row 3, id 2 is deleted, the loop stops at 3, and 4 is untouched. */
  lemma PartialDeletion(rows: map<int, Row>)
    requires 2 in rows && 3 !in rows && 4 in rows
    ensures DeleteAll(rows, [2, 3, 4]) == BulkDelete(rows - {2}, Some(DeletionFailed(3)))
  {
    assert [2, 3, 4][1..] == [3, 4];
  }

  // ---------------------------------------------------------------------------

  class EmployeeListProcessor {
    var employeeIds: Option<seq<int>>
    const dataBase: DataBase

    ghost predicate Valid()
      reads this, dataBase
    {
      dataBase.Valid()
    }

    constructor (dataBase: DataBase, employeeIds: seq<int>)
      ensures this.dataBase == dataBase && this.employeeIds == Some(employeeIds)
    {
      this.dataBase := dataBase;
      this.employeeIds := Some(employeeIds);
    }

    /** Refuses an operator outside '<', '>', '!=' before the store is queried. */
    static method FindEmployeesByOperator(dataBase: DataBase, number: int, operator: string)
      returns (r: Result<seq<int>>)
      requires dataBase.Valid()
      modifies dataBase
      ensures dataBase.Valid()
      ensures !SupportedOperator(operator) ==> r == Failure(UnsupportedOperator) && unchanged(dataBase)
      ensures SupportedOperator(operator) ==>
                r == IdsQuery(old(dataBase.rows), old(dataBase.nextId), number, operator) &&
                dataBase.rows == old(dataBase.rows) && dataBase.nextId == old(dataBase.nextId) &&
                dataBase.log == old(dataBase.log) + [SelectByOperator(number, operator)]
    {
      if operator != "<" && operator != ">" && operator != "!=" {
        return Failure(UnsupportedOperator);
      }
      r := dataBase.GetEmployeeIdsByOperator(number, operator);
    }

    /** `new EmployeeListProcessor($number, $operator, $dataBase)`: stores the query's id list. */
    static method New(number: int, operator: string, dataBase: DataBase) returns (r: Result<EmployeeListProcessor>)
      requires dataBase.Valid()
      modifies dataBase
      ensures dataBase.Valid()
      ensures !SupportedOperator(operator) ==> r == Failure(UnsupportedOperator) && unchanged(dataBase)
      ensures SupportedOperator(operator) ==>
                dataBase.rows == old(dataBase.rows) && dataBase.nextId == old(dataBase.nextId) &&
                dataBase.log == old(dataBase.log) + [SelectByOperator(number, operator)]
      ensures SupportedOperator(operator) ==>
                var q := IdsQuery(old(dataBase.rows), old(dataBase.nextId), number, operator);
                (r.Success? <==> q.Success?) &&
                (r.Failure? ==> r.error == q.error) &&
                (r.Success? ==> fresh(r.value) && r.value.dataBase == dataBase && r.value.employeeIds == Some(q.value))
    {
      var ids := FindEmployeesByOperator(dataBase, number, operator);
      if ids.Failure? {
        return Failure(ids.error);
      }
      var processor := new EmployeeListProcessor(dataBase, ids.value);
      return Success(processor);
    }

    /** `getEmployeesByIdLsit`: visits the ids in list order and appends each lookup's
        entry 0 when it is set; the table and the id list are left as they were. */
    method GetEmployeesByIdList() returns (r: Result<seq<Value>>)
      requires Valid()
      modifies dataBase
      ensures Valid() && employeeIds == old(employeeIds)
      ensures dataBase.rows == old(dataBase.rows) && dataBase.nextId == old(dataBase.nextId)
      ensures employeeIds.None? ==> r == Failure(IdListEmpty) && unchanged(dataBase)
      ensures employeeIds.Some? ==> r == ReadAll(old(dataBase.rows), employeeIds.value)
      ensures employeeIds.Some? ==> dataBase.log == old(dataBase.log) + ReadSent(old(dataBase.rows), employeeIds.value)
    {
      if employeeIds.None? {
        return Failure(IdListEmpty);
      }
      var ids := employeeIds.value;
      var resultArray: seq<Value> := [];
      var i := 0;
      while i < |ids|
        invariant 0 <= i <= |ids|
        invariant dataBase.Valid()
        invariant dataBase.rows == old(dataBase.rows) && dataBase.nextId == old(dataBase.nextId)
        invariant ReadAll(dataBase.rows, ids[..i]) == Success(resultArray)
        invariant dataBase.log == old(dataBase.log) + ReadSent(dataBase.rows, ids[..i])
      {
        var fetched := dataBase.GetEmployeeById(ids[i]);
        assert ids[..i + 1][..i] == ids[..i];
        if fetched.Failure? {
          ReadAllFailureSticks(dataBase.rows, ids, i + 1);
          return Failure(fetched.error);
        }
        assert ReadAll(dataBase.rows, ids[..i + 1]) == Success(resultArray + Kept(fetched.value));
        var data := Index(fetched.value, IntKey(0));
        ghost var before := resultArray;
        match data {
          case Some(v) => resultArray := resultArray + [v];
          case None =>
        }
        assert resultArray == before + Kept(fetched.value);
        i := i + 1;
      }
      assert ids[..i] == ids;
      r := Success(resultArray);
    }

    /** `deleteEmployeesByIdLsit`: deletes the ids in list order; the first failing delete
        ends the loop with its exception, after the earlier deletions took effect. */
    method DeleteEmployeesByIdList() returns (r: Result<bool>)
      requires Valid()
      modifies dataBase
      ensures Valid() && employeeIds == old(employeeIds)
      ensures dataBase.nextId == old(dataBase.nextId)
      ensures employeeIds.None? ==> r == Failure(IdListEmpty) && unchanged(dataBase)
      ensures employeeIds.Some? ==>
                var o := DeleteAll(old(dataBase.rows), employeeIds.value);
                dataBase.rows == o.table &&
                r == (if o.failure.None? then Success(true) else Failure(o.failure.value)) &&
                dataBase.log == old(dataBase.log) + DeleteAllSent(old(dataBase.rows), employeeIds.value)
    {
      if employeeIds.None? {
        return Failure(IdListEmpty);
      }
      var ids := employeeIds.value;
      var i := 0;
      ghost var sent: seq<Statement> := [];
      while i < |ids|
        invariant 0 <= i <= |ids|
        invariant dataBase.Valid() && dataBase.nextId == old(dataBase.nextId)
        invariant DeleteAll(old(dataBase.rows), ids) == DeleteAll(dataBase.rows, ids[i..])
        invariant dataBase.log == old(dataBase.log) + sent
        invariant DeleteAllSent(old(dataBase.rows), ids) == sent + DeleteAllSent(dataBase.rows, ids[i..])
      {
        assert ids[i..][0] == ids[i] && ids[i..][1..] == ids[i + 1..];
        ghost var before := dataBase.rows;
        DeleteStep(before, ids[i..]);
        var deleted := dataBase.DeleteEmployeeById(ids[i]);
        sent := sent + DeleteSent(ids[i]);
        if deleted.Failure? {
          assert deleted.error == DeleteOne(before, ids[i]).error && dataBase.rows == before;
          return Failure(deleted.error);
        }
        assert dataBase.rows == DeleteOne(before, ids[i]).value;
        i := i + 1;
      }
      assert ids[i..] == [];
      r := Success(true);
    }
  }
}
