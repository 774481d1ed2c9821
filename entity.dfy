/** The employee entity: six fields updated in place by chaining setters, a
    two-mode constructor (load by id, or create from a field array and save),
    two wrappers around the storage gateway, and the display conversions. */
module Entity {
  import opened Records
  import opened Storage

  /** The field values of an object whose typed properties are not yet initialised. */
  const BLANK := Fields(0, "", "", Date(0), 0, "")

  /** The gender for a display label (the partner of ConvertBinaryToGender). */
  ghost function BinaryOfLabel(text: string): Option<int> {
    if text == "Female" then Some(0) else if text == "Male" then Some(1) else None
  }

  class Employee {
    var id: int
    var name: string
    var lastName: string
    var birthDate: Date
    var gender: int
    var birthCity: string
    const dataBase: DataBase

    function Record(): Fields
      reads this
    {
      Fields(id, name, lastName, birthDate, gender, birthCity)
    }

    constructor Blank(dataBase: DataBase)
      ensures this.dataBase == dataBase && Record() == BLANK
    {
      this.dataBase := dataBase;
      id, name, lastName := BLANK.id, BLANK.name, BLANK.lastName;
      birthDate, gender, birthCity := BLANK.birthDate, BLANK.gender, BLANK.birthCity;
    }

    /** `new Employee($dataBase, $id, $dataFields)`: with an id, load that row; without one,
        set the fields from `dataFields` and save them as a new row. */
    static method New(dataBase: DataBase, id: Option<int>, dataFields: Option<FieldMap>)
      returns (r: Result<Employee>)
      requires dataBase.Valid()
      modifies dataBase
      ensures dataBase.Valid()
      ensures r.Success? ==> fresh(r.value) && r.value.dataBase == dataBase
      // load by id: fields come from the row, nothing is saved
      ensures id.Some? ==> dataBase.rows == old(dataBase.rows) && dataBase.nextId == old(dataBase.nextId)
      ensures id.Some? ==> dataBase.log == old(dataBase.log) + SelectSent(id.value)
      ensures id.Some? ==> (r.Success? <==> Lookup(old(dataBase.rows), id.value).Success?)
      ensures id.Some? && r.Success? ==> r.value.Record() == FieldsOf(id.value, old(dataBase.rows)[id.value])
      ensures id.Some? && r.Failure? ==> r.error == Lookup(old(dataBase.rows), id.value).error
      // create from fields: a null or ill-typed array stops before the store is touched
      ensures id.None? && dataFields.None? ==> r == Failure(TypeError(NullArgument)) && unchanged(dataBase)
      ensures id.None? && dataFields.Some? && ValidPrefix(dataFields.value) < 6 ==>
                r == Failure(TypeError(FieldArgument(KeyAt(ValidPrefix(dataFields.value))))) && unchanged(dataBase)
      // otherwise exactly one row is inserted, and the store's id is not written back
      ensures id.None? && dataFields.Some? && ValidPrefix(dataFields.value) == 6 ==>
                r.Success? && r.value.Record() == Overlay(BLANK, dataFields.value, 6) &&
                r.value.id == dataFields.value[ID_KEY].i &&
                dataBase.rows == old(dataBase.rows)[old(dataBase.nextId) := RowOf(r.value.Record())] &&
                dataBase.nextId == old(dataBase.nextId) + 1 &&
                dataBase.log == old(dataBase.log) + [Insert(RowOf(r.value.Record()))]
    {
      var e := new Employee.Blank(dataBase);
      if id.Some? {
        var fields := dataBase.GetEmployeeById(id.value);
        if fields.Failure? {
          return Failure(fields.error);
        }
        DecodeEncode(FieldsOf(id.value, dataBase.rows[id.value]), e.Record());
        // an array produced by the gateway always carries all six well-typed keys
        var loaded := e.SetAllFields(Some(fields.value));
        return Success(e);
      } else {
        var filled := e.SetAllFields(dataFields);
        if filled.Failure? {
          return Failure(filled.error);
        }
        // the store's insert cannot fail, so the save's outcome is always true
        var saved := e.SaveEmployeeToDataBase();
        return Success(e);
      }
    }

    method SetId(id: int) returns (self: Employee)
      modifies this
      ensures self == this && Record() == old(Record()).(id := id)
    {
      this.id := id;
      self := this;
    }

    method SetName(name: string) returns (self: Employee)
      modifies this
      ensures self == this && Record() == old(Record()).(name := name)
    {
      this.name := name;
      self := this;
    }

    method SetLastName(lastName: string) returns (self: Employee)
      modifies this
      ensures self == this && Record() == old(Record()).(lastName := lastName)
    {
      this.lastName := lastName;
      self := this;
    }

    method SetBirthDate(birthDate: Date) returns (self: Employee)
      modifies this
      ensures self == this && Record() == old(Record()).(birthDate := birthDate)
    {
      this.birthDate := birthDate;
      self := this;
    }

    method SetGender(gender: int) returns (self: Employee)
      modifies this
      ensures self == this && Record() == old(Record()).(gender := gender)
    {
      this.gender := gender;
      self := this;
    }

    method SetBirthCity(birthCity: string) returns (self: Employee)
      modifies this
      ensures self == this && Record() == old(Record()).(birthCity := birthCity)
    {
      this.birthCity := birthCity;
      self := this;
    }

    /** Assigns the six entries in order through the setters; a missing or mistyped entry
        raises a TypeError at its setter, after the earlier entries were assigned. */
    method SetAllFields(fields: Option<FieldMap>) returns (r: Result<()>)
      modifies this
      ensures fields.None? ==> r == Failure(TypeError(NullArgument)) && Record() == old(Record())
      ensures fields.Some? ==> Record() == Overlay(old(Record()), fields.value, ValidPrefix(fields.value))
      ensures fields.Some? ==> (r.Success? <==> ValidPrefix(fields.value) == 6)
      ensures fields.Some? && r.Failure? ==> r.error == TypeError(FieldArgument(KeyAt(ValidPrefix(fields.value))))
    {
      if fields.None? {
        return Failure(TypeError(NullArgument));
      }
      var m := fields.value;
      var v := Index(m, ID_KEY);
      if !IsInt(v) {
        return Failure(TypeError(FieldArgument("id")));
      }
      var self := SetId(v.value.i);
      v := Index(m, NAME_KEY);
      if !IsString(v) {
        return Failure(TypeError(FieldArgument("name")));
      }
      self := self.SetName(v.value.s);
      v := Index(m, LAST_NAME_KEY);
      if !IsString(v) {
        return Failure(TypeError(FieldArgument("lastName")));
      }
      self := self.SetLastName(v.value.s);
      v := Index(m, BIRTH_DATE_KEY);
      if !IsDate(v) {
        return Failure(TypeError(FieldArgument("birthDate")));
      }
      self := self.SetBirthDate(v.value.d);
      v := Index(m, GENDER_KEY);
      if !IsInt(v) {
        return Failure(TypeError(FieldArgument("gender")));
      }
      self := self.SetGender(v.value.i);
      v := Index(m, BIRTH_CITY_KEY);
      if !IsString(v) {
        return Failure(TypeError(FieldArgument("birthCity")));
      }
      self := self.SetBirthCity(v.value.s);
      r := Success(());
    }

    /** The array of the six fields; decoding it gives back exactly these fields. */
    function GetEmployeeDataAsArray(): (a: FieldMap)
      reads this
      ensures a.Keys == {ID_KEY, NAME_KEY, LAST_NAME_KEY, BIRTH_DATE_KEY, GENDER_KEY, BIRTH_CITY_KEY}
      ensures ValidPrefix(a) == 6 && Overlay(BLANK, a, 6) == Record()
    {
      EncodedKeys(Record(), 0);
      DecodeEncode(Record(), BLANK);
      Encode(Record())
    }

    method SaveEmployeeToDataBase() returns (r: Result<bool>)
      requires dataBase.Valid()
      modifies dataBase
      ensures dataBase.Valid()
      ensures r == Success(true)
      ensures Record() == old(Record())
      ensures dataBase.rows == old(dataBase.rows)[old(dataBase.nextId) := RowOf(Record())]
      ensures dataBase.nextId == old(dataBase.nextId) + 1
      ensures dataBase.log == old(dataBase.log) + [Insert(RowOf(Record()))]
    {
      var id := dataBase.SaveEmployee(Record());
      r := Rewrap(Success(id != 0), SaveFailed);
    }

    /** Deletes the row of the argument id (not of this entity's own id). */
    method DeleteEmployeeFromDataBase(id: int) returns (r: Result<bool>)
      requires dataBase.Valid()
      modifies dataBase
      ensures dataBase.Valid() && dataBase.nextId == old(dataBase.nextId)
      ensures Record() == old(Record())
      ensures dataBase.log == old(dataBase.log) + DeleteSent(id)
      ensures DeleteOne(old(dataBase.rows), id).Success? ==>
                r == Success(true) && dataBase.rows == DeleteOne(old(dataBase.rows), id).value
      ensures DeleteOne(old(dataBase.rows), id).Failure? ==>
                r == Failure(DeleteFailed) && dataBase.rows == old(dataBase.rows)
    {
      var response := dataBase.DeleteEmployeeById(id);
      r := Rewrap(response, DeleteFailed);
    }

    static function ConvertBinaryToGender(binary: int): (r: Result<string>)
      ensures r.Success? <==> binary == 0 || binary == 1
      ensures r.Failure? ==> r.error == InvalidGender
      ensures r.Success? ==> BinaryOfLabel(r.value) == Some(binary)
    {
      if binary == 0 then Success("Female")
      else if binary == 1 then Success("Male")
      else Failure(InvalidGender)
    }

    /** The display array of `employee` (read from the argument, never from `this`): the age
        replaces the birth date and the label replaces the gender when asked for.
        `ageOf` stands for the clock-dependent age conversion. */
    function FormatEmployee(employee: Employee, ageFormatting: bool, genderFormatting: bool, ageOf: Date -> int)
      : (r: Result<FieldMap>)
      reads employee
      ensures r.Failure? <==> genderFormatting && employee.gender != 0 && employee.gender != 1
      ensures r.Failure? ==> r.error == InvalidGender
      ensures r.Success? ==> r.value.Keys == employee.GetEmployeeDataAsArray().Keys
      ensures r.Success? ==> forall key :: key in r.value && key != BIRTH_DATE_KEY && key != GENDER_KEY ==>
                               r.value[key] == employee.GetEmployeeDataAsArray()[key]
      ensures r.Success? ==> r.value[BIRTH_DATE_KEY] ==
                               if ageFormatting then IntValue(ageOf(employee.birthDate)) else DateValue(employee.birthDate)
      ensures r.Success? ==> r.value[GENDER_KEY] ==
                               if genderFormatting then StringValue(ConvertBinaryToGender(employee.gender).value)
                               else IntValue(employee.gender)
    {
      var data := employee.GetEmployeeDataAsArray();
      var data := if ageFormatting then data[BIRTH_DATE_KEY := IntValue(ageOf(data[BIRTH_DATE_KEY].d))] else data;
      if genderFormatting then
        match ConvertBinaryToGender(data[GENDER_KEY].i)
        case Failure(e) => Failure(e)
        case Success(text) => Success(data[GENDER_KEY := StringValue(text)])
      else Success(data)
    }
  }

  /** Saving a record and loading the id the store returns gives back the record's fields
      under that fresh id: the array found is fully well typed and decodes to `f` with `id`
      replaced. */
  lemma SaveLoadRoundTrip(rows: map<int, Row>, nextId: int, f: Fields)
    requires TableInvariant(rows, nextId)
    ensures var r := Lookup(rows[nextId := RowOf(f)], nextId);
            r.Success? && ValidPrefix(r.value) == 6 && Overlay(BLANK, r.value, 6) == f.(id := nextId)
  {
    var saved := rows[nextId := RowOf(f)];
    assert FieldsOf(nextId, saved[nextId]) == f.(id := nextId);
    DecodeEncode(f.(id := nextId), BLANK);
  }

  /** Without flags the display array is the employee's array unchanged. */
  lemma FormatUnflagged(self: Employee, employee: Employee, ageOf: Date -> int)
    ensures self.FormatEmployee(employee, false, false, ageOf) == Success(employee.GetEmployeeDataAsArray())
  {
  }

  /** With only the gender flag, the result differs from the employee's array in the gender entry alone. */
  lemma FormatGenderOnly(self: Employee, employee: Employee, ageOf: Date -> int)
    requires employee.gender == 0 || employee.gender == 1
    ensures self.FormatEmployee(employee, false, true, ageOf) ==
            Success(employee.GetEmployeeDataAsArray()[GENDER_KEY := StringValue(if employee.gender == 0 then "Female" else "Male")])
  {
  }
}
