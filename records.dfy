/** Values shared by the storage gateway, the employee entity and the list
    processor: outcomes and errors, the PHP array that carries an employee's
    six fields, and the stored row. */
module Records {

  datatype Option<+T> = None | Some(value: T)

  /** The outcome of an operation that may throw. */
  datatype Result<+T> = Success(value: T) | Failure(error: Error)

  /** Why PHP raised a TypeError (an `Error`, which `catch (Exception $e)` does not catch). */
  datatype TypeFault =
    | NullReturned          // a function declared `: array` returned an undefined variable
    | NullArgument          // null passed for a parameter declared `array`
    | FieldArgument(key: string)  // `$fields[key]` missing or of the wrong type for its setter

  datatype Error =
    | ConnectionFailed(detail: string)  // DataBase constructor; detail is the driver's text
    | InvalidId                         // negative id at the storage gateway
    | DeletionFailed(id: int)           // DELETE affected no row
    | StatementFailed                   // the engine refused the SQL text
    | SaveFailed                        // Employee::saveEmployeeToDataBase wrapper
    | DeleteFailed                      // Employee::deleteEmployeeFromDataBase wrapper
    | InvalidGender                     // gender binary other than 0 or 1
    | UnsupportedOperator               // operator outside '<', '>', '!='
    | IdListEmpty                       // bulk operation without a stored id list
    | TypeError(fault: TypeFault)
  {
    /** True for PHP `Exception`s, false for the `TypeError` kind of `Error`. */
    predicate IsException() { !TypeError? }

    /** True when the message text is one of the source's own constants. */
    predicate HasOwnMessage() { !TypeError? && !StatementFailed? }
  }

  const INVALID_ID_MESSAGE := "Emplyoee ID was less than 0"
  const DELETION_PREFIX := "Error deleting user with ID: "
  const CONNECTION_PREFIX := "Connection failed: "
  const SAVE_ERROR_MESSAGE := "Can't save entity to data base"
  const DELETE_ERROR_MESSAGE := "Can't delete entity from data base"
  const BINARY_INPUT_ERROR_MESSAGE := "Invalid gender binary input"
  const UNSUPPORTED_OPERATOR_MESSAGE := "Provided operator is not supported"
  const ID_LIST_EMPTY_MESSAGE := "Id list is empty"

  /** The message an exception carries; PHP string concatenation turns an int into its decimal text. */
  function Message(e: Error): string
    requires e.HasOwnMessage()
  {
    match e
    case ConnectionFailed(detail) => CONNECTION_PREFIX + detail
    case InvalidId => INVALID_ID_MESSAGE
    case DeletionFailed(id) => DELETION_PREFIX + Decimal(id)
    case SaveFailed => SAVE_ERROR_MESSAGE
    case DeleteFailed => DELETE_ERROR_MESSAGE
    case InvalidGender => BINARY_INPUT_ERROR_MESSAGE
    case UnsupportedOperator => UNSUPPORTED_OPERATOR_MESSAGE
    case IdListEmpty => ID_LIST_EMPTY_MESSAGE
  }

  // ---------------------------------------------------------------------------
  // Decimal text of an integer, as PHP's `.` operator produces it

  function DigitChar(d: int): (c: char)
    requires 0 <= d < 10
    ensures '0' <= c <= '9' && c as int - '0' as int == d
  {
    ('0' as int + d) as char
  }

  function NatToDecimal(n: nat): (s: string)
    ensures |s| >= 1
    ensures forall i :: 0 <= i < |s| ==> '0' <= s[i] <= '9'
  {
    if n < 10 then [DigitChar(n)] else NatToDecimal(n / 10) + [DigitChar(n % 10)]
  }

  function Decimal(n: int): string {
    if n < 0 then "-" + NatToDecimal(-n) else NatToDecimal(n)
  }

  /** The value a string of decimal digits denotes (the partner of NatToDecimal). */
  function DecimalValue(s: string): int {
    if s == [] then 0 else DecimalValue(s[..|s| - 1]) * 10 + (s[|s| - 1] as int - '0' as int)
  }

  lemma {:induction false} DecimalRoundTrip(n: nat)
    ensures DecimalValue(NatToDecimal(n)) == n
  {
    if n >= 10 {
      var s := NatToDecimal(n);
      assert s[..|s| - 1] == NatToDecimal(n / 10);
      DecimalRoundTrip(n / 10);
    }
  }

  /** The decimal text of a positive number does not start with a zero. */
  lemma {:induction false} NoLeadingZero(n: nat)
    ensures n > 0 ==> NatToDecimal(n)[0] != '0'
  {
    if n >= 10 {
      NoLeadingZero(n / 10);
    }
  }

  /** A deletion error's message is the deletion prefix followed by the id's canonical
      decimal text: digits only, no leading zero, and they read back as the id. */
  lemma DeletionMessage(id: nat)
    ensures Message(DeletionFailed(id)) == DELETION_PREFIX + NatToDecimal(id)
    ensures var m := Message(DeletionFailed(id));
            |m| > |DELETION_PREFIX| && m[..|DELETION_PREFIX|] == DELETION_PREFIX &&
            (forall i :: |DELETION_PREFIX| <= i < |m| ==> '0' <= m[i] <= '9') &&
            (id > 0 ==> m[|DELETION_PREFIX|] != '0') &&
            DecimalValue(m[|DELETION_PREFIX|..]) == id
  {
    var m := Message(DeletionFailed(id));
    assert m[|DELETION_PREFIX|..] == NatToDecimal(id);
    forall i | |DELETION_PREFIX| <= i < |m| ensures '0' <= m[i] <= '9' {
      assert m[i] == NatToDecimal(id)[i - |DELETION_PREFIX|];
    }
    NoLeadingZero(id);
    DecimalRoundTrip(id);
  }

  // ---------------------------------------------------------------------------
  // PHP arrays carrying employee data

  /** A birth date; the model never looks inside it. */
  datatype Date = Date(stamp: int)

  datatype Value = IntValue(i: int) | StringValue(s: string) | DateValue(d: Date)

  datatype ArrayKey = IntKey(k: int) | StringKey(s: string)

  /** An associative PHP array. */
  type FieldMap = map<ArrayKey, Value>

  /** The six fields of an employee, in the order `setAllFields` assigns them. */
  datatype Fields = Fields(id: int, name: string, lastName: string, birthDate: Date, gender: int, birthCity: string)

  /** A stored row: everything but the id, which is the row's key. */
  datatype Row = Row(name: string, lastName: string, birthDate: Date, gender: int, birthCity: string)

  function FieldsOf(id: int, row: Row): Fields {
    Fields(id, row.name, row.lastName, row.birthDate, row.gender, row.birthCity)
  }

  function RowOf(f: Fields): Row {
    Row(f.name, f.lastName, f.birthDate, f.gender, f.birthCity)
  }

  const ID_KEY := StringKey("id")
  const NAME_KEY := StringKey("name")
  const LAST_NAME_KEY := StringKey("lastName")
  const BIRTH_DATE_KEY := StringKey("birthDate")
  const GENDER_KEY := StringKey("gender")
  const BIRTH_CITY_KEY := StringKey("birthCity")

  /** The array `getEmployeeDataAsArray` builds and `getEmployeeById` returns. */
  function Encode(f: Fields): FieldMap {
    map[ID_KEY := IntValue(f.id), NAME_KEY := StringValue(f.name), LAST_NAME_KEY := StringValue(f.lastName),
        BIRTH_DATE_KEY := DateValue(f.birthDate), GENDER_KEY := IntValue(f.gender),
        BIRTH_CITY_KEY := StringValue(f.birthCity)]
  }

  /** `$array[$key]`: null (None) when the key is absent. */
  function Index(m: FieldMap, key: ArrayKey): Option<Value> {
    if key in m then Some(m[key]) else None
  }

  /** An encoded employee has exactly the six field names as keys, so an integer index finds nothing. */
  lemma EncodedKeys(f: Fields, k: int)
    ensures Encode(f).Keys == {ID_KEY, NAME_KEY, LAST_NAME_KEY, BIRTH_DATE_KEY, GENDER_KEY, BIRTH_CITY_KEY}
    ensures Index(Encode(f), IntKey(k)) == None
  {
  }

  predicate IsInt(v: Option<Value>) { v.Some? && v.value.IntValue? }
  predicate IsString(v: Option<Value>) { v.Some? && v.value.StringValue? }
  predicate IsDate(v: Option<Value>) { v.Some? && v.value.DateValue? }

  /** How many of the six entries, in assignment order, are present and of the type their
      setter declares (under strict_types a null or a mistyped value is a TypeError). */
  function ValidPrefix(m: FieldMap): (k: nat)
    ensures k <= 6
  {
    if !IsInt(Index(m, ID_KEY)) then 0
    else if !IsString(Index(m, NAME_KEY)) then 1
    else if !IsString(Index(m, LAST_NAME_KEY)) then 2
    else if !IsDate(Index(m, BIRTH_DATE_KEY)) then 3
    else if !IsInt(Index(m, GENDER_KEY)) then 4
    else if !IsString(Index(m, BIRTH_CITY_KEY)) then 5
    else 6
  }

  /** The key whose setter raises the TypeError when the prefix stops short. */
  function KeyAt(k: nat): string
    requires k < 6
  {
    ["id", "name", "lastName", "birthDate", "gender", "birthCity"][k]
  }

  /** `cur` with its first `k` fields replaced by the entries of `m`. */
  function Overlay(cur: Fields, m: FieldMap, k: nat): (r: Fields)
    requires k <= ValidPrefix(m)
  {
    Fields(
      if k > 0 then m[ID_KEY].i else cur.id,
      if k > 1 then m[NAME_KEY].s else cur.name,
      if k > 2 then m[LAST_NAME_KEY].s else cur.lastName,
      if k > 3 then m[BIRTH_DATE_KEY].d else cur.birthDate,
      if k > 4 then m[GENDER_KEY].i else cur.gender,
      if k > 5 then m[BIRTH_CITY_KEY].s else cur.birthCity)
  }

  /** Decoding an encoded employee gives back its fields, whatever the fields were before. */
  lemma DecodeEncode(f: Fields, cur: Fields)
    ensures ValidPrefix(Encode(f)) == 6
    ensures Overlay(cur, Encode(f), 6) == f
  {
  }

  /** Rewrapping in `catch (Exception $e) { throw new Exception(WRAPPER); }`. */
  function Rewrap<T>(r: Result<T>, wrapper: Error): Result<T> {
    if r.Failure? && r.error.IsException() then Failure(wrapper) else r
  }
}
