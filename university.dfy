/**
  The roster join of `user_with_department`: validate the users, then the
  departments, build the department lookup (id to name, a later duplicate
  id overwriting an earlier one), walk the users in order emitting
  `{name, department}` and stopping at the first unknown `department_id`,
  and finally write a header record followed by one record per row.

  Reading the two JSON files and encoding the CSV text are not modelled:
  the operation takes the two parsed documents and produces the records
  the CSV writer would be given.
 */
module University {
  import opened Json
  import opened JsonSchema

  datatype Option<T> = None | Some(value: T)

  /** Which collection failed validation ("user" or "department"). */
  datatype Collection = Users | Departments

  /** One element of `output_rows`: the user's name and the department's name. */
  datatype Row = Row(name: string, department: string)

  datatype RosterResult =
    | InvalidInstance(collection: Collection)
    | DepartmentNotFound(id: int)
    | Ok(records: seq<seq<string>>)

  /** The CSV field names, written first as the header record. */
  const Header: seq<string> := ["name", "department"]

  function NameOf(user: Value): string
    requires IsStudent(user)
  {
    user.fields["name"].s
  }

  function DepartmentIdOf(user: Value): int
    requires IsStudent(user)
  {
    user.fields["department_id"].i
  }

  function IdOf(department: Value): int
    requires IsDepartment(department)
  {
    department.fields["id"].i
  }

  function DepartmentNameOf(department: Value): string
    requires IsDepartment(department)
  {
    department.fields["name"].s
  }

  predicate AllStudents(users: seq<Value>)
  {
    forall i :: 0 <= i < |users| ==> IsStudent(users[i])
  }

  predicate AllDepartments(departments: seq<Value>)
  {
    forall i :: 0 <= i < |departments| ==> IsDepartment(departments[i])
  }

  function DepartmentIds(departments: seq<Value>): set<int>
    requires AllDepartments(departments)
  {
    set i | 0 <= i < |departments| :: IdOf(departments[i])
  }

  // ---------------------------------------------------------------------
  // Department lookup

  /**
    The dictionary built from the departments in order: each department
    stores its name under its id, overwriting whatever an earlier
    department with the same id stored. Its keys are exactly the ids.
   */
  function DepartmentLookup(departments: seq<Value>): (lookup: map<int, string>)
    requires AllDepartments(departments)
    ensures lookup.Keys == DepartmentIds(departments)
  {
    if departments == [] then map[]
    else
      var n := |departments| - 1;
      var earlier := departments[..n];
      assert DepartmentIds(departments) == DepartmentIds(earlier) + {IdOf(departments[n])} by {
        assert forall i :: 0 <= i < n ==> earlier[i] == departments[i];
      }
      DepartmentLookup(earlier)[IdOf(departments[n]) := DepartmentNameOf(departments[n])]
  }

  /** Last write wins: an id maps to the name of the last department carrying it. */
  lemma {:induction false} LookupLastWriteWins(departments: seq<Value>, j: nat)
    requires AllDepartments(departments)
    requires j < |departments|
    requires forall l :: j < l < |departments| ==> IdOf(departments[l]) != IdOf(departments[j])
    ensures IdOf(departments[j]) in DepartmentLookup(departments)
    ensures DepartmentLookup(departments)[IdOf(departments[j])] == DepartmentNameOf(departments[j])
  {
    var n := |departments| - 1;
    if j < n {
      var earlier := departments[..n];
      assert earlier[j] == departments[j];
      LookupLastWriteWins(earlier, j);
    }
  }

  // ---------------------------------------------------------------------
  // The join

  /** The position of the first user whose department id is not in the lookup. */
  function FirstUnknown(users: seq<Value>, lookup: map<int, string>): (r: Option<nat>)
    requires AllStudents(users)
    ensures r.None? <==> forall i :: 0 <= i < |users| ==> DepartmentIdOf(users[i]) in lookup
    ensures r.Some? ==>
              && r.value < |users|
              && DepartmentIdOf(users[r.value]) !in lookup
              && forall j :: 0 <= j < r.value ==> DepartmentIdOf(users[j]) in lookup
  {
    if users == [] then None
    else if DepartmentIdOf(users[0]) !in lookup then Some(0)
    else
      assert forall i :: 1 <= i < |users| ==> users[i] == users[1..][i - 1];
      match FirstUnknown(users[1..], lookup)
      case None => None
      case Some(k) => Some(k + 1)
  }

  /** The rows produced for users whose departments are all known: one per user, in order. */
  function JoinedRows(users: seq<Value>, lookup: map<int, string>): (rows: seq<Row>)
    requires AllStudents(users)
    requires forall i :: 0 <= i < |users| ==> DepartmentIdOf(users[i]) in lookup
    ensures |rows| == |users|
    ensures forall i :: 0 <= i < |users| ==>
              rows[i] == Row(NameOf(users[i]), lookup[DepartmentIdOf(users[i])])
  {
    if users == [] then []
    else
      var n := |users| - 1;
      JoinedRows(users[..n], lookup) + [Row(NameOf(users[n]), lookup[DepartmentIdOf(users[n])])]
  }

  /** The records handed to the CSV writer: the header, then each row's fields in header order. */
  function CsvRecords(rows: seq<Row>): (records: seq<seq<string>>)
    ensures |records| == |rows| + 1
    ensures records[0] == Header
    ensures forall k :: 0 <= k < |rows| ==> records[k + 1] == [rows[k].name, rows[k].department]
  {
    if rows == [] then [Header]
    else
      var n := |rows| - 1;
      CsvRecords(rows[..n]) + [[rows[n].name, rows[n].department]]
  }

  /** The join of validated collections: the first unknown department id, or the records. */
  function Join(users: seq<Value>, departments: seq<Value>): (r: RosterResult)
    requires AllStudents(users) && AllDepartments(departments)
    ensures !r.InvalidInstance?
    ensures r.DepartmentNotFound? ==> r.id !in DepartmentIds(departments)
    ensures r.Ok? ==> |r.records| == |users| + 1 && r.records[0] == Header
  {
    var lookup := DepartmentLookup(departments);
    match FirstUnknown(users, lookup)
    case Some(k) => DepartmentNotFound(DepartmentIdOf(users[k]))
    case None => Ok(CsvRecords(JoinedRows(users, lookup)))
  }

  /** What `user_with_department` produces for two parsed documents. */
  function Roster(users: Value, departments: Value): (r: RosterResult)
    ensures r.InvalidInstance? <==>
              !(ValidateJson(users, StudentSchema) && ValidateJson(departments, DepartmentSchema))
    ensures r == InvalidInstance(Users) <==> !ValidateJson(users, StudentSchema)
    ensures r.Ok? ==> users.Array? && |r.records| == |users.items| + 1 && r.records[0] == Header
  {
    if !ValidateJson(users, StudentSchema) then InvalidInstance(Users)
    else if !ValidateJson(departments, DepartmentSchema) then InvalidInstance(Departments)
    else
      ValidUsers(users);
      ValidDepartments(departments);
      Join(users.items, departments.items)
  }

  /**
    `user_with_department` without the file reads and the CSV encoding:
    users are validated, then departments, and only then joined.
   */
  method UserWithDepartment(users: Value, departments: Value) returns (result: RosterResult)
    ensures result == Roster(users, departments)
  {
    if !ValidateJson(users, StudentSchema) {
      return InvalidInstance(Users);
    }
    if !ValidateJson(departments, DepartmentSchema) {
      return InvalidInstance(Departments);
    }
    ValidUsers(users);
    ValidDepartments(departments);
    result := JoinValidated(users.items, departments.items);
  }

  /**
    The part of `user_with_department` after validation: build the lookup,
    collect `output_rows` user by user (stopping at the first unknown
    department id), then hand the header and each row to the writer.
   */
  method JoinValidated(userList: seq<Value>, departmentList: seq<Value>) returns (result: RosterResult)
    requires AllStudents(userList) && AllDepartments(departmentList)
    ensures result == Join(userList, departmentList)
  {
    var deptDict := DepartmentLookup(departmentList);

    var outputRows: seq<Row> := [];
    for i := 0 to |userList|
      invariant forall j :: 0 <= j < i ==> DepartmentIdOf(userList[j]) in deptDict
      invariant outputRows == JoinedRows(userList[..i], deptDict)
    {
      var user := userList[i];
      var depId := DepartmentIdOf(user);
      if depId !in deptDict {
        assert FirstUnknown(userList, deptDict) == Some(i);
        return DepartmentNotFound(depId);
      }
      assert userList[..i + 1][..i] == userList[..i];
      outputRows := outputRows + [Row(NameOf(user), deptDict[depId])];
    }
    assert userList[..|userList|] == userList;
    assert FirstUnknown(userList, deptDict) == None;

    var written: seq<seq<string>> := [Header];
    for k := 0 to |outputRows|
      invariant written == CsvRecords(outputRows[..k])
    {
      assert outputRows[..k + 1][..k] == outputRows[..k];
      written := written + [[outputRows[k].name, outputRows[k].department]];
    }
    assert outputRows[..|outputRows|] == outputRows;
    return Ok(written);
  }

  // ---------------------------------------------------------------------
  // Properties of the roster

  /**
    Users are validated first: invalid users fail whatever the departments
    hold; departments are checked only when the users pass.
   */
  lemma ValidationOrder(users: Value, departments: Value)
    ensures !ValidateJson(users, StudentSchema) ==> Roster(users, departments) == InvalidInstance(Users)
    ensures ValidateJson(users, StudentSchema) && !ValidateJson(departments, DepartmentSchema) ==>
              Roster(users, departments) == InvalidInstance(Departments)
    ensures Roster(users, departments).InvalidInstance? <==>
              !(ValidateJson(users, StudentSchema) && ValidateJson(departments, DepartmentSchema))
  {
  }

  /** Once both collections are valid, every later step sees users and departments as the schemas describe them. */
  lemma ValidInputsAreJoined(users: Value, departments: Value)
    requires ValidateJson(users, StudentSchema) && ValidateJson(departments, DepartmentSchema)
    ensures users.Array? && AllStudents(users.items)
    ensures departments.Array? && AllDepartments(departments.items)
    ensures Roster(users, departments) == Join(users.items, departments.items)
  {
    ValidUsers(users);
    ValidDepartments(departments);
  }

  /**
    The join fails exactly with the department id of the first user whose
    id no department carries.
   */
  lemma NotFoundIsFirstUnknown(users: seq<Value>, departments: seq<Value>, id: int)
    requires AllStudents(users) && AllDepartments(departments)
    ensures Join(users, departments) == DepartmentNotFound(id) <==>
              exists k :: 0 <= k < |users|
                && DepartmentIdOf(users[k]) == id
                && id !in DepartmentIds(departments)
                && forall j :: 0 <= j < k ==> DepartmentIdOf(users[j]) in DepartmentIds(departments)
  {
    var r := FirstUnknown(users, DepartmentLookup(departments));
    if r.Some? {
      assert Join(users, departments) == DepartmentNotFound(DepartmentIdOf(users[r.value]));
    }
  }

  /**
    When every user's department exists, the join succeeds with one record
    per user after the header, in user order, pairing the user's name with
    the looked-up department name; no users gives the header alone.
   */
  lemma SuccessRecords(users: seq<Value>, departments: seq<Value>)
    requires AllStudents(users) && AllDepartments(departments)
    requires forall i :: 0 <= i < |users| ==> DepartmentIdOf(users[i]) in DepartmentIds(departments)
    ensures Join(users, departments).Ok?
    ensures |Join(users, departments).records| == |users| + 1
    ensures Join(users, departments).records[0] == Header
    ensures forall i :: 0 <= i < |users| ==>
              Join(users, departments).records[i + 1]
                == [NameOf(users[i]), DepartmentLookup(departments)[DepartmentIdOf(users[i])]]
  {
  }

  // ---------------------------------------------------------------------
  // The scenarios of the test suite

  function UserRecord(id: int, name: string, departmentId: int): Value
  {
    Object(map["id" := Int(id), "name" := String(name), "department_id" := Int(departmentId)])
  }

  function DepartmentRecord(id: int, name: string): Value
  {
    Object(map["id" := Int(id), "name" := String(name)])
  }

  /** Two users in two distinct departments give the header and their two rows, in order. */
  lemma SuccessfulExecution(user1: string, user2: string, dept1: string, dept2: string, id1: int, id2: int)
    requires id1 != id2
    ensures Roster(Array([UserRecord(1, user1, id1), UserRecord(2, user2, id2)]),
                   Array([DepartmentRecord(id1, dept1), DepartmentRecord(id2, dept2)]))
         == Ok([Header, [user1, dept1], [user2, dept2]])
  {
    var users := Array([UserRecord(1, user1, id1), UserRecord(2, user2, id2)]);
    var departments := Array([DepartmentRecord(id1, dept1), DepartmentRecord(id2, dept2)]);
    assert IsStudent(users.items[0]) && IsStudent(users.items[1]);
    assert AllStudents(users.items);
    assert IsDepartment(departments.items[0]) && IsDepartment(departments.items[1]);
    assert AllDepartments(departments.items);
    ValidUsers(users);
    ValidDepartments(departments);
    ValidInputsAreJoined(users, departments);
    JoinTwoUsers(users.items, departments.items, user1, user2, dept1, dept2, id1, id2);
  }

  lemma JoinTwoUsers(users: seq<Value>, departments: seq<Value>,
                     user1: string, user2: string, dept1: string, dept2: string, id1: int, id2: int)
    requires id1 != id2
    requires users == [UserRecord(1, user1, id1), UserRecord(2, user2, id2)]
    requires departments == [DepartmentRecord(id1, dept1), DepartmentRecord(id2, dept2)]
    requires AllStudents(users) && AllDepartments(departments)
    ensures Join(users, departments) == Ok([Header, [user1, dept1], [user2, dept2]])
  {
    assert IdOf(departments[0]) == id1 && IdOf(departments[1]) == id2;
    assert DepartmentNameOf(departments[0]) == dept1 && DepartmentNameOf(departments[1]) == dept2;
    assert DepartmentIdOf(users[0]) == id1 && DepartmentIdOf(users[1]) == id2;
    assert NameOf(users[0]) == user1 && NameOf(users[1]) == user2;
    assert id1 in DepartmentIds(departments) && id2 in DepartmentIds(departments);
    LookupLastWriteWins(departments, 0);
    LookupLastWriteWins(departments, 1);
    SuccessRecords(users, departments);
    var records := Join(users, departments).records;
    assert records[1] == [user1, dept1] && records[2] == [user2, dept2];
    assert records == [records[0], records[1], records[2]];
  }

  /** No users and valid departments give the header alone. */
  lemma EmptyUserList(departments: seq<Value>)
    requires AllDepartments(departments)
    ensures Roster(Array([]), Array(departments)) == Ok([Header])
  {
    ValidDepartments(Array(departments));
    ValidInputsAreJoined(Array([]), Array(departments));
  }

  /** A user whose department id no department carries is reported with that id. */
  lemma MissingDepartment(name: string, missing: int, departments: seq<Value>)
    requires AllDepartments(departments)
    requires missing !in DepartmentIds(departments)
    ensures Roster(Array([UserRecord(1, name, missing)]), Array(departments)) == DepartmentNotFound(missing)
  {
    var users := Array([UserRecord(1, name, missing)]);
    ValidUsers(users);
    ValidDepartments(Array(departments));
    ValidInputsAreJoined(users, Array(departments));
    NotFoundIsFirstUnknown(users.items, departments, missing);
  }

  /** A user without `name`, or a department without `id`, is an invalid instance of its collection. */
  lemma InvalidSchemas(id: int, departmentId: int, departmentName: string, departments: Value, users: Value)
    ensures Roster(Array([Object(map["id" := Int(id), "department_id" := Int(departmentId)])]), departments)
         == InvalidInstance(Users)
    ensures ValidateJson(users, StudentSchema) ==>
              Roster(users, Array([Object(map["name" := String(departmentName)])])) == InvalidInstance(Departments)
  {
    var user := Object(map["id" := Int(id), "department_id" := Int(departmentId)]);
    StudentSchemaMeaning(user);
    assert !ConformsItem(Array([user]).items[0], StudentSchema);
    var department := Object(map["name" := String(departmentName)]);
    DepartmentSchemaMeaning(department);
    assert !ConformsItem(Array([department]).items[0], DepartmentSchema);
  }
}
