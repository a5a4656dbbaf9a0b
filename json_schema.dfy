/**
  The part of JSON Schema that the two university schemas use: an array
  (`type: array`, section 6.1.1 of JSON Schema Validation 2020-12) whose
  `items` are objects (`type: object`) with `required` members (section
  6.5.3), typed `properties` (section 10.3.2.1 of JSON Schema Core 2020-12)
  and `additionalProperties` (section 10.3.2.3).

  `Errors` follows the way a validator reports problems: it walks the
  instance and yields, in order, one error for a failed `type`, one per
  missing required name, one per wrongly typed declared member and one for
  unexpected members. `validate`
  raises when that stream is non-empty, and `ValidateJson` turns the raise
  into `false`. `Conforms` states the same rules declaratively; the two are
  proved to agree.
 */
module JsonSchema {
  import opened Json

  /** The primitive types a property may declare. */
  datatype InstanceType = IntegerType | StringType

  datatype Property = Property(name: string, kind: InstanceType)

  /**
    The schema of an array of objects: the member names every object must
    have, the declared type of each listed property (in declaration order)
    and whether members outside `properties` are allowed.
   */
  datatype Schema = Schema(
    required: seq<string>,
    properties: seq<Property>,
    additionalProperties: bool)

  datatype ValidationError =
    | NotAnArray
    | NotAnObject(index: nat)
    | MissingRequired(index: nat, name: string)
    | WrongType(index: nat, name: string, expected: InstanceType)
    | UnexpectedProperties(index: nat)

  /** Items of the user list: `name` and `department_id` required, `id` optional. */
  const StudentSchema := Schema(
    ["name", "department_id"],
    [Property("id", IntegerType), Property("name", StringType), Property("department_id", IntegerType)],
    true)

  /** Items of the department list: `id` and `name` required. */
  const DepartmentSchema := Schema(
    ["id", "name"],
    [Property("id", IntegerType), Property("name", StringType)],
    true)

  /** Exact kind check: a boolean is not an integer, an integer is not a string. */
  predicate HasType(v: Value, t: InstanceType)
  {
    match t
    case IntegerType => v.Int?
    case StringType => v.String?
  }

  function PropertyNames(properties: seq<Property>): set<string>
  {
    set p | p in properties :: p.name
  }

  // ---------------------------------------------------------------------
  // Declarative semantics

  /** One array item satisfies the item schema. */
  predicate ConformsItem(item: Value, s: Schema)
  {
    && item.Object?
    && (forall j :: 0 <= j < |s.required| ==> s.required[j] in item.fields)
    && (forall j :: 0 <= j < |s.properties| && s.properties[j].name in item.fields ==>
          HasType(item.fields[s.properties[j].name], s.properties[j].kind))
    && (s.additionalProperties || item.fields.Keys <= PropertyNames(s.properties))
  }

  /** The instance is an array and every item satisfies the item schema. */
  predicate Conforms(data: Value, s: Schema)
  {
    data.Array? && forall i :: 0 <= i < |data.items| ==> ConformsItem(data.items[i], s)
  }

  // ---------------------------------------------------------------------
  // The error stream

  /** One error per required name the object lacks, in the order of `required`. */
  function RequiredErrors(index: nat, fields: map<string, Value>, required: seq<string>): (errs: seq<ValidationError>)
    ensures errs == [] <==> forall j :: 0 <= j < |required| ==> required[j] in fields
    ensures forall e :: e in errs ==>
              e.MissingRequired? && e.index == index && e.name in required && e.name !in fields
  {
    if required == [] then []
    else
      (if required[0] in fields then [] else [MissingRequired(index, required[0])])
        + RequiredErrors(index, fields, required[1..])
  }

  /** One error per declared property that is present with the wrong type. */
  function PropertyErrors(index: nat, fields: map<string, Value>, properties: seq<Property>): (errs: seq<ValidationError>)
    ensures errs == [] <==>
              forall j :: 0 <= j < |properties| && properties[j].name in fields ==>
                HasType(fields[properties[j].name], properties[j].kind)
    ensures forall e :: e in errs ==>
              e.WrongType? && e.index == index && e.name in fields && !HasType(fields[e.name], e.expected)
  {
    if properties == [] then []
    else
      var p := properties[0];
      (if p.name in fields && !HasType(fields[p.name], p.kind) then [WrongType(index, p.name, p.kind)] else [])
        + PropertyErrors(index, fields, properties[1..])
  }

  /** At most one error: the object has members outside `properties` and they are forbidden. */
  function AdditionalErrors(index: nat, fields: map<string, Value>, s: Schema): (errs: seq<ValidationError>)
    ensures s.additionalProperties ==> errs == []
    ensures errs == [] <==> s.additionalProperties || fields.Keys <= PropertyNames(s.properties)
    ensures errs != [] ==> errs == [UnexpectedProperties(index)]
  {
    if s.additionalProperties || fields.Keys <= PropertyNames(s.properties) then []
    else [UnexpectedProperties(index)]
  }

  /** The errors of the item at position `index`. */
  function ItemErrors(index: nat, item: Value, s: Schema): (errs: seq<ValidationError>)
    ensures errs == [] <==> ConformsItem(item, s)
    ensures forall e :: e in errs ==> !e.NotAnArray? && e.index == index
  {
    if !item.Object? then [NotAnObject(index)]
    else
      RequiredErrors(index, item.fields, s.required)
        + PropertyErrors(index, item.fields, s.properties)
        + AdditionalErrors(index, item.fields, s)
  }

  /** The errors of `items`, the first of which sits at position `offset` of the array. */
  function ItemsErrors(items: seq<Value>, offset: nat, s: Schema): (errs: seq<ValidationError>)
    ensures errs == [] <==> forall i :: 0 <= i < |items| ==> ConformsItem(items[i], s)
    ensures forall e :: e in errs ==> !e.NotAnArray? && offset <= e.index < offset + |items|
  {
    if items == [] then []
    else
      var first := ItemErrors(offset, items[0], s);
      var rest := ItemsErrors(items[1..], offset + 1, s);
      assert forall i :: 1 <= i < |items| ==> items[i] == items[1..][i - 1];
      first + rest
  }

  /** All errors of an instance: a non-array gives one error and no item is looked at. */
  function Errors(data: Value, s: Schema): (errs: seq<ValidationError>)
    ensures errs == [] <==> Conforms(data, s)
    ensures !data.Array? ==> errs == [NotAnArray]
  {
    if !data.Array? then [NotAnArray] else ItemsErrors(data.items, 0, s)
  }

  /**
    `validate_json`: true when validation raises nothing, false when it
    raises a validation error. Total: there is no other outcome.
   */
  function ValidateJson(data: Value, s: Schema): (ok: bool)
    ensures ok <==> Conforms(data, s)
  {
    Errors(data, s) == []
  }

  // ---------------------------------------------------------------------
  // Properties

  /** The empty array is valid under every schema; a non-array never is. */
  lemma EmptyArrayValidNonArrayInvalid(data: Value, s: Schema)
    ensures ValidateJson(Array([]), s)
    ensures !data.Array? ==> !ValidateJson(data, s)
  {
  }

  /**
    When extra members are allowed, adding a member that is neither
    required nor declared to one item leaves the validity of the array as it was.
   */
  lemma ExtraFieldKeepsValidity(items: seq<Value>, i: nat, key: string, v: Value, s: Schema)
    requires i < |items| && items[i].Object?
    requires s.additionalProperties
    requires key !in s.required && key !in PropertyNames(s.properties)
    ensures ValidateJson(Array(items[i := Object(items[i].fields[key := v])]), s)
        == ValidateJson(Array(items), s)
  {
    var f := items[i].fields;
    var g := f[key := v];
    var items' := items[i := Object(g)];
    forall j | 0 <= j < |s.properties|
      ensures s.properties[j].name != key
    {
      assert s.properties[j] in s.properties;
    }
    assert ConformsItem(Object(g), s) == ConformsItem(items[i], s);
    forall k | 0 <= k < |items|
      ensures ConformsItem(items'[k], s) == ConformsItem(items[k], s)
    {
    }
  }

  /** What the user schema accepts, member by member. */
  predicate IsStudent(u: Value)
  {
    && HasStringField(u, "name")
    && HasIntField(u, "department_id")
    && (HasField(u, "id") ==> HasIntField(u, "id"))
  }

  /** What the department schema accepts, member by member. */
  predicate IsDepartment(d: Value)
  {
    HasIntField(d, "id") && HasStringField(d, "name")
  }

  lemma StudentSchemaMeaning(u: Value)
    ensures ConformsItem(u, StudentSchema) <==> IsStudent(u)
  {
    var s := StudentSchema;
    if u.Object? && IsStudent(u) {
      assert forall j :: 0 <= j < |s.required| ==> s.required[j] in u.fields by {
        assert s.required == ["name", "department_id"];
      }
    }
    if ConformsItem(u, s) {
      assert s.required[0] in u.fields && s.required[1] in u.fields;
      assert HasType(u.fields[s.properties[1].name], s.properties[1].kind);
      assert HasType(u.fields[s.properties[2].name], s.properties[2].kind);
      if "id" in u.fields {
        assert HasType(u.fields[s.properties[0].name], s.properties[0].kind);
      }
    }
  }

  lemma DepartmentSchemaMeaning(d: Value)
    ensures ConformsItem(d, DepartmentSchema) <==> IsDepartment(d)
  {
    var s := DepartmentSchema;
    if ConformsItem(d, s) {
      assert s.required[0] in d.fields && s.required[1] in d.fields;
      assert s.properties[0].name in d.fields && s.properties[1].name in d.fields;
    }
  }

  /** A user without `id` is valid; one whose `id` is not an integer (a string, a boolean) is not. */
  lemma StudentIdIsOptional(name: string, departmentId: int, id: Value)
    ensures ValidateJson(Array([Object(map["name" := String(name), "department_id" := Int(departmentId)])]), StudentSchema)
    ensures ValidateJson(Array([Object(map["id" := id, "name" := String(name), "department_id" := Int(departmentId)])]), StudentSchema)
        <==> id.Int?
  {
    StudentSchemaMeaning(Object(map["name" := String(name), "department_id" := Int(departmentId)]));
    StudentSchemaMeaning(Object(map["id" := id, "name" := String(name), "department_id" := Int(departmentId)]));
  }

  /** A `department_id` given as a string, such as "101", makes the user list invalid. */
  lemma StringDepartmentIdRejected(fields: map<string, Value>, text: string)
    ensures !ValidateJson(Array([Object(fields["department_id" := String(text)])]), StudentSchema)
  {
    StudentSchemaMeaning(Object(fields["department_id" := String(text)]));
  }

  /** A department without `id`, or with an `id` given as a string, makes the department list invalid. */
  lemma DepartmentIdRequiredInteger(fields: map<string, Value>, text: string)
    ensures !ValidateJson(Array([Object(fields - {"id"})]), DepartmentSchema)
    ensures !ValidateJson(Array([Object(fields["id" := String(text)])]), DepartmentSchema)
  {
    DepartmentSchemaMeaning(Object(fields - {"id"}));
    DepartmentSchemaMeaning(Object(fields["id" := String(text)]));
  }

  /** A valid user list is an array of `IsStudent` objects, and conversely. */
  lemma ValidUsers(users: Value)
    ensures ValidateJson(users, StudentSchema) <==>
              users.Array? && forall i :: 0 <= i < |users.items| ==> IsStudent(users.items[i])
  {
    if users.Array? {
      forall i | 0 <= i < |users.items| {
        StudentSchemaMeaning(users.items[i]);
      }
    }
  }

  /** A valid department list is an array of `IsDepartment` objects, and conversely. */
  lemma ValidDepartments(departments: Value)
    ensures ValidateJson(departments, DepartmentSchema) <==>
              departments.Array? && forall i :: 0 <= i < |departments.items| ==> IsDepartment(departments.items[i])
  {
    if departments.Array? {
      forall i | 0 <= i < |departments.items| {
        DepartmentSchemaMeaning(departments.items[i]);
      }
    }
  }
}
