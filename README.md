# University roster: schema validation and department join

This project models `university.py`, which reads a list of users and a list
of departments from two JSON files, checks each list against a fixed JSON
schema, joins every user to the name of their department, and writes the
result as a CSV table with the header `name,department`.

Three modules, one per concern:

- `Json` (`json.dfy`): the parsed JSON values: null, booleans, integers,
  strings, arrays and objects (objects as `map<string, Value>`). Booleans
  are a kind of their own, so a boolean is never an integer.
- `JsonSchema` (`json_schema.dfy`): the four schema keywords the two
  schemas use. `type` is section 6.1.1 of JSON Schema Validation 2020-12,
  and `required` is section 6.5.3 of it. `properties` and
  `additionalProperties` are sections 10.3.2.1 and 10.3.2.3 of JSON Schema
  Core 2020-12. A `Schema` holds the required names, the typed properties in
  declaration order, and the `additionalProperties` flag. The array and
  object `type` keywords are the same in both schemas and are built into
  the checks. `StudentSchema` and `DepartmentSchema` are the two constants.
  `Errors` produces the validator's error stream: one error for a failed
  `type`, one per missing required name, one per wrongly typed declared
  member, and one for unexpected members. `ValidateJson` (`validate_json`)
  is true exactly when that stream is empty. `Conforms` states the same rules declaratively, and
  `ValidateJson` is proved to agree with it.
- `University` (`university.dfy`): the body of `user_with_department`.
  `Roster` is the specification of the whole operation. It checks the users
  first, then the departments, and hands validated lists to `Join`. `Join`
  builds the lookup, finds the first user whose department is unknown, and
  otherwise returns the records. `UserWithDepartment` and `JoinValidated`
  are the imperative version. They have the loop that collects
  `output_rows` with an early exit, and the loop that hands each row to the
  CSV writer. Both are proved equal to the specification. The outcome is
  `InvalidInstance(Users | Departments)`, `DepartmentNotFound(id)` or
  `Ok(records)`. `records` is the header record followed by one
  `[name, department]` record per user.

Reading the two files is not modelled, and neither is the CSV text
encoding. The operation takes the two parsed documents as parameters and
returns the records that would be written. Since `Roster` is a function,
two runs on the same inputs produce the same records.

`university.py` opens the CSV file only after the join loop has finished
(line 83). So when a
department is not found, nothing is written. In the model, records exist
only in the `Ok` outcome.

## Model

| member | source | states |
|---|---|---|
| `JsonSchema.RequiredErrors` | university.py:11 | no error exactly when every `required` name is a member of the object; each error names a required member that is missing |
| `JsonSchema.PropertyErrors` | university.py:12-16 | no error exactly when every declared property that is present has its declared type; each error names a present member of the wrong type |
| `JsonSchema.AdditionalErrors` | university.py:17 | with `additionalProperties` true there is never an error; otherwise one error, exactly when the object has a member no property declares |
| `JsonSchema.ItemErrors` | university.py:9-18 | an item yields no error exactly when it is an object that satisfies `required`, `properties` and `additionalProperties`; its errors carry its position |
| `JsonSchema.ItemsErrors` | university.py:8-18 | a list of items yields no error exactly when every item conforms; error positions lie within the list |
| `JsonSchema.Errors` | university.py:7-19 | no error exactly when the instance is an array of conforming items; a non-array yields the single "not an array" error |
| `JsonSchema.ValidateJson` | university.py:46-51 | `validate_json` is true exactly when the data is an array whose every element is an object with all required members and correctly typed declared members; it is total, false in every other case |
| `JsonSchema.EmptyArrayValidNonArrayInvalid` | university.py:7-10 | the empty array is valid under any schema; a value that is not an array is invalid under any schema |
| `JsonSchema.ExtraFieldKeepsValidity` | university.py:17 | with `additionalProperties` true, adding a member that is neither required nor declared to an item leaves the validity of the list unchanged |
| `JsonSchema.StudentSchemaMeaning` | university.py:7-19 | a user item conforms exactly when it is an object with a string `name`, an integer `department_id`, and an integer `id` if `id` is present |
| `JsonSchema.DepartmentSchemaMeaning` | university.py:22-33 | a department item conforms exactly when it is an object with an integer `id` and a string `name` |
| `JsonSchema.StudentIdIsOptional` | university.py:11-15 | a user without `id` is valid; a user with `id` is valid exactly when that `id` is an integer (a boolean or string `id` is rejected) |
| `JsonSchema.StringDepartmentIdRejected` | test_university.py:30-34 | a user whose `department_id` is a string such as "101" makes the user list invalid |
| `JsonSchema.DepartmentIdRequiredInteger` | test_university.py:43-52 | a department without `id`, or with a string `id`, makes the department list invalid |
| `JsonSchema.ValidUsers` | university.py:62-63 | the user list passes validation exactly when it is an array whose every element is a well-formed user |
| `JsonSchema.ValidDepartments` | university.py:65-66 | the department list passes validation exactly when it is an array whose every element is a well-formed department |
| `University.DepartmentLookup` | university.py:69 | the lookup's keys are exactly the ids of the departments |
| `University.LookupLastWriteWins` | university.py:69 | an id maps to the name of the last department carrying it, with no uniqueness check |
| `University.FirstUnknown` | university.py:72-75 | none exactly when every user's `department_id` is in the lookup; otherwise the position of a user whose id is missing, all earlier users' ids being present |
| `University.JoinedRows` | university.py:71-80 | one row per user, in input order; row i pairs user i's name with the looked-up name of user i's department |
| `University.CsvRecords` | university.py:83-88 | the written records are the header `[name, department]` followed by each row's name and department, in row order |
| `University.Join` | university.py:69-88 | never an invalid instance; a reported missing id is no department's id; on success the header and one record per user (the exact success and failure conditions are `SuccessRecords` and `NotFoundIsFirstUnknown`) |
| `University.Roster` | university.py:62-88 | an invalid instance exactly when a list fails its schema, users judged first; a missing department only when both lists are valid; on success the header and one record per user |
| `University.UserWithDepartment` | university.py:62-88 | the imperative operation returns exactly what the specification `Roster` prescribes: validation of users, then departments, then the join |
| `University.JoinValidated` | university.py:69-88 | the lookup, the row-collecting loop with its early exit, and the writer loop together return exactly `Join` of the validated lists |
| `University.ValidationOrder` | university.py:62-66 | invalid users give `InvalidInstance(Users)` whatever the departments are; departments are judged only when the users pass; the outcome is an invalid instance exactly when one of the two lists is invalid |
| `University.ValidInputsAreJoined` | university.py:62-69 | once both lists are valid, every user and department is well-formed and the outcome is the join of the two lists |
| `University.NotFoundIsFirstUnknown` | university.py:71-75 | the join fails with `DepartmentNotFound(id)` exactly when `id` is the department id of a user whose id no department carries, all earlier users' ids being carried |
| `University.SuccessRecords` | university.py:71-88 | when every user's department exists the join succeeds with the header and one record per user, in order, pairing the user's name with the looked-up department name; no users gives the header alone |
| `University.SuccessfulExecution` | test_university.py:78-94 | two users in two distinct departments give the header and their two rows, in order |
| `University.EmptyUserList` | test_university.py:140-150 | an empty user list with valid departments gives the header alone |
| `University.MissingDepartment` | test_university.py:125-135 | a user whose department id no department carries gives `DepartmentNotFound` with that id |
| `University.InvalidSchemas` | test_university.py:101-123 | a user without `name` gives `InvalidInstance(Users)`; a department without `id` gives `InvalidInstance(Departments)` when the users are valid |

## Left out

- Opening and reading the input files and `json.load` (university.py:56-60) are I/O. Missing files (`FileNotFoundError`) and malformed JSON come from the runtime, not from this code.
- The CSV text encoding by `csv.DictWriter`, including quoting and escaping (RFC 4180 section 2) and line endings. The output is modelled as the sequence of records handed to the writer.
- Floating-point JSON numbers. This includes the validator accepting an integral float such as `1.0` as an `integer`.
- The rest of the JSON Schema engine: the schema-of-schema check, other keywords, and which error `validate` picks to raise. Only whether some error exists matters to `validate_json`.
- The exception message texts (university.py:63, 66, 75). The outcome keeps only the failing collection and the missing id.
- The Python exceptions themselves. A raise is modelled as a returned outcome, `InvalidInstance` or `DepartmentNotFound`.
