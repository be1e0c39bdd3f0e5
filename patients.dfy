/** POST /api/patients: check the six identity fields, then insert the
    twenty columns of the patient, optional ones stored as NULL when falsy. */
module Patients {
  import opened JsValues
  import opened Outcomes
  import opened Sql

  const MissingFieldsError := "Required fields are missing."
  const RegisteredMessage := "Patient registered successfully!"
  const RegisterFailedError := "Failed to register patient. Please try again."

  /** The leading columns that must be present; the rest are optional. */
  const RequiredCount := 6

  /** The columns of the INSERT, in statement order, as the statement
      spreads them over three lines. */
  const ColumnsLine1: seq<PlainText> :=
    ["caseId", "registration_id", "name", "age", "gender", "contact", "email", "address", "medicalHistory"]
  const ColumnsLine2: seq<PlainText> :=
    ["allergies", "bloodGroup", "emergencyContact", "dateOfAdmission", "height", "weight"]
  const ColumnsLine3: seq<PlainText> :=
    ["temperature", "bloodPressure", "pulseRate", "respiratoryRate", "spO2"]
  const PatientColumns: seq<PlainText> := ColumnsLine1 + ColumnsLine2 + ColumnsLine3

  /** The fields the handler destructures from the body (`registrationId` is
      the body's `registration_id`). */
  datatype PatientPayload = PatientPayload(
    caseId: JsValue, registrationId: JsValue, name: JsValue, age: JsValue,
    gender: JsValue, contact: JsValue, email: JsValue, address: JsValue,
    medicalHistory: JsValue, allergies: JsValue, bloodGroup: JsValue,
    emergencyContact: JsValue, dateOfAdmission: JsValue, height: JsValue,
    weight: JsValue, temperature: JsValue, bloodPressure: JsValue,
    pulseRate: JsValue, respiratoryRate: JsValue, spO2: JsValue)

  /** The identity fields, in column order. */
  function RequiredFields(p: PatientPayload): (f: seq<JsValue>)
    ensures |f| == RequiredCount
  {
    [p.caseId, p.registrationId, p.name, p.age, p.gender, p.contact]
  }

  /** The remaining fields, in column order. */
  function OptionalFields(p: PatientPayload): (f: seq<JsValue>)
    ensures |f| == |PatientColumns| - RequiredCount
  {
    [p.email, p.address, p.medicalHistory, p.allergies, p.bloodGroup, p.emergencyContact,
     p.dateOfAdmission, p.height, p.weight, p.temperature, p.bloodPressure, p.pulseRate,
     p.respiratoryRate, p.spO2]
  }

  /** The payload's fields, one per column of `PatientColumns`. */
  function Fields(p: PatientPayload): (f: seq<JsValue>)
    ensures |f| == |PatientColumns|
  {
    RequiredFields(p) + OptionalFields(p)
  }

  /** The validation guard: every identity field truthy (so an age of 0 or
      an empty contact string is refused). */
  predicate PayloadComplete(p: PatientPayload) {
    Truthy(p.caseId) && Truthy(p.registrationId) && Truthy(p.name)
    && Truthy(p.age) && Truthy(p.gender) && Truthy(p.contact)
  }

  /** `v || null` for each value: a truthy value is kept, any other becomes
      NULL. */
  function NullDefaults(vs: seq<JsValue>): (r: seq<JsValue>)
    ensures |r| == |vs|
    ensures forall i | 0 <= i < |vs| :: r[i] == (if Truthy(vs[i]) then vs[i] else Null)
    ensures forall i | 0 <= i < |vs| :: r[i] == Null || Truthy(r[i])
  {
    if vs == [] then [] else [Or(vs[0], Null)] + NullDefaults(vs[1..])
  }

  /** The `values` array bound to the INSERT: one value per column, in
      column order; the identity fields as given, every optional field
      `field || null`, so no falsy value other than NULL reaches an optional
      column. */
  function InsertValues(p: PatientPayload): (values: seq<JsValue>)
    ensures |values| == |PatientColumns| == 20
    ensures values[..RequiredCount] == Fields(p)[..RequiredCount]
    ensures forall i | RequiredCount <= i < |values| ::
      values[i] == (if Truthy(Fields(p)[i]) then Fields(p)[i] else Null)
    ensures forall i | RequiredCount <= i < |values| :: values[i] == Null || Truthy(values[i])
    ensures PayloadComplete(p) ==> forall i | 0 <= i < RequiredCount :: Truthy(values[i])
  {
    RequiredFields(p) + NullDefaults(OptionalFields(p))
  }

  /** `names` separated by ", ". */
  function CommaList(names: seq<PlainText>): PlainText {
    if names == [] then ""
    else if |names| == 1 then names[0]
    else names[0] + ", " + CommaList(names[1..])
  }

  /** "?, ?, ..., ?" with `n` placeholders. */
  function PlaceholderList(n: nat): (r: string)
    requires n >= 1
    ensures Placeholders(r) == n
  {
    if n == 1 then "?"
    else
      PlaceholdersAppend("?, ", PlaceholderList(n - 1));
      "?, " + PlaceholderList(n - 1)
  }

  /** One line of the column list: indented, comma-separated, ended by `end`. */
  function ColumnListLine(names: seq<PlainText>, end: PlainText): PlainText {
    Spaces(6) + CommaList(names) + end
  }

  const InsertInto: PlainText := "\n    INSERT INTO patients (\n"
  const ValuesKeyword: PlainText := Spaces(4) + ") VALUES ("
  const LineEnd: PlainText := "\n"
  const CommaLineEnd: PlainText := ",\n"

  /** The statement up to its VALUES tuple, laid out as the handler writes it. */
  const InsertHead: PlainText := Concat([
    InsertInto,
    ColumnListLine(ColumnsLine1, CommaLineEnd),
    ColumnListLine(ColumnsLine2, CommaLineEnd),
    ColumnListLine(ColumnsLine3, LineEnd),
    ValuesKeyword])

  const InsertTail: PlainText := Concat([")", LineEnd, Spaces(2)])

  /** The INSERT statement: one placeholder per column. */
  const InsertStatement: string := InsertHead + PlaceholderList(|PatientColumns|) + InsertTail

  /** The statement has exactly one placeholder per value bound to it. */
  lemma InsertStatementAligned(p: PatientPayload)
    ensures Placeholders(InsertStatement) == |InsertValues(p)| == |PatientColumns|
  {
    var tuple := PlaceholderList(|PatientColumns|);
    NoPlaceholders(InsertHead);
    NoPlaceholders(InsertTail);
    PlaceholdersAppend(InsertHead, tuple);
    PlaceholdersAppend(InsertHead + tuple, InsertTail);
  }

  datatype RegistrationResult = RegistrationResult(reply: Reply<nat>, inserted: Option<seq<JsValue>>)

  /** The handler: 400 and no insert when an identity field is missing;
      otherwise the twenty values are inserted, answering 201 with the new
      row id, or 500 when the insert fails. */
  function RegisterPatient(p: PatientPayload, insert: InsertOutcome): (r: RegistrationResult)
    ensures !PayloadComplete(p) ==> r == RegistrationResult(Reply(400, Error(MissingFieldsError)), None)
    ensures PayloadComplete(p) ==> r.inserted == Some(InsertValues(p))
    ensures PayloadComplete(p) && insert.Inserted? ==>
      r.reply == Reply(201, MessageWith(RegisteredMessage, insert.insertId))
    ensures PayloadComplete(p) && insert.InsertFailed? ==> r.reply == Reply(500, Error(RegisterFailedError))
  {
    if !PayloadComplete(p) then
      RegistrationResult(Reply(400, Error(MissingFieldsError)), None)
    else
      var values := InsertValues(p);
      match insert
      case Inserted(id) => RegistrationResult(Reply(201, MessageWith(RegisteredMessage, id)), Some(values))
      case InsertFailed => RegistrationResult(Reply(500, Error(RegisterFailedError)), Some(values))
  }
}
