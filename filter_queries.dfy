/** GET /api/patients and GET /api/teacher-data: a fixed base query that
    gains one ` AND ... ?` clause per present filter, with the bound
    parameters pushed in the same order. A filter is a query-string value;
    an absent filter and an empty one are both "" here, since the handlers
    skip both alike. */
module FilterQueries {
  import opened Sql

  /** A clause ending in one placeholder, ` AND <column> <op> ?`. */
  function ParamClause(text: PlainText): (r: string)
    ensures Placeholders(r) == 1
  {
    PlaceholdersAppend(text, "?");
    NoPlaceholders(text);
    text + "?"
  }

  const PatientsBase: PlainText := "SELECT * FROM patients WHERE 1=1"
  const PatientsNameClause := ParamClause(" AND name LIKE ")
  const PatientsCaseClause := ParamClause(" AND case_id = ")

  /** The selected columns of the teacher view, grouped by the table they
      come from. */
  const UserColumns: seq<PlainText> := ["u.name AS student_name,", "u.email AS student_email,"]
  const AssignmentColumns: seq<PlainText> :=
    ["ca.title AS case_title,", "ca.scenarios AS case_scenarios,", "ca.questions AS case_questions,"]
  const PatientIdentityColumns: seq<PlainText> :=
    ["p.name AS patient_name,", "p.age AS patient_age,", "p.gender AS patient_gender,", "p.contact AS patient_contact,"]
  /** The source leaves a blank after this column's comma. */
  const MedicalHistoryColumn: PlainText := "p.medicalHistory AS " + "patient_medical_history, "
  const PatientRecordColumns: seq<PlainText> :=
    [MedicalHistoryColumn, "p.allergies AS patient_allergies,", "p.bloodGroup AS patient_blood_group"]

  /** Each column expression on a line of its own. */
  function ColumnLines(exprs: seq<PlainText>): PlainText {
    if exprs == [] then "" else Spaces(10) + exprs[0] + "\n" + ColumnLines(exprs[1..])
  }

  /** A clause of the FROM part on a line of its own. */
  function ClauseLine(text: PlainText): PlainText {
    Spaces(6) + text + "\n"
  }

  const JoinAssignments: PlainText := "INNER JOIN case_assignments ca " + "ON u.name = ca.student_name"
  const JoinPatients: PlainText := "INNER JOIN patients p " + "ON p.caseId = ca.case_id"

  const TeacherSelect: PlainText := Concat(["\n", Spaces(6), "SELECT \n"])
  const TeacherFrom: PlainText := Concat([
    ClauseLine("FROM users u"),
    ClauseLine(JoinAssignments),
    ClauseLine(JoinPatients),
    ClauseLine("WHERE 1=1"),
    Spaces(2)])
  const TeacherBase: PlainText := Concat([
    TeacherSelect,
    ColumnLines(UserColumns + AssignmentColumns + PatientIdentityColumns + PatientRecordColumns),
    TeacherFrom])
  const TeacherNameClause := ParamClause(" AND u.name LIKE ")
  const TeacherCaseClause := ParamClause(" AND ca.case_id = ")

  /** The shared shape of both handlers: start from `base`; a non-empty
      `studentName` appends `nameClause` and pushes `%studentName%`; a
      non-empty `caseId` then appends `caseClause` and pushes `caseId`. */
  method BuildFilteredQuery(base: string, nameClause: string, caseClause: string,
                            studentName: string, caseId: string)
    returns (query: string, params: seq<string>)
    requires Placeholders(nameClause) == 1 && Placeholders(caseClause) == 1
    ensures query == base + (if studentName != "" then nameClause else "")
                          + (if caseId != "" then caseClause else "")
    ensures params == (if studentName != "" then ["%" + studentName + "%"] else [])
                      + (if caseId != "" then [caseId] else [])
    ensures Placeholders(query) == Placeholders(base) + |params|
    ensures studentName == "" && caseId == "" ==> query == base && params == []
    ensures |params| == (if studentName != "" then 1 else 0) + (if caseId != "" then 1 else 0)
    ensures studentName != "" ==> params[0] == "%" + studentName + "%"
    ensures caseId != "" ==> params[|params| - 1] == caseId
    ensures |base| <= |query| && query[..|base|] == base
  {
    query := base;
    params := [];
    if studentName != "" {
      PlaceholdersAppend(query, nameClause);
      query := query + nameClause;
      params := params + ["%" + studentName + "%"];
    }
    if caseId != "" {
      PlaceholdersAppend(query, caseClause);
      query := query + caseClause;
      params := params + [caseId];
    }
  }

  /** GET /api/patients: with no filter the query is the base and nothing
      is bound; every `?` of the query has its parameter. */
  method PatientsQuery(studentName: string, caseId: string) returns (query: string, params: seq<string>)
    ensures query == PatientsBase + (if studentName != "" then PatientsNameClause else "")
                                  + (if caseId != "" then PatientsCaseClause else "")
    ensures Placeholders(query) == |params|
    ensures studentName == "" && caseId == "" ==> query == PatientsBase && params == []
    ensures |params| == (if studentName != "" then 1 else 0) + (if caseId != "" then 1 else 0)
    ensures studentName != "" ==> params[0] == "%" + studentName + "%"
    ensures caseId != "" ==> params[|params| - 1] == caseId
    ensures |PatientsBase| <= |query| && query[..|PatientsBase|] == PatientsBase
  {
    NoPlaceholders(PatientsBase);
    query, params := BuildFilteredQuery(PatientsBase, PatientsNameClause, PatientsCaseClause, studentName, caseId);
  }

  /** GET /api/teacher-data: the same guarantees over the joined view. */
  method TeacherDataQuery(studentName: string, caseId: string) returns (query: string, params: seq<string>)
    ensures query == TeacherBase + (if studentName != "" then TeacherNameClause else "")
                                 + (if caseId != "" then TeacherCaseClause else "")
    ensures Placeholders(query) == |params|
    ensures studentName == "" && caseId == "" ==> query == TeacherBase && params == []
    ensures |params| == (if studentName != "" then 1 else 0) + (if caseId != "" then 1 else 0)
    ensures studentName != "" ==> params[0] == "%" + studentName + "%"
    ensures caseId != "" ==> params[|params| - 1] == caseId
    ensures |TeacherBase| <= |query| && query[..|TeacherBase|] == TeacherBase
  {
    NoPlaceholders(TeacherBase);
    query, params := BuildFilteredQuery(TeacherBase, TeacherNameClause, TeacherCaseClause, studentName, caseId);
  }
}
