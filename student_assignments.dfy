/** GET /api/student-assignments/:studentName: turn the stored assignment
    rows of one student into response records whose scenario and question
    lists are always arrays. */
module StudentAssignments {
  import opened JsValues
  import opened Outcomes

  const NameRequiredError := "Student name is required."
  const NoAssignmentsMessage := "No assignments found for this student."

  /** A row of `case_assignments` as the query returns it. */
  datatype AssignmentRow = AssignmentRow(
    caseId: JsValue,
    title: JsValue,
    scenarios: JsValue,
    questions: JsValue,
    assignedAt: JsValue)

  /** One record of the response. */
  datatype AssignmentView = AssignmentView(
    caseId: JsValue,
    title: JsValue,
    scenarios: seq<JsValue>,
    questions: seq<JsValue>,
    assignedAt: JsValue)

  /** `JSON.parse` of a stored value: `None` when it throws. */
  type Parser = JsValue -> Option<JsValue>

  /** The try/catch around `JSON.parse`: the parsed value, or the raw
      stored value when parsing throws. */
  function ParsedOrRaw(raw: JsValue, parse: Parser): JsValue {
    match parse(raw)
    case Some(v) => v
    case None => raw
  }

  /** `Array.isArray(v) ? v : []`. */
  function ArrayOrEmpty(v: JsValue): seq<JsValue> {
    if v.Arr? then v.items else []
  }

  /** One stored list column, normalised: the parsed array; the empty list
      when the parsed value is not an array; on a parse failure, the raw
      value's elements if it already is an array and the empty list
      otherwise. */
  function NormaliseList(raw: JsValue, parse: Parser): (r: seq<JsValue>)
    ensures parse(raw).Some? ==> (r == if parse(raw).value.Arr? then parse(raw).value.items else [])
    ensures parse(raw).None? ==> (r == if raw.Arr? then raw.items else [])
    ensures r != [] ==> (parse(raw).Some? && parse(raw).value == Arr(r)) || (parse(raw).None? && raw == Arr(r))
  {
    ArrayOrEmpty(ParsedOrRaw(raw, parse))
  }

  /** The `results.map` callback: identifiers, title and date copied, the
      two list columns normalised. */
  function Normalise(row: AssignmentRow, parse: Parser): (v: AssignmentView)
    ensures v.caseId == row.caseId && v.title == row.title && v.assignedAt == row.assignedAt
    ensures v.scenarios == NormaliseList(row.scenarios, parse)
    ensures v.questions == NormaliseList(row.questions, parse)
  {
    AssignmentView(
      row.caseId,
      row.title,
      NormaliseList(row.scenarios, parse),
      NormaliseList(row.questions, parse),
      row.assignedAt)
  }

  /** `results.map(...)`: one record per row, in row order. */
  function NormaliseAll(rows: seq<AssignmentRow>, parse: Parser): (views: seq<AssignmentView>)
    ensures |views| == |rows|
    ensures forall i | 0 <= i < |rows| :: views[i] == Normalise(rows[i], parse)
  {
    if rows == [] then [] else [Normalise(rows[0], parse)] + NormaliseAll(rows[1..], parse)
  }

  /** The handler, given the rows its query returned for `studentName`. */
  function ListAssignments(studentName: string, rows: seq<AssignmentRow>, parse: Parser)
    : (r: Reply<seq<AssignmentView>>)
    ensures studentName == "" ==> r == Reply(400, Error(NameRequiredError))
    ensures studentName != "" && rows == [] ==> r == Reply(404, Message(NoAssignmentsMessage))
    ensures studentName != "" && rows != [] ==>
      && r.status == 200 && r.body.Data?
      && |r.body.data| == |rows|
      && forall i | 0 <= i < |rows| :: r.body.data[i] == Normalise(rows[i], parse)
  {
    if studentName == "" then Reply(400, Error(NameRequiredError))
    else if |rows| == 0 then Reply(404, Message(NoAssignmentsMessage))
    else Reply(200, Data(NormaliseAll(rows, parse)))
  }

  /** A list stored as the serialisation of an array comes back as that
      array's elements, provided the parser inverts the serialisation. */
  lemma StoredListRoundTrip(items: seq<JsValue>, serialise: JsValue -> JsValue, parse: Parser)
    requires parse(serialise(Arr(items))) == Some(Arr(items))
    ensures NormaliseList(serialise(Arr(items)), parse) == items
  {
  }
}
