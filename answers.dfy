/** POST /api/submit-answers: flatten the answers object into
    (question, answer) pairs, insert one row per pair, and report success
    only when every insert succeeded. */
module Answers {
  import opened JsValues
  import opened Outcomes

  const InvalidPayloadError := "Invalid payload. All fields are required."
  const SubmittedMessage := "Answers submitted successfully!"
  const SaveFailedError := "Failed to save answers. Please try again."

  datatype AnswersPayload = AnswersPayload(studentName: JsValue, caseId: JsValue, answers: JsValue)

  /** An element of `answersArray`. */
  datatype AnswerPair = AnswerPair(questionId: string, answer: JsValue)

  /** The parameters of one `INSERT INTO student_answers`. */
  datatype AnswerInsert = AnswerInsert(studentName: JsValue, caseId: JsValue, questionId: string, answer: JsValue)

  /** The reply, with the inserts that were started before it was sent. */
  datatype SubmitResult = SubmitResult(reply: Reply<()>, attempted: seq<AnswerInsert>)

  /** The validation guard: student and case truthy, answers truthy and
      with at least one own key. */
  predicate PayloadAccepted(p: AnswersPayload) {
    Truthy(p.studentName) && Truthy(p.caseId) && Truthy(p.answers) && |OwnKeys(p.answers)| != 0
  }

  /** `Object.entries(answers).map(([questionId, answer]) => ...)`. */
  function Flatten(entries: seq<(string, JsValue)>): (pairs: seq<AnswerPair>)
    ensures |pairs| == |entries|
    ensures forall i | 0 <= i < |entries| :: pairs[i] == AnswerPair(entries[i].0, entries[i].1)
  {
    if entries == [] then [] else [AnswerPair(entries[0].0, entries[0].1)] + Flatten(entries[1..])
  }

  /** The insert of each pair, in pair order. */
  function Inserts(studentName: JsValue, caseId: JsValue, pairs: seq<AnswerPair>): (r: seq<AnswerInsert>)
    ensures |r| == |pairs|
    ensures forall i | 0 <= i < |pairs| ::
      r[i] == AnswerInsert(studentName, caseId, pairs[i].questionId, pairs[i].answer)
  {
    if pairs == [] then []
    else [AnswerInsert(studentName, caseId, pairs[0].questionId, pairs[0].answer)]
         + Inserts(studentName, caseId, pairs[1..])
  }

  /** `Promise.all` over the `count` inserts: it fulfils only when every
      one of them does. */
  predicate AllSucceeded(count: nat, succeeded: nat -> bool) {
    forall i | 0 <= i < count :: succeeded(i)
  }

  /** The handler; `succeeded(i)` is whether the i-th insert's query
      succeeded. All inserts are started whatever their outcomes, so rows
      of a failed submission may still have been stored. */
  function SubmitAnswers(p: AnswersPayload, succeeded: nat -> bool): (r: SubmitResult)
    ensures !PayloadAccepted(p) ==> r == SubmitResult(Reply(400, Error(InvalidPayloadError)), [])
    ensures PayloadAccepted(p) ==>
      && |r.attempted| == |OwnKeys(p.answers)| > 0
      && (forall i | 0 <= i < |r.attempted| ::
            r.attempted[i] == AnswerInsert(p.studentName, p.caseId, OwnKeys(p.answers)[i], OwnEntries(p.answers)[i].1))
      && (r.reply.status == 200 <==> forall i | 0 <= i < |r.attempted| :: succeeded(i))
      && r.reply == (if r.reply.status == 200 then Reply(200, Message(SubmittedMessage))
                     else Reply(500, Error(SaveFailedError)))
  {
    if !PayloadAccepted(p) then
      SubmitResult(Reply(400, Error(InvalidPayloadError)), [])
    else
      var inserts := Inserts(p.studentName, p.caseId, Flatten(OwnEntries(p.answers)));
      if AllSucceeded(|inserts|, succeeded) then
        SubmitResult(Reply(200, Message(SubmittedMessage)), inserts)
      else
        SubmitResult(Reply(500, Error(SaveFailedError)), inserts)
  }
}
