# Request-side decisions of the simulation backend

The backend is one Express server (`backend/server.js`). It serves a
teaching simulation: teachers assign clinical cases to students, students
log in, register patients and submit answers, and teachers read back a
joined view. Most of each handler is database and HTTP plumbing. This
project models the decisions made inside those handlers and proves what
they guarantee:

- **Assign a case** (`POST /api/assign-case`). The payload is validated,
  an `assignment` activity is built, and the activity is pushed to every
  WebSocket client whose connection is OPEN. The model proves that each
  open client gets the activity exactly once and that no other client
  gets it.
- **List a student's assignments** (`GET /api/student-assignments/:studentName`).
  One record comes back per stored row. The stored `scenarios` and
  `questions` columns always come back as arrays.
- **Log in and sign up** (`POST /api/login`, `POST /api/signup`). Login
  answers 404, 401 or 200, and the first row with the email and role
  decides. Signup refuses an email that is already taken. A signup with a
  fresh email is followed by a successful login.
- **Register a patient** (`POST /api/patients`). Six identity fields are
  required. The other fourteen default to NULL. The INSERT has one
  placeholder per bound value.
- **Submit answers** (`POST /api/submit-answers`). The answers object
  becomes one insert per own key, in key order. The reply is a success
  only when every insert succeeds.
- **Filtered reads** (`GET /api/patients`, `GET /api/teacher-data`). Each
  present filter appends one `?` clause and pushes one parameter. The
  number of placeholders always equals the number of parameters.

Request bodies are JSON values (`JsValues.JsValue`), with JavaScript
truthiness, `||`, `.length` and `Object.entries` written out. Login and
signup are the exception: their fields are strings (see "## Left out"). Things the
server calls out to are parameters of the model:

- the database's rows and insert outcomes;
- `bcrypt.compare` (a predicate) and `bcrypt.hash` (the digest it produced);
- `JSON.parse` (a partial function: `None` when it throws);
- the clock (the activity's timestamp);
- the set of WebSocket clients (a sequence of id and ready-state).

The broadcast loop and the two query builders work step by step in the
source, so they are methods with loops or sequential updates. Everything
else is a function.

Points where the code and its documentation part ways; the model follows
the code:

- The assign-case handler never stores the assignment. It only broadcasts
  it and answers 200.
- When `JSON.parse` throws, the handler keeps the raw stored value and then
  applies `Array.isArray`. The result is that raw value's elements when it
  already is an array, and `[]` otherwise. The raw value is not returned
  as such.
- Assign-case validation compares `assignedStudents.length` with 0
  strictly. So a truthy value without a `length`, such as the number 5,
  passes validation. The activity then carries `[]`
  (`CaseAssignment.NewActivity`).
- Signup looks for an existing user by email alone, whatever the role.
  Login matches email and role together.

## Model

| member | source | states |
|---|---|---|
| CaseAssignment.NewActivity | backend/server.js:109-115 | the activity has type `assignment`, the given timestamp, caseKey and title; the student list is either carried unchanged or replaced by `[]`; an array or string list is carried unchanged and is non-empty; a numeric or boolean one becomes `[]`; an object is carried exactly when its own `length` is truthy, so `{}` becomes `[]` |
| CaseAssignment.Broadcast | backend/server.js:119-123 | the deliveries go to exactly the open clients, in client order, and every one carries the activity |
| CaseAssignment.OpenClientsExactlyOnce | backend/server.js:119-123 | with distinct client ids, an open client receives the activity exactly once and any other client never |
| CaseAssignment.OpenClientsAreOpen | backend/server.js:119-123 | every recipient is a client of the set whose state is OPEN |
| CaseAssignment.AssignCase | backend/server.js:100-126 | a rejected payload (a falsy field, or a student list of length 0) answers 400 and sends nothing; an accepted one answers 200 with the activity and sends it to exactly the open clients, whatever their number |
| StudentAssignments.NormaliseList | backend/server.js:150-168 | a parsed array is kept; a parsed non-array gives `[]`; on a parse failure the raw value's elements are kept when it is an array, otherwise `[]`; a non-empty list always comes from an actual array |
| StudentAssignments.Normalise | backend/server.js:164-170 | caseId, title and assignedAt are copied; scenarios and questions are normalised lists |
| StudentAssignments.NormaliseAll | backend/server.js:147-171 | one record per row, in row order, each the row's normalisation |
| StudentAssignments.ListAssignments | backend/server.js:129-173 | an empty name answers 400; no rows answers 404 with a message; otherwise 200 with one normalised record per row in order |
| StudentAssignments.StoredListRoundTrip | backend/server.js:150-168 | a list stored as the serialisation of an array comes back as that array's elements when the parser inverts the serialisation |
| Accounts.MatchingUsers | backend/server.js:184-185 | at most one result per row, and every result has the requested email and role |
| Accounts.MatchingUsersMembers | backend/server.js:184-185 | the query returns exactly the rows with the email and role, and is empty exactly when no row has both |
| Accounts.MatchingUsersAppend | backend/server.js:184-185 | the query over a table with rows appended is the query over the old rows followed by the query over the new ones |
| Accounts.Login | backend/server.js:180-208 | 404 exactly when no row has the email and role; otherwise the first such row decides: 200 exactly when the password matches its digest, with a profile of its id and name and the email and role (never the digest), else 401; no other status |
| Accounts.Signup | backend/server.js:215-233 | a taken email answers 400 and leaves the table unchanged; otherwise one row with the name, email, digest and role is appended and the answer is 201, or 500 with the table unchanged when the insert fails; the old rows are always kept as a prefix |
| Accounts.SignupThenLogin | backend/server.js:187-233 | after a 201 signup with a fresh email, login with the same password and role answers 200 with the new user's profile |
| Accounts.SignupTwiceRefused | backend/server.js:220-224 | after a successful signup, a second signup with the same email answers 400 and leaves the table unchanged |
| Patients.NullDefaults | backend/server.js:264-268 | each value is kept when truthy and becomes NULL otherwise, so every result is NULL or truthy |
| Patients.InsertValues | backend/server.js:263-268 | twenty values, one per column in column order: the six identity fields unchanged, each optional field kept when truthy and NULL otherwise; every identity value is truthy once the payload passed validation |
| Patients.PlaceholderList | backend/server.js:260 | the VALUES tuple has as many `?` as requested |
| Patients.InsertStatementAligned | backend/server.js:255-268 | the INSERT's placeholder count equals the number of bound values and the number of columns |
| Patients.RegisterPatient | backend/server.js:243-279 | a falsy identity field answers 400 with nothing inserted; otherwise the twenty values are inserted and the answer is 201 with the new id, or 500 when the insert fails |
| Answers.Flatten | backend/server.js:293-296 | one (questionId, answer) pair per entry, in entry order |
| Answers.Inserts | backend/server.js:304-314 | one insert per pair, in pair order, each with the student, the case and that pair |
| Answers.SubmitAnswers | backend/server.js:284-322 | a missing field or an answers object with no own keys answers 400 and inserts nothing; otherwise one insert per own key in key order, and 200 exactly when every insert succeeds, else 500 |
| JsValues.OwnEntries | backend/server.js:293 | an object's entries in enumeration order; an array's or a string's indexed elements under decimal keys; none for a number or a boolean |
| JsValues.OwnKeys | backend/server.js:288 | the keys of the own entries, in the same order |
| FilterQueries.ParamClause | backend/server.js:384-391 | each filter clause holds exactly one `?` |
| FilterQueries.BuildFilteredQuery | backend/server.js:381-392 | with no filter the query is the base and nothing is bound; a name filter appends its clause and binds `%name%` first, a case filter appends its clause and binds the id last; the base stays a prefix, and the placeholders added equal the parameters bound |
| FilterQueries.PatientsQuery | backend/server.js:379-392 | the patients query is the base, then the name clause when a name is given, then the case clause when a case is given; `%name%` is bound first and the case id last; exactly one placeholder per parameter, and the base query alone when no filter is given |
| FilterQueries.TeacherDataQuery | backend/server.js:408-439 | the teacher view's query is the joined base, then the student-name clause when a name is given, then the case clause when a case is given; `%name%` is bound first and the case id last; exactly one placeholder per parameter, and the joined base query alone when no filter is given |

## Left out

- HTTP plumbing is not modelled: routing, the CORS set-up (`backend/server.js:20-39`), the logging middleware and `app.listen`. Only each handler's status and body are modelled.
- The MySQL pool is not modelled. The rows of the assignment listing are given, and insert outcomes are given values. The login and signup SELECTs are computed by the model over a given `users` table. The 500 answers for a failing SELECT in login, signup, the assignment listing and both filtered reads are not modelled. Signup's 500 is modelled only for a failing INSERT.
- Whether the callback-style `pool.query(..., callback)` calls on the promise-based pool ever call back depends on the mysql2 library, which is not part of this model. `Answers.SubmitAnswers` takes each insert's outcome as given.
- Accounts.Login: email, password and role are assumed to be present strings, and `bcrypt.compare` is assumed never to reject. The handler does not validate its body, so a missing field or a rejecting compare makes it answer 500 (`backend/server.js:209-212`); the model does not have that answer.
- Accounts.Signup: name, email, password and role are assumed to be present strings, and `bcrypt.hash` is assumed never to reject. The 500 that a missing password causes (`backend/server.js:235-238`) is not modelled. The existing-email test compares emails exactly.
- Accounts.MatchingUsers: email and role are compared exactly, and the rows come back in table order. MySQL compares text under the column's collation, which usually ignores case, and a SELECT without ORDER BY has no defined order. So "the first such row" in `Accounts.Login` is the first in table order.
- JsValues.OwnEntries: strings are sequences of Unicode scalar values. JavaScript's `.length`, `Object.keys` and `Object.entries` count UTF-16 code units, so a string with a character outside the Basic Multilingual Plane has more keys in JavaScript than in the model. `JsValues.LengthOf` has the same limit.
- bcrypt is not modelled. `bcrypt.compare` is a predicate parameter and `bcrypt.hash` (cost factor 10) is the digest it produced, passed in.
- `JSON.parse` is a parameter. `JSON.stringify` of the activity and of the responses is not modelled.
- The wall-clock timestamp is a parameter, and the actual socket send is recorded as a delivery list.
- `CaseAssignment.OpenClientsExactlyOnce`: the "exactly once" half assumes distinct client ids, because the server's client set holds each connection once.
- `/process` (file relay to another service), `/api/students` and `/api/cases` (plain reads) are not modelled: they make no decision of their own.
- `/register` is not modelled: it binds `Object.values(req.body)`, so which value lands in which column depends on the request's key order.
- The second `/api/student-assignments/:studentName` handler is not modelled: the identical route registered earlier always answers first.
- Numbers are reals, without NaN or infinities. An absent filter and an empty one are both the empty string, because both skip the clause. Array-valued query parameters are not modelled.
- The `/api/patients` case filter names the column `case_id` (`backend/server.js:390`). The patient INSERT and the teacher-data join name it `caseId` (`backend/server.js:257`, `backend/server.js:427`). The table schema is not part of this model, so the model keeps the clause as written and does not decide which column exists.
- The statement texts use `\n` line ends: the source file's CRLF line ends are read as LF inside template literals. Only the patient INSERT and the two filtered reads are spelled out.
