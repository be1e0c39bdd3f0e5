/** POST /api/login and POST /api/signup over an abstract `users` table.
    bcrypt is abstract: `matches(password, digest)` stands for
    `bcrypt.compare`, and signup receives the digest `bcrypt.hash` produced
    (cost factor 10) for the submitted password. */
module Accounts {
  import opened Outcomes

  const LoginMessage := "Login successful"
  const InvalidCredentialsError := "Invalid email or password."
  const UserNotFoundError := "User not found."
  const DuplicateUserError := "User already exists with this email."
  const CreatedMessage := "User created successfully!"
  const SignupFailedError := "An error occurred while processing your request."

  /** A row of `users`; `password` holds the bcrypt digest. */
  datatype UserRow = UserRow(id: nat, name: string, email: string, password: string, role: string)

  /** The public profile login returns: the row without its digest. */
  datatype Profile = Profile(id: nat, name: string, email: string, role: string)

  datatype SignupResult = SignupResult(reply: Reply<()>, users: seq<UserRow>)

  /** `SELECT * FROM users WHERE email = ? AND role = ?`, in table order. */
  function MatchingUsers(users: seq<UserRow>, email: string, role: string): (r: seq<UserRow>)
    ensures |r| <= |users|
    ensures forall i | 0 <= i < |r| :: r[i].email == email && r[i].role == role
  {
    if users == [] then []
    else
      var rest := MatchingUsers(users[1..], email, role);
      if users[0].email == email && users[0].role == role then [users[0]] + rest else rest
  }

  /** The query returns exactly the rows with this email and role; so it
      returns nothing exactly when no row has both. */
  lemma {:induction false} MatchingUsersMembers(users: seq<UserRow>, email: string, role: string)
    ensures forall u :: u in MatchingUsers(users, email, role) <==> u in users && u.email == email && u.role == role
    ensures MatchingUsers(users, email, role) == [] <==> forall u | u in users :: u.email != email || u.role != role
  {
    if users != [] {
      MatchingUsersMembers(users[1..], email, role);
      assert forall u | u in users :: u == users[0] || u in users[1..];
    }
  }

  lemma {:induction false} MatchingUsersAppend(users: seq<UserRow>, more: seq<UserRow>, email: string, role: string)
    ensures MatchingUsers(users + more, email, role) == MatchingUsers(users, email, role) + MatchingUsers(more, email, role)
  {
    if users != [] {
      var head := users[0];
      assert (users + more)[0] == head;
      assert (users + more)[1..] == users[1..] + more;
      MatchingUsersAppend(users[1..], more, email, role);
      var own := if head.email == email && head.role == role then [head] else [];
      assert MatchingUsers(users, email, role) == own + MatchingUsers(users[1..], email, role);
      assert MatchingUsers(users + more, email, role) == own + MatchingUsers(users[1..] + more, email, role);
    } else {
      assert users + more == more;
    }
  }

  /** The login decision: 404 when no row has this email and role; otherwise
      the first such row decides, 200 with its public profile when the
      password matches its digest and 401 when it does not. */
  function Login(users: seq<UserRow>, email: string, password: string, role: string,
                 matches: (string, string) -> bool): (r: Reply<Profile>)
    ensures r.status == 404 <==> forall u | u in users :: u.email != email || u.role != role
    ensures r.status == 404 ==> r.body == Error(UserNotFoundError)
    ensures r.status == 401 ==> r.body == Error(InvalidCredentialsError)
    ensures r.status in {200, 401, 404}
    ensures r.status != 404 ==>
      && MatchingUsers(users, email, role) != []
      && var u := MatchingUsers(users, email, role)[0];
         && u in users && u.email == email && u.role == role
         && (r.status == 200 <==> matches(password, u.password))
         && (r.status == 200 ==> r.body == MessageWith(LoginMessage, Profile(u.id, u.name, email, role)))
  {
    MatchingUsersMembers(users, email, role);
    var results := MatchingUsers(users, email, role);
    if |results| > 0 then
      var user := results[0];
      if matches(password, user.password) then
        Reply(200, MessageWith(LoginMessage, Profile(user.id, user.name, user.email, user.role)))
      else
        Reply(401, Error(InvalidCredentialsError))
    else
      Reply(404, Error(UserNotFoundError))
  }

  /** The signup decision: 400 and no change when some user already has the
      email; otherwise the new row (with the digest, never the password) is
      appended and the answer is 201, unless the insert fails (500, no change). */
  function Signup(users: seq<UserRow>, name: string, email: string, password: string, role: string,
                  digest: string, insert: InsertOutcome): (r: SignupResult)
    ensures (exists u | u in users :: u.email == email) ==>
      r == SignupResult(Reply(400, Error(DuplicateUserError)), users)
    ensures (forall u | u in users :: u.email != email) && insert.Inserted? ==>
      r == SignupResult(Reply(201, Message(CreatedMessage)), users + [UserRow(insert.insertId, name, email, digest, role)])
    ensures (forall u | u in users :: u.email != email) && insert.InsertFailed? ==>
      r == SignupResult(Reply(500, Error(SignupFailedError)), users)
    ensures |r.users| <= |users| + 1 && r.users[..|users|] == users
  {
    if exists u | u in users :: u.email == email then
      SignupResult(Reply(400, Error(DuplicateUserError)), users)
    else
      match insert
      case Inserted(id) =>
        SignupResult(Reply(201, Message(CreatedMessage)), users + [UserRow(id, name, email, digest, role)])
      case InsertFailed =>
        SignupResult(Reply(500, Error(SignupFailedError)), users)
  }

  /** A successful signup with a fresh email is followed by a successful
      login with the same credentials, which returns the new user's profile. */
  lemma SignupThenLogin(users: seq<UserRow>, name: string, email: string, password: string, role: string,
                        digest: string, id: nat, matches: (string, string) -> bool)
    requires forall u | u in users :: u.email != email
    requires matches(password, digest)
    ensures var after := Signup(users, name, email, password, role, digest, Inserted(id));
      && after.reply.status == 201
      && Login(after.users, email, password, role, matches)
         == Reply(200, MessageWith(LoginMessage, Profile(id, name, email, role)))
  {
    var added := UserRow(id, name, email, digest, role);
    MatchingUsersAppend(users, [added], email, role);
    assert MatchingUsers([added], email, role) == [added];
  }

  /** Once signup has added a user, a second signup with the same email is
      refused and leaves the table as it was. */
  lemma {:induction false} SignupTwiceRefused(users: seq<UserRow>, name: string, email: string, password: string,
                           role: string, digest: string, id: nat,
                           name2: string, password2: string, role2: string, digest2: string, insert2: InsertOutcome)
    requires forall u | u in users :: u.email != email
    ensures var after := Signup(users, name, email, password, role, digest, Inserted(id)).users;
      Signup(after, name2, email, password2, role2, digest2, insert2)
        == SignupResult(Reply(400, Error(DuplicateUserError)), after)
  {
    var after := Signup(users, name, email, password, role, digest, Inserted(id)).users;
    assert after[|users|].email == email;
  }
}
