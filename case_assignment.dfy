/** POST /api/assign-case: validate the payload, build the activity event
    and push it to every real-time client whose connection is open. */
module CaseAssignment {
  import opened JsValues
  import opened Outcomes

  const InvalidPayloadError := "Invalid payload. Case ID, title, scenarios, questions, and assigned students are required."
  const AssignedMessage := "Case assigned successfully!"

  /** The fields the handler destructures from the request body. */
  datatype AssignPayload = AssignPayload(
    caseKey: JsValue,
    title: JsValue,
    scenarios: JsValue,
    questions: JsValue,
    assignedStudents: JsValue)

  /** The activity event; `kind` is the event's `type` field. */
  datatype Activity = Activity(
    kind: string,
    caseKey: JsValue,
    title: JsValue,
    assignedStudents: JsValue,
    timestamp: string)

  /** The `readyState` of a WebSocket connection. */
  datatype ReadyState = Connecting | Open | Closing | Closed

  type ClientId = nat

  /** A connected client, as the server's client set holds it. */
  datatype Client = Client(id: ClientId, state: ReadyState)

  /** One `client.send` of the serialised activity. */
  datatype Delivery = Delivery(to: ClientId, activity: Activity)

  /** The guard the handler passes: all five fields truthy and the student
      list's `length` not strictly equal to 0. */
  predicate PayloadAccepted(p: AssignPayload) {
    && Truthy(p.caseKey)
    && Truthy(p.title)
    && Truthy(p.scenarios)
    && Truthy(p.questions)
    && Truthy(p.assignedStudents)
    && LengthOf(p.assignedStudents) != Num(0.0)
  }

  /** The activity built once the guard has passed. Its `||` fallbacks are
      never taken, and the student list is passed on as given whenever it is
      an array or a string; a truthy value without a truthy `length` (a
      number, or an object such as `{}`) is replaced by the empty list, and
      an object with a truthy own `length` is passed on as given. */
  function NewActivity(p: AssignPayload, timestamp: string): (a: Activity)
    requires PayloadAccepted(p)
    ensures a.kind == "assignment" && a.timestamp == timestamp
    ensures a.caseKey == p.caseKey && a.title == p.title
    ensures p.assignedStudents.Arr? ==> a.assignedStudents == p.assignedStudents && |a.assignedStudents.items| > 0
    ensures p.assignedStudents.Str? ==> a.assignedStudents == p.assignedStudents && |a.assignedStudents.s| > 0
    ensures p.assignedStudents.Num? || p.assignedStudents.Bool? ==> a.assignedStudents == Arr([])
    ensures p.assignedStudents.Obj? ==>
      (a.assignedStudents == p.assignedStudents <==> Truthy(Lookup(p.assignedStudents.props, "length")))
    ensures p.assignedStudents == Obj([]) ==> a.assignedStudents == Arr([])
    ensures a.assignedStudents == p.assignedStudents || a.assignedStudents == Arr([])
  {
    var students := p.assignedStudents;
    Activity(
      "assignment",
      Or(p.caseKey, Str("N/A")),
      Or(p.title, Str("Unknown Title")),
      if Truthy(LengthOf(students)) then students else Arr([]),
      timestamp)
  }

  /** The ids of the open clients, in iteration order. */
  function OpenClients(clients: seq<Client>): seq<ClientId> {
    if clients == [] then []
    else (if clients[0].state == Open then [clients[0].id] else []) + OpenClients(clients[1..])
  }

  /** The client each delivery went to, in sending order. */
  function Recipients(sent: seq<Delivery>): (r: seq<ClientId>)
    ensures |r| == |sent| && forall i | 0 <= i < |sent| :: r[i] == sent[i].to
  {
    if sent == [] then [] else [sent[0].to] + Recipients(sent[1..])
  }

  predicate DistinctIds(clients: seq<Client>) {
    forall i, j | 0 <= i < j < |clients| :: clients[i].id != clients[j].id
  }

  lemma {:induction false} OpenClientsSnoc(clients: seq<Client>, c: Client)
    ensures OpenClients(clients + [c]) == OpenClients(clients) + (if c.state == Open then [c.id] else [])
  {
    if clients == [] {
      assert clients + [c] == [c];
    } else {
      assert (clients + [c])[1..] == clients[1..] + [c];
      OpenClientsSnoc(clients[1..], c);
    }
  }

  lemma {:induction false} RecipientsSnoc(sent: seq<Delivery>, d: Delivery)
    ensures Recipients(sent + [d]) == Recipients(sent) + [d.to]
  {
    var r := Recipients(sent + [d]);
    assert |r| == |sent| + 1;
    forall i | 0 <= i < |r| ensures r[i] == (Recipients(sent) + [d.to])[i] {
      if i < |sent| {
        assert (sent + [d])[i] == sent[i];
      }
    }
  }

  /** Dropping the first client keeps the ids distinct, and none of the
      others shares its id. */
  lemma DistinctTail(clients: seq<Client>)
    requires clients != [] && DistinctIds(clients)
    ensures DistinctIds(clients[1..])
    ensures forall c | c in clients[1..] :: c.id != clients[0].id
  {
    var rest := clients[1..];
    forall i, j | 0 <= i < j < |rest| ensures rest[i].id != rest[j].id {
      assert rest[i] == clients[i + 1] && rest[j] == clients[j + 1];
    }
    forall c | c in rest ensures c.id != clients[0].id {
      var k :| 0 <= k < |rest| && rest[k] == c;
      assert clients[k + 1] == c;
    }
  }

  /** Nobody outside the client set, and no client that is not open, is
      among the recipients. */
  lemma {:induction false} OpenClientsAreOpen(clients: seq<Client>)
    ensures forall id | id in OpenClients(clients) :: exists c :: c in clients && c.id == id && c.state == Open
  {
    if clients != [] {
      OpenClientsAreOpen(clients[1..]);
      forall id | id in OpenClients(clients)
        ensures exists c :: c in clients && c.id == id && c.state == Open
      {
        if id !in OpenClients(clients[1..]) {
          assert clients[0] in clients;
        } else {
          var c :| c in clients[1..] && c.id == id && c.state == Open;
          assert c in clients;
        }
      }
    }
  }

  /** With distinct client ids, every open client is sent the activity
      exactly once and every other client never. */
  lemma {:induction false} OpenClientsExactlyOnce(clients: seq<Client>)
    requires DistinctIds(clients)
    ensures forall c | c in clients :: multiset(OpenClients(clients))[c.id] == if c.state == Open then 1 else 0
  {
    if clients != [] {
      var head, rest := clients[0], clients[1..];
      DistinctTail(clients);
      OpenClientsExactlyOnce(rest);
      var own := if head.state == Open then [head.id] else [];
      assert OpenClients(clients) == own + OpenClients(rest);
      OpenClientsAreOpen(rest);
      assert head.id !in OpenClients(rest);
      forall c | c in clients
        ensures multiset(OpenClients(clients))[c.id] == if c.state == Open then 1 else 0
      {
        if c != head {
          var k :| 0 <= k < |clients| && clients[k] == c;
          assert c in rest by { assert rest[k - 1] == c; }
        }
      }
    }
  }

  /** The `wss.clients.forEach` loop: send the activity to each client whose
      `readyState` is OPEN and skip the others. */
  method Broadcast(clients: seq<Client>, activity: Activity) returns (sent: seq<Delivery>)
    ensures Recipients(sent) == OpenClients(clients)
    ensures forall d | d in sent :: d.activity == activity
  {
    sent := [];
    for i := 0 to |clients|
      invariant Recipients(sent) == OpenClients(clients[..i])
      invariant forall d | d in sent :: d.activity == activity
    {
      var client := clients[i];
      assert clients[..i + 1] == clients[..i] + [client];
      OpenClientsSnoc(clients[..i], client);
      if client.state == Open {
        RecipientsSnoc(sent, Delivery(client.id, activity));
        sent := sent + [Delivery(client.id, activity)];
      }
    }
    assert clients[..|clients|] == clients;
  }

  /** The handler: a rejected payload answers 400 and sends nothing; an
      accepted one answers 200 with the activity, whatever number of clients
      it reached, after sending it to exactly the open clients. */
  method AssignCase(p: AssignPayload, clients: seq<Client>, timestamp: string)
    returns (reply: Reply<Activity>, sent: seq<Delivery>)
    ensures !PayloadAccepted(p) ==> reply == Reply(400, Error(InvalidPayloadError)) && sent == []
    ensures PayloadAccepted(p) ==>
      && reply == Reply(200, MessageWith(AssignedMessage, NewActivity(p, timestamp)))
      && Recipients(sent) == OpenClients(clients)
      && forall d | d in sent :: d.activity == NewActivity(p, timestamp)
  {
    if !PayloadAccepted(p) {
      return Reply(400, Error(InvalidPayloadError)), [];
    }
    var activity := NewActivity(p, timestamp);
    sent := Broadcast(clients, activity);
    reply := Reply(200, MessageWith(AssignedMessage, activity));
  }
}
