/** The subscribe endpoint (`SubscribeView.post`): it checks the parsed
    request, then creates or refreshes the push subscription stored under the
    request's endpoint, and answers with a status code and a message. */
module Subscriptions {
  import opened Maybe
  import opened Strings
  import opened Models

  /** The `keys` member of the request body. */
  datatype KeysField =
    | NoKeys                                  // absent: the view falls back to `{}`
    | KeysNotObject(typeName: string)         // present but not a JSON object (null, a list, a string, ...)
    | Keys(p256dh: Option<string>, auth: Option<string>)

  /** The request body as `json.loads` sees it. */
  datatype SubscribeRequest =
    | NotJson                                 // `json.loads` raises JSONDecodeError
    | NotObject(typeName: string)             // valid JSON whose top level is not an object
    | Body(endpoint: Option<string>, keys: KeysField)

  datatype Response = Response(status: nat, ok: bool, message: string)

  const CreatedMessage: string := "Subscription created successfully"
  const UpdatedMessage: string := "Subscription updated successfully"

  function P256dhOf(keys: KeysField): Option<string> {
    if keys.Keys? then keys.p256dh else None
  }

  function AuthOf(keys: KeysField): Option<string> {
    if keys.Keys? then keys.auth else None
  }

  /** The 500 answer of the view's catch-all handler for exception text `detail`. */
  function ServerError(detail: string): Response {
    Response(500, false, "Server error: " + detail)
  }

  /** `str(e)` of the AttributeError raised by `.get` on a value of another JSON type. */
  function NoGetAttribute(typeName: string): string {
    "'" + typeName + "' object has no attribute 'get'"
  }

  datatype Checked =
    | Rejected(response: Response)
    | Accepted(endpoint: string, p256dh: string, auth: string)

  /** Everything the view does before it touches the table. */
  function Check(req: SubscribeRequest): (c: Checked)
    ensures c.Accepted? <==>
      req.Body? && Truthy(req.endpoint) && Truthy(P256dhOf(req.keys)) && Truthy(AuthOf(req.keys))
    ensures c.Accepted? ==>
      && c.endpoint == req.endpoint.value && c.endpoint != ""
      && c.p256dh == P256dhOf(req.keys).value && c.p256dh != ""
      && c.auth == AuthOf(req.keys).value && c.auth != ""
    ensures req.NotJson? ==> c == Rejected(Response(400, false, "Invalid JSON data"))
    ensures req.Body? && !Truthy(req.endpoint) ==> c == Rejected(Response(400, false, "Missing endpoint"))
    ensures req.Body? && Truthy(req.endpoint) && !req.keys.KeysNotObject?
            && !(Truthy(P256dhOf(req.keys)) && Truthy(AuthOf(req.keys)))
            ==> c == Rejected(Response(400, false, "Missing push keys"))
    ensures c.Rejected? ==> !c.response.ok && c.response.status in {400, 500}
    ensures c.Rejected? && c.response.status == 500 <==>
      req.NotObject? || (req.Body? && Truthy(req.endpoint) && req.keys.KeysNotObject?)
  {
    match req
    case NotJson => Rejected(Response(400, false, "Invalid JSON data"))
    case NotObject(t) => Rejected(ServerError(NoGetAttribute(t)))
    case Body(endpoint, keys) =>
      if !Truthy(endpoint) then Rejected(Response(400, false, "Missing endpoint"))
      else if keys.KeysNotObject? then Rejected(ServerError(NoGetAttribute(keys.typeName)))
      else if !Truthy(P256dhOf(keys)) || !Truthy(AuthOf(keys)) then Rejected(Response(400, false, "Missing push keys"))
      else Accepted(endpoint.value, P256dhOf(keys).value, AuthOf(keys).value)
  }

  /** `update_or_create(endpoint=e, defaults={keys, department='ALL', semester='ALL'})`:
      the table afterwards holds exactly one row for `e`, carrying the new keys
      and both filters reset to 'ALL'; a row that existed keeps its user and
      its subscription time; every other row is untouched. */
  function Upsert(rows: map<string, PushSubscription>, e: string, p256dh: string, auth: string, now: int)
    : (r: map<string, PushSubscription>)
    requires KeyedByEndpoint(rows)
    ensures KeyedByEndpoint(r)
    ensures r.Keys == rows.Keys + {e}
    ensures r[e].endpoint == e && r[e].p256dhKey == p256dh && r[e].authKey == auth
    ensures r[e].department == All && r[e].semester == All
    ensures e in rows ==> r[e].user == rows[e].user && r[e].subscribedAt == rows[e].subscribedAt
    ensures e !in rows ==> r[e].user == None && r[e].subscribedAt == now
    ensures forall k :: k in rows && k != e ==> r[k] == rows[k]
  {
    if e in rows then
      rows[e := rows[e].(p256dhKey := p256dh, authKey := auth, department := All, semester := All)]
    else
      rows[e := NewSubscription(e, p256dh, auth, now)]
  }

  /** The table grows by one row exactly when the endpoint was new. */
  lemma UpsertSize(rows: map<string, PushSubscription>, e: string, p256dh: string, auth: string, now: int)
    requires KeyedByEndpoint(rows)
    ensures |Upsert(rows, e, p256dh, auth, now)| == if e in rows then |rows| else |rows| + 1
  {
    if e in rows {
      assert Upsert(rows, e, p256dh, auth, now) == rows[e := Upsert(rows, e, p256dh, auth, now)[e]];
    } else {
      assert Upsert(rows, e, p256dh, auth, now) == rows[e := NewSubscription(e, p256dh, auth, now)];
    }
  }

  /** Subscribing again with the same endpoint and keys changes nothing more. */
  lemma UpsertIdempotent(rows: map<string, PushSubscription>, e: string, p256dh: string, auth: string, t1: int, t2: int)
    requires KeyedByEndpoint(rows)
    ensures Upsert(Upsert(rows, e, p256dh, auth, t1), e, p256dh, auth, t2) == Upsert(rows, e, p256dh, auth, t1)
  {
    var once := Upsert(rows, e, p256dh, auth, t1);
    var twice := Upsert(once, e, p256dh, auth, t2);
    assert twice[e] == once[e];
  }

  /** The push subscription table of the database. */
  class SubscriptionTable {
    var rows: map<string, PushSubscription>

    ghost predicate Valid()
      reads this
    {
      KeyedByEndpoint(rows)
    }

    constructor ()
      ensures Valid() && rows == map[]
    {
      rows := map[];
    }

    /** `SubscribeView.post`. `now` is the clock reading for `auto_now_add`;
        `storeFault` is the text of an exception the database raises inside
        `update_or_create`, which rolls the upsert back. */
    method Subscribe(req: SubscribeRequest, now: int, storeFault: Option<string>)
      returns (response: Response, created: bool)
      requires Valid()
      modifies this
      ensures Valid()
      ensures Check(req).Rejected? ==> response == Check(req).response && !created && rows == old(rows)
      ensures Check(req).Accepted? && storeFault.Some? ==>
        response == ServerError(storeFault.value) && !created && rows == old(rows)
      ensures Check(req).Accepted? && storeFault.None? ==>
        var c := Check(req);
        && created == (c.endpoint !in old(rows))
        && rows == Upsert(old(rows), c.endpoint, c.p256dh, c.auth, now)
        && response == Response(201, true, if created then CreatedMessage else UpdatedMessage)
      ensures response.status == 201 <==> Check(req).Accepted? && storeFault.None?
    {
      var c := Check(req);
      if c.Rejected? {
        return c.response, false;
      }
      if storeFault.Some? {
        return ServerError(storeFault.value), false;
      }
      created := c.endpoint !in rows;
      rows := Upsert(rows, c.endpoint, c.p256dh, c.auth, now);
      response := Response(201, true, if created then CreatedMessage else UpdatedMessage);
    }
  }
}
