/** Notification fan-out (`NoticeCreateView.send_notice_push`): build the
    payload of a new notice, select the subscriptions whose department filter
    matches it, and attempt one delivery to each, counting successes and
    failures. The push transport is an oracle: `failing` is the set of
    endpoints whose delivery raises. */
module FanOut {
  import opened Maybe
  import opened Models
  import opened Routes
  import opened Subscriptions

  /** Time to live handed to the transport for every delivery, in seconds. */
  const PushTtl: nat := 1000

  const PayloadTitlePrefix: string := "New Notice: "

  datatype Payload = Payload(title: string, body: string, url: string)

  /** The payload shown by the browser for notice `n`; `mount` is where the app is mounted. */
  function BuildPayload(n: Notice, mount: string): (p: Payload)
    ensures |PayloadTitlePrefix| <= |p.title| && p.title == PayloadTitlePrefix + p.title[|PayloadTitlePrefix|..]
    ensures n.department in Codes(Departments) ==> (n.department, p.title[|PayloadTitlePrefix|..]) in Departments
    ensures n.department !in Codes(Departments) ==> p.title[|PayloadTitlePrefix|..] == n.department
    ensures p.body == n.title
    ensures ResolveDetail(mount, p.url) == Some(n.id)
  {
    DetailUrlRoundTrip(mount, n.id);
    var shown := Display(Departments, n.department);
    assert (PayloadTitlePrefix + shown)[|PayloadTitlePrefix|..] == shown;
    Payload(PayloadTitlePrefix + shown, n.title, DetailUrl(mount, n.id))
  }

  /** `Q(department='ALL') | Q(department=notice.department)`; the semester is not consulted. */
  predicate Matches(s: PushSubscription, n: Notice) {
    s.department == All || s.department == n.department
  }

  /** The endpoints of the subscriptions the fan-out selects, each once. */
  function Selected(rows: map<string, PushSubscription>, n: Notice): (sel: set<string>)
    ensures sel <= rows.Keys
    ensures forall e :: e in rows && rows[e].department == All ==> e in sel
    ensures forall e :: e in rows && rows[e].department == n.department ==> e in sel
    ensures forall e :: e in rows && rows[e].department != All && rows[e].department != n.department ==> e !in sel
  {
    set e | e in rows && Matches(rows[e], n)
  }

  /** Two tables that differ only in their semester filters select the same
      subscriptions, whatever the notice's semester. */
  lemma SemesterIgnored(rows: map<string, PushSubscription>, rows': map<string, PushSubscription>, n: Notice, n': Notice)
    requires rows.Keys == rows'.Keys
    requires forall e :: e in rows ==> rows'[e] == rows[e].(semester := rows'[e].semester)
    requires n' == n.(semester := n'.semester)
    ensures Selected(rows', n') == Selected(rows, n)
  {
    forall e | e in rows
      ensures Matches(rows'[e], n') == Matches(rows[e], n)
    {
      assert rows'[e].department == rows[e].department;
    }
  }

  /** One call of the push transport. */
  datatype Attempt = Attempt(endpoint: string, p256dh: string, auth: string, payload: Payload, ttl: nat, delivered: bool)

  /** The push transport (`_send_notification`). Every call is recorded in
      `log`, in order; a call for an endpoint in `failing` raises, any other
      succeeds. The transport never touches the subscription table. */
  class PushTransport {
    const failing: set<string>
    var log: seq<Attempt>

    constructor (failing: set<string>)
      ensures this.failing == failing && log == []
    {
      this.failing := failing;
      log := [];
    }

    /** One delivery; `delivered` is false when the call raises. */
    method Send(endpoint: string, p256dh: string, auth: string, payload: Payload, ttl: nat)
      returns (delivered: bool)
      modifies this
      ensures delivered == (endpoint !in failing)
      ensures log == old(log) + [Attempt(endpoint, p256dh, auth, payload, ttl, delivered)]
    {
      delivered := endpoint !in failing;
      log := log + [Attempt(endpoint, p256dh, auth, payload, ttl, delivered)];
    }
  }

  /** What a fan-out pass did: the summary counters and the transport calls in order. */
  datatype Report = Report(sent: nat, failed: nat, attempts: seq<Attempt>)

  function AttemptedEndpoints(attempts: seq<Attempt>): set<string> {
    set i | 0 <= i < |attempts| :: attempts[i].endpoint
  }

  predicate DistinctEndpoints(attempts: seq<Attempt>) {
    forall i, j :: 0 <= i < j < |attempts| ==> attempts[i].endpoint != attempts[j].endpoint
  }

  /** Attempt `a` sends the payload of `n` to the stored keys of its
      subscription, and succeeds unless the oracle makes it fail. */
  predicate FaithfulAttempt(a: Attempt, rows: map<string, PushSubscription>, payload: Payload, failing: set<string>) {
    && a.endpoint in rows
    && a.p256dh == rows[a.endpoint].p256dhKey
    && a.auth == rows[a.endpoint].authKey
    && a.payload == payload
    && a.ttl == PushTtl
    && a.delivered == (a.endpoint !in failing)
  }

  predicate AllFaithful(attempts: seq<Attempt>, rows: map<string, PushSubscription>, payload: Payload, failing: set<string>) {
    forall i :: 0 <= i < |attempts| ==> FaithfulAttempt(attempts[i], rows, payload, failing)
  }

  /** `report` is what one fan-out pass for `n` over `rows` produces. */
  ghost predicate ReportFor(report: Report, rows: map<string, PushSubscription>, n: Notice, mount: string, failing: set<string>) {
    && AttemptedEndpoints(report.attempts) == Selected(rows, n)
    && DistinctEndpoints(report.attempts)
    && |report.attempts| == |Selected(rows, n)|
    && AllFaithful(report.attempts, rows, BuildPayload(n, mount), failing)
    && report.sent == |Selected(rows, n) - failing|
    && report.failed == |Selected(rows, n) * failing|
    && report.sent + report.failed == |Selected(rows, n)|
  }

  /** The selected set splits into the delivered and the failed endpoints. */
  lemma {:induction false} SplitCount(sel: set<string>, failing: set<string>)
    ensures |sel - failing| + |sel * failing| == |sel|
  {
    if sel != {} {
      var e :| e in sel;
      var rest := sel - {e};
      SplitCount(rest, failing);
      if e in failing {
        assert sel - failing == rest - failing;
        assert sel * failing == (rest * failing) + {e};
      } else {
        assert sel - failing == (rest - failing) + {e};
        assert sel * failing == rest * failing;
      }
    }
  }

  lemma AppendAttempt(attempts: seq<Attempt>, a: Attempt)
    ensures AttemptedEndpoints(attempts + [a]) == AttemptedEndpoints(attempts) + {a.endpoint}
    ensures DistinctEndpoints(attempts) && a.endpoint !in AttemptedEndpoints(attempts) ==> DistinctEndpoints(attempts + [a])
    ensures forall rows, payload, failing ::
      AllFaithful(attempts, rows, payload, failing) && FaithfulAttempt(a, rows, payload, failing) ==>
      AllFaithful(attempts + [a], rows, payload, failing)
  {
    var s := attempts + [a];
    assert forall i :: 0 <= i < |attempts| ==> s[i] == attempts[i];
    assert s[|attempts|] == a;
  }

  /** Adding one endpoint to the attempted set adds it to exactly one counter. */
  lemma CountStep(done: set<string>, e: string, failing: set<string>)
    requires e !in done
    ensures |(done + {e}) - failing| == |done - failing| + (if e in failing then 0 else 1)
    ensures |(done + {e}) * failing| == |done * failing| + (if e in failing then 1 else 0)
  {
    if e in failing {
      assert (done + {e}) - failing == done - failing;
      assert (done + {e}) * failing == (done * failing) + {e};
    } else {
      assert (done + {e}) - failing == (done - failing) + {e};
      assert (done + {e}) * failing == done * failing;
    }
  }

  /** The loop's state after attempting the endpoints in `done`, with those in `todo` still to go. */
  ghost predicate Progress(rows: map<string, PushSubscription>, n: Notice, payload: Payload, failing: set<string>,
                           todo: set<string>, done: set<string>, attempts: seq<Attempt>, sent: nat, failed: nat) {
    && todo <= Selected(rows, n) && done == Selected(rows, n) - todo
    && AttemptedEndpoints(attempts) == done
    && DistinctEndpoints(attempts)
    && |attempts| == |done|
    && AllFaithful(attempts, rows, payload, failing)
    && sent == |done - failing| && failed == |done * failing|
  }

  /** One delivery attempt to `e` keeps the loop's state consistent. */
  lemma Step(rows: map<string, PushSubscription>, n: Notice, payload: Payload, failing: set<string>,
             todo: set<string>, done: set<string>, attempts: seq<Attempt>, sent: nat, failed: nat, e: string)
    requires Progress(rows, n, payload, failing, todo, done, attempts, sent, failed)
    requires e in todo
    ensures var a := Attempt(e, rows[e].p256dhKey, rows[e].authKey, payload, PushTtl, e !in failing);
      Progress(rows, n, payload, failing, todo - {e}, done + {e}, attempts + [a],
               if e !in failing then sent + 1 else sent, if e in failing then failed + 1 else failed)
  {
    var a := Attempt(e, rows[e].p256dhKey, rows[e].authKey, payload, PushTtl, e !in failing);
    AppendAttempt(attempts, a);
    CountStep(done, e, failing);
    assert e !in done;
    assert Selected(rows, n) - (todo - {e}) == done + {e};
  }

  /** Appending one more attempt to the transport's log keeps it the log from
      before the pass followed by the pass's attempts. */
  lemma AppendToLog(log0: seq<Attempt>, attempts: seq<Attempt>, a: Attempt)
    ensures log0 + attempts + [a] == log0 + (attempts + [a])
  {
  }

  /** `send_notice_push`: one delivery attempt per selected subscription, in
      the order the database yields them; a failed delivery is counted and
      the loop goes on. The table is only read, so no subscription is
      removed; the transport records exactly the attempts of the report. */
  method SendNoticePush(table: SubscriptionTable, n: Notice, mount: string, transport: PushTransport)
    returns (report: Report)
    requires table.Valid()
    modifies transport
    ensures ReportFor(report, table.rows, n, mount, transport.failing)
    ensures transport.log == old(transport.log) + report.attempts
  {
    var failing := transport.failing;
    ghost var log0 := transport.log;
    var rows := table.rows;
    var payload := BuildPayload(n, mount);
    var todo := set e | e in rows && Matches(rows[e], n);
    ghost var done: set<string> := {};
    var sent, failed := 0, 0;
    var attempts: seq<Attempt> := [];
    while todo != {}
      invariant Progress(rows, n, payload, failing, todo, done, attempts, sent, failed)
      invariant transport.log == log0 + attempts
      decreases todo
    {
      var e :| e in todo;
      var a := Attempt(e, rows[e].p256dhKey, rows[e].authKey, payload, PushTtl, e !in failing);
      Step(rows, n, payload, failing, todo, done, attempts, sent, failed, e);
      var delivered := transport.Send(a.endpoint, a.p256dh, a.auth, a.payload, a.ttl);
      AppendToLog(log0, attempts, a);
      attempts := attempts + [a];
      if delivered {
        sent := sent + 1;
      } else {
        failed := failed + 1;
      }
      done := done + {e};
      todo := todo - {e};
    }
    assert rows == table.rows;
    SplitCount(Selected(rows, n), failing);
    report := Report(sent, failed, attempts);
  }

  /** A delivery that fails for one subscription does not stop the attempt
      on another: both are attempted whatever the oracle says. */
  lemma FailureDoesNotStopOthers(report: Report, rows: map<string, PushSubscription>, n: Notice, mount: string,
                                 failing: set<string>, a: string, b: string)
    requires ReportFor(report, rows, n, mount, failing)
    requires a in Selected(rows, n) && b in Selected(rows, n) && a in failing
    ensures exists i :: 0 <= i < |report.attempts| && report.attempts[i].endpoint == b
    ensures exists i :: 0 <= i < |report.attempts| && report.attempts[i].endpoint == a && !report.attempts[i].delivered
  {
    assert b in AttemptedEndpoints(report.attempts);
    assert a in AttemptedEndpoints(report.attempts);
    var i :| 0 <= i < |report.attempts| && report.attempts[i].endpoint == a;
    assert FaithfulAttempt(report.attempts[i], rows, BuildPayload(n, mount), failing);
  }

  /** A CSE notice and subscriptions filtered on ALL, CSE and EE: the first
      two are selected, the third is not. */
  lemma ThreeSubscriptionsScenario(n: Notice, all: PushSubscription, cse: PushSubscription, ee: PushSubscription)
    requires n.department == "CSE"
    requires all.department == All && cse.department == "CSE" && ee.department == "EE"
    requires all.endpoint != cse.endpoint && all.endpoint != ee.endpoint && cse.endpoint != ee.endpoint
    ensures var rows := map[all.endpoint := all, cse.endpoint := cse, ee.endpoint := ee];
            Selected(rows, n) == {all.endpoint, cse.endpoint} && |Selected(rows, n)| == 2
  {
    var rows := map[all.endpoint := all, cse.endpoint := cse, ee.endpoint := ee];
    assert ee.endpoint !in Selected(rows, n);
    assert Selected(rows, n) == {all.endpoint, cse.endpoint};
  }
}
