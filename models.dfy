/** The schema of notices/models.py: the choice lists, the rows of the three
    tables, their field defaults, the string forms of an attachment and a
    subscription, and what the foreign keys' delete rules do to a database
    state. */
module Models {
  import opened Maybe
  import opened Strings

  type UserId = nat
  type NoticeId = nat
  type AttachmentId = nat

  /** A Django `choices` list: (stored code, display label) pairs. */
  type Choices = seq<(string, string)>

  const NoticeTypes: Choices := [
    ("Common", "Common"),
    ("Examinations", "Examinations"),
    ("Assignments", "Assignments"),
    ("Notes", "Notes"),
    ("Events", "Events"),
    ("Backs", "Backs"),
    ("Urgent", "Urgent")
  ]

  const Departments: Choices := [
    ("CSE", "Computer Science and Engineering"),
    ("EE", "Electrical Engineering"),
    ("ME", "Mechanical Engineering"),
    ("CE", "Civil Engineering")
  ]

  const Semesters: Choices := [
    ("S1", "Semester 1"),
    ("S2", "Semester 2"),
    ("S3", "Semester 3"),
    ("S4", "Semester 4"),
    ("S5", "Semester 5"),
    ("S6", "Semester 6"),
    ("S7", "Semester 7"),
    ("S8", "Semester 8"),
    ("ALL", "All Semesters")
  ]

  /** The filter value that selects every department or semester. */
  const All: string := "ALL"

  const DefaultNoticeType: string := "Common"
  const DefaultNoticeDepartment: string := "CSE"
  const DefaultNoticeSemester: string := All

  function Codes(choices: Choices): set<string> {
    set i | 0 <= i < |choices| :: choices[i].0
  }

  predicate DistinctCodes(choices: Choices) {
    forall i, j :: 0 <= i < j < |choices| ==> choices[i].0 != choices[j].0
  }

  lemma DepartmentCodes()
    ensures Codes(Departments) == {"CSE", "EE", "ME", "CE"}
    ensures DistinctCodes(Departments)
    ensures All !in Codes(Departments)
  {
    assert Departments[0].0 == "CSE" && Departments[1].0 == "EE";
    assert Departments[2].0 == "ME" && Departments[3].0 == "CE";
  }

  lemma SemesterCodes()
    ensures Codes(Semesters) == {"S1", "S2", "S3", "S4", "S5", "S6", "S7", "S8", "ALL"}
  {
    assert Semesters[0].0 == "S1" && Semesters[1].0 == "S2" && Semesters[2].0 == "S3";
    assert Semesters[3].0 == "S4" && Semesters[4].0 == "S5" && Semesters[5].0 == "S6";
    assert Semesters[6].0 == "S7" && Semesters[7].0 == "S8" && Semesters[8].0 == "ALL";
  }

  lemma SemesterCodesDistinct()
    ensures DistinctCodes(Semesters)
  {
  }

  lemma NoticeTypeCodes()
    ensures |NoticeTypes| == 7 && DistinctCodes(NoticeTypes)
    ensures Codes(NoticeTypes) == {"Common", "Examinations", "Assignments", "Notes", "Events", "Backs", "Urgent"}
  {
    assert NoticeTypes[0].0 == "Common" && NoticeTypes[1].0 == "Examinations";
    assert NoticeTypes[2].0 == "Assignments" && NoticeTypes[3].0 == "Notes";
    assert NoticeTypes[4].0 == "Events" && NoticeTypes[5].0 == "Backs" && NoticeTypes[6].0 == "Urgent";
  }

  /** The notice defaults are codes of their lists; the subscription default
      'ALL' is a semester code but not a department code. */
  lemma DefaultsAreCodes()
    ensures DefaultNoticeType in Codes(NoticeTypes)
    ensures DefaultNoticeDepartment in Codes(Departments)
    ensures DefaultNoticeSemester in Codes(Semesters)
    ensures All in Codes(Semesters) && All !in Codes(Departments)
  {
    assert NoticeTypes[0].0 == DefaultNoticeType;
    assert Departments[0].0 == DefaultNoticeDepartment;
    assert Semesters[8].0 == All;
    DepartmentCodes();
  }

  /** `get_FOO_display()`: the label paired with `code`, or `code` itself when
      it is not one of the choices. */
  function Display(choices: Choices, code: string): (shown: string)
    ensures code in Codes(choices) ==> (code, shown) in choices
    ensures code !in Codes(choices) ==> shown == code
  {
    if choices == [] then code
    else if choices[0].0 == code then choices[0].1
    else
      assert code in Codes(choices[1..]) <==> code in Codes(choices) by {
        if code in Codes(choices) {
          var i :| 0 <= i < |choices| && choices[i].0 == code;
          assert choices[1..][i - 1].0 == code;
        }
        if code in Codes(choices[1..]) {
          var i :| 0 <= i < |choices| - 1 && choices[1..][i].0 == code;
          assert choices[i + 1].0 == code;
        }
      }
      Display(choices[1..], code)
  }

  datatype Notice = Notice(
    id: NoticeId,
    title: string,
    postedBy: UserId,
    postedAt: int,        // seconds, in the server's local time zone
    noticeType: string,
    department: string,
    semester: string,
    description: string)

  /** The three choice fields hold codes of their lists. */
  predicate HasValidChoices(n: Notice) {
    && n.noticeType in Codes(NoticeTypes)
    && n.department in Codes(Departments)
    && n.semester in Codes(Semesters)
  }

  /** A new Notice row: a choice field left unset takes the model default. */
  function NewNotice(
    id: NoticeId, title: string, postedBy: UserId, postedAt: int, description: string,
    noticeType: Option<string>, department: Option<string>, semester: Option<string>): (n: Notice)
    ensures n.id == id && n.title == title && n.postedBy == postedBy
    ensures n.postedAt == postedAt && n.description == description
    ensures n.noticeType == (if noticeType.None? then "Common" else noticeType.value)
    ensures n.department == (if department.None? then "CSE" else department.value)
    ensures n.semester == (if semester.None? then "ALL" else semester.value)
    ensures (noticeType.Some? ==> noticeType.value in Codes(NoticeTypes))
         && (department.Some? ==> department.value in Codes(Departments))
         && (semester.Some? ==> semester.value in Codes(Semesters))
        ==> HasValidChoices(n)
  {
    DefaultsAreCodes();
    Notice(id, title, postedBy, postedAt,
           if noticeType.None? then DefaultNoticeType else noticeType.value,
           if department.None? then DefaultNoticeDepartment else department.value,
           if semester.None? then DefaultNoticeSemester else semester.value,
           description)
  }

  /** `Meta.ordering = ['-posted_at']`: newest first. */
  predicate NewestFirst(s: seq<Notice>) {
    forall i, j :: 0 <= i < j < |s| ==> s[i].postedAt >= s[j].postedAt
  }

  datatype Attachment = Attachment(
    id: AttachmentId,
    file: string,         // the stored file name, a '/'-separated path
    notice: NoticeId,
    name: string)         // optional display name; "" when left blank

  /** `Attachment.filename()`. */
  function Filename(a: Attachment): string {
    Basename(a.file)
  }

  /** `Attachment.__str__()` for an attachment of `parent`. */
  function AttachmentLabel(a: Attachment, parent: Notice): (r: string)
    requires a.notice == parent.id
    ensures a.name != "" ==> r == a.name + " attached to " + parent.title
    ensures a.name == "" ==> r == Filename(a) + " attached to " + parent.title
    ensures a.name == "" ==> '/' !in r[..|Filename(a)|] && r[..|Filename(a)|] == a.file[|a.file| - |Filename(a)|..]
  {
    (if a.name != "" then a.name else Filename(a)) + " attached to " + parent.title
  }

  datatype PushSubscription = PushSubscription(
    endpoint: string,
    p256dhKey: string,
    authKey: string,
    user: Option<UserId>,
    department: string,
    semester: string,
    subscribedAt: int)

  /** A new PushSubscription row with its field defaults: no user, both filters 'ALL'. */
  function NewSubscription(endpoint: string, p256dh: string, auth: string, at: int): (s: PushSubscription)
    ensures s.endpoint == endpoint && s.p256dhKey == p256dh && s.authKey == auth && s.subscribedAt == at
    ensures s.user == None && s.department == All && s.semester == All
    ensures s.department !in Codes(Departments) && s.semester in Codes(Semesters)
  {
    DefaultsAreCodes();
    PushSubscription(endpoint, p256dh, auth, None, All, All, at)
  }

  /** `PushSubscription.__str__()`: the first 30 characters of the endpoint. */
  function SubscriptionLabel(s: PushSubscription): (r: string)
    ensures |r| == 20 + (if |s.endpoint| < 30 then |s.endpoint| else 30)
    ensures r[..17] == "Subscription for " && r[|r| - 3..] == "..."
    ensures r[17..|r| - 3] == s.endpoint[..|r| - 20]
  {
    "Subscription for " + s.endpoint[..if |s.endpoint| < 30 then |s.endpoint| else 30] + "..."
  }

  /** The subscription table keyed by endpoint: each row sits under its own endpoint. */
  predicate KeyedByEndpoint(subs: map<string, PushSubscription>) {
    forall e :: e in subs ==> subs[e].endpoint == e
  }

  /** `unique=True` on the endpoint: two rows with the same endpoint are the same row. */
  lemma EndpointUnique(subs: map<string, PushSubscription>, s1: PushSubscription, s2: PushSubscription)
    requires KeyedByEndpoint(subs)
    requires s1 in subs.Values && s2 in subs.Values && s1.endpoint == s2.endpoint
    ensures s1 == s2
  {
    var e1 :| e1 in subs && subs[e1] == s1;
    var e2 :| e2 in subs && subs[e2] == s2;
  }

  /** A state of the database: users and the three tables of the app. */
  datatype Db = Db(
    users: set<UserId>,
    notices: map<NoticeId, Notice>,
    attachments: map<AttachmentId, Attachment>,
    subscriptions: map<string, PushSubscription>)

  /** Every row is stored under its own key and every foreign key points at an existing row. */
  predicate Consistent(db: Db) {
    && (forall id :: id in db.notices ==> db.notices[id].id == id && db.notices[id].postedBy in db.users)
    && (forall k :: k in db.attachments ==> db.attachments[k].id == k && db.attachments[k].notice in db.notices)
    && KeyedByEndpoint(db.subscriptions)
    && (forall e :: e in db.subscriptions && db.subscriptions[e].user.Some? ==>
          db.subscriptions[e].user.value in db.users)
  }

  /** `on_delete=CASCADE` from Notice to Attachment: the attachments left when notice `id` goes. */
  function CascadeAttachments(atts: map<AttachmentId, Attachment>, id: NoticeId): (r: map<AttachmentId, Attachment>)
    ensures forall k :: k in r <==> k in atts && atts[k].notice != id
    ensures forall k :: k in r ==> r[k] == atts[k]
  {
    map k | k in atts && atts[k].notice != id :: atts[k]
  }

  /** Deleting a notice deletes its attachments and nothing else. */
  function DeleteNotice(db: Db, id: NoticeId): (r: Db)
    ensures r.notices.Keys == db.notices.Keys - {id}
    ensures forall n :: n in r.notices ==> r.notices[n] == db.notices[n]
    ensures forall k :: k in r.attachments <==> k in db.attachments && db.attachments[k].notice != id
    ensures forall k :: k in r.attachments ==> r.attachments[k] == db.attachments[k]
    ensures r.users == db.users && r.subscriptions == db.subscriptions
    ensures Consistent(db) ==> Consistent(r)
  {
    db.(notices := db.notices - {id}, attachments := CascadeAttachments(db.attachments, id))
  }

  /** Deleting a user: CASCADE removes the user's notices and, through them,
      their attachments; SET_NULL keeps every subscription and clears its user. */
  function DeleteUser(db: Db, u: UserId): (r: Db)
    ensures r.users == db.users - {u}
    ensures forall id :: id in r.notices <==> id in db.notices && db.notices[id].postedBy != u
    ensures forall k :: k in r.attachments <==>
      k in db.attachments && !(db.attachments[k].notice in db.notices && db.notices[db.attachments[k].notice].postedBy == u)
    ensures r.subscriptions.Keys == db.subscriptions.Keys
    ensures forall e :: e in r.subscriptions ==>
      r.subscriptions[e] == if db.subscriptions[e].user == Some(u) then db.subscriptions[e].(user := None)
                            else db.subscriptions[e]
    ensures forall id :: id in r.notices ==> r.notices[id] == db.notices[id]
    ensures forall k :: k in r.attachments ==> r.attachments[k] == db.attachments[k]
    ensures forall e :: e in r.subscriptions ==> r.subscriptions[e].user != Some(u)
    ensures Consistent(db) ==> Consistent(r)
  {
    var notices := map id | id in db.notices && db.notices[id].postedBy != u :: db.notices[id];
    var attachments := map k | k in db.attachments &&
      !(db.attachments[k].notice in db.notices && db.notices[db.attachments[k].notice].postedBy == u) :: db.attachments[k];
    var subscriptions := map e | e in db.subscriptions ::
      if db.subscriptions[e].user == Some(u) then db.subscriptions[e].(user := None) else db.subscriptions[e];
    Db(db.users - {u}, notices, attachments, subscriptions)
  }
}
