# Notice board core, modelled in Dafny

This project models the logic of a small Django notice board. Teachers post
notices, each with optional file attachments. Students browse the notices by
department, semester and search term. Browsers register for Web Push
notifications, and each new notice is pushed to every subscription whose
department filter matches it.

Modules, in dependency order:

- `Maybe`: the `Option` type.
- `Strings`: ASCII case folding and `icontains`, `os.path.basename`, and the
  decimal form of a primary key.
- `Routes`: the `notice-list` and `notice-detail` routes. `mount` is the URL
  prefix under which the project mounts the app. A resolver for the detail
  route is proved to invert `reverse`.
- `Models`: the choice lists, the three table rows and their defaults, the
  `__str__` forms of an attachment and a subscription, uniqueness of the
  endpoint, and the CASCADE / SET_NULL delete rules over a database value.
- `Subscriptions`: `SubscribeView.post`. A `SubscriptionTable` class holds the
  push-subscription table as a map keyed by endpoint. Its `Subscribe` method
  validates the parsed request, then upserts the row.
- `FanOut`: `send_notice_push`, written as a loop over the selected
  subscriptions. It counts sent and failed deliveries. The push transport is
  a `PushTransport` object that records every call in its `log`; its
  `failing` set names the endpoints whose delivery raises.
- `Publish`: a `NoticeBoard` class holds the notice and attachment tables. It
  has the create, update and delete views, with their login and author gates.
  Create saves the notice and its attachments, then fans out exactly once.
  Update never fans out.
- `Listing`: the `get_queryset` of the student list, the archive and "my
  notices". Each is a pure filter-and-sort over a sequence of notices. The
  archive's search runs over a left outer join with attachments, followed by
  `.distinct()`.

Behaviour of the code that the model follows:

- A re-subscription resets both filters of the stored row to 'ALL'
  (`notices/views.py:55-56`), not only the keys. It keeps the row's user and
  its subscription time.
- The default department of a subscription, 'ALL', is not a department code.
  Its semester default 'ALL' is a semester code.
- Create redirects to the listing (`success_url`). Update redirects to the
  notice's detail page. Delete redirects to the listing.
- `AuthorRequiredMixin.handle_no_permission` overrides the one
  `LoginRequiredMixin` would call. So an anonymous requester on the update or
  delete view is sent to the listing, not to the login page.
- The student list applies no date restriction once a department or a search
  term is given. The semester filter of the archive is skipped when its value
  is 'ALL'.
- The fan-out never reads the semester of a subscription or of the notice.
- A request body that is valid JSON but not an object, or whose `keys` member
  is not an object, makes `.get` raise AttributeError. The catch-all handler
  turns that into a 500 answer with the exception text.

## Model

| member | source | states |
|---|---|---|
| Strings.Contains | notices/views.py:155-159 | the result is true exactly when the query occurs at some position of the text, the empty query included |
| Strings.IContainsIgnoresCase | notices/views.py:155-159 | `icontains` finds the query exactly when some window of the text agrees with it character by character up to ASCII case |
| Strings.Basename | notices/models.py:69-71 | the result is the suffix of the path after its last '/', holds no '/', and is the whole path when the path has no '/' |
| Strings.DecimalRoundTrip | notices/urls.py:12 | the digits written for a primary key read back as the same number |
| Routes.ResolveDetail | notices/urls.py:12 | a URL resolves to a primary key only when it is the mount prefix, a digit run and a closing '/', and the key is the value of those digits |
| Routes.ResolveDigitRun | notices/urls.py:12 | every URL made of the mount prefix, a non-empty digit run and a closing '/' resolves, to the value of the digits |
| Routes.DetailUrlRoundTrip | notices/views.py:188 | resolving `reverse('notice-detail', pk)` gives back `pk` |
| Models.NoticeTypeCodes | notices/models.py:6-14 | there are exactly seven notice types, with distinct codes Common, Examinations, Assignments, Notes, Events, Backs, Urgent |
| Models.DepartmentCodes | notices/models.py:16-21 | the department codes are exactly CSE, EE, ME and CE, distinct, and 'ALL' is not one of them |
| Models.SemesterCodes | notices/models.py:23-33 | the semester codes are exactly S1 to S8 and ALL |
| Models.SemesterCodesDistinct | notices/models.py:23-33 | no two semester choices share a code |
| Models.DefaultsAreCodes | notices/models.py:41-44 | the notice defaults Common, CSE and ALL are codes of their lists; the subscription default ALL is a semester code but not a department code (models.py:89-90) |
| Models.Display | notices/views.py:186 | `get_department_display()` returns the label paired with a known code and the code itself otherwise |
| Models.NewNotice | notices/models.py:35-46 | a new notice carries the given fields; an unset type, department or semester becomes Common, CSE or ALL; valid given codes give a notice whose choice fields are all valid |
| Models.AttachmentLabel | notices/models.py:73-74 | the label is the name, or when the name is blank the file's basename, followed by " attached to " and the notice title |
| Models.NewSubscription | notices/models.py:76-92 | a new subscription has no user and both filters ALL; its department is outside the department codes and its semester is a semester code |
| Models.SubscriptionLabel | notices/models.py:94-95 | the label is "Subscription for ", the first 30 characters of the endpoint (all of a shorter one), then "..." |
| Models.EndpointUnique | notices/models.py:78 | in a table keyed by endpoint, two rows with the same endpoint are the same row |
| Models.CascadeAttachments | notices/models.py:64 | exactly the attachments of other notices remain, unchanged |
| Models.DeleteNotice | notices/models.py:64 | deleting a notice removes it and exactly its attachments, leaves users and subscriptions alone, and keeps every foreign key valid |
| Models.DeleteUser | notices/models.py:38-86 | deleting a user removes exactly their notices and those notices' attachments, and leaves every other notice and attachment unchanged; every subscription stays and loses only a user reference to the deleted user; foreign keys stay valid |
| Subscriptions.Check | notices/views.py:28-69 | the request is accepted exactly when it is a JSON object with a non-empty endpoint, p256dh and auth; otherwise 400 "Invalid JSON data", "Missing endpoint" or "Missing push keys" in the order the view tests them, and 500 exactly for a non-object body or non-object keys behind a present endpoint |
| Subscriptions.Upsert | notices/views.py:49-59 | afterwards exactly one row is keyed by the endpoint, holding the new keys and both filters ALL; an existing row keeps its user and time, a new row has no user and the current time; every other row is untouched |
| Subscriptions.UpsertSize | notices/views.py:49-62 | the table grows by one row exactly when the endpoint was new, which is when `created` is true |
| Subscriptions.UpsertIdempotent | notices/views.py:49-59 | subscribing again with the same endpoint and keys leaves the table as it was after the first time |
| Subscriptions.SubscriptionTable.Subscribe | notices/views.py:27-69 | a rejected request or a database fault leaves the table unchanged, with the matching 400/500 answer; otherwise the table is the upsert of the old one and the answer is 201 with the created or updated message; 201 exactly on that path |
| FanOut.BuildPayload | notices/views.py:185-189 | the title is "New Notice: " and the department's label (its code when unknown), the body is the notice title, and the URL resolves to the notice's primary key |
| FanOut.Selected | notices/views.py:193-197 | every subscription filtered on ALL or on the notice's department is selected, each endpoint once, and none whose department differs from both |
| FanOut.SemesterIgnored | notices/views.py:193-197 | changing the semesters of the subscriptions or of the notice does not change the selection |
| FanOut.ThreeSubscriptionsScenario | notices/views.py:193-197 | for a CSE notice, subscriptions on ALL and CSE are selected and one on EE is not |
| FanOut.SplitCount | notices/views.py:213-216 | the selected endpoints split into delivered and failed ones, whose counts add up to the selection's size |
| FanOut.PushTransport.Send | notices/views.py:207-216 | one transport call is appended to the log; it succeeds exactly when the endpoint is not a failing one |
| FanOut.SendNoticePush | notices/views.py:183-222 | the transport's log grows by exactly the report's attempts and the subscription table is not modified; every selected subscription gets exactly one attempt, with its stored keys, the notice's payload and a TTL of 1000; nothing else is attempted; the sent and failed counts are the selected endpoints outside and inside the failing set, and they sum to the selection's size |
| FanOut.FailureDoesNotStopOthers | notices/views.py:203-220 | a failing delivery is recorded as failed and every other selected subscription is still attempted |
| Publish.AuthorGate | notices/views.py:82-88 | the request proceeds exactly when a logged-in requester is the notice's author; a missing notice gives 404 to a logged-in requester; anyone else is sent to the listing |
| Publish.NewAttachments | notices/views.py:239-240 | the new attachment rows take consecutive ids from the next free one, one per entry, with the entry's file and name, all pointing at the notice |
| Publish.ApplyEdits | notices/views.py:116-117 | deleted attachments go, changed ones get the new file and name, new ones get fresh ids, and all others are untouched |
| Publish.PublishKeepsWellFormed | notices/views.py:234-240 | saving a notice under a fresh id and then its attachments keeps every row under its own key, below the next free id, with valid choices and an existing notice |
| Publish.EditKeepsWellFormed | notices/views.py:111-117 | saving an author's edit and attachment edits keeps the tables well formed |
| Publish.DeleteKeepsWellFormed | notices/models.py:64 | deleting a notice with its attachments keeps the tables well formed |
| Publish.NoticeBoard.Create | notices/views.py:225-246 | an anonymous request or an invalid formset changes nothing and leaves the transport's log as it was; otherwise the notice is saved under a fresh id with the requester as author, its attachments are saved, one fan-out pass for that notice runs and the log grows by exactly its attempts, and the answer redirects to the listing; update and delete cannot reach the transport |
| Publish.NoticeBoard.Update | notices/views.py:82-126 | a non-author or anonymous requester is sent to the listing, a missing notice gives 404, an invalid formset changes nothing; otherwise the form fields and attachment edits are saved and the answer redirects to the detail page; no push is sent |
| Publish.NoticeBoard.Delete | notices/views.py:128-131 | the same gate as update; the author's delete removes the notice and exactly its attachments and redirects to the listing |
| Listing.Where | notices/views.py:150 | the filter keeps every accepted notice as often as it occurs and drops every other one |
| Listing.SortNewest | notices/models.py:53-54 | the result is newest first and holds the same notices the same number of times |
| Listing.Dedup | notices/views.py:285 | the result holds each notice of the input exactly once |
| Listing.StudentList | notices/views.py:140-163 | with neither a department nor a search term, exactly today's notices; otherwise exactly the notices of the given department matching the search term in title, description or username, from any day; newest first either way |
| Listing.DefaultListingIsToday | notices/views.py:160-162 | a notice is in the default student list exactly when it was posted today |
| Listing.DepartmentListingIgnoresDate | notices/views.py:147-150 | with a department given, a notice of that department is listed whatever day it was posted |
| Listing.MyNotices | notices/views.py:79-80 | exactly the requester's notices, newest first |
| Listing.AttachmentsOf | notices/models.py:64 | exactly the attachments whose foreign key is the notice, each as often as it occurs in the table |
| Listing.JoinOne | notices/views.py:283-284 | a notice's joined rows are one per attachment, each carrying an attachment of the notice, or exactly one row without an attachment when it has none |
| Listing.LeftJoin | notices/views.py:283-284 | a row is in the join exactly when its notice is in the list and the row is one of that notice's joined rows |
| Listing.SearchHits | notices/views.py:276-285 | a notice is returned exactly when some joined row of it matches the search term |
| Listing.SearchThroughJoin | notices/views.py:275-285 | the join search returns exactly the notices whose title, description or username matches, or that have an attachment whose name or file matches |
| Listing.ArchiveList | notices/views.py:262-287 | the department and (unless ALL) semester filters are equalities; with a search term, each matching notice appears exactly once; the result is always newest first |
| Listing.ArchiveListsMatchOnce | notices/views.py:285 | a notice with two matching attachments is listed once |

## Left out

- JSON parsing: the request arrives already parsed. A JSON value of another type where a string is expected (a number, say) is not modelled; every field is either missing or a string.
- Database errors inside `update_or_create`, such as an endpoint longer than the column allows, are one `storeFault` parameter. What such a fault means for a given backend is not modelled.
- Concurrency, and the atomicity of `update_or_create` under concurrent requests: each view runs alone.
- The `print` logging in the subscribe view and in the fan-out.
- `timezone.localdate()` and time zone conversion: `today` is a parameter, and `posted_at` is an integer count of seconds in server local time.
- Strings.IContains: `icontains` folds only ASCII letters (through `Strings.Lower`); the database's Unicode case folding is not modelled.
- The push transport `_send_notification` is modelled by `PushTransport`: a log of calls and a fixed `failing` set of endpoints whose delivery raises. The model assumes the transport has no effect on the subscription table, so "no subscription is removed" is a property of the view's own code. Payload encryption and the Web Push protocol are not modelled.
- `NoticeForm` and the attachment formset (notices/forms.py, notices/attachment_forms.py) are not part of this model. The form is taken as cleaned, so `FormChoicesValid` is a precondition. Formset validity is a boolean input; in addition, edits that touch another notice's attachments redisplay the form.
- Publish.NoticeBoard.Create: an anonymous request gives a `LoginRedirect` outcome; the login URL it redirects to is not modelled.
- Listing.SortNewest: notices with equal `posted_at` keep their input order. The database gives no order for such ties, so the model fixes one.
- Listing.StudentList and Listing.ArchiveList: a notice whose author is missing from `usernames` never matches on username; a consistent database always has the author.
- `Notice.filename` (notices/models.py:48-51) reads an `attachment` attribute that the model does not declare, so it cannot run; it is not modelled.
- `vapid_key`, `create_admin`, the detail view, the project settings and the project URL configuration (only the `mount` prefix is kept).
- The templates and everything that renders HTML.
