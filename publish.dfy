/** The write paths on notices: `NoticeCreateView.form_valid` (save the notice
    and its attachments, then fan out once), `NoticeUpdateView.form_valid`
    (save, never fan out) and the notice delete view, each behind the access
    checks of `LoginRequiredMixin` and `AuthorRequiredMixin`. */
module Publish {
  import opened Maybe
  import opened Models
  import opened Routes
  import opened Subscriptions
  import opened FanOut

  /** The cleaned fields of a NoticeForm that the framework accepted. */
  datatype NoticeForm = NoticeForm(
    title: string, noticeType: string, department: string, semester: string, description: string)

  /** The form's choice fields only accept codes of their lists. */
  predicate FormChoicesValid(f: NoticeForm) {
    && f.noticeType in Codes(NoticeTypes)
    && f.department in Codes(Departments)
    && f.semester in Codes(Semesters)
  }

  /** One filled-in form of the attachment formset. */
  datatype AttachmentEntry = AttachmentEntry(file: string, name: string)

  /** What a bound attachment formset asks of an existing notice's attachments. */
  datatype AttachmentEdits = AttachmentEdits(
    changed: map<AttachmentId, AttachmentEntry>,
    deleted: set<AttachmentId>,
    added: seq<AttachmentEntry>)

  /** `AuthorRequiredMixin.test_func`: the requester is the notice's author. */
  predicate IsAuthor(n: Notice, requester: UserId) {
    n.postedBy == requester
  }

  datatype Gate = Proceed | RedirectToListing | NotFound

  /** The checks in front of editing or deleting notice `id`. `LoginRequiredMixin`
      runs first, but the `handle_no_permission` it calls is the one
      `AuthorRequiredMixin` overrides, so an anonymous requester is sent to the
      listing as well; `get_object` answers 404 for a missing notice. */
  function AuthorGate(requester: Option<UserId>, notices: map<NoticeId, Notice>, id: NoticeId): (g: Gate)
    ensures g == Proceed <==> requester.Some? && id in notices && IsAuthor(notices[id], requester.value)
    ensures g == NotFound <==> requester.Some? && id !in notices
    ensures requester.None? ==> g == RedirectToListing
  {
    if requester.None? then RedirectToListing
    else if id !in notices then NotFound
    else if IsAuthor(notices[id], requester.value) then Proceed
    else RedirectToListing
  }

  /** The rows `formset.save()` inserts for the new entries, numbered from `start`. */
  function NewAttachments(start: AttachmentId, owner: NoticeId, entries: seq<AttachmentEntry>)
    : (r: map<AttachmentId, Attachment>)
    ensures forall k :: k in r <==> start <= k < start + |entries|
    ensures forall k :: k in r ==> r[k].id == k && r[k].notice == owner
    ensures forall i :: 0 <= i < |entries| ==>
      start + i in r && r[start + i].file == entries[i].file && r[start + i].name == entries[i].name
    decreases |entries|
  {
    if entries == [] then map[]
    else
      var last := |entries| - 1;
      var init := entries[..last];
      assert forall i :: 0 <= i < last ==> init[i] == entries[i];
      NewAttachments(start, owner, init)[start + last := Attachment(start + last, entries[last].file, owner, entries[last].name)]
  }

  /** The formset of notice `id` only holds that notice's attachments. */
  predicate EditsOwnedBy(edits: AttachmentEdits, atts: map<AttachmentId, Attachment>, id: NoticeId) {
    forall k :: k in edits.changed.Keys + edits.deleted ==> k in atts && atts[k].notice == id
  }

  /** `formset.save()` on an existing notice: deleted forms go, changed forms
      are rewritten, new forms are inserted; other rows are untouched. */
  function ApplyEdits(atts: map<AttachmentId, Attachment>, edits: AttachmentEdits, owner: NoticeId, start: AttachmentId)
    : (r: map<AttachmentId, Attachment>)
    requires forall k :: k in atts ==> k < start
    ensures forall k :: k in atts ==> (k in r <==> k !in edits.deleted)
    ensures forall k :: k in atts && k !in edits.deleted && k !in edits.changed ==> r[k] == atts[k]
    ensures forall k :: k in atts && k !in edits.deleted && k in edits.changed ==>
      r[k] == atts[k].(file := edits.changed[k].file, name := edits.changed[k].name)
    ensures forall i :: 0 <= i < |edits.added| ==>
      start + i in r && r[start + i] == Attachment(start + i, edits.added[i].file, owner, edits.added[i].name)
    ensures forall k :: k in r ==> k in atts || start <= k < start + |edits.added|
  {
    var kept := map k | k in atts && k !in edits.deleted ::
      if k in edits.changed then atts[k].(file := edits.changed[k].file, name := edits.changed[k].name) else atts[k];
    kept + NewAttachments(start, owner, edits.added)
  }

  datatype CreateOutcome =
    | LoginRedirect                                          // anonymous requester
    | FormRedisplayed                                        // the attachment formset is invalid
    | Published(id: NoticeId, redirect: string, push: Report)

  datatype EditOutcome =
    | Denied(redirect: string)
    | NotFound404
    | EditRedisplayed
    | Done(redirect: string)

  /** Rows sit under their own keys, keys are below the next free id, every
      notice holds valid choice codes and every attachment has its notice.
      The board holds only the two tables these views write, so this is the
      part of `Models.Consistent` about those tables (users and subscriptions
      live elsewhere), plus the id counters and the choice codes, which a
      `Db` value does not carry. Deletion on the board uses the same
      `CascadeAttachments` as `Models.DeleteNotice`. */
  ghost predicate WellFormed(notices: map<NoticeId, Notice>, attachments: map<AttachmentId, Attachment>,
                             nextNoticeId: nat, nextAttachmentId: nat) {
    && (forall id :: id in notices ==> notices[id].id == id && id < nextNoticeId && HasValidChoices(notices[id]))
    && (forall k :: k in attachments ==>
          attachments[k].id == k && k < nextAttachmentId && attachments[k].notice in notices)
  }

  /** Publishing a notice under the next free id, with its attachments under
      the next free attachment ids, keeps the tables well formed. */
  lemma PublishKeepsWellFormed(notices: map<NoticeId, Notice>, attachments: map<AttachmentId, Attachment>,
                               nextNoticeId: nat, nextAttachmentId: nat, n: Notice, entries: seq<AttachmentEntry>)
    requires WellFormed(notices, attachments, nextNoticeId, nextAttachmentId)
    requires n.id == nextNoticeId && HasValidChoices(n)
    ensures nextNoticeId !in notices
    ensures WellFormed(notices[nextNoticeId := n], attachments + NewAttachments(nextAttachmentId, nextNoticeId, entries),
                       nextNoticeId + 1, nextAttachmentId + |entries|)
  {
    var added := NewAttachments(nextAttachmentId, nextNoticeId, entries);
    var atts := attachments + added;
    forall k | k in atts
      ensures atts[k].id == k && k < nextAttachmentId + |entries| && atts[k].notice in notices[nextNoticeId := n]
    {
      if k in added {
        assert atts[k] == added[k];
      } else {
        assert atts[k] == attachments[k];
      }
    }
  }

  /** Saving an author's edit keeps the tables well formed. */
  lemma EditKeepsWellFormed(notices: map<NoticeId, Notice>, attachments: map<AttachmentId, Attachment>,
                            nextNoticeId: nat, nextAttachmentId: nat, id: NoticeId, form: NoticeForm, edits: AttachmentEdits)
    requires WellFormed(notices, attachments, nextNoticeId, nextAttachmentId)
    requires id in notices && FormChoicesValid(form)
    ensures var edited := notices[id].(title := form.title, noticeType := form.noticeType,
                                       department := form.department, semester := form.semester,
                                       description := form.description);
      WellFormed(notices[id := edited], ApplyEdits(attachments, edits, id, nextAttachmentId),
                 nextNoticeId, nextAttachmentId + |edits.added|)
  {
    var atts := ApplyEdits(attachments, edits, id, nextAttachmentId);
    forall k | k in atts
      ensures atts[k].id == k && k < nextAttachmentId + |edits.added| && atts[k].notice in notices
    {
      if k !in attachments {
        var i := k - nextAttachmentId;
        assert atts[nextAttachmentId + i] == Attachment(nextAttachmentId + i, edits.added[i].file, id, edits.added[i].name);
      }
    }
  }

  /** Deleting a notice with its attachments keeps the tables well formed. */
  lemma DeleteKeepsWellFormed(notices: map<NoticeId, Notice>, attachments: map<AttachmentId, Attachment>,
                              nextNoticeId: nat, nextAttachmentId: nat, id: NoticeId)
    requires WellFormed(notices, attachments, nextNoticeId, nextAttachmentId)
    ensures WellFormed(notices - {id}, CascadeAttachments(attachments, id), nextNoticeId, nextAttachmentId)
  {
  }

  /** The notice and attachment tables. */
  class NoticeBoard {
    var notices: map<NoticeId, Notice>
    var attachments: map<AttachmentId, Attachment>
    var nextNoticeId: nat
    var nextAttachmentId: nat

    ghost predicate Valid()
      reads this
    {
      WellFormed(notices, attachments, nextNoticeId, nextAttachmentId)
    }

    constructor ()
      ensures Valid() && notices == map[] && attachments == map[]
    {
      notices, attachments := map[], map[];
      nextNoticeId, nextAttachmentId := 0, 0;
    }

    /** `NoticeCreateView.form_valid`: with a valid attachment formset, save
        the notice authored by the requester, then its attachments, then run
        the fan-out exactly once; otherwise save nothing and notify no one. */
    method Create(requester: Option<UserId>, form: NoticeForm, formsetValid: bool, entries: seq<AttachmentEntry>,
                  now: int, subs: SubscriptionTable, mount: string, transport: PushTransport)
      returns (outcome: CreateOutcome)
      requires Valid() && subs.Valid() && FormChoicesValid(form)
      modifies this, transport
      ensures Valid()
      ensures outcome.Published? ==> transport.log == old(transport.log) + outcome.push.attempts
      ensures !outcome.Published? ==> transport.log == old(transport.log)
      ensures requester.None? ==> outcome == LoginRedirect && unchanged(this)
      ensures requester.Some? && !formsetValid ==> outcome == FormRedisplayed && unchanged(this)
      ensures requester.Some? && formsetValid ==>
        var id := old(nextNoticeId);
        && id !in old(notices)
        && outcome.Published? && outcome.id == id && outcome.redirect == ListUrl(mount)
        && notices == old(notices)[id := NewNotice(id, form.title, requester.value, now, form.description,
                                                   Some(form.noticeType), Some(form.department), Some(form.semester))]
        && notices[id].postedBy == requester.value
        && attachments == old(attachments) + NewAttachments(old(nextAttachmentId), id, entries)
        && ReportFor(outcome.push, subs.rows, notices[id], mount, transport.failing)
    {
      if requester.None? {
        return LoginRedirect;
      }
      if !formsetValid {
        return FormRedisplayed;
      }
      var id := nextNoticeId;
      var notice := NewNotice(id, form.title, requester.value, now, form.description,
                              Some(form.noticeType), Some(form.department), Some(form.semester));
      PublishKeepsWellFormed(notices, attachments, nextNoticeId, nextAttachmentId, notice, entries);
      notices := notices[id := notice];
      nextNoticeId := nextNoticeId + 1;
      var added := NewAttachments(nextAttachmentId, id, entries);
      attachments := attachments + added;
      nextAttachmentId := nextAttachmentId + |entries|;
      var push := SendNoticePush(subs, notice, mount, transport);
      outcome := Published(id, ListUrl(mount), push);
    }

    /** `NoticeUpdateView`: only the author edits; a valid formset saves the
        notice's fields and its attachment edits. No fan-out happens here. */
    method Update(requester: Option<UserId>, id: NoticeId, form: NoticeForm, formsetValid: bool,
                  edits: AttachmentEdits, mount: string)
      returns (outcome: EditOutcome)
      requires Valid() && FormChoicesValid(form)
      modifies this
      ensures Valid()
      ensures AuthorGate(requester, old(notices), id) == RedirectToListing ==>
        outcome == Denied(ListUrl(mount)) && unchanged(this)
      ensures AuthorGate(requester, old(notices), id) == NotFound ==> outcome == NotFound404 && unchanged(this)
      ensures AuthorGate(requester, old(notices), id) == Proceed && !(formsetValid && EditsOwnedBy(edits, old(attachments), id)) ==>
        outcome == EditRedisplayed && unchanged(this)
      ensures AuthorGate(requester, old(notices), id) == Proceed && formsetValid && EditsOwnedBy(edits, old(attachments), id) ==>
        && outcome == Done(DetailUrl(mount, id))
        && notices == old(notices)[id := old(notices)[id].(title := form.title, noticeType := form.noticeType,
                                                           department := form.department, semester := form.semester,
                                                           description := form.description)]
        && attachments == ApplyEdits(old(attachments), edits, id, old(nextAttachmentId))
    {
      var gate := AuthorGate(requester, notices, id);
      if gate == RedirectToListing {
        return Denied(ListUrl(mount));
      }
      if gate == NotFound {
        return NotFound404;
      }
      if !(formsetValid && EditsOwnedBy(edits, attachments, id)) {
        return EditRedisplayed;
      }
      EditKeepsWellFormed(notices, attachments, nextNoticeId, nextAttachmentId, id, form, edits);
      notices := notices[id := notices[id].(title := form.title, noticeType := form.noticeType,
                                            department := form.department, semester := form.semester,
                                            description := form.description)];
      attachments := ApplyEdits(attachments, edits, id, nextAttachmentId);
      nextAttachmentId := nextAttachmentId + |edits.added|;
      outcome := Done(DetailUrl(mount, id));
    }

    /** `NoticeDeleteView`: only the author deletes; the notice's attachments
        go with it and the requester is sent to the listing. */
    method Delete(requester: Option<UserId>, id: NoticeId, mount: string) returns (outcome: EditOutcome)
      requires Valid()
      modifies this
      ensures Valid()
      ensures AuthorGate(requester, old(notices), id) == RedirectToListing ==>
        outcome == Denied(ListUrl(mount)) && unchanged(this)
      ensures AuthorGate(requester, old(notices), id) == NotFound ==> outcome == NotFound404 && unchanged(this)
      ensures AuthorGate(requester, old(notices), id) == Proceed ==>
        && outcome == Done(ListUrl(mount))
        && notices == old(notices) - {id}
        && attachments == CascadeAttachments(old(attachments), id)
    {
      var gate := AuthorGate(requester, notices, id);
      if gate == RedirectToListing {
        return Denied(ListUrl(mount));
      }
      if gate == NotFound {
        return NotFound404;
      }
      DeleteKeepsWellFormed(notices, attachments, nextNoticeId, nextAttachmentId, id);
      notices := notices - {id};
      attachments := CascadeAttachments(attachments, id);
      outcome := Done(ListUrl(mount));
    }
  }
}
