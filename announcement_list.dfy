/** The announcement board (components/AnnouncementList.tsx): the list kept
    in step with create, edit and delete requests, and the flags that lock
    the buttons while a request is in flight. */
module AnnouncementList {
  import opened Js
  import Seqs

  datatype Announcement = Announcement(
    id: string, title: Value, content: Value, authorEmail: Value, createdAt: Value, updatedAt: Value)

  datatype Form = Form(title: string, content: string)

  const EmptyForm := Form("", "")

  /** A decoded reply to a create request: its `data` field when that is a
      (truthy) announcement, and the whole reply read as an announcement. */
  datatype CreatedBody = CreatedBody(data: Option<Announcement>, whole: Announcement)

  /** `createdResp?.data || createdResp` */
  function NewAnnouncement(body: CreatedBody): Announcement {
    if body.data.Some? then body.data.value else body.whole
  }

  /** How a request ends: a 2xx reply with its body, a non-2xx reply with
      the `error` field of its JSON body, or an exception (transport failure,
      a reply body that is not JSON). */
  datatype ServerReply<+T> = Accepted(body: T) | Refused(error: Value) | Threw

  // ---------------------------------------------------------------------------
  // List reconciliation

  /** `prev.map(ann => ann.id === id ? { ...ann, title, content, updated_at: now } : ann)` */
  function UpdateById(list: seq<Announcement>, id: string, form: Form, now: string): seq<Announcement> {
    seq(|list|, i requires 0 <= i < |list| =>
      if list[i].id == id then list[i].(title := Str(form.title), content := Str(form.content), updatedAt := Str(now))
      else list[i])
  }

  /** Only the items with the edited id change, and only in title, content and
      update time; length, order, ids and every other item are kept. */
  lemma UpdateByIdSpec(list: seq<Announcement>, id: string, form: Form, now: string)
    ensures |UpdateById(list, id, form, now)| == |list|
    ensures forall i :: 0 <= i < |list| && list[i].id != id ==> UpdateById(list, id, form, now)[i] == list[i]
    ensures forall i :: 0 <= i < |list| && list[i].id == id ==>
      var a := UpdateById(list, id, form, now)[i];
      a.id == id && a.title == Str(form.title) && a.content == Str(form.content) && a.updatedAt == Str(now) &&
      a.authorEmail == list[i].authorEmail && a.createdAt == list[i].createdAt
  {
  }

  /** An edit of an id that is not listed changes nothing. */
  lemma UpdateOfUnlistedId(list: seq<Announcement>, id: string, form: Form, now: string)
    requires forall i :: 0 <= i < |list| ==> list[i].id != id
    ensures UpdateById(list, id, form, now) == list
  {
  }

  function IdOf(a: Announcement): string {
    a.id
  }

  /** `prev.filter(ann => ann.id !== id)` */
  function WithoutId(list: seq<Announcement>, id: string): seq<Announcement> {
    Seqs.WithoutKey(list, IdOf, id)
  }

  /** Deleting an item that was just created with a fresh id gives the list back. */
  lemma DeleteUndoesCreate(list: seq<Announcement>, created: Announcement)
    requires forall i :: 0 <= i < |list| ==> list[i].id != created.id
    ensures WithoutId([created] + list, created.id) == list
  {
    assert ([created] + list)[1..] == list;
    Seqs.FilterKeepsAll(list, Seqs.OtherKey(IdOf, created.id));
  }

  /** An edit followed by a delete of the same id is the delete alone. */
  lemma {:induction false} DeleteAfterUpdate(list: seq<Announcement>, id: string, form: Form, now: string)
    ensures WithoutId(UpdateById(list, id, form, now), id) == WithoutId(list, id)
  {
    if list != [] {
      DeleteAfterUpdate(list[1..], id, form, now);
      var u := UpdateById(list, id, form, now);
      assert u[1..] == UpdateById(list[1..], id, form, now);
      assert Seqs.OtherKey(IdOf, id)(u[0]) == Seqs.OtherKey(IdOf, id)(list[0]);
      if list[0].id != id {
        assert u[0] == list[0];
      }
    }
  }

  /** The list after a submit with a token, as the handler leaves it. */
  function AfterSubmit(list: seq<Announcement>, isCreating: bool, current: Option<Announcement>,
                       form: Form, reply: ServerReply<CreatedBody>, now: string): seq<Announcement> {
    if !reply.Accepted? then list
    else if isCreating then [NewAnnouncement(reply.body)] + list
    else if current.None? then list
    else UpdateById(list, current.value.id, form, now)
  }

  /** A created item goes first and every earlier item follows in its order;
      a failed or refused request leaves the list as it was. */
  lemma AfterSubmitSpec(list: seq<Announcement>, isCreating: bool, current: Option<Announcement>,
                        form: Form, reply: ServerReply<CreatedBody>, now: string)
    ensures !reply.Accepted? ==> AfterSubmit(list, isCreating, current, form, reply, now) == list
    ensures reply.Accepted? && isCreating ==>
      |AfterSubmit(list, isCreating, current, form, reply, now)| == |list| + 1 &&
      AfterSubmit(list, isCreating, current, form, reply, now)[0] == NewAnnouncement(reply.body) &&
      AfterSubmit(list, isCreating, current, form, reply, now)[1..] == list
    ensures !isCreating ==> |AfterSubmit(list, isCreating, current, form, reply, now)| == |list|
    ensures !isCreating && current.None? ==> AfterSubmit(list, isCreating, current, form, reply, now) == list
  {
  }

  /** What `handleSubmit` reads from the render it was started in: whether
      the dialog creates, the item being edited, and the form. */
  datatype Submission = Submission(isCreating: bool, current: Option<Announcement>, form: Form)

  /** The alert a submit ends with: none on success or when an edit has no
      item, otherwise the server's `error` text when it has one, else the
      mode's fallback message. */
  function SubmitAlert(s: Submission, hasToken: bool, reply: ServerReply<CreatedBody>): (alert: Option<string>)
    ensures alert == None <==> hasToken && (reply.Accepted? || (!s.isCreating && s.current.None?))
    ensures !hasToken ==> alert == Some("Authentication required")
    ensures hasToken && reply.Refused? && Truthy(reply.error) && (s.isCreating || s.current.Some?) ==>
      alert == Some(reply.error.s)
    ensures hasToken && !reply.Accepted? && !(reply.Refused? && Truthy(reply.error)) ==>
      alert == (if s.isCreating then Some("Failed to create announcement")
                else if s.current.Some? then Some("Failed to update announcement")
                else None)
  {
    if !hasToken then Some("Authentication required")
    else if reply.Accepted? then None
    else if !s.isCreating && s.current.None? then None
    else if reply.Refused? && Truthy(reply.error) then Some(reply.error.s)
    else if s.isCreating then Some("Failed to create announcement")
    else Some("Failed to update announcement")
  }

  // ---------------------------------------------------------------------------
  // The component's state

  class Board {
    var announcements: seq<Announcement>
    var modalOpen: bool
    var currentAnnouncement: Option<Announcement>
    var formData: Form
    var isSubmitting: bool
    var deletingId: Option<string>
    var isCreating: bool

    constructor (initial: seq<Announcement>)
      ensures announcements == initial && !modalOpen && currentAnnouncement == None && formData == EmptyForm
      ensures !isSubmitting && deletingId == None && !isCreating
    {
      announcements, modalOpen, currentAnnouncement, formData := initial, false, None, EmptyForm;
      isSubmitting, deletingId, isCreating := false, None, false;
    }

    /** `isSubmitting || !!deletingId`: the create, edit and delete buttons'
        `disabled`. An empty id is falsy, so it does not lock them. */
    predicate ControlsDisabled()
      reads this
    {
      isSubmitting || (deletingId.Some? && deletingId.value != "")
    }

    /** `handleCreate` */
    method HandleCreate()
      modifies this
      ensures currentAnnouncement == None && formData == EmptyForm && isCreating && modalOpen
      ensures announcements == old(announcements) && isSubmitting == old(isSubmitting) && deletingId == old(deletingId)
    {
      currentAnnouncement := None;
      formData := EmptyForm;
      isCreating := true;
      modalOpen := true;
    }

    /** `handleEdit`: the form is seeded with text, never with null. */
    method HandleEdit(a: Announcement)
      modifies this
      ensures currentAnnouncement == Some(a) && !isCreating && modalOpen
      ensures formData == Form(OrEmpty(a.title), OrEmpty(a.content))
      ensures Truthy(a.title) ==> Str(formData.title) == a.title
      ensures announcements == old(announcements) && isSubmitting == old(isSubmitting) && deletingId == old(deletingId)
    {
      currentAnnouncement := Some(a);
      formData := Form(OrEmpty(a.title), OrEmpty(a.content));
      isCreating := false;
      modalOpen := true;
    }

    /** The dialog's close and Cancel buttons. */
    method CloseModal()
      modifies this
      ensures !modalOpen && currentAnnouncement == None && formData == EmptyForm && !isCreating
      ensures announcements == old(announcements) && isSubmitting == old(isSubmitting) && deletingId == old(deletingId)
    {
      modalOpen := false;
      currentAnnouncement := None;
      formData := EmptyForm;
      isCreating := false;
    }

    /** Typing into the title field. */
    method EditTitle(title: string)
      modifies this`formData
      ensures formData == old(formData).(title := title)
    {
      formData := formData.(title := title);
    }

    /** Typing into the content field. */
    method EditContent(content: string)
      modifies this`formData
      ensures formData == old(formData).(content := content)
    {
      formData := formData.(content := content);
    }

    /** The synchronous start of `handleSubmit`: nothing without a signed-in
        email, otherwise the submit flag is raised. The handler goes on with
        the mode, item and form of the render it was started from. */
    method BeginSubmit(hasEmail: bool) returns (started: bool, s: Submission)
      modifies this`isSubmitting
      ensures started == hasEmail
      ensures isSubmitting == (old(isSubmitting) || started)
      ensures s == Submission(isCreating, currentAnnouncement, formData)
    {
      started := hasEmail;
      s := Submission(isCreating, currentAnnouncement, formData);
      if started {
        isSubmitting := true;
      }
    }

    /** The rest of `handleSubmit`, once the session (and, with a token, the
        request) has settled; `s` is what the handler captured when it began,
        `now` is the clock reading for `updated_at`. The list is updated from
        its current value, as the functional state updates do. */
    method FinishSubmit(s: Submission, hasToken: bool, reply: ServerReply<CreatedBody>, now: string) returns (alert: Option<string>)
      modifies this
      ensures announcements == (if hasToken then AfterSubmit(old(announcements), s.isCreating, s.current, s.form, reply, now)
                                else old(announcements))
      ensures !isSubmitting && currentAnnouncement == None && formData == EmptyForm
      ensures modalOpen == (old(modalOpen) && !(hasToken && reply.Accepted? && (s.isCreating || s.current.Some?)))
      ensures isCreating == (old(isCreating) && !(hasToken && reply.Accepted? && s.isCreating))
      ensures deletingId == old(deletingId)
      ensures alert == SubmitAlert(s, hasToken, reply)
    {
      alert := None;
      if !hasToken {
        alert := Some("Authentication required");
        isSubmitting := false;
      } else if s.isCreating {
        match reply {
          case Accepted(body) =>
            announcements := [NewAnnouncement(body)] + announcements;
            formData := EmptyForm;
            currentAnnouncement := None;
            modalOpen := false;
            isCreating := false;
          case Refused(error) =>
            alert := Some(if Truthy(error) then error.s else "Failed to create announcement");
          case Threw =>
            alert := Some("Failed to create announcement");
        }
      } else if s.current.Some? {
        match reply {
          case Accepted(_) =>
            announcements := UpdateById(announcements, s.current.value.id, s.form, now);
            modalOpen := false;
          case Refused(error) =>
            alert := Some(if Truthy(error) then error.s else "Failed to update announcement");
          case Threw =>
            alert := Some("Failed to update announcement");
        }
      }
      // finally
      isSubmitting := false;
      currentAnnouncement := None;
      formData := EmptyForm;
    }

    /** `handleSubmit` as one step, with nothing else happening between its
        start and its end. */
    method HandleSubmit(hasEmail: bool, hasToken: bool, reply: ServerReply<CreatedBody>, now: string) returns (alert: Option<string>)
      modifies this
      ensures !hasEmail ==> announcements == old(announcements) && isSubmitting == old(isSubmitting) &&
                            currentAnnouncement == old(currentAnnouncement) && formData == old(formData) &&
                            modalOpen == old(modalOpen) && isCreating == old(isCreating) && alert == None
      ensures hasEmail && !hasToken ==> announcements == old(announcements)
      ensures hasEmail && hasToken ==>
        announcements == AfterSubmit(old(announcements), old(isCreating), old(currentAnnouncement), old(formData), reply, now)
      ensures hasEmail ==> !isSubmitting && currentAnnouncement == None && formData == EmptyForm
      ensures hasEmail ==>
        modalOpen == (old(modalOpen) && !(hasToken && reply.Accepted? && (old(isCreating) || old(currentAnnouncement).Some?)))
      ensures hasEmail ==> isCreating == (old(isCreating) && !(hasToken && reply.Accepted?))
      ensures hasEmail ==>
        alert == SubmitAlert(Submission(old(isCreating), old(currentAnnouncement), old(formData)), hasToken, reply)
      ensures deletingId == old(deletingId)
    {
      var started, s := BeginSubmit(hasEmail);
      if !started {
        return None;
      }
      alert := FinishSubmit(s, hasToken, reply, now);
    }

    /** The synchronous start of `handleDelete`: nothing without a signed-in
        email or without confirmation, otherwise the item is marked. */
    method BeginDelete(hasEmail: bool, confirmed: bool, id: string) returns (started: bool)
      modifies this`deletingId
      ensures started == (hasEmail && confirmed)
      ensures deletingId == (if started then Some(id) else old(deletingId))
      ensures started && id != "" ==> ControlsDisabled()
    {
      started := hasEmail && confirmed;
      if started {
        deletingId := Some(id);
      }
    }

    /** The rest of `handleDelete`: on every path the mark is cleared. */
    method FinishDelete(id: string, hasToken: bool, reply: ServerReply<()>) returns (alert: Option<string>)
      modifies this`announcements, this`deletingId
      ensures announcements == (if hasToken && reply.Accepted? then WithoutId(old(announcements), id) else old(announcements))
      ensures deletingId == None
      ensures ControlsDisabled() == isSubmitting
      ensures alert == (if !hasToken then Some("Authentication required")
                        else if reply.Accepted? then None
                        else if reply.Refused? && Truthy(reply.error) then Some(reply.error.s)
                        else Some("Failed to delete announcement"))
    {
      if !hasToken {
        alert := Some("Authentication required");
        deletingId := None;
        return;
      }
      match reply {
        case Accepted(_) =>
          alert := None;
          announcements := WithoutId(announcements, id);
        case Refused(error) =>
          alert := Some(if Truthy(error) then error.s else "Failed to delete announcement");
        case Threw =>
          alert := Some("Failed to delete announcement");
      }
      // finally
      deletingId := None;
    }

    /** `handleDelete` as one step. */
    method HandleDelete(hasEmail: bool, confirmed: bool, id: string, hasToken: bool, reply: ServerReply<()>)
      returns (alert: Option<string>)
      modifies this`announcements, this`deletingId
      ensures !(hasEmail && confirmed) ==> announcements == old(announcements) && deletingId == old(deletingId) && alert == None
      ensures hasEmail && confirmed ==> deletingId == None
      ensures announcements == (if hasEmail && confirmed && hasToken && reply.Accepted? then WithoutId(old(announcements), id)
                                else old(announcements))
    {
      var started := BeginDelete(hasEmail, confirmed, id);
      if !started {
        return None;
      }
      alert := FinishDelete(id, hasToken, reply);
    }
  }
}
