/**
 * The browser client's session: the module-level variables of the page
 * script and the handlers that update them. Every network round trip is
 * replaced by its outcome, passed in as a parameter; the request the handler
 * would send is returned, together with the banner it would show.
 */

module ClientSession {
  import opened Opt
  import opened Text
  import opened ObjectId
  import opened ClientHelpers
  import opened NoteModel
  import NoteRoutes

  // ---------------------------------------------------------------------
  // Messages
  // ---------------------------------------------------------------------

  const InvalidNoteDataMessage := "Invalid note data. Please refresh the page and try again."
  const InvalidNoteIdMessage := "Invalid note ID. Please refresh the page and try again."
  const NoteNotFoundMessage := "Note not found. Please refresh the page and try again."
  const BothRequiredMessage := "Both title and content are required."
  const InvalidEditIdMessage := "Invalid note ID for editing. Please refresh and try again."
  const LoadFailedMessage := "Failed to load notes. Please check your connection and try again."
  const CreatedMessage := "Note created successfully!"
  const UpdatedMessage := "Note updated successfully!"
  const DeletedMessage := "Note deleted successfully!"
  const CreateFallback := "Failed to create note"
  const UpdateFallback := "Failed to update note"
  const DeleteFallback := "Failed to delete note"

  /** The page size the client always asks for. */
  const ClientPageSize := 12

  // ---------------------------------------------------------------------
  // Requests, outcomes and banners
  // ---------------------------------------------------------------------

  /** What a handler sends to the server, if anything. */
  datatype Request =
    | NoRequest
    | CreateReq(title: string, content: string)
    | UpdateReq(id: string, title: string, content: string)
    | DeleteReq(id: string)

  /**
   * How a sent request ends: a 2xx answer, an error answer whose JSON body
   * may carry an `error` text, or a failure before any answer (whose own
   * message is shown).
   */
  datatype Outcome = Succeeded | Refused(error: Option<string>) | Broken(message: string)

  /** The banner a handler leaves on screen. */
  datatype Notice = NoNotice | ErrorBanner(text: string) | SuccessBanner(text: string)

  /** `error.error || fallback`, or the message of a failure that never got an answer. */
  function FailureText(o: Outcome, fallback: string): (t: string)
    requires !o.Succeeded?
    ensures o.Refused? && o.error.Some? && o.error.value != "" ==> t == o.error.value
    ensures o.Refused? && (o.error.None? || o.error.value == "") ==> t == fallback
    ensures o.Broken? ==> t == o.message
  {
    match o
    case Refused(e) => if e.Some? && e.value != "" then e.value else fallback
    case Broken(m) => m
  }

  /** The query string of `fetchNotes`: the page, a fixed limit of 12 and the two sort controls; the search term is never sent. */
  function FetchQuery(page: int, sortBy: string, sortOrder: string): (q: NoteRoutes.ListQuery)
    ensures page >= 1 ==> NoteRoutes.WellFormedQuery(q)
    ensures NoteRoutes.Options(q) == NoteRoutes.ListOptions(page, ClientPageSize, sortBy, sortOrder == "desc")
  {
    NoteRoutes.ListQuery(Some(page), Some(ClientPageSize), Some(sortBy), Some(sortOrder))
  }

  /** The text a submitted form sends reaches the server's route check unchanged and is accepted by it. */
  lemma SubmittedTextPassesRouteCheck(titleInput: string, contentInput: string)
    requires Trim(titleInput) != "" && Trim(contentInput) != ""
    ensures NoteRoutes.CheckBody(NoteRoutes.Str(Trim(titleInput)), NoteRoutes.Str(Trim(contentInput)))
            == NoteRoutes.Trimmed(Trim(titleInput), Trim(contentInput))
  {
    NoteRoutes.CheckTrimmedStrings(Trim(titleInput), Trim(contentInput));
  }

  /** A record as the client receives it in JSON: `_id` is always present. */
  function ToClient(n: Note): ClientNote {
    ClientNote(Some(n.id), n.title, n.content, n.createdAt, n.updatedAt)
  }

  function ToClientAll(page: seq<Note>): (r: seq<ClientNote>)
    ensures |r| == |page| && forall i :: 0 <= i < |page| ==> r[i] == ToClient(page[i])
  {
    seq(|page|, i requires 0 <= i < |page| => ToClient(page[i]))
  }

  /** A page of records with well-formed identifiers loses no card to the renderer's filter. */
  lemma ServedPageRendersWhole(page: seq<Note>)
    requires forall i :: 0 <= i < |page| ==> HexId(page[i].id)
    ensures RenderableNotes(ToClientAll(page)) == ToClientAll(page)
  {
    forall i | 0 <= i < |page| ensures IsValidObjectId(page[i].id) {
      ValidObjectIdIff(page[i].id);
    }
    RenderableNotesAllValid(ToClientAll(page));
  }

  // ---------------------------------------------------------------------
  // Locating a note in the loaded page
  // ---------------------------------------------------------------------

  /** The position of the first note whose `_id` is `id`, or `|notes|` when there is none. */
  function FirstIndexOf(notes: seq<ClientNote>, id: string): (k: nat)
    ensures k <= |notes|
    ensures forall j :: 0 <= j < k ==> notes[j].id != Some(id)
    ensures k < |notes| ==> notes[k].id == Some(id)
  {
    if notes == [] then 0
    else if notes[0].id == Some(id) then 0
    else 1 + FirstIndexOf(notes[1..], id)
  }

  /** `notes.find((n) => n._id === noteId)`. */
  function FindById(notes: seq<ClientNote>, id: string): (r: Option<ClientNote>)
    ensures r.None? <==> forall j :: 0 <= j < |notes| ==> notes[j].id != Some(id)
    ensures r.Some? ==> r.value in notes && r.value.id == Some(id)
    ensures r.Some? ==> FirstIndexOf(notes, id) < |notes| && r.value == notes[FirstIndexOf(notes, id)]
  {
    var k := FirstIndexOf(notes, id);
    if k < |notes| then Some(notes[k]) else None
  }

  /** A note found by a well-formed identifier passes the renderer's filter. */
  lemma FoundIsRenderable(notes: seq<ClientNote>, id: string)
    requires IsValidObjectId(id) && FindById(notes, id).Some?
    ensures Renderable(FindById(notes, id).value)
  {
  }

  // ---------------------------------------------------------------------
  // The list response
  // ---------------------------------------------------------------------

  /** The parsed body of a list response; `notes` is `None` when it is not an array. */
  datatype ListData = ListData(notes: Option<seq<ClientNote>>, totalPages: int, currentPage: int)

  /** What `loadNotes` puts on screen: the error banner, or the cards, the pager and the empty state. */
  datatype LoadView =
    | LoadFailed(message: string)
    | Loaded(cards: seq<ClientNote>, pagination: PaginationView, emptyState: bool)

  /** The values of the page's mutable variables at one moment. */
  datatype Snapshot = Snapshot(
    notes: seq<ClientNote>, currentPage: int, totalPages: int,
    isEditing: bool, editingNoteId: Option<string>, noteToDelete: Option<string>,
    noteModalOpen: bool, confirmModalOpen: bool)

  /** The identifier an edit would be sent for, when it is one the client accepts. */
  predicate EditTarget(editingNoteId: Option<string>) {
    editingNoteId.Some? && editingNoteId.value != "" && IsValidObjectId(editingNoteId.value)
  }

  class Session {
    var notes: seq<ClientNote>
    var currentPage: int
    var totalPages: int
    var isEditing: bool
    var editingNoteId: Option<string>
    var noteToDelete: Option<string>
    var noteModalOpen: bool
    var confirmModalOpen: bool

    function State(): Snapshot
      reads this
    {
      Snapshot(notes, currentPage, totalPages, isEditing, editingNoteId, noteToDelete, noteModalOpen, confirmModalOpen)
    }

    /**
     * Identifiers are only ever stored after the client's own check: a note
     * to delete and a note being edited always have well-formed identifiers,
     * and an edit identifier is only kept in editing mode.
     */
    ghost predicate Valid()
      reads this
    {
      && (noteToDelete.Some? ==> IsValidObjectId(noteToDelete.value))
      && (editingNoteId.Some? ==> isEditing && IsValidObjectId(editingNoteId.value))
    }

    /** The current page lies within the reported page count. */
    ghost predicate PageInRange()
      reads this
    {
      1 <= currentPage <= totalPages
    }

    /** The initial values of the page script's variables, with both dialogs closed. */
    constructor ()
      ensures State() == Snapshot([], 1, 1, false, None, None, false, false)
      ensures Valid() && PageInRange()
    {
      notes := [];
      currentPage := 1;
      totalPages := 1;
      isEditing := false;
      editingNoteId := None;
      noteToDelete := None;
      noteModalOpen := false;
      confirmModalOpen := false;
    }

    // ----- pagination and search -----

    /** The "previous" button: one page back unless on the first; `reload` says whether the list is fetched again. */
    method PrevPage() returns (reload: bool)
      modifies this
      ensures State() == old(State()).(currentPage := PrevTarget(old(currentPage)))
      ensures reload <==> old(currentPage) > 1
      ensures old(PageInRange()) ==> PageInRange()
    {
      reload := false;
      if currentPage > 1 {
        currentPage := currentPage - 1;
        reload := true;
      }
    }

    /** The "next" button: one page on unless on the last. */
    method NextPage() returns (reload: bool)
      modifies this
      ensures State() == old(State()).(currentPage := NextTarget(old(currentPage), old(totalPages)))
      ensures reload <==> old(currentPage) < old(totalPages)
      ensures old(PageInRange()) ==> PageInRange()
    {
      reload := false;
      if currentPage < totalPages {
        currentPage := currentPage + 1;
        reload := true;
      }
    }

    /** Typing in the search box goes back to the first page, and the list is fetched again. */
    method HandleSearch() returns (reload: bool)
      modifies this
      ensures reload
      ensures State() == old(State()).(currentPage := 1)
    {
      currentPage := 1;
      reload := true;
    }

    // ----- the note dialog -----

    /**
     * `openModal(noteData)`: editing mode is set from whether a note was
     * given, before the note is checked; a note without a well-formed
     * identifier leaves that mode set, keeps the old edit identifier and
     * does not open the dialog.
     */
    method OpenModal(noteData: Option<ClientNote>) returns (notice: Notice)
      requires Valid()
      modifies this
      ensures Valid()
      ensures noteData.None? ==>
                && notice == NoNotice
                && State() == old(State()).(isEditing := false, editingNoteId := None, noteModalOpen := true)
      ensures noteData.Some? && !Renderable(noteData.value) ==>
                && notice == ErrorBanner(InvalidNoteDataMessage)
                && State() == old(State()).(isEditing := true)
      ensures noteData.Some? && Renderable(noteData.value) ==>
                && notice == NoNotice
                && State() == old(State()).(isEditing := true, editingNoteId := noteData.value.id, noteModalOpen := true)
    {
      isEditing := noteData.Some?;
      if isEditing {
        if !Renderable(noteData.value) {
          notice := ErrorBanner(InvalidNoteDataMessage);
          return;
        }
        editingNoteId := noteData.value.id;
      } else {
        editingNoteId := None;
      }
      noteModalOpen := true;
      notice := NoNotice;
    }

    /** `closeModal`: the dialog closes and editing mode ends. */
    method CloseModal()
      requires Valid()
      modifies this
      ensures Valid()
      ensures State() == old(State()).(noteModalOpen := false, isEditing := false, editingNoteId := None)
    {
      noteModalOpen := false;
      isEditing := false;
      editingNoteId := None;
    }

    /** The edit button of a card: the note is looked up in the loaded page by its identifier. */
    method EditNote(noteId: string) returns (notice: Notice)
      requires Valid()
      modifies this
      ensures Valid()
      ensures !IsValidObjectId(noteId) ==> notice == ErrorBanner(InvalidNoteIdMessage) && State() == old(State())
      ensures IsValidObjectId(noteId) && FindById(old(notes), noteId).None? ==>
                notice == ErrorBanner(NoteNotFoundMessage) && State() == old(State())
      ensures IsValidObjectId(noteId) && FindById(old(notes), noteId).Some? ==>
                && notice == NoNotice
                && State() == old(State()).(isEditing := true, editingNoteId := Some(noteId), noteModalOpen := true)
    {
      if !IsValidObjectId(noteId) {
        notice := ErrorBanner(InvalidNoteIdMessage);
        return;
      }
      var found := FindById(notes, noteId);
      if found.Some? {
        FoundIsRenderable(notes, noteId);
        notice := OpenModal(found);
      } else {
        notice := ErrorBanner(NoteNotFoundMessage);
      }
    }

    /**
     * `handleFormSubmit`: both fields are trimmed and must be non-empty; in
     * editing mode the edit identifier must be well formed. Then one request
     * is sent; on success the dialog closes and the list is fetched again, on
     * failure its message is shown and nothing changes.
     */
    method HandleFormSubmit(titleInput: string, contentInput: string, outcome: Outcome)
      returns (request: Request, notice: Notice, reload: bool)
      requires Valid()
      modifies this
      ensures Valid()
      ensures Trim(titleInput) == "" || Trim(contentInput) == "" ==>
                && request == NoRequest && notice == ErrorBanner(BothRequiredMessage)
                && !reload && State() == old(State())
      ensures Trim(titleInput) != "" && Trim(contentInput) != "" && old(isEditing) && !EditTarget(old(editingNoteId)) ==>
                && request == NoRequest && notice == ErrorBanner(InvalidEditIdMessage)
                && !reload && State() == old(State())
      ensures Trim(titleInput) != "" && Trim(contentInput) != "" && old(isEditing) && EditTarget(old(editingNoteId)) ==>
                request == UpdateReq(old(editingNoteId).value, Trim(titleInput), Trim(contentInput))
      ensures Trim(titleInput) != "" && Trim(contentInput) != "" && !old(isEditing) ==>
                request == CreateReq(Trim(titleInput), Trim(contentInput))
      ensures request != NoRequest && outcome.Succeeded? ==>
                && notice == SuccessBanner(if request.UpdateReq? then UpdatedMessage else CreatedMessage)
                && reload
                && State() == old(State()).(noteModalOpen := false, isEditing := false, editingNoteId := None)
      ensures request != NoRequest && !outcome.Succeeded? ==>
                && notice == ErrorBanner(FailureText(outcome, if request.UpdateReq? then UpdateFallback else CreateFallback))
                && !reload && State() == old(State())
      ensures request.UpdateReq? ==> IsValidObjectId(request.id)
    {
      var title, content := Trim(titleInput), Trim(contentInput);
      request, reload := NoRequest, false;
      if title == "" || content == "" {
        notice := ErrorBanner(BothRequiredMessage);
        return;
      }
      var success: string, fallback: string;
      if isEditing {
        if !EditTarget(editingNoteId) {
          notice := ErrorBanner(InvalidEditIdMessage);
          return;
        }
        request := UpdateReq(editingNoteId.value, title, content);
        success, fallback := UpdatedMessage, UpdateFallback;
      } else {
        request := CreateReq(title, content);
        success, fallback := CreatedMessage, CreateFallback;
      }
      if outcome.Succeeded? {
        notice := SuccessBanner(success);
        CloseModal();
        reload := true;
      } else {
        notice := ErrorBanner(FailureText(outcome, fallback));
      }
    }

    // ----- the delete confirmation -----

    /** The delete button of a card: only a well-formed identifier opens the confirmation. */
    method ShowDeleteConfirmation(noteId: string) returns (notice: Notice)
      requires Valid()
      modifies this
      ensures Valid()
      ensures !IsValidObjectId(noteId) ==> notice == ErrorBanner(InvalidNoteIdMessage) && State() == old(State())
      ensures IsValidObjectId(noteId) ==>
                notice == NoNotice && State() == old(State()).(noteToDelete := Some(noteId), confirmModalOpen := true)
    {
      if !IsValidObjectId(noteId) {
        notice := ErrorBanner(InvalidNoteIdMessage);
        return;
      }
      noteToDelete := Some(noteId);
      confirmModalOpen := true;
      notice := NoNotice;
    }

    /** `closeConfirmModal`: the confirmation closes and forgets its note. */
    method CloseConfirmModal()
      modifies this
      ensures old(Valid()) ==> Valid()
      ensures State() == old(State()).(confirmModalOpen := false, noteToDelete := None)
    {
      confirmModalOpen := false;
      noteToDelete := None;
    }

    /**
     * `confirmDelete`: nothing happens without a note to delete; a malformed
     * identifier is refused and the confirmation closed; otherwise the delete
     * is sent, and on success the confirmation closes and the list is
     * fetched again.
     */
    method ConfirmDelete(outcome: Outcome) returns (request: Request, notice: Notice, reload: bool)
      modifies this
      ensures old(Valid()) ==> Valid()
      ensures old(noteToDelete).None? || old(noteToDelete).value == "" ==>
                request == NoRequest && notice == NoNotice && !reload && State() == old(State())
      ensures old(noteToDelete).Some? && old(noteToDelete).value != "" && !IsValidObjectId(old(noteToDelete).value) ==>
                && request == NoRequest && notice == ErrorBanner(InvalidNoteIdMessage) && !reload
                && State() == old(State()).(confirmModalOpen := false, noteToDelete := None)
      ensures old(noteToDelete).Some? && IsValidObjectId(old(noteToDelete).value) ==>
                && request == DeleteReq(old(noteToDelete).value)
                && (outcome.Succeeded? ==>
                      && notice == SuccessBanner(DeletedMessage) && reload
                      && State() == old(State()).(confirmModalOpen := false, noteToDelete := None))
                && (!outcome.Succeeded? ==>
                      notice == ErrorBanner(FailureText(outcome, DeleteFallback)) && !reload && State() == old(State()))
      ensures old(Valid()) && old(noteToDelete).Some? ==> request.DeleteReq?
    {
      request, reload := NoRequest, false;
      if noteToDelete.None? || noteToDelete.value == "" {
        notice := NoNotice;
        return;
      }
      if !IsValidObjectId(noteToDelete.value) {
        notice := ErrorBanner(InvalidNoteIdMessage);
        CloseConfirmModal();
        return;
      }
      request := DeleteReq(noteToDelete.value);
      if outcome.Succeeded? {
        notice := SuccessBanner(DeletedMessage);
        CloseConfirmModal();
        reload := true;
      } else {
        notice := ErrorBanner(FailureText(outcome, DeleteFallback));
      }
    }

    // ----- loading the list -----

    /**
     * `loadNotes` after the fetch: a missing body or one whose `notes` is not
     * an array shows the load error and changes nothing; otherwise the notes
     * and the page count are taken over (the current page is not), the
     * renderable notes become cards, the pager follows the response, and the
     * empty state shows for an empty first page.
     */
    method LoadNotes(response: Option<ListData>) returns (view: LoadView)
      modifies this
      ensures response.None? || response.value.notes.None? ==>
                view == LoadFailed(LoadFailedMessage) && State() == old(State())
      ensures response.Some? && response.value.notes.Some? ==>
                && State() == old(State()).(notes := response.value.notes.value, totalPages := response.value.totalPages)
                && view.Loaded?
                && view.cards == RenderableNotes(notes)
                && view.pagination == PaginationFor(response.value.currentPage, response.value.totalPages)
                && (view.emptyState <==> notes == [] && currentPage == 1)
      ensures old(Valid()) ==> Valid()
    {
      if response.None? || response.value.notes.None? {
        view := LoadFailed(LoadFailedMessage);
        return;
      }
      notes := response.value.notes.value;
      totalPages := response.value.totalPages;
      view := Loaded(RenderableNotes(notes), PaginationFor(response.value.currentPage, totalPages),
                     |notes| == 0 && currentPage == 1);
    }
  }

  // ---------------------------------------------------------------------
  // Sequences of handlers
  // ---------------------------------------------------------------------

  /** Whatever happened before, closing the dialog ends editing mode, so the next submit creates a note. */
  method CloseThenSubmit(s: Session, titleInput: string, contentInput: string, outcome: Outcome)
    returns (request: Request)
    requires s.Valid() && Trim(titleInput) != "" && Trim(contentInput) != ""
    modifies s
    ensures request == CreateReq(Trim(titleInput), Trim(contentInput))
  {
    s.CloseModal();
    var notice, reload;
    request, notice, reload := s.HandleFormSubmit(titleInput, contentInput, outcome);
  }

  /** Confirming a delete asked for through a card sends a delete for exactly that note. */
  method AskThenConfirm(s: Session, noteId: string, outcome: Outcome) returns (request: Request)
    requires s.Valid() && IsValidObjectId(noteId)
    modifies s
    ensures request == DeleteReq(noteId)
    ensures outcome.Succeeded? ==> s.noteToDelete.None? && !s.confirmModalOpen
  {
    var notice := s.ShowDeleteConfirmation(noteId);
    var reload;
    request, notice, reload := s.ConfirmDelete(outcome);
  }

  /**
   * The only note of the last page is deleted: the confirmed delete request
   * removes it from the store, the list is fetched again for the same page,
   * and the page count in the answer has dropped below that page. The
   * session is then past its last page, the list is empty but the empty
   * state is not shown, and the pager either disappears or offers only the
   * "previous" button.
   */
  method DeleteLastNoteOfLastPage(store: NoteRoutes.NoteStore, s: Session, id: string,
                                  view: seq<Note>, sortBy: string, sortOrder: string)
    returns (shown: LoadView)
    requires store.Valid() && id in store.notes
    requires s.Valid() && s.noteToDelete == Some(id)
    requires s.currentPage >= 2 && |store.notes| == (s.currentPage - 1) * ClientPageSize + 1
    requires NoteRoutes.SortedView(view, store.notes - {id}, NoteRoutes.Options(FetchQuery(s.currentPage, sortBy, sortOrder)))
    modifies store, s
    ensures store.notes == old(store.notes) - {id}
    ensures shown.Loaded? && shown.cards == [] && !shown.emptyState
    ensures old(s.currentPage) == 2 ==> shown.pagination == Hidden
    ensures old(s.currentPage) > 2 ==> shown.pagination == Shown(false, true)
    ensures s.currentPage == old(s.currentPage) && s.totalPages == s.currentPage - 1 && !s.PageInRange()
  {
    var before := s.currentPage;
    ValidObjectIdIff(id);
    var request, notice, reload := s.ConfirmDelete(Succeeded);
    var removed := store.Delete(request.id);
    assert store.notes.Keys == old(store.notes).Keys - {id};
    var r := store.List(FetchQuery(before, sortBy, sortOrder), view);
    NoteRoutes.PageCountUnique(|store.notes|, ClientPageSize, before - 1);
    NoteRoutes.PageBeyondLastIsEmpty(view, before, ClientPageSize);
    shown := s.LoadNotes(Some(ListData(Some(ToClientAll(r.body.notes)), r.body.totalPages, r.body.currentPage)));
  }

  /**
   * A list answer from the server, handed to `loadNotes`: every served
   * record becomes a card, the page count is taken over, and the pager
   * follows the page the client asked for.
   */
  method ListThenLoad(store: NoteRoutes.NoteStore, s: Session, view: seq<Note>, sortBy: string, sortOrder: string)
    returns (shown: LoadView)
    requires store.Valid() && s.currentPage >= 1
    requires NoteRoutes.SortedView(view, store.notes, NoteRoutes.Options(FetchQuery(s.currentPage, sortBy, sortOrder)))
    modifies s
    ensures shown.Loaded?
    ensures |shown.cards| == |s.notes| <= ClientPageSize
    ensures shown.cards == s.notes
    ensures s.totalPages == NoteRoutes.PageCount(|store.notes|, ClientPageSize)
    ensures shown.pagination == PaginationFor(s.currentPage, s.totalPages)
  {
    var r := store.List(FetchQuery(s.currentPage, sortBy, sortOrder), view);
    var page := r.body.notes;
    ServedPageRendersWhole(page);
    shown := s.LoadNotes(Some(ListData(Some(ToClientAll(page)), r.body.totalPages, r.body.currentPage)));
  }
}
