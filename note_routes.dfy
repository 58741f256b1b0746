/**
 * The five handlers of the notes API and the store they work on. Each
 * handler answers with a status code and a JSON body; errors always have the
 * shape `{ error: message }`. The database is a map from identifier to
 * record; the clock, the identifier generator and the database's sort are
 * passed in.
 */
module NoteRoutes {
  import opened Opt
  import opened Text
  import opened NoteModel
  import opened ObjectId

  // ---------------------------------------------------------------------
  // Statuses and messages
  // ---------------------------------------------------------------------

  const OK := 200
  const Created := 201
  const BadRequest := 400
  const NotFound := 404
  const ServerError := 500

  const MissingFieldsMessage := "Title and content are required"
  const InvalidIdMessage := "Invalid note ID format"
  const NotFoundMessage := "Note not found"
  const DeletedMessage := "Note deleted successfully"
  const CreateFailedMessage := "Failed to create note"
  const UpdateFailedMessage := "Failed to update note"

  datatype Body =
    | One(note: Note)
    | Page(notes: seq<Note>, totalPages: int, currentPage: int, total: int)
    | Removed(message: string, deletedNote: Note)
    | Failure(error: string)

  datatype Response = Response(status: int, body: Body)

  // ---------------------------------------------------------------------
  // The request body check shared by create and update
  // ---------------------------------------------------------------------

  /** A member of the JSON request body: absent or null, a string, or some other JSON value. */
  datatype Field = Missing | Str(s: string) | Other(truthy: bool)

  /** JavaScript's falsiness of a body member: undefined, null, "", false and 0. */
  predicate Falsy(f: Field) {
    f.Missing? || (f.Str? && f.s == "") || (f.Other? && !f.truthy)
  }

  /** What the handler does with the body before the database: reject, fail on `.trim()` of a non-string, or trim. */
  datatype BodyCheck = Incomplete | NotText | Trimmed(title: string, content: string)

  /** `if (!title || !content)` on the raw values, then `title.trim()` and `content.trim()`. */
  function CheckBody(title: Field, content: Field): (c: BodyCheck)
    ensures c.Incomplete? <==> Falsy(title) || Falsy(content)
    ensures c.Trimmed? <==> title.Str? && title.s != "" && content.Str? && content.s != ""
    ensures c.Trimmed? ==> c.title == Trim(title.s) && c.content == Trim(content.s)
  {
    if Falsy(title) || Falsy(content) then Incomplete
    else if title.Str? && content.Str? then Trimmed(Trim(title.s), Trim(content.s))
    else NotText
  }

  /** Non-empty text fields pass the route's check and are trimmed. */
  lemma CheckStrings(title: string, content: string)
    requires title != "" && content != ""
    ensures CheckBody(Str(title), Str(content)) == Trimmed(Trim(title), Trim(content))
  {
  }

  /** Text that is already trimmed and non-empty reaches the model unchanged. */
  lemma CheckTrimmedStrings(title: string, content: string)
    requires title != "" && content != "" && IsTrimmed(title) && IsTrimmed(content)
    ensures CheckBody(Str(title), Str(content)) == Trimmed(title, content)
  {
    CheckStrings(title, content);
    TrimFixesTrimmed(title);
    TrimFixesTrimmed(content);
  }

  /**
   * The route's check runs on the untrimmed value: a whitespace-only title
   * passes it and is then refused by the schema's `required`, with the
   * schema's message rather than the route's.
   */
  lemma WhitespaceTitleReachesSchema(title: string, content: string)
    requires title != "" && AllWhitespace(title) && content != ""
    ensures CheckBody(Str(title), Str(content)).Trimmed?
    ensures ValidationErrors(Trim(title), Trim(content))[0] == TitleRules.requiredMessage
    ensures ValidationMessage(Trim(title), Trim(content)) != MissingFieldsMessage
  {
    TrimEmptyIff(title);
    var errs := ValidationErrors(Trim(title), Trim(content));
    var m := ValidationMessage(Trim(title), Trim(content));
    if |errs| == 1 {
      assert m == TitleRules.requiredMessage;
      assert m[0] != MissingFieldsMessage[0] || m[6] != MissingFieldsMessage[6];
    } else {
      assert errs[1..] == [errs[1]];
      assert Join(errs[1..], ", ") == errs[1];
      assert m == errs[0] + ", " + errs[1];
      assert m[6] != MissingFieldsMessage[6];
    }
  }

  // ---------------------------------------------------------------------
  // Listing: query defaults, page count and the page slice
  // ---------------------------------------------------------------------

  /** The list query string; each parameter may be omitted. */
  datatype ListQuery = ListQuery(page: Option<int>, limit: Option<int>, sortBy: Option<string>, sortOrder: Option<string>)

  /** The query after its defaults: `sortOrder === 'desc' ? -1 : 1` is kept as a flag. */
  datatype ListOptions = ListOptions(page: int, limit: int, sortBy: string, descending: bool)

  function Options(q: ListQuery): (o: ListOptions)
    ensures o.descending <==> (q.sortOrder.None? || q.sortOrder.value == "desc")
  {
    ListOptions(q.page.GetOr(1), q.limit.GetOr(10), q.sortBy.GetOr("updatedAt"), q.sortOrder.GetOr("desc") == "desc")
  }

  /** Omitted parameters take page 1, limit 10, newest `updatedAt` first; an explicit "desc" sorts the same way. */
  lemma ListDefaults(sortBy: string, sortOrder: string)
    ensures Options(ListQuery(None, None, None, None)) == ListOptions(1, 10, "updatedAt", true)
    ensures Options(ListQuery(None, None, None, Some("desc"))) == Options(ListQuery(None, None, None, None))
    ensures Options(ListQuery(None, None, Some(sortBy), Some(sortOrder))).descending <==> sortOrder == "desc"
  {
  }

  /** Page and limit that `parseInt` turned into positive integers. */
  predicate WellFormedQuery(q: ListQuery) {
    q.page.GetOr(1) >= 1 && q.limit.GetOr(10) >= 1
  }

  /** `Math.ceil(total / limit)`: the least number of pages of `limit` notes that hold `total` notes. */
  function PageCount(total: nat, limit: int): (n: nat)
    requires limit >= 1
    ensures (n - 1) * limit < total <= n * limit
  {
    var q, m := (total + limit - 1) / limit, (total + limit - 1) % limit;
    assert q * limit == total + limit - 1 - m;
    assert (q - 1) * limit == q * limit - limit;
    q
  }

  /** The bound determines the page count: it is the ceiling and nothing else. */
  lemma PageCountUnique(total: nat, limit: int, n: int)
    requires limit >= 1 && (n - 1) * limit < total <= n * limit
    ensures n == PageCount(total, limit)
  {
    var p := PageCount(total, limit);
    if n < p {
      assert n * limit <= (p - 1) * limit by { MulMonotone(n, p - 1, limit); }
      assert false;
    } else if n > p {
      assert p * limit <= (n - 1) * limit by { MulMonotone(p, n - 1, limit); }
      assert false;
    }
  }

  lemma MulMonotone(a: int, b: int, k: int)
    requires a <= b && k >= 0
    ensures a * k <= b * k
  {
    assert b * k - a * k == (b - a) * k;
  }

  /**
   * `.skip((page - 1) * limit).limit(limit)` on the sorted collection: the
   * database drops the first `skip` notes, then keeps at most `limit`.
   */
  function PageOf(view: seq<Note>, page: int, limit: int): (r: seq<Note>)
    requires page >= 1 && limit >= 1
    ensures |r| <= limit
    ensures (page - 1) * limit >= |view| ==> r == []
    ensures (page - 1) * limit < |view| ==>
              r == view[(page - 1) * limit .. if page * limit < |view| then page * limit else |view|]
  {
    MulMonotone(0, page - 1, limit);
    var skip := (page - 1) * limit;
    var rest := if skip < |view| then view[skip..] else [];
    if limit < |rest| then rest[..limit] else rest
  }

  /** A page past the last one is empty, and it is not an error. */
  lemma PageBeyondLastIsEmpty(view: seq<Note>, page: int, limit: int)
    requires page >= 1 && limit >= 1 && page > PageCount(|view|, limit)
    ensures PageOf(view, page, limit) == []
  {
    MulMonotone(PageCount(|view|, limit), page - 1, limit);
  }

  /** Every page before the last is full. */
  lemma PagesBeforeLastAreFull(view: seq<Note>, page: int, limit: int)
    requires limit >= 1 && 1 <= page < PageCount(|view|, limit)
    ensures |PageOf(view, page, limit)| == limit
  {
    MulMonotone(page, PageCount(|view|, limit) - 1, limit);
  }

  /** Paging loses and repeats nothing: the note at position `i` is at position `i % limit` of page `i / limit + 1`. */
  lemma PageOfIndex(view: seq<Note>, limit: int, i: int)
    requires limit >= 1 && 0 <= i < |view|
    ensures i % limit < |PageOf(view, i / limit + 1, limit)|
    ensures PageOf(view, i / limit + 1, limit)[i % limit] == view[i]
  {
    var p := i / limit + 1;
    assert (p - 1) * limit + i % limit == i;
    assert p * limit == (p - 1) * limit + limit;
  }

  /** Fifteen notes with ten to a page: two pages, of ten and of five notes. */
  lemma FifteenNotesTwoPages(view: seq<Note>)
    requires |view| == 15
    ensures PageCount(|view|, 10) == 2
    ensures |PageOf(view, 1, 10)| == 10 && |PageOf(view, 2, 10)| == 5
    ensures PageOf(view, 3, 10) == []
  {
    PageCountUnique(15, 10, 2);
  }

  /** The order the database sorts in, on the two integer timestamp fields; other fields are not constrained. */
  predicate InOrder(a: Note, b: Note, sortBy: string, descending: bool) {
    if sortBy == "createdAt" then (if descending then a.createdAt >= b.createdAt else a.createdAt <= b.createdAt)
    else if sortBy == "updatedAt" then (if descending then a.updatedAt >= b.updatedAt else a.updatedAt <= b.updatedAt)
    else true
  }

  /** `view` lists every stored record once. */
  ghost predicate ListsStore(view: seq<Note>, store: map<Id, Note>) {
    && |view| == |store|
    && (forall i :: 0 <= i < |view| ==> view[i].id in store && store[view[i].id] == view[i])
    && (forall i, j :: 0 <= i < j < |view| ==> view[i].id != view[j].id)
  }

  /** `Note.find().sort(...)`: the stored records, each once, in the requested order (ties in any order). */
  ghost predicate SortedView(view: seq<Note>, store: map<Id, Note>, o: ListOptions) {
    && ListsStore(view, store)
    && (forall i, j :: 0 <= i < j < |view| ==> InOrder(view[i], view[j], o.sortBy, o.descending))
  }

  /** The identifiers of a sequence of records. */
  function Ids(view: seq<Note>): set<Id> {
    set i | 0 <= i < |view| :: view[i].id
  }

  lemma {:induction false} DistinctIdsCount(view: seq<Note>)
    requires forall i, j :: 0 <= i < j < |view| ==> view[i].id != view[j].id
    ensures |Ids(view)| == |view|
  {
    if view != [] {
      var last := |view| - 1;
      var front := view[..last];
      DistinctIdsCount(front);
      assert Ids(view) == Ids(front) + {view[last].id} by {
        forall x | x in Ids(view) ensures x in Ids(front) + {view[last].id} {
          var i :| 0 <= i < |view| && view[i].id == x;
          if i < last { assert front[i] == view[i]; }
        }
        forall x | x in Ids(front) ensures x in Ids(view) {
          var i :| 0 <= i < |front| && front[i].id == x;
          assert view[i] == front[i];
        }
      }
      assert forall i :: 0 <= i < |front| ==> front[i].id != view[last].id;
    }
  }

  /** A view that lists the store holds every stored record: none is missing from the pages. */
  lemma ViewCoversStore(view: seq<Note>, store: map<Id, Note>, id: Id)
    requires ListsStore(view, store) && id in store
    ensures exists i :: 0 <= i < |view| && view[i] == store[id]
  {
    DistinctIdsCount(view);
    assert Ids(view) <= store.Keys;
    assert |Ids(view)| == |store.Keys|;
    if id !in Ids(view) {
      assert Ids(view) <= store.Keys - {id};
      assert |store.Keys - {id}| == |store.Keys| - 1;
      SubsetCard(Ids(view), store.Keys - {id});
      assert false;
    }
    var i :| 0 <= i < |view| && view[i].id == id;
  }

  lemma SubsetCard<T>(a: set<T>, b: set<T>)
    requires a <= b
    ensures |a| <= |b|
  {
    assert b == a + (b - a);
  }

  // ---------------------------------------------------------------------
  // The store and the handlers
  // ---------------------------------------------------------------------

  /** A record as the schema leaves it: under its own identifier, trimmed, within the limits. */
  predicate WellFormedRecord(id: Id, n: Note) {
    n.id == id && IsTrimmed(n.title) && IsTrimmed(n.content) && SchemaValid(n.title, n.content)
  }

  class NoteStore {
    /** The persisted collection. */
    var notes: map<Id, Note>

    /** The server's identifier cast: the strings `findById` accepts without a `CastError`. */
    const castable: Id -> bool

    ghost predicate Valid()
      reads this
    {
      && (forall id :: HexId(id) ==> castable(id))
      && (forall id :: id in notes ==> HexId(id) && WellFormedRecord(id, notes[id]))
    }

    /** Every record was last updated no earlier than it was created. */
    ghost predicate TimestampsOrdered()
      reads this
    {
      forall id :: id in notes ==> notes[id].createdAt <= notes[id].updatedAt
    }

    /** The clock reads no earlier than any record's creation. */
    ghost predicate ClockNotBehind(now: Millis)
      reads this
    {
      forall id :: id in notes ==> notes[id].createdAt <= now
    }

    /** An empty collection, behind a cast that accepts every 24-hex-digit string. */
    constructor (castable: Id -> bool)
      requires forall id :: HexId(id) ==> castable(id)
      ensures Valid() && TimestampsOrdered() && notes == map[]
    {
      notes := map[];
      this.castable := castable;
    }

    /** GET /api/notes, given the database's sorted collection `view`. */
    method List(q: ListQuery, view: seq<Note>) returns (r: Response)
      requires WellFormedQuery(q)
      requires SortedView(view, notes, Options(q))
      ensures r.status == OK && r.body.Page?
      ensures r.body.notes == PageOf(view, Options(q).page, Options(q).limit)
      ensures r.body.totalPages == PageCount(|notes|, Options(q).limit)
      ensures r.body.currentPage == Options(q).page && r.body.total == |notes|
      ensures |r.body.notes| <= Options(q).limit
      ensures forall n :: n in r.body.notes ==> n.id in notes && notes[n.id] == n
    {
      var o := Options(q);
      var page := PageOf(view, o.page, o.limit);
      assert forall n :: n in page ==> n in view;
      r := Response(OK, Page(page, PageCount(|notes|, o.limit), o.page, |notes|));
    }

    /** GET /api/notes/:id. */
    method Get(id: Id) returns (r: Response)
      ensures !castable(id) ==> r == Response(BadRequest, Failure(InvalidIdMessage))
      ensures castable(id) && id !in notes ==> r == Response(NotFound, Failure(NotFoundMessage))
      ensures castable(id) && id in notes ==> r == Response(OK, One(notes[id]))
      ensures Valid() && HexId(id) ==> r.status != BadRequest
    {
      if !castable(id) {
        r := Response(BadRequest, Failure(InvalidIdMessage));
      } else if id !in notes {
        r := Response(NotFound, Failure(NotFoundMessage));
      } else {
        r := Response(OK, One(notes[id]));
      }
    }

    /**
     * `new Note({...}).save()`: the trim setters, the validators (a failure is
     * the joined 400 message), the save hook, then the insert.
     */
    method Save(title: string, content: string, newId: Id, now: Millis) returns (r: Response)
      requires Valid()
      requires newId !in notes && HexId(newId)
      requires IsTrimmed(title) && IsTrimmed(content)
      modifies this
      ensures Valid()
      ensures old(TimestampsOrdered()) ==> TimestampsOrdered()
      ensures SchemaValid(title, content) ==>
                && r == Response(Created, One(Note(newId, title, content, now, now)))
                && notes == old(notes)[newId := Note(newId, title, content, now, now)]
      ensures !SchemaValid(title, content) ==>
                r == Response(BadRequest, Failure(ValidationMessage(title, content))) && notes == old(notes)
    {
      TrimFixesTrimmed(title);
      TrimFixesTrimmed(content);
      var doc := new NoteDocument(title, content, now);
      var errs := ValidationErrors(doc.title, doc.content);
      if errs != [] {
        r := Response(BadRequest, Failure(Join(errs, ", ")));
      } else {
        doc.PreSave(now);
        var n := doc.Record(newId);
        notes := notes[newId := n];
        r := Response(Created, One(n));
      }
    }

    /** POST /api/notes, with the identifier the database assigns and the current time. */
    method Create(title: Field, content: Field, newId: Id, now: Millis) returns (r: Response)
      requires Valid()
      requires newId !in notes && HexId(newId)
      modifies this
      ensures Valid()
      ensures old(TimestampsOrdered()) ==> TimestampsOrdered()
      ensures CheckBody(title, content).Incomplete? ==>
                r == Response(BadRequest, Failure(MissingFieldsMessage)) && notes == old(notes)
      ensures CheckBody(title, content).NotText? ==>
                r == Response(ServerError, Failure(CreateFailedMessage)) && notes == old(notes)
      ensures CheckBody(title, content).Trimmed? ==>
                var t, c := Trim(title.s), Trim(content.s);
                if SchemaValid(t, c) then
                  && r == Response(Created, One(Note(newId, t, c, now, now)))
                  && notes == old(notes)[newId := Note(newId, t, c, now, now)]
                else
                  r == Response(BadRequest, Failure(ValidationMessage(t, c))) && notes == old(notes)
    {
      match CheckBody(title, content)
      case Incomplete =>
        r := Response(BadRequest, Failure(MissingFieldsMessage));
      case NotText =>
        r := Response(ServerError, Failure(CreateFailedMessage));
      case Trimmed(t, c) =>
        r := Save(t, c, newId, now);
    }

    /**
     * `findByIdAndUpdate` on a castable identifier with `$set` of the trimmed
     * text: the update hook, the cast setters, the update validators, then the
     * lookup.
     */
    method FindAndUpdate(id: Id, title: string, content: string, now: Millis) returns (r: Response)
      requires Valid() && castable(id)
      requires IsTrimmed(title) && IsTrimmed(content)
      modifies this
      ensures Valid()
      ensures old(TimestampsOrdered()) && old(ClockNotBehind(now)) ==> TimestampsOrdered()
      ensures !SchemaValid(title, content) ==>
                r == Response(BadRequest, Failure(ValidationMessage(title, content))) && notes == old(notes)
      ensures SchemaValid(title, content) && id !in old(notes) ==>
                r == Response(NotFound, Failure(NotFoundMessage)) && notes == old(notes)
      ensures SchemaValid(title, content) && id in old(notes) ==>
                && notes == old(notes)[id := Note(id, title, content, old(notes)[id].createdAt, now)]
                && r == Response(OK, One(notes[id]))
    {
      var u := PreFindOneAndUpdate(NoteUpdate(title, content, None), now);
      CastTrimmedUpdate(u);
      u := CastUpdate(u);
      var errs := ValidationErrors(u.title, u.content);
      if errs != [] {
        r := Response(BadRequest, Failure(Join(errs, ", ")));
      } else if id !in notes {
        r := Response(NotFound, Failure(NotFoundMessage));
      } else {
        var n := ApplyUpdate(notes[id], u);
        notes := notes[id := n];
        r := Response(OK, One(n));
      }
    }

    /** PUT /api/notes/:id: `findByIdAndUpdate` with `new: true` and `runValidators: true`. */
    method Update(id: Id, title: Field, content: Field, now: Millis) returns (r: Response)
      requires Valid()
      modifies this
      ensures Valid()
      ensures old(TimestampsOrdered()) && old(ClockNotBehind(now)) ==> TimestampsOrdered()
      ensures CheckBody(title, content).Incomplete? ==>
                r == Response(BadRequest, Failure(MissingFieldsMessage)) && notes == old(notes)
      ensures CheckBody(title, content).NotText? ==>
                r == Response(ServerError, Failure(UpdateFailedMessage)) && notes == old(notes)
      ensures CheckBody(title, content).Trimmed? && !castable(id) ==>
                r == Response(BadRequest, Failure(InvalidIdMessage)) && notes == old(notes)
      ensures CheckBody(title, content).Trimmed? && castable(id) ==>
                var t, c := Trim(title.s), Trim(content.s);
                if !SchemaValid(t, c) then
                  r == Response(BadRequest, Failure(ValidationMessage(t, c))) && notes == old(notes)
                else if id !in old(notes) then
                  r == Response(NotFound, Failure(NotFoundMessage)) && notes == old(notes)
                else
                  && notes == old(notes)[id := Note(id, t, c, old(notes)[id].createdAt, now)]
                  && r == Response(OK, One(notes[id]))
    {
      match CheckBody(title, content)
      case Incomplete =>
        r := Response(BadRequest, Failure(MissingFieldsMessage));
      case NotText =>
        r := Response(ServerError, Failure(UpdateFailedMessage));
      case Trimmed(t, c) =>
        if !castable(id) {
          r := Response(BadRequest, Failure(InvalidIdMessage));
        } else {
          r := FindAndUpdate(id, t, c, now);
        }
    }

    /** DELETE /api/notes/:id: `findByIdAndDelete`. */
    method Delete(id: Id) returns (r: Response)
      requires Valid()
      modifies this
      ensures Valid()
      ensures old(TimestampsOrdered()) ==> TimestampsOrdered()
      ensures !castable(id) ==> r == Response(BadRequest, Failure(InvalidIdMessage)) && notes == old(notes)
      ensures castable(id) && id !in old(notes) ==>
                r == Response(NotFound, Failure(NotFoundMessage)) && notes == old(notes)
      ensures castable(id) && id in old(notes) ==>
                && r == Response(OK, Removed(DeletedMessage, old(notes)[id]))
                && notes == old(notes) - {id}
    {
      if !castable(id) {
        r := Response(BadRequest, Failure(InvalidIdMessage));
      } else if id !in notes {
        r := Response(NotFound, Failure(NotFoundMessage));
      } else {
        r := Response(OK, Removed(DeletedMessage, notes[id]));
        notes := notes - {id};
      }
    }
  }

  // ---------------------------------------------------------------------
  // Request sequences through the store
  // ---------------------------------------------------------------------

  /** Deleting a stored note succeeds once; the same request again finds nothing. */
  method DeleteTwice(store: NoteStore, id: Id) returns (first: Response, second: Response)
    requires store.Valid() && id in store.notes
    modifies store
    ensures first.status == OK && second.status == NotFound
    ensures store.notes == old(store.notes) - {id}
  {
    first := store.Delete(id);
    second := store.Delete(id);
  }

  /** A created note reads back with the fields it was created with (already trimmed ones are kept as sent), and equal timestamps. */
  method CreateThenGet(store: NoteStore, title: string, content: string, newId: Id, now: Millis)
    returns (created: Response, fetched: Response)
    requires store.Valid() && newId !in store.notes && HexId(newId)
    requires IsTrimmed(title) && IsTrimmed(content) && SchemaValid(title, content)
    modifies store
    ensures created == Response(Created, One(Note(newId, title, content, now, now)))
    ensures fetched == Response(OK, One(Note(newId, title, content, now, now)))
  {
    CheckTrimmedStrings(title, content);
    created := store.Create(Str(title), Str(content), newId, now);
    fetched := store.Get(newId);
  }

  /** An update at a later time moves `updatedAt` forward and keeps `createdAt`. */
  method CreateThenUpdate(store: NoteStore, title: string, content: string, newId: Id, t0: Millis, t1: Millis)
    returns (created: Response, updated: Response)
    requires store.Valid() && newId !in store.notes && HexId(newId)
    requires IsTrimmed(title) && IsTrimmed(content) && SchemaValid(title, content)
    requires t0 < t1
    modifies store
    ensures created.status == Created && updated.status == OK
    ensures created.body.One? && updated.body.One?
    ensures updated.body.note.createdAt == created.body.note.createdAt == t0
    ensures updated.body.note.updatedAt == t1 > created.body.note.updatedAt
  {
    CheckTrimmedStrings(title, content);
    created := store.Create(Str(title), Str(content), newId, t0);
    updated := store.Update(newId, Str(title), Str(content), t1);
  }
}
