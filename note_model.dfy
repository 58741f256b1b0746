/**
 * The persisted Note record and its schema: the trim setters, the `required`
 * and `maxlength` validators with their messages, the timestamp defaults and
 * the two middleware hooks that refresh `updatedAt`.
 */
module NoteModel {
  import opened Opt
  import opened Text

  /** A store-assigned object identifier, as the string the API exchanges. */
  type Id = string

  /** A point in time in milliseconds since the epoch, as `Date.now()` returns it. */
  type Millis = int

  datatype Note = Note(id: Id, title: string, content: string, createdAt: Millis, updatedAt: Millis)

  /** The validators of one string path: its length cap and the message of each validator. */
  datatype PathRules = PathRules(maxLength: nat, requiredMessage: string, tooLongMessage: string)

  const TitleRules := PathRules(100, "Title is required", "Title cannot exceed 100 characters")
  const ContentRules := PathRules(5000, "Content is required", "Content cannot exceed 5000 characters")

  /**
   * The error of one path, on the value its trim setter stored: `required`
   * fails on the empty string, otherwise `maxlength` fails beyond the cap.
   */
  function PathError(value: string, rules: PathRules): (e: Option<string>)
    ensures e == None <==> 1 <= |value| <= rules.maxLength
  {
    if |value| == 0 then Some(rules.requiredMessage)
    else if |value| > rules.maxLength then Some(rules.tooLongMessage)
    else None
  }

  /** Through the trim setter, `required` fails exactly on input that is all whitespace, and `maxlength` counts the trimmed length. */
  lemma RequiredAfterTrim(raw: string, rules: PathRules)
    requires rules.requiredMessage != rules.tooLongMessage
    ensures PathError(Trim(raw), rules) == Some(rules.requiredMessage) <==> AllWhitespace(raw)
    ensures PathError(Trim(raw), rules) == Some(rules.tooLongMessage) <==> |Trim(raw)| > rules.maxLength
  {
    TrimEmptyIff(raw);
  }

  /** A stored title and content the schema accepts. */
  predicate SchemaValid(title: string, content: string) {
    1 <= |title| <= TitleRules.maxLength && 1 <= |content| <= ContentRules.maxLength
  }

  function AsList(e: Option<string>): seq<string> {
    match e
    case None => []
    case Some(m) => [m]
  }

  /** The messages of a failed validation, one per failing path, in schema order (title, then content). */
  function ValidationErrors(title: string, content: string): (errs: seq<string>)
    ensures errs == [] <==> SchemaValid(title, content)
    ensures |errs| == |AsList(PathError(title, TitleRules))| + |AsList(PathError(content, ContentRules))|
    ensures PathError(title, TitleRules).Some? ==> errs[0] == PathError(title, TitleRules).value
    ensures PathError(content, ContentRules).Some? ==> errs[|errs| - 1] == PathError(content, ContentRules).value
  {
    AsList(PathError(title, TitleRules)) + AsList(PathError(content, ContentRules))
  }

  /** Every failing path is reported: the joined message of a `ValidationError`, empty exactly when nothing fails. */
  function ValidationMessage(title: string, content: string): (m: string)
    ensures m == "" <==> SchemaValid(title, content)
  {
    Join(ValidationErrors(title, content), ", ")
  }

  /**
   * The message names each failing path's own message: both, title first and
   * separated by a comma, when both fail; the one alone otherwise.
   */
  lemma BothPathsReported(title: string, content: string)
    ensures PathError(title, TitleRules).Some? && PathError(content, ContentRules).Some? ==>
              ValidationMessage(title, content) == PathError(title, TitleRules).value + ", " + PathError(content, ContentRules).value
    ensures PathError(title, TitleRules).Some? && PathError(content, ContentRules).None? ==>
              ValidationMessage(title, content) == PathError(title, TitleRules).value
    ensures PathError(title, TitleRules).None? && PathError(content, ContentRules).Some? ==>
              ValidationMessage(title, content) == PathError(content, ContentRules).value
  {
    var errs := ValidationErrors(title, content);
    if |errs| == 2 {
      assert errs[1..] == [errs[1]];
      assert Join(errs[1..], ", ") == errs[1];
      assert Join(errs, ", ") == errs[0] + ", " + Join(errs[1..], ", ");
    }
  }

  /**
   * A document built by `new Note({...})` and later saved: its fields, and
   * the two flags the save hook consults.
   */
  class NoteDocument {
    var title: string
    var content: string
    var createdAt: Millis
    var updatedAt: Millis
    var isNew: bool
    var modified: bool

    /** The trim setters run on assignment; both timestamps default to the current time. */
    constructor (title: string, content: string, now: Millis)
      ensures this.title == Trim(title) && this.content == Trim(content)
      ensures createdAt == now && updatedAt == now
      ensures isNew && modified
    {
      this.title := Trim(title);
      this.content := Trim(content);
      createdAt := now;
      updatedAt := now;
      isNew := true;
      modified := true;
    }

    /** The `pre('save')` hook: a modified document that is already stored gets a fresh `updatedAt`. */
    method PreSave(now: Millis)
      modifies this`updatedAt
      ensures updatedAt == if modified && !isNew then now else old(updatedAt)
      ensures isNew ==> updatedAt == old(updatedAt)
    {
      if modified && !isNew {
        updatedAt := now;
      }
    }

    /** The record that saving this document stores under `id`. */
    function Record(id: Id): Note
      reads this
    {
      Note(id, title, content, createdAt, updatedAt)
    }
  }

  /** The `$set` document of a `findOneAndUpdate`: the new title and content and, when given, `updatedAt`. */
  datatype NoteUpdate = NoteUpdate(title: string, content: string, updatedAt: Option<Millis>)

  /** Casting the update runs the trim setters on the two string paths. */
  function CastUpdate(u: NoteUpdate): (r: NoteUpdate)
    ensures r.title == Trim(u.title) && r.content == Trim(u.content) && r.updatedAt == u.updatedAt
  {
    u.(title := Trim(u.title), content := Trim(u.content))
  }

  /** A `$set` whose strings the route already trimmed is not changed by casting. */
  lemma CastTrimmedUpdate(u: NoteUpdate)
    requires IsTrimmed(u.title) && IsTrimmed(u.content)
    ensures CastUpdate(u) == u
  {
    TrimFixesTrimmed(u.title);
    TrimFixesTrimmed(u.content);
  }

  /** The `pre('findOneAndUpdate')` hook: whatever the update said, `updatedAt` becomes the current time. */
  function PreFindOneAndUpdate(u: NoteUpdate, now: Millis): (r: NoteUpdate)
    ensures r.title == u.title && r.content == u.content && r.updatedAt == Some(now)
  {
    u.(updatedAt := Some(now))
  }

  /** Applies a `$set` to a stored record: the identifier and `createdAt` are never part of it. */
  function ApplyUpdate(n: Note, u: NoteUpdate): (r: Note)
    ensures r.id == n.id && r.createdAt == n.createdAt
    ensures r.title == u.title && r.content == u.content
    ensures r.updatedAt == u.updatedAt.GetOr(n.updatedAt)
  {
    Note(n.id, u.title, u.content, n.createdAt, u.updatedAt.GetOr(n.updatedAt))
  }

  /**
   * Every update through the hook leaves `updatedAt` at the current time, so
   * with a clock that is not behind the record's creation, `createdAt <= updatedAt` holds afterwards.
   */
  lemma HookedUpdateKeepsOrder(n: Note, u: NoteUpdate, now: Millis)
    requires n.createdAt <= now
    ensures ApplyUpdate(n, PreFindOneAndUpdate(u, now)).updatedAt == now
    ensures ApplyUpdate(n, PreFindOneAndUpdate(u, now)).createdAt <= ApplyUpdate(n, PreFindOneAndUpdate(u, now)).updatedAt
  {
  }

  /** A freshly saved document has equal timestamps: the save hook leaves a new document's default alone. */
  method SaveNew(title: string, content: string, id: Id, now: Millis) returns (n: Note)
    ensures n.id == id && n.title == Trim(title) && n.content == Trim(content)
    ensures n.createdAt == now && n.updatedAt == now
  {
    var doc := new NoteDocument(title, content, now);
    doc.PreSave(now);
    n := doc.Record(id);
  }
}
