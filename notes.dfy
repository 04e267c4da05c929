/** The notes router (`/api/notes`): list and create notes, and fetch,
    delete or edit one after an existence check shared by the `/:id`
    routes. Creation walks the required keys in a loop and, as the handler
    is written, issues an insert on every step that passes. */
module Notes {
  import opened JsValues
  import opened Http
  import Store

  /** The columns of a note row besides its id. */
  datatype NoteFields = NoteFields(note_name: JsValue, content: JsValue, folder_id: JsValue, date_modified: JsValue)

  type Note = Store.Row<NoteFields>

  /** The JSON object `serializeNote` returns: exactly these five keys. */
  datatype NoteView = NoteView(id: int, note_name: string, content: string, date_modified: JsValue, folder_id: JsValue)

  /** `newNote`, the object POST hands to `insertNote`. */
  datatype NotePayload = NotePayload(note_name: JsValue, content: JsValue, folder_id: JsValue)

  /** `noteToUpdate`, the object PATCH hands to `updateNote`. */
  datatype NotePatch = NotePatch(note_name: JsValue, content: JsValue, date_modified: JsValue)

  const NoteDoesNotExist := "Note doesn't exist"
  const EmptyNotePatch := "Request body must contain either 'name' or 'content'"

  function MissingKey(key: string): string {
    "Missing '" + key + "' in request body"
  }

  /** `serializeNote`: name and content through `xss`; id, date and folder
      id as stored. */
  function SerializeNote(xss: JsValue -> string, note: Note): NoteView {
    NoteView(note.id, xss(note.data.note_name), xss(note.data.content), note.data.date_modified, note.data.folder_id)
  }

  /** The payload built from the body; its `date_modified` is read and
      dropped. */
  function NewNote(body: JsObject): NotePayload {
    NotePayload(Field(body, "note_name"), Field(body, "content"), Field(body, "folder_id"))
  }

  /** `Object.entries(newNote)`: the keys in the order the object literal
      lists them. */
  function Entries(p: NotePayload): seq<(string, JsValue)> {
    [("note_name", p.note_name), ("content", p.content), ("folder_id", p.folder_id)]
  }

  /** The number of entries before the first nullish one: the index of the
      key a 400 names, or all of them when none is nullish. */
  function LeadingPresent(entries: seq<(string, JsValue)>): (k: nat)
    ensures k <= |entries|
    ensures forall j :: 0 <= j < k ==> !IsNullish(entries[j].1)
    ensures k < |entries| ==> IsNullish(entries[k].1)
  {
    if entries == [] || IsNullish(entries[0].1) then 0
    else 1 + LeadingPresent(entries[1..])
  }

  /** A payload the store is assumed to turn into a row: no required
      column is null (the schema is not part of this model). */
  predicate Complete(p: NotePayload) {
    !IsNullish(p.note_name) && !IsNullish(p.content) && !IsNullish(p.folder_id)
  }

  /** The row the store is assumed to make of a complete payload:
      `date_modified` is a column default, the store's clock `now`. */
  function Stored(p: NotePayload, now: string): NoteFields {
    NoteFields(p.note_name, p.content, p.folder_id, Str(now))
  }

  /** `log` followed by `count` copies of one payload: the insert log after
      a loop issues the same insert `count` times. */
  function Repeated(log: seq<NotePayload>, p: NotePayload, count: nat): (s: seq<NotePayload>)
    ensures |s| == |log| + count
  {
    if count == 0 then log else Repeated(log, p, count - 1) + [p]
  }

  /** `rows` followed by the rows `count` inserts of the same data add,
      from id `first` on. */
  function Inserted(rows: seq<Note>, first: int, count: nat, data: NoteFields): (s: seq<Note>)
    ensures |s| == |rows| + count
  {
    if count == 0 then rows else Inserted(rows, first, count - 1, data) + [Store.Row(first + count - 1, data)]
  }

  /** Three inserts of the same data put it under three fresh, consecutive ids. */
  lemma ThreeInserts(rows: seq<Note>, next: int, data: NoteFields)
    requires Store.Wellformed(rows, next)
    ensures next !in Store.AsMap(rows)
    ensures Store.AsMap(Inserted(rows, next, 3, data))
         == Store.AsMap(rows)[next := data][next + 1 := data][next + 2 := data]
  {
    assert Inserted(rows, next, 1, data) == Inserted(rows, next, 0, data) + [Store.Row(next, data)];
    assert Inserted(rows, next, 3, data) == Inserted(rows, next, 2, data) + [Store.Row(next + 2, data)];
    Store.NextIsFresh(rows, next);
    Store.AppendAsMap(rows, Store.Row(next, data));
    Store.AppendAsMap(Inserted(rows, next, 1, data), Store.Row(next + 1, data));
    Store.AppendAsMap(Inserted(rows, next, 2, data), Store.Row(next + 2, data));
  }

  /** The note after `updateNote` with `noteToUpdate`, assuming the service
      hands the object to knex unchanged and knex drops its `undefined`
      keys: each given column is overwritten, `folder_id` never. */
  function ApplyPatch(note: NoteFields, patch: NotePatch): (r: NoteFields)
    ensures r.folder_id == note.folder_id
    ensures patch == NotePatch(Undefined, Undefined, Undefined) ==> r == note
    ensures Truthy(patch.note_name) ==> r.note_name == patch.note_name
    ensures Truthy(patch.content) ==> r.content == patch.content
    ensures Truthy(patch.date_modified) ==> r.date_modified == patch.date_modified
  {
    NoteFields(
      if patch.note_name.Undefined? then note.note_name else patch.note_name,
      if patch.content.Undefined? then note.content else patch.content,
      note.folder_id,
      if patch.date_modified.Undefined? then note.date_modified else patch.date_modified)
  }

  class NotesRouter {
    /** The `xss` filter; what it returns is not modelled. */
    const xss: JsValue -> string
    /** The notes table, in id order. */
    var rows: seq<Note>
    /** The id the store assigns to the next inserted note. */
    var nextId: int
    /** Every payload handed to `insertNote`, in the order issued. */
    var inserts: seq<NotePayload>

    ghost predicate Valid()
      reads this
    {
      Store.Wellformed(rows, nextId)
    }

    /** The table as a map from note id to the note's columns. */
    function Contents(): map<int, NoteFields>
      reads this
    {
      Store.AsMap(rows)
    }

    constructor (xss: JsValue -> string, rows: seq<Note>, nextId: int)
      requires Store.Wellformed(rows, nextId)
      ensures Valid()
      ensures this.xss == xss && this.rows == rows && this.nextId == nextId && inserts == []
    {
      this.xss := xss;
      this.rows := rows;
      this.nextId := nextId;
      this.inserts := [];
    }

    /** GET `/`: 200 with one serialized note per row, in table order. */
    method List() returns (r: Response<NoteView>)
      requires Valid()
      ensures r.status == 200 && r.location == None && r.body.Many?
      ensures |r.body.views| == |rows|
      ensures forall i :: 0 <= i < |rows| ==> r.body.views[i] == SerializeNote(xss, rows[i])
    {
      var views := seq(|rows|, i requires 0 <= i < |rows| reads this => SerializeNote(xss, rows[i]));
      r := Response(200, Many(views), None);
    }

    /** `insertNote(db, p)`: the call is logged; a complete payload becomes a
        row under the next id, an incomplete one does not. */
    method IssueInsert(p: NotePayload, now: string) returns (created: Option<Note>)
      requires Valid()
      modifies this
      ensures Valid()
      ensures inserts == old(inserts) + [p]
      ensures Complete(p) ==>
        && created == Some(Store.Row(old(nextId), Stored(p, now)))
        && rows == old(rows) + [created.value] && nextId == old(nextId) + 1
      ensures !Complete(p) ==> created == None && rows == old(rows) && nextId == old(nextId)
    {
      inserts := inserts + [p];
      if Complete(p) {
        var note := Store.Row(nextId, Stored(p, now));
        Store.InsertFresh(rows, nextId, note.data);
        rows, nextId := rows + [note], nextId + 1;
        created := Some(note);
      } else {
        created := None;
      }
    }

    /** POST `/`, as written: the keys `note_name`, `content`, `folder_id` are
        checked in turn; a nullish one ends the request with 400 naming it,
        and every key that passes first issues an insert of the whole
        payload. With all keys present that is three inserts, three rows,
        and a 201 for the first. */
    method Post(body: JsObject, originalUrl: string, now: string) returns (r: Response<NoteView>)
      requires Valid()
      modifies this
      ensures Valid()
      ensures var p := NewNote(body);
        inserts == Repeated(old(inserts), p, LeadingPresent(Entries(p)))
      ensures var p := NewNote(body); var k := LeadingPresent(Entries(p));
        k < 3 ==>
          && r == Failure(400, MissingKey(Entries(p)[k].0))
          && rows == old(rows) && nextId == old(nextId)
      ensures var p := NewNote(body); var k := LeadingPresent(Entries(p));
        k == 3 ==>
          var note := Store.Row(old(nextId), Stored(p, now));
          && rows == Inserted(old(rows), old(nextId), 3, note.data)
          && nextId == old(nextId) + 3
          && note.id !in old(Contents())
          && r == Response(201, One(SerializeNote(xss, note)), Some(Location(originalUrl, note.id)))
    {
      var newNote := NewNote(body);
      var entries := Entries(newNote);
      ghost var data := Stored(newNote, now);
      ghost var k := LeadingPresent(entries);
      ghost var complete := Complete(newNote);
      ghost var rows0, start, log0 := rows, nextId, inserts;
      assert complete <==> forall j :: 0 <= j < 3 ==> !IsNullish(entries[j].1) by {
        assert entries[0].1 == newNote.note_name && entries[1].1 == newNote.content && entries[2].1 == newNote.folder_id;
      }
      Store.NextIsFresh(rows, nextId);
      var first: Option<Note> := None;
      var i := 0;
      while i < |entries|
        invariant 0 <= i <= |entries|
        invariant forall j :: 0 <= j < i ==> !IsNullish(entries[j].1)
        invariant i == 0 ==> first.None?
        invariant Valid()
        invariant inserts == Repeated(log0, newNote, i)
        invariant complete ==> rows == Inserted(rows0, start, i, data) && nextId == start + i
        invariant complete && i > 0 ==> first == Some(Store.Row(start, data))
        invariant !complete ==> rows == rows0 && nextId == start
      {
        var (key, value) := entries[i];
        if IsNullish(value) {
          assert k == i && !complete;
          return Failure(400, MissingKey(key));
        }
        var created := IssueInsert(newNote, now);
        if first.None? {
          first := created;
        }
        i := i + 1;
      }
      assert complete && k == 3;
      r := Response(201, One(SerializeNote(xss, first.value)), Some(Location(originalUrl, first.value.id)));
    }

    /** POST `/` with the insert after the loop: the same checks and
        messages, then exactly one insert and one new row. */
    method PostOnce(body: JsObject, originalUrl: string, now: string) returns (r: Response<NoteView>)
      requires Valid()
      modifies this
      ensures Valid()
      ensures var p := NewNote(body); var k := LeadingPresent(Entries(p));
        k < 3 ==>
          && r == Failure(400, MissingKey(Entries(p)[k].0))
          && rows == old(rows) && nextId == old(nextId) && inserts == old(inserts)
      ensures var p := NewNote(body); var k := LeadingPresent(Entries(p));
        k == 3 ==>
          var note := Store.Row(old(nextId), Stored(p, now));
          && inserts == old(inserts) + [p]
          && rows == old(rows) + [note] && nextId == old(nextId) + 1
          && note.id !in old(Contents())
          && Contents() == old(Contents())[note.id := note.data]
          && r == Response(201, One(SerializeNote(xss, note)), Some(Location(originalUrl, note.id)))
    {
      var newNote := NewNote(body);
      var entries := Entries(newNote);
      var i := 0;
      while i < |entries|
        invariant 0 <= i <= |entries|
        invariant forall j :: 0 <= j < i ==> !IsNullish(entries[j].1)
      {
        var (key, value) := entries[i];
        if IsNullish(value) {
          return Failure(400, MissingKey(key));
        }
        i := i + 1;
      }
      assert Complete(newNote) by {
        assert !IsNullish(entries[0].1) && !IsNullish(entries[1].1) && !IsNullish(entries[2].1);
      }
      Store.InsertFresh(rows, nextId, Stored(newNote, now));
      var created := IssueInsert(newNote, now);
      r := Response(201, One(SerializeNote(xss, created.value)), Some(Location(originalUrl, created.value.id)));
    }

    /** `.all` on `/:id`: 404 when no note has the id, else the note is
        handed on (`res.note`) to the route's handler. */
    method Load(id: int) returns (step: Step<Note, NoteView>)
      requires Valid()
      ensures id !in Contents() ==> step == Respond(Failure(404, NoteDoesNotExist))
      ensures id in Contents() ==> step == Next(Store.Row(id, Contents()[id]))
    {
      var note := Store.Find(rows, id);
      if note.None? {
        return Respond(Failure(404, NoteDoesNotExist));
      }
      step := Next(note.value);
    }

    /** GET `/:id`: 404 for an unknown id, else 200 and the note. */
    method Get(id: int) returns (r: Response<NoteView>)
      requires Valid()
      ensures id !in Contents() ==> r == Failure(404, NoteDoesNotExist)
      ensures id in Contents() ==>
        r == Response(200, One(SerializeNote(xss, Store.Row(id, Contents()[id]))), None)
    {
      var step := Load(id);
      if step.Respond? {
        return step.response;
      }
      r := Response(200, One(SerializeNote(xss, step.value)), None);
    }

    /** DELETE `/:id`: 404 for an unknown id and nothing changes; otherwise
        the note is deleted and the answer is 204. */
    method Delete(id: int) returns (r: Response<NoteView>)
      requires Valid()
      modifies this
      ensures Valid()
      ensures nextId == old(nextId) && inserts == old(inserts)
      ensures id !in old(Contents()) ==> r == Failure(404, NoteDoesNotExist) && rows == old(rows)
      ensures id in old(Contents()) ==>
        && r == NoContent()
        && rows == Store.Delete(old(rows), id)
        && Contents() == old(Contents()) - {id}
    {
      var step := Load(id);
      if step.Respond? {
        return step.response;
      }
      Store.DeleteAsMap(rows, id);
      Store.DeleteWellformed(rows, nextId, id);
      rows := Store.Delete(rows, id);
      r := NoContent();
    }

    /** PATCH `/:id`: 404 for an unknown id before the body is looked at;
        400 when none of `note_name`, `content`, `date_modified` is truthy;
        otherwise the given columns are written and the answer is 204. */
    method Patch(id: int, body: JsObject) returns (r: Response<NoteView>)
      requires Valid()
      modifies this
      ensures Valid()
      ensures nextId == old(nextId) && inserts == old(inserts)
      ensures id !in old(Contents()) ==> r == Failure(404, NoteDoesNotExist) && rows == old(rows)
      ensures var patch := NotePatch(Field(body, "note_name"), Field(body, "content"), Field(body, "date_modified"));
        id in old(Contents()) && !Truthy(patch.note_name) && !Truthy(patch.content) && !Truthy(patch.date_modified) ==>
          r == Failure(400, EmptyNotePatch) && rows == old(rows)
      ensures var patch := NotePatch(Field(body, "note_name"), Field(body, "content"), Field(body, "date_modified"));
        id in old(Contents()) && (Truthy(patch.note_name) || Truthy(patch.content) || Truthy(patch.date_modified)) ==>
          && r == NoContent()
          && rows == Store.Update(old(rows), id, (n: NoteFields) => ApplyPatch(n, patch))
          && Contents() == old(Contents())[id := ApplyPatch(old(Contents())[id], patch)]
    {
      var step := Load(id);
      if step.Respond? {
        return step.response;
      }
      var noteToUpdate := NotePatch(Field(body, "note_name"), Field(body, "content"), Field(body, "date_modified"));
      var values := [noteToUpdate.note_name, noteToUpdate.content, noteToUpdate.date_modified];
      var numberOfValues := CountTruthy(values);
      CountTruthyZero(values);
      if numberOfValues == 0 {
        assert !Truthy(values[0]) && !Truthy(values[1]) && !Truthy(values[2]);
        return Failure(400, EmptyNotePatch);
      }
      assert Truthy(values[0]) || Truthy(values[1]) || Truthy(values[2]);
      var update := (n: NoteFields) => ApplyPatch(n, noteToUpdate);
      Store.UpdateAsMap(rows, id, update);
      Store.UpdateWellformed(rows, nextId, id, update);
      rows := Store.Update(rows, id, update);
      r := NoContent();
    }
  }

  /** Every entry of the list is what GET `/:id` returns for that entry's
      id, and no two entries share an id. */
  lemma ListAgreesWithGet(xss: JsValue -> string, rows: seq<Note>, next: int, i: int)
    requires Store.Wellformed(rows, next) && 0 <= i < |rows|
    ensures rows[i].id in Store.AsMap(rows)
    ensures SerializeNote(xss, rows[i])
         == SerializeNote(xss, Store.Row(rows[i].id, Store.AsMap(rows)[rows[i].id]))
    ensures forall j :: 0 <= j < |rows| && j != i ==> SerializeNote(xss, rows[j]).id != SerializeNote(xss, rows[i]).id
  {
    Store.AsMapAt(rows, next, i);
  }

  /** The note a client just created can be fetched at once: GET of the
      id in the POST's body, which the `Location` header also names,
      returns that body. */
  method PostThenGet(xss: JsValue -> string, rows: seq<Note>, next: int, body: JsObject, originalUrl: string, now: string)
    returns (posted: Response<NoteView>, fetched: Response<NoteView>)
    requires Store.Wellformed(rows, next)
    requires Complete(NewNote(body))
    ensures posted.status == 201 && posted.body.One?
    ensures posted.location.Some? && IdInLocation(posted.location.value) == Some(posted.body.view.id)
    ensures fetched.status == 200 && fetched.body == posted.body
  {
    var router := new NotesRouter(xss, rows, next);
    posted := router.Post(body, originalUrl, now);
    ThreeInserts(rows, next, Stored(NewNote(body), now));
    LocationNamesId(originalUrl, next);
    fetched := router.Get(posted.body.view.id);
  }

  /** The first nullish key is the one a 400 names: a body missing exactly
      one of the three keys is answered with that key, and the number of
      inserts issued before it is its position. */
  lemma MissingKeyNamed(body: JsObject)
    ensures var p := NewNote(body); var k := LeadingPresent(Entries(p));
      && (IsNullish(p.note_name) ==> k == 0 && Entries(p)[k].0 == "note_name")
      && (!IsNullish(p.note_name) && IsNullish(p.content) ==> k == 1 && Entries(p)[k].0 == "content")
      && (!IsNullish(p.note_name) && !IsNullish(p.content) && IsNullish(p.folder_id) ==> k == 2 && Entries(p)[k].0 == "folder_id")
      && (k == 3 <==> Complete(p))
  {
    var p := NewNote(body);
    var e := Entries(p);
    assert e[0].1 == p.note_name && e[1].1 == p.content && e[2].1 == p.folder_id;
  }

  /** The notes `makeNotesArray` returns, ids included, in id order. */
  function Fixtures(): seq<Note> {
    [ Store.Row(1, NoteFields(Str("First test note"), Str("Spectacular note info with lots of details"), Num(1.0), Str("2029-01-22T16:28:32.615Z"))),
      Store.Row(2, NoteFields(Str("Second test note"), Str("Amazing note info with lots of details"), Num(2.0), Str("2020-01-22T16:28:32.615Z"))),
      Store.Row(3, NoteFields(Str("Third test note"), Str("Great note info with lots of details"), Num(1.0), Str("2019-01-22T16:28:32.615Z"))),
      Store.Row(4, NoteFields(Str("Fourth test note"), Str("Good note info with lots of details"), Num(1.0), Str("2009-01-22T16:28:32.615Z"))) ]
  }

  /** The fixture table is well-formed and holds note 2. */
  lemma FixturesWellformed()
    ensures Store.Wellformed(Fixtures(), 5)
    ensures 2 in Store.AsMap(Fixtures())
  {
    Store.AsMapAt(Fixtures(), 5, 1);
  }

  /** Deleting note 2 from the fixture table leaves notes 1, 3 and 4, in
      order. */
  lemma DeleteSecondFixture()
    ensures Store.Delete(Fixtures(), 2) == [Fixtures()[0], Fixtures()[2], Fixtures()[3]]
  {
    var f := Fixtures();
    var n1, n2, n3, n4 := f[0], f[1], f[2], f[3];
    assert f[..3] == [n1, n2, n3] && f[..3][..2] == [n1, n2] && f[..3][..2][..1] == [n1];
    assert [n1][..0] == [];
    assert Store.Delete([n1], 2) == [n1];
    assert Store.Delete([n1, n2], 2) == [n1];
    assert Store.Delete([n1, n2, n3], 2) == [n1, n3];
  }

  /** The delete test: with the four fixture notes stored, DELETE of note
      2 answers 204 and the listing shows notes 1, 3 and 4 in order. */
  method DeleteFixtureNote(xss: JsValue -> string) returns (deleted: Response<NoteView>, listed: Response<NoteView>)
    ensures deleted == NoContent()
    ensures var f := Fixtures();
      listed == Response(200, Many([SerializeNote(xss, f[0]), SerializeNote(xss, f[2]), SerializeNote(xss, f[3])]), None)
  {
    FixturesWellformed();
    DeleteSecondFixture();
    var router := new NotesRouter(xss, Fixtures(), 5);
    deleted := router.Delete(2);
    listed := router.List();
    var f := Fixtures();
    assert listed.body.views == [SerializeNote(xss, f[0]), SerializeNote(xss, f[2]), SerializeNote(xss, f[3])];
  }

  /** The in-loop insert as written: a valid note (the body of the create
      test) issues three inserts and leaves three new rows, not one. */
  method InLoopInsertDefect(xss: JsValue -> string, now: string) returns (posted: Response<NoteView>, issued: nat, created: nat)
    ensures posted.status == 201
    ensures issued == 3 && created == 3
  {
    var body := map["note_name" := Str("Test Note"), "content" := Str("Test Content"), "folder_id" := Num(2.0)];
    var router := new NotesRouter(xss, [], 1);
    posted := router.Post(body, "/api/notes", now);
    issued, created := |router.inserts|, |router.rows|;
  }

  /** The same request with the insert after the loop: one insert, one row. */
  method SingleInsert(xss: JsValue -> string, now: string) returns (posted: Response<NoteView>, issued: nat, created: nat)
    ensures posted.status == 201
    ensures issued == 1 && created == 1
  {
    var body := map["note_name" := Str("Test Note"), "content" := Str("Test Content"), "folder_id" := Num(2.0)];
    var router := new NotesRouter(xss, [], 1);
    posted := router.PostOnce(body, "/api/notes", now);
    issued, created := |router.inserts|, |router.rows|;
  }

  /** After a valid PATCH, GET shows the note under the same id and in the
      same folder, with each column the body gave (name and content through
      `xss`) and the others as they were. */
  method PatchThenGet(xss: JsValue -> string, rows: seq<Note>, next: int, id: int, body: JsObject)
    returns (patched: Response<NoteView>, fetched: Response<NoteView>)
    requires Store.Wellformed(rows, next) && id in Store.AsMap(rows)
    requires Truthy(Field(body, "note_name")) || Truthy(Field(body, "content")) || Truthy(Field(body, "date_modified"))
    ensures patched == NoContent()
    ensures var before := Store.AsMap(rows)[id];
      && fetched.status == 200 && fetched.body.One?
      && fetched.body.view.id == id
      && fetched.body.view.folder_id == before.folder_id
      && fetched.body.view.note_name == xss(if "note_name" in body && !body["note_name"].Undefined? then body["note_name"] else before.note_name)
      && fetched.body.view.content == xss(if "content" in body && !body["content"].Undefined? then body["content"] else before.content)
      && fetched.body.view.date_modified == (if "date_modified" in body && !body["date_modified"].Undefined? then body["date_modified"] else before.date_modified)
  {
    var router := new NotesRouter(xss, rows, next);
    patched := router.Patch(id, body);
    fetched := router.Get(id);
  }
}
