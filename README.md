# Noteful API routers — a verified model

This project models the two Express routers of the Noteful API server:

- the folders router, mounted at `/api/folders`;
- the notes router, mounted at `/api/notes`.

Each router is a small decision procedure over one database table. It
validates the JSON request body by field presence or JavaScript
truthiness, picks a status code and an exact error message, inserts,
deletes or partially updates rows, and shapes the records it sends back.

## Layout

- `js_values.dfy` (`JsValues`): JSON request values, including `undefined`
  for an absent key. It defines the checks the handlers apply:
  - `== null` (`IsNullish`);
  - `Boolean` (`Truthy`) and `filter(Boolean).length` (`CountTruthy`);
  - `== null || .length < 1` (`NullOrEmpty`).
- `http.dfy` (`Http`): responses (status, JSON body, `Location` header) and
  the `Location` value `path.posix.join(originalUrl, "/" + id)`.
- `store.dfy` (`Store`): a table as the routes see it through the
  service modules (`FoldersService`, `NotesService`). Those modules and
  the database schema are not part of this model, so what they do is
  assumed, not read off their code. The assumption: a table is a sequence
  of rows with strictly increasing positive ids, all below `next`, the id
  the table's sequence hands out on the next insert. `AsMap` is the table
  viewed as a map from id to columns. `Find` stands for `getById`,
  `Delete` for `deleteFolder`/`deleteNote` (remove the row with that id)
  and `Update` for `updateFolder`/`updateNote` (change the row with that
  id).
- `folders.dfy` (`Folders`): class `FoldersRouter`. It holds the folders
  table in mutable fields and has one method per route.
- `notes.dfy` (`Notes`): class `NotesRouter`. It holds the notes table and
  the log of every insert the handlers issue, and has one method per
  route. Its POST is a loop over the three required keys.

A router's table is the field `rows` in id order. `nextId` is the
store's next serial id. `Contents()` is the map view the contracts use.
`Valid()` is the table invariant, and every mutating route preserves it.
The `xss` filter is an opaque function field of each router.

## Model

| member | source | states |
|---|---|---|
| JsValues.CountTruthy | src/folders/folders-router.js:81 | the truthy count never exceeds the number of values |
| JsValues.CountTruthyZero | src/notes/notes-router.js:86-87 | `Truthy` is JavaScript's `Boolean`, the test `filter(Boolean)` applies here and at src/folders/folders-router.js:81-82: the count is 0 exactly when no value is truthy (both directions) |
| JsValues.NullishIsFalsy | src/notes/notes-router.js:31 | `IsNullish` is `== null`, here and at src/folders/folders-router.js:29: it holds for `null` and `undefined`, which are both falsy; `""` is falsy but not nullish |
| JsValues.NameChecksOnStrings | src/folders/folders-router.js:29-33 | `NullOrEmpty` is the POST check `== null \|\| length < 1`. On strings it refuses exactly the falsy ones; `0` and `false` pass it though falsy; `[]` fails it though truthy |
| Http.Decimal | src/folders/folders-router.js:37 | the id's numeral in the template literal is a non-empty run of decimal digits |
| Http.DecimalRoundTrip | src/folders/folders-router.js:37 | reading the numeral back gives the id |
| Http.TrimTrailingSlashes | src/folders/folders-router.js:37 | the joined path's prefix is the URL minus only its trailing `/` characters |
| Http.LastSegment | src/notes/notes-router.js:44 | the last path segment is a suffix containing no `/` |
| Http.LastSegmentAfterSlash | src/notes/notes-router.js:44 | the segment after a final `/` is the last segment |
| Http.LocationNamesId | src/folders/folders-router.js:37 | `Location`, the `path.posix.join` of the request URL and the new id (also at src/notes/notes-router.js:44), names that id, whatever the request URL |
| Store.AsMapKeys | src/folders/folders-router.js:18-20 | the map's keys are exactly the ids of the rows |
| Store.AsMapAt | src/folders/folders-router.js:48-59 | in a well-formed table each row is what the map holds for its id |
| Store.Find | src/notes/notes-router.js:54-63 | `getById` finds a row exactly when the id is in the table, and returns that id's columns |
| Store.FindIsListed | src/folders/folders-router.js:48-59 | the row `getById` returns is one of the rows the list returns |
| Store.Delete | src/notes/notes-router.js:73-76 | deleting never lengthens the table |
| Store.DeleteAsMap | src/folders/folders-router.js:70 | after the delete the id is gone and every other id keeps its columns |
| Store.DeleteBounded | src/folders/folders-router.js:70 | deleting keeps any upper bound on the ids |
| Store.DeleteWellformed | src/notes/notes-router.js:73-76 | deleting keeps the table well-formed |
| Store.Update | src/folders/folders-router.js:91-95 | an update keeps the length, every id and position, and every other row |
| Store.UpdateAsMap | src/notes/notes-router.js:95-99 | after the update the id's columns are the patched ones (if the id is present) and every other id keeps its columns |
| Store.UpdateWellformed | src/folders/folders-router.js:91-95 | updating keeps the table well-formed |
| Store.AppendAsMap | src/folders/folders-router.js:34 | an appended row's columns are stored under its id |
| Store.NextIsFresh | src/folders/folders-router.js:34 | the next serial id is not in the table |
| Store.InsertFresh | src/folders/folders-router.js:34-35 | an insert takes a fresh id, adds exactly that id to the map, and keeps the table well-formed |
| Folders.FoldersRouter.constructor | src/folders/folders-router.js:14-15 | the router starts on a well-formed table |
| Folders.FoldersRouter.List | src/folders/folders-router.js:9-23 | 200, and one `serializeFolder` entry per row, in order. `SerializeFolder` keeps the stored id and passes the name through `xss`. An empty table gives `[]` |
| Folders.FoldersRouter.Post | src/folders/folders-router.js:25-41 | a null, absent or empty name gives 400 `Missing folder name` and no change; otherwise the table gains exactly one folder under a fresh id, and the reply is 201 with the serialized folder and `Location` |
| Folders.FoldersRouter.Get | src/folders/folders-router.js:45-63 | 404 `Folder does not exist` for an unknown id; else 200 and the stored folder, serialized |
| Folders.FoldersRouter.Delete | src/folders/folders-router.js:68-75 | always 204 with no existence check; the id is gone and every other folder is unchanged |
| Folders.FoldersRouter.Patch | src/folders/folders-router.js:77-100 | a falsy name gives 400 `Request body must contain a valid folder name` and no change; a truthy one gives 204 and renames that folder only, with no existence check |
| Folders.ListAgreesWithGet | src/folders/folders-router.js:16-23 | each listed folder is what GET of its id returns, and listed ids are distinct |
| Folders.PostThenGet | test/folders-endpoints.spec.js:76-91 | GET of the id POST returned, which `Location` also names, returns POST's body |
| Folders.DeleteThenList | test/folders-endpoints.spec.js:125-136 | after DELETE the list holds exactly the old folders other than the id: no entry has the id, every entry is an old folder, every other old folder is listed |
| Folders.PatchThenGet | test/folders-endpoints.spec.js:160-179 | after a valid PATCH, GET returns the folder under its id with the new name |
| Notes.LeadingPresent | src/notes/notes-router.js:30-35 | the entries before position `k` are not nullish, and the entry at `k` (if any) is: `k` is the first nullish key |
| Notes.Repeated | src/notes/notes-router.js:41 | `count` inserts lengthen the log by `count` |
| Notes.Inserted | src/notes/notes-router.js:41 | `count` inserts lengthen the table by `count` |
| Notes.ThreeInserts | src/notes/notes-router.js:30-48 | the three inserts of a valid note add its columns under three fresh, consecutive ids |
| Notes.ApplyPatch | src/notes/notes-router.js:84-85 | assuming the update writes every key of `noteToUpdate` that is not `undefined`: `folder_id` never changes, an all-`undefined` patch changes nothing, and a truthy column is written |
| Notes.NotesRouter.constructor | src/notes/notes-router.js:16-17 | the router starts on a well-formed table with an empty insert log |
| Notes.NotesRouter.List | src/notes/notes-router.js:8-25 | 200, and one `serializeNote` entry per row, in order. `SerializeNote` keeps id, date and folder as stored and passes name and content through `xss`. An empty table gives `[]` |
| Notes.NotesRouter.IssueInsert | src/notes/notes-router.js:41 | an insert is logged; a complete payload becomes a row under the next id |
| Notes.NotesRouter.Post | src/notes/notes-router.js:26-49 | one insert is issued per key before the first nullish one. A nullish key gives 400 naming it, with no new row (this rests on the assumed not-null columns, see Left out). All keys present gives three rows and 201 for the first, with `Location` |
| Notes.NotesRouter.PostOnce | src/notes/notes-router.js:30-47 | the same checks and messages, then exactly one insert, one new row under a fresh id, and 201 with `Location` |
| Notes.NotesRouter.Load | src/notes/notes-router.js:53-68 | 404 `Note doesn't exist` for an unknown id; else the stored note is passed on |
| Notes.NotesRouter.Get | src/notes/notes-router.js:69-71 | 404 for an unknown id; else 200 and the stored note, serialized |
| Notes.NotesRouter.Delete | src/notes/notes-router.js:72-81 | 404 and no change for an unknown id; else 204, the id is gone, and every other note is unchanged |
| Notes.NotesRouter.Patch | src/notes/notes-router.js:83-104 | 404 for an unknown id before the body is looked at. A patch with none of name, content, date truthy gives 400 and no change. Otherwise 204, and only that note's given columns change; `folder_id` never does |
| Notes.ListAgreesWithGet | src/notes/notes-router.js:18-25 | each listed note is what GET of its id returns, and listed ids are distinct |
| Notes.PostThenGet | test/notes-endpoint.spec.js:72-93 | GET of the id POST returned, which `Location` also names, returns POST's body |
| Notes.MissingKeyNamed | src/notes/notes-router.js:28-35 | `NewNote` takes the three body keys, `Entries` lists them in `note_name`, `content`, `folder_id` order, and the 400's `MissingKey` message names the first nullish one (the cases test/notes-endpoint.spec.js:95-112 checks). All three present is exactly `k == 3` |
| Notes.FixturesWellformed | test/notes.fixtures.js:1-31 | the fixture table is well-formed and holds note 2 |
| Notes.DeleteSecondFixture | test/notes-endpoint.spec.js:141-153 | deleting note 2 from the fixtures leaves notes 1, 3 and 4 in order |
| Notes.DeleteFixtureNote | test/notes-endpoint.spec.js:141-153 | DELETE of note 2 gives 204, and the list then shows notes 1, 3 and 4 |
| Notes.InLoopInsertDefect | src/notes/notes-router.js:30-48 | the create test's body issues three inserts and leaves three rows |
| Notes.SingleInsert | src/notes/notes-router.js:30-48 | with the insert after the loop, the same body issues one insert and leaves one row |
| Notes.PatchThenGet | src/notes/notes-router.js:83-104 | after a valid PATCH, GET shows the note under its id, in its folder, with each given column and the others unchanged |

## Left out

- Express plumbing is not modelled: routing, `express.json()`, `req.app.get('db')` and `.catch(next)`. A failing store call would be forwarded to the error handler; the model's store never fails.
- The service modules (`FoldersService`, `NotesService`) and the database schema are not part of this model. The model assumes they behave as plain table operations (`Store`), and that the next id is the table's serial counter, which is always above every stored id.
- The `xss` filter is an opaque function. Nothing is assumed about its output, not even idempotence.
- Promise ordering is not modelled. As written, note POST starts up to three inserts before any completes. The model runs them in order and replies with the first created row. It does not capture two things:
  - the later 201 attempts;
  - on a body missing `content` or `folder_id`, the 201 that may race the 400 already sent.
- Notes.NotesRouter.IssueInsert: an incomplete payload (a required key nullish) creates no row. The schema is not part of this model; this assumes `note_name`, `content` and `folder_id` are not-null columns. Such a payload is still logged as issued. The "no new row" part of the 400 case of Notes.NotesRouter.Post rests on this assumption.
- Other database constraints, whatever the schema has, are not modelled: a foreign key from notes to folders, cascades, and a PATCH writing `null` into a not-null column. Column type coercion is also left out; for example, `folder_id` `"2"` is stored as given.
- Notes.NotesRouter.Post: all inserts of one request share one `now` as the assumed `date_modified` default. The `date_modified` read from the POST body is dropped, as in the code.
- Route ids are integers. A non-numeric `:id` string, which the database would reject, is not modelled.
- Http.Location models `path.posix.join` only for a URL without `.` or `..` segments, inner `//` or a query string. It collapses the trailing slashes of the URL before `/<id>`.
- List order is assumed to be id order. The services are not shown, so the model does not know whether their query orders the rows.
- A request body value that is an object with its own `length` property is not modelled; every object has no `length`.
- `src/server.js` and the `console.log` in the folder GET handler are left out.
- The folder tests at test/folders-endpoints.spec.js:105-116 and 140-151 expect 404 for DELETE and PATCH of a missing folder. The code has no existence check and answers 204 (400 for an empty PATCH). The model follows the code.
- Two points where a plain reading of the routes differs from the code. The model follows the code in both:
  - Note PATCH is assumed to skip only `undefined` columns, as knex does with an object's `undefined` keys. A `null`, `""` or `0` given alongside a truthy column is written.
  - Folder POST accepts `0`, `false` and objects, which have no `length`, and refuses `[]`.

## Findings

| source | as written | input that shows it | evidently intended | confidence | as-written member | corrected member |
|---|---|---|---|---|---|---|
| src/notes/notes-router.js:30-48 | `insertNote` is called inside the `for` loop, once per key that passes the null check | `{note_name: "Test Note", content: "Test Content", folder_id: 2}` issues three inserts and creates three notes; a body missing only `folder_id` issues two inserts before the 400 | check all three keys, then insert once | high; not executed | Notes.InLoopInsertDefect | Notes.NotesRouter.PostOnce |
