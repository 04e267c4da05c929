/** The folders router (`/api/folders`): list, create, fetch, delete and
    rename folders, each handler validating its input, calling the folders
    table and shaping the response. */
module Folders {
  import opened JsValues
  import opened Http
  import Store

  /** The columns of a folder row besides its id. */
  datatype FolderFields = FolderFields(folder_name: JsValue)

  type Folder = Store.Row<FolderFields>

  /** The JSON object `serializeFolder` returns. */
  datatype FolderView = FolderView(id: int, folder_name: string)

  const MissingFolderName := "Missing folder name"
  const FolderDoesNotExist := "Folder does not exist"
  const InvalidFolderName := "Request body must contain a valid folder name"

  /** `serializeFolder`: the id as stored, the name through `xss`. */
  function SerializeFolder(xss: JsValue -> string, folder: Folder): FolderView {
    FolderView(folder.id, xss(folder.data.folder_name))
  }

  class FoldersRouter {
    /** The `xss` filter; what it returns is not modelled. */
    const xss: JsValue -> string
    /** The folders table, in id order. */
    var rows: seq<Folder>
    /** The id the store assigns to the next inserted folder. */
    var nextId: int

    ghost predicate Valid()
      reads this
    {
      Store.Wellformed(rows, nextId)
    }

    /** The table as a map from folder id to the folder's columns. */
    function Contents(): map<int, FolderFields>
      reads this
    {
      Store.AsMap(rows)
    }

    constructor (xss: JsValue -> string, rows: seq<Folder>, nextId: int)
      requires Store.Wellformed(rows, nextId)
      ensures Valid()
      ensures this.xss == xss && this.rows == rows && this.nextId == nextId
    {
      this.xss := xss;
      this.rows := rows;
      this.nextId := nextId;
    }

    /** GET `/`: 200 with one serialized folder per row, in table order. */
    method List() returns (r: Response<FolderView>)
      requires Valid()
      ensures r.status == 200 && r.location == None && r.body.Many?
      ensures |r.body.views| == |rows|
      ensures forall i :: 0 <= i < |rows| ==> r.body.views[i] == SerializeFolder(xss, rows[i])
    {
      var views := seq(|rows|, i requires 0 <= i < |rows| reads this => SerializeFolder(xss, rows[i]));
      r := Response(200, Many(views), None);
    }

    /** POST `/`: a null, absent or empty `folder_name` is refused with 400;
        anything else is inserted under a fresh id and answered with 201,
        the new folder and its `Location`. */
    method Post(body: JsObject, originalUrl: string) returns (r: Response<FolderView>)
      requires Valid()
      modifies this
      ensures Valid()
      ensures var name := Field(body, "folder_name");
        NullOrEmpty(name) ==>
          && r == Failure(400, MissingFolderName)
          && rows == old(rows) && nextId == old(nextId)
      ensures var name := Field(body, "folder_name");
        !NullOrEmpty(name) ==>
          var folder := Store.Row(old(nextId), FolderFields(name));
          && folder.id !in old(Contents())
          && Contents() == old(Contents())[folder.id := folder.data]
          && rows == old(rows) + [folder]
          && r == Response(201, One(SerializeFolder(xss, folder)), Some(Location(originalUrl, folder.id)))
    {
      var folder_name := Field(body, "folder_name");
      var newFolder := FolderFields(folder_name);
      if NullOrEmpty(folder_name) {
        return Failure(400, MissingFolderName);
      }
      var folder := Store.Row(nextId, newFolder);
      Store.InsertFresh(rows, nextId, newFolder);
      rows, nextId := rows + [folder], nextId + 1;
      r := Response(201, One(SerializeFolder(xss, folder)), Some(Location(originalUrl, folder.id)));
    }

    /** GET `/:id`: 404 when no folder has the id, else 200 and the folder. */
    method Get(id: int) returns (r: Response<FolderView>)
      requires Valid()
      ensures id !in Contents() ==> r == Failure(404, FolderDoesNotExist)
      ensures id in Contents() ==>
        r == Response(200, One(SerializeFolder(xss, Store.Row(id, Contents()[id]))), None)
    {
      var folder := Store.Find(rows, id);
      if folder.None? {
        return Failure(404, FolderDoesNotExist);
      }
      r := Response(200, One(SerializeFolder(xss, folder.value)), None);
    }

    /** DELETE `/:id`: deletes without looking first and always answers 204. */
    method Delete(id: int) returns (r: Response<FolderView>)
      requires Valid()
      modifies this
      ensures Valid()
      ensures r == NoContent()
      ensures rows == Store.Delete(old(rows), id) && nextId == old(nextId)
      ensures Contents() == old(Contents()) - {id}
    {
      Store.DeleteAsMap(rows, id);
      Store.DeleteWellformed(rows, nextId, id);
      rows := Store.Delete(rows, id);
      r := NoContent();
    }

    /** PATCH `/:id`: 400 unless `folder_name` is truthy; otherwise the
        folder with that id, if any, is renamed and the answer is 204. */
    method Patch(id: int, body: JsObject) returns (r: Response<FolderView>)
      requires Valid()
      modifies this
      ensures Valid()
      ensures nextId == old(nextId)
      ensures var name := Field(body, "folder_name");
        !Truthy(name) ==> r == Failure(400, InvalidFolderName) && rows == old(rows)
      ensures var name := Field(body, "folder_name");
        Truthy(name) ==>
          && r == NoContent()
          && rows == Store.Update(old(rows), id, (_: FolderFields) => FolderFields(name))
          && (id in old(Contents()) ==> Contents() == old(Contents())[id := FolderFields(name)])
          && (id !in old(Contents()) ==> Contents() == old(Contents()))
    {
      var folder_name := Field(body, "folder_name");
      var folderToUpdate := FolderFields(folder_name);
      var numberOfValues := CountTruthy([folder_name]);
      CountTruthyZero([folder_name]);
      if numberOfValues == 0 {
        return Failure(400, InvalidFolderName);
      }
      var rename := (f: FolderFields) => folderToUpdate;
      Store.UpdateAsMap(rows, id, rename);
      Store.UpdateWellformed(rows, nextId, id, rename);
      rows := Store.Update(rows, id, rename);
      r := NoContent();
    }
  }

  /** Every entry of the list is what GET `/:id` returns for that entry's
      id, and no two entries share an id. */
  lemma ListAgreesWithGet(xss: JsValue -> string, rows: seq<Folder>, next: int, i: int)
    requires Store.Wellformed(rows, next) && 0 <= i < |rows|
    ensures rows[i].id in Store.AsMap(rows)
    ensures SerializeFolder(xss, rows[i])
         == SerializeFolder(xss, Store.Row(rows[i].id, Store.AsMap(rows)[rows[i].id]))
    ensures forall j :: 0 <= j < |rows| && j != i ==> SerializeFolder(xss, rows[j]).id != SerializeFolder(xss, rows[i]).id
  {
    Store.AsMapAt(rows, next, i);
  }

  /** A created folder can be fetched at once: GET of the new id, which the
      `Location` header also names, returns the body POST returned. */
  method PostThenGet(xss: JsValue -> string, rows: seq<Folder>, next: int, body: JsObject, originalUrl: string)
    returns (posted: Response<FolderView>, fetched: Response<FolderView>)
    requires Store.Wellformed(rows, next)
    requires !NullOrEmpty(Field(body, "folder_name"))
    ensures posted.status == 201 && posted.body.One?
    ensures posted.location.Some? && IdInLocation(posted.location.value) == Some(posted.body.view.id)
    ensures fetched.status == 200 && fetched.body == posted.body
  {
    var router := new FoldersRouter(xss, rows, next);
    posted := router.Post(body, originalUrl);
    LocationNamesId(originalUrl, posted.body.view.id);
    fetched := router.Get(posted.body.view.id);
  }

  /** After DELETE the listing shows exactly the folders it showed before
      other than the deleted one: no entry has the id, every entry is an
      old folder, and every other old folder is shown. */
  method DeleteThenList(xss: JsValue -> string, rows: seq<Folder>, next: int, id: int)
    returns (deleted: Response<FolderView>, listed: Response<FolderView>)
    requires Store.Wellformed(rows, next)
    ensures deleted.status == 204
    ensures listed.status == 200 && listed.body.Many?
    ensures forall v :: v in listed.body.views ==> v.id != id
    ensures forall v :: v in listed.body.views ==>
      exists i :: 0 <= i < |rows| && rows[i].id != id && v == SerializeFolder(xss, rows[i])
    ensures forall i :: 0 <= i < |rows| && rows[i].id != id ==> SerializeFolder(xss, rows[i]) in listed.body.views
  {
    var router := new FoldersRouter(xss, rows, next);
    deleted := router.Delete(id);
    listed := router.List();
    forall v | v in listed.body.views
      ensures v.id != id
      ensures exists i :: 0 <= i < |rows| && rows[i].id != id && v == SerializeFolder(xss, rows[i])
    {
      var k :| 0 <= k < |listed.body.views| && listed.body.views[k] == v;
      var row := router.rows[k];
      Store.AsMapAt(router.rows, router.nextId, k);
      Store.AsMapKeys(rows, row.id);
      var i :| 0 <= i < |rows| && rows[i].id == row.id;
      Store.AsMapAt(rows, next, i);
    }
    forall i | 0 <= i < |rows| && rows[i].id != id
      ensures SerializeFolder(xss, rows[i]) in listed.body.views
    {
      Store.AsMapAt(rows, next, i);
      assert rows[i].id in router.Contents();
      var folder := Store.Find(router.rows, rows[i].id);
      assert folder.value == rows[i];
      Store.FindIsListed(router.rows, rows[i].id);
      var k :| 0 <= k < |router.rows| && router.rows[k] == folder.value;
      assert listed.body.views[k] == SerializeFolder(xss, rows[i]);
    }
  }

  /** After a valid PATCH, GET returns the folder under its old id with the
      new name. */
  method PatchThenGet(xss: JsValue -> string, rows: seq<Folder>, next: int, id: int, body: JsObject)
    returns (patched: Response<FolderView>, fetched: Response<FolderView>)
    requires Store.Wellformed(rows, next)
    requires id in Store.AsMap(rows) && Truthy(Field(body, "folder_name"))
    ensures patched.status == 204
    ensures fetched == Response(200, One(FolderView(id, xss(Field(body, "folder_name")))), None)
  {
    var router := new FoldersRouter(xss, rows, next);
    patched := router.Patch(id, body);
    fetched := router.Get(id);
  }
}
