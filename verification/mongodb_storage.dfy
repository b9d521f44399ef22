/** lib/mongodb-storage.ts: the `documents` collection of document records. */
module MongoStorage {
  import opened Wrappers

  /** A row as it sits in the collection. Rows written before the blob store was
      introduced may lack the blob fields, so those are optional here. */
  datatype StoredRecord = StoredRecord(
    id: string,
    name: string,
    size: nat,
    uploadedAt: string,
    cloudinaryUrl: Option<string>,
    cloudinaryPublicId: Option<string>,
    fileType: Option<string>,
    resourceType: Option<string>)

  /** `StoredDocument`, the record as the application reads and writes it. */
  datatype Document = Document(
    id: string,
    name: string,
    size: nat,
    uploadedAt: string,
    cloudinaryUrl: string,
    cloudinaryPublicId: string,
    fileType: string,
    resourceType: Option<string>)

  /** The reply of `delete`: whether a row went away and, for blob clean-up,
      the public id it held. */
  datatype DeleteReply = DeleteReply(deleted: bool, publicId: Option<string>)

  /** The mapping `getAll` and `getById` apply to each row: missing (or empty)
      blob fields read as `''`, the file type as `unknown`, the resource type as `raw`. */
  function Normalize(rec: StoredRecord): (d: Document)
    ensures d.id == rec.id && d.name == rec.name && d.size == rec.size && d.uploadedAt == rec.uploadedAt
    ensures d.cloudinaryUrl == "" <==> !Truthy(rec.cloudinaryUrl)
    ensures d.cloudinaryPublicId == "" <==> !Truthy(rec.cloudinaryPublicId)
    ensures d.fileType != "" && d.resourceType.Some? && d.resourceType.value != ""
    ensures Truthy(rec.cloudinaryUrl) ==> d.cloudinaryUrl == rec.cloudinaryUrl.value
    ensures Truthy(rec.cloudinaryPublicId) ==> d.cloudinaryPublicId == rec.cloudinaryPublicId.value
    ensures Truthy(rec.fileType) ==> d.fileType == rec.fileType.value
    ensures !Truthy(rec.fileType) ==> d.fileType == "unknown"
    ensures Truthy(rec.resourceType) ==> d.resourceType == rec.resourceType
    ensures !Truthy(rec.resourceType) ==> d.resourceType == Some("raw")
  {
    Document(
      rec.id, rec.name, rec.size, rec.uploadedAt,
      OrDefault(rec.cloudinaryUrl, ""),
      OrDefault(rec.cloudinaryPublicId, ""),
      OrDefault(rec.fileType, "unknown"),
      Some(OrDefault(rec.resourceType, "raw")))
  }

  /** The row `save` inserts for a document: every field as given, except that
      a missing or empty resource type is written as `raw`. */
  function ToStored(d: Document): (rec: StoredRecord)
    ensures rec.id == d.id && rec.name == d.name && rec.size == d.size && rec.uploadedAt == d.uploadedAt
    ensures rec.cloudinaryUrl == Some(d.cloudinaryUrl) && rec.cloudinaryPublicId == Some(d.cloudinaryPublicId)
    ensures rec.fileType == Some(d.fileType)
    ensures Truthy(rec.resourceType)
    ensures Truthy(d.resourceType) ==> rec.resourceType == d.resourceType
    ensures !Truthy(d.resourceType) ==> rec.resourceType == Some("raw")
  {
    StoredRecord(
      d.id, d.name, d.size, d.uploadedAt,
      Some(d.cloudinaryUrl), Some(d.cloudinaryPublicId), Some(d.fileType),
      Some(OrDefault(d.resourceType, "raw")))
  }

  /** Reading back a saved document gives it again, up to the defaults a read
      applies: an empty file type reads as `unknown`, a missing resource type as `raw`. */
  lemma SaveThenReadBack(d: Document)
    ensures Normalize(ToStored(d)) ==
      d.(fileType := OrDefault(Some(d.fileType), "unknown"),
         resourceType := Some(OrDefault(d.resourceType, "raw")))
  {
  }

  /** The index of the first row with the given id (the row `findOne({ id })`
      returns, taking the collection's natural order to be insertion order). */
  function FindFirst(rows: seq<StoredRecord>, id: string): (k: Option<nat>)
    ensures k.None? <==> forall i :: 0 <= i < |rows| ==> rows[i].id != id
    ensures k.Some? ==> k.value < |rows| && rows[k.value].id == id
    ensures k.Some? ==> forall i :: 0 <= i < k.value ==> rows[i].id != id
  {
    if rows == [] then None
    else if rows[0].id == id then Some(0)
    else
      match FindFirst(rows[1..], id)
      case None => None
      case Some(k) => Some(k + 1)
  }

  /** Every row read through `Normalize`, in store order. */
  function NormalizeAll(rows: seq<StoredRecord>): (docs: seq<Document>)
    ensures |docs| == |rows|
    ensures forall i :: 0 <= i < |rows| ==> docs[i] == Normalize(rows[i])
  {
    if rows == [] then [] else [Normalize(rows[0])] + NormalizeAll(rows[1..])
  }

  /** The collection, held in memory: its rows in insertion order. */
  class DocumentStore {
    var rows: seq<StoredRecord>

    constructor ()
      ensures rows == []
    {
      rows := [];
    }

    /** `getAll`: one normalised record per stored row, in store order. */
    function GetAll(): (docs: seq<Document>)
      reads this
      ensures |docs| == |rows|
      ensures forall i :: 0 <= i < |rows| ==> docs[i] == Normalize(rows[i])
    {
      NormalizeAll(rows)
    }

    /** `getById`: absent exactly when no row carries the id; otherwise the
        first such row, normalised. */
    function GetById(id: string): (doc: Option<Document>)
      reads this
      ensures doc.None? <==> forall i :: 0 <= i < |rows| ==> rows[i].id != id
      ensures doc.Some? ==> doc.value.id == id
      ensures doc.Some? ==>
        exists i :: && 0 <= i < |rows| && rows[i].id == id
                    && (forall j :: 0 <= j < i ==> rows[j].id != id)
                    && doc.value == Normalize(rows[i])
    {
      match FindFirst(rows, id)
      case None => None
      case Some(k) => Some(Normalize(rows[k]))
    }

    /** `exists`: some row carries the id. */
    function Exists(id: string): (present: bool)
      reads this
      ensures present <==> exists i :: 0 <= i < |rows| && rows[i].id == id
    {
      FindFirst(rows, id).Some?
    }

    /** `save`: inserts one row; an existing row with the same id is not checked for. */
    method Save(d: Document)
      modifies this
      ensures rows == old(rows) + [ToStored(d)]
    {
      rows := rows + [ToStored(d)];
    }

    /** `delete`: `findOne` then `deleteOne`. A missing id is reported as not
        deleted and changes nothing; otherwise the first matching row goes and
        its public id (if non-empty) is handed back for blob clean-up. */
    method Delete(id: string) returns (reply: DeleteReply)
      modifies this
      ensures old(FindFirst(rows, id)).None? ==>
        reply == DeleteReply(false, None) && rows == old(rows)
      ensures old(FindFirst(rows, id)).Some? ==>
        var k := old(FindFirst(rows, id)).value;
        && reply.deleted
        && rows == old(rows[..k] + rows[k + 1..])
        && reply.publicId == (if Truthy(old(rows[k]).cloudinaryPublicId) then old(rows[k]).cloudinaryPublicId else None)
    {
      var found := FindFirst(rows, id);
      if found.None? {
        return DeleteReply(false, None);
      }
      var k := found.value;
      var row := rows[k];
      rows := rows[..k] + rows[k + 1..];
      reply := DeleteReply(true, if Truthy(row.cloudinaryPublicId) then row.cloudinaryPublicId else None);
    }
  }

  /** `exists(id)` agrees with `getById(id)` returning a record. */
  lemma ExistsIffFound(store: DocumentStore, id: string)
    ensures store.Exists(id) <==> store.GetById(id).Some?
  {
  }

  /** After `save(d)`, a lookup of `d.id` succeeds; when no earlier row had
      that id it returns `d` itself, read back with defaults. */
  lemma {:induction false} SavedDocumentIsFound(rows: seq<StoredRecord>, d: Document)
    ensures FindFirst(rows + [ToStored(d)], d.id).Some?
    ensures FindFirst(rows, d.id).None? ==>
      FindFirst(rows + [ToStored(d)], d.id) == Some(|rows|)
  {
    var after := rows + [ToStored(d)];
    assert after[|rows|].id == d.id;
    if FindFirst(rows, d.id).None? {
      assert forall i :: 0 <= i < |rows| ==> after[i].id != d.id;
    }
  }

  /** Deleting the only row with an id leaves no row with that id, and every other row in place. */
  lemma {:induction false} DeleteOnlyCopy(rows: seq<StoredRecord>, id: string, k: nat)
    requires k < |rows| && rows[k].id == id
    requires forall i :: 0 <= i < |rows| && i != k ==> rows[i].id != id
    ensures FindFirst(rows, id) == Some(k)
    ensures FindFirst(rows[..k] + rows[k + 1..], id).None?
    ensures multiset(rows[..k] + rows[k + 1..]) + multiset{rows[k]} == multiset(rows)
  {
    var rest := rows[..k] + rows[k + 1..];
    forall i | 0 <= i < |rest| ensures rest[i].id != id {
      if i < k { assert rest[i] == rows[i]; } else { assert rest[i] == rows[i + 1]; }
    }
    assert rows == rows[..k] + [rows[k]] + rows[k + 1..];
  }
}
