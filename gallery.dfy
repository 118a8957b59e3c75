/** The gallery routes: a table capped at ten images, creation from an
    uploaded file, partial updates (a new file, text fields, a parsed
    display order, a coerced active flag), batch reordering, the public
    listing of active images, and deletion. */
module Gallery {
  import opened Wrappers
  import Rows
  import opened JsString
  import opened Sorting
  import SqlUpdate
  import IP = ImageProcessor

  const MaxGalleryImages := 10
  const Int4Min := -0x8000_0000
  const Int4Max := 0x7FFF_FFFF

  const CapReached := "Maximum of 10 gallery images allowed. Please delete an existing image first."
  const FileRequired := "Image file is required"
  const CreateFailed := "Failed to create gallery image"
  const UpdateFailed := "Failed to update gallery image"
  const NoFields := "No fields to update"
  const ImageNotFound := "Gallery image not found"
  const ItemsRequired := "Items array is required"
  const ImageDeleted := "Gallery image deleted successfully"

  /** A row of the gallery table (timestamps left out). Title and
      description are NULL when the request did not carry them. */
  datatype Image = Image(id: int, imageUrl: string, thumbnailUrl: string, title: Option<string>,
                         description: Option<string>, displayOrder: int, isActive: bool)

  function Order(img: Image): int
  {
    img.displayOrder
  }

  /** A request field that may arrive as form text or as a JSON boolean. */
  datatype FormValue = FormText(text: string) | FormFlag(flag: bool)

  /** `is_active === 'true' || is_active === true` */
  predicate Coerce(v: FormValue)
  {
    v == FormText("true") || v == FormFlag(true)
  }

  predicate HasId(rows: seq<Image>, id: int)
  {
    exists k :: 0 <= k < |rows| && rows[k].id == id
  }

  /** The key column that lookups by id compare. */
  function ImageId(row: Image): int
  {
    row.id
  }

  ghost predicate UniqueIds(rows: seq<Image>)
  {
    forall i, j :: 0 <= i < j < |rows| ==> rows[i].id != rows[j].id
  }

  ghost predicate IdsBelow(rows: seq<Image>, bound: int)
  {
    forall k :: 0 <= k < |rows| ==> rows[k].id < bound
  }

  // ---------------------------------------------------------------------
  // Creation

  /** The display order a new row stores: 0 when the form omits it,
      otherwise the database's integer reading of the submitted text. */
  function StoredOrder(displayOrder: Option<string>, castInteger: string -> Option<int>): Option<int>
  {
    if displayOrder.None? then Some(0) else castInteger(displayOrder.value)
  }

  // ---------------------------------------------------------------------
  // Partial update

  /** The text fields and the two coerced fields of an update request. */
  datatype UpdateBody = UpdateBody(title: Option<string>, description: Option<string>,
                                   displayOrder: Option<string>, isActive: Option<FormValue>)

  function AsText(v: Option<string>): Option<SqlUpdate.SqlValue>
  {
    if v.Some? then Some(SqlUpdate.Text(v.value)) else None
  }

  /** `parseInt(display_order)`; NaN when it does not start with a number. */
  function OrderValue(v: Option<string>): Option<SqlUpdate.SqlValue>
  {
    if v.None? then None
    else if ParseInt(v.value).None? then Some(SqlUpdate.NaN)
    else Some(SqlUpdate.Number(ParseInt(v.value).value))
  }

  function ActiveValue(v: Option<FormValue>): Option<SqlUpdate.SqlValue>
  {
    if v.Some? then Some(SqlUpdate.Flag(Coerce(v.value))) else None
  }

  /** The paths of the new renditions, when a file came with the request. */
  datatype Renditions = Renditions(imageUrl: string, thumbnailUrl: string)

  function ImageUrl(p: Option<Renditions>): Option<SqlUpdate.SqlValue>
  {
    if p.Some? then Some(SqlUpdate.Text(p.value.imageUrl)) else None
  }

  function ThumbnailUrl(p: Option<Renditions>): Option<SqlUpdate.SqlValue>
  {
    if p.Some? then Some(SqlUpdate.Text(p.value.thumbnailUrl)) else None
  }

  /** The supplied fields in the order the handler pushes them. */
  function UpdateFields(p: Option<Renditions>, b: UpdateBody): seq<SqlUpdate.Field>
  {
    SqlUpdate.Supplied("image_url", ImageUrl(p)) + SqlUpdate.Supplied("thumbnail_url", ThumbnailUrl(p))
    + SqlUpdate.Supplied("title", AsText(b.title)) + SqlUpdate.Supplied("description", AsText(b.description))
    + SqlUpdate.Supplied("display_order", OrderValue(b.displayOrder)) + SqlUpdate.Supplied("is_active", ActiveValue(b.isActive))
  }

  /** A value PostgreSQL accepts for an integer or text column: not NaN and,
      if a number, within the 32-bit range. */
  predicate Storable(v: SqlUpdate.SqlValue)
  {
    v != SqlUpdate.NaN && (v.Number? ==> Int4Min <= v.number <= Int4Max)
  }

  predicate AllStorable(values: seq<SqlUpdate.SqlValue>)
  {
    forall i :: 0 <= i < |values| ==> Storable(values[i])
  }

  function TextOr(v: Option<SqlUpdate.SqlValue>, otherwise: string): string
  {
    if v.Some? && v.value.Text? then v.value.text else otherwise
  }

  function NullableOr(v: Option<SqlUpdate.SqlValue>, otherwise: Option<string>): Option<string>
  {
    if v.Some? && v.value.Text? then Some(v.value.text) else otherwise
  }

  function NumberOr(v: Option<SqlUpdate.SqlValue>, otherwise: int): int
  {
    if v.Some? && v.value.Number? then v.value.number else otherwise
  }

  function FlagOr(v: Option<SqlUpdate.SqlValue>, otherwise: bool): bool
  {
    if v.Some? && v.value.Flag? then v.value.flag else otherwise
  }

  /** A row after the database executes the statement on it. */
  function Apply(img: Image, s: SqlUpdate.Update): Image
  {
    img.(imageUrl := TextOr(SqlUpdate.Assigned(s.assignments, s.values, "image_url"), img.imageUrl),
         thumbnailUrl := TextOr(SqlUpdate.Assigned(s.assignments, s.values, "thumbnail_url"), img.thumbnailUrl),
         title := NullableOr(SqlUpdate.Assigned(s.assignments, s.values, "title"), img.title),
         description := NullableOr(SqlUpdate.Assigned(s.assignments, s.values, "description"), img.description),
         displayOrder := NumberOr(SqlUpdate.Assigned(s.assignments, s.values, "display_order"), img.displayOrder),
         isActive := FlagOr(SqlUpdate.Assigned(s.assignments, s.values, "is_active"), img.isActive))
  }

  lemma ColumnsDistinct()
    ensures "image_url" != "thumbnail_url" && "image_url" != "title" && "image_url" != "description"
    ensures "image_url" != "display_order" && "image_url" != "is_active"
    ensures "thumbnail_url" != "title" && "thumbnail_url" != "description" && "thumbnail_url" != "display_order"
    ensures "thumbnail_url" != "is_active" && "title" != "description" && "title" != "display_order"
    ensures "title" != "is_active" && "description" != "display_order" && "description" != "is_active"
    ensures "display_order" != "is_active"
  {
    assert "image_url"[1] == 'm' && "is_active"[1] == 's';
    assert "thumbnail_url"[1] == 'h' && "display_order"[1] == 'i' && "description"[1] == 'e';
  }

  /** The value the update binds to `column`, from the six supplied fields. */
  lemma UpdateFieldValue(p: Option<Renditions>, b: UpdateBody, column: string)
    ensures SqlUpdate.FieldValue(UpdateFields(p, b), column) ==
      var f1, f2, f3 := SqlUpdate.Supplied("image_url", ImageUrl(p)), SqlUpdate.Supplied("thumbnail_url", ThumbnailUrl(p)),
                        SqlUpdate.Supplied("title", AsText(b.title));
      var f4, f5, f6 := SqlUpdate.Supplied("description", AsText(b.description)),
                        SqlUpdate.Supplied("display_order", OrderValue(b.displayOrder)),
                        SqlUpdate.Supplied("is_active", ActiveValue(b.isActive));
      if SqlUpdate.FieldValue(f1, column).Some? then SqlUpdate.FieldValue(f1, column)
      else if SqlUpdate.FieldValue(f2, column).Some? then SqlUpdate.FieldValue(f2, column)
      else if SqlUpdate.FieldValue(f3, column).Some? then SqlUpdate.FieldValue(f3, column)
      else if SqlUpdate.FieldValue(f4, column).Some? then SqlUpdate.FieldValue(f4, column)
      else if SqlUpdate.FieldValue(f5, column).Some? then SqlUpdate.FieldValue(f5, column)
      else SqlUpdate.FieldValue(f6, column)
  {
    var f1, f2, f3 := SqlUpdate.Supplied("image_url", ImageUrl(p)), SqlUpdate.Supplied("thumbnail_url", ThumbnailUrl(p)),
                      SqlUpdate.Supplied("title", AsText(b.title));
    var f4, f5, f6 := SqlUpdate.Supplied("description", AsText(b.description)),
                      SqlUpdate.Supplied("display_order", OrderValue(b.displayOrder)),
                      SqlUpdate.Supplied("is_active", ActiveValue(b.isActive));
    SqlUpdate.FieldValueAppend(f1, f2, column);
    SqlUpdate.FieldValueAppend(f1 + f2, f3, column);
    SqlUpdate.FieldValueAppend(f1 + f2 + f3, f4, column);
    SqlUpdate.FieldValueAppend(f1 + f2 + f3 + f4, f5, column);
    SqlUpdate.FieldValueAppend(f1 + f2 + f3 + f4 + f5, f6, column);
  }

  /** Each column is bound to the value supplied for it, or not at all. */
  lemma UpdateFieldValues(p: Option<Renditions>, b: UpdateBody)
    ensures SqlUpdate.FieldValue(UpdateFields(p, b), "image_url") == ImageUrl(p)
    ensures SqlUpdate.FieldValue(UpdateFields(p, b), "thumbnail_url") == ThumbnailUrl(p)
    ensures SqlUpdate.FieldValue(UpdateFields(p, b), "title") == AsText(b.title)
    ensures SqlUpdate.FieldValue(UpdateFields(p, b), "description") == AsText(b.description)
    ensures SqlUpdate.FieldValue(UpdateFields(p, b), "display_order") == OrderValue(b.displayOrder)
    ensures SqlUpdate.FieldValue(UpdateFields(p, b), "is_active") == ActiveValue(b.isActive)
  {
    ColumnValue(p, b, "image_url");
    ColumnValue(p, b, "thumbnail_url");
    ColumnValue(p, b, "title");
    ColumnValue(p, b, "description");
    ColumnValue(p, b, "display_order");
    ColumnValue(p, b, "is_active");
  }

  /** The value bound to each of the six columns, one column at a time. */
  lemma ColumnValue(p: Option<Renditions>, b: UpdateBody, column: string)
    ensures column == "image_url" ==> SqlUpdate.FieldValue(UpdateFields(p, b), column) == ImageUrl(p)
    ensures column == "thumbnail_url" ==> SqlUpdate.FieldValue(UpdateFields(p, b), column) == ThumbnailUrl(p)
    ensures column == "title" ==> SqlUpdate.FieldValue(UpdateFields(p, b), column) == AsText(b.title)
    ensures column == "description" ==> SqlUpdate.FieldValue(UpdateFields(p, b), column) == AsText(b.description)
    ensures column == "display_order" ==> SqlUpdate.FieldValue(UpdateFields(p, b), column) == OrderValue(b.displayOrder)
    ensures column == "is_active" ==> SqlUpdate.FieldValue(UpdateFields(p, b), column) == ActiveValue(b.isActive)
  {
    ColumnsDistinct();
    UpdateFieldValue(p, b, column);
  }

  /** With a file, the SET list starts `image_url = $1, thumbnail_url = $2`;
      it holds one entry per supplied field, numbered `$1..$n`, then the
      timestamp, and the id is bound as `$(n+1)`. */
  lemma UpdateStatementShape(p: Option<Renditions>, b: UpdateBody, id: int)
    ensures |UpdateFields(p, b)| == (if p.Some? then 2 else 0) + (if b.title.Some? then 1 else 0)
      + (if b.description.Some? then 1 else 0) + (if b.displayOrder.Some? then 1 else 0) + (if b.isActive.Some? then 1 else 0)
    ensures SqlUpdate.WellNumbered(SqlUpdate.Statement(UpdateFields(p, b), SqlUpdate.Number(id)))
    ensures p.Some? ==> SqlUpdate.Statement(UpdateFields(p, b), SqlUpdate.Number(id)).assignments[..2] ==
                        [SqlUpdate.Param("image_url", 1), SqlUpdate.Param("thumbnail_url", 2)]
  {
    var s := SqlUpdate.Statement(UpdateFields(p, b), SqlUpdate.Number(id));
    SqlUpdate.StatementWellNumbered(UpdateFields(p, b), SqlUpdate.Number(id));
    if p.Some? {
      assert UpdateFields(p, b)[0].column == "image_url" && UpdateFields(p, b)[1].column == "thumbnail_url";
      assert s.assignments[0] == SqlUpdate.Numbered(UpdateFields(p, b), 1)[0];
      assert s.assignments[1] == SqlUpdate.Numbered(UpdateFields(p, b), 1)[1];
    }
  }

  /** The update writes the supplied columns and nothing else: a new file
      replaces both paths, a text field replaces its column, a numeric
      display order and the coerced flag replace theirs, and the id and
      every column not supplied keep their values. */
  lemma UpdateWritesSupplied(img: Image, p: Option<Renditions>, b: UpdateBody, id: int)
    ensures Apply(img, SqlUpdate.Statement(UpdateFields(p, b), SqlUpdate.Number(id))) ==
      img.(imageUrl := if p.Some? then p.value.imageUrl else img.imageUrl,
           thumbnailUrl := if p.Some? then p.value.thumbnailUrl else img.thumbnailUrl,
           title := if b.title.Some? then b.title else img.title,
           description := if b.description.Some? then b.description else img.description,
           displayOrder := if b.displayOrder.Some? && ParseInt(b.displayOrder.value).Some?
                           then ParseInt(b.displayOrder.value).value else img.displayOrder,
           isActive := if b.isActive.Some? then Coerce(b.isActive.value) else img.isActive)
  {
    var fields := UpdateFields(p, b);
    UpdateFieldValues(p, b);
    SqlUpdate.StatementWrites(fields, SqlUpdate.Number(id), "image_url");
    SqlUpdate.StatementWrites(fields, SqlUpdate.Number(id), "thumbnail_url");
    SqlUpdate.StatementWrites(fields, SqlUpdate.Number(id), "title");
    SqlUpdate.StatementWrites(fields, SqlUpdate.Number(id), "description");
    SqlUpdate.StatementWrites(fields, SqlUpdate.Number(id), "display_order");
    SqlUpdate.StatementWrites(fields, SqlUpdate.Number(id), "is_active");
  }

  /** A display order that `parseInt` reads as NaN reaches the database,
      which refuses it: the statement is not storable. */
  lemma NaNOrderRefused(p: Option<Renditions>, b: UpdateBody, id: int)
    requires b.displayOrder.Some? && ParseInt(b.displayOrder.value).None?
    ensures !AllStorable(SqlUpdate.Statement(UpdateFields(p, b), SqlUpdate.Number(id)).values)
  {
    var fields := UpdateFields(p, b);
    UpdateFieldValues(p, b);
    var k := FieldIndex(fields, "display_order");
    assert SqlUpdate.Statement(fields, SqlUpdate.Number(id)).values[k] == SqlUpdate.NaN;
  }

  /** The position of the first field named `column`. */
  lemma {:induction false} FieldIndex(fields: seq<SqlUpdate.Field>, column: string) returns (k: nat)
    requires SqlUpdate.FieldValue(fields, column).Some?
    ensures k < |fields| && fields[k] == SqlUpdate.Field(column, SqlUpdate.FieldValue(fields, column).value)
  {
    if fields[0].column == column {
      k := 0;
    } else {
      var j := FieldIndex(fields[1..], column);
      k := j + 1;
    }
  }

  // ---------------------------------------------------------------------
  // Batch reorder

  datatype ReorderItem = ReorderItem(id: int, displayOrder: int)

  /** One `UPDATE gallery SET display_order = $1 WHERE id = $2`. */
  function SetOrder(rows: seq<Image>, item: ReorderItem): (r: seq<Image>)
    ensures |r| == |rows|
    ensures forall k :: 0 <= k < |rows| ==>
      r[k] == if rows[k].id == item.id then rows[k].(displayOrder := item.displayOrder) else rows[k]
  {
    seq(|rows|, k requires 0 <= k < |rows| =>
      if rows[k].id == item.id then rows[k].(displayOrder := item.displayOrder) else rows[k])
  }

  /** The items applied one after the other, in list order. */
  function ApplyOrders(rows: seq<Image>, items: seq<ReorderItem>): (r: seq<Image>)
    ensures |r| == |rows|
  {
    if items == [] then rows
    else SetOrder(ApplyOrders(rows, items[..|items| - 1]), items[|items| - 1])
  }

  /** The order the last item naming `id` gives it, if any item does. */
  function LastOrder(items: seq<ReorderItem>, id: int): Option<int>
  {
    if items == [] then None
    else if items[|items| - 1].id == id then Some(items[|items| - 1].displayOrder)
    else LastOrder(items[..|items| - 1], id)
  }

  /** After a batch, each row carries the order of the last item naming it,
      and a row no item names is unchanged; no other column changes. */
  lemma {:induction false} ReorderResult(rows: seq<Image>, items: seq<ReorderItem>, k: nat)
    requires k < |rows|
    ensures ApplyOrders(rows, items)[k] ==
      if LastOrder(items, rows[k].id).Some? then rows[k].(displayOrder := LastOrder(items, rows[k].id).value)
      else rows[k]
  {
    if items != [] {
      ReorderResult(rows, items[..|items| - 1], k);
    }
  }

  // ---------------------------------------------------------------------
  // Listing of active images

  function ActiveRows(rows: seq<Image>): (r: seq<Image>)
    ensures forall i :: 0 <= i < |r| ==> r[i].isActive
    ensures multiset(r) <= multiset(rows) && |r| <= |rows|
  {
    if rows == [] then []
    else
      var rest := ActiveRows(rows[1..]);
      assert rows == [rows[0]] + rows[1..];
      if rows[0].isActive then [rows[0]] + rest else rest
  }

  lemma {:induction false} ActiveRowsComplete(rows: seq<Image>, k: nat)
    requires k < |rows| && rows[k].isActive
    ensures rows[k] in ActiveRows(rows)
  {
    if k > 0 {
      assert rows[1..][k - 1] == rows[k];
      ActiveRowsComplete(rows[1..], k - 1);
    }
  }

  function Min(a: int, b: int): int
  {
    if a < b then a else b
  }

  /** `WHERE is_active = true ORDER BY display_order ASC LIMIT 10` */
  function ActiveListing(rows: seq<Image>): seq<Image>
  {
    var sorted := SortBy(ActiveRows(rows), Order);
    sorted[..Min(MaxGalleryImages, |sorted|)]
  }

  /** The public listing holds at most ten active rows of the table, in
      ascending display order; every active row left out has an order no
      lower than any listed one, and one is left out only when ten are listed. */
  lemma ActiveListingSpec(rows: seq<Image>) returns (omitted: seq<Image>)
    ensures var r := ActiveListing(rows);
      && |r| <= MaxGalleryImages
      && (forall i :: 0 <= i < |r| ==> r[i].isActive)
      && SortedBy(r, Order)
      && multiset(r) + multiset(omitted) == multiset(ActiveRows(rows))
      && (forall i, j :: 0 <= i < |r| && 0 <= j < |omitted| ==> r[i].displayOrder <= omitted[j].displayOrder)
      && (omitted != [] ==> |r| == MaxGalleryImages)
  {
    var active := ActiveRows(rows);
    var sorted := SortBy(active, Order);
    SortBySorted(active, Order);
    var n := Min(MaxGalleryImages, |sorted|);
    omitted := sorted[n..];
    SplitSorted(sorted, n);
    AllActive(active, sorted, n);
  }

  /** A cut of a sorted sequence: both parts are sorted, the parts together
      are the whole, and no key of the front exceeds a key of the back. */
  lemma SplitSorted(s: seq<Image>, n: nat)
    requires n <= |s| && SortedBy(s, Order)
    ensures SortedBy(s[..n], Order)
    ensures multiset(s[..n]) + multiset(s[n..]) == multiset(s)
    ensures forall i, j :: 0 <= i < n && 0 <= j < |s| - n ==> s[..n][i].displayOrder <= s[n..][j].displayOrder
  {
    assert s == s[..n] + s[n..];
    forall i, j | 0 <= i < n && 0 <= j < |s| - n
      ensures s[..n][i].displayOrder <= s[n..][j].displayOrder
    {
      assert Order(s[i]) <= Order(s[n + j]);
    }
  }

  lemma AllActive(active: seq<Image>, sorted: seq<Image>, n: nat)
    requires forall i :: 0 <= i < |active| ==> active[i].isActive
    requires multiset(sorted) == multiset(active) && n <= |sorted|
    ensures forall i :: 0 <= i < n ==> sorted[..n][i].isActive
  {
    forall i | 0 <= i < n ensures sorted[..n][i].isActive {
      assert sorted[i] in multiset(active);
    }
  }

  /** In a table of at most ten rows the listing leaves no active row out. */
  lemma ActiveRowListed(rows: seq<Image>, k: nat)
    requires |rows| <= MaxGalleryImages && k < |rows| && rows[k].isActive
    ensures rows[k] in ActiveListing(rows)
  {
    var active := ActiveRows(rows);
    ActiveRowsComplete(rows, k);
    var sorted := SortBy(active, Order);
    SortBySorted(active, Order);
    assert rows[k] in multiset(sorted);
    assert sorted[..Min(MaxGalleryImages, |sorted|)] == sorted;
  }

  // ---------------------------------------------------------------------
  // The table

  class GalleryTable {
    var rows: seq<Image>
    var nextId: int

    /** Ids are unique and below the next serial value, and the table never
        holds more than ten rows: only creation inserts, and it refuses at ten. */
    ghost predicate Valid()
      reads this
    {
      UniqueIds(rows) && IdsBelow(rows, nextId) && |rows| <= MaxGalleryImages
    }

    constructor ()
      ensures rows == [] && Valid()
    {
      rows := [];
      nextId := 1;
    }

    /** GET /active */
    method Active() returns (r: seq<Image>)
      ensures r == ActiveListing(rows)
    {
      var active := ActiveRows(rows);
      var sorted := SortBy(active, Order);
      r := sorted[..Min(MaxGalleryImages, |sorted|)];
    }

    /** POST /: the cap is checked before the file; the upload is processed
        and the row stores the two rendition paths. */
    method Create(fs: IP.FileSystem, file: Option<string>, title: Option<string>, description: Option<string>,
                  displayOrder: Option<string>, castInteger: string -> Option<int>, codec: IP.Codec)
      returns (r: Result<Image>)
      requires Valid()
      modifies this, fs
      ensures Valid() && fs.dirs == old(fs.dirs)
      ensures |old(rows)| >= MaxGalleryImages ==> r == Err(HttpError(400, CapReached))
      ensures |old(rows)| < MaxGalleryImages && file.None? ==> r == Err(HttpError(400, FileRequired))
      ensures fs.files == if |old(rows)| < MaxGalleryImages && file.Some?
                          then IP.FilesAfterProcess(old(fs.files), file.value, codec) else old(fs.files)
      ensures r.Err? && |old(rows)| < MaxGalleryImages && file.Some? ==> r.error == HttpError(500, CreateFailed)
      ensures r.Err? ==> rows == old(rows) && nextId == old(nextId)
      ensures r.Ok? <==> |old(rows)| < MaxGalleryImages && file.Some?
                         && IP.ProcessOutcome(old(fs.files), file.value, codec).Done?
                         && StoredOrder(displayOrder, castInteger).Some?
      ensures r.Ok? ==>
        var p := IP.ProcessOutcome(old(fs.files), file.value, codec);
        && r.value == Image(old(nextId), p.processedPath, p.thumbnailPath, title, description,
                            StoredOrder(displayOrder, castInteger).value, true)
        && rows == old(rows) + [r.value] && nextId == old(nextId) + 1
      ensures r.Ok? ==> r.value in ActiveListing(rows)
    {
      var currentCount := |rows|;
      if currentCount >= MaxGalleryImages {
        return Err(HttpError(400, CapReached));
      }
      if file.None? {
        return Err(HttpError(400, FileRequired));
      }
      var processed := IP.ProcessImage(fs, file.value, codec);
      if processed.Failed? {
        return Err(HttpError(500, CreateFailed));
      }
      var order := StoredOrder(displayOrder, castInteger);
      if order.None? {
        return Err(HttpError(500, CreateFailed));
      }
      var img := Image(nextId, processed.processedPath, processed.thumbnailPath, title, description, order.value, true);
      rows := rows + [img];
      nextId := nextId + 1;
      ActiveRowListed(rows, |rows| - 1);
      r := Ok(img);
    }

    /** The database executing an update statement on the row with `id`. */
    method Execute(s: SqlUpdate.Update, id: int) returns (found: Option<Image>)
      requires Valid()
      modifies this
      ensures Valid() && nextId == old(nextId)
      ensures found.None? <==> !HasId(old(rows), id)
      ensures found.None? ==> rows == old(rows)
      ensures found.Some? ==> exists k :: 0 <= k < |old(rows)| && old(rows)[k].id == id
                                && rows == old(rows)[k := Apply(old(rows)[k], s)]
                                && found.value == rows[k]
    {
      var k := Rows.Find(rows, ImageId, id);
      if k.None? {
        return None;
      }
      var img := Apply(rows[k.value], s);
      rows := rows[k.value := img];
      found := Some(img);
    }

    /** The SET-list construction of PUT /:id after the file is processed. */
    static method Prepare(p: Option<Renditions>, b: UpdateBody, id: int) returns (s: Option<SqlUpdate.Update>)
      ensures s.None? <==> UpdateFields(p, b) == []
      ensures s.Some? ==> s.value == SqlUpdate.Statement(UpdateFields(p, b), SqlUpdate.Number(id))
    {
      var updates: seq<SqlUpdate.Assignment> := [];
      var values: seq<SqlUpdate.SqlValue> := [];
      var paramCount: nat := 1;
      ghost var fields: seq<SqlUpdate.Field> := [];
      updates, values, paramCount := SqlUpdate.PushSupplied(updates, values, paramCount, fields, "image_url", ImageUrl(p));
      fields := fields + SqlUpdate.Supplied("image_url", ImageUrl(p));
      updates, values, paramCount := SqlUpdate.PushSupplied(updates, values, paramCount, fields, "thumbnail_url", ThumbnailUrl(p));
      fields := fields + SqlUpdate.Supplied("thumbnail_url", ThumbnailUrl(p));
      updates, values, paramCount := SqlUpdate.PushSupplied(updates, values, paramCount, fields, "title", AsText(b.title));
      fields := fields + SqlUpdate.Supplied("title", AsText(b.title));
      updates, values, paramCount := SqlUpdate.PushSupplied(updates, values, paramCount, fields, "description", AsText(b.description));
      fields := fields + SqlUpdate.Supplied("description", AsText(b.description));
      updates, values, paramCount := SqlUpdate.PushSupplied(updates, values, paramCount, fields, "display_order", OrderValue(b.displayOrder));
      fields := fields + SqlUpdate.Supplied("display_order", OrderValue(b.displayOrder));
      updates, values, paramCount := SqlUpdate.PushSupplied(updates, values, paramCount, fields, "is_active", ActiveValue(b.isActive));
      fields := fields + SqlUpdate.Supplied("is_active", ActiveValue(b.isActive));
      assert [] + SqlUpdate.Supplied("image_url", ImageUrl(p)) == SqlUpdate.Supplied("image_url", ImageUrl(p));
      if |updates| == 0 {
        return None;
      }
      updates := updates + [SqlUpdate.Now("updated_at")];
      values := values + [SqlUpdate.Number(id)];
      s := Some(SqlUpdate.Update(updates, values, paramCount));
    }

    /** PUT /:id: returns the answer and the statement sent, if any. */
    method Update(fs: IP.FileSystem, id: int, file: Option<string>, b: UpdateBody, codec: IP.Codec)
      returns (r: Result<Image>, sent: Option<SqlUpdate.Update>)
      requires Valid()
      modifies this, fs
      ensures Valid() && nextId == old(nextId) && fs.dirs == old(fs.dirs)
      ensures fs.files == if file.Some? then IP.FilesAfterProcess(old(fs.files), file.value, codec) else old(fs.files)
      ensures r.Err? ==> rows == old(rows)
      ensures file.Some? && IP.ProcessOutcome(old(fs.files), file.value, codec).Failed? ==>
                r == Err(HttpError(500, UpdateFailed)) && sent.None?
      ensures file.None? || IP.ProcessOutcome(old(fs.files), file.value, codec).Done? ==>
        var p := if file.Some? then Some(Renditions(IP.ProcessedPath(file.value), IP.ThumbnailPath(file.value))) else None;
        var fields := UpdateFields(p, b);
        var s := SqlUpdate.Statement(fields, SqlUpdate.Number(id));
        && (fields == [] ==> r == Err(HttpError(400, NoFields)) && sent.None?)
        && (fields != [] ==> sent == Some(s))
        && (fields != [] && !AllStorable(s.values) ==> r == Err(HttpError(500, UpdateFailed)))
        && (fields != [] && AllStorable(s.values) && !HasId(old(rows), id) ==> r == Err(HttpError(404, ImageNotFound)))
        && (r.Ok? <==> fields != [] && AllStorable(s.values) && HasId(old(rows), id))
        && (r.Ok? ==> exists k :: 0 <= k < |old(rows)| && old(rows)[k].id == id
                                  && rows == old(rows)[k := Apply(old(rows)[k], s)] && r.value == rows[k])
    {
      var p: Option<Renditions> := None;
      if file.Some? {
        var processed := IP.ProcessImage(fs, file.value, codec);
        if processed.Failed? {
          return Err(HttpError(500, UpdateFailed)), None;
        }
        p := Some(Renditions(processed.processedPath, processed.thumbnailPath));
      }
      sent := Prepare(p, b, id);
      if sent.None? {
        return Err(HttpError(400, NoFields)), None;
      }
      if !AllStorable(sent.value.values) {
        return Err(HttpError(500, UpdateFailed)), sent;
      }
      var found := Execute(sent.value, id);
      if found.None? {
        return Err(HttpError(404, ImageNotFound)), sent;
      }
      r := Ok(found.value);
    }

    /** One UPDATE of the batch. */
    method SetDisplayOrder(item: ReorderItem)
      requires Valid()
      modifies this
      ensures Valid() && nextId == old(nextId)
      ensures rows == SetOrder(old(rows), item)
    {
      rows := SetOrder(rows, item);
    }

    /** PUT /reorder/batch: the items are applied one at a time, then the
        whole table is answered in ascending display order. */
    method Reorder(items: Option<seq<ReorderItem>>) returns (r: Result<seq<Image>>)
      requires Valid()
      modifies this
      ensures Valid() && nextId == old(nextId)
      ensures items.None? || items.value == [] ==> r == Err(HttpError(400, ItemsRequired)) && rows == old(rows)
      ensures items.Some? && items.value != [] ==>
                rows == ApplyOrders(old(rows), items.value) && r == Ok(SortBy(rows, Order))
    {
      if items.None? || |items.value| == 0 {
        return Err(HttpError(400, ItemsRequired));
      }
      var list := items.value;
      var i := 0;
      while i < |list|
        invariant 0 <= i <= |list|
        invariant Valid() && nextId == old(nextId)
        invariant rows == ApplyOrders(old(rows), list[..i])
      {
        assert list[..i + 1][..i] == list[..i];
        SetDisplayOrder(list[i]);
        i := i + 1;
      }
      assert list[..|list|] == list;
      r := Ok(SortBy(rows, Order));
    }

    /** DELETE /:id: removes the row only; the image files stay on disk. */
    method Delete(id: int) returns (r: Result<string>)
      requires Valid()
      modifies this
      ensures Valid() && nextId == old(nextId)
      ensures r.Err? <==> !HasId(old(rows), id)
      ensures r.Err? ==> r.error == HttpError(404, ImageNotFound) && rows == old(rows)
      ensures r.Ok? ==> r.value == ImageDeleted
                        && (exists k :: (0 <= k < |old(rows)| && old(rows)[k].id == id
                                         && rows == old(rows)[..k] + old(rows)[k + 1..]))
      ensures !HasId(rows, id)
    {
      var k := Rows.Find(rows, ImageId, id);
      if k.None? {
        return Err(HttpError(404, ImageNotFound));
      }
      ghost var before := rows;
      rows := rows[..k.value] + rows[k.value + 1..];
      RemoveKeepsUnique(before, k.value, nextId);
      r := Ok(ImageDeleted);
    }
  }

  lemma RemoveKeepsUnique(rows: seq<Image>, k: nat, bound: int)
    requires UniqueIds(rows) && IdsBelow(rows, bound) && k < |rows|
    ensures UniqueIds(rows[..k] + rows[k + 1..]) && IdsBelow(rows[..k] + rows[k + 1..], bound)
    ensures !HasId(rows[..k] + rows[k + 1..], rows[k].id)
  {
    var r := rows[..k] + rows[k + 1..];
    assert forall j :: 0 <= j < |r| ==> r[j] == if j < k then rows[j] else rows[j + 1];
  }
}
