/** The admin gallery page: the upload guard and the order a new image
    asks for, the active toggle, and drag-and-drop reordering (move on drag
    over, positional display orders sent on drag end). */
module GalleryAdmin {
  import opened Wrappers
  import opened JsString
  import G = Gallery

  const MaxImages := 10

  /** `s.splice(d, 1)` for an index inside `s`. */
  function Remove<T>(s: seq<T>, d: nat): (r: seq<T>)
    requires d < |s|
    ensures |r| == |s| - 1
  {
    s[..d] + s[d + 1..]
  }

  /** `s.splice(t, 0, x)` for a position no further than the end. */
  function InsertAt<T>(s: seq<T>, t: nat, x: T): (r: seq<T>)
    requires t <= |s|
    ensures |r| == |s| + 1
  {
    s[..t] + [x] + s[t..]
  }

  /** The list after dragging the item at `d` over slot `t`. */
  function Move<T>(s: seq<T>, d: nat, t: nat): seq<T>
    requires d < |s| && t < |s|
  {
    InsertAt(Remove(s, d), t, s[d])
  }

  /** A move keeps the same items, puts the dragged one at `t`, and leaves
      every other item in its relative order. */
  lemma MoveSpec<T>(s: seq<T>, d: nat, t: nat)
    requires d < |s| && t < |s|
    ensures |Move(s, d, t)| == |s|
    ensures Move(s, d, t)[t] == s[d]
    ensures multiset(Move(s, d, t)) == multiset(s)
    ensures Remove(Move(s, d, t), t) == Remove(s, d)
  {
    RemoveMultiset(s, d);
    InsertAtSpec(Remove(s, d), t, s[d]);
  }

  /** Removing an item takes exactly that item out of the multiset. */
  lemma RemoveMultiset<T>(s: seq<T>, d: nat)
    requires d < |s|
    ensures multiset(Remove(s, d)) + multiset{s[d]} == multiset(s)
  {
    assert s == s[..d] + [s[d]] + s[d + 1..];
  }

  /** Inserting puts the item at its slot, adds it to the multiset, and
      removing it again gives back the list. */
  lemma InsertAtSpec<T>(s: seq<T>, t: nat, x: T)
    requires t <= |s|
    ensures InsertAt(s, t, x)[t] == x
    ensures multiset(InsertAt(s, t, x)) == multiset(s) + multiset{x}
    ensures Remove(InsertAt(s, t, x), t) == s
  {
    var r := InsertAt(s, t, x);
    assert s == s[..t] + s[t..];
    assert r[..t] == s[..t] && r[t + 1..] == s[t..];
  }

  /** Successive drag-overs compose: dragging on from `t` to `u` is one
      move from `d` to `u`. */
  lemma MoveCompose<T>(s: seq<T>, d: nat, t: nat, u: nat)
    requires d < |s| && t < |s| && u < |s|
    ensures Move(Move(s, d, t), t, u) == Move(s, d, u)
  {
    MoveSpec(s, d, t);
  }

  /** The positional orders sent on drag end: `{ id, display_order: idx }`. */
  function PositionalOrder(images: seq<G.Image>): (items: seq<G.ReorderItem>)
    ensures |items| == |images|
    ensures forall k :: 0 <= k < |items| ==> items[k] == G.ReorderItem(images[k].id, k)
  {
    seq(|images|, k requires 0 <= k < |images| => G.ReorderItem(images[k].id, k))
  }

  /** With distinct ids, the batch the page sends gives every image its
      position on screen: the server's reorder leaves each listed row with
      the order of its position. */
  lemma PositionalOrderApplied(images: seq<G.Image>, k: nat)
    requires G.UniqueIds(images) && k < |images|
    ensures G.LastOrder(PositionalOrder(images), images[k].id) == Some(k)
  {
    var items := PositionalOrder(images);
    LastOrderAt(items, images, |images|, k);
    assert items[..|images|] == items;
  }

  lemma {:induction false} LastOrderAt(items: seq<G.ReorderItem>, images: seq<G.Image>, m: nat, k: nat)
    requires G.UniqueIds(images) && k < m <= |images| && items == PositionalOrder(images)
    ensures G.LastOrder(items[..m], images[k].id) == Some(k)
  {
    var front := items[..m];
    assert front[..m - 1] == items[..m - 1];
    if m - 1 != k {
      assert front[m - 1].id == images[m - 1].id != images[k].id;
      LastOrderAt(items, images, m - 1, k);
    }
  }

  /** The display order a new upload asks for: the current image count. */
  function UploadOrder(images: seq<G.Image>): string
  {
    Decimal(|images|)
  }

  /** An upload is a POST, whose order the gallery route binds as text and
      the database casts to a 32-bit integer. The page uploads only while
      fewer than ten images are shown; with a cast that reads the decimal
      digits of any value the column holds, the new row stores the image
      count, after the existing ones. Read by `parseInt`, as a later edit
      would, the text is the count too. */
  lemma UploadOrderRead(images: seq<G.Image>, castInteger: string -> Option<int>)
    requires |images| < MaxImages
    requires forall n: nat :: n <= G.Int4Max ==> castInteger(Decimal(n)) == Some(n)
    ensures G.StoredOrder(Some(UploadOrder(images)), castInteger) == Some(|images|)
    ensures ParseInt(UploadOrder(images)) == Some(|images|)
    ensures G.OrderValue(Some(UploadOrder(images))) == Some(G.SqlUpdate.Number(|images|))
  {
    ParseIntDecimal(|images|, []);
    assert Decimal(|images|) + [] == Decimal(|images|);
  }

  /** `(!image.is_active).toString()` */
  function ToggleText(image: G.Image): string
  {
    if image.isActive then "false" else "true"
  }

  /** The toggle's text is coerced by the server to the opposite flag. */
  lemma ToggleFlips(image: G.Image)
    ensures G.Coerce(G.FormText(ToggleText(image))) == !image.isActive
  {
    assert "false" != "true" by {
      assert "false"[0] != "true"[0];
    }
  }

  class GalleryPage {
    var images: seq<G.Image>
    var draggedIndex: Option<nat>

    /** The dragged index, while a drag is in progress, names a shown image. */
    ghost predicate Valid()
      reads this
    {
      draggedIndex.Some? ==> draggedIndex.value < |images|
    }

    constructor ()
      ensures images == [] && draggedIndex == None && Valid()
    {
      images := [];
      draggedIndex := None;
    }

    /** `loadImages`, with the fetched list as a parameter; a drag in
        progress is not interrupted by the page itself. */
    method Load(data: seq<G.Image>)
      requires draggedIndex.None?
      modifies this
      ensures images == data && draggedIndex == None && Valid()
    {
      images := data;
    }

    /** `handleUpload`: None when no request is made (no file, or the page
        already holds ten images); otherwise the order sent with the file. */
    method Upload(hasFile: bool) returns (order: Option<string>)
      ensures order.Some? <==> hasFile && |images| < MaxImages
      ensures order.Some? ==> order.value == UploadOrder(images)
    {
      if !hasFile {
        return None;
      }
      if |images| >= MaxImages {
        return None;
      }
      order := Some(Decimal(|images|));
    }

    /** `handleDragStart` on a shown image. */
    method DragStart(index: nat)
      requires index < |images|
      modifies this
      ensures images == old(images) && draggedIndex == Some(index) && Valid()
    {
      draggedIndex := Some(index);
    }

    /** `handleDragOver` on the shown slot `index`. */
    method DragOver(index: nat)
      requires Valid() && index < |images|
      modifies this
      ensures Valid()
      ensures old(draggedIndex).None? || old(draggedIndex) == Some(index) ==>
                images == old(images) && draggedIndex == old(draggedIndex)
      ensures old(draggedIndex).Some? && old(draggedIndex) != Some(index) ==>
                images == Move(old(images), old(draggedIndex).value, index) && draggedIndex == Some(index)
    {
      if draggedIndex.None? || draggedIndex == Some(index) {
        return;
      }
      var d := draggedIndex.value;
      var newImages := images;
      var draggedItem := newImages[d];
      newImages := newImages[..d] + newImages[d + 1..];
      newImages := newImages[..index] + [draggedItem] + newImages[index..];
      images := newImages;
      draggedIndex := Some(index);
    }

    /** `handleDragEnd`: the batch sent, if a drag was in progress; the
        drag index is cleared whatever the request's outcome. */
    method DragEnd() returns (sent: Option<seq<G.ReorderItem>>)
      modifies this
      ensures images == old(images) && draggedIndex == None && Valid()
      ensures sent == if old(draggedIndex).Some? then Some(PositionalOrder(images)) else None
    {
      if draggedIndex.None? {
        return None;
      }
      var items: seq<G.ReorderItem> := [];
      var idx := 0;
      while idx < |images|
        invariant 0 <= idx <= |images|
        invariant items == PositionalOrder(images[..idx])
      {
        assert images[..idx + 1][..idx] == images[..idx];
        items := items + [G.ReorderItem(images[idx].id, idx)];
        idx := idx + 1;
      }
      assert images[..|images|] == images;
      draggedIndex := None;
      sent := Some(items);
    }
  }
}
