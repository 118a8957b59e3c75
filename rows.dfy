/** Lookup of a table row by its key column, as `WHERE id = $1` over a
    table whose ids are unique. */
module Rows {
  import opened Wrappers

  /** The index of the last row whose key is `id`; None when no row has it. */
  function Find<T>(rows: seq<T>, key: T -> int, id: int): (r: Option<nat>)
    ensures r.None? <==> forall k :: 0 <= k < |rows| ==> key(rows[k]) != id
    ensures r.Some? ==> r.value < |rows| && key(rows[r.value]) == id
  {
    if rows == [] then None
    else if key(rows[|rows| - 1]) == id then Some(|rows| - 1)
    else
      var r := Find(rows[..|rows| - 1], key, id);
      assert forall k :: 0 <= k < |rows| - 1 ==> rows[..|rows| - 1][k] == rows[k];
      r
  }
}
