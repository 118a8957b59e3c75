/** The toast provider: a list of notifications, appended to by `addToast`
    and filtered by id by `removeToast` and by each toast's own
    auto-dismiss timer. */
module Toasts {
  import opened Wrappers

  const OutsideProvider := "useToast must be used within a ToastProvider"

  datatype ToastType = Success | Error | Info

  datatype Toast = Toast(id: string, kind: ToastType, message: string)

  /** `prev.filter((t) => t.id !== id)` */
  function Dismiss(toasts: seq<Toast>, id: string): (r: seq<Toast>)
    ensures |r| <= |toasts|
    ensures forall k :: 0 <= k < |r| ==> r[k].id != id && r[k] in toasts
  {
    if toasts == [] then []
    else (if toasts[0].id == id then [] else [toasts[0]]) + Dismiss(toasts[1..], id)
  }

  /** The filter works toast by toast: it splits over concatenation, so
      the toasts kept are exactly those with another id, in their order. */
  lemma {:induction false} DismissAppend(a: seq<Toast>, b: seq<Toast>, id: string)
    ensures Dismiss(a + b, id) == Dismiss(a, id) + Dismiss(b, id)
  {
    if a != [] {
      var head := if a[0].id == id then [] else [a[0]];
      assert (a + b)[0] == a[0];
      assert (a + b)[1..] == a[1..] + b;
      assert Dismiss(a + b, id) == head + Dismiss(a[1..] + b, id);
      DismissAppend(a[1..], b, id);
      assert Dismiss(a, id) == head + Dismiss(a[1..], id);
    } else {
      assert a + b == b;
    }
  }

  /** Every toast with another id survives the filter. */
  lemma {:induction false} DismissKeeps(toasts: seq<Toast>, id: string, t: Toast)
    requires t in toasts && t.id != id
    ensures t in Dismiss(toasts, id)
  {
    if toasts[0] != t {
      DismissKeeps(toasts[1..], id, t);
    }
  }

  /** No toast carries the id. */
  predicate Unlisted(toasts: seq<Toast>, id: string)
  {
    forall k :: 0 <= k < |toasts| ==> toasts[k].id != id
  }

  /** Removing an id no toast carries leaves the list as it was. */
  lemma {:induction false} DismissAbsent(toasts: seq<Toast>, id: string)
    requires Unlisted(toasts, id)
    ensures Dismiss(toasts, id) == toasts
  {
    if toasts != [] {
      assert toasts[0].id != id;
      DismissAbsent(toasts[1..], id);
    }
  }

  /** Removing the same id twice is removing it once. */
  lemma DismissIdempotent(toasts: seq<Toast>, id: string)
    ensures Dismiss(Dismiss(toasts, id), id) == Dismiss(toasts, id)
  {
    DismissAbsent(Dismiss(toasts, id), id);
  }

  /** A toast's own dismissal, however many toasts were added after it,
      removes it and only it when its id is fresh. */
  lemma DismissOwn(before: seq<Toast>, t: Toast, after: seq<Toast>)
    requires Unlisted(before, t.id) && Unlisted(after, t.id)
    ensures Dismiss(before + [t] + after, t.id) == before + after
  {
    var id := t.id;
    assert Dismiss([t], id) == [] by {
      assert [t][1..] == [];
    }
    calc {
      Dismiss(before + [t] + after, id);
      { DismissAppend(before + [t], after, id); }
      Dismiss(before + [t], id) + Dismiss(after, id);
      { DismissAppend(before, [t], id); }
      Dismiss(before, id) + Dismiss(after, id);
      { DismissAbsent(before, id); DismissAbsent(after, id); }
      before + after;
    }
  }

  class ToastBoard {
    var toasts: seq<Toast>

    constructor ()
      ensures toasts == []
    {
      toasts := [];
    }

    /** `addToast`, with the random id as a parameter; the 5000 ms timer it
        starts is `RemoveToast(id)` taken later as a step. */
    method AddToast(message: string, kind: ToastType, freshId: string) returns (id: string)
      modifies this
      ensures id == freshId
      ensures toasts == old(toasts) + [Toast(freshId, kind, message)]
    {
      id := freshId;
      toasts := toasts + [Toast(id, kind, message)];
    }

    /** `removeToast`, also run by the auto-dismiss timer. */
    method RemoveToast(id: string)
      modifies this
      ensures toasts == Dismiss(old(toasts), id)
    {
      toasts := Dismiss(toasts, id);
    }
  }

  /** What `useToast` yields: the provider's context, or a thrown error. */
  datatype ContextUse = Provided(board: ToastBoard) | Thrown(message: string)

  /** `useToast`: outside a provider (no context) it throws. */
  function UseToast(context: Option<ToastBoard>): (r: ContextUse)
    ensures r.Thrown? <==> context.None?
    ensures r.Thrown? ==> r.message == OutsideProvider
    ensures r.Provided? ==> r.board == context.value
  {
    if context.None? then Thrown(OutsideProvider) else Provided(context.value)
  }
}
