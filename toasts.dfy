/** The `useToast` hook: a list of toasts that `addToast` appends to and
    `removeToast` filters. The id `Date.now().toString()` is an input, so two
    toasts may share one. */
module Toasts {
  import opened Collections

  datatype ToastKind = Success | Error

  datatype ToastMessage = ToastMessage(id: string, kind: ToastKind, message: string)

  /** `prev.filter((t) => t.id !== id)`. */
  function WithoutId(toasts: seq<ToastMessage>, id: string): (r: seq<ToastMessage>)
    ensures IsSubsequence(r, toasts)
    ensures forall i :: 0 <= i < |r| ==> r[i].id != id && r[i] in toasts
    ensures forall i :: 0 <= i < |toasts| && toasts[i].id != id ==> toasts[i] in r
  {
    Filter(toasts, (t: ToastMessage) => t.id != id)
  }

  /** Removing an id nobody has leaves the list as it was. */
  lemma WithoutAbsentId(toasts: seq<ToastMessage>, id: string)
    requires forall i :: 0 <= i < |toasts| ==> toasts[i].id != id
    ensures WithoutId(toasts, id) == toasts
  {
    FilterKeepsAll(toasts, (t: ToastMessage) => t.id != id);
  }

  /** Removing twice is removing once. */
  lemma WithoutIdIdempotent(toasts: seq<ToastMessage>, id: string)
    ensures WithoutId(WithoutId(toasts, id), id) == WithoutId(toasts, id)
  {
    FilterFilter(toasts, (t: ToastMessage) => t.id != id, (t: ToastMessage) => t.id != id);
  }

  /** Dismissing a toast whose id is new takes the list back to what it was
      before that toast was added. */
  lemma AddThenRemove(toasts: seq<ToastMessage>, t: ToastMessage)
    requires forall i :: 0 <= i < |toasts| ==> toasts[i].id != t.id
    ensures WithoutId(toasts + [t], t.id) == toasts
  {
    FilterAppend(toasts, [t], (x: ToastMessage) => x.id != t.id);
    WithoutAbsentId(toasts, t.id);
  }

  class ToastList {
    var toasts: seq<ToastMessage>

    constructor ()
      ensures toasts == []
    {
      toasts := [];
    }

    /** `addToast(type, message)` under the id the clock gave. */
    method AddToast(id: string, kind: ToastKind, message: string)
      modifies this
      ensures toasts == old(toasts) + [ToastMessage(id, kind, message)]
      ensures |toasts| == |old(toasts)| + 1
    {
      toasts := toasts + [ToastMessage(id, kind, message)];
    }

    /** `removeToast(id)`: every toast with the id goes; the rest keep their order. */
    method RemoveToast(id: string)
      modifies this
      ensures toasts == WithoutId(old(toasts), id)
      ensures forall i :: 0 <= i < |toasts| ==> toasts[i].id != id
    {
      toasts := WithoutId(toasts, id);
    }
  }
}
