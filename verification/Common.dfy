/** Shared result types, and what it means to filter a list. */
module Common {
  datatype Option<+T> = None | Some(value: T)

  datatype Result<+T> = Ok(value: T) | Err(error: string)

  // ---------- filtered lists ----------

  /** `kept` stands in `all` at the increasing positions `at`, which are those where p holds. */
  ghost predicate FilteredAt<T>(kept: seq<T>, at: seq<nat>, all: seq<T>, p: T -> bool) {
    && |kept| == |at|
    && (forall i, j :: 0 <= i < j < |at| ==> at[i] < at[j])
    && (forall i :: 0 <= i < |at| ==> at[i] < |all| && kept[i] == all[at[i]])
    && (forall k :: k in at <==> 0 <= k < |all| && p(all[k]))
  }

  /** `kept` is exactly the elements of `all` with p, in their order. */
  ghost predicate Filtered<T>(kept: seq<T>, all: seq<T>, p: T -> bool) {
    exists at: seq<nat> :: FilteredAt(kept, at, all, p)
  }

  lemma NothingFiltered<T>(p: T -> bool)
    ensures Filtered([], [], p)
  {
    var none: seq<nat> := [];
    assert FilteredAt([], none, [], p);
  }

  lemma OneKept<T>(kept: seq<T>, at: seq<nat>, all: seq<T>, p: T -> bool, x: T)
    requires FilteredAt(kept, at, all, p) && p(x)
    ensures FilteredAt(kept + [x], at + [|all|], all + [x], p)
  {
    var more := all + [x];
    assert more[|all|] == x && forall i :: 0 <= i < |all| ==> more[i] == all[i];
    forall i | 0 <= i < |at| ensures at[i] < |all| { }
  }

  lemma OneSkipped<T>(kept: seq<T>, at: seq<nat>, all: seq<T>, p: T -> bool, x: T)
    requires FilteredAt(kept, at, all, p) && !p(x)
    ensures FilteredAt(kept, at, all + [x], p)
  {
    var more := all + [x];
    assert more[|all|] == x && forall i :: 0 <= i < |all| ==> more[i] == all[i];
  }

  /** One more element, kept or not. */
  lemma FilteredOne<T>(kept: seq<T>, all: seq<T>, p: T -> bool, x: T)
    requires Filtered(kept, all, p)
    ensures p(x) ==> Filtered(kept + [x], all + [x], p)
    ensures !p(x) ==> Filtered(kept, all + [x], p)
  {
    var at: seq<nat> :| FilteredAt(kept, at, all, p);
    hide FilteredAt;
    if p(x) { OneKept(kept, at, all, p, x); } else { OneSkipped(kept, at, all, p, x); }
  }
}
