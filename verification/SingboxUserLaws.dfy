/** What the user edits keep: the statistics list is the duplicate-free list of the names in
    the inbounds, it agrees with the active users, names stay unique within an inbound. */
module SingboxUserLaws {
  import opened Common
  import opened Json
  import opened SingboxUsers

  // ---------- names ----------

  /** The non-empty names in a user list, in order, with repeats. */
  function Names(users: seq<Json>): seq<string> {
    if users == [] then []
    else
      var rest, n := Names(users[..|users| - 1]), NameOf(users[|users| - 1]);
      if n.Some? && n.value != "" then rest + [n.value] else rest
  }

  /** The names in all inbounds the statistics list is taken from, in order, with repeats. */
  function AllNames(inbounds: seq<Json>, filter: set<string>): seq<string> {
    if inbounds == [] then []
    else
      var rest, inb := AllNames(inbounds[..|inbounds| - 1], filter), inbounds[|inbounds| - 1];
      if InStats(inb, filter) then rest + Names(Users(inb.fields)) else rest
  }

  /** The first m in the list comes before every n. */
  predicate Before(all: seq<string>, m: string, n: string) {
    exists p :: 0 <= p < |all| && all[p] == m && n !in all[..p + 1]
  }

  /** `r` lists what is in `all`, once each, by first occurrence. */
  ghost predicate FirstOccurrences(r: seq<string>, all: seq<string>) {
    (forall n :: n in r <==> n in all) &&
    (forall i, j :: 0 <= i < j < |r| ==> r[i] != r[j]) &&
    (forall i, j :: 0 <= i < j < |r| ==> Before(all, r[i], r[j]))
  }

  lemma BeforeGrows(all: seq<string>, more: seq<string>, m: string, n: string)
    requires Before(all, m, n)
    ensures Before(all + more, m, n)
  {
    var p :| 0 <= p < |all| && all[p] == m && n !in all[..p + 1];
    assert (all + more)[..p + 1] == all[..p + 1];
    assert (all + more)[p] == m;
  }

  lemma FirstOccurrencesStep(r: seq<string>, all: seq<string>, n: string)
    requires FirstOccurrences(r, all)
    ensures FirstOccurrences(if n in r then r else r + [n], all + [n])
  {
    hide Before;
    var r' := if n in r then r else r + [n];
    forall i, j | 0 <= i < j < |r'| ensures Before(all + [n], r'[i], r'[j]) {
      if j < |r| { BeforeGrows(all, [n], r[i], r[j]); } else { NewestIsLast(all, r[i], n); }
    }
  }

  lemma NewestIsLast(all: seq<string>, m: string, n: string)
    requires m in all && n !in all
    ensures Before(all + [n], m, n)
  {
    var p :| 0 <= p < |all| && all[p] == m;
    assert (all + [n])[..p + 1] == all[..p + 1];
    assert (all + [n])[p] == m;
  }

  lemma {:induction false} AddNamesFirst(names: seq<string>, all: seq<string>, users: seq<Json>)
    requires FirstOccurrences(names, all)
    ensures FirstOccurrences(AddNames(names, users), all + Names(users))
  {
    hide FirstOccurrences;
    if users == [] {
      assert all + Names(users) == all;
    } else {
      var init, n := users[..|users| - 1], NameOf(users[|users| - 1]);
      AddNamesFirst(names, all, init);
      if n.Some? && n.value != "" {
        FirstOccurrencesStep(AddNames(names, init), all + Names(init), n.value);
        assert all + Names(users) == all + Names(init) + [n.value];
      }
    }
  }

  /** The statistics list is the duplicate-free first-occurrence list of the names. */
  lemma {:induction false} StatsListsFirstOccurrences(inbounds: seq<Json>, filter: set<string>)
    ensures FirstOccurrences(StatsNames(inbounds, filter), AllNames(inbounds, filter))
  {
    if inbounds != [] {
      var init, inb := inbounds[..|inbounds| - 1], inbounds[|inbounds| - 1];
      StatsListsFirstOccurrences(init, filter);
      if InStats(inb, filter) {
        AddNamesFirst(StatsNames(init, filter), AllNames(init, filter), Users(inb.fields));
      }
    }
  }

  // ---------- membership ----------

  lemma {:induction false} NamesAre(users: seq<Json>, n: string)
    ensures n in Names(users) <==> n != "" && HasUser(users, n)
  {
    if users != [] {
      var init, u := users[..|users| - 1], users[|users| - 1];
      NamesAre(init, n);
      HasUserSnoc(init, u, n);
      assert users == init + [u];
    }
  }

  lemma HasUserSnoc(users: seq<Json>, u: Json, n: string)
    ensures HasUser(users + [u], n) <==> HasUser(users, n) || NameOf(u) == Some(n)
  {
    var all := users + [u];
    assert NameOf(u) == Some(n) <==> Named(u, n);
    assert all[|users|] == u;
    if HasUser(users, n) {
      var i :| 0 <= i < |users| && Named(users[i], n);
      assert Named(all[i], n);
    }
  }

  lemma {:induction false} AllNamesAre(inbounds: seq<Json>, filter: set<string>, n: string)
    ensures n in AllNames(inbounds, filter) <==>
      n != "" && exists k ::
        0 <= k < |inbounds| && InStats(inbounds[k], filter) && HasUser(Users(inbounds[k].fields), n)
  {
    hide HasUser, InStats, Users;
    if inbounds != [] {
      var last := |inbounds| - 1;
      AllNamesAre(inbounds[..last], filter, n);
      if InStats(inbounds[last], filter) { AllNamesStep(inbounds[last], filter, n); }
      assert forall k :: 0 <= k < last ==> inbounds[..last][k] == inbounds[k];
    }
  }

  lemma AllNamesStep(inb: Json, filter: set<string>, n: string)
    requires InStats(inb, filter)
    ensures inb.Obj?
    ensures n in Names(Users(inb.fields)) <==> n != "" && HasUser(Users(inb.fields), n)
  {
    NamesAre(Users(inb.fields), n);
  }

  // ---------- the active users ----------

  /** A name some managed inbound holds. */
  predicate Active(inbounds: seq<Json>, filter: set<string>, n: string) {
    n != "" && exists k ::
      0 <= k < |inbounds| && IsManaged(inbounds[k], filter) && HasUser(Users(inbounds[k].fields), n)
  }

  /** A name in an untagged user inbound, while a tag filter is set. */
  predicate Stray(inbounds: seq<Json>, filter: set<string>, n: string) {
    n != "" && filter != {} &&
    exists k :: 0 <= k < |inbounds| && Untagged(inbounds[k]) && HasUser(Users(inbounds[k].fields), n)
  }

  predicate Untagged(inb: Json) { inb.Obj? && IsUserInbound(inb.fields) && Text(inb.fields, "tag").None? }

  predicate AllTagged(inbounds: seq<Json>) {
    forall k :: 0 <= k < |inbounds| ==> !Untagged(inbounds[k])
  }

  /** The statistics list names the active users and the stray ones, and nobody else. */
  lemma StatsAndActive(inbounds: seq<Json>, filter: set<string>, n: string)
    ensures n in StatsNames(inbounds, filter) <==> Active(inbounds, filter, n) || Stray(inbounds, filter, n)
    ensures AllTagged(inbounds) ==> (n in StatsNames(inbounds, filter) <==> Active(inbounds, filter, n))
  {
    hide HasUser, IsUserInbound;
    StatsListsFirstOccurrences(inbounds, filter);
    AllNamesAre(inbounds, filter, n);
    forall k | 0 <= k < |inbounds|
      ensures InStats(inbounds[k], filter) <==>
        IsManaged(inbounds[k], filter) || (filter != {} && Untagged(inbounds[k]))
    {
    }
  }

  /** The tags of the managed inbounds that hold the name, in order. */
  function TagsOf(inbounds: seq<Json>, filter: set<string>, n: string): seq<string> {
    if inbounds == [] then []
    else
      var rest, inb := TagsOf(inbounds[..|inbounds| - 1], filter, n), inbounds[|inbounds| - 1];
      if IsManaged(inb, filter) && HasUser(Users(inb.fields), n) then rest + [TextOr(inb.fields, "tag")] else rest
  }

  lemma {:induction false} TagsMeanActive(inbounds: seq<Json>, filter: set<string>, n: string)
    ensures Active(inbounds, filter, n) <==> n != "" && TagsOf(inbounds, filter, n) != []
  {
    hide HasUser, IsManaged;
    if inbounds != [] {
      var last := |inbounds| - 1;
      TagsMeanActive(inbounds[..last], filter, n);
      assert forall k :: 0 <= k < last ==> inbounds[..last][k] == inbounds[k];
    }
  }

  predicate IsActiveInbound(inb: Json, filter: set<string>) {
    inb.Obj? && (filter == {} || TextOr(inb.fields, "tag") in filter) && IsUserInbound(inb.fields)
  }

  /** The empty tag is never in the filter, so this is the selection of the edits. */
  lemma ActiveIsManaged(inb: Json, managed: seq<string>)
    ensures IsActiveInbound(inb, TagFilter(managed)) <==> IsManaged(inb, TagFilter(managed))
  {
    hide IsUserInbound;
  }
}
