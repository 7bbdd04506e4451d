/** What holds after every step and over every run of configuration edits. */
module PanelRuns {
  import opened Common
  import opened Json
  import opened SingboxUsers
  import opened SingboxUserLaws
  import opened SingboxEditLaws
  import opened SingboxInbounds
  import opened Panel

  // ---------- one step ----------

  /** An operation is rejected exactly when the configuration cannot be read, the edit refuses, the
      result is not valid while sing-box is enabled, or it cannot be written; then everything is as
      it was.  Otherwise the edit is stored and pending; it has pairwise distinct listen ports and
      passed the checker when sing-box is enabled. */
  lemma StepIsTransactional(setup: Setup, st: State, op: Op, w: World)
    ensures
      var (next, reply) := Step(setup, st, op, w);
      var edit := EditOf(setup, st, op);
      (reply == Rejected <==>
        !w.readable || edit.Refused? || !w.writable ||
        (setup.enabled && (!w.checkPasses || !DistinctPorts(Inbounds(edit.cfg))))) &&
      (reply == Rejected ==> next == st) &&
      (reply != Rejected ==> next.stored == edit.cfg && next.pending) &&
      (setup.enabled && reply != Rejected ==> w.checkPasses && DistinctPorts(Inbounds(next.stored)))
  {
    hide EditOf, DistinctPorts, Discovered;
  }

  /** An operation reports success exactly when it is accepted, an inbound that was added or updated
      could be read back, and the lists could be saved if they changed. */
  lemma DoneExactly(setup: Setup, st: State, op: Op, w: World)
    ensures
      var (next, reply) := Step(setup, st, op, w);
      reply == Done <==>
        Accepted(setup, EditOf(setup, st, op), w) &&
        (op.AddInboundOp? || op.UpdateInboundOp? ==> w.rereadable) &&
        (next.managed != st.managed || next.statsInbounds != st.statsInbounds ==> w.listsSaved)
  {
    hide EditOf, Accepted, Discovered, Renamed, Dropped, TextOr, Inbounds;
    match op
    case UpdateInboundOp(tag, inb) =>
      if Renames(tag, inb) {
        RenamedChanges(st.managed, tag, TextOr(inb, "tag"));
        RenamedChanges(st.statsInbounds, tag, TextOr(inb, "tag"));
        DiscoveredGrows(Renamed(st.managed, tag, TextOr(inb, "tag")));
        DiscoveredGrows(Renamed(st.statsInbounds, tag, TextOr(inb, "tag")));
      }
    case DeleteInboundOp(tag) =>
      DroppedChanges(st.managed, tag);
      DroppedChanges(st.statsInbounds, tag);
    case _ =>
  }

  lemma DiscoveredGrows(list: seq<string>)
    ensures forall inbounds :: list <= Discovered(list, inbounds)
  {
    hide Discovered;
  }

  /** A rename changes a list exactly when it has the old tag, and does not change its length. */
  lemma {:induction false} RenamedChanges(list: seq<string>, from: string, to: string)
    requires from != to
    ensures |Renamed(list, from, to)| == |list|
    ensures Renamed(list, from, to) == list <==> from !in list
    ensures from in list ==> exists i :: 0 <= i < |list| && Renamed(list, from, to)[i] != list[i]
  {
    if list != [] {
      RenamedChanges(list[1..], from, to);
      assert list == [list[0]] + list[1..];
      var r := Renamed(list, from, to);
      if list[0] == from {
        assert r[0] != list[0];
      } else if from in list {
        var i :| 0 <= i < |list[1..]| && Renamed(list[1..], from, to)[i] != list[1..][i];
        assert r[i + 1] != list[i + 1];
      }
    }
  }

  lemma {:induction false} DroppedChanges(list: seq<string>, tag: string)
    ensures Dropped(list, tag) == list <==> tag !in list
  {
    if tag in list {
      assert tag !in Dropped(list, tag);
    } else if list != [] {
      DroppedChanges(list[..|list| - 1], tag);
    }
  }

  // ---------- the rest of the configuration ----------

  /** Every edit leaves all keys of the configuration but two, those that keep the users all but
      one. */
  lemma EditKeepsRest(setup: Setup, st: State, op: Op)
    requires EditOf(setup, st, op).Edited?
    ensures EditOf(setup, st, op).cfg - {"inbounds", "experimental"} == st.stored - {"inbounds", "experimental"}
    ensures !WritesStats(op) ==> EditOf(setup, st, op).cfg - {"inbounds"} == st.stored - {"inbounds"}
    ensures Child(EditOf(setup, st, op).cfg, "experimental") - {"v2ray_api"} ==
      Child(st.stored, "experimental") - {"v2ray_api"}
  {
    hide WithoutTag, FirstWith, FirstTagged, RekeyedInAll, RemovedFromAll, WithStats, AnyManaged, StatsNames;
    hide HasUser, Cleaned, NewUser, IsInScope, IsHeldIn, InboundType, Child, Inbounds, WithInbounds;
    forall inbounds { InboundsRest(st.stored, inbounds); }
    forall inbounds, names {
      StatsRest(WithInbounds(st.stored, inbounds), SettingsOf(setup, st), names);
    }
  }

  /** The operations that rewrite the statistics list. */
  predicate WritesStats(op: Op) { op.AddUserOp? || op.RemoveUserOp? || (op.UpdateUserOp? && !op.everywhere) }

  lemma InboundsRest(cfg: Fields, inbounds: seq<Json>)
    ensures var r := WithInbounds(cfg, inbounds);
      && r - {"inbounds"} == cfg - {"inbounds"}
      && r - {"inbounds", "experimental"} == cfg - {"inbounds", "experimental"}
      && Child(r, "experimental") == Child(cfg, "experimental")
  {
    assert "inbounds" != "experimental";
  }

  lemma StatsRest(cfg: Fields, s: Settings, names: seq<string>)
    ensures var r := WithStats(cfg, s, names);
      && r - {"inbounds", "experimental"} == cfg - {"inbounds", "experimental"}
      && Child(r, "experimental") - {"v2ray_api"} == Child(cfg, "experimental") - {"v2ray_api"}
  {
    hide ApiSection;
  }

  /** Every discoverable inbound is in both lists. */
  predicate AllListed(st: State) {
    forall inb :: inb in Inbounds(st.stored) ==> InList(inb, st.managed) && InList(inb, st.statsInbounds)
  }

  /** A completed synchronisation lists every discoverable inbound, whatever went before. */
  lemma SyncRestores(st: State, w: World)
    requires w.rereadable
    ensures AllListed(SyncedLists(st, w).0)
    ensures SyncedLists(st, w).0.stored == st.stored
    ensures st.managed <= SyncedLists(st, w).0.managed && st.statsInbounds <= SyncedLists(st, w).0.statsInbounds
  {
    hide IsDiscoverable;
    forall inb | inb in Inbounds(st.stored) && IsDiscoverable(inb) { DiscoverableIsObject(inb); }
  }

  /** The step reaches its synchronisation if it has one. */
  predicate Completes(op: Op, w: World) {
    (op.AddInboundOp? || op.UpdateInboundOp? ==> w.rereadable) &&
    (op.UpdateInboundOp? && Renames(op.tag, op.inb) ==> w.listsSaved)
  }

  lemma DeleteKeepsListed(st: State, tag: string)
    requires AllListed(st) && InboundDeleted(st.stored, tag).Edited?
    ensures AllListed(DroppedLists(st.(stored := InboundDeleted(st.stored, tag).cfg, pending := true), tag))
  {
    hide IsDiscoverable;
    var next := DroppedLists(st.(stored := InboundDeleted(st.stored, tag).cfg, pending := true), tag);
    forall inb | inb in Inbounds(next.stored) ensures InList(inb, next.managed) && InList(inb, next.statsInbounds) {
      WithoutTagIs(Inbounds(st.stored), tag, inb);
      assert InList(inb, st.managed) && InList(inb, st.statsInbounds);
      DiscoverableIsObject(inb);
    }
  }

  lemma UserEditKeepsListed(st: State, next: State)
    requires AllListed(st) && AllSameButUsers(Inbounds(st.stored), Inbounds(next.stored))
    requires next.managed == st.managed && next.statsInbounds == st.statsInbounds
    ensures AllListed(next)
  {
    hide SameButUsers, IsDiscoverable;
    var before, after := Inbounds(st.stored), Inbounds(next.stored);
    forall inb | inb in after ensures InList(inb, next.managed) && InList(inb, next.statsInbounds) {
      var k :| 0 <= k < |after| && after[k] == inb;
      assert before[k] in before;
      assert InList(before[k], st.managed) && InList(before[k], st.statsInbounds);
      SameDiscoverable(before[k], after[k]);
      DiscoverableIsObject(inb);
    }
  }

  lemma SameDiscoverable(a: Json, b: Json)
    requires SameButUsers(a, b)
    ensures IsDiscoverable(a) <==> IsDiscoverable(b)
    ensures IsDiscoverable(a) ==> TextOr(a.fields, "tag") == TextOr(b.fields, "tag")
  {
    hide SameButUsers, KindOf;
    assert "tag" != "users" && "type" != "users";
    SameObject(a, b);
    if a.Obj? {
      SameField(a, b, "tag");
      SameField(a, b, "type");
    }
  }

  predicate IsUserOp(op: Op) { op.AddUserOp? || op.RemoveUserOp? || op.UpdateUserOp? }

  /** A user operation changes user lists only, and keeps names unique within each inbound. */
  lemma UserEditLaw(setup: Setup, st: State, op: Op)
    requires IsUserOp(op) && EditOf(setup, st, op).Edited?
    ensures AllSameButUsers(Inbounds(st.stored), Inbounds(EditOf(setup, st, op).cfg))
    ensures UniqueWithin(Inbounds(st.stored)) ==> UniqueWithin(Inbounds(EditOf(setup, st, op).cfg))
    ensures (op.UpdateUserOp? && op.everywhere ==> StatsCurrent(st.stored, st.managed)) ==>
      StatsCurrent(EditOf(setup, st, op).cfg, st.managed)
  {
    hide UserAdded, UserRemoved, UserUpdated, StatsCurrent, SameButUsers, Touched, Active, Filtered, SameNames;
    hide UniqueWithin;
    var s := SettingsOf(setup, st);
    match op
    case AddUserOp(name, c, tag) => AddUserLaw(st.stored, name, c, tag, s);
    case RemoveUserOp(name, only) => RemoveUserLaw(st.stored, name, only, s);
    case UpdateUserOp(name, c, tag, everywhere) => UpdateUserLaw(st.stored, name, c, tag, everywhere, s);
    case _ =>
  }

  lemma StepKeepsListed(setup: Setup, st: State, op: Op, w: World)
    requires AllListed(st) && Completes(op, w)
    ensures AllListed(Step(setup, st, op, w).0)
  {
    hide AllListed, InboundAdded, InboundUpdated, InboundDeleted, UserAdded, UserRemoved, UserUpdated;
    hide SyncedLists, RenamedLists, DroppedLists;
    hide DistinctPorts;
    var edit := EditOf(setup, st, op);
    if Accepted(setup, edit, w) {
      var next := st.(stored := edit.cfg, pending := true);
      match op
      case AddInboundOp(inb) => SyncRestores(next, w);
      case UpdateInboundOp(tag, inb) =>
        SyncRestores(next, w);
        SyncRestores(RenamedLists(next, tag, TextOr(inb, "tag")), w);
      case DeleteInboundOp(tag) => DeleteKeepsListed(st, tag);
      case _ =>
        UserEditLaw(setup, st, op);
        UserEditKeepsListed(st, next);
    }
  }

  // ---------- names ----------

  /** The inbound an operation brings in, if any, has no name twice. */
  predicate BringsUnique(op: Op) {
    op.AddInboundOp? || op.UpdateInboundOp? ==> UniqueNames(Users(op.inb))
  }

  lemma EditKeepsUnique(setup: Setup, st: State, op: Op)
    requires UniqueWithin(Inbounds(st.stored)) && BringsUnique(op)
    requires EditOf(setup, st, op).Edited?
    ensures UniqueWithin(Inbounds(EditOf(setup, st, op).cfg))
  {
    hide UniqueNames, UserAdded, UserRemoved, UserUpdated, Users, TagOf, FirstWith, WithoutTag;
    if IsUserOp(op) {
      UserEditLaw(setup, st, op);
    } else if op.DeleteInboundOp? {
      var after := Inbounds(EditOf(setup, st, op).cfg);
      forall k | 0 <= k < |after| && after[k].Obj? ensures UniqueNames(Users(after[k].fields)) {
        WithoutTagIs(Inbounds(st.stored), op.tag, after[k]);
        assert after[k] in Inbounds(st.stored);
      }
    }
  }

  // ---------- tags ----------

  predicate Tagged(inb: Json, tag: string) { tag != "" && TagOf(inb) == Some(tag) }

  /** No two inbounds have the same non-empty tag. */
  ghost predicate DistinctTags(inbounds: seq<Json>) {
    forall i, j, t :: 0 <= i < j < |inbounds| && Tagged(inbounds[i], t) ==> !Tagged(inbounds[j], t)
  }

  lemma {:induction false} WithoutTagKeepsDistinct(inbounds: seq<Json>, tag: string)
    requires DistinctTags(inbounds)
    ensures DistinctTags(WithoutTag(inbounds, tag))
  {
    hide Tagged, TagOf;
    if inbounds != [] {
      var init, last := inbounds[..|inbounds| - 1], inbounds[|inbounds| - 1];
      WithoutTagKeepsDistinct(init, tag);
      var rest := WithoutTag(init, tag);
      forall i, t | 0 <= i < |rest| && Tagged(rest[i], t) ensures !Tagged(last, t) {
        WithoutTagIs(init, tag, rest[i]);
        var k :| 0 <= k < |init| && init[k] == rest[i];
        assert Tagged(inbounds[k], t);
      }
    }
  }

  /** An addition checks the tag; an update does not check the tag it brings, so tags stay
      distinct exactly when no other inbound has it. */
  lemma EditKeepsTagsExactly(setup: Setup, st: State, op: Op)
    requires DistinctTags(Inbounds(st.stored)) && EditOf(setup, st, op).Edited?
    ensures
      var before, after := Inbounds(st.stored), Inbounds(EditOf(setup, st, op).cfg);
      DistinctTags(after) <==>
        !op.UpdateInboundOp? ||
        forall j :: 0 <= j < |before| && j != FirstWith(before, op.tag) ==> !Tagged(before[j], TextOr(op.inb, "tag"))
  {
    hide UserAdded, UserRemoved, UserUpdated, SameButUsers, WithoutTag, UniqueWithin, StatsCurrent;
    var before, after := Inbounds(st.stored), Inbounds(EditOf(setup, st, op).cfg);
    match op
    case AddInboundOp(inb) =>
    case UpdateInboundOp(tag, inb) => ReplacedTags(before, FirstWith(before, tag), inb);
    case DeleteInboundOp(tag) => WithoutTagKeepsDistinct(before, tag);
    case _ =>
      UserEditLaw(setup, st, op);
      forall k | 0 <= k < |before| ensures TagOf(after[k]) == TagOf(before[k]) { SameTag(before[k], after[k]); }
      assert forall k, t :: 0 <= k < |before| ==> (Tagged(after[k], t) <==> Tagged(before[k], t));
  }

  lemma SameTag(a: Json, b: Json)
    requires SameButUsers(a, b)
    ensures TagOf(a) == TagOf(b)
  {
    hide SameButUsers;
    SameObject(a, b);
    SameButUsersFacts(a, b, {});
  }

  lemma ReplacedTags(before: seq<Json>, k: nat, inb: Fields)
    requires DistinctTags(before) && k < |before|
    ensures DistinctTags(before[k := Obj(inb)]) <==>
      forall j :: 0 <= j < |before| && j != k ==> !Tagged(before[j], TextOr(inb, "tag"))
  {
    hide TextOr;
    var after, tag := before[k := Obj(inb)], TextOr(inb, "tag");
    assert forall t :: Tagged(after[k], t) <==> t == tag && t != "";
    assert forall j, t :: 0 <= j < |before| && j != k ==> (Tagged(after[j], t) <==> Tagged(before[j], t));
    assert forall j :: 0 <= j < |before| && j != k && Tagged(before[j], tag) ==>
      Tagged(after[j], tag) && Tagged(after[k], tag);
  }

  // ---------- runs ----------

  datatype Event = Event(op: Op, w: World)

  function Run(setup: Setup, st: State, events: seq<Event>): State {
    if events == [] then st
    else
      var e := events[|events| - 1];
      Step(setup, Run(setup, st, events[..|events| - 1]), e.op, e.w).0
  }

  /** Over every run of inbound and user operations every discoverable inbound stays in both
      lists. */
  lemma {:induction false} RunsKeepListed(setup: Setup, st: State, events: seq<Event>)
    requires AllListed(st)
    requires forall i :: 0 <= i < |events| ==> Completes(events[i].op, events[i].w)
    ensures AllListed(Run(setup, st, events))
  {
    hide AllListed, Step, Completes;
    if events != [] {
      var init, e := events[..|events| - 1], events[|events| - 1];
      RunsKeepListed(setup, st, init);
      StepKeepsListed(setup, Run(setup, st, init), e.op, e.w);
    }
  }

  /** Over every run, all keys of the configuration but the inbounds and the experimental section stay
      as they were, and of that section all but the statistics API. */
  lemma {:induction false} RunsKeepRest(setup: Setup, st: State, events: seq<Event>)
    ensures
      var cfg := Run(setup, st, events).stored;
      && cfg - {"inbounds", "experimental"} == st.stored - {"inbounds", "experimental"}
      && Child(cfg, "experimental") - {"v2ray_api"} == Child(st.stored, "experimental") - {"v2ray_api"}
  {
    hide Step, EditOf, Child, DistinctPorts;
    if events != [] {
      var init, e := events[..|events| - 1], events[|events| - 1];
      RunsKeepRest(setup, st, init);
      var last := Run(setup, st, init);
      StepIsTransactional(setup, last, e.op, e.w);
      if EditOf(setup, last, e.op).Edited? { EditKeepsRest(setup, last, e.op); }
    }
  }

  /** Without an operation that rewrites the statistics list, only the inbounds ever change. */
  lemma {:induction false} InboundRunsKeepRest(setup: Setup, st: State, events: seq<Event>)
    requires forall i :: 0 <= i < |events| ==> !WritesStats(events[i].op)
    ensures Run(setup, st, events).stored - {"inbounds"} == st.stored - {"inbounds"}
  {
    hide Step, EditOf, WritesStats, DistinctPorts;
    if events != [] {
      var init, e := events[..|events| - 1], events[|events| - 1];
      InboundRunsKeepRest(setup, st, init);
      var last := Run(setup, st, init);
      StepIsTransactional(setup, last, e.op, e.w);
      if EditOf(setup, last, e.op).Edited? { EditKeepsRest(setup, last, e.op); }
    }
  }

  /** Whatever a run has stored in place of the first configuration has distinct ports. */
  lemma {:induction false} RunsKeepPortsDistinct(setup: Setup, st: State, events: seq<Event>)
    requires setup.enabled
    ensures Run(setup, st, events).stored == st.stored || DistinctPorts(Inbounds(Run(setup, st, events).stored))
  {
    hide Step, DistinctPorts;
    if events != [] {
      var init, e := events[..|events| - 1], events[|events| - 1];
      RunsKeepPortsDistinct(setup, st, init);
      StepIsTransactional(setup, Run(setup, st, init), e.op, e.w);
    }
  }

  lemma {:induction false} RunsKeepNamesUnique(setup: Setup, st: State, events: seq<Event>)
    requires UniqueWithin(Inbounds(st.stored))
    requires forall i :: 0 <= i < |events| ==> BringsUnique(events[i].op)
    ensures UniqueWithin(Inbounds(Run(setup, st, events).stored))
  {
    hide Step, UniqueWithin, BringsUnique, EditOf;
    if events != [] {
      var init, e := events[..|events| - 1], events[|events| - 1];
      RunsKeepNamesUnique(setup, st, init);
      var last := Run(setup, st, init);
      StepIsTransactional(setup, last, e.op, e.w);
      if EditOf(setup, last, e.op).Edited? { EditKeepsUnique(setup, last, e.op); }
    }
  }

  /** Over every run of user operations the statistics list stays current. */
  lemma {:induction false} UserRunsKeepStatsCurrent(setup: Setup, st: State, events: seq<Event>)
    requires StatsCurrent(st.stored, st.managed)
    requires forall i :: 0 <= i < |events| ==> IsUserOp(events[i].op)
    ensures Run(setup, st, events).managed == st.managed
    ensures StatsCurrent(Run(setup, st, events).stored, st.managed)
  {
    hide StatsCurrent, EditOf, DistinctPorts;
    if events != [] {
      var init, e := events[..|events| - 1], events[|events| - 1];
      UserRunsKeepStatsCurrent(setup, st, init);
      var last := Run(setup, st, init);
      if EditOf(setup, last, e.op).Edited? { UserEditLaw(setup, last, e.op); }
    }
  }

  /** With a string tag on every user inbound, the list then names exactly the active users. */
  lemma {:induction false} UserRunsListActive(setup: Setup, st: State, events: seq<Event>)
    requires StatsCurrent(st.stored, st.managed) && AllTagged(Inbounds(st.stored))
    requires forall i :: 0 <= i < |events| ==> IsUserOp(events[i].op)
    ensures
      var cfg, filter := Run(setup, st, events).stored, TagFilter(st.managed);
      var names := StatsNames(Inbounds(cfg), filter);
      StatsUsers(cfg) == Strings(names) && FirstOccurrences(names, AllNames(Inbounds(cfg), filter)) &&
      forall n :: n in names <==> Active(Inbounds(cfg), filter, n)
  {
    hide StatsCurrent, Run, FirstOccurrences, Active, AllTagged;
    UserRunsKeepStatsCurrent(setup, st, events);
    UserRunsKeepTags(setup, st, events);
    CurrentStatsMeaning(Run(setup, st, events).stored, st.managed);
  }

  lemma {:induction false} UserRunsKeepTags(setup: Setup, st: State, events: seq<Event>)
    requires AllTagged(Inbounds(st.stored))
    requires forall i :: 0 <= i < |events| ==> IsUserOp(events[i].op)
    ensures AllTagged(Inbounds(Run(setup, st, events).stored))
  {
    hide EditOf, DistinctPorts, Untagged;
    if events != [] {
      var init, e := events[..|events| - 1], events[|events| - 1];
      UserRunsKeepTags(setup, st, init);
      var last := Run(setup, st, init);
      if EditOf(setup, last, e.op).Edited? {
        UserEditLaw(setup, last, e.op);
        StillTagged(Inbounds(last.stored), Inbounds(EditOf(setup, last, e.op).cfg));
      }
    }
  }

  lemma StillTagged(a: seq<Json>, b: seq<Json>)
    requires AllSameButUsers(a, b) && AllTagged(a)
    ensures AllTagged(b)
  {
    hide Untagged, SameButUsers;
    forall k | 0 <= k < |b| ensures !Untagged(b[k]) { SameButUsersFacts(a[k], b[k], {}); }
  }

  // ---------- when the lists are not brought up to date ----------

  predicate Twice(list: seq<string>, tag: string) {
    exists i, j :: 0 <= i < j < |list| && list[i] == tag && list[j] == tag
  }

  lemma TwiceBehind(head: string, rest: seq<string>, tag: string)
    ensures Twice([head] + rest, tag) <==> Twice(rest, tag) || (head == tag && tag in rest)
    ensures Twice(rest, tag) ==> tag in rest
  {
    var list := [head] + rest;
    if Twice(rest, tag) {
      var i, j :| 0 <= i < j < |rest| && rest[i] == tag && rest[j] == tag;
      assert list[i + 1] == tag && list[j + 1] == tag;
    }
    if head == tag && tag in rest {
      var j :| 0 <= j < |rest| && rest[j] == tag;
      assert list[0] == tag && list[j + 1] == tag;
    }
    if Twice(list, tag) {
      var i, j :| 0 <= i < j < |list| && list[i] == tag && list[j] == tag;
      assert rest[j - 1] == tag;
      if i > 0 { assert rest[i - 1] == tag; }
    }
  }

  /** What a rename leaves in a list: the old tag if it was there twice, the new one if either
      was, all others. */
  lemma {:induction false} RenamedHas(list: seq<string>, from: string, to: string, t: string)
    requires from != to
    ensures t in Renamed(list, from, to) <==>
      if t == from then Twice(list, from) else if t == to then from in list || to in list else t in list
  {
    hide Twice;
    if list == [] {
      NothingTwice(from);
    } else {
      TwiceBehind(list[0], list[1..], from);
      assert list == [list[0]] + list[1..];
      assert forall x :: x in list <==> x == list[0] || x in list[1..];
      if list[0] == from {
        assert t in [to] + list[1..] <==> t == to || t in list[1..];
      } else {
        RenamedHas(list[1..], from, to, t);
        var rest := Renamed(list[1..], from, to);
        assert t in [list[0]] + rest <==> t == list[0] || t in rest;
      }
    }
  }

  lemma NothingTwice(tag: string)
    ensures !Twice([], tag)
  {
  }

  predicate InBoth(st: State, tag: string) { tag in st.managed && tag in st.statsInbounds }

  /** Another discoverable inbound than the one an operation on the tag replaces has the tag. */
  predicate SharesTag(inbounds: seq<Json>, tag: string) {
    exists j ::
      0 <= j < |inbounds| && j != FirstWith(inbounds, tag) && IsDiscoverable(inbounds[j]) &&
        TagOf(inbounds[j]) == Some(tag)
  }

  /** Both lists have the tag the inbound will be known by, or the one it is renamed from. */
  predicate EitherInBoth(st: State, tag: string, to: string) {
    (tag in st.managed || to in st.managed) && (tag in st.statsInbounds || to in st.statsInbounds)
  }

  /** The synchronisation after an operation on a tag is reached and can read the configuration. */
  predicate Synchronises(st: State, op: Op, w: World)
    requires op.AddInboundOp? || op.UpdateInboundOp?
  {
    w.rereadable && (op.UpdateInboundOp? && Renames(op.tag, op.inb) && Lists(st, op.tag) ==> w.listsSaved)
  }

  /** When an accepted operation leaves everything listed, from the state before it. */
  predicate StaysListed(st: State, op: Op, w: World) {
    match op
    case AddInboundOp(inb) =>
      Synchronises(st, op, w) || (IsDiscoverable(Obj(inb)) ==> InBoth(st, TextOr(inb, "tag")))
    case UpdateInboundOp(tag, inb) =>
      var to := TextOr(inb, "tag");
      Synchronises(st, op, w) ||
      if !Renames(tag, inb) then IsDiscoverable(Obj(inb)) ==> InBoth(st, to)
      else
        (IsDiscoverable(Obj(inb)) ==> EitherInBoth(st, tag, to)) &&
        (SharesTag(Inbounds(st.stored), tag) ==> Twice(st.managed, tag) && Twice(st.statsInbounds, tag))
    case _ => true
  }

  /** An added inbound that could not be read back is listed only if its tag already was. */
  lemma UnreadAddExactly(setup: Setup, st: State, inb: Fields, w: World)
    requires AllListed(st) && !w.rereadable && Accepted(setup, InboundAdded(st.stored, inb), w)
    ensures AllListed(Step(setup, st, AddInboundOp(inb), w).0) <==>
      (IsDiscoverable(Obj(inb)) ==> InBoth(st, TextOr(inb, "tag")))
  {
    hide IsDiscoverable, FirstWith, DistinctPorts;
    var after := Inbounds(st.stored) + [Obj(inb)];
    var next := Step(setup, st, AddInboundOp(inb), w).0;
    assert Inbounds(next.stored) == after && next.managed == st.managed && next.statsInbounds == st.statsInbounds;
    assert forall x :: x in after <==> x in Inbounds(st.stored) || x == Obj(inb);
    assert InList(Obj(inb), st.managed) && InList(Obj(inb), st.statsInbounds) <==>
      (IsDiscoverable(Obj(inb)) ==> InBoth(st, TextOr(inb, "tag")));
  }

  /** The inbounds after a replacement, as a set. */
  lemma ReplacedMembers(inbounds: seq<Json>, k: nat, x: Json, y: Json)
    requires k < |inbounds|
    ensures y in inbounds[k := x] <==> y == x || exists j :: 0 <= j < |inbounds| && j != k && inbounds[j] == y
  {
    var after := inbounds[k := x];
    assert after[k] == x && forall j :: 0 <= j < |inbounds| && j != k ==> after[j] == inbounds[j];
  }

  /** A committed update that keeps the tag and is not read back. */
  lemma UnreadUpdateExactly(st: State, tag: string, inb: Fields)
    requires AllListed(st) && InboundUpdated(st.stored, tag, inb).Edited?
    ensures AllListed(st.(stored := InboundUpdated(st.stored, tag, inb).cfg, pending := true)) <==>
      (IsDiscoverable(Obj(inb)) ==> InBoth(st, TextOr(inb, "tag")))
  {
    hide IsDiscoverable, FirstWith;
    var inbounds, k := Inbounds(st.stored), FirstWith(Inbounds(st.stored), tag);
    var after := inbounds[k := Obj(inb)];
    assert Inbounds(InboundUpdated(st.stored, tag, inb).cfg) == after;
    forall y ensures y in after <==> y == Obj(inb) || exists j :: 0 <= j < |inbounds| && j != k && inbounds[j] == y {
      ReplacedMembers(inbounds, k, Obj(inb), y);
    }
    assert forall j :: 0 <= j < |inbounds| ==> inbounds[j] in inbounds;
    assert InList(Obj(inb), st.managed) && InList(Obj(inb), st.statsInbounds) <==>
      (IsDiscoverable(Obj(inb)) ==> InBoth(st, TextOr(inb, "tag")));
  }

  /** An inbound that was listed, after a rename in the lists. */
  lemma ListedAfterRename(st: State, from: string, to: string, inb: Json)
    requires from != to && InList(inb, st.managed) && InList(inb, st.statsInbounds)
    ensures var next := RenamedLists(st, from, to);
      InList(inb, next.managed) && InList(inb, next.statsInbounds) <==>
        (IsDiscoverable(inb) && TagOf(inb) == Some(from) ==> Twice(st.managed, from) && Twice(st.statsInbounds, from))
  {
    hide IsDiscoverable, Renamed, Twice;
    DiscoverableIsObject(inb);
    if IsDiscoverable(inb) {
      RenamedHas(st.managed, from, to, TextOr(inb.fields, "tag"));
      RenamedHas(st.statsInbounds, from, to, TextOr(inb.fields, "tag"));
    }
  }

  /** A committed rename whose lists were not saved or that is not read back. */
  lemma UnsyncedRenameExactly(st: State, tag: string, inb: Fields)
    requires AllListed(st) && InboundUpdated(st.stored, tag, inb).Edited? && Renames(tag, inb)
    ensures
      var to := TextOr(inb, "tag");
      AllListed(RenamedLists(st.(stored := InboundUpdated(st.stored, tag, inb).cfg, pending := true), tag, to)) <==>
        (IsDiscoverable(Obj(inb)) ==> EitherInBoth(st, tag, to)) &&
        (SharesTag(Inbounds(st.stored), tag) ==> Twice(st.managed, tag) && Twice(st.statsInbounds, tag))
  {
    hide IsDiscoverable, FirstWith, Renamed, Twice, TextOr;
    var inbounds, k, to := Inbounds(st.stored), FirstWith(Inbounds(st.stored), tag), TextOr(inb, "tag");
    var next := RenamedLists(st.(stored := InboundUpdated(st.stored, tag, inb).cfg, pending := true), tag, to);
    var after := inbounds[k := Obj(inb)];
    assert Inbounds(next.stored) == after;
    RenamedHas(st.managed, tag, to, to);
    RenamedHas(st.statsInbounds, tag, to, to);
    forall j | 0 <= j < |inbounds|
      ensures InList(inbounds[j], next.managed) && InList(inbounds[j], next.statsInbounds) <==>
        (IsDiscoverable(inbounds[j]) && TagOf(inbounds[j]) == Some(tag) ==>
          Twice(st.managed, tag) && Twice(st.statsInbounds, tag))
    {
      assert inbounds[j] in inbounds;
      ListedAfterRename(st, tag, to, inbounds[j]);
    }
    forall y ensures y in after <==> y == Obj(inb) || exists j :: 0 <= j < |inbounds| && j != k && inbounds[j] == y {
      ReplacedMembers(inbounds, k, Obj(inb), y);
    }
    hide InList, RenamedLists, TagOf;
    assert AllListed(next) <==>
      (InList(Obj(inb), next.managed) && InList(Obj(inb), next.statsInbounds)) &&
      forall j :: 0 <= j < |inbounds| && j != k ==>
        InList(inbounds[j], next.managed) && InList(inbounds[j], next.statsInbounds);
  }

  /** For every operation in every world: from a state with everything listed, the step leaves
      everything listed exactly when it is rejected or its condition on that state holds. */
  lemma StepKeepsListedExactly(setup: Setup, st: State, op: Op, w: World)
    requires AllListed(st)
    ensures AllListed(Step(setup, st, op, w).0) <==>
      (Accepted(setup, EditOf(setup, st, op), w) ==> StaysListed(st, op, w))
  {
    hide AllListed, InboundAdded, InboundUpdated, InboundDeleted, UserAdded, UserRemoved, UserUpdated;
    hide RenamedLists, DroppedLists;
    hide DistinctPorts, Discovered, IsDiscoverable, TextOr, SharesTag, Twice, EitherInBoth, InBoth;
    if Accepted(setup, EditOf(setup, st, op), w) {
      var next := st.(stored := EditOf(setup, st, op).cfg, pending := true);
      match op
      case AddInboundOp(inb) =>
        if w.rereadable { SyncRestores(next, w); } else { UnreadAddExactly(setup, st, inb, w); }
      case UpdateInboundOp(tag, inb) => UpdateKeepsListedExactly(setup, st, tag, inb, w);
      case DeleteInboundOp(tag) => DeleteKeepsListed(st, tag);
      case _ =>
        UserEditLaw(setup, st, op);
        UserEditKeepsListed(st, next);
    }
  }

  lemma UpdateKeepsListedExactly(setup: Setup, st: State, tag: string, inb: Fields, w: World)
    requires AllListed(st) && Accepted(setup, InboundUpdated(st.stored, tag, inb), w)
    ensures AllListed(Step(setup, st, UpdateInboundOp(tag, inb), w).0) <==>
      StaysListed(st, UpdateInboundOp(tag, inb), w)
  {
    hide AllListed, InboundUpdated, DistinctPorts, Discovered, IsDiscoverable, TextOr, SharesTag, Twice;
    hide EitherInBoth, InBoth;
    var next := st.(stored := InboundUpdated(st.stored, tag, inb).cfg, pending := true);
    var to := TextOr(inb, "tag");
    if Renames(tag, inb) {
      UnsyncedRenameExactly(st, tag, inb);
      if w.rereadable { SyncRestores(RenamedLists(next, tag, to), w); }
    } else {
      UnreadUpdateExactly(st, tag, inb);
      if w.rereadable { SyncRestores(next, w); }
    }
  }

  function StateAt(setup: Setup, st: State, events: seq<Event>, n: nat): State
    requires n <= |events|
  {
    Run(setup, st, events[..n])
  }

  predicate GoesWell(setup: Setup, st: State, e: Event) {
    Accepted(setup, EditOf(setup, st, e.op), e.w) ==> StaysListed(st, e.op, e.w)
  }

  lemma NextState(setup: Setup, st: State, events: seq<Event>, n: nat)
    requires n < |events| && AllListed(StateAt(setup, st, events, n))
    ensures AllListed(StateAt(setup, st, events, n + 1)) <==> GoesWell(setup, StateAt(setup, st, events, n), events[n])
  {
    hide Step, AllListed, Accepted, StaysListed, EditOf;
    assert events[..n + 1][..n] == events[..n];
    StepKeepsListedExactly(setup, StateAt(setup, st, events, n), events[n].op, events[n].w);
  }

  /** A run keeps everything listed throughout exactly when each step, from the state it meets,
      is rejected or satisfies its condition. */
  lemma {:induction false} RunsKeepListedExactly(setup: Setup, st: State, events: seq<Event>)
    requires AllListed(st)
    ensures (forall n :: 0 <= n <= |events| ==> AllListed(StateAt(setup, st, events, n)))
       <==> (forall n :: 0 <= n < |events| ==> GoesWell(setup, StateAt(setup, st, events, n), events[n]))
  {
    hide AllListed, StateAt, GoesWell;
    if forall n :: 0 <= n < |events| ==> GoesWell(setup, StateAt(setup, st, events, n), events[n]) {
      ListedUpTo(setup, st, events, |events|);
    }
    if forall n :: 0 <= n <= |events| ==> AllListed(StateAt(setup, st, events, n)) {
      forall n | 0 <= n < |events| ensures GoesWell(setup, StateAt(setup, st, events, n), events[n]) {
        NextState(setup, st, events, n);
      }
    }
  }

  lemma {:induction false} ListedUpTo(setup: Setup, st: State, events: seq<Event>, n: nat)
    requires AllListed(st) && n <= |events|
    requires forall k :: 0 <= k < |events| ==> GoesWell(setup, StateAt(setup, st, events, k), events[k])
    ensures forall k :: 0 <= k <= n ==> AllListed(StateAt(setup, st, events, k))
  {
    hide AllListed, GoesWell, Step;
    if n == 0 {
      assert events[..0] == [];
    } else {
      ListedUpTo(setup, st, events, n - 1);
      NextState(setup, st, events, n - 1);
    }
  }

  // ---------- inputs that lose a listing ----------

  function Inbound(tag: string, t: string): Fields { map["tag" := Str(tag), "type" := Str(t)] }

  lemma InboundReads(tag: string, t: string)
    ensures TextOr(Inbound(tag, t), "tag") == tag && TextOr(Inbound(tag, t), "type") == t
    ensures TagOf(Obj(Inbound(tag, t))) == Some(tag) && Port(Obj(Inbound(tag, t))).None?
  {
    assert "tag" != "type" && "listen_port" != "tag" && "listen_port" != "type";
  }

  /** A configuration with these inbounds alone. */
  function Only(inbounds: seq<Json>): Fields { map["inbounds" := Arr(inbounds)] }

  /** An inbound can be stored and unlisted: the addition is written, reading it back fails. */
  lemma UnreadAddExample(setup: Setup, st: State, tag: string, w: World)
    requires tag != "" && st.stored == map[] && st.managed == [] && st.statsInbounds == []
    requires w == World(true, true, true, true, false)
    ensures AllListed(st)
    ensures !AllListed(Step(setup, st, AddInboundOp(Inbound(tag, "vless")), w).0)
  {
    var inb := Inbound(tag, "vless");
    InboundReads(tag, "vless");
    hide Inbound, TextOr;
    assert InboundAdded(st.stored, inb) == Edited(WithInbounds(st.stored, [] + [Obj(inb)]));
    StepKeepsListedExactly(setup, st, AddInboundOp(inb), w);
  }

  lemma OneInbound(setup: Setup, tag: string, inb: Fields, w: World)
    requires w.readable && w.checkPasses && w.writable && Port(Obj(inb)).None?
    ensures Accepted(setup, InboundUpdated(Only([Obj(Inbound(tag, "socks"))]), tag, inb), w)
    ensures forall x :: x in Inbounds(Only([Obj(Inbound(tag, "socks"))])) ==> !IsDiscoverable(x)
  {
    InboundReads(tag, "socks");
    hide Inbound, TextOr, Port;
    var cfg := Only([Obj(Inbound(tag, "socks"))]);
    assert FirstWith(Inbounds(cfg), tag) == 0;
    assert Inbounds(cfg)[0 := Obj(inb)] == [Obj(inb)];
    assert InboundUpdated(cfg, tag, inb) == Edited(WithInbounds(cfg, [Obj(inb)]));
  }

  /** An update in place makes an inbound discoverable, and reading it back fails. */
  lemma UnreadUpdateExample(setup: Setup, st: State, tag: string, w: World)
    requires tag != "" && st.stored == Only([Obj(Inbound(tag, "socks"))]) && st.managed == [] && st.statsInbounds == []
    requires w == World(true, true, true, true, false)
    ensures AllListed(st)
    ensures !AllListed(Step(setup, st, UpdateInboundOp(tag, Inbound(tag, "vless")), w).0)
  {
    InboundReads(tag, "vless");
    OneInbound(setup, tag, Inbound(tag, "vless"), w);
    hide Inbound, TextOr, Only, Accepted, InboundUpdated, FirstWith;
    StepKeepsListedExactly(setup, st, UpdateInboundOp(tag, Inbound(tag, "vless")), w);
  }

  /** A rename to a discoverable inbound whose old tag was in one list only, and the lists cannot
      be saved. */
  lemma UnsavedRenameExample(setup: Setup, st: State, tag: string, to: string, w: World)
    requires tag != "" && to != "" && tag != to
    requires st.stored == Only([Obj(Inbound(tag, "socks"))]) && st.managed == [] && st.statsInbounds == [tag]
    requires w == World(true, true, true, false, true)
    ensures AllListed(st)
    ensures !AllListed(Step(setup, st, UpdateInboundOp(tag, Inbound(to, "vless")), w).0)
  {
    InboundReads(to, "vless");
    OneInbound(setup, tag, Inbound(to, "vless"), w);
    hide Inbound, TextOr, Only, Accepted, InboundUpdated, FirstWith, SharesTag;
    StepKeepsListedExactly(setup, st, UpdateInboundOp(tag, Inbound(to, "vless")), w);
  }

  /** An update may bring a tag that another inbound has. */
  lemma UpdateCollidesExample(setup: Setup, st: State, tag: string, to: string)
    requires tag != "" && to != "" && tag != to
    requires st.stored == Only([Obj(Inbound(tag, "socks")), Obj(Inbound(to, "socks"))])
    ensures var edit := EditOf(setup, st, UpdateInboundOp(tag, Inbound(to, "vless")));
      DistinctTags(Inbounds(st.stored)) && edit.Edited? && !DistinctTags(Inbounds(edit.cfg))
  {
    InboundReads(tag, "socks");
    InboundReads(to, "socks");
    InboundReads(to, "vless");
    hide Inbound, TextOr;
    var inbounds := Inbounds(st.stored);
    assert FirstWith(inbounds, tag) == 0;
    assert Tagged(inbounds[1], to);
    EditKeepsTagsExactly(setup, st, UpdateInboundOp(tag, Inbound(to, "vless")));
  }
}
