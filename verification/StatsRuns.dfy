/** The list of users that statistics are kept for, under every operation and over every run:
    inbound operations change what it should hold and never rewrite it. */
module StatsRuns {
  import opened Ascii
  import opened Common
  import opened Json
  import opened SingboxUsers
  import opened SingboxUserLaws
  import opened SingboxEditLaws
  import opened SingboxInbounds
  import opened Panel
  import opened PanelRuns

  // ---------- the tag filter after an operation ----------

  /** The tags a synchronisation finds. */
  function Found(inbounds: seq<Json>): set<string> {
    set inb | inb in inbounds && IsDiscoverable(inb) :: TextOr(inb.fields, "tag")
  }

  lemma FoundFilter(list: seq<string>, inbounds: seq<Json>)
    ensures TagFilter(Discovered(list, inbounds)) == TagFilter(list) + Found(inbounds)
  {
    hide TextOr, KindOf;
    var r := Discovered(list, inbounds);
    forall inb | inb in inbounds && IsDiscoverable(inb)
      ensures TextOr(inb.fields, "tag") in r && TextOr(inb.fields, "tag") != ""
    {
    }
    hide IsDiscoverable, Discovered;
    assert forall t :: t in TagFilter(r) <==> t in TagFilter(list) + Found(inbounds);
  }

  lemma DroppedFilter(list: seq<string>, tag: string)
    ensures TagFilter(Dropped(list, tag)) == TagFilter(list) - {tag}
  {
    hide Dropped;
  }

  function FilterRenamed(list: seq<string>, from: string, to: string): set<string> {
    if from !in list then TagFilter(list)
    else TagFilter(list) - (if Twice(list, from) then {} else {from}) + {to}
  }

  lemma RenamedFilter(list: seq<string>, from: string, to: string)
    requires from != to && to != ""
    ensures TagFilter(Renamed(list, from, to)) == FilterRenamed(list, from, to)
  {
    forall t { RenamedHas(list, from, to, t); }
    TwiceIsIn(list, from);
    hide Renamed, Twice;
  }

  lemma TwiceIsIn(list: seq<string>, tag: string)
    ensures Twice(list, tag) ==> tag in list
  {
  }

  /** The tag filter an accepted inbound operation leaves, from the state before it. */
  function FilterAfter(st: State, op: Op, w: World): set<string> {
    match op
    case AddInboundOp(_) =>
      TagFilter(st.managed) + if Synchronises(st, op, w) then Found(InboundsAfter(st, op)) else {}
    case UpdateInboundOp(tag, inb) =>
      (if Renames(tag, inb) then FilterRenamed(st.managed, tag, TextOr(inb, "tag")) else TagFilter(st.managed)) +
      if Synchronises(st, op, w) then Found(InboundsAfter(st, op)) else {}
    case DeleteInboundOp(tag) => TagFilter(st.managed) - {tag}
    case _ => TagFilter(st.managed)
  }

  /** The inbounds it leaves. */
  function InboundsAfter(st: State, op: Op): seq<Json> {
    var before := Inbounds(st.stored);
    match op
    case AddInboundOp(inb) => before + [Obj(inb)]
    case UpdateInboundOp(tag, inb) =>
      var k := FirstWith(before, tag);
      if k < |before| then before[k := Obj(inb)] else before
    case DeleteInboundOp(tag) => WithoutTag(before, tag)
    case _ => before
  }

  lemma AcceptedEdit(setup: Setup, st: State, op: Op, w: World)
    requires !IsUserOp(op) && Accepted(setup, EditOf(setup, st, op), w)
    ensures Inbounds(EditOf(setup, st, op).cfg) == InboundsAfter(st, op)
    ensures StatsUsers(EditOf(setup, st, op).cfg) == StatsUsers(st.stored)
  {
    NothingWithout();
    hide StatsUsers, WithoutTag, FirstWith, DistinctPorts;
    StatsUsersElsewhere(st.stored, InboundsAfter(st, op));
  }

  lemma NothingWithout()
    ensures forall tag :: WithoutTag([], tag) == []
  {
  }

  lemma FollowUpKeepsStored(st: State, op: Op, w: World)
    ensures FollowUp(st, op, w).0.stored == st.stored
  {
  }

  lemma FilterAfterStep(setup: Setup, st: State, op: Op, w: World)
    requires !IsUserOp(op) && Accepted(setup, EditOf(setup, st, op), w)
    ensures TagFilter(Step(setup, st, op, w).0.managed) == FilterAfter(st, op, w)
  {
    hide Accepted, TagFilter, Discovered, Dropped, Renamed, FilterRenamed, Found, Inbounds, EditOf, InboundsAfter;
    AcceptedEdit(setup, st, op, w);
    var after := InboundsAfter(st, op);
    match op
    case AddInboundOp(inb) => FoundFilter(st.managed, after);
    case UpdateInboundOp(tag, inb) =>
      FoundFilter(st.managed, after);
      if Renames(tag, inb) {
        var to := TextOr(inb, "tag");
        RenamedFilter(st.managed, tag, to);
        FoundFilter(Renamed(st.managed, tag, to), after);
      }
    case DeleteInboundOp(tag) => DroppedFilter(st.managed, tag);
    case _ =>
  }

  // ---------- one operation ----------

  lemma StringsSame(a: seq<string>, b: seq<string>)
    ensures Strings(a) == Strings(b) <==> a == b
  {
    if Strings(a) == Strings(b) {
      var x, y := Strings(a).items, Strings(b).items;
      assert |a| == |x| == |y| == |b|;
      forall i | 0 <= i < |a| ensures a[i] == b[i] { assert x[i] == y[i] && x[i] == Str(a[i]) && y[i] == Str(b[i]); }
    }
  }

  /** The names the list should hold after an accepted operation are those it should hold before
      it, in the same order. */
  predicate StaysCurrent(st: State, op: Op, w: World) {
    IsUserOp(op) ||
    StatsNames(InboundsAfter(st, op), FilterAfter(st, op, w)) ==
      StatsNames(Inbounds(st.stored), TagFilter(st.managed))
  }

  /** An accepted inbound operation leaves a current list current exactly when the names it should
      hold stay the same, both told from the state before. */
  lemma InboundEditStatsExactly(setup: Setup, st: State, op: Op, w: World)
    requires !IsUserOp(op) && StatsCurrent(st.stored, st.managed) && Accepted(setup, EditOf(setup, st, op), w)
    ensures var next := Step(setup, st, op, w).0;
      StatsCurrent(next.stored, next.managed) <==>
        StatsNames(InboundsAfter(st, op), FilterAfter(st, op, w)) ==
          StatsNames(Inbounds(st.stored), TagFilter(st.managed))
  {
    hide StatsNames, StatsUsers, Strings, TagFilter, Accepted, EditOf, FollowUp, FilterAfter, InboundsAfter;
    AcceptedIsEdited(setup, EditOf(setup, st, op), w);
    AcceptedEdit(setup, st, op, w);
    FilterAfterStep(setup, st, op, w);
    FollowUpKeepsStored(st.(stored := EditOf(setup, st, op).cfg, pending := true), op, w);
    StringsSame(StatsNames(InboundsAfter(st, op), FilterAfter(st, op, w)),
      StatsNames(Inbounds(st.stored), TagFilter(st.managed)));
  }

  /** For every operation in every world: a current list stays so exactly when the step is
      rejected or its condition on the state before holds. */
  lemma StepKeepsStatsExactly(setup: Setup, st: State, op: Op, w: World)
    requires StatsCurrent(st.stored, st.managed)
    ensures var next := Step(setup, st, op, w).0;
      StatsCurrent(next.stored, next.managed) <==> CurrentGoesWell(setup, st, Event(op, w))
  {
    hide StatsCurrent, Accepted, EditOf, StatsNames, InboundsAfter, FilterAfter;
    if Accepted(setup, EditOf(setup, st, op), w) {
      AcceptedIsEdited(setup, EditOf(setup, st, op), w);
      if IsUserOp(op) { UserEditLaw(setup, st, op); } else { InboundEditStatsExactly(setup, st, op, w); }
    }
  }

  lemma AcceptedIsEdited(setup: Setup, edit: Edit, w: World)
    ensures Accepted(setup, edit, w) ==> edit.Edited?
  {
  }

  /** Adding or removing a user, or updating one in one inbound, makes a stale list current. */
  lemma UserStepRestoresStats(setup: Setup, st: State, op: Op, w: World)
    requires IsUserOp(op) && !(op.UpdateUserOp? && op.everywhere) && Accepted(setup, EditOf(setup, st, op), w)
    ensures var next := Step(setup, st, op, w).0;
      StatsCurrent(next.stored, next.managed)
  {
    hide StatsCurrent, Accepted, EditOf;
    AcceptedIsEdited(setup, EditOf(setup, st, op), w);
    UserEditLaw(setup, st, op);
  }

  // ---------- runs ----------

  predicate CurrentGoesWell(setup: Setup, st: State, e: Event) {
    Accepted(setup, EditOf(setup, st, e.op), e.w) ==> StaysCurrent(st, e.op, e.w)
  }

  predicate CurrentAt(setup: Setup, st: State, events: seq<Event>, n: nat)
    requires n <= |events|
  {
    StatsCurrent(StateAt(setup, st, events, n).stored, StateAt(setup, st, events, n).managed)
  }

  lemma NextCurrent(setup: Setup, st: State, events: seq<Event>, n: nat)
    requires n < |events| && CurrentAt(setup, st, events, n)
    ensures CurrentAt(setup, st, events, n + 1) <==>
      CurrentGoesWell(setup, StateAt(setup, st, events, n), events[n])
  {
    hide Step, StatsCurrent, CurrentGoesWell;
    assert events[..n + 1][..n] == events[..n];
    StepKeepsStatsExactly(setup, StateAt(setup, st, events, n), events[n].op, events[n].w);
  }

  /** Over every run of user and inbound operations, the list is current throughout exactly when
      each step, from the state it meets, is rejected or satisfies its condition. */
  lemma {:induction false} RunsKeepStatsExactly(setup: Setup, st: State, events: seq<Event>)
    requires StatsCurrent(st.stored, st.managed)
    ensures (forall n :: 0 <= n <= |events| ==> CurrentAt(setup, st, events, n))
       <==> (forall n :: 0 <= n < |events| ==> CurrentGoesWell(setup, StateAt(setup, st, events, n), events[n]))
  {
    hide CurrentAt, StateAt, CurrentGoesWell, StatsCurrent;
    if forall n :: 0 <= n < |events| ==> CurrentGoesWell(setup, StateAt(setup, st, events, n), events[n]) {
      CurrentUpTo(setup, st, events, |events|);
    }
    if forall n :: 0 <= n <= |events| ==> CurrentAt(setup, st, events, n) {
      forall n | 0 <= n < |events| ensures CurrentGoesWell(setup, StateAt(setup, st, events, n), events[n]) {
        NextCurrent(setup, st, events, n);
      }
    }
  }

  lemma {:induction false} CurrentUpTo(setup: Setup, st: State, events: seq<Event>, n: nat)
    requires StatsCurrent(st.stored, st.managed) && n <= |events|
    requires forall k :: 0 <= k < |events| ==> CurrentGoesWell(setup, StateAt(setup, st, events, k), events[k])
    ensures forall k :: 0 <= k <= n ==> CurrentAt(setup, st, events, k)
  {
    hide CurrentGoesWell, Step, StatsCurrent;
    if n == 0 {
      assert events[..0] == [];
    } else {
      CurrentUpTo(setup, st, events, n - 1);
      NextCurrent(setup, st, events, n - 1);
    }
  }

  // ---------- additions ----------

  lemma StatsNamesSnoc(inbounds: seq<Json>, inb: Json, f: set<string>)
    ensures StatsNames(inbounds + [inb], f)
         == if InStats(inb, f) then AddNames(StatsNames(inbounds, f), Users(inb.fields)) else StatsNames(inbounds, f)
  {
    hide InStats, AddNames;
    assert (inbounds + [inb])[..|inbounds|] == inbounds;
  }

  /** Names can only be added to a list that lacks one of them. */
  lemma {:induction false} AddNamesKeeps(names: seq<string>, users: seq<Json>)
    ensures names <= AddNames(names, users)
    ensures AddNames(names, users) == names <==> forall n :: n in Names(users) ==> n in names
  {
    if users != [] {
      var init, u := users[..|users| - 1], users[|users| - 1];
      AddNamesKeeps(names, init);
      var before := AddNames(names, init);
      assert before != names ==> |before| > |names|;
    }
  }

  /** The exact condition for an accepted addition: the inbounds that were there give the same
      names under the filter it leaves, and the new one, if selected, brings no other. */
  lemma AddKeepsStatsExactly(setup: Setup, st: State, inb: Fields, w: World)
    requires StatsCurrent(st.stored, st.managed) && Accepted(setup, InboundAdded(st.stored, inb), w)
    ensures
      var next, g := Step(setup, st, AddInboundOp(inb), w).0, FilterAfter(st, AddInboundOp(inb), w);
      var names := StatsNames(Inbounds(st.stored), TagFilter(st.managed));
      StatsCurrent(next.stored, next.managed) <==>
        names == if InStats(Obj(inb), g) then AddNames(StatsNames(Inbounds(st.stored), g), Users(inb))
                 else StatsNames(Inbounds(st.stored), g)
  {
    hide StatsCurrent, StatsNames, Accepted, InStats, TagFilter, FilterAfter, InboundAdded, Users, Step;
    InboundEditStatsExactly(setup, st, AddInboundOp(inb), w);
    StatsNamesSnoc(Inbounds(st.stored), Obj(inb), FilterAfter(st, AddInboundOp(inb), w));
  }

  /** For the first inbound of a panel: it is not selected or has no named user. */
  lemma FirstInboundStatsExactly(setup: Setup, st: State, inb: Fields, w: World)
    requires StatsCurrent(st.stored, st.managed) && Accepted(setup, InboundAdded(st.stored, inb), w)
    requires Inbounds(st.stored) == []
    ensures var next := Step(setup, st, AddInboundOp(inb), w).0;
      StatsCurrent(next.stored, next.managed) <==>
        (InStats(Obj(inb), FilterAfter(st, AddInboundOp(inb), w)) ==> Names(Users(inb)) == [])
  {
    hide StatsCurrent, Accepted, InStats, TagFilter, FilterAfter, InboundAdded, Users, Step, Inbounds;
    AddKeepsStatsExactly(setup, st, inb, w);
    AddNamesKeeps([], Users(inb));
    NoneIn(Names(Users(inb)));
    hide Names, AddNames;
  }

  lemma NoneIn(names: seq<string>)
    ensures names == [] <==> forall n :: n in names ==> n in []
  {
    if names != [] { assert names[0] in names; }
  }

  /** Statistics names under two filters that select the same inbounds. */
  lemma {:induction false} SameSelection(inbounds: seq<Json>, f: set<string>, g: set<string>)
    requires forall k :: 0 <= k < |inbounds| ==> (InStats(inbounds[k], f) <==> InStats(inbounds[k], g))
    ensures StatsNames(inbounds, f) == StatsNames(inbounds, g)
  {
    hide InStats;
    if inbounds != [] {
      var last := |inbounds| - 1;
      assert forall k :: 0 <= k < last ==> inbounds[..last][k] == inbounds[k];
      SameSelection(inbounds[..last], f, g);
    }
  }

  /** A tag no inbound has, added to a filter that is not empty, selects nothing new. */
  lemma NewTagSelectsNothing(inb: Json, f: set<string>, tag: string)
    requires f != {} && TagOf(inb) != Some(tag) && tag != ""
    ensures InStats(inb, f) <==> InStats(inb, f + {tag})
  {
    hide IsUserInbound;
  }

  /** What is found beyond the managed tags after an addition, with everything listed. */
  lemma FoundAfterAdd(managed: seq<string>, inbounds: seq<Json>, inb: Fields)
    requires forall x :: x in inbounds ==> InList(x, managed)
    ensures TagFilter(managed) + Found(inbounds + [Obj(inb)])
         == TagFilter(managed) + if IsDiscoverable(Obj(inb)) then {TextOr(inb, "tag")} else {}
  {
    DiscoverableTags();
    hide IsDiscoverable, TextOr;
    assert forall x :: x in inbounds + [Obj(inb)] <==> x in inbounds || x == Obj(inb);
    assert forall t :: t in Found(inbounds) ==> t in TagFilter(managed);
    assert Found(inbounds + [Obj(inb)]) ==
      Found(inbounds) + if IsDiscoverable(Obj(inb)) then {TextOr(inb, "tag")} else {};
  }

  lemma DiscoverableTags()
    ensures forall x :: IsDiscoverable(x) ==> x.Obj? && TextOr(x.fields, "tag") != ""
  {
  }

  lemma FreshTag(cfg: Fields, inb: Fields, k: nat)
    requires InboundAdded(cfg, inb).Edited? && TextOr(inb, "tag") != "" && k < |Inbounds(cfg)|
    ensures TagOf(Inbounds(cfg)[k]) != Some(TextOr(inb, "tag"))
  {
    hide TagOf, TextOr;
  }

  /** With everything listed and some tag managed: the new inbound is not selected or brings no
      new name. */
  lemma AddToManagedExactly(setup: Setup, st: State, inb: Fields, w: World)
    requires StatsCurrent(st.stored, st.managed) && AllListed(st) && TagFilter(st.managed) != {}
    requires Accepted(setup, InboundAdded(st.stored, inb), w)
    ensures var next := Step(setup, st, AddInboundOp(inb), w).0;
      StatsCurrent(next.stored, next.managed) <==>
        (InStats(Obj(inb), FilterAfter(st, AddInboundOp(inb), w)) ==>
          forall n :: n in Names(Users(inb)) ==> n in StatsNames(Inbounds(st.stored), TagFilter(st.managed)))
  {
    hide StatsCurrent, StatsNames, InStats, TagFilter, Found, IsDiscoverable, Users, Step, Accepted, InboundAdded;
    hide Names, AddNames, TextOr, Inbounds;
    var before, f := Inbounds(st.stored), TagFilter(st.managed);
    var g := FilterAfter(st, AddInboundOp(inb), w);
    AddKeepsStatsExactly(setup, st, inb, w);
    FoundAfterAdd(st.managed, before, inb);
    DiscoverableTags();
    AcceptedIsEdited(setup, InboundAdded(st.stored, inb), w);
    forall k | 0 <= k < |before| ensures InStats(before[k], f) <==> InStats(before[k], g) {
      if g != f {
        FreshTag(st.stored, inb, k);
        NewTagSelectsNothing(before[k], f, TextOr(inb, "tag"));
      }
    }
    SameSelection(before, f, g);
    AddNamesKeeps(StatsNames(before, g), Users(inb));
  }

  // ---------- inputs that make the list stale ----------

  /** An inbound with one user. */
  function UserInbound(tag: string, t: string, name: string): Fields {
    map["tag" := Str(tag), "type" := Str(t), "users" := Arr([Obj(map["name" := Str(name)])])]
  }

  lemma UserInboundReads(tag: string, t: string, name: string)
    ensures var inb := UserInbound(tag, t, name);
      && TextOr(inb, "tag") == tag && TextOr(inb, "type") == t && Text(inb, "tag") == Some(tag)
      && Users(inb) == [Obj(map["name" := Str(name)])] && Port(Obj(inb)).None?
  {
    assert "tag" != "type" && "tag" != "users" && "type" != "users";
    assert "listen_port" != "tag" && "listen_port" != "type" && "listen_port" != "users";
  }

  lemma OneName(u: Fields, name: string)
    requires u == map["name" := Str(name)] && name != ""
    ensures Names([Obj(u)]) == [name]
  {
    assert [Obj(u)][..0] == [];
  }

  lemma Selected(tag: string, t: string, name: string, f: set<string>)
    requires t == "vless" || t == "VLESS"
    ensures InStats(Obj(UserInbound(tag, t, name)), f) <==> f == {} || tag in f
  {
    UserInboundReads(tag, t, name);
    hide UserInbound, TextOr;
    assert Trim("vless") == "vless" && Lower("vless") == "vless";
    assert Trim("VLESS") == "VLESS" && Lower("VLESS") == "vless";
  }

  /** A panel without inbounds: any addition is accepted. */
  lemma EmptyPanel(setup: Setup, st: State, inb: Fields, w: World)
    requires st.stored == WithStats(Only([]), SettingsOf(setup, st), [])
    requires w.readable && w.checkPasses && w.writable
    ensures Inbounds(st.stored) == [] && StatsCurrent(st.stored, st.managed) && AllListed(st)
    ensures Accepted(setup, InboundAdded(st.stored, inb), w)
  {
    WithStatsFacts(Only([]), SettingsOf(setup, st), []);
    hide WithStats, StatsUsers, Port;
    var cfg := WithInbounds(st.stored, [] + [Obj(inb)]);
    assert InboundAdded(st.stored, inb) == Edited(cfg) && Inbounds(cfg) == [Obj(inb)];
  }

  lemma NamedUser(tag: string, t: string, name: string)
    requires name != ""
    ensures Names(Users(UserInbound(tag, t, name))) == [name]
  {
    UserInboundReads(tag, t, name);
    OneName(map["name" := Str(name)], name);
  }

  /** The first inbound of a panel without any setting, with a user: the list does not get its
      name. */
  lemma FirstInboundExample(setup: Setup, st: State, tag: string, name: string, w: World)
    requires tag != "" && name != "" && w == World(true, true, true, true, true)
    requires st.managed == [] && st.statsInbounds == []
    requires st.stored == WithStats(Only([]), SettingsOf(setup, st), [])
    ensures StatsCurrent(st.stored, st.managed) && AllListed(st)
    ensures var next := Step(setup, st, AddInboundOp(UserInbound(tag, "vless", name)), w).0;
      !StatsCurrent(next.stored, next.managed)
  {
    hide UserInbound, WithStats, InStats, Names, Users, Accepted, InboundAdded, StatsCurrent, Inbounds, Step, Found;
    var inb := UserInbound(tag, "vless", name);
    EmptyPanel(setup, st, inb, w);
    UserInboundReads(tag, "vless", name);
    NamedUser(tag, "vless", name);
    Selected(tag, "vless", name, FilterAfter(st, AddInboundOp(inb), w));
    FirstInboundStatsExactly(setup, st, inb, w);
    FoundAfterAdd([], [], inb);
    assert [] + [Obj(inb)] == [Obj(inb)] && TagFilter([]) == {};
  }

  /** The same where another tag is managed. */
  lemma StaleStatsExample(setup: Setup, st: State, tag: string, name: string, w: World)
    requires tag != "" && tag != "old" && name != "" && w == World(true, true, true, true, true)
    requires st.managed == ["old"] && st.statsInbounds == ["old"]
    requires st.stored == WithStats(Only([]), SettingsOf(setup, st), [])
    ensures StatsCurrent(st.stored, st.managed) && AllListed(st)
    ensures var next := Step(setup, st, AddInboundOp(UserInbound(tag, "vless", name)), w).0;
      !StatsCurrent(next.stored, next.managed)
  {
    hide UserInbound, WithStats, InStats, Names, Users, Accepted, InboundAdded, StatsCurrent, Inbounds, Step, Found;
    hide TagFilter;
    var inb := UserInbound(tag, "vless", name);
    EmptyPanel(setup, st, inb, w);
    UserInboundReads(tag, "vless", name);
    NamedUser(tag, "vless", name);
    Selected(tag, "vless", name, {"old"} + {tag});
    OnlyManaged("old");
    AddToManagedExactly(setup, st, inb, w);
    FoundAfterAdd(["old"], [], inb);
    assert name in [name];
  }

  /** The only managed inbound goes, and another one counts from then on. */
  lemma DeleteWidens(setup: Setup, st: State, a: Json, b: Json, tag: string, w: World)
    requires st.managed == [tag] && tag != "" && w == World(true, true, true, true, true)
    requires List(st.stored, "inbounds") == Some([a, b]) && StatsCurrent(st.stored, st.managed)
    requires TagOf(a) == Some(tag) && TagOf(b).Some? && TagOf(b) != Some(tag)
    requires StatsNames([a, b], {tag}) == [] && StatsNames([b], {}) != []
    ensures var next := Step(setup, st, DeleteInboundOp(tag), w).0;
      !StatsCurrent(next.stored, next.managed)
  {
    hide StatsNames, StatsCurrent, Step, TagOf, Port;
    KeptAlone(a, b, tag);
    OnlyManaged(tag);
    hide FirstWith, WithoutTag, TagFilter;
    assert {tag} - {tag} == {};
    InboundEditStatsExactly(setup, st, DeleteInboundOp(tag), w);
  }

  lemma OnlyManaged(tag: string)
    requires tag != ""
    ensures TagFilter([tag]) == {tag}
  {
  }

  /** A panel with two inbounds, one managed. */
  lemma TwoInbounds(setup: Setup, st: State, a: Json, b: Json, tag: string)
    requires st.managed == [tag] && st.statsInbounds == [tag] && tag != ""
    requires st.stored == WithStats(Only([a, b]), SettingsOf(setup, st), [])
    requires StatsNames([a, b], {tag}) == [] && TagOf(a) == Some(tag) && !IsDiscoverable(b)
    ensures List(st.stored, "inbounds") == Some([a, b])
    ensures StatsCurrent(st.stored, st.managed) && AllListed(st)
  {
    WithStatsFacts(Only([a, b]), SettingsOf(setup, st), []);
    OnlyManaged(tag);
    hide WithStats, StatsUsers, StatsNames, IsDiscoverable, TextOr, TagFilter;
  }

  lemma OtherSpelling(tag: string, name: string)
    ensures !IsDiscoverable(Obj(UserInbound(tag, "VLESS", name)))
    ensures TagOf(Obj(UserInbound(tag, "VLESS", name))) == Some(tag)
  {
    UserInboundReads(tag, "VLESS", name);
    hide UserInbound, TextOr;
  }

  /** Deleting the only managed inbound lifts the filter: the list should now hold the users of an
      inbound it had left out. */
  lemma DeleteWidensExample(setup: Setup, st: State, tag: string, other: string, name: string, w: World)
    requires tag != "" && other != "" && tag != other && name != "" && w == World(true, true, true, true, true)
    requires st.managed == [tag] && st.statsInbounds == [tag]
    requires st.stored == WithStats(
      Only([Obj(Inbound(tag, "vless")), Obj(UserInbound(other, "VLESS", name))]), SettingsOf(setup, st), [])
    ensures StatsCurrent(st.stored, st.managed) && AllListed(st)
    ensures var next := Step(setup, st, DeleteInboundOp(tag), w).0;
      !StatsCurrent(next.stored, next.managed)
  {
    hide UserInbound, WithStats, InStats, Inbound, TextOr, Names, Users, StatsCurrent, AllListed, Step, IsDiscoverable;
    hide TagOf, StatsNames, Port, Only;
    var a, b := Obj(Inbound(tag, "vless")), Obj(UserInbound(other, "VLESS", name));
    InboundReads(tag, "vless");
    NoUsers(tag, "vless");
    NamedUser(other, "VLESS", name);
    OtherSpelling(other, name);
    Selected(other, "VLESS", name, {tag});
    Selected(other, "VLESS", name, {});
    TwoNames(a, b, {tag}, name);
    TwoInbounds(setup, st, a, b, tag);
    DeleteWidens(setup, st, a, b, tag, w);
  }

  lemma NoUsers(tag: string, t: string)
    ensures Users(Inbound(tag, t)) == []
  {
    assert "tag" != "users" && "type" != "users";
  }

  lemma KeptAlone(a: Json, b: Json, tag: string)
    requires TagOf(a) == Some(tag) && TagOf(b) != Some(tag)
    ensures FirstWith([a, b], tag) == 0 && WithoutTag([a, b], tag) == [b]
  {
    hide TagOf;
    assert [a, b][..1] == [a] && [a][..0] == [];
    assert WithoutTag([a], tag) == [];
  }

  /** An inbound without users before one that is selected only without a filter. */
  lemma TwoNames(a: Json, b: Json, f: set<string>, name: string)
    requires a.Obj? && b.Obj? && Users(a.fields) == [] && Names(Users(b.fields)) == [name]
    requires !InStats(b, f) && InStats(b, {})
    ensures StatsNames([a, b], f) == [] && StatsNames([b], {}) != []
  {
    hide InStats, Users;
    StatsNamesSnoc([a], b, f);
    StatsNamesSnoc([], a, f);
    StatsNamesSnoc([], b, {});
    AddNamesKeeps([], Users(b.fields));
    assert [a] + [b] == [a, b] && [] + [a] == [a] && [] + [b] == [b];
    hide Names;
    assert name in [name];
  }
}
