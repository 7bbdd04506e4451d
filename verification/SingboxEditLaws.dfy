/** What a successful user edit does to the configuration, and what every edit keeps. */
module SingboxEditLaws {
  import opened Common
  import opened Json
  import opened SingboxUsers
  import opened SingboxUserLaws

  // ---------- only users change ----------

  /** The inbounds differ in nothing but their user lists. */
  predicate SameButUsers(a: Json, b: Json) {
    (a.Obj? <==> b.Obj?) &&
    if a.Obj? then a.fields - {"users"} == b.fields - {"users"} else a == b
  }

  predicate AllSameButUsers(a: seq<Json>, b: seq<Json>) {
    |a| == |b| && forall k :: 0 <= k < |a| ==> SameButUsers(a[k], b[k])
  }

  lemma SameField(a: Json, b: Json, key: string)
    requires SameButUsers(a, b) && a.Obj? && key != "users"
    ensures key in a.fields <==> key in b.fields
    ensures key in a.fields ==> a.fields[key] == b.fields[key]
  {
    var x, y := a.fields - {"users"}, b.fields - {"users"};
    assert key in x <==> key in a.fields;
    assert key in y <==> key in b.fields;
  }

  lemma SameButUsersFacts(a: Json, b: Json, filter: set<string>)
    requires SameButUsers(a, b)
    ensures IsManaged(a, filter) <==> IsManaged(b, filter)
    ensures Untagged(a) <==> Untagged(b)
    ensures a.Obj? ==>
      Text(a.fields, "tag") == Text(b.fields, "tag") && TextOr(a.fields, "tag") == TextOr(b.fields, "tag")
    ensures a.Obj? ==> InboundType(a.fields) == InboundType(b.fields)
  {
    hide SameButUsers, KindOf;
    if a.Obj? {
      assert "tag" != "users" && "type" != "users";
      SameField(a, b, "tag");
      SameField(a, b, "type");
    }
    assert a.Obj? <==> b.Obj? by { SameKind(a, b); }
    if !a.Obj? { SameKind(a, b); }
  }

  lemma SameKind(a: Json, b: Json)
    requires SameButUsers(a, b)
    ensures a.Obj? <==> b.Obj?
    ensures !a.Obj? ==> a == b
  {
  }

  lemma WithUsersFacts(inb: Json, users: seq<Json>)
    requires inb.Obj?
    ensures WithUsers(inb, users).Obj?
    ensures Users(WithUsers(inb, users).fields) == users
    ensures SameButUsers(inb, WithUsers(inb, users))
  {
    assert inb.fields["users" := Arr(users)] - {"users"} == inb.fields - {"users"};
  }

  // ---------- names unique within an inbound ----------

  predicate SameName(u: Json, v: Json) { NameOf(u).Some? && NameOf(u) == NameOf(v) }

  predicate UniqueNames(users: seq<Json>) {
    forall i, j :: 0 <= i < j < |users| ==> !SameName(users[i], users[j])
  }

  predicate UniqueWithin(inbounds: seq<Json>) {
    forall k :: 0 <= k < |inbounds| && inbounds[k].Obj? ==> UniqueNames(Users(inbounds[k].fields))
  }

  // ---------- removal ----------

  function Unlike(name: string): Json -> bool { (u: Json) => !Named(u, name) }

  /** Removal keeps exactly the users without the name, in their order. */
  lemma {:induction false} WithoutKeepsOrder(users: seq<Json>, name: string)
    ensures Filtered(Without(users, name), users, Unlike(name))
  {
    hide Named, Filtered;
    if users == [] {
      NothingFiltered(Unlike(name));
    } else {
      var init, u := users[..|users| - 1], users[|users| - 1];
      WithoutKeepsOrder(init, name);
      FilteredOne(Without(init, name), init, Unlike(name), u);
      assert init + [u] == users;
    }
  }

  lemma WithoutFacts(users: seq<Json>, name: string)
    ensures forall n :: HasUser(Without(users, name), n) <==> HasUser(users, n) && n != name
    ensures UniqueNames(users) ==> UniqueNames(Without(users, name))
  {
    hide SameName;
    WithoutKeepsOrder(users, name);
    var kept := Without(users, name);
    var at: seq<nat> :| FilteredAt(kept, at, users, Unlike(name));
    forall n ensures HasUser(kept, n) <==> HasUser(users, n) && n != name {
      if HasUser(users, n) && n != name {
        var i :| 0 <= i < |users| && Named(users[i], n);
        assert i in at;
        var j :| 0 <= j < |at| && at[j] == i;
        assert Named(kept[j], n);
      }
      if HasUser(kept, n) {
        var j :| 0 <= j < |kept| && Named(kept[j], n);
        assert at[j] in at;
        assert Named(users[at[j]], n);
      }
    }
  }

  // ---------- the laws of AddUser ----------

  lemma CleanedFacts(kind: Kind, users: seq<Json>)
    ensures |Cleaned(kind, users)| == |users|
    ensures forall i :: 0 <= i < |users| ==> NameOf(Cleaned(kind, users)[i]) == NameOf(users[i])
    ensures UniqueNames(users) ==> UniqueNames(Cleaned(kind, users))
  {
    assert "name" != "security";
  }

  lemma NewUserIsNamed(kind: Kind, name: string, c: Credentials)
    ensures NameOf(NewUser(kind, name, c)) == Some(name)
  {
    hide NormalizeFlow;
    assert "name" != "uuid" && "name" != "flow" && "name" != "alter_id" && "name" != "password";
  }

  lemma AppendedUser(users: seq<Json>, kind: Kind, u: Json, name: string)
    requires NameOf(u) == Some(name) && !HasUser(Cleaned(kind, users), name)
    ensures forall n :: HasUser(Cleaned(kind, users) + [u], n) <==> HasUser(users, n) || n == name
    ensures UniqueNames(users) ==> UniqueNames(Cleaned(kind, users) + [u])
  {
    hide Cleaned;
    var all := Cleaned(kind, users);
    CleanedFacts(kind, users);
    forall n ensures HasUser(all + [u], n) <==> HasUser(users, n) || n == name {
      HasUserSnoc(all, u, n);
      CleaningKeepsNames(kind, users, n);
    }
    forall i | 0 <= i < |all| ensures !SameName(all[i], u) { assert !Named(all[i], name); }
  }

  /** Which names are active after one inbound gets a new user list. */
  lemma ActiveAfterOne(a: seq<Json>, b: seq<Json>, filter: set<string>, k: nat, n: string)
    requires AllSameButUsers(a, b) && k < |a| && IsManaged(a[k], filter)
    requires forall j :: 0 <= j < |a| && j != k ==> b[j] == a[j]
    requires a[k].Obj? && b[k].Obj?
    requires HasUser(Users(a[k].fields), n) ==> HasUser(Users(b[k].fields), n)
    ensures Active(b, filter, n) <==> Active(a, filter, n) || (n != "" && HasUser(Users(b[k].fields), n))
  {
    hide HasUser, IsUserInbound, Users, SameButUsers;
    SameButUsersFacts(a[k], b[k], filter);
    if Active(a, filter, n) {
      var j :| 0 <= j < |a| && IsManaged(a[j], filter) && a[j].Obj? && HasUser(Users(a[j].fields), n);
      assert IsManaged(b[j], filter) && HasUser(Users(b[j].fields), n);
    }
  }

  // ---------- the statistics list after an edit ----------

  predicate StatsCurrent(cfg: Fields, managed: seq<string>) {
    StatsUsers(cfg) == Strings(StatsNames(Inbounds(cfg), TagFilter(managed)))
  }

  /** A current list is the duplicate-free first-occurrence list of the names and, when every
      user inbound has a string tag, names exactly the active users. */
  lemma CurrentStatsMeaning(cfg: Fields, managed: seq<string>)
    requires StatsCurrent(cfg, managed)
    ensures
      var inbounds, filter := Inbounds(cfg), TagFilter(managed);
      var names := StatsNames(inbounds, filter);
      StatsUsers(cfg) == Strings(names) &&
      FirstOccurrences(names, AllNames(inbounds, filter)) &&
      (AllTagged(inbounds) ==> forall n :: n in names <==> Active(inbounds, filter, n))
  {
    hide FirstOccurrences, Active, Stray, AllTagged, StatsNames, AllNames, StatsUsers;
    StatsListsFirstOccurrences(Inbounds(cfg), TagFilter(managed));
    forall n { StatsAndActive(Inbounds(cfg), TagFilter(managed), n); }
  }

  lemma SyncedFacts(cfg: Fields, inbounds: seq<Json>, s: Settings)
    ensures Inbounds(Synced(WithInbounds(cfg, inbounds), s)) == inbounds
    ensures StatsCurrent(Synced(WithInbounds(cfg, inbounds), s), s.managed)
  {
    hide WithStats, StatsUsers;
    var edited := WithInbounds(cfg, inbounds);
    WithStatsFacts(edited, s, StatsNames(inbounds, TagFilter(s.managed)));
  }

  // ---------- AddUser ----------

  lemma AddUserShape(cfg: Fields, name: string, c: Credentials, tag: string, s: Settings)
    requires UserAdded(cfg, name, c, tag, s).Edited?
    ensures
      var before, after := Inbounds(cfg), Inbounds(UserAdded(cfg, name, c, tag, s).cfg);
      var k := FirstTagged(before, TagFilter(s.managed), tag);
      k < |before| && before[k].Obj? &&
      var kind := KindOf(InboundType(before[k].fields));
      var users := Cleaned(kind, Users(before[k].fields));
      !HasUser(users, name) && after == before[k := WithUsers(before[k], users + [NewUser(kind, name, c)])]
    ensures StatsCurrent(UserAdded(cfg, name, c, tag, s).cfg, s.managed)
  {
    hide Synced, NewUser, InboundType, HasUser, Cleaned, StatsCurrent, IsUserInbound;
    var before := Inbounds(cfg);
    var k := FirstTagged(before, TagFilter(s.managed), tag);
    var kind := KindOf(InboundType(before[k].fields));
    var users := Cleaned(kind, Users(before[k].fields));
    SyncedFacts(cfg, before[k := WithUsers(before[k], users + [NewUser(kind, name, c)])], s);
  }

  /** AddUser changes the first managed inbound with the tag only: the name becomes active
      there and nobody else's state changes; names stay unique; the list is current. */
  lemma AddUserLaw(cfg: Fields, name: string, c: Credentials, tag: string, s: Settings)
    requires UserAdded(cfg, name, c, tag, s).Edited?
    ensures
      var filter := TagFilter(s.managed);
      var before, after := Inbounds(cfg), Inbounds(UserAdded(cfg, name, c, tag, s).cfg);
      AllSameButUsers(before, after) &&
      (forall k :: 0 <= k < |before| && k != FirstTagged(before, filter, tag) ==> after[k] == before[k]) &&
      (forall n :: Active(after, filter, n) <==> Active(before, filter, n) || (n == name && n != "")) &&
      (UniqueWithin(before) ==> UniqueWithin(after))
    ensures StatsCurrent(UserAdded(cfg, name, c, tag, s).cfg, s.managed)
  {
    hide UserAdded, NewUser, InboundType, HasUser, Cleaned, StatsCurrent, IsUserInbound, Users, SameButUsers;
    hide UniqueNames, Active, KindOf;
    var filter := TagFilter(s.managed);
    var before, after := Inbounds(cfg), Inbounds(UserAdded(cfg, name, c, tag, s).cfg);
    AddUserShape(cfg, name, c, tag, s);
    var k := FirstTagged(before, filter, tag);
    var kind := KindOf(InboundType(before[k].fields));
    var was := Users(before[k].fields);
    var u := NewUser(kind, name, c);
    WithUsersFacts(before[k], Cleaned(kind, was) + [u]);
    forall j | 0 <= j < |before| ensures SameButUsers(before[j], after[j]) { SameAsItself(before[j]); }
    NewUserIsNamed(kind, name, c);
    AppendedUser(was, kind, u, name);
    forall n ensures Active(after, filter, n) <==> Active(before, filter, n) || (n == name && n != "") {
      ActiveAfterOne(before, after, filter, k, n);
      ActiveBy(before, filter, k, n);
    }
  }

  lemma SameAsItself(a: Json)
    ensures SameButUsers(a, a)
  {
  }

  lemma ActiveBy(inbounds: seq<Json>, filter: set<string>, k: nat, n: string)
    requires k < |inbounds| && IsManaged(inbounds[k], filter)
    ensures inbounds[k].Obj?
    ensures n != "" && HasUser(Users(inbounds[k].fields), n) ==> Active(inbounds, filter, n)
  {
  }

  // ---------- RemoveUser and RemoveUserFromInbound ----------

  lemma RemovedFromFacts(inb: Json, filter: set<string>, only: Option<string>, name: string)
    ensures SameButUsers(inb, RemovedFrom(inb, filter, only, name))
    ensures Touched(inb, filter, only) ==>
      inb.Obj? && RemovedFrom(inb, filter, only, name).Obj? &&
      Users(RemovedFrom(inb, filter, only, name).fields) == Without(Users(inb.fields), name)
    ensures !Touched(inb, filter, only) ==> RemovedFrom(inb, filter, only, name) == inb
  {
    hide SameButUsers, IsUserInbound, Without, Users;
    SameAsItself(inb);
    if Touched(inb, filter, only) { WithUsersFacts(inb, Without(Users(inb.fields), name)); }
  }

  lemma RemoveUserShape(cfg: Fields, name: string, only: Option<string>, s: Settings)
    requires UserRemoved(cfg, name, only, s).Edited?
    ensures Inbounds(UserRemoved(cfg, name, only, s).cfg) ==
      RemovedFromAll(Inbounds(cfg), TagFilter(s.managed), only, name)
    ensures StatsCurrent(UserRemoved(cfg, name, only, s).cfg, s.managed)
  {
    hide Synced, StatsCurrent, AnyManaged, IsHeldIn;
    SyncedFacts(cfg, RemovedFromAll(Inbounds(cfg), TagFilter(s.managed), only, name), s);
  }

  /** Removal takes every entry with the name out of the inbounds it touches, keeps all other
      users there in order, and leaves every other inbound as it was. */
  lemma RemoveUserLaw(cfg: Fields, name: string, only: Option<string>, s: Settings)
    requires UserRemoved(cfg, name, only, s).Edited?
    ensures
      var filter := TagFilter(s.managed);
      var before, after := Inbounds(cfg), Inbounds(UserRemoved(cfg, name, only, s).cfg);
      AllSameButUsers(before, after) &&
      (forall k :: 0 <= k < |before| && !Touched(before[k], filter, only) ==> after[k] == before[k]) &&
      (forall k :: 0 <= k < |before| && Touched(before[k], filter, only) ==>
        before[k].Obj? && after[k].Obj? &&
        Filtered(Users(after[k].fields), Users(before[k].fields), Unlike(name))) &&
      (UniqueWithin(before) ==> UniqueWithin(after))
    ensures StatsCurrent(UserRemoved(cfg, name, only, s).cfg, s.managed)
  {
    hide UserRemoved, Touched, SameButUsers, Users, Without, UniqueNames, Filtered, Unlike, StatsCurrent, RemovedFrom;
    var filter := TagFilter(s.managed);
    var before := Inbounds(cfg);
    RemoveUserShape(cfg, name, only, s);
    var after := RemovedFromAll(before, filter, only, name);
    forall k | 0 <= k < |before|
      ensures SameButUsers(before[k], after[k])
      ensures !Touched(before[k], filter, only) ==> after[k] == before[k]
      ensures UniqueWithin(before) && after[k].Obj? ==> UniqueNames(Users(after[k].fields))
    {
      RemovedFromFacts(before[k], filter, only, name);
      if Touched(before[k], filter, only) { WithoutFacts(Users(before[k].fields), name); }
    }
    forall k | 0 <= k < |before| && Touched(before[k], filter, only)
      ensures before[k].Obj? && after[k].Obj?
      ensures Filtered(Users(after[k].fields), Users(before[k].fields), Unlike(name))
    {
      RemovedFromFacts(before[k], filter, only, name);
      WithoutKeepsOrder(Users(before[k].fields), name);
    }
  }

  /** Managed inbounds that a removal does not touch hold the name. */
  predicate ElsewhereActive(inbounds: seq<Json>, filter: set<string>, only: Option<string>, n: string) {
    n != "" &&
    exists k ::
      0 <= k < |inbounds| && IsManaged(inbounds[k], filter) && !Touched(inbounds[k], filter, only) &&
        HasUser(Users(inbounds[k].fields), n)
  }

  lemma RemovedUserAt(inb: Json, filter: set<string>, only: Option<string>, name: string, n: string)
    ensures var after := RemovedFrom(inb, filter, only, name);
      && (IsManaged(after, filter) <==> IsManaged(inb, filter))
      && (IsManaged(inb, filter) ==>
            (HasUser(Users(after.fields), n) <==>
              HasUser(Users(inb.fields), n) && !(n == name && Touched(inb, filter, only))))
  {
    hide IsUserInbound, SameButUsers, Users, Without, HasUser;
    RemovedFromFacts(inb, filter, only, name);
    SameButUsersFacts(inb, RemovedFrom(inb, filter, only, name), filter);
    if Touched(inb, filter, only) { WithoutFacts(Users(inb.fields), name); }
  }

  /** After a removal every other name is active as before, and the name itself exactly where an
      inbound that was not touched holds it: nowhere after RemoveUser, under another tag after
      RemoveUserFromInbound. */
  lemma RemoveUserActive(cfg: Fields, name: string, only: Option<string>, s: Settings, n: string)
    requires UserRemoved(cfg, name, only, s).Edited?
    ensures
      var filter := TagFilter(s.managed);
      var before, after := Inbounds(cfg), Inbounds(UserRemoved(cfg, name, only, s).cfg);
      Active(after, filter, n) <==>
        if n == name then ElsewhereActive(before, filter, only, n) else Active(before, filter, n)
    ensures only.None? && n == name ==> !Active(Inbounds(UserRemoved(cfg, name, only, s).cfg), TagFilter(s.managed), n)
  {
    hide UserRemoved, IsUserInbound, Users, RemovedFrom, HasUser, StatsCurrent, TextOr;
    var filter := TagFilter(s.managed);
    var before := Inbounds(cfg);
    RemoveUserShape(cfg, name, only, s);
    var after := RemovedFromAll(before, filter, only, name);
    forall k | 0 <= k < |before|
      ensures IsManaged(after[k], filter) <==> IsManaged(before[k], filter)
      ensures IsManaged(before[k], filter) ==>
        (HasUser(Users(after[k].fields), n) <==>
          HasUser(Users(before[k].fields), n) && !(n == name && Touched(before[k], filter, only)))
    {
      RemovedUserAt(before[k], filter, only, name, n);
    }
  }

  // ---------- UpdateUser and UpdateUserInInbound ----------

  lemma RekeyedKeepsName(kind: Kind, u: Json, c: Credentials)
    requires u.Obj?
    ensures NameOf(Rekeyed(kind, u.fields, c)) == NameOf(u)
  {
    hide NormalizeFlow;
    assert "name" != "uuid" && "name" != "flow" && "name" != "alter_id" && "name" != "password" && "name" != "security";
  }

  lemma RekeyedUsersFacts(kind: Kind, users: seq<Json>, name: string, c: Credentials, once: bool)
    ensures
      var r := RekeyedUsers(kind, Cleaned(kind, users), name, c, once);
      |r| == |users| && forall i :: 0 <= i < |users| ==> NameOf(r[i]) == NameOf(users[i])
  {
    hide Rekeyed, Cleaned, NameOf, HasUser;
    var clean := Cleaned(kind, users);
    CleanedFacts(kind, users);
    forall i | 0 <= i < |users| && Named(clean[i], name) { RekeyedKeepsName(kind, clean[i], c); }
  }

  /** User lists with the same names at the same places. */
  predicate SameNames(a: seq<Json>, b: seq<Json>) {
    |a| == |b| && forall i :: 0 <= i < |a| ==> NameOf(a[i]) == NameOf(b[i])
  }

  lemma RekeyedInFacts(inb: Json, filter: set<string>, scope: Scope, name: string, c: Credentials)
    ensures SameButUsers(inb, RekeyedIn(inb, filter, scope, name, c))
    ensures inb.Obj? ==>
      RekeyedIn(inb, filter, scope, name, c).Obj? &&
      SameNames(Users(inb.fields), Users(RekeyedIn(inb, filter, scope, name, c).fields))
  {
    hide SameButUsers, InboundType, IsUserInbound, RekeyedUsers, Cleaned, KindOf;
    SameAsItself(inb);
    if InScope(inb, filter, scope) && List(inb.fields, "users").Some? {
      var kind := KindOf(InboundType(inb.fields));
      var users := RekeyedUsers(kind, Cleaned(kind, Users(inb.fields)), name, c, scope.ByTag?);
      WithUsersFacts(inb, users);
      RekeyedUsersFacts(kind, Users(inb.fields), name, c, scope.ByTag?);
    }
  }

  lemma {:induction false} SameNamesAdd(names: seq<string>, a: seq<Json>, b: seq<Json>)
    requires SameNames(a, b)
    ensures AddNames(names, a) == AddNames(names, b)
  {
    hide NameOf;
    if a != [] { SameNamesAdd(names, a[..|a| - 1], b[..|a| - 1]); }
  }

  lemma {:induction false} SameNamesStats(a: seq<Json>, b: seq<Json>, filter: set<string>)
    requires AllSameButUsers(a, b)
    requires forall k :: 0 <= k < |a| && a[k].Obj? ==> b[k].Obj? && SameNames(Users(a[k].fields), Users(b[k].fields))
    ensures StatsNames(a, filter) == StatsNames(b, filter)
  {
    hide SameButUsers, IsUserInbound, SameNames, Users;
    if a != [] {
      var last := |a| - 1;
      SameNamesStats(a[..last], b[..last], filter);
      SameButUsersFacts(a[last], b[last], filter);
      SameButUsersStats(a[last], b[last], filter);
      if a[last].Obj? { SameNamesAdd(StatsNames(a[..last], filter), Users(a[last].fields), Users(b[last].fields)); }
    }
  }

  lemma SameButUsersStats(a: Json, b: Json, filter: set<string>)
    requires SameButUsers(a, b)
    ensures InStats(a, filter) <==> InStats(b, filter)
  {
    hide SameButUsers, KindOf;
    SameKind(a, b);
    SameButUsersFacts(a, b, filter);
  }

  lemma SameNamesHold(a: seq<Json>, b: seq<Json>)
    requires SameNames(a, b)
    ensures forall n :: HasUser(a, n) <==> HasUser(b, n)
    ensures UniqueNames(a) ==> UniqueNames(b)
  {
    forall n ensures HasUser(a, n) <==> HasUser(b, n) {
      assert forall i :: 0 <= i < |a| ==> (Named(a[i], n) <==> Named(b[i], n)) by {
        assert forall u: Json :: Named(u, n) <==> NameOf(u) == Some(n);
      }
    }
  }

  /** New credentials change no name: a current list stays current without being rewritten. */
  lemma UpdateUserLaw(cfg: Fields, name: string, c: Credentials, tag: string, everywhere: bool, s: Settings)
    requires UserUpdated(cfg, name, c, tag, everywhere, s).Edited?
    ensures
      var filter := TagFilter(s.managed);
      var before, after := Inbounds(cfg), Inbounds(UserUpdated(cfg, name, c, tag, everywhere, s).cfg);
      AllSameButUsers(before, after) &&
      (forall k :: 0 <= k < |before| && before[k].Obj? ==>
        after[k].Obj? && SameNames(Users(before[k].fields), Users(after[k].fields))) &&
      (UniqueWithin(before) ==> UniqueWithin(after))
    ensures !everywhere || StatsCurrent(cfg, s.managed) ==>
      StatsCurrent(UserUpdated(cfg, name, c, tag, everywhere, s).cfg, s.managed)
  {
    hide SameButUsers, Users, SameNames, UniqueNames, IsInScope, RekeyedIn, Synced, TypeScope, AnyManaged;
    hide StatsUsers, StatsNames;
    var filter := TagFilter(s.managed);
    var before := Inbounds(cfg);
    var scope := if everywhere then TypeScope(before, filter, tag) else ByTag(tag);
    var after := RekeyedInAll(before, filter, scope, name, c);
    SyncedFacts(cfg, after, s);
    assert Inbounds(WithInbounds(cfg, after)) == after;
    forall k | 0 <= k < |before| { RekeyedInFacts(before[k], filter, scope, name, c); }
    forall k | 0 <= k < |before| && after[k].Obj?
      ensures UniqueWithin(before) ==> UniqueNames(Users(after[k].fields))
    {
      RekeyedInFacts(before[k], filter, scope, name, c);
      SameObject(before[k], after[k]);
      SameNamesHold(Users(before[k].fields), Users(after[k].fields));
    }
    SameNamesStats(before, after, filter);
    StatsUsersElsewhere(cfg, after);
  }

  lemma SameObject(a: Json, b: Json)
    requires SameButUsers(a, b)
    ensures a.Obj? <==> b.Obj?
  {
  }

  lemma StatsUsersElsewhere(cfg: Fields, inbounds: seq<Json>)
    ensures StatsUsers(WithInbounds(cfg, inbounds)) == StatsUsers(cfg)
  {
    assert "experimental" != "inbounds";
  }

  // ---------- adding and removing again ----------

  lemma {:induction false} WithoutAbsent(users: seq<Json>, name: string)
    requires !HasUser(users, name)
    ensures Without(users, name) == users
  {
    hide Named;
    if users != [] {
      var init := users[..|users| - 1];
      assert forall i :: 0 <= i < |init| ==> init[i] == users[i];
      WithoutAbsent(init, name);
    }
  }

  lemma AppendedThenWithout(users: seq<Json>, u: Json, name: string)
    requires !HasUser(users, name) && NameOf(u) == Some(name)
    ensures Without(users + [u], name) == users
  {
    assert (users + [u])[..|users|] == users;
    WithoutAbsent(users, name);
  }

  /** Taking the appended user out of the one inbound that was edited. */
  lemma TakenOut(before: seq<Json>, k: nat, users: seq<Json>, u: Json, name: string, tag: string, filter: set<string>)
    requires k < |before| && before[k].Obj? && HasTag(before[k], filter, tag)
    requires !HasUser(users, name) && NameOf(u) == Some(name)
    requires forall j :: 0 <= j < |before| && Touched(before[j], filter, Some(tag)) ==> j == k
    ensures
      var added := before[k := WithUsers(before[k], users + [u])];
      AnyManaged(added, filter) && IsHeldIn(added, filter, Some(tag), name) &&
      RemovedFromAll(added, filter, Some(tag), name) == before[k := WithUsers(before[k], users)]
  {
    hide HasUser, IsUserInbound, SameButUsers, Without;
    var added := before[k := WithUsers(before[k], users + [u])];
    WithUsersFacts(before[k], users + [u]);
    SameButUsersFacts(before[k], added[k], filter);
    HasUserSnoc(users, u, name);
    AppendedThenWithout(users, u, name);
    assert Touched(added[k], filter, Some(tag));
    var inb := before[k].fields;
    assert inb["users" := Arr(users + [u])]["users" := Arr(users)] == inb["users" := Arr(users)];
    assert forall j :: 0 <= j < |before| && j != k ==> added[j] == before[j];
  }

  /** Adding a user and removing it from the inbound gives back every inbound, provided no
      other managed inbound has the tag; a VMess inbound comes back with its users cleaned. */
  lemma AddThenRemove(cfg: Fields, name: string, c: Credentials, tag: string, s: Settings)
    requires UserAdded(cfg, name, c, tag, s).Edited?
    requires
      var filter := TagFilter(s.managed);
      forall k :: 0 <= k < |Inbounds(cfg)| && Touched(Inbounds(cfg)[k], filter, Some(tag)) ==>
        k == FirstTagged(Inbounds(cfg), filter, tag)
    ensures
      var removed := UserRemoved(UserAdded(cfg, name, c, tag, s).cfg, name, Some(tag), s);
      var before := Inbounds(cfg);
      var k := FirstTagged(before, TagFilter(s.managed), tag);
      removed.Edited? && k < |before| && before[k].Obj? &&
      Inbounds(removed.cfg) ==
        before[k := WithUsers(before[k], Cleaned(KindOf(InboundType(before[k].fields)), Users(before[k].fields)))]
  {
    hide UserAdded, NewUser, InboundType, HasUser, Cleaned, StatsCurrent, IsUserInbound, KindOf, Synced;
    hide RemovedFromAll, AnyManaged, IsHeldIn, Touched;
    var filter := TagFilter(s.managed);
    var before := Inbounds(cfg);
    var added := UserAdded(cfg, name, c, tag, s).cfg;
    var k := FirstTagged(before, filter, tag);
    AddUserShape(cfg, name, c, tag, s);
    var kind := KindOf(InboundType(before[k].fields));
    var users, u := Cleaned(kind, Users(before[k].fields)), NewUser(kind, name, c);
    NewUserIsNamed(kind, name, c);
    TakenOut(before, k, users, u, name, tag, filter);
    RemoveUserShape(added, name, Some(tag), s);
  }
}
