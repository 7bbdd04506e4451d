/** Whose credentials an edit changes, and when it is accepted: told entry by entry, without the
    functions that compute it. */
module SingboxCredentialLaws {
  import opened Common
  import opened Ascii
  import opened Json
  import opened SingboxUsers
  import opened SingboxEditLaws
  import opened SingboxAccounts

  // ---------- the kind of an inbound ----------

  /** A managed inbound is of one of the three kinds. */
  lemma ManagedKind(inb: Json, filter: set<string>)
    requires IsManaged(inb, filter)
    ensures inb.Obj? && KindOf(InboundType(inb.fields)) != Other
  {
    var t := Trim(TextOr(inb.fields, "type"));
    TrimTrims(TextOr(inb.fields, "type"));
    assert Trimmed(Lower(t)) && Lower(Lower(t)) == Lower(t);
    TrimmedStays(Lower(t));
  }

  // ---------- one entry ----------

  /** The flow that a request asks for. */
  function AskedFlow(c: Credentials): string { if Lower(Trim(c.flow)) == "none" then "" else Trim(c.flow) }

  /** Unchanged, less the "security" of a VMess entry. */
  predicate Untouched(kind: Kind, was: Json, now: Json) {
    if kind == Vmess && was.Obj? then now == Obj(was.fields - {"security"}) else now == was
  }

  /** An entry of an edited inbound: it has the credentials asked for and otherwise what it had. */
  predicate Given(kind: Kind, was: Json, now: Json, c: Credentials) {
    was.Obj? && now.Obj? &&
    match kind
    case Vless =>
      && Text(now.fields, "uuid") == Some(c.uuid) && TextOr(now.fields, "flow") == AskedFlow(c)
      && now.fields - {"uuid", "flow"} == was.fields - {"uuid", "flow"}
    case Vmess =>
      && Text(now.fields, "uuid") == Some(c.uuid)
      && "alter_id" in now.fields && now.fields["alter_id"] == Num(c.alterId as real)
      && now.fields - {"uuid", "alter_id"} == was.fields - {"uuid", "alter_id", "flow", "security"}
    case Trojan =>
      && Text(now.fields, "password") == Some(c.uuid)
      && now.fields - {"password"} == was.fields - {"password", "flow"}
    case Other => false
  }

  lemma RekeyedIsGiven(kind: Kind, was: Json, clean: Json, c: Credentials)
    requires was.Obj? && kind != Other && Untouched(kind, was, clean)
    ensures clean.Obj? && Given(kind, was, Rekeyed(kind, clean.fields, c), c)
  {
    hide Lower, Trim;
  }

  /** What such an entry is read as. */
  lemma GivenReadsBack(kind: Kind, was: Json, now: Json, c: Credentials)
    requires kind != Other && Given(kind, was, now, c)
    ensures ReadAccount(kind, now.fields) ==
      Account(
        if kind == Vmess && c.uuid == "" then TextOr(was.fields, "id") else c.uuid,
        if kind == Vless then AskedFlow(c) else "",
        if kind == Vmess then "" else TextOr(was.fields, "security"),
        if kind == Vmess then c.alterId else AlterId(was.fields))
  {
    hide AskedFlow, ParseInt;
    TruncateWhole(c.alterId);
    assert "security" != "uuid" && "security" != "flow" && "security" != "password" && "id" != "uuid" && "id" != "flow";
    assert "alter_id" != "uuid" && "alter_id" != "flow" && "alter_id" != "password" && "id" != "alter_id";
    match kind
    case Vless =>
      SameKey(now.fields, was.fields, {"uuid", "flow"}, {"uuid", "flow"}, "security");
      SameKey(now.fields, was.fields, {"uuid", "flow"}, {"uuid", "flow"}, "alter_id");
    case Vmess =>
      SameKey(now.fields, was.fields, {"uuid", "alter_id"}, {"uuid", "alter_id", "flow", "security"}, "id");
      Gone(now.fields, was.fields, {"uuid", "alter_id"}, {"uuid", "alter_id", "flow", "security"}, "security");
    case Trojan =>
      SameKey(now.fields, was.fields, {"password"}, {"password", "flow"}, "security");
      SameKey(now.fields, was.fields, {"password"}, {"password", "flow"}, "alter_id");
  }

  lemma Gone(x: Fields, y: Fields, gone: set<string>, lost: set<string>, k: string)
    requires x - gone == y - lost && k !in gone && k in lost
    ensures k !in x
  {
    assert k in x <==> k in x - gone;
  }

  lemma SameKey(x: Fields, y: Fields, gone: set<string>, lost: set<string>, k: string)
    requires x - gone == y - lost && k !in gone && k !in lost
    ensures (k in x <==> k in y) && (k in x ==> x[k] == y[k])
  {
    assert k in x <==> k in x - gone;
    assert k in y <==> k in y - lost;
  }

  // ---------- one user list ----------

  lemma CleanedUntouched(kind: Kind, users: seq<Json>)
    ensures |Cleaned(kind, users)| == |users|
    ensures forall i :: 0 <= i < |users| ==> Untouched(kind, users[i], Cleaned(kind, users)[i])
  {
  }

  /** Every entry with the name, or only the first, has the credentials; all others are untouched. */
  predicate UsersGiven(kind: Kind, was: seq<Json>, now: seq<Json>, name: string, c: Credentials, once: bool) {
    && |now| == |was|
    && forall i :: 0 <= i < |was| ==>
         if Named(was[i], name) && !(once && HasUser(was[..i], name)) then Given(kind, was[i], now[i], c)
         else Untouched(kind, was[i], now[i])
  }

  lemma NamedClean(kind: Kind, was: Json, clean: Json, name: string)
    requires Untouched(kind, was, clean)
    ensures Named(clean, name) <==> Named(was, name)
  {
    assert "name" != "security";
  }

  lemma RekeyedGiven(kind: Kind, users: seq<Json>, name: string, c: Credentials, once: bool)
    requires kind != Other
    ensures UsersGiven(kind, users, RekeyedUsers(kind, Cleaned(kind, users), name, c, once), name, c, once)
  {
    hide Rekeyed, Cleaned, Untouched, Given, HasUser, Named;
    var clean := Cleaned(kind, users);
    CleanedUntouched(kind, users);
    NamedMeansObject(name);
    forall i | 0 <= i < |users|
      ensures
        if Named(users[i], name) && !(once && HasUser(users[..i], name))
        then Given(kind, users[i], RekeyedUsers(kind, clean, name, c, once)[i], c)
        else Untouched(kind, users[i], RekeyedUsers(kind, clean, name, c, once)[i])
    {
      NamedClean(kind, users[i], clean[i], name);
      CleanPrefix(kind, users, i);
      CleaningKeepsNames(kind, users[..i], name);
      if Named(users[i], name) { RekeyedIsGiven(kind, users[i], clean[i], c); }
    }
  }

  lemma NamedMeansObject(name: string)
    ensures forall u :: Named(u, name) ==> u.Obj?
  {
  }

  lemma CleanPrefix(kind: Kind, users: seq<Json>, i: nat)
    requires i <= |users|
    ensures Cleaned(kind, users)[..i] == Cleaned(kind, users[..i])
  {
  }

  // ---------- updates ----------

  /** Inbound j is the first managed one with the tag. */
  predicate FirstWithTag(inbounds: seq<Json>, filter: set<string>, tag: string, j: int) {
    && 0 <= j < |inbounds| && HasTag(inbounds[j], filter, tag)
    && forall i :: 0 <= i < j ==> !HasTag(inbounds[i], filter, tag)
  }

  /** Which inbounds an update is about: those with the tag, or, everywhere, those of the type of
      the first one with the tag, or all of them if the tag names none. */
  ghost predicate About(inbounds: seq<Json>, filter: set<string>, tag: string, everywhere: bool, k: int)
    requires 0 <= k < |inbounds|
  {
    IsManaged(inbounds[k], filter) &&
    if !everywhere then TextOr(inbounds[k].fields, "tag") == tag
    else tag != "" ==> forall j :: FirstWithTag(inbounds, filter, tag, j) ==>
      IsManaged(inbounds[j], filter) && InboundType(inbounds[j].fields) == InboundType(inbounds[k].fields)
  }

  lemma AboutIsScope(inbounds: seq<Json>, filter: set<string>, tag: string, everywhere: bool, k: int)
    requires 0 <= k < |inbounds|
    ensures
      var scope := if everywhere then TypeScope(inbounds, filter, tag) else ByTag(tag);
      About(inbounds, filter, tag, everywhere, k) <==> InScope(inbounds[k], filter, scope)
  {
    hide InboundType, IsUserInbound;
    var j := FirstTagged(inbounds, filter, tag);
    if j < |inbounds| {
      assert FirstWithTag(inbounds, filter, tag, j);
      TypeIsNotEmpty(inbounds[j], filter);
    }
  }

  lemma TypeIsNotEmpty(inb: Json, filter: set<string>)
    requires IsManaged(inb, filter)
    ensures inb.Obj? && InboundType(inb.fields) != ""
  {
    ManagedKind(inb, filter);
    hide InboundType, IsManaged;
  }

  lemma RekeyedInGiven(inb: Json, filter: set<string>, scope: Scope, name: string, c: Credentials)
    ensures
      var now := RekeyedIn(inb, filter, scope, name, c);
      if InScope(inb, filter, scope) && inb.Obj? && List(inb.fields, "users").Some? then
        SameButUsers(inb, now) && now.Obj? &&
        UsersGiven(KindOf(InboundType(inb.fields)), Users(inb.fields), Users(now.fields), name, c, scope.ByTag?)
      else now == inb
  {
    hide UsersGiven, SameButUsers, Users, Cleaned, RekeyedUsers, InboundType, IsManaged, KindOf;
    if InScope(inb, filter, scope) {
      ScopeIsManaged(inb, filter, scope);
      ManagedKind(inb, filter);
      var kind := KindOf(InboundType(inb.fields));
      WithUsersFacts(inb, RekeyedUsers(kind, Cleaned(kind, Users(inb.fields)), name, c, scope.ByTag?));
      RekeyedGiven(kind, Users(inb.fields), name, c, scope.ByTag?);
    }
  }

  /** An update gives the credentials to exactly the entries asked for, in every inbound it is about,
      and changes no other inbound. */
  lemma UpdateCredentials(cfg: Fields, name: string, c: Credentials, tag: string, everywhere: bool, s: Settings)
    requires UserUpdated(cfg, name, c, tag, everywhere, s).Edited?
    ensures
      var filter := TagFilter(s.managed);
      var before, after := Inbounds(cfg), Inbounds(UserUpdated(cfg, name, c, tag, everywhere, s).cfg);
      |after| == |before| &&
      forall k :: 0 <= k < |before| ==>
        if About(before, filter, tag, everywhere, k) && List(before[k].fields, "users").Some? then
          SameButUsers(before[k], after[k]) && after[k].Obj? &&
          UsersGiven(KindOf(InboundType(before[k].fields)), Users(before[k].fields), Users(after[k].fields), name, c,
            !everywhere)
        else after[k] == before[k]
  {
    hide About, InScope, UsersGiven, SameButUsers, Users, Cleaned, RekeyedUsers, Synced, InboundType, IsInScope;
    hide AnyManaged, TypeScope;
    var filter := TagFilter(s.managed);
    var before := Inbounds(cfg);
    var scope := if everywhere then TypeScope(before, filter, tag) else ByTag(tag);
    var after := RekeyedInAll(before, filter, scope, name, c);
    TypeScopeIsByType(before, filter, tag);
    SyncedFacts(cfg, after, s);
    assert Inbounds(WithInbounds(cfg, after)) == after;
    forall k | 0 <= k < |before| { AboutIsScope(before, filter, tag, everywhere, k); }
    forall k | 0 <= k < |before| { RekeyedInGiven(before[k], filter, scope, name, c); }
  }

  lemma TypeScopeIsByType(inbounds: seq<Json>, filter: set<string>, tag: string)
    ensures TypeScope(inbounds, filter, tag).ByType?
  {
  }

  lemma ScopeIsManaged(inb: Json, filter: set<string>, scope: Scope)
    requires InScope(inb, filter, scope)
    ensures IsManaged(inb, filter)
  {
  }

  /** An update is accepted exactly when an inbound it is about holds the name. */
  lemma UpdateAcceptedExactly(cfg: Fields, name: string, c: Credentials, tag: string, everywhere: bool, s: Settings)
    ensures
      var filter, before := TagFilter(s.managed), Inbounds(cfg);
      UserUpdated(cfg, name, c, tag, everywhere, s).Edited? <==>
        exists k :: 0 <= k < |before| && About(before, filter, tag, everywhere, k) && before[k].Obj? &&
          HasUser(Users(before[k].fields), name)
  {
    hide About, HasUser, Users, Synced, IsManaged, TypeScope, RekeyedInAll, WithInbounds;
    var filter, before := TagFilter(s.managed), Inbounds(cfg);
    var scope := if everywhere then TypeScope(before, filter, tag) else ByTag(tag);
    forall k | 0 <= k < |before|
      ensures About(before, filter, tag, everywhere, k) <==> InScope(before[k], filter, scope)
      ensures InScope(before[k], filter, scope) ==> before[k].Obj? && IsManaged(before[k], filter)
    {
      AboutIsScope(before, filter, tag, everywhere, k);
      if InScope(before[k], filter, scope) {
        ScopeIsManaged(before[k], filter, scope);
        ManagedKind(before[k], filter);
      }
    }
  }

  // ---------- additions ----------

  /** A new entry: the name, the credential of its kind, and a flow or alter id if there is one. */
  predicate NewEntry(kind: Kind, u: Json, name: string, c: Credentials) {
    u.Obj? && Text(u.fields, "name") == Some(name) &&
    match kind
    case Vless =>
      && Text(u.fields, "uuid") == Some(c.uuid) && TextOr(u.fields, "flow") == AskedFlow(c)
      && u.fields.Keys == {"name", "uuid"} + if AskedFlow(c) == "" then {} else {"flow"}
    case Vmess =>
      && Text(u.fields, "uuid") == Some(c.uuid)
      && (c.alterId != 0 ==> "alter_id" in u.fields && u.fields["alter_id"] == Num(c.alterId as real))
      && u.fields.Keys == {"name", "uuid"} + if c.alterId == 0 then {} else {"alter_id"}
    case Trojan => Text(u.fields, "password") == Some(c.uuid) && u.fields.Keys == {"name", "password"}
    case Other => false
  }

  lemma NewUserIsEntry(kind: Kind, name: string, c: Credentials)
    requires kind != Other
    ensures NewEntry(kind, NewUser(kind, name, c), name, c)
  {
    hide Lower, Trim;
    assert "name" != "uuid" && "name" != "flow" && "name" != "alter_id" && "name" != "password";
    assert "uuid" != "flow" && "uuid" != "alter_id";
  }

  /** An addition appends the new entry to the first managed inbound with the tag, and leaves all
      entries there untouched. */
  lemma AddCredentials(cfg: Fields, name: string, c: Credentials, tag: string, s: Settings)
    requires UserAdded(cfg, name, c, tag, s).Edited?
    ensures
      var before, after := Inbounds(cfg), Inbounds(UserAdded(cfg, name, c, tag, s).cfg);
      |after| == |before| &&
      forall k :: 0 <= k < |before| ==>
        if FirstWithTag(before, TagFilter(s.managed), tag, k) then
          before[k].Obj? && after[k].Obj? && SameButUsers(before[k], after[k]) &&
          Appended(KindOf(InboundType(before[k].fields)), Users(before[k].fields), Users(after[k].fields), name, c)
        else after[k] == before[k]
  {
    hide UserAdded, NewUser, InboundType, HasUser, Cleaned, IsUserInbound, Users, SameButUsers, KindOf, StatsCurrent;
    hide NewEntry, Untouched;
    var filter, before := TagFilter(s.managed), Inbounds(cfg);
    AddUserShape(cfg, name, c, tag, s);
    var k := FirstTagged(before, filter, tag);
    ManagedKind(before[k], filter);
    var kind, was := KindOf(InboundType(before[k].fields)), Users(before[k].fields);
    NewUserIsEntry(kind, name, c);
    CleanedUntouched(kind, was);
    WithUsersFacts(before[k], Cleaned(kind, was) + [NewUser(kind, name, c)]);
    assert forall j :: FirstWithTag(before, filter, tag, j) <==> j == k;
  }

  predicate Appended(kind: Kind, was: seq<Json>, now: seq<Json>, name: string, c: Credentials) {
    && |now| == |was| + 1 && NewEntry(kind, now[|was|], name, c)
    && forall i :: 0 <= i < |was| ==> Untouched(kind, was[i], now[i])
  }

  /** Some managed inbound has the tag, and the first that has it holds the name or does not. */
  ghost predicate FirstHolds(inbounds: seq<Json>, filter: set<string>, tag: string, name: string, held: bool) {
    exists k ::
      FirstWithTag(inbounds, filter, tag, k) && inbounds[k].Obj? && HasUser(Users(inbounds[k].fields), name) == held
  }

  /** An addition is accepted exactly when a tag is given, some managed inbound has it, and the
      first that has it lacks the name; otherwise the first of these that fails is reported. */
  lemma AddAcceptedExactly(cfg: Fields, name: string, c: Credentials, tag: string, s: Settings)
    ensures
      var filter, before := TagFilter(s.managed), Inbounds(cfg);
      var r := UserAdded(cfg, name, c, tag, s);
      && (r.Edited? <==> tag != "" && FirstHolds(before, filter, tag, name, false))
      && (tag == "" ==> r == Refused(TagRequired))
      && (tag != "" && (forall k :: 0 <= k < |before| ==> !IsManaged(before[k], filter)) ==>
            r == Refused(NoManagedInbounds))
      && (r == Refused(UserExists) <==> tag != "" && FirstHolds(before, filter, tag, name, true))
  {
    hide Synced, NewUser, InboundType, HasUser, Users, IsUserInbound, WithInbounds, Cleaned, KindOf;
    var filter, before := TagFilter(s.managed), Inbounds(cfg);
    var k := FirstTagged(before, filter, tag);
    if k < |before| {
      ManagedKind(before[k], filter);
      CleaningKeepsNames(KindOf(InboundType(before[k].fields)), Users(before[k].fields), name);
      assert AnyManaged(before, filter);
    }
    assert forall j :: FirstWithTag(before, filter, tag, j) <==> j == k && k < |before|;
  }

  // ---------- removals ----------

  /** RemoveUser is accepted whenever some inbound is managed; with a tag, exactly when a managed
      inbound with that tag holds the name. */
  lemma RemoveAcceptedExactly(cfg: Fields, name: string, only: Option<string>, s: Settings)
    ensures
      var filter, before := TagFilter(s.managed), Inbounds(cfg);
      UserRemoved(cfg, name, only, s).Edited? <==>
        exists k :: 0 <= k < |before| && IsManaged(before[k], filter) && before[k].Obj? &&
          (only.Some? ==> TextOr(before[k].fields, "tag") == only.value && HasUser(Users(before[k].fields), name))
  {
    hide Synced, HasUser, Users, IsUserInbound, WithInbounds, RemovedFromAll;
    var filter, before := TagFilter(s.managed), Inbounds(cfg);
    forall k | 0 <= k < |before| && IsManaged(before[k], filter) ensures before[k].Obj? {
      ManagedKind(before[k], filter);
    }
  }
}
