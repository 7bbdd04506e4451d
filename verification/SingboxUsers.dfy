/** Users inside the inbounds of a sing-box configuration, the edits that change them, and
    the statistics user list derived from them. */
module SingboxUsers {
  import opened Common
  import opened Ascii
  import opened Json

  // ---------- inbounds ----------

  datatype Kind = Vless | Vmess | Trojan | Other

  function KindOf(t: string): Kind {
    if t == "vless" then Vless else if t == "vmess" then Vmess else if t == "trojan" then Trojan else Other
  }

  function InboundType(inb: Fields): string { Lower(Trim(TextOr(inb, "type"))) }

  predicate IsUserType(t: string) { KindOf(Lower(Trim(t))) != Other }

  predicate IsUserInbound(inb: Fields) { IsUserType(InboundType(inb)) }

  /** The non-empty managed tags; with none, every inbound is managed. */
  function TagFilter(managed: seq<string>): set<string> {
    set t | t in managed && t != ""
  }

  predicate IsManaged(inb: Json, filter: set<string>) {
    inb.Obj? && IsUserInbound(inb.fields) &&
    (filter == {} || (Text(inb.fields, "tag").Some? && Text(inb.fields, "tag").value in filter))
  }

  predicate AnyManaged(inbounds: seq<Json>, filter: set<string>) {
    exists k :: 0 <= k < |inbounds| && IsManaged(inbounds[k], filter)
  }

  predicate HasTag(inb: Json, filter: set<string>, tag: string) {
    IsManaged(inb, filter) && Text(inb.fields, "tag") == Some(tag)
  }

  /** The first managed inbound with the tag, or the length of the list. */
  function FirstTagged(inbounds: seq<Json>, filter: set<string>, tag: string): (k: nat)
    ensures k <= |inbounds|
    ensures k < |inbounds| ==> HasTag(inbounds[k], filter, tag)
    ensures forall j :: 0 <= j < k ==> !HasTag(inbounds[j], filter, tag)
  {
    if inbounds == [] || HasTag(inbounds[0], filter, tag) then 0 else 1 + FirstTagged(inbounds[1..], filter, tag)
  }

  function Inbounds(cfg: Fields): seq<Json> {
    match List(cfg, "inbounds") case Some(l) => l case None => []
  }

  function WithInbounds(cfg: Fields, inbounds: seq<Json>): Fields { cfg["inbounds" := Arr(inbounds)] }

  function Users(inb: Fields): seq<Json> {
    match List(inb, "users") case Some(l) => l case None => []
  }

  function WithUsers(inb: Json, users: seq<Json>): Json
    requires inb.Obj?
  {
    Obj(inb.fields["users" := Arr(users)])
  }

  predicate Named(u: Json, name: string) {
    u.Obj? && "name" in u.fields && u.fields["name"] == Str(name)
  }

  predicate HasUser(users: seq<Json>, name: string) {
    exists i :: 0 <= i < |users| && Named(users[i], name)
  }

  function NameOf(u: Json): Option<string> { if u.Obj? then Text(u.fields, "name") else None }

  // ---------- the statistics user list ----------

  /** The panel's own settings that an edit reads. */
  datatype Settings = Settings(managed: seq<string>, statsInbounds: seq<string>, statsOutbounds: seq<string>,
        apiAddr: string)

  /** Whether the statistics list takes names from an inbound: unlike elsewhere, an inbound
      whose tag is not a string passes the filter. */
  predicate InStats(inb: Json, filter: set<string>) {
    inb.Obj? && IsUserInbound(inb.fields) &&
    !(filter != {} && Text(inb.fields, "tag").Some? && Text(inb.fields, "tag").value !in filter)
  }

  function AddName(names: seq<string>, u: Json): seq<string> {
    match NameOf(u)
    case Some(n) => if n != "" && n !in names then names + [n] else names
    case None => names
  }

  function AddNames(names: seq<string>, users: seq<Json>): seq<string> {
    if users == [] then names else AddName(AddNames(names, users[..|users| - 1]), users[|users| - 1])
  }

  function StatsNames(inbounds: seq<Json>, filter: set<string>): seq<string> {
    if inbounds == [] then []
    else
      var names, inb := StatsNames(inbounds[..|inbounds| - 1], filter), inbounds[|inbounds| - 1];
      if InStats(inb, filter) then AddNames(names, Users(inb.fields)) else names
  }

  /** The statistics section: switched on, the panel's non-empty tag lists and the users set. */
  function StatsSection(section: Fields, s: Settings, names: seq<string>): Fields {
    var stats := section["enabled" := Bool(true)];
    var stats1 := if |s.statsInbounds| > 0 then stats["inbounds" := Strings(s.statsInbounds)] else stats;
    var stats2 := if |s.statsOutbounds| > 0 then stats1["outbounds" := Strings(s.statsOutbounds)] else stats1;
    stats2["users" := Strings(names)]
  }

  function ApiSection(v2: Fields, s: Settings, names: seq<string>): Fields {
    var v2' := if "listen" !in v2 || v2["listen"] == Str("") then v2["listen" := Str(s.apiAddr)] else v2;
    v2'["stats" := Obj(StatsSection(Child(v2, "stats"), s, names))]
  }

  /** Rewrites experimental.v2ray_api around the given user list, other fields kept. */
  function WithStats(cfg: Fields, s: Settings, names: seq<string>): Fields {
    var exp := Child(cfg, "experimental");
    cfg["experimental" := Obj(exp["v2ray_api" := Obj(ApiSection(Child(exp, "v2ray_api"), s, names))])]
  }

  function Synced(cfg: Fields, s: Settings): Fields {
    WithStats(cfg, s, StatsNames(Inbounds(cfg), TagFilter(s.managed)))
  }

  function StatsUsers(cfg: Fields): Json {
    var stats := Child(Child(Child(cfg, "experimental"), "v2ray_api"), "stats");
    if "users" in stats then stats["users"] else Null
  }

  lemma WithStatsFacts(cfg: Fields, s: Settings, names: seq<string>)
    ensures StatsUsers(WithStats(cfg, s, names)) == Strings(names)
    ensures Inbounds(WithStats(cfg, s, names)) == Inbounds(cfg)
    ensures forall k :: k in cfg && k != "experimental" ==>
      k in WithStats(cfg, s, names) && WithStats(cfg, s, names)[k] == cfg[k]
  {
    assert "experimental" != "inbounds";
    assert "stats" != "listen";
  }

  lemma StatsSectionElsewhere(stats: Fields, s: Settings, names: seq<string>)
    ensures
      var stats' := StatsSection(stats, s, names);
      stats' - {"enabled", "inbounds", "outbounds", "users"} == stats - {"enabled", "inbounds", "outbounds", "users"} &&
      "enabled" in stats' && stats'["enabled"] == Bool(true) &&
      (s.statsInbounds != [] ==> "inbounds" in stats' && stats'["inbounds"] == Strings(s.statsInbounds)) &&
      (s.statsInbounds == [] ==>
        stats' - {"enabled", "outbounds", "users"} == stats - {"enabled", "outbounds", "users"}) &&
      (s.statsOutbounds != [] ==> "outbounds" in stats' && stats'["outbounds"] == Strings(s.statsOutbounds)) &&
      (s.statsOutbounds == [] ==>
        stats' - {"enabled", "inbounds", "users"} == stats - {"enabled", "inbounds", "users"})
  {
    hide Strings;
    assert "enabled" != "inbounds" && "enabled" != "outbounds" && "enabled" != "users";
    assert "inbounds" != "outbounds" && "inbounds" != "users" && "outbounds" != "users";
  }

  lemma ApiSectionElsewhere(v2: Fields, s: Settings, names: seq<string>)
    ensures
      var v2' := ApiSection(v2, s, names);
      Child(v2', "stats") == StatsSection(Child(v2, "stats"), s, names) &&
      v2' - {"stats", "listen"} == v2 - {"stats", "listen"} &&
      "listen" in v2' &&
      v2'["listen"] == if "listen" in v2 && v2["listen"] != Str("") then v2["listen"] else Str(s.apiAddr)
  {
    hide StatsSection;
    assert "stats" != "listen";
  }

  /** Elsewhere the rewrite only enables statistics, fills in a missing listen address and
      copies the panel's non-empty tag lists. */
  lemma WithStatsElsewhere(cfg: Fields, s: Settings, names: seq<string>)
    ensures
      var exp, exp' := Child(cfg, "experimental"), Child(WithStats(cfg, s, names), "experimental");
      var v2, v2' := Child(exp, "v2ray_api"), Child(exp', "v2ray_api");
      var stats, stats' := Child(v2, "stats"), Child(v2', "stats");
      exp' - {"v2ray_api"} == exp - {"v2ray_api"} &&
      v2' - {"stats", "listen"} == v2 - {"stats", "listen"} &&
      stats' - {"enabled", "inbounds", "outbounds", "users"} == stats - {"enabled", "inbounds", "outbounds", "users"} &&
      "listen" in v2' &&
        v2'["listen"] == (if "listen" in v2 && v2["listen"] != Str("") then v2["listen"] else Str(s.apiAddr)) &&
      "enabled" in stats' && stats'["enabled"] == Bool(true) &&
      (s.statsInbounds != [] ==> "inbounds" in stats' && stats'["inbounds"] == Strings(s.statsInbounds)) &&
      (s.statsInbounds == [] ==>
        stats' - {"enabled", "outbounds", "users"} == stats - {"enabled", "outbounds", "users"}) &&
      (s.statsOutbounds != [] ==> "outbounds" in stats' && stats'["outbounds"] == Strings(s.statsOutbounds)) &&
      (s.statsOutbounds == [] ==>
        stats' - {"enabled", "inbounds", "users"} == stats - {"enabled", "inbounds", "users"})
  {
    hide StatsSection, ApiSection, Strings;
    var v2 := Child(Child(cfg, "experimental"), "v2ray_api");
    ApiSectionElsewhere(v2, s, names);
    StatsSectionElsewhere(Child(v2, "stats"), s, names);
  }

  lemma InStatsObject()
    ensures forall inb, f :: InStats(inb, f) ==> inb.Obj?
  {
  }

  method SyncStatsUsers(cfg: Fields, s: Settings) returns (r: Fields)
    ensures r == Synced(cfg, s)
  {
    hide WithStats, InStats, Users, NameOf, TagFilter;
    InStatsObject();
    var names: seq<string> := [];
    var filter := TagFilter(s.managed);
    var inbounds := Inbounds(cfg);
    for i := 0 to |inbounds|
      invariant names == StatsNames(inbounds[..i], filter)
    {
      assert inbounds[..i + 1][..i] == inbounds[..i];
      if InStats(inbounds[i], filter) {
        var users := Users(inbounds[i].fields);
        ghost var before := names;
        for j := 0 to |users|
          invariant names == AddNames(before, users[..j])
        {
          assert users[..j + 1][..j] == users[..j];
          var n := NameOf(users[j]);
          if n.Some? && n.value != "" && n.value !in names {
            names := names + [n.value];
          }
        }
        assert users[..|users|] == users;
      }
    }
    assert inbounds[..|inbounds|] == inbounds;
    r := WithStats(cfg, s, names);
  }

  // ---------- the edits ----------

  datatype Why =
    | TagRequired | NoManagedInbounds | InboundNotFound | UnsupportedType | UserExists | UserNotFound
    | TagExists | NoInbounds

  /** What an edit callback makes of the decoded configuration. */
  datatype Edit = Edited(cfg: Fields) | Refused(why: Why)

  function NormalizeFlow(flow: string): string {
    if Lower(Trim(flow)) == "none" then "" else Trim(flow)
  }

  /** The credentials of one request. */
  datatype Credentials = Credentials(uuid: string, flow: string, alterId: int)

  function NewUser(kind: Kind, name: string, c: Credentials): Json {
    var base: Fields := map["name" := Str(name)];
    match kind
    case Vless =>
      var flow := NormalizeFlow(c.flow);
      Obj(if flow != "" then base["uuid" := Str(c.uuid)]["flow" := Str(flow)] else base["uuid" := Str(c.uuid)])
    case Vmess =>
      Obj(if c.alterId != 0 then base["uuid" := Str(c.uuid)]["alter_id" := Num(c.alterId as real)]
        else base["uuid" := Str(c.uuid)])
    case _ => Obj(base["password" := Str(c.uuid)])
  }

  function Sanitised(u: Json): Json {
    if u.Obj? then Obj(u.fields - {"security"}) else u
  }

  /** VMess users lose their "security" field whenever their inbound is edited. */
  function Cleaned(kind: Kind, users: seq<Json>): seq<Json> {
    if kind == Vmess then seq(|users|, i requires 0 <= i < |users| => Sanitised(users[i])) else users
  }

  function UserAdded(cfg: Fields, name: string, c: Credentials, tag: string, s: Settings): Edit {
    var filter := TagFilter(s.managed);
    var inbounds := Inbounds(cfg);
    var k := FirstTagged(inbounds, filter, tag);
    if tag == "" then Refused(TagRequired)
    else if !AnyManaged(inbounds, filter) then Refused(NoManagedInbounds)
    else if k == |inbounds| then Refused(InboundNotFound)
    else
      var kind := KindOf(InboundType(inbounds[k].fields));
      var users := Cleaned(kind, Users(inbounds[k].fields));
      if HasUser(users, name) then Refused(UserExists)
      else if kind == Other then Refused(UnsupportedType)
      else
        var inb := WithUsers(inbounds[k], users + [NewUser(kind, name, c)]);
        Edited(Synced(WithInbounds(cfg, inbounds[k := inb]), s))
  }

  function Without(users: seq<Json>, name: string): seq<Json> {
    if users == [] then []
    else
      var rest, u := Without(users[..|users| - 1], name), users[|users| - 1];
      if Named(u, name) then rest else rest + [u]
  }

  /** Which inbounds a removal touches: all managed ones, or those with one tag. */
  predicate Touched(inb: Json, filter: set<string>, only: Option<string>) {
    IsManaged(inb, filter) && (only.None? || TextOr(inb.fields, "tag") == only.value)
  }

  function RemovedFrom(inb: Json, filter: set<string>, only: Option<string>, name: string): Json {
    if Touched(inb, filter, only) then WithUsers(inb, Without(Users(inb.fields), name)) else inb
  }

  function RemovedFromAll(inbounds: seq<Json>, filter: set<string>, only: Option<string>, name: string): seq<Json> {
    seq(|inbounds|, k requires 0 <= k < |inbounds| => RemovedFrom(inbounds[k], filter, only, name))
  }

  predicate IsHeldIn(inbounds: seq<Json>, filter: set<string>, only: Option<string>, name: string) {
    exists k :: 0 <= k < |inbounds| && Touched(inbounds[k], filter, only) && HasUser(Users(inbounds[k].fields), name)
  }

  /** RemoveUser (no tag) succeeds whether or not the user is there; RemoveUserFromInbound
      reports a missing user. */
  function UserRemoved(cfg: Fields, name: string, only: Option<string>, s: Settings): Edit {
    var filter := TagFilter(s.managed);
    var inbounds := Inbounds(cfg);
    if !AnyManaged(inbounds, filter) then Refused(NoManagedInbounds)
    else if only.Some? && !IsHeldIn(inbounds, filter, only, name) then Refused(UserNotFound)
    else Edited(Synced(WithInbounds(cfg, RemovedFromAll(inbounds, filter, only, name)), s))
  }

  /** New credentials for one user; the name stays. */
  function Rekeyed(kind: Kind, u: Fields, c: Credentials): Json {
    match kind
    case Vless =>
      var flow := NormalizeFlow(c.flow);
      Obj(if flow != "" then u["uuid" := Str(c.uuid)]["flow" := Str(flow)] else u["uuid" := Str(c.uuid)] - {"flow"})
    case Vmess => Obj((u["uuid" := Str(c.uuid)] - {"flow", "security"})["alter_id" := Num(c.alterId as real)])
    case Trojan => Obj(u["password" := Str(c.uuid)] - {"flow"})
    case Other => Obj(u)
  }

  /** UpdateUser changes every entry with the name, UpdateUserInInbound the first one. */
  function RekeyedUsers(kind: Kind, users: seq<Json>, name: string, c: Credentials, once: bool): seq<Json> {
    seq(|users|, i requires 0 <= i < |users| =>
      if Named(users[i], name) && !(once && HasUser(users[..i], name)) then Rekeyed(kind, users[i].fields, c)
      else users[i])
  }

  /** UpdateUserInInbound selects by tag, UpdateUser by the type of the inbound named, if any. */
  datatype Scope = ByTag(tag: string) | ByType(inboundType: string)

  predicate InScope(inb: Json, filter: set<string>, scope: Scope) {
    IsManaged(inb, filter) &&
    match scope
    case ByTag(tag) => TextOr(inb.fields, "tag") == tag
    case ByType(t) => t == "" || InboundType(inb.fields) == t
  }

  /** Users are edited where they are: an inbound without a user list does not get one. */
  function RekeyedIn(inb: Json, filter: set<string>, scope: Scope, name: string, c: Credentials): Json {
    if InScope(inb, filter, scope) && List(inb.fields, "users").Some? then
      var kind := KindOf(InboundType(inb.fields));
      WithUsers(inb, RekeyedUsers(kind, Cleaned(kind, Users(inb.fields)), name, c, scope.ByTag?))
    else inb
  }

  function RekeyedInAll(inbounds: seq<Json>, filter: set<string>, scope: Scope, name: string,
        c: Credentials): seq<Json>
  {
    seq(|inbounds|, k requires 0 <= k < |inbounds| => RekeyedIn(inbounds[k], filter, scope, name, c))
  }

  predicate IsInScope(inbounds: seq<Json>, filter: set<string>, scope: Scope, name: string) {
    exists k :: 0 <= k < |inbounds| && InScope(inbounds[k], filter, scope) && HasUser(Users(inbounds[k].fields), name)
  }

  function TypeScope(inbounds: seq<Json>, filter: set<string>, tag: string): Scope {
    var k := FirstTagged(inbounds, filter, tag);
    ByType(if tag != "" && k < |inbounds| then InboundType(inbounds[k].fields) else "")
  }

  /** UpdateUser does not refresh the statistics list, UpdateUserInInbound does. */
  function UserUpdated(cfg: Fields, name: string, c: Credentials, tag: string, everywhere: bool, s: Settings): Edit {
    var filter := TagFilter(s.managed);
    var inbounds := Inbounds(cfg);
    var scope := if everywhere then TypeScope(inbounds, filter, tag) else ByTag(tag);
    if !AnyManaged(inbounds, filter) then Refused(NoManagedInbounds)
    else if !IsInScope(inbounds, filter, scope, name) then Refused(UserNotFound)
    else
      var edited := WithInbounds(cfg, RekeyedInAll(inbounds, filter, scope, name, c));
      Edited(if everywhere then edited else Synced(edited, s))
  }

  // ---------- the edits as written ----------

  /** The positions of the managed inbounds, in order. */
  method FindManagedInbounds(inbounds: seq<Json>, managed: seq<string>) returns (found: seq<nat>)
    ensures forall i, j :: 0 <= i < j < |found| ==> found[i] < found[j]
    ensures forall k :: k in found <==> 0 <= k < |inbounds| && IsManaged(inbounds[k], TagFilter(managed))
  {
    hide IsManaged;
    var filter := TagFilter(managed);
    found := [];
    for k := 0 to |inbounds|
      invariant forall i, j :: 0 <= i < j < |found| ==> found[i] < found[j]
      invariant forall j :: j in found <==> 0 <= j < k && IsManaged(inbounds[j], filter)
    {
      if IsManaged(inbounds[k], filter) {
        assert forall i :: 0 <= i < |found| ==> found[i] in found;
        found := found + [k];
      }
    }
  }

  method AddUser(cfg: Fields, name: string, c: Credentials, tag: string, s: Settings) returns (r: Edit)
    ensures r == UserAdded(cfg, name, c, tag, s)
  {
    hide Synced, NewUser, InboundType, Named, Sanitised;
    if tag == "" { return Refused(TagRequired); }
    var filter := TagFilter(s.managed);
    var inbounds := Inbounds(cfg);
    var managed := FindManagedInbounds(inbounds, s.managed);
    if managed == [] { return Refused(NoManagedInbounds); }
    assert managed[0] in managed;
    var i := FindByTag(inbounds, managed, filter, tag);
    if i == |managed| { return Refused(InboundNotFound); }
    var k := managed[i];
    assert k in managed;
    var kind := KindOf(InboundType(inbounds[k].fields));
    var users := Cleaned(kind, Users(inbounds[k].fields));
    for j := 0 to |users|
      invariant forall m :: 0 <= m < j ==> !Named(users[m], name)
    {
      if Named(users[j], name) { return Refused(UserExists); }
    }
    if kind == Other { return Refused(UnsupportedType); }
    var edited := WithInbounds(cfg, inbounds[k := WithUsers(inbounds[k], users + [NewUser(kind, name, c)])]);
    var synced := SyncStatsUsers(edited, s);
    r := Edited(synced);
  }

  /** One inbound's list with the user filtered out, and whether the user was there. */
  method FilterUsers(users: seq<Json>, name: string) returns (kept: seq<Json>, found: bool)
    ensures kept == Without(users, name)
    ensures found <==> HasUser(users, name)
  {
    hide Named;
    kept, found := [], false;
    for i := 0 to |users|
      invariant kept == Without(users[..i], name)
      invariant found <==> exists j :: 0 <= j < i && Named(users[j], name)
    {
      assert users[..i + 1][..i] == users[..i];
      if Named(users[i], name) { found := true; } else { kept := kept + [users[i]]; }
    }
    assert users[..|users|] == users;
  }

  /** Filters the user out of every touched inbound. */
  method FilterInbounds(inbounds: seq<Json>, managed: seq<nat>, ghost filter: set<string>, only: Option<string>,
        name: string)
      returns (edited: seq<Json>, found: bool)
    requires forall k :: k in managed <==> 0 <= k < |inbounds| && IsManaged(inbounds[k], filter)
    ensures edited == RemovedFromAll(inbounds, filter, only, name)
    ensures found <==> IsHeldIn(inbounds, filter, only, name)
  {
    hide HasUser, Without, IsUserInbound, InboundType;
    edited, found := inbounds, false;
    for i := 0 to |managed|
      invariant |edited| == |inbounds|
      invariant forall k :: 0 <= k < |inbounds| ==>
        edited[k] == if k in managed[..i] then RemovedFrom(inbounds[k], filter, only, name) else inbounds[k]
      invariant found <==>
        exists k ::
          k in managed[..i] && 0 <= k < |inbounds| && Touched(inbounds[k], filter, only) &&
            HasUser(Users(inbounds[k].fields), name)
    {
      var k := managed[i];
      assert k in managed;
      assert managed[..i + 1] == managed[..i] + [k];
      if only.None? || TextOr(inbounds[k].fields, "tag") == only.value {
        var kept, here := FilterUsers(Users(inbounds[k].fields), name);
        edited := edited[k := WithUsers(inbounds[k], kept)];
        found := found || here;
      }
    }
    assert managed[..|managed|] == managed;
  }

  method RemoveUser(cfg: Fields, name: string, only: Option<string>, s: Settings) returns (r: Edit)
    ensures r == UserRemoved(cfg, name, only, s)
  {
    hide Synced, IsManaged, IsHeldIn;
    var inbounds := Inbounds(cfg);
    var managed := FindManagedInbounds(inbounds, s.managed);
    if managed == [] { return Refused(NoManagedInbounds); }
    assert managed[0] in managed;
    var edited, found := FilterInbounds(inbounds, managed, TagFilter(s.managed), only, name);
    if only.Some? && !found { return Refused(UserNotFound); }
    var synced := SyncStatsUsers(WithInbounds(cfg, edited), s);
    r := Edited(synced);
  }

  /** The position in `managed` of the first inbound with the tag. */
  method FindByTag(inbounds: seq<Json>, managed: seq<nat>, ghost filter: set<string>, tag: string) returns (i: nat)
    requires forall i, j :: 0 <= i < j < |managed| ==> managed[i] < managed[j]
    requires forall k :: k in managed <==> 0 <= k < |inbounds| && IsManaged(inbounds[k], filter)
    ensures i <= |managed|
    ensures FirstTagged(inbounds, filter, tag) == if i < |managed| then managed[i] else |inbounds|
  {
    hide IsUserInbound;
    i := 0;
    assert forall j :: 0 <= j < |managed| ==> managed[j] in managed;
    while i < |managed| && Text(inbounds[managed[i]].fields, "tag") != Some(tag)
      invariant 0 <= i <= |managed|
      invariant forall j :: 0 <= j < i ==> !HasTag(inbounds[managed[j]], filter, tag)
    {
      i := i + 1;
    }
    ghost var first := FirstTagged(inbounds, filter, tag);
    assert first < |inbounds| ==> first in managed;
    assert i < |managed| ==> HasTag(inbounds[managed[i]], filter, tag);
  }

  /** One inbound's users with new credentials, and whether the user was there. */
  method RekeyUsers(kind: Kind, users: seq<Json>, name: string, c: Credentials, once: bool)
      returns (r: seq<Json>, found: bool)
    ensures r == RekeyedUsers(kind, users, name, c, once)
    ensures found <==> HasUser(users, name)
  {
    hide Rekeyed;
    r, found := users, false;
    for i := 0 to |users|
      invariant |r| == |users| && r[i..] == users[i..]
      invariant r[..i] == RekeyedUsers(kind, users, name, c, once)[..i]
      invariant found <==> HasUser(users[..i], name)
    {
      ghost var before := r;
      assert r[i] == users[i] by { assert r[i..][0] == users[i..][0]; }
      if Named(users[i], name) {
        assert users[..i + 1][i] == users[i];
        if !(once && found) { r := r[i := Rekeyed(kind, users[i].fields, c)]; }
        found := true;
      } else {
        assert forall j :: 0 <= j < i ==> users[..i + 1][j] == users[..i][j];
      }
      assert r[..i + 1] == before[..i] + [r[i]];
      assert r[i + 1..] == before[i..][1..];
    }
    assert users[..|users|] == users && r[..|users|] == r;
  }

  /** Gives the user new credentials in every inbound in scope. */
  method RekeyInbounds(inbounds: seq<Json>, managed: seq<nat>, ghost filter: set<string>, scope: Scope, name: string,
        c: Credentials)
      returns (edited: seq<Json>, found: bool)
    requires forall k :: k in managed <==> 0 <= k < |inbounds| && IsManaged(inbounds[k], filter)
    ensures edited == RekeyedInAll(inbounds, filter, scope, name, c)
    ensures found <==> IsInScope(inbounds, filter, scope, name)
  {
    hide HasUser, RekeyedUsers, IsUserInbound, InboundType, Cleaned, KindOf;
    edited, found := inbounds, false;
    for i := 0 to |managed|
      invariant |edited| == |inbounds|
      invariant forall k :: 0 <= k < |inbounds| ==>
        edited[k] == if k in managed[..i] then RekeyedIn(inbounds[k], filter, scope, name, c) else inbounds[k]
      invariant found <==>
        exists k ::
          k in managed[..i] && 0 <= k < |inbounds| && InScope(inbounds[k], filter, scope) &&
            HasUser(Users(inbounds[k].fields), name)
    {
      var k := managed[i];
      assert k in managed;
      assert managed[..i + 1] == managed[..i] + [k];
      var inb := inbounds[k].fields;
      if (scope.ByTag? && TextOr(inb, "tag") == scope.tag) ||
        (scope.ByType? && (scope.inboundType == "" || InboundType(inb) == scope.inboundType)) {
        var kind := KindOf(InboundType(inb));
        var rekeyed, here := RekeyUsers(kind, Cleaned(kind, Users(inb)), name, c, scope.ByTag?);
        CleaningKeepsNames(kind, Users(inb), name);
        if List(inb, "users").Some? { edited := edited[k := WithUsers(inbounds[k], rekeyed)]; }
        found := found || here;
      }
    }
    assert managed[..|managed|] == managed;
  }

  method UpdateUser(cfg: Fields, name: string, c: Credentials, tag: string, everywhere: bool, s: Settings)
      returns (r: Edit)
    ensures r == UserUpdated(cfg, name, c, tag, everywhere, s)
  {
    hide Synced, IsUserInbound, InboundType, IsInScope;
    var filter := TagFilter(s.managed);
    var inbounds := Inbounds(cfg);
    var managed := FindManagedInbounds(inbounds, s.managed);
    if managed == [] { return Refused(NoManagedInbounds); }
    assert managed[0] in managed;
    var scope := ByTag(tag);
    if everywhere {
      scope := ByType("");
      if tag != "" {
        var i := FindByTag(inbounds, managed, filter, tag);
        assert i < |managed| ==> managed[i] in managed;
        if i < |managed| { scope := ByType(InboundType(inbounds[managed[i]].fields)); }
      }
    }
    var edited, found := RekeyInbounds(inbounds, managed, filter, scope, name, c);
    if !found { return Refused(UserNotFound); }
    var result := WithInbounds(cfg, edited);
    if !everywhere { result := SyncStatsUsers(result, s); }
    r := Edited(result);
  }

  lemma CleaningKeepsNames(kind: Kind, users: seq<Json>, name: string)
    ensures HasUser(Cleaned(kind, users), name) <==> HasUser(users, name)
  {
    forall i | 0 <= i < |users| ensures Named(Cleaned(kind, users)[i], name) <==> Named(users[i], name) {
      assert "name" != "security";
    }
    assert HasUser(users, name) ==> exists i :: 0 <= i < |users| && Named(Cleaned(kind, users)[i], name);
    assert HasUser(Cleaned(kind, users), name) ==> exists i :: 0 <= i < |users| && Named(users[i], name);
  }
}
