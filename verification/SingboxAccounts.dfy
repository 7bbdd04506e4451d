/** The accounts of the active users, merged over all their entries, and how the credentials of
    an edit are read back. */
module SingboxAccounts {
  import opened Ascii
  import opened Common
  import opened Json
  import opened SingboxUsers
  import opened SingboxUserLaws

  datatype Account = Account(uuid: string, flow: string, security: string, alterId: int)

  function AlterId(u: Fields): int {
    if "alter_id" !in u then 0
    else match u["alter_id"]
      case Num(n) => Truncate(n)
      case Str(s) => (match ParseInt(Trim(s)) case Some(n) => n case None => 0)
      case _ => 0
  }

  /** What one entry says.  A VMess user without a uuid is read by its "id"; a Trojan user has a
      password; neither has a flow. */
  function ReadAccount(kind: Kind, u: Fields): Account {
    var uuid := TextOr(u, if kind == Trojan then "password" else "uuid");
    Account(
      if kind == Vmess && uuid == "" then TextOr(u, "id") else uuid,
      if kind == Trojan || kind == Vmess then "" else TextOr(u, "flow"),
      TextOr(u, "security"),
      AlterId(u))
  }

  // ---------- credentials read back ----------

  /** A new user is read back with the credentials it was added with: the flow, normalised, of
      VLESS only and the alter id of VMess only. */
  lemma NewUserReadsBack(kind: Kind, name: string, c: Credentials)
    requires kind != Other
    ensures NewUser(kind, name, c).Obj?
    ensures ReadAccount(kind, NewUser(kind, name, c).fields)
         == Account(
              c.uuid,
              if kind == Vless then NormalizeFlow(c.flow) else "",
              "",
              if kind == Vmess then c.alterId else 0)
  {
    hide NormalizeFlow;
    TruncateWhole(c.alterId);
  }

  /** So is an updated one, except that an empty VMess uuid uncovers an old "id". */
  lemma UpdatedUserReadsBack(kind: Kind, u: Fields, c: Credentials)
    requires kind != Other
    ensures Rekeyed(kind, u, c).Obj?
    ensures ReadAccount(kind, Rekeyed(kind, u, c).fields)
         == Account(
              if kind == Vmess && c.uuid == "" then TextOr(u, "id") else c.uuid,
              if kind == Vless then NormalizeFlow(c.flow) else "",
              if kind == Vmess then "" else TextOr(u, "security"),
              if kind == Vmess then c.alterId else AlterId(u))
  {
    hide NormalizeFlow, ParseInt;
    TruncateWhole(c.alterId);
  }

  lemma TruncateWhole(n: int)
    ensures Truncate(n as real) == n
  {
    assert -(n as real) == (-n) as real;
  }

  // ---------- merging ----------

  /** What a later entry adds to an account: only what is still missing. */
  function Merge(a: Account, e: Account): Account {
    Account(
      if a.uuid != "" then a.uuid else e.uuid,
      if a.flow != "" then a.flow else e.flow,
      if a.security != "" then a.security else e.security,
      if a.alterId != 0 then a.alterId else e.alterId)
  }

  function Merged(es: seq<Account>): Account
    requires es != []
  {
    if |es| == 1 then es[0] else Merge(Merged(es[..|es| - 1]), es[|es| - 1])
  }

  datatype Part = Uuid | Flow | Security

  function Get(a: Account, part: Part): string {
    match part case Uuid => a.uuid case Flow => a.flow case Security => a.security
  }

  /** A merged account has the first non-empty text of each kind among its entries, and the first
      alter id that is not zero. */
  lemma {:induction false} MergedTakesFirst(es: seq<Account>, part: Part)
    requires es != []
    ensures var r := Get(Merged(es), part);
      if r == "" then forall i :: 0 <= i < |es| ==> Get(es[i], part) == ""
      else exists i :: 0 <= i < |es| && Get(es[i], part) == r && forall j :: 0 <= j < i ==> Get(es[j], part) == ""
    ensures var r := Merged(es).alterId;
      if r == 0 then forall i :: 0 <= i < |es| ==> es[i].alterId == 0
      else exists i :: 0 <= i < |es| && es[i].alterId == r && forall j :: 0 <= j < i ==> es[j].alterId == 0
  {
    if |es| > 1 {
      var init := es[..|es| - 1];
      MergedTakesFirst(init, part);
      assert forall i :: 0 <= i < |init| ==> init[i] == es[i];
      assert Get(Merged(es), part) ==
        if Get(Merged(init), part) != "" then Get(Merged(init), part) else Get(es[|init|], part);
    }
  }

  // ---------- GetActiveUsers ----------

  /** The entries of a name in one user list, in order. */
  function EntriesIn(kind: Kind, users: seq<Json>, n: string): seq<Account> {
    if users == [] then []
    else
      var rest, u := EntriesIn(kind, users[..|users| - 1], n), users[|users| - 1];
      if NameOf(u) == Some(n) then rest + [ReadAccount(kind, u.fields)] else rest
  }

  /** The entries of a name in all managed inbounds, in order. */
  function Entries(inbounds: seq<Json>, filter: set<string>, n: string): seq<Account> {
    if inbounds == [] then []
    else
      var rest, inb := Entries(inbounds[..|inbounds| - 1], filter, n), inbounds[|inbounds| - 1];
      if IsManaged(inb, filter) then rest + EntriesIn(KindOf(InboundType(inb.fields)), Users(inb.fields), n) else rest
  }

  datatype ActiveUser = ActiveUser(account: Account, tags: seq<string>)

  /** The accounts are exactly the active names, each with the tags of the inbounds that hold it,
      once, and its entries merged in order. */
  method GetActiveUsers(cfg: Fields, managed: seq<string>) returns (accounts: map<string, ActiveUser>)
    ensures forall n :: n in accounts <==> Active(Inbounds(cfg), TagFilter(managed), n)
    ensures forall n :: n in accounts ==>
      FirstOccurrences(accounts[n].tags, TagsOf(Inbounds(cfg), TagFilter(managed), n))
    ensures forall n :: n in accounts ==>
      Entries(Inbounds(cfg), TagFilter(managed), n) != [] &&
        accounts[n].account == Merged(Entries(Inbounds(cfg), TagFilter(managed), n))
  {
    hide IsActiveInbound, FirstOccurrences, HasUser, Active, IsUserInbound, Merged, EntriesIn;
    accounts := map[];
    var filter := TagFilter(managed);
    var inbounds := Inbounds(cfg);
    for i := 0 to |inbounds|
      invariant Collected(accounts, inbounds[..i], filter)
    {
      assert inbounds[..i + 1][..i] == inbounds[..i];
      ActiveIsManaged(inbounds[i], managed);
      if IsActiveInbound(inbounds[i], filter) {
        accounts := AddAccounts(accounts, inbounds[..i], inbounds[i], filter);
        assert inbounds[..i] + [inbounds[i]] == inbounds[..i + 1];
      } else {
        ghost var seen := inbounds[..i + 1];
        forall n ensures Holds(accounts, n, TagsOf(seen, filter, n), Entries(seen, filter, n)) {
          assert Holds(accounts, n, TagsOf(inbounds[..i], filter, n), Entries(inbounds[..i], filter, n));
        }
      }
    }
    assert inbounds[..|inbounds|] == inbounds;
    forall n ensures n in accounts <==> Active(inbounds, filter, n) {
      assert Holds(accounts, n, TagsOf(inbounds, filter, n), Entries(inbounds, filter, n));
      TagsMeanActive(inbounds, filter, n);
    }
    assert forall n :: Holds(accounts, n, TagsOf(inbounds, filter, n), Entries(inbounds, filter, n));
  }

  ghost predicate Collected(accounts: map<string, ActiveUser>, inbounds: seq<Json>, filter: set<string>) {
    forall n :: Holds(accounts, n, TagsOf(inbounds, filter, n), Entries(inbounds, filter, n))
  }

  ghost predicate Holds(accounts: map<string, ActiveUser>, n: string, tags: seq<string>, es: seq<Account>) {
    && (tags == [] <==> es == [])
    && (n in accounts <==> n != "" && tags != [])
    && (n in accounts ==> FirstOccurrences(accounts[n].tags, tags) && accounts[n].account == Merged(es))
  }

  /** The tags a name has after some users of an inbound with this tag. */
  function TagsWith(tags: seq<string>, users: seq<Json>, tag: string, n: string): seq<string> {
    if HasUser(users, n) then tags + [tag] else tags
  }

  /** The inner loop, over the users of one inbound. */
  method AddAccounts(before: map<string, ActiveUser>, ghost seen: seq<Json>, inb: Json, filter: set<string>)
      returns (accounts: map<string, ActiveUser>)
    requires IsManaged(inb, filter)
    requires Collected(before, seen, filter)
    ensures Collected(accounts, seen + [inb], filter)
  {
    hide FirstOccurrences, IsUserInbound, HasUser, NameOf, Users, TextOr, ReadAccount, Merged, KindOf, InboundType;
    hide Merge, Holds, EntriesIn;
    accounts := before;
    var kind, tag, users := KindOf(InboundType(inb.fields)), TextOr(inb.fields, "tag"), Users(inb.fields);
    NobodyYet(kind);
    forall n ensures HoldsWith(accounts, n, TagsOf(seen, filter, n), Entries(seen, filter, n), kind, users[..0], tag) {
      assert Holds(accounts, n, TagsOf(seen, filter, n), Entries(seen, filter, n));
      assert users[..0] == [] && Entries(seen, filter, n) + [] == Entries(seen, filter, n);
    }
    for j := 0 to |users|
      invariant forall n ::
        HoldsWith(accounts, n, TagsOf(seen, filter, n), Entries(seen, filter, n), kind, users[..j], tag)
    {
      var u := users[j];
      ghost var was := accounts;
      assert users[..j + 1] == users[..j] + [u];
      if NameOf(u).Some? && NameOf(u).value != "" {
        NamedIsObject(u);
        var name, e := NameOf(u).value, ReadAccount(kind, u.fields);
        if name in accounts {
          var held := accounts[name];
          var tags := if tag in held.tags then held.tags else held.tags + [tag];
          accounts := accounts[name := ActiveUser(Merge(held.account, e), tags)];
        } else {
          accounts := accounts[name := ActiveUser(e, [tag])];
        }
      }
      forall n
        ensures HoldsWith(accounts, n, TagsOf(seen, filter, n), Entries(seen, filter, n), kind, users[..j + 1], tag)
      {
        assert HoldsWith(was, n, TagsOf(seen, filter, n), Entries(seen, filter, n), kind, users[..j], tag);
        EntryHeld(was, accounts, n, TagsOf(seen, filter, n), Entries(seen, filter, n), kind, users[..j], u, tag);
      }
    }
    assert users[..|users|] == users;
    forall n
      ensures Holds(accounts, n, TagsOf(seen + [inb], filter, n), Entries(seen + [inb], filter, n))
    {
      assert (seen + [inb])[..|seen|] == seen;
      assert HoldsWith(accounts, n, TagsOf(seen, filter, n), Entries(seen, filter, n), kind, users[..|users|], tag);
    }
  }

  ghost predicate HoldsWith(accounts: map<string, ActiveUser>, n: string, tags: seq<string>, es: seq<Account>,
                            kind: Kind, users: seq<Json>, tag: string) {
    Holds(accounts, n, TagsWith(tags, users, tag, n), es + EntriesIn(kind, users, n))
  }

  lemma NamedIsObject(u: Json)
    ensures NameOf(u).Some? ==> u.Obj?
  {
  }

  lemma NobodyYet(kind: Kind)
    ensures forall n :: !HasUser([], n) && EntriesIn(kind, [], n) == []
  {
  }

  /** One entry more: it is merged into the account of its name and changes no other. */
  lemma EntryHeld(was: map<string, ActiveUser>, now: map<string, ActiveUser>, n: string, tags: seq<string>,
        es: seq<Account>, kind: Kind, users: seq<Json>, u: Json, tag: string)
    requires HoldsWith(was, n, tags, es, kind, users, tag)
    requires n != "" && NameOf(u) == Some(n) ==>
      u.Obj? && n in now && now[n] == Extended(was, n, ReadAccount(kind, u.fields), tag)
    requires n == "" || NameOf(u) != Some(n) ==> (n in now <==> n in was) && (n in now ==> now[n] == was[n])
    ensures HoldsWith(now, n, tags, es, kind, users + [u], tag)
  {
    hide FirstOccurrences, HasUser, ReadAccount, NameOf, Merge;
    HasUserSnoc(users, u, n);
    assert (users + [u])[..|users|] == users;
    NamedIsObject(u);
    if NameOf(u) == Some(n) {
      var more := es + EntriesIn(kind, users, n);
      var e := ReadAccount(kind, u.fields);
      assert es + EntriesIn(kind, users + [u], n) == more + [e];
      assert (more + [e])[..|more|] == more;
      if n != "" {
        HeldOnce(if n in was then was[n].tags else [], tags, HasUser(users, n), tag);
        assert [] + [tag] == [tag];
      }
    }
  }

  function Extended(was: map<string, ActiveUser>, n: string, e: Account, tag: string): ActiveUser {
    if n in was then
      ActiveUser(Merge(was[n].account, e), if tag in was[n].tags then was[n].tags else was[n].tags + [tag])
    else ActiveUser(e, [tag])
  }

  /** Adding the tag once more, or for the first time. */
  lemma HeldOnce(r: seq<string>, tags: seq<string>, already: bool, tag: string)
    requires FirstOccurrences(r, if already then tags + [tag] else tags) || (r == [] && tags == [] && !already)
    ensures FirstOccurrences(if tag in r then r else r + [tag], tags + [tag])
  {
    if already { assert tag in tags + [tag]; } else { FirstOccurrencesStep(r, tags, tag); }
  }
}
