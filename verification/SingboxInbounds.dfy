/** Inbounds of a sing-box configuration: port collisions, edits by tag, and the two tag lists
    the panel keeps beside the configuration. */
module SingboxInbounds {
  import opened Common
  import opened Json
  import opened SingboxUsers

  // ---------- ports ----------

  function Port(inb: Json): Option<int> {
    if inb.Obj? && "listen_port" in inb.fields && inb.fields["listen_port"].Num?
    then Some(Truncate(inb.fields["listen_port"].n)) else None
  }

  predicate DistinctPorts(inbounds: seq<Json>) {
    forall i, j :: 0 <= i < j < |inbounds| && Port(inbounds[i]).Some? ==> Port(inbounds[i]) != Port(inbounds[j])
  }

  datatype Clash = Clash(port: int, heldBy: string)

  /** Reports the first inbound whose port an earlier one holds, with that one's tag. */
  method DetectPortCollision(cfg: Fields) returns (clash: Option<Clash>)
    ensures clash.None? <==> DistinctPorts(Inbounds(cfg))
    ensures clash.Some? ==>
      exists i, j :: 0 <= i < j < |Inbounds(cfg)| && DistinctPorts(Inbounds(cfg)[..j]) &&
        Port(Inbounds(cfg)[i]) == Port(Inbounds(cfg)[j]) == Some(clash.value.port) &&
          TagOf(Inbounds(cfg)[i]) == Some(clash.value.heldBy)
  {
    hide Port;
    var inbounds := Inbounds(cfg);
    var usedPorts: map<int, string> := map[];
    for j := 0 to |inbounds|
      invariant DistinctPorts(inbounds[..j])
      invariant forall i :: 0 <= i < j && Port(inbounds[i]).Some? ==> Port(inbounds[i]).value in usedPorts
      invariant forall p :: p in usedPorts ==>
        exists i :: 0 <= i < j && Port(inbounds[i]) == Some(p) && TagOf(inbounds[i]) == Some(usedPorts[p])
    {
      PortMeansObject(inbounds[j]);
      if Port(inbounds[j]).Some? {
        var p := Port(inbounds[j]).value;
        if p in usedPorts { return Some(Clash(p, usedPorts[p])); }
        usedPorts := usedPorts[p := TextOr(inbounds[j].fields, "tag")];
      }
    }
    assert inbounds[..|inbounds|] == inbounds;
    clash := None;
  }

  lemma PortMeansObject(inb: Json)
    ensures Port(inb).Some? ==> inb.Obj?
  {
  }

  // ---------- edits by tag ----------

  /** A missing or non-string tag reads as the empty tag. */
  function TagOf(inb: Json): Option<string> {
    if inb.Obj? then Some(TextOr(inb.fields, "tag")) else None
  }

  function FirstWith(inbounds: seq<Json>, tag: string): (k: nat)
    ensures k <= |inbounds|
    ensures k < |inbounds| ==> TagOf(inbounds[k]) == Some(tag)
    ensures forall j :: 0 <= j < k ==> TagOf(inbounds[j]) != Some(tag)
  {
    if inbounds == [] || TagOf(inbounds[0]) == Some(tag) then 0 else 1 + FirstWith(inbounds[1..], tag)
  }

  function WithoutTag(inbounds: seq<Json>, tag: string): seq<Json> {
    if inbounds == [] then []
    else
      var rest, inb := WithoutTag(inbounds[..|inbounds| - 1], tag), inbounds[|inbounds| - 1];
      if TagOf(inb) == Some(tag) then rest else rest + [inb]
  }

  lemma {:induction false} WithoutTagIs(inbounds: seq<Json>, tag: string, inb: Json)
    ensures inb in WithoutTag(inbounds, tag) <==> inb in inbounds && TagOf(inb) != Some(tag)
  {
    hide TagOf;
    if inbounds != [] {
      var init, last := inbounds[..|inbounds| - 1], inbounds[|inbounds| - 1];
      WithoutTagIs(init, tag, inb);
      assert inbounds == init + [last];
    }
  }

  /** Exactly the inbounds with another tag stay, in their order. */
  lemma {:induction false} WithoutTagFiltered(inbounds: seq<Json>, tag: string)
    ensures Filtered(WithoutTag(inbounds, tag), inbounds, (x: Json) => TagOf(x) != Some(tag))
  {
    hide TagOf;
    if inbounds == [] {
      NothingFiltered((x: Json) => TagOf(x) != Some(tag));
    } else {
      var init, last := inbounds[..|inbounds| - 1], inbounds[|inbounds| - 1];
      WithoutTagFiltered(init, tag);
      FilteredOne(WithoutTag(init, tag), init, (x: Json) => TagOf(x) != Some(tag), last);
      assert init + [last] == inbounds;
    }
  }

  /** An edit sets the list of inbounds and leaves every other key of the configuration. */
  lemma OnlyInbounds(cfg: Fields, inbounds: seq<Json>)
    ensures Inbounds(WithInbounds(cfg, inbounds)) == inbounds
    ensures WithInbounds(cfg, inbounds) - {"inbounds"} == cfg - {"inbounds"}
  {
  }

  function InboundAdded(cfg: Fields, inb: Fields): Edit {
    var tag := TextOr(inb, "tag");
    if tag != "" && FirstWith(Inbounds(cfg), tag) < |Inbounds(cfg)| then Refused(TagExists)
    else Edited(WithInbounds(cfg, Inbounds(cfg) + [Obj(inb)]))
  }

  function InboundUpdated(cfg: Fields, tag: string, inb: Fields): Edit {
    var k := FirstWith(Inbounds(cfg), tag);
    if List(cfg, "inbounds").None? then Refused(NoInbounds)
    else if k == |Inbounds(cfg)| then Refused(InboundNotFound)
    else Edited(WithInbounds(cfg, Inbounds(cfg)[k := Obj(inb)]))
  }

  /** A configuration without an inbound list is left as it is, without an error. */
  function InboundDeleted(cfg: Fields, tag: string): Edit {
    if List(cfg, "inbounds").None? then Edited(cfg)
    else if FirstWith(Inbounds(cfg), tag) == |Inbounds(cfg)| then Refused(InboundNotFound)
    else Edited(WithInbounds(cfg, WithoutTag(Inbounds(cfg), tag)))
  }

  function TagsIn(inbounds: seq<Json>): set<string> {
    set x | x in inbounds && TagOf(x).Some? :: TagOf(x).value
  }

  lemma AddedUnlessTaken(cfg: Fields, inb: Fields)
    ensures InboundAdded(cfg, inb).Edited? <==>
      (TextOr(inb, "tag") == "" || TextOr(inb, "tag") !in TagsIn(Inbounds(cfg)))
  {
    hide TagOf, TextOr;
    var inbounds, tag := Inbounds(cfg), TextOr(inb, "tag");
    var k := FirstWith(inbounds, tag);
    assert k < |inbounds| ==> inbounds[k] in inbounds;
    if tag in TagsIn(inbounds) {
      var x :| x in inbounds && TagOf(x) == Some(tag);
      var j :| 0 <= j < |inbounds| && inbounds[j] == x;
      assert TagOf(inbounds[j]) == Some(tag);
    }
  }

  /** Inbound k is the first with the tag. */
  predicate FirstTag(inbounds: seq<Json>, tag: string, k: int) {
    0 <= k < |inbounds| && TagOf(inbounds[k]) == Some(tag) && forall j :: 0 <= j < k ==> TagOf(inbounds[j]) != Some(tag)
  }

  lemma UpdatedFirst(cfg: Fields, tag: string, inb: Fields)
    ensures InboundUpdated(cfg, tag, inb).Edited? <==> exists x :: x in Inbounds(cfg) && TagOf(x) == Some(tag)
    ensures InboundUpdated(cfg, tag, inb).Edited? ==>
      var after := InboundUpdated(cfg, tag, inb).cfg;
      && after - {"inbounds"} == cfg - {"inbounds"} && |Inbounds(after)| == |Inbounds(cfg)|
      && forall k :: 0 <= k < |Inbounds(cfg)| ==>
           Inbounds(after)[k] == if FirstTag(Inbounds(cfg), tag, k) then Obj(inb) else Inbounds(cfg)[k]
  {
    hide TagOf, WithInbounds;
    var k := FirstWith(Inbounds(cfg), tag);
    if k < |Inbounds(cfg)| {
      OnlyInbounds(cfg, Inbounds(cfg)[k := Obj(inb)]);
      assert Inbounds(cfg)[k] in Inbounds(cfg);
    }
  }

  lemma DeletedFiltered(cfg: Fields, tag: string)
    ensures InboundDeleted(cfg, tag).Edited? <==>
      List(cfg, "inbounds").None? || exists x :: x in Inbounds(cfg) && TagOf(x) == Some(tag)
    ensures InboundDeleted(cfg, tag).Edited? ==>
      var after := InboundDeleted(cfg, tag).cfg;
      && after - {"inbounds"} == cfg - {"inbounds"}
      && Filtered(Inbounds(after), Inbounds(cfg), (x: Json) => TagOf(x) != Some(tag))
  {
    hide TagOf, WithInbounds, Filtered;
    OnlyInbounds(cfg, WithoutTag(Inbounds(cfg), tag));
    WithoutTagFiltered(Inbounds(cfg), tag);
    var k := FirstWith(Inbounds(cfg), tag);
    assert k < |Inbounds(cfg)| ==> Inbounds(cfg)[k] in Inbounds(cfg);
  }

  method AddInbound(cfg: Fields, inb: Fields) returns (r: Edit)
    ensures r == InboundAdded(cfg, inb)
    ensures r.Edited? <==> (TextOr(inb, "tag") == "" || TextOr(inb, "tag") !in TagsIn(Inbounds(cfg)))
    ensures r.Edited? ==>
      Inbounds(r.cfg) == Inbounds(cfg) + [Obj(inb)] && r.cfg - {"inbounds"} == cfg - {"inbounds"}
  {
    hide TagOf, WithInbounds;
    OnlyInbounds(cfg, Inbounds(cfg) + [Obj(inb)]);
    AddedUnlessTaken(cfg, inb);
    var inbounds, tag := Inbounds(cfg), TextOr(inb, "tag");
    if tag != "" {
      for k := 0 to |inbounds|
        invariant forall j :: 0 <= j < k ==> TagOf(inbounds[j]) != Some(tag)
      {
        if TagOf(inbounds[k]) == Some(tag) { return Refused(TagExists); }
      }
    }
    r := Edited(WithInbounds(cfg, inbounds + [Obj(inb)]));
  }

  method UpdateInbound(cfg: Fields, tag: string, inb: Fields) returns (r: Edit)
    ensures r == InboundUpdated(cfg, tag, inb)
    ensures r.Edited? <==> exists x :: x in Inbounds(cfg) && TagOf(x) == Some(tag)
    ensures r.Edited? ==> r.cfg - {"inbounds"} == cfg - {"inbounds"} && |Inbounds(r.cfg)| == |Inbounds(cfg)|
    ensures r.Edited? ==> forall k :: 0 <= k < |Inbounds(cfg)| ==>
      Inbounds(r.cfg)[k] == if FirstTag(Inbounds(cfg), tag, k) then Obj(inb) else Inbounds(cfg)[k]
  {
    hide TagOf, WithInbounds;
    UpdatedFirst(cfg, tag, inb);
    if List(cfg, "inbounds").None? { return Refused(NoInbounds); }
    var inbounds := Inbounds(cfg);
    for k := 0 to |inbounds|
      invariant forall j :: 0 <= j < k ==> TagOf(inbounds[j]) != Some(tag)
    {
      if TagOf(inbounds[k]) == Some(tag) {
        return Edited(WithInbounds(cfg, inbounds[k := Obj(inb)]));
      }
    }
    r := Refused(InboundNotFound);
  }

  method DeleteInbound(cfg: Fields, tag: string) returns (r: Edit)
    ensures r == InboundDeleted(cfg, tag)
    ensures r.Edited? <==> List(cfg, "inbounds").None? || exists x :: x in Inbounds(cfg) && TagOf(x) == Some(tag)
    ensures r.Edited? ==>
      && r.cfg - {"inbounds"} == cfg - {"inbounds"}
      && Filtered(Inbounds(r.cfg), Inbounds(cfg), (x: Json) => TagOf(x) != Some(tag))
  {
    hide TagOf, WithInbounds, Filtered;
    DeletedFiltered(cfg, tag);
    if List(cfg, "inbounds").None? { return Edited(cfg); }
    var inbounds := Inbounds(cfg);
    var kept: seq<Json>, found := [], false;
    for k := 0 to |inbounds|
      invariant kept == WithoutTag(inbounds[..k], tag)
      invariant found <==> exists j :: 0 <= j < k && TagOf(inbounds[j]) == Some(tag)
    {
      assert inbounds[..k + 1][..k] == inbounds[..k];
      if TagOf(inbounds[k]) == Some(tag) { found := true; } else { kept := kept + [inbounds[k]]; }
    }
    assert inbounds[..|inbounds|] == inbounds;
    if !found { return Refused(InboundNotFound); }
    r := Edited(WithInbounds(cfg, kept));
  }

  // ---------- the tag lists ----------

  /** Inbounds the panel adds to its lists by itself: a tag, and one of the types exactly. */
  predicate IsDiscoverable(inb: Json) {
    inb.Obj? && TextOr(inb.fields, "tag") != "" && KindOf(TextOr(inb.fields, "type")) != Other
  }

  function Discover(list: seq<string>, inb: Json): seq<string> {
    if IsDiscoverable(inb) && TextOr(inb.fields, "tag") !in list then list + [TextOr(inb.fields, "tag")] else list
  }

  /** The list with every discoverable tag it lacks appended. */
  function Discovered(list: seq<string>, inbounds: seq<Json>): (r: seq<string>)
    ensures list <= r
    ensures forall inb :: inb in inbounds && IsDiscoverable(inb) ==> TextOr(inb.fields, "tag") in r
    ensures forall t :: t in r ==>
      t in list || exists inb :: inb in inbounds && IsDiscoverable(inb) && TextOr(inb.fields, "tag") == t
    ensures forall i, j :: |list| <= i < |r| && 0 <= j < i ==> r[j] != r[i]
  {
    if inbounds == [] then list
    else
      var init, inb := inbounds[..|inbounds| - 1], inbounds[|inbounds| - 1];
      assert inbounds == init + [inb];
      Discover(Discovered(list, init), inb)
  }

  predicate InList(inb: Json, list: seq<string>) {
    IsDiscoverable(inb) ==> TextOr(inb.fields, "tag") in list
  }

  method SyncLists(inbounds: seq<Json>, managed: seq<string>, stats: seq<string>)
      returns (managed': seq<string>, stats': seq<string>, changed: bool)
    ensures managed' == Discovered(managed, inbounds) && stats' == Discovered(stats, inbounds)
    ensures changed <==> managed' != managed || stats' != stats
  {
    hide IsDiscoverable;
    managed', stats', changed := managed, stats, false;
    for k := 0 to |inbounds|
      invariant managed' == Discovered(managed, inbounds[..k])
      invariant stats' == Discovered(stats, inbounds[..k])
      invariant changed <==> |managed'| > |managed| || |stats'| > |stats|
    {
      assert inbounds[..k + 1][..k] == inbounds[..k];
      DiscoverableIsObject(inbounds[k]);
      if IsDiscoverable(inbounds[k]) {
        var tag := TextOr(inbounds[k].fields, "tag");
        if tag !in managed' { managed', changed := managed' + [tag], true; }
        if tag !in stats' { stats', changed := stats' + [tag], true; }
      }
    }
    assert inbounds[..|inbounds|] == inbounds;
  }

  lemma DiscoverableIsObject(inb: Json)
    ensures IsDiscoverable(inb) ==> inb.Obj?
  {
  }

  /** The list with the first occurrence of a tag replaced. */
  function Renamed(list: seq<string>, from: string, to: string): seq<string> {
    if list == [] then []
    else if list[0] == from then [to] + list[1..]
    else [list[0]] + Renamed(list[1..], from, to)
  }

  lemma {:induction false} RenamedAt(list: seq<string>, from: string, to: string, i: nat)
    requires i <= |list| && from !in list[..i]
    ensures i < |list| && list[i] == from ==> Renamed(list, from, to) == list[i := to]
    ensures i == |list| ==> Renamed(list, from, to) == list
  {
    if i > 0 {
      assert list[..i][0] == list[0];
      assert list[..i][1..] == list[1..][..i - 1];
      RenamedAt(list[1..], from, to, i - 1);
    }
  }

  method RenameInList(list: seq<string>, from: string, to: string) returns (r: seq<string>, changed: bool)
    ensures r == Renamed(list, from, to)
    ensures changed <==> from in list
    ensures |r| == |list| && forall i :: 0 <= i < |list| ==>
      r[i] == if list[i] == from && from !in list[..i] then to else list[i]
  {
    hide Renamed;
    for i := 0 to |list|
      invariant from !in list[..i]
    {
      if list[i] == from {
        RenamedAt(list, from, to, i);
        return list[i := to], true;
      }
      assert list[..i + 1] == list[..i] + [list[i]];
    }
    assert list[..|list|] == list;
    RenamedAt(list, from, to, |list|);
    r, changed := list, false;
  }

  function Dropped(list: seq<string>, tag: string): (r: seq<string>)
    ensures forall t :: t in r <==> t in list && t != tag
  {
    if list == [] then []
    else
      var rest, t := Dropped(list[..|list| - 1], tag), list[|list| - 1];
      assert list == list[..|list| - 1] + [t];
      if t == tag then rest else rest + [t]
  }

  lemma {:induction false} DroppedFiltered(list: seq<string>, tag: string)
    ensures Filtered(Dropped(list, tag), list, (t: string) => t != tag)
  {
    if list == [] {
      NothingFiltered((t: string) => t != tag);
    } else {
      var init, t := list[..|list| - 1], list[|list| - 1];
      DroppedFiltered(init, tag);
      FilteredOne(Dropped(init, tag), init, (x: string) => x != tag, t);
      assert init + [t] == list;
    }
  }

  method DropFromList(list: seq<string>, tag: string) returns (r: seq<string>, changed: bool)
    ensures r == Dropped(list, tag)
    ensures Filtered(r, list, (t: string) => t != tag)
    ensures changed <==> tag in list
  {
    r, changed := [], false;
    for i := 0 to |list|
      invariant r == Dropped(list[..i], tag)
      invariant changed <==> tag in list[..i]
    {
      assert list[..i + 1][..i] == list[..i];
      if list[i] != tag { r := r + [list[i]]; } else { changed := true; }
    }
    assert list[..|list|] == list;
    DroppedFiltered(list, tag);
  }
}
