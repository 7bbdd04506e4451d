/** The stored sing-box configuration with the panel's tag lists beside it: every edit reads,
    modifies, validates and writes; some then bring the lists up to date. */
module Panel {
  import opened Common
  import opened Json
  import opened SingboxUsers
  import opened SingboxInbounds

  datatype State = State(stored: Fields, managed: seq<string>, statsInbounds: seq<string>, pending: bool)

  /** Settings no operation changes. */
  datatype Setup = Setup(enabled: bool, statsOutbounds: seq<string>, apiAddr: string)

  datatype Op =
    | AddInboundOp(inb: Fields)
    | UpdateInboundOp(tag: string, inb: Fields)
    | DeleteInboundOp(tag: string)
    | AddUserOp(name: string, c: Credentials, tag: string)
    | RemoveUserOp(name: string, only: Option<string>)
    | UpdateUserOp(name: string, c: Credentials, tag: string, everywhere: bool)

  /** What the outside world answers during one operation: whether the configuration could be
      read and decoded, the checker accepted it, it could be written, the panel's own settings
      could be saved, and the configuration could be read back. */
  datatype World = World(readable: bool, checkPasses: bool, writable: bool, listsSaved: bool, rereadable: bool)

  /** Rejected: nothing was written. Unsynced: written, but an error followed. */
  datatype Reply = Rejected | Unsynced | Done

  function SettingsOf(setup: Setup, st: State): Settings {
    Settings(st.managed, st.statsInbounds, setup.statsOutbounds, setup.apiAddr)
  }

  function EditOf(setup: Setup, st: State, op: Op): Edit {
    match op
    case AddInboundOp(inb) => InboundAdded(st.stored, inb)
    case UpdateInboundOp(tag, inb) => InboundUpdated(st.stored, tag, inb)
    case DeleteInboundOp(tag) => InboundDeleted(st.stored, tag)
    case AddUserOp(name, c, tag) => UserAdded(st.stored, name, c, tag, SettingsOf(setup, st))
    case RemoveUserOp(name, only) => UserRemoved(st.stored, name, only, SettingsOf(setup, st))
    case UpdateUserOp(name, c, tag, everywhere) =>
      UserUpdated(st.stored, name, c, tag, everywhere, SettingsOf(setup, st))
  }

  predicate Accepted(setup: Setup, edit: Edit, w: World) {
    w.readable && edit.Edited? &&
    (setup.enabled ==> DistinctPorts(Inbounds(edit.cfg)) && w.checkPasses) &&
    w.writable
  }

  function SyncedLists(st: State, w: World): (State, Reply) {
    var inbounds := Inbounds(st.stored);
    if !w.rereadable then (st, Unsynced)
    else
      var managed, stats := Discovered(st.managed, inbounds), Discovered(st.statsInbounds, inbounds);
      var changed := managed != st.managed || stats != st.statsInbounds;
      (st.(managed := managed, statsInbounds := stats), if changed && !w.listsSaved then Unsynced else Done)
  }

  predicate Renames(tag: string, inb: Fields) { TextOr(inb, "tag") != "" && TextOr(inb, "tag") != tag }

  function RenamedLists(st: State, from: string, to: string): State {
    st.(managed := Renamed(st.managed, from, to), statsInbounds := Renamed(st.statsInbounds, from, to))
  }

  function DroppedLists(st: State, tag: string): State {
    st.(managed := Dropped(st.managed, tag), statsInbounds := Dropped(st.statsInbounds, tag))
  }

  predicate Lists(st: State, tag: string) { tag in st.managed || tag in st.statsInbounds }

  /** What follows a committed edit. */
  function FollowUp(st: State, op: Op, w: World): (State, Reply) {
    match op
    case AddInboundOp(_) => SyncedLists(st, w)
    case UpdateInboundOp(tag, inb) =>
      if Renames(tag, inb) then
        var renamed := RenamedLists(st, tag, TextOr(inb, "tag"));
        if Lists(st, tag) && !w.listsSaved then (renamed, Unsynced) else SyncedLists(renamed, w)
      else SyncedLists(st, w)
    case DeleteInboundOp(tag) =>
      (DroppedLists(st, tag), if Lists(st, tag) && !w.listsSaved then Unsynced else Done)
    case _ => (st, Done)
  }

  function Step(setup: Setup, st: State, op: Op, w: World): (State, Reply) {
    var edit := EditOf(setup, st, op);
    if Accepted(setup, edit, w) then FollowUp(st.(stored := edit.cfg, pending := true), op, w) else (st, Rejected)
  }

  class Config {
    const setup: Setup
    var stored: Fields
    var managed: seq<string>
    var statsInbounds: seq<string>
    var pending: bool

    constructor (setup: Setup, stored: Fields, managed: seq<string>, statsInbounds: seq<string>)
      ensures this.setup == setup && Value() == State(stored, managed, statsInbounds, false)
    {
      this.setup, this.stored, this.managed, this.statsInbounds, this.pending :=
        setup, stored, managed, statsInbounds, false;
    }

    function Value(): State
      reads this
    {
      State(stored, managed, statsInbounds, pending)
    }

    /** ModifySingboxConfig, after the callback: validate, write, mark as pending. */
    method Commit(edit: Edit, w: World) returns (ok: bool)
      modifies `stored, `pending
      ensures ok <==> Accepted(setup, edit, w)
      ensures Value() == if ok then old(Value()).(stored := edit.cfg, pending := true) else old(Value())
    {
      ok := false;
      if !w.readable || edit.Refused? { return; }
      if setup.enabled {
        var clash := DetectPortCollision(edit.cfg);
        if clash.Some? || !w.checkPasses { return; }
      }
      if !w.writable { return; }
      stored, pending, ok := edit.cfg, true, true;
    }

    method SyncInboundsFromSingbox(w: World) returns (reply: Reply)
      modifies `managed, `statsInbounds
      ensures (Value(), reply) == SyncedLists(old(Value()), w)
    {
      if !w.rereadable { return Unsynced; }
      var changed;
      managed, statsInbounds, changed := SyncLists(Inbounds(stored), managed, statsInbounds);
      reply := if changed && !w.listsSaved then Unsynced else Done;
    }

    method RenameInboundInLists(from: string, to: string, w: World) returns (ok: bool)
      modifies `managed, `statsInbounds
      ensures Value() == RenamedLists(old(Value()), from, to)
      ensures ok <==> !Lists(old(Value()), from) || w.listsSaved
    {
      var inManaged, inStats;
      managed, inManaged := RenameInList(managed, from, to);
      statsInbounds, inStats := RenameInList(statsInbounds, from, to);
      ok := !(inManaged || inStats) || w.listsSaved;
    }

    method RemoveInboundFromLists(tag: string, w: World) returns (ok: bool)
      modifies `managed, `statsInbounds
      ensures Value() == DroppedLists(old(Value()), tag)
      ensures ok <==> !Lists(old(Value()), tag) || w.listsSaved
    {
      var inManaged, inStats;
      managed, inManaged := DropFromList(managed, tag);
      statsInbounds, inStats := DropFromList(statsInbounds, tag);
      ok := !(inManaged || inStats) || w.listsSaved;
    }

    method AddSingboxInbound(inb: Fields, w: World) returns (reply: Reply)
      modifies this
      ensures (Value(), reply) == Step(setup, old(Value()), AddInboundOp(inb), w)
    {
      var edit := AddInbound(stored, inb);
      var ok := Commit(edit, w);
      if !ok { return Rejected; }
      reply := SyncInboundsFromSingbox(w);
    }

    method UpdateSingboxInbound(tag: string, inb: Fields, w: World) returns (reply: Reply)
      modifies this
      ensures (Value(), reply) == Step(setup, old(Value()), UpdateInboundOp(tag, inb), w)
    {
      hide Accepted, SyncedLists, RenamedLists, Lists, InboundUpdated;
      var newTag := TextOr(inb, "tag");
      var tagChanged := newTag != "" && newTag != tag;
      var edit := UpdateInbound(stored, tag, inb);
      var ok := Commit(edit, w);
      if !ok { return Rejected; }
      if tagChanged {
        ok := RenameInboundInLists(tag, newTag, w);
        if !ok { return Unsynced; }
      }
      reply := SyncInboundsFromSingbox(w);
    }

    method DeleteSingboxInbound(tag: string, w: World) returns (reply: Reply)
      modifies this
      ensures (Value(), reply) == Step(setup, old(Value()), DeleteInboundOp(tag), w)
    {
      var edit := DeleteInbound(stored, tag);
      var ok := Commit(edit, w);
      if !ok { return Rejected; }
      ok := RemoveInboundFromLists(tag, w);
      reply := if ok then Done else Unsynced;
    }

    method EditUser(op: Op, w: World) returns (reply: Reply)
      requires op.AddUserOp? || op.RemoveUserOp? || op.UpdateUserOp?
      modifies this
      ensures (Value(), reply) == Step(setup, old(Value()), op, w)
    {
      hide UserAdded, UserRemoved, UserUpdated, Accepted;
      var s := SettingsOf(setup, Value());
      var edit;
      match op {
        case AddUserOp(name, c, tag) => edit := AddUser(stored, name, c, tag, s);
        case RemoveUserOp(name, only) => edit := RemoveUser(stored, name, only, s);
        case UpdateUserOp(name, c, tag, everywhere) => edit := UpdateUser(stored, name, c, tag, everywhere, s);
      }
      var ok := Commit(edit, w);
      reply := if ok then Done else Rejected;
    }
  }
}
