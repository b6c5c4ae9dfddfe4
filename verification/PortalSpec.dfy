/**
  * What each handler of the portal does to its state: the sixteen figure slots, the sixteen menu
  * positions, the disk job and the sixteen HIDv4 sessions.
  */
module PortalSpec {
  import opened Words
  import opened HidSession

  const EMPTY := 255
  const NONE := 0
  const LOAD := 2
  const REMOVE := 3

  const OP_CATALOG := 1
  const OP_LOAD := 2
  const OP_SAVE := 3

  /** `e12_slot`. */
  datatype Slot = Slot(data: Data, id: nat, source: u32, sequence: u32, generation: nat, saved: nat, lastUid: u32,
                       present: bool, occupied: bool, seenUid: bool)

  function EmptySlot(): Slot {
    Slot(Zeros(1024), 0, 0, 0, 0, 0, 0, false, false, false)
  }

  type Slots = s: seq<Slot> | |s| == 16 witness seq(16, _ => EmptySlot())

  /** A menu position: the slot it shows, or 255. */
  type Position = x: int | 0 <= x < 16 || x == EMPTY

  type Positions = s: seq<Position> | |s| == 16 witness seq<Position>(16, _ => EMPTY)

  type Sessions = s: seq<Session> | |s| == 16 witness seq(16, _ => Zeroed())

  /** The buffer and fields a disk operation works on. */
  datatype Job = Job(id: nat, source: u32, sequence: u32, data: Data)

  /** One completed request: its result, or the packet that an interrupt read of a session returned. */
  datatype Ack = Ack(token: nat, result: int) | ReadAck(token: nat, session: SlotIndex, packet: Packet)

  /** The statics of the figure store. */
  datatype Store = Store(
    slots: Slots, ui: Positions, catalog: seq<u32>, count: nat,
    action: nat, actionUi: SlotIndex, outgoing: Position, target: nat, removeTick: u32,
    busy: bool, op: nat, result: int, job: Job, diskSlot: SlotIndex, snapshot: nat,
    error: int, retry: u32, cursor: SlotIndex, flush: bool, autoload: bool,
    view: SlotIndex, page: nat, requestSeq: u32, heartbeat: u32, heartbeatTick: u32)

  /** The whole portal; `log` lists the completed requests in order. */
  datatype Portal = Portal(store: Store, sessions: Sessions, ticks: u32, log: seq<Ack>)

  /** The zeroed statics, with every menu position empty, before the catalogue is submitted. */
  function Fresh(): Portal {
    Portal(Store(seq(16, _ => EmptySlot()), seq<Position>(16, _ => EMPTY), [], 0, NONE, 0, EMPTY, 0, 0,
                 false, 0, 0, Job(0, 0, 0, Zeros(1024)), 0, 0, 0, 0, 0, false, true, 0, 0, 0, 0, 0),
           seq(16, _ => Zeroed()), 0, [])
  }

  function Presence(s: Store): PresenceMap {
    seq(16, i requires 0 <= i < 16 => s.slots[i].present)
  }

  // --------------------------------------------------------------------------
  // Figure store

  predicate IsDirty(s: Slot) {
    s.occupied && s.generation != s.saved
  }

  predicate Owns(s: Slot, id: nat) {
    s.occupied && s.id == id
  }

  /** `e12_dirty`: how many of the first `n` slots have unsaved data. */
  function Dirty(slots: Slots, n: nat): nat
    requires n <= 16
  {
    if n == 0 then 0 else Dirty(slots, n - 1) + if IsDirty(slots[n - 1]) then 1 else 0
  }

  /** The slot owning a catalogue entry, if any. */
  function Owner(slots: Slots, id: nat, n: nat): Option<SlotIndex>
    requires n <= 16
    decreases 16 - n
  {
    if n == 16 then None else if Owns(slots[n], id) then Some(n) else Owner(slots, id, n + 1)
  }

  function SetPresent(s: Store, i: Position, present: bool): Store {
    if i == EMPTY then s else s.(slots := s.slots[i := s.slots[i].(present := present)])
  }

  function Vacate(s: Store, i: Position): Store {
    if i == EMPTY then s else s.(slots := s.slots[i := s.slots[i].(occupied := false)])
  }

  /** The store part of `e12_restore`. */
  function Restored(s: Store, error: int): Store {
    SetPresent(s, s.outgoing, true).(error := error, action := NONE)
  }

  /** The store part of an accepted `e12_begin`. */
  function Taken(s: Store, ui: SlotIndex, id: nat, action: nat, now: u32): Store {
    SetPresent(s, s.ui[ui], false).(outgoing := s.ui[ui], actionUi := ui, target := id, action := action,
      removeTick := now, error := 0)
  }

  /** A slot that a load may use: it is free, or it is the one being replaced. */
  predicate Usable(s: Store, i: SlotIndex) {
    !s.slots[i].occupied || i == s.outgoing
  }

  function FirstUsable(s: Store, n: nat): Option<SlotIndex>
    requires n <= 16
    decreases 16 - n
  {
    if n == 16 then None else if Usable(s, n) then Some(n) else FirstUsable(s, n + 1)
  }

  /** A usable slot that last held the figure with this identity. */
  predicate Remembers(s: Store, i: SlotIndex, uid: u32) {
    Usable(s, i) && s.slots[i].seenUid && s.slots[i].lastUid == uid
  }

  function FormerSlot(s: Store, uid: u32, n: nat): Option<SlotIndex>
    requires n <= 16
    decreases 16 - n
  {
    if n == 16 then None else if Remembers(s, n, uid) then Some(n) else FormerSlot(s, uid, n + 1)
  }

  /** Another figure on the portal has this identity. */
  predicate UidTaken(s: Store, uid: u32) {
    exists i: SlotIndex :: !Usable(s, i) && s.slots[i].lastUid == uid
  }

  function Destination(s: Store, uid: u32): Option<SlotIndex> {
    if FormerSlot(s, uid, 0).Some? then FormerSlot(s, uid, 0) else FirstUsable(s, 0)
  }

  function Uid(data: Data): u32 {
    Be32(data, 0)
  }

  /** The store after a loaded figure lands in a slot. */
  function Placed(s: Store, slot: SlotIndex): Store {
    var t := Vacate(s, s.outgoing);
    var arrived := Slot(s.job.data, s.job.id, s.job.source, s.job.sequence, 0, 0, Uid(s.job.data), true, true, true);
    t.(slots := t.slots[slot := arrived], ui := s.ui[s.actionUi := slot], action := NONE, autoload := false)
  }

  function SaveCompleted(s: Store): Store {
    var t := s.slots[s.diskSlot];
    s.(slots := s.slots[s.diskSlot := t.(saved := s.snapshot, sequence := Plus(t.sequence, 1))])
  }

  /** `e11_submit`, whose queue send returns `sent`. */
  function Submitted(s: Store, op: nat, sent: int, now: u32): Store {
    if sent < 0 then s.(op := op, busy := false, error := sent, retry := now) else s.(op := op, busy := true)
  }

  /** `e12_save_slot`. */
  function SaveSlot(s: Store, i: SlotIndex, sent: int, now: u32): Store {
    var t := s.slots[i];
    Submitted(s.(diskSlot := i, snapshot := t.generation, job := Job(t.id, t.source, t.sequence, t.data)), OP_SAVE,
      sent, now)
  }

  function SourceOf(s: Store, id: nat): u32 {
    if id < |s.catalog| then s.catalog[id] else 0
  }

  /** The timer's work on a pending load or remove. */
  function Advanced(s: Store, sent: int, now: u32): Store {
    if s.outgoing != EMPTY
        && s.slots[s.outgoing].generation != s.slots[s.outgoing].saved then SaveSlot(s, s.outgoing, sent, now)
    else if Since(now, s.removeTick) < 250 then s
    else if s.action == REMOVE then Vacate(s, s.outgoing).(ui := s.ui[s.actionUi := EMPTY], action := NONE)
    else Submitted(s.(job := s.job.(id := s.target, source := SourceOf(s, s.target))), OP_LOAD, sent, now)
  }

  function At(cursor: SlotIndex, k: nat): SlotIndex {
    (cursor + k) % 16
  }

  /** How far after the cursor the first dirty slot lies. */
  function NextDirty(slots: Slots, cursor: SlotIndex, k: nat): Option<nat>
    requires k <= 16
    decreases 16 - k
  {
    if k == 16 then None else if IsDirty(slots[At(cursor, k)]) then Some(k) else NextDirty(slots, cursor, k + 1)
  }

  /** The round-robin background save. */
  function Background(s: Store, sent: int, now: u32): Store {
    match NextDirty(s.slots, s.cursor, 0)
    case None => s.(flush := false)
    case Some(k) => SaveSlot(s.(cursor := At(s.cursor, k + 1)), At(s.cursor, k), sent, now)
  }

  // --------------------------------------------------------------------------
  // Figure store and sessions

  function SetStore(p: Portal, s: Store): Portal {
    p.(store := s)
  }

  /** `e12_event`; position 255 has no event. */
  function Event(p: Portal, slot: Position, inserted: bool): Portal {
    if slot == EMPTY then p
    else p.(sessions := seq(16, f requires 0 <= f < 16 => EventOn(p.sessions[f], slot, inserted)))
  }

  /** `e12_restore`. */
  function Restore(p: Portal, error: int): Portal {
    Event(SetStore(p, Restored(p.store, error)), p.store.outgoing, true)
  }

  function Take(p: Portal, ui: SlotIndex, id: nat, action: nat): Portal {
    Event(SetStore(p, Taken(p.store, ui, id, action, p.ticks)), p.store.ui[ui], false)
  }

  /** `e12_begin`. */
  function Begin(p: Portal, ui: nat, id: nat, action: nat): (Portal, int) {
    var s := p.store;
    if ui >= 16 || (action == LOAD && id >= s.count) then (p, -4)
    else if s.action != NONE || s.busy then (p, -8)
    else if action == LOAD && Owner(s.slots, id, 0).Some? then
      (p, if s.ui[ui] == Owner(s.slots, id, 0).value then 0 else -17)
    else (Take(p, ui, id, action), 0)
  }

  function Place(p: Portal, slot: SlotIndex): Portal {
    Event(SetStore(p, Placed(p.store, slot)), slot, true)
  }

  function CompleteLoad(p: Portal): Portal {
    var uid := Uid(p.store.job.data);
    if UidTaken(p.store, uid) then Restore(p, -17)
    else match Destination(p.store, uid)
      case None => Restore(p, -8)
      case Some(slot) => Place(p, slot)
  }

  /** `e09_complete`. */
  function Complete(p: Portal): Portal {
    var s := p.store.(busy := false, error := p.store.result, retry := p.ticks);
    var q := SetStore(p, s);
    if s.result < 0 then (if s.action != NONE then Restore(q, s.result) else q)
    else if s.op == OP_CATALOG then Begin(SetStore(p, s.(count := |s.catalog|)), 0, 0, LOAD).0
    else if s.op == OP_SAVE then SetStore(p, SaveCompleted(s))
    else CompleteLoad(q)
  }

  /** What the timer finds: whether a game session is open, the mailbox, and how a queue send ends. */
  datatype Env = Env(active: bool, box: Request, sent: int)

  datatype Request = Request(magic: u32, seqno: u32, op: u32, arg: u32, key: u32, heartbeat: u32)

  function Rescan(p: Portal): Portal {
    p.(sessions := seq(16, f requires 0 <= f < 16 => RescanOn(p.sessions[f], Presence(p.store))))
  }

  /** A new mailbox command; the integer is the error it reports, or zero. */
  function Command(p: Portal, op: u32, arg: u32): (Portal, int) {
    match op
    case 1 => (SetStore(p, p.store.(page := if arg < 640 then arg / 8 * 8 else 0)), 0)
    case 2 => Commanded(Begin(p, arg / 0x1_0000, arg % 0x1_0000, LOAD))
    case 3 => Commanded(Begin(p, arg / 0x1_0000, arg % 0x1_0000, REMOVE))
    case 4 => if arg < 16 then (SetStore(p, p.store.(view := arg)), 0) else (p, -4)
    case 5 => (SetStore(p, p.store.(flush := true, error := 0)), 0)
    case 6 => (Rescan(p), 0)
    case _ => (p, -4)
  }

  function Commanded(r: (Portal, int)): (Portal, int) {
    if r.1 == 0 then (SetStore(r.0, r.0.store.(autoload := false)), 0) else r
  }

  /** A mailbox that a live menu of this version wrote; its heartbeat may be at most 500 ticks old. */
  predicate Alive(p: Portal, env: Env) {
    && env.active && env.box.magic == 0x4531324d && env.box.key == 0x534b595a
    && (env.box.heartbeat != p.store.heartbeat || Since(p.ticks, p.store.heartbeatTick) <= 500)
  }

  /** The mailbox delivers a command that is carried out now. */
  predicate TakesCommand(p: Portal, env: Env) {
    && Alive(p, env) && env.box.seqno != p.store.requestSeq
    && !((env.box.op == 2 || env.box.op == 3) && (p.store.action != NONE || p.store.busy))
  }

  function Beat(p: Portal, heartbeat: u32): Portal {
    if heartbeat == p.store.heartbeat then p
    else SetStore(p, p.store.(heartbeat := heartbeat, heartbeatTick := p.ticks))
  }

  function Reported(r: (Portal, int)): Portal {
    if r.1 != 0 then SetStore(r.0, r.0.store.(error := r.1)) else r.0
  }

  /** `e11_mailbox`, without the reply it publishes. */
  function Mailbox(p: Portal, env: Env): Portal {
    var box := env.box;
    if !Alive(p, env) then p
    else
      var q := Beat(p, box.heartbeat);
      if box.seqno == q.store.requestSeq then q
      else if (box.op == 2 || box.op == 3) && (q.store.action != NONE || q.store.busy) then q
      else Reported(Command(SetStore(q, q.store.(requestSeq := box.seqno)), box.op, box.arg))
  }

  predicate RetryElapsed(s: Store, now: u32) {
    Since(now, s.retry) >= 500
  }

  /** `e09_poll` after its mailbox part. */
  function Schedule(p: Portal, sent: int): Portal {
    var s := p.store;
    if s.busy then p
    else if s.count == 0
        then (if RetryElapsed(s, p.ticks) then SetStore(p, Submitted(s, OP_CATALOG, sent, p.ticks)) else p)
    else if s.action != NONE then SetStore(p, Advanced(s, sent, p.ticks))
    else if s.autoload && RetryElapsed(s, p.ticks) then Begin(p, 0, 0, LOAD).0
    else if (s.error == 0 && s.flush) || RetryElapsed(s, p.ticks) then SetStore(p, Background(s, sent, p.ticks))
    else p
  }

  /** `e09_poll`. */
  function Poll(p: Portal, env: Env): Portal {
    Schedule(if p.ticks % 8 == 0 then Mailbox(p, env) else p, env.sent)
  }

  /** A tick up to the end of its mailbox part. */
  function AfterMailbox(p: Portal, env: Env): Portal {
    var q := p.(ticks := Plus(p.ticks, 1));
    if q.ticks % 8 == 0 then Mailbox(q, env) else q
  }

  // --------------------------------------------------------------------------
  // HIDv4

  datatype Kind = CloseFile | IoctlFile | OtherCommand

  /** An IPC message: buffers are absent when null, and `payload` is the memory a transfer names. */
  datatype RawMessage = Message(token: nat, fd: nat, kind: Kind, cmd: nat, lengthIo: nat, input: Option<seq<byte>>,
                                lengthIn: nat, output: bool, payload: Option<seq<byte>>)

  /** The length a transfer header asks for. */
  function Requested(m: RawMessage): nat {
    if m.input.None? || |m.input.value| != 32 then 0
    else if m.cmd == 2 then Be16(m.input.value, 26) else Be32(m.input.value, 24)
  }

  predicate Formed(m: RawMessage) {
    && (m.input.Some? ==> |m.input.value| == m.lengthIn)
    && (m.payload.Some? ==> |m.payload.value| == Requested(m) > 0)
  }

  type Message = m: RawMessage | Formed(m) witness Message(0, 0, CloseFile, 0, 0, None, 0, false, None)

  function SetSession(p: Portal, f: SlotIndex, s: Session): Portal {
    p.(sessions := p.sessions[f := s])
  }

  /** `os_message_queue_ack`. */
  function Reply(p: Portal, token: nat, result: int): Portal {
    p.(log := p.log + [Ack(token, result)])
  }

  /** `v4_cancel`. */
  function CancelAll(p: Portal, f: SlotIndex): Portal {
    var s := p.sessions[f];
    var q := if s.read.Some? then Reply(p, s.read.value, -7022) else p;
    var r := if s.change.Some? then Reply(q, s.change.value, -1) else q;
    SetSession(r, f, Emptied(s))
  }

  /** The command letters. */
  const ACTIVATE: byte := 65
  const COLOUR: byte := 67
  const SOUND: byte := 74
  const LIGHT: byte := 76
  const MUSIC: byte := 77
  const QUERY: byte := 81
  const READY: byte := 82
  const VERSION: byte := 86
  const WRITE: byte := 87

  /** The shortest length a command is accepted with; 32 is always accepted. */
  function ShortLength(c: byte): nat {
    if c == READY || c == ACTIVATE || c == MUSIC then 2
    else if c == QUERY then 3
    else if c == WRITE then 19
    else if c == SOUND then 7
    else if c == VERSION || c == COLOUR then 4
    else if c == S then 1
    else if c == LIGHT then 5
    else 0
  }

  /** A command whose length and arguments the portal accepts. */
  predicate Accepts(d: seq<byte>) {
    && 0 < |d| <= 32
    && ShortLength(d[0]) != 0
    && (|d| == ShortLength(d[0]) || |d| == 32)
    && (d[0] == ACTIVATE ==> d[1] <= 1)
    && (d[0] == QUERY || d[0] == WRITE ==> d[2] < 64)
  }

  predicate HasReply(c: byte) {
    c == READY || c == ACTIVATE || c == QUERY || c == WRITE || c == SOUND || c == MUSIC
  }

  function Block(data: Data, block: nat): (r: seq<byte>)
    requires block < 64
    ensures |r| == 16
  {
    data[16 * block..16 * block + 16]
  }

  /** The reply to an accepted command. */
  function Response(p: Portal, d: seq<byte>): Packet
    requires Accepts(d)
  {
    if d[0] == READY then [READY, 2, 0x1b] + Zeros(29)
    else if d[0] == ACTIVATE then [ACTIVATE, d[1], 0xff, 0x77] + Zeros(28)
    else if d[0] == MUSIC then [MUSIC, d[1], 0, 0x19] + Zeros(28)
    else if d[0] == QUERY || d[0] == WRITE then
      var slot := d[1] % 16;
      [d[0], if p.store.slots[slot].present then 16 + slot else 1, d[2]]
      + (if d[0] == QUERY && p.store.slots[slot].present then Block(p.store.slots[slot].data, d[2])
        else Zeros(16)) + Zeros(13)
    else [d[0]] + Zeros(31)
  }

  /** An accepted write to a present figure. */
  function Written(s: Slot, block: nat, bytes: seq<byte>): Slot
    requires block < 64 && |bytes| == 16
  {
    s.(data := s.data[..16 * block] + bytes + s.data[16 * block + 16..], generation := s.generation + 1)
  }

  /** What an accepted command changes besides queueing its reply. */
  function Effect(p: Portal, f: SlotIndex, d: seq<byte>): Portal
    requires Accepts(d)
  {
    if d[0] == ACTIVATE then
      var s := p.sessions[f];
      SetSession(p, f, (if s.active then s else AnnounceOn(s, Presence(p.store))).(active := true))
    else if d[0] == WRITE && p.store.slots[d[1] % 16].present then
      SetStore(p, p.store.(slots := p.store.slots[d[1] % 16 := Written(p.store.slots[d[1] % 16], d[2], d[3..19])]))
    else p
  }

  /** `v4_control` on the bytes of a SET_REPORT. */
  function Report(p: Portal, f: SlotIndex, d: seq<byte>): (Portal, int) {
    if !Accepts(d) then (p, -4)
    else if !HasReply(d[0]) then (p, |d| + 8)
    else if p.sessions[f].count == FIFO then (p, -8)
    else (Effect(SetSession(p, f, Push(p.sessions[f], Response(p, d))), f, d), |d| + 8)
  }

  /** SET_REPORT: the report number is absent or repeats the command letter. */
  function SetReport(p: Portal, f: SlotIndex, value: nat, d: seq<byte>): (Portal, int)
    requires d != []
  {
    if value != 0x200 && value - 0x200 != d[0] then (p, -4) else Report(p, f, d)
  }

  /** `v4_control` on a setup packet: SET_IDLE and SET_PROTOCOL succeed, SET_REPORT carries a command. */
  function Setup(p: Portal, f: SlotIndex, h: seq<byte>, payload: Option<seq<byte>>): (Portal, int)
    requires |h| == 32 && (payload.Some? ==> payload.value != [])
  {
    var len, value := Be16(h, 26), Be16(h, 22);
    if h[20] != 0x21 || Be16(h, 24) != 0 then (p, -4)
    else if (h[21] == 0x0a || h[21] == 0x0b) && len == 0 && value == 0 then (p, 8)
    else if h[21] != 9 || len == 0 || len > 32 || payload.None? then (p, -4)
    else SetReport(p, f, value, payload.value)
  }

  /** `v4_transfer`. */
  function Transfer(p: Portal, f: SlotIndex, m: Message): (Portal, int) {
    if m.input.None? || m.lengthIn != 32 || m.lengthIo != 0 then (p, -4)
    else
      var h := m.input.value;
      if Be32(h, 16) != 0 then (p, -6)
      else if m.cmd == 2 then Setup(p, f, h, m.payload)
      else
        var len, endpoint := Be32(h, 24), Be32(h, 20);
        if m.cmd == 4 && endpoint == 2 && 32 < len <= 64 then (p, if m.payload.None? then -4 else len)
        else if len != 32 || m.payload.None? then (p, -4)
        else if m.cmd == 4 then (p, if endpoint == 2 && m.payload.value[0] == LIGHT then 32 else -4)
        else if endpoint != 0x81 || p.sessions[f].read.Some? then (p, -4)
        else (SetSession(p, f, HidSession.Submit(p.sessions[f], m.token, p.ticks)), 0)
  }

  predicate IsVersionRequest(m: Message) {
    m.cmd == 6 && m.lengthIn == 0 && (m.lengthIo == 0 || (m.lengthIo == 32 && m.output))
  }

  /** `v4_process` on an ioctl of an open descriptor. */
  function Ioctl(p: Portal, f: SlotIndex, m: Message): Portal {
    var s := p.sessions[f];
    match m.cmd
    case 0xe900 => Reply(p, m.token, if m.lengthIn == 0 && m.lengthIo == 32 && m.output then 0 else -4)
    case 6 =>
      if !IsVersionRequest(m) then Reply(p, m.token, -4)
      else Reply(SetSession(CancelAll(p, f), f, AnnounceOn(Zeroed().(active := true), Presence(p.store))), m.token,
        0x40001)
    case 0 =>
      if m.lengthIn != 0 || !m.output || m.lengthIo != 0x600 then Reply(p, m.token, -4)
      else if s.change.Some? then Reply(p, m.token, -8)
      else if s.discovered then SetSession(p, f, s.(change := Some(m.token)))
      else Reply(SetSession(p, f, s.(discovered := true)), m.token, 0)
    case 1 => Reply(p, m.token, 0)
    case 7 =>
      if m.lengthIn != 0 || m.lengthIo != 0 then Reply(p, m.token, -4)
      else
        var q := CancelAll(p, f);
        Reply(SetSession(q, f, q.sessions[f].(active := false)), m.token, 0)
    case 8 => CancelEndpoint(p, f, m)
    case _ =>
      if 2 <= m.cmd <= 4 then
        var r := Transfer(p, f, m);
        if r.0.sessions[f].read == Some(m.token) then r.0 else Reply(r.0, m.token, r.1)
      else Reply(p, m.token, -4)
  }

  /** Ioctl 8: cancel the interrupt endpoint's held read. */
  function CancelEndpoint(p: Portal, f: SlotIndex, m: Message): Portal {
    if m.input.None? || m.lengthIn != 8 || m.lengthIo != 0 then Reply(p, m.token, -4)
    else
      var b, s := m.input.value, p.sessions[f];
      if Be32(b, 0) != 0 then Reply(p, m.token, -6)
      else if b[4] != 0x81 && b[4] != 2 then Reply(p, m.token, -4)
      else if b[4] == 0x81 && s.read.Some? then
        Reply(SetSession(Reply(p, s.read.value, -7022), f, s.(read := None)), m.token, 0)
      else Reply(p, m.token, 0)
  }

  /** `v4_process`. The stock close completes its message once. */
  function Process(p: Portal, m: Message): Portal {
    if m.fd >= 16 then Reply(p, m.token, -4)
    else match m.kind
      case CloseFile => Reply(SetSession(CancelAll(p, m.fd), m.fd, Zeroed()), m.token, 0)
      case OtherCommand => Reply(p, m.token, -4)
      case IoctlFile => Ioctl(p, m.fd, m)
  }

  /** The delivery of one session in `v4_tick`. */
  function DeliverOne(p: Portal, f: SlotIndex): Portal {
    var s := p.sessions[f];
    if IsDue(s, p.ticks) then
      SetSession(p, f, HidSession.Deliver(s)).(log := p.log + [ReadAck(s.read.value, f, s.response)])
    else p
  }

  /** The delivery loop, up to session `n`. */
  function DeliverAll(p: Portal, n: nat): Portal
    requires n <= 16
  {
    if n == 0 then p else DeliverOne(DeliverAll(p, n - 1), n - 1)
  }

  lemma {:induction false} DeliveryKeepsStore(p: Portal, n: nat)
    requires n <= 16
    ensures DeliverAll(p, n).store == p.store
  {
    if n > 0 {
      DeliveryKeepsStore(p, n - 1);
    }
  }

  /** `v4_tick`. */
  function Tick(p: Portal, env: Env): Portal {
    DeliverAll(Poll(p.(ticks := Plus(p.ticks, 1)), env), 16)
  }
}
