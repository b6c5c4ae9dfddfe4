/** What the host receives from the portal: every handler acts on a session as session operations. */
module PortalSessions {
  import opened Words
  import opened HidSession
  import opened SessionRuns
  import opened PortalSpec
  import opened PortalInvariants
  import opened Completion
  import opened Memory

  // --------------------------------------------------------------------------
  // Events of the figure store

  /** A call of `e12_event`; position 255 has none. */
  function Changes(slot: Position, inserted: bool): seq<Op> {
    if slot == EMPTY then [] else [Change(slot, inserted)]
  }

  function BeginEvents(p: Portal, ui: nat, id: nat, action: nat): seq<Op> {
    if ui < 16 && Begin(p, ui, id, action).1 == 0 && !(action == LOAD && Owner(p.store.slots, id, 0).Some?)
    then Changes(p.store.ui[ui], false) else []
  }

  function LoadEvents(s: Store): seq<Op> {
    var uid := Uid(s.job.data);
    if UidTaken(s, uid) || Destination(s, uid).None? then Changes(s.outgoing, true)
    else Changes(Destination(s, uid).value, true)
  }

  function CompleteEvents(p: Portal): seq<Op> {
    var s := p.store.(busy := false, error := p.store.result, retry := p.ticks);
    if s.result < 0 then (if s.action != NONE then Changes(s.outgoing, true) else [])
    else if s.op == OP_CATALOG then BeginEvents(SetStore(p, s.(count := |s.catalog|)), 0, 0, LOAD)
    else if s.op == OP_SAVE then []
    else LoadEvents(s)
  }

  function ScheduleEvents(p: Portal): seq<Op> {
    var s := p.store;
    if !s.busy && s.count > 0 && s.action == NONE && s.autoload && RetryElapsed(s, p.ticks)
    then BeginEvents(p, 0, 0, LOAD) else []
  }

  function Noted(p: Portal, env: Env): Portal {
    var q := Beat(p, env.box.heartbeat);
    SetStore(q, q.store.(requestSeq := env.box.seqno))
  }

  function MailboxEvents(p: Portal, env: Env): seq<Op> {
    if TakesCommand(p, env) && (env.box.op == 2 || env.box.op == 3)
    then BeginEvents(Noted(p, env), env.box.arg / 0x1_0000, env.box.arg % 0x1_0000, env.box.op) else []
  }

  function TickEvents(p: Portal, env: Env): seq<Op> {
    var q := p.(ticks := Plus(p.ticks, 1));
    (if q.ticks % 8 == 0 then MailboxEvents(q, env) else []) + ScheduleEvents(AfterMailbox(p, env))
  }

  // --------------------------------------------------------------------------
  // Operations of one intake on one session

  function ReportOps(p: Portal, f: SlotIndex, d: seq<byte>): seq<Op> {
    if Accepts(d) && HasReply(d[0]) then [Queued(Response(p, d))] else []
  }

  /** The read is held. */
  predicate HoldsRead(p: Portal, f: SlotIndex, m: Message) {
    && (m.cmd == 3 || m.cmd == 4) && p.sessions[f].read.None?
    && Transfer(p, f, m).0.sessions[f].read == Some(m.token)
  }

  function RequestOps(p: Portal, f: SlotIndex, m: Message): seq<Op> {
    var s := p.sessions[f];
    if !m.kind.IoctlFile? then []
    else if ReportOf(m).Some? then ReportOps(p, f, ReportOf(m).value)
    else if HoldsRead(p, f, m) then [Read(m.token, p.ticks)]
    else if m.cmd == 7 && m.lengthIn == 0 && m.lengthIo == 0 then [Reset, Mark(None, false, false)]
    else if m.cmd == 8 && Ioctl(p, f, m).sessions[f] != s then [Cancel]
    else if m.cmd == 0 && Ioctl(p, f, m).sessions[f] != s then
      var t := Ioctl(p, f, m).sessions[f];
      [Mark(t.change, t.discovered, t.active)]
    else []
  }

  /** What one intake does to session `f`; a tick delivers last, exactly when the read is due. */
  function OpsOf(p: Portal, h: Intake, f: SlotIndex): seq<Op> {
    match h
    case Ipc(m) => if m.fd == f then RequestOps(p, f, m) else []
    case Timer(env) => TickEvents(p, env) + if IsDue(p.sessions[f], Plus(p.ticks, 1)) then [Delivery] else []
    case Completed => CompleteEvents(p)
    case Storage(_, _, _) => []
  }

  function AllOps(p: Portal, hs: seq<Intake>, f: SlotIndex): seq<Op> {
    if hs == [] then []
    else AllOps(p, hs[..|hs| - 1], f) + OpsOf(HandleAll(p, hs[..|hs| - 1]), hs[|hs| - 1], f)
  }

  // --------------------------------------------------------------------------
  // The packets in the log

  /** The packets handed to the reads of one session. */
  function PacketsOf(log: seq<Ack>, f: SlotIndex): seq<Packet> {
    if log == [] then []
    else
      var a := log[|log| - 1];
      PacketsOf(log[..|log| - 1], f) + if a.ReadAck? && a.session == f then [a.packet] else []
  }

  lemma {:induction false} PacketsJoin(a: seq<Ack>, b: seq<Ack>, f: SlotIndex)
    ensures PacketsOf(a + b, f) == PacketsOf(a, f) + PacketsOf(b, f)
    decreases |b|
  {
    if b == [] {
      assert a + b == a;
    } else {
      var n := |b| - 1;
      assert (a + b)[..|a + b| - 1] == a + b[..n];
      PacketsJoin(a, b[..n], f);
    }
  }

  lemma {:induction false} AcksCarryNoPacket(log: seq<Ack>, f: SlotIndex)
    requires forall a | a in log :: a.Ack?
    ensures PacketsOf(log, f) == []
  {
    if log != [] {
      assert log[|log| - 1] in log;
      AcksCarryNoPacket(log[..|log| - 1], f);
    }
  }

  /** Only plain answers were added. */
  predicate OnlyAcks(p: Portal, q: Portal) {
    p.log <= q.log && forall a | a in q.log[|p.log|..] :: a.Ack?
  }

  lemma OnlyAcksSamePackets(p: Portal, q: Portal, f: SlotIndex)
    requires OnlyAcks(p, q)
    ensures PacketsOf(q.log, f) == PacketsOf(p.log, f)
  {
    assert q.log == p.log + q.log[|p.log|..];
    PacketsJoin(p.log, q.log[|p.log|..], f);
    AcksCarryNoPacket(q.log[|p.log|..], f);
  }

  lemma TransferOnlyAcks(p: Portal, f: SlotIndex, m: Message)
    ensures Transfer(p, f, m).0.log == p.log
  {
    if m.payload.Some? {
      ReportSilent(p, f, m.payload.value);
    }
  }

  lemma CancelOnlyAcks(p: Portal, f: SlotIndex, token: nat, result: int)
    ensures OnlyAcks(p, Reply(CancelAll(p, f), token, result))
  {
  }

  lemma RequestOnlyAcks(p: Portal, m: Message)
    ensures OnlyAcks(p, Process(p, m))
  {
    if m.fd < 16 && m.kind.CloseFile? {
      CancelOnlyAcks(p, m.fd, m.token, 0);
    } else if m.fd < 16 && m.kind.IoctlFile? {
      if m.cmd == 6 || m.cmd == 7 {
        CancelOnlyAcks(p, m.fd, m.token, if m.cmd == 6 then 0x40001 else 0);
      } else if 2 <= m.cmd <= 4 {
        TransferOnlyAcks(p, m.fd, m);
      }
    }
  }

  lemma {:induction false} DeliverySession(p: Portal, n: nat, f: SlotIndex)
    requires n <= 16
    ensures DeliverAll(p, n).ticks == p.ticks
    ensures var s := p.sessions[f];
      DeliverAll(p, n).sessions[f] == if f < n && IsDue(s, p.ticks) then Deliver(s) else s
  {
    if n > 0 {
      DeliverySession(p, n - 1, f);
    }
  }

  lemma OneAck(log: seq<Ack>, a: Ack, f: SlotIndex)
    ensures PacketsOf(log + [a], f) == PacketsOf(log, f) + if a.ReadAck? && a.session == f then [a.packet] else []
  {
    assert (log + [a])[..|log|] == log;
  }

  /** What the host receives from one session when the delivery loop comes to another, or to this one. */
  lemma OneDelivery(q: Portal, g: SlotIndex, f: SlotIndex)
    ensures PacketsOf(DeliverOne(q, g).log, f)
            == PacketsOf(q.log, f) + if f == g && IsDue(q.sessions[f], q.ticks) then [q.sessions[f].response] else []
  {
    var s := q.sessions[g];
    if IsDue(s, q.ticks) {
      OneAck(q.log, ReadAck(s.read.value, g, s.response), f);
    }
  }

  lemma {:induction false} DeliveryPackets(p: Portal, n: nat, f: SlotIndex)
    requires n <= 16
    ensures PacketsOf(DeliverAll(p, n).log, f)
            == PacketsOf(p.log, f) + if f < n && IsDue(p.sessions[f], p.ticks) then [p.sessions[f].response] else []
  {
    if n > 0 {
      DeliveryPackets(p, n - 1, f);
      DeliverySession(p, n - 1, f);
      OneDelivery(DeliverAll(p, n - 1), n - 1, f);
    }
  }

  // --------------------------------------------------------------------------
  // The operations are what happens

  lemma OneOp(s: Session, op: Op)
    ensures Run(s, [op]) == Apply(s, op)
    ensures Deliveries(s, [op]) == if op.Delivery? && s.read.Some? then [s.response] else []
  {
    assert [op][1..] == [];
  }

  predicate OnlyChanges(ops: seq<Op>) {
    forall op | op in ops :: op.Change?
  }

  lemma {:induction false} ChangesDeliverNothing(s: Session, ops: seq<Op>)
    requires OnlyChanges(ops)
    ensures Deliveries(s, ops) == [] && Replies(ops)
    ensures var t := Run(s, ops); t.read == s.read && t.due == s.due && t.response == s.response
    decreases |ops|
  {
    if ops != [] {
      assert ops[0] in ops;
      assert forall op | op in ops[1..] :: op in ops;
      ChangesDeliverNothing(Apply(s, ops[0]), ops[1..]);
    }
  }

  lemma EventOps(p: Portal, t: Store, slot: Position, inserted: bool, f: SlotIndex)
    ensures Event(SetStore(p, t), slot, inserted).sessions[f] == Run(p.sessions[f], Changes(slot, inserted))
  {
    if slot != EMPTY {
      OneOp(p.sessions[f], Change(slot, inserted));
    }
  }

  lemma BeginIsEvents(p: Portal, ui: nat, id: nat, action: nat, f: SlotIndex)
    ensures Begin(p, ui, id, action).0.sessions[f] == Run(p.sessions[f], BeginEvents(p, ui, id, action))
  {
    if ui < 16 {
      EventOps(p, Taken(p.store, ui, id, action, p.ticks), p.store.ui[ui], false, f);
    }
  }

  lemma LoadIsEvents(p: Portal, f: SlotIndex)
    ensures CompleteLoad(p).sessions[f] == Run(p.sessions[f], LoadEvents(p.store))
  {
    var uid := Uid(p.store.job.data);
    if UidTaken(p.store, uid) {
      EventOps(p, Restored(p.store, -17), p.store.outgoing, true, f);
    } else if Destination(p.store, uid).None? {
      EventOps(p, Restored(p.store, -8), p.store.outgoing, true, f);
    } else {
      var slot := Destination(p.store, uid).value;
      EventOps(p, Placed(p.store, slot), slot, true, f);
    }
  }

  lemma CompletionIsEvents(p: Portal, f: SlotIndex)
    ensures Complete(p).sessions[f] == Run(p.sessions[f], CompleteEvents(p)) && Complete(p).log == p.log
    ensures OnlyChanges(CompleteEvents(p))
  {
    CompleteSilent(p);
    var s := p.store.(busy := false, error := p.store.result, retry := p.ticks);
    var q := SetStore(p, s);
    if s.result < 0 {
      EventOps(q, Restored(s, s.result), s.outgoing, true, f);
    } else if s.op == OP_CATALOG {
      BeginIsEvents(SetStore(p, s.(count := |s.catalog|)), 0, 0, LOAD, f);
    } else if s.op != OP_SAVE {
      LoadIsEvents(q, f);
    }
  }

  lemma ScheduleIsEvents(p: Portal, sent: int, f: SlotIndex)
    ensures Schedule(p, sent).sessions[f] == Run(p.sessions[f], ScheduleEvents(p)) && OnlyChanges(ScheduleEvents(p))
  {
    BeginIsEvents(p, 0, 0, LOAD, f);
  }

  /** The mailbox asks for a rescan, which announces every session again. */
  predicate Rescans(p: Portal, env: Env) {
    TakesCommand(p, env) && env.box.op == 6
  }

  lemma MailboxIsEvents(p: Portal, env: Env, f: SlotIndex)
    requires !Rescans(p, env)
    ensures Mailbox(p, env).sessions[f] == Run(p.sessions[f], MailboxEvents(p, env))
    ensures OnlyChanges(MailboxEvents(p, env))
  {
    if TakesCommand(p, env) && (env.box.op == 2 || env.box.op == 3) {
      BeginIsEvents(Noted(p, env), env.box.arg / 0x1_0000, env.box.arg % 0x1_0000, env.box.op, f);
    }
  }

  /** A tick with its clock advanced, before the delivery. */
  function Polled(p: Portal, env: Env): Portal {
    Poll(p.(ticks := Plus(p.ticks, 1)), env)
  }

  lemma PollIsEvents(p: Portal, env: Env, f: SlotIndex)
    requires !Reannounces(p, Timer(env), f)
    ensures OnlyChanges(TickEvents(p, env))
    ensures Polled(p, env).sessions[f] == Run(p.sessions[f], TickEvents(p, env))
    ensures Polled(p, env).log == p.log && Polled(p, env).ticks == Plus(p.ticks, 1)
    ensures SameRequests(p.sessions[f], Polled(p, env).sessions[f])
  {
    var s, q, r := p.sessions[f], p.(ticks := Plus(p.ticks, 1)), AfterMailbox(p, env);
    var first := if q.ticks % 8 == 0 then MailboxEvents(q, env) else [];
    if q.ticks % 8 == 0 {
      MailboxIsEvents(q, env, f);
    }
    ScheduleIsEvents(r, env.sent, f);
    RunsConcatenate(s, false, first, ScheduleEvents(r));
    PollSilent(q, env);
    assert SameRequests(q.sessions[f], Polled(p, env).sessions[f]);
  }

  lemma TickIsOps(p: Portal, env: Env, f: SlotIndex)
    requires !Reannounces(p, Timer(env), f)
    ensures OnlyChanges(TickEvents(p, env))
    ensures Tick(p, env).sessions[f] == Run(p.sessions[f], OpsOf(p, Timer(env), f))
    ensures PacketsOf(Tick(p, env).log, f) == PacketsOf(p.log, f) + Deliveries(p.sessions[f], OpsOf(p, Timer(env), f))
  {
    PollIsEvents(p, env, f);
    var s, events, polled := p.sessions[f], TickEvents(p, env), Polled(p, env);
    ChangesThenDelivery(s, events, IsDue(s, Plus(p.ticks, 1)));
    DeliverySession(polled, 16, f);
    DeliveryPackets(polled, 16, f);
  }

  /** Changes, and perhaps one delivery after them: only the delivery returns a packet. */
  lemma ChangesThenDelivery(s: Session, events: seq<Op>, due: bool)
    requires OnlyChanges(events) && (due ==> s.read.Some?)
    ensures var ops := events + if due then [Delivery] else [];
      && Run(s, ops) == (if due then Deliver(Run(s, events)) else Run(s, events))
      && Deliveries(s, ops) == if due then [s.response] else []
  {
    var last := if due then [Delivery] else [];
    RunsConcatenate(s, false, events, last);
    DeliveriesConcatenate(s, events, last);
    ChangesDeliverNothing(s, events);
    OneOp(Run(s, events), Delivery);
  }

  // --------------------------------------------------------------------------
  // Requests

  /** A request that zeroes its session or announces it anew. */
  predicate Restarts(p: Portal, m: Message) {
    && m.fd < 16
    && (m.kind.CloseFile? || (m.kind.IoctlFile? && m.cmd == 6)
        || (ReportOf(m).Some? && Activates(p.sessions[m.fd], ReportOf(m).value)))
  }

  predicate Activates(s: Session, d: seq<byte>) {
    Accepts(d) && d[0] == ACTIVATE && s.count < FIFO && !s.active
  }

  predicate NoEvents(ops: seq<Op>) {
    forall op | op in ops :: !op.Change? && !op.Delivery?
  }

  lemma ReportIsOps(p: Portal, f: SlotIndex, d: seq<byte>)
    requires !Activates(p.sessions[f], d)
    ensures Report(p, f, d).0.sessions[f] == Run(p.sessions[f], ReportOps(p, f, d))
    ensures Replies(ReportOps(p, f, d)) && NoEvents(ReportOps(p, f, d))
  {
    if Accepts(d) && HasReply(d[0]) {
      OneOp(p.sessions[f], Queued(Response(p, d)));
      assert Response(p, d)[0] == d[0] != S;
    }
  }

  lemma TransferIsOps(p: Portal, f: SlotIndex, m: Message)
    requires m.fd == f && m.kind.IoctlFile? && 2 <= m.cmd <= 4 && !Restarts(p, m)
    ensures Transfer(p, f, m).0.sessions[f] == Run(p.sessions[f], RequestOps(p, f, m))
    ensures Replies(RequestOps(p, f, m)) && NoEvents(RequestOps(p, f, m))
  {
    if ReportOf(m).Some? {
      ReportIsOps(p, f, ReportOf(m).value);
    } else if HoldsRead(p, f, m) {
      OneOp(p.sessions[f], Read(m.token, p.ticks));
    }
  }

  lemma ControlIsOps(p: Portal, f: SlotIndex, m: Message)
    requires m.kind.IoctlFile? && m.cmd != 6 && !(2 <= m.cmd <= 4)
    ensures Ioctl(p, f, m).sessions[f] == Run(p.sessions[f], RequestOps(p, f, m))
    ensures Replies(RequestOps(p, f, m)) && NoEvents(RequestOps(p, f, m))
  {
    var s, t := p.sessions[f], Ioctl(p, f, m).sessions[f];
    if m.cmd == 7 {
      assert [Reset, Mark(None, false, false)][1..] == [Mark(None, false, false)];
      OneOp(Emptied(s), Mark(None, false, false));
    } else if m.cmd == 8 {
      OneOp(s, Cancel);
    } else if m.cmd == 0 {
      OneOp(s, Mark(t.change, t.discovered, t.active));
    }
  }

  lemma RequestIsOps(p: Portal, m: Message, f: SlotIndex)
    requires m.fd == f ==> !Restarts(p, m)
    ensures Process(p, m).sessions[f] == Run(p.sessions[f], OpsOf(p, Ipc(m), f))
    ensures Replies(OpsOf(p, Ipc(m), f)) && NoEvents(OpsOf(p, Ipc(m), f))
  {
    if m.fd != f {
      OthersUntouched(p, m, f);
    } else if m.kind.IoctlFile? && 2 <= m.cmd <= 4 {
      TransferIsOps(p, f, m);
    } else if m.kind.IoctlFile? {
      ControlIsOps(p, f, m);
    }
  }

  lemma {:induction false} NoDeliveries(s: Session, ops: seq<Op>)
    requires NoEvents(ops)
    ensures Deliveries(s, ops) == []
    decreases |ops|
  {
    if ops != [] {
      assert ops[0] in ops;
      assert forall op | op in ops[1..] :: op in ops;
      NoDeliveries(Apply(s, ops[0]), ops[1..]);
    }
  }

  // --------------------------------------------------------------------------
  // Runs

  /** This intake zeroes session `f` or announces it anew. */
  predicate Reannounces(p: Portal, h: Intake, f: SlotIndex) {
    match h
    case Ipc(m) => m.fd == f && Restarts(p, m)
    case Timer(env) => var q := p.(ticks := Plus(p.ticks, 1)); q.ticks % 8 == 0 && Rescans(q, env)
    case _ => false
  }

  predicate Undisturbed(p: Portal, hs: seq<Intake>, f: SlotIndex) {
    hs != [] ==>
      && Undisturbed(p, hs[..|hs| - 1], f)
      && !Reannounces(HandleAll(p, hs[..|hs| - 1]), hs[|hs| - 1], f)
  }

  lemma HandleIsOps(p: Portal, h: Intake, f: SlotIndex)
    requires !Reannounces(p, h, f)
    ensures Handle(p, h).sessions[f] == Run(p.sessions[f], OpsOf(p, h, f)) && Replies(OpsOf(p, h, f))
    ensures PacketsOf(Handle(p, h).log, f) == PacketsOf(p.log, f) + Deliveries(p.sessions[f], OpsOf(p, h, f))
  {
    var s := p.sessions[f];
    match h {
      case Ipc(m) =>
        RequestIsOps(p, m, f);
        NoDeliveries(s, OpsOf(p, h, f));
        RequestOnlyAcks(p, m);
        OnlyAcksSamePackets(p, Process(p, m), f);
      case Timer(env) => TickIsOps(p, env, f);
      case Completed =>
        CompletionIsEvents(p, f);
        ChangesDeliverNothing(s, CompleteEvents(p));
      case Storage(result, job, catalog) =>
    }
  }

  lemma {:induction false} RunLogGrows(p: Portal, hs: seq<Intake>)
    ensures p.log <= HandleAll(p, hs).log
  {
    if hs != [] {
      var before, h := hs[..|hs| - 1], hs[|hs| - 1];
      RunLogGrows(p, before);
      HandleLogGrows(HandleAll(p, before), h);
    }
  }

  lemma HandleLogGrows(p: Portal, h: Intake)
    ensures p.log <= Handle(p, h).log
  {
    match h {
      case Ipc(m) => LogGrows(p, m);
      case Timer(env) =>
        var q := p.(ticks := Plus(p.ticks, 1));
        PollSilent(q, env);
        DeliverAllMeaning(Poll(q, env), 16, 0);
      case Completed => CompleteSilent(p);
      case Storage(result, job, catalog) =>
    }
  }

  /** The packets session `f` receives during a run, as the log shows them. */
  function DeliveredTo(p: Portal, hs: seq<Intake>, f: SlotIndex): seq<Packet> {
    RunLogGrows(p, hs);
    PacketsOf(HandleAll(p, hs).log[|p.log|..], f)
  }

  /**
    * Between two announcements a session moves by exactly these operations, and the host receives
    * exactly the packets they deliver.
    */
  lemma PortalRunIsSessionRun(p: Portal, hs: seq<Intake>, f: SlotIndex)
    requires Undisturbed(p, hs, f)
    ensures HandleAll(p, hs).sessions[f] == Run(p.sessions[f], AllOps(p, hs, f)) && Replies(AllOps(p, hs, f))
    ensures DeliveredTo(p, hs, f) == Deliveries(p.sessions[f], AllOps(p, hs, f))
  {
    RunPackets(p, hs, f);
    RunLogGrows(p, hs);
    NewPackets(p.log, HandleAll(p, hs).log, f, Deliveries(p.sessions[f], AllOps(p, hs, f)));
  }

  lemma NewPackets(before: seq<Ack>, after: seq<Ack>, f: SlotIndex, packets: seq<Packet>)
    requires before <= after && PacketsOf(after, f) == PacketsOf(before, f) + packets
    ensures PacketsOf(after[|before|..], f) == packets
  {
    var more := after[|before|..];
    assert after == before + more;
    PacketsJoin(before, more, f);
    SameTail(PacketsOf(before, f), PacketsOf(more, f), packets);
  }

  lemma SameTail(a: seq<Packet>, b: seq<Packet>, c: seq<Packet>)
    requires a + b == a + c
    ensures b == c
  {
    assert (a + b)[|a|..] == b && (a + c)[|a|..] == c;
  }

  lemma {:induction false} RunPackets(p: Portal, hs: seq<Intake>, f: SlotIndex)
    requires Undisturbed(p, hs, f)
    ensures HandleAll(p, hs).sessions[f] == Run(p.sessions[f], AllOps(p, hs, f)) && Replies(AllOps(p, hs, f))
    ensures PacketsOf(HandleAll(p, hs).log, f) == PacketsOf(p.log, f) + Deliveries(p.sessions[f], AllOps(p, hs, f))
  {
    if hs != [] {
      var before, h := hs[..|hs| - 1], hs[|hs| - 1];
      RunPackets(p, before, f);
      HandleIsOps(HandleAll(p, before), h, f);
      OpsJoin(p.sessions[f], AllOps(p, before, f), OpsOf(HandleAll(p, before), h, f), PacketsOf(p.log, f));
    }
  }

  lemma OpsJoin(s: Session, a: seq<Op>, b: seq<Op>, packets: seq<Packet>)
    requires Replies(a) && Replies(b)
    ensures Run(s, a + b) == Run(Run(s, a), b) && Replies(a + b)
    ensures (packets + Deliveries(s, a)) + Deliveries(Run(s, a), b) == packets + Deliveries(s, a + b)
  {
    RunsConcatenate(s, false, a, b);
    DeliveriesConcatenate(s, a, b);
    Associates(packets, Deliveries(s, a), Deliveries(Run(s, a), b));
  }

  // --------------------------------------------------------------------------
  // Order and numbers

  /** The reply an intake queues on session `f`. */
  function AcceptedReply(p: Portal, h: Intake, f: SlotIndex): seq<Packet> {
    if h.Ipc? && h.m.fd == f && ReportOf(h.m).Some? && Accepts(ReportOf(h.m).value) && HasReply(ReportOf(h.m).value[0])
       && p.sessions[f].count < FIFO
    then [Response(p, ReportOf(h.m).value)] else []
  }

  function AcceptedReplies(p: Portal, hs: seq<Intake>, f: SlotIndex): seq<Packet> {
    if hs == [] then []
    else AcceptedReplies(p, hs[..|hs| - 1], f) + AcceptedReply(HandleAll(p, hs[..|hs| - 1]), hs[|hs| - 1], f)
  }

  lemma {:induction false} AcceptedConcatenate(s: Session, a: seq<Op>, b: seq<Op>)
    ensures Accepted(s, a + b) == Accepted(s, a) + Accepted(Run(s, a), b)
    decreases |a|
  {
    if a == [] {
      assert a + b == b;
    } else {
      assert (a + b)[1..] == a[1..] + b;
      AcceptedConcatenate(Apply(s, a[0]), a[1..], b);
    }
  }

  lemma {:induction false} NothingAccepted(s: Session, ops: seq<Op>)
    requires forall op | op in ops :: !op.Queued?
    ensures Accepted(s, ops) == []
    decreases |ops|
  {
    if ops != [] {
      assert ops[0] in ops;
      assert forall op | op in ops[1..] :: op in ops;
      NothingAccepted(Apply(s, ops[0]), ops[1..]);
    }
  }

  lemma StepAccepts(p: Portal, h: Intake, f: SlotIndex)
    requires !Reannounces(p, h, f)
    ensures Accepted(p.sessions[f], OpsOf(p, h, f)) == AcceptedReply(p, h, f)
  {
    var s, ops := p.sessions[f], OpsOf(p, h, f);
    if h.Ipc? && h.m.fd == f && ReportOf(h.m).Some? {
      if ops != [] {
        assert ops[1..] == [];
      }
    } else {
      if h.Timer? {
        TickIsOps(p, h.env, f);
      } else if h.Completed? {
        CompletionIsEvents(p, f);
      }
      NothingAccepted(s, ops);
    }
  }

  lemma {:induction false} RunAccepts(p: Portal, hs: seq<Intake>, f: SlotIndex)
    requires Undisturbed(p, hs, f)
    ensures Accepted(p.sessions[f], AllOps(p, hs, f)) == AcceptedReplies(p, hs, f)
  {
    if hs != [] {
      var before, h := hs[..|hs| - 1], hs[|hs| - 1];
      RunAccepts(p, before, f);
      RunPackets(p, before, f);
      StepAccepts(HandleAll(p, before), h, f);
      AcceptedConcatenate(p.sessions[f], AllOps(p, before, f), OpsOf(HandleAll(p, before), h, f));
    }
  }

  /**
    * On the portal every reply to an accepted command reaches the host, is dropped or still waits, in
    * the order of the commands; the ones that reach it are exactly the replies in the log.
    */
  lemma RepliesInOrder(p: Portal, hs: seq<Intake>, f: SlotIndex)
    requires Undisturbed(p, hs, f) && NoStatusQueued(p.sessions[f])
    ensures var fates := AllLeaving(p.sessions[f], AllOps(p, hs, f));
      && CommandReplies(DeliveredTo(p, hs, f)) == Reached(fates)
      && Contents(fates) + Waiting(HandleAll(p, hs).sessions[f]) == Waiting(p.sessions[f]) + AcceptedReplies(p, hs, f)
  {
    var s, ops := p.sessions[f], AllOps(p, hs, f);
    PortalRunIsSessionRun(p, hs, f);
    RunAccepts(p, hs, f);
    RepliesReached(s, ops);
    RepliesLeaveInOrder(s, ops);
  }

  /** A request that may drop replies: a shutdown of the session or a cancel of its endpoint. */
  predicate MayDrop(h: Intake, f: SlotIndex) {
    h.Ipc? && h.m.fd == f && (h.m.cmd == 7 || h.m.cmd == 8)
  }

  lemma {:induction false} NothingCancelled(p: Portal, hs: seq<Intake>, f: SlotIndex)
    requires Undisturbed(p, hs, f) && forall h | h in hs :: !MayDrop(h, f)
    ensures forall op | op in AllOps(p, hs, f) :: !op.Cancel? && !op.Reset?
  {
    if hs != [] {
      var before, h := hs[..|hs| - 1], hs[|hs| - 1];
      assert h in hs && forall x | x in before :: x in hs;
      NothingCancelled(p, before, f);
      if h.Timer? {
        TickIsOps(HandleAll(p, before), h.env, f);
      } else if h.Completed? {
        CompletionIsEvents(HandleAll(p, before), f);
      }
    }
  }

  /** Without a shutdown or a cancel, the host has received all replies but the ones still waiting, in order. */
  lemma NoReplyIsLost(p: Portal, hs: seq<Intake>, f: SlotIndex)
    requires Undisturbed(p, hs, f) && NoStatusQueued(p.sessions[f])
    requires forall h | h in hs :: !MayDrop(h, f)
    ensures CommandReplies(DeliveredTo(p, hs, f)) + Waiting(HandleAll(p, hs).sessions[f])
            == Waiting(p.sessions[f]) + AcceptedReplies(p, hs, f)
  {
    RepliesInOrder(p, hs, f);
    NothingCancelled(p, hs, f);
    OnlyCancelsDrop(p.sessions[f], AllOps(p, hs, f));
    AllReach(AllLeaving(p.sessions[f], AllOps(p, hs, f)));
  }

  /** The status packets the host receives are numbered consecutively, whatever is cancelled in between. */
  lemma StatusesAreNumbered(p: Portal, hs: seq<Intake>, f: SlotIndex)
    requires Inv(p) && Undisturbed(p, hs, f)
    ensures Consecutive(StatusPackets(DeliveredTo(p, hs, f)))
  {
    var s, ops := p.sessions[f], AllOps(p, hs, f);
    assert SessionOk(s, Presence(p.store));
    PortalRunIsSessionRun(p, hs, f);
    StatusesObserved(s, true, ops);
    CountersAreConsecutive(s, true, ops);
  }

  // --------------------------------------------------------------------------
  // Convergence

  /** Events, and only events, advance the epoch of a session. */
  lemma {:induction false} EpochCountsEvents(s: Session, ops: seq<Op>)
    ensures Run(s, ops).epoch >= s.epoch
    ensures Run(s, ops).epoch == s.epoch ==> forall op | op in ops :: !op.Change?
    decreases |ops|
  {
    if ops != [] {
      EpochCountsEvents(Apply(s, ops[0]), ops[1..]);
      assert forall op | op in ops :: op == ops[0] || op in ops[1..];
    }
  }

  /**
    * Convergence on the portal: from any state on, and as long as no further event reaches the session,
    * the fourth status packet that the host receives of those read from then on, and every later one,
    * show exactly which figures are present. One read from before may come first.
    */
  lemma PortalConverges(p: Portal, hs: seq<Intake>, f: SlotIndex, j: nat)
    requires Inv(p) && Undisturbed(p, hs, f) && p.sessions[f].announced
    requires HandleAll(p, hs).sessions[f].epoch == p.sessions[f].epoch
    requires (if HoldsStatus(p.sessions[f]) then 4 else 3) <= j < |StatusPackets(DeliveredTo(p, hs, f))|
    ensures forall i: SlotIndex :: Field(StatusPackets(DeliveredTo(p, hs, f))[j], i) == Bit(p.store.slots[i].present)
  {
    var s, present, ops := p.sessions[f], Presence(p.store), AllOps(p, hs, f);
    assert SessionOk(s, present);
    PortalRunIsSessionRun(p, hs, f);
    EpochCountsEvents(s, ops);
    StatusesObserved(s, false, ops);
    StatusesObserved(s, true, ops);
    var counted := s.readEpoch == s.epoch;
    var seen := Observed(s, counted, ops);
    var k := if seen == StatusPackets(DeliveredTo(p, hs, f)) then j else j - 1;
    forall i: SlotIndex ensures Field(StatusPackets(DeliveredTo(p, hs, f))[j], i) == Bit(p.store.slots[i].present) {
      assert AgreesAt(s, i, present[i]);
      OneSlotConverges(s, counted, i, present[i], ops, k);
      assert present[i] == p.store.slots[i].present;
    }
  }

  // --------------------------------------------------------------------------
  // Leaving and returning

  /** What `e12_event` is called with for one slot, in order. */
  function EventsOn(ops: seq<Op>, x: SlotIndex): seq<bool> {
    if ops == [] then []
    else (if ops[0].Change? && ops[0].slot == x then [ops[0].inserted] else []) + EventsOn(ops[1..], x)
  }

  lemma {:induction false} NoEventOn(ops: seq<Op>, x: SlotIndex)
    requires EventsOn(ops, x) == []
    ensures forall op | op in ops && op.Change? :: op.slot != x
  {
    if ops != [] {
      NoEventOn(ops[1..], x);
      assert forall op | op in ops :: op == ops[0] || op in ops[1..];
    }
  }

  /** The first event on a slot splits a run of operations. */
  lemma {:induction false} FirstEvent(ops: seq<Op>, x: SlotIndex) returns (a: seq<Op>, b: seq<Op>)
    requires EventsOn(ops, x) != []
    ensures ops == a + [Change(x, EventsOn(ops, x)[0])] + b
    ensures EventsOn(a, x) == [] && EventsOn(b, x) == EventsOn(ops, x)[1..]
  {
    if ops[0].Change? && ops[0].slot == x {
      a, b := [], ops[1..];
    } else {
      a, b := FirstEvent(ops[1..], x);
      a := [ops[0]] + a;
      assert a[1..] + [Change(x, EventsOn(ops, x)[0])] + b == ops[1..];
    }
  }

  lemma {:induction false} EventsJoin(a: seq<Op>, b: seq<Op>, x: SlotIndex)
    ensures EventsOn(a + b, x) == EventsOn(a, x) + EventsOn(b, x)
    decreases |a|
  {
    if a == [] {
      assert a + b == b;
    } else {
      assert (a + b)[1..] == a[1..] + b;
      EventsJoin(a[1..], b, x);
    }
  }

  lemma Associates<T>(a: seq<T>, b: seq<T>, c: seq<T>)
    ensures (a + b) + c == a + (b + c)
  {
  }

  lemma {:induction false} AllOpsFront(p: Portal, hs: seq<Intake>, f: SlotIndex)
    requires hs != []
    ensures AllOps(p, hs, f) == OpsOf(p, hs[0], f) + AllOps(Handle(p, hs[0]), hs[1..], f)
  {
    var before, q := hs[..|hs| - 1], Handle(p, hs[0]);
    if |hs| > 1 {
      var rest := hs[1..];
      AllOpsFront(p, before, f);
      HandleAllFront(p, before);
      assert before[1..] == rest[..|rest| - 1];
      Associates(OpsOf(p, hs[0], f), AllOps(q, before[1..], f), OpsOf(HandleAll(p, before), hs[|hs| - 1], f));
    } else {
      assert before == [] && hs[1..] == [];
    }
  }

  /** Before an event within one intake the host receives nothing. */
  lemma EventsComeFirst(p: Portal, h: Intake, f: SlotIndex, a: seq<Op>, op: Op, b: seq<Op>)
    requires !Reannounces(p, h, f) && OpsOf(p, h, f) == a + [op] + b && op.Change?
    ensures OnlyChanges(a)
  {
    var ops := OpsOf(p, h, f);
    assert ops[|a|] == op && op in ops;
    match h {
      case Ipc(m) => RequestIsOps(p, m, f);
      case Timer(env) =>
        TickIsOps(p, env, f);
        assert forall k | 0 <= k < |ops| - 1 :: ops[k] in TickEvents(p, env);
      case Completed => CompletionIsEvents(p, f);
      case Storage(_, _, _) =>
    }
    forall o | o in a ensures o.Change? {
      var k :| 0 <= k < |a| && a[k] == o;
      assert ops[k] == o && o in ops;
    }
  }

  /**
    * A figure that an intake takes out of slot `x`, and that comes back later in the run, is seen by the
    * host as removed, absent, added and present, in that order and with nothing skipped: these are the
    * statuses of the packets in the log, but for one that was read before.
    */
  lemma ReturnIsSeen(p: Portal, hs: seq<Intake>, f: SlotIndex, x: SlotIndex) returns (n: nat)
    requires Inv(p) && hs != [] && Undisturbed(p, hs, f) && !Reannounces(p, hs[0], f)
    requires EventsOn(OpsOf(p, hs[0], f), x) == [false] && EventsOn(AllOps(p, hs, f), x) == [false, true]
    ensures n <= |StatusPackets(DeliveredTo(p, hs, f))| && n <= if HoldsStatus(p.sessions[f]) then 1 else 0
    ensures Follows(Fields(StatusPackets(DeliveredTo(p, hs, f))[n..], x), [2, 0, 3, 1],
                    Entries(HandleAll(p, hs).sessions[f].transitions[x]))
  {
    var s := p.sessions[f];
    assert SessionOk(s, Presence(p.store));
    AllOpsFront(p, hs, f);
    var first, rest := OpsOf(p, hs[0], f), AllOps(Handle(p, hs[0]), hs[1..], f);
    var a, b, between, after := SplitAtEvents(first, rest, x);
    EventsComeFirst(p, hs[0], f, a, Change(x, false), b);
    PortalRunIsSessionRun(p, hs, f);
    n := ReturnInRun(s, x, a, between, after);
  }

  lemma SplitAtEvents(first: seq<Op>, rest: seq<Op>, x: SlotIndex)
    returns (a: seq<Op>, b: seq<Op>, between: seq<Op>, after: seq<Op>)
    requires EventsOn(first, x) == [false] && EventsOn(first + rest, x) == [false, true]
    ensures first == a + [Change(x, false)] + b
    ensures first + rest == a + ([Change(x, false)] + (between + [Change(x, true)] + after))
    ensures EventsOn(between, x) == [] && EventsOn(after, x) == []
  {
    a, b := FirstEvent(first, x);
    assert EventsOn(b + rest, x) == [true] by {
      EventsJoin(first, rest, x);
      EventsJoin(b, rest, x);
      assert EventsOn(rest, x) == ([false] + EventsOn(rest, x))[1..] == [true];
    }
    between, after := FirstEvent(b + rest, x);
    assert first + rest == a + ([Change(x, false)] + (b + rest)) by {
      Regroup(a, [Change(x, false)], b, rest);
    }
  }

  lemma Regroup<T>(a: seq<T>, b: seq<T>, c: seq<T>, d: seq<T>)
    ensures a + b + c + d == a + (b + (c + d))
  {
  }

  lemma ReturnInRun(s: Session, x: SlotIndex, a: seq<Op>, between: seq<Op>, after: seq<Op>) returns (n: nat)
    requires NoStatusQueued(s) && s.readEpoch <= s.epoch && OnlyChanges(a)
    requires EventsOn(between, x) == [] && EventsOn(after, x) == []
    requires Replies(a + ([Change(x, false)] + (between + [Change(x, true)] + after)))
    ensures var ops := a + ([Change(x, false)] + (between + [Change(x, true)] + after));
      var all := StatusPackets(Deliveries(s, ops));
      && n <= |all| && n <= (if HoldsStatus(s) then 1 else 0)
      && Follows(Fields(all[n..], x), [2, 0, 3, 1], Entries(Run(s, ops).transitions[x]))
  {
    var later := between + [Change(x, true)] + after;
    var t := Run(s, a);
    var start := EventOn(t, x, false);
    ChangesKeepQueue(s, a);
    AfterChanges(s, a, x, later);
    NoEventOn(between, x);
    NoEventOn(after, x);
    var ops := a + ([Change(x, false)] + later);
    assert forall op | op in between || op in after :: op in ops;
    LeavingAndReturningIsSeen(t, x, between, after);
    StatusesObserved(start, false, later);
    var all, seen := StatusPackets(Deliveries(start, later)), Observed(start, false, later);
    n := if all == seen then 0 else 1;
    assert all[0..] == all;
  }

  lemma AfterChanges(s: Session, a: seq<Op>, x: SlotIndex, later: seq<Op>)
    requires OnlyChanges(a)
    ensures var start := EventOn(Run(s, a), x, false);
      && Deliveries(s, a + ([Change(x, false)] + later)) == Deliveries(start, later)
      && Run(s, a + ([Change(x, false)] + later)) == Run(start, later)
      && start.read == s.read && start.response == s.response
  {
    ChangesDeliverNothing(s, a);
    DeliveriesConcatenate(s, a, [Change(x, false)] + later);
    RunsConcatenate(s, false, a, [Change(x, false)] + later);
    assert ([Change(x, false)] + later)[1..] == later;
  }

  lemma {:induction false} ChangesKeepQueue(s: Session, ops: seq<Op>)
    requires OnlyChanges(ops) && NoStatusQueued(s) && s.readEpoch <= s.epoch
    ensures var t := Run(s, ops); NoStatusQueued(t) && t.readEpoch <= t.epoch
    decreases |ops|
  {
    if ops != [] {
      assert ops[0] in ops;
      assert forall op | op in ops[1..] :: op in ops;
      ChangesKeepQueue(Apply(s, ops[0]), ops[1..]);
    }
  }
}
