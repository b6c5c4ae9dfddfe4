/** The portal's memory as the game sees it: queries return what was last written. */
module Memory {
  import opened Words
  import opened HidSession
  import opened PortalSpec
  import opened Completion

  /** The command bytes of a request that carries a well-formed SET_REPORT. */
  function ReportOf(m: Message): Option<seq<byte>> {
    if m.fd < 16 && m.kind.IoctlFile? && m.cmd == 2 && m.input.Some? && m.lengthIn == 32 && m.lengthIo == 0
        && m.payload.Some? then
      var h, d := m.input.value, m.payload.value;
      if Be32(h, 16) == 0 && h[20] == 0x21 && h[21] == 9 && Be16(h, 24) == 0 && Be16(h, 26) <= 32
         && (Be16(h, 22) == 0x200 || Be16(h, 22) - 0x200 == d[0])
      then Some(d) else None
    else None
  }

  /** Only SET_REPORT reaches the store, and only through the command it carries. */
  lemma RequestReachesStore(p: Portal, m: Message)
    ensures Process(p, m).store == match ReportOf(m)
                                   case None => p.store
                                   case Some(d) => Report(p, m.fd, d).0.store
  {
  }

  /** The bytes an intake writes to one block, if it is an accepted write to a present figure. */
  function WritesTo(p: Portal, h: Intake, slot: SlotIndex, block: nat): Option<seq<byte>> {
    if !h.Ipc? || ReportOf(h.m).None? then None
    else
      var d := ReportOf(h.m).value;
      if Accepts(d) && d[0] == WRITE && d[1] % 16 == slot && d[2] == block
         && p.store.slots[slot].present && p.sessions[h.m.fd].count < FIFO
      then Some(d[3..19]) else None
  }

  /** An intake that loads a figure into this slot. */
  predicate LoadsInto(p: Portal, h: Intake, slot: SlotIndex) {
    var s := p.store.(busy := false, error := p.store.result, retry := p.ticks);
    var uid := Uid(s.job.data);
    && h.Completed? && s.result >= 0 && s.op != OP_CATALOG && s.op != OP_SAVE
    && !UidTaken(s, uid) && Destination(s, uid) == Some(slot)
  }

  /** The last accepted write to a block from any session, else the loaded bytes, else the first ones. */
  function LastWritten(p: Portal, hs: seq<Intake>, slot: SlotIndex, block: nat): seq<byte>
    requires block < 64
  {
    if hs == [] then Block(p.store.slots[slot].data, block)
    else
      var q, h := HandleAll(p, hs[..|hs| - 1]), hs[|hs| - 1];
      if WritesTo(q, h, slot, block).Some? then WritesTo(q, h, slot, block).value
      else if LoadsInto(q, h, slot) then Block(q.store.job.data, block)
      else LastWritten(p, hs[..|hs| - 1], slot, block)
  }

  lemma WriteTouchesOneBlock(s: Slot, block: nat, bytes: seq<byte>, other: nat)
    requires block < 64 && other < 64 && |bytes| == 16
    ensures Block(Written(s, block, bytes).data, other) == if other == block then bytes else Block(s.data, other)
  {
    if other < block {
      assert 16 * other + 16 <= 16 * block;
    } else if other > block {
      assert 16 * block + 16 <= 16 * other;
    }
  }

  lemma RequestMemory(p: Portal, m: Message, slot: SlotIndex, block: nat)
    requires block < 64
    ensures Block(Process(p, m).store.slots[slot].data, block)
            == if WritesTo(p, Ipc(m), slot, block).Some? then WritesTo(p, Ipc(m), slot, block).value
               else Block(p.store.slots[slot].data, block)
  {
    RequestReachesStore(p, m);
    if ReportOf(m).Some? {
      var d := ReportOf(m).value;
      if Accepts(d) && d[0] == WRITE {
        WriteTouchesOneBlock(p.store.slots[slot], d[2], d[3..19], block);
      }
    }
  }

  predicate SameData(s: Store, t: Store) {
    forall i: SlotIndex :: t.slots[i].data == s.slots[i].data
  }

  lemma TickMemory(p: Portal, env: Env)
    ensures SameData(p.store, Tick(p, env).store)
  {
    var q := p.(ticks := Plus(p.ticks, 1));
    MailboxMemory(q, env);
    ScheduleMemory(if q.ticks % 8 == 0 then Mailbox(q, env) else q, env.sent);
    DeliveryKeepsStore(Poll(q, env), 16);
  }

  lemma BeginMemory(p: Portal, ui: nat, id: nat, action: nat)
    ensures SameData(p.store, Begin(p, ui, id, action).0.store)
  {
  }

  lemma ScheduleMemory(p: Portal, sent: int)
    ensures SameData(p.store, Schedule(p, sent).store)
  {
    var s := p.store;
    if !s.busy && s.count != 0 {
      if s.action != NONE {
        AdvancedMemory(s, sent, p.ticks);
      } else if s.autoload && RetryElapsed(s, p.ticks) {
        BeginMemory(p, 0, 0, LOAD);
      }
    }
  }

  lemma AdvancedMemory(s: Store, sent: int, now: u32)
    ensures SameData(s, Advanced(s, sent, now))
  {
  }

  lemma MailboxMemory(p: Portal, env: Env)
    ensures SameData(p.store, Mailbox(p, env).store)
  {
    var q := Beat(p, env.box.heartbeat);
    var r := SetStore(q, q.store.(requestSeq := env.box.seqno));
    CommandMemory(r, env.box.op, env.box.arg);
  }

  lemma CommandMemory(p: Portal, op: u32, arg: u32)
    ensures SameData(p.store, Command(p, op, arg).0.store)
  {
    if op == 2 || op == 3 {
      BeginMemory(p, arg / 0x1_0000, arg % 0x1_0000, op);
    }
  }

  lemma CompletionMemory(p: Portal, slot: SlotIndex)
    ensures Complete(p).store.slots[slot].data
            == if LoadsInto(p, Completed, slot) then p.store.job.data else p.store.slots[slot].data
  {
    var s := p.store.(busy := false, error := p.store.result, retry := p.ticks);
    if s.result >= 0 {
      if s.op == OP_CATALOG {
        BeginMemory(SetStore(p, s.(count := |s.catalog|)), 0, 0, LOAD);
      } else if s.op != OP_SAVE {
        LoadMemory(SetStore(p, s), slot);
      }
    }
  }

  lemma LoadMemory(p: Portal, slot: SlotIndex)
    ensures var uid := Uid(p.store.job.data);
      CompleteLoad(p).store.slots[slot].data
      == if !UidTaken(p.store, uid) && Destination(p.store, uid) == Some(slot) then p.store.job.data
        else p.store.slots[slot].data
  {
  }

  /** In every run the data of a slot is, block by block, what was last written to it. */
  lemma {:induction false} MemoryIsLastWritten(p: Portal, hs: seq<Intake>, slot: SlotIndex, block: nat)
    requires block < 64
    ensures Block(HandleAll(p, hs).store.slots[slot].data, block) == LastWritten(p, hs, slot, block)
    decreases |hs|
  {
    if hs != [] {
      var before, h := hs[..|hs| - 1], hs[|hs| - 1];
      MemoryIsLastWritten(p, before, slot, block);
      var q := HandleAll(p, before);
      match h {
        case Ipc(m) => RequestMemory(q, m, slot, block);
        case Timer(env) => TickMemory(q, env);
        case Completed => CompletionMemory(q, slot);
        case Storage(result, job, catalog) =>
      }
    }
  }

  /** A command refused because the reply queue is full changes nothing; it is answered with -8. */
  lemma FullQueueRefuses(p: Portal, m: Message)
    requires ReportOf(m).Some? && Accepts(ReportOf(m).value) && HasReply(ReportOf(m).value[0])
    requires p.sessions[m.fd].count == FIFO && p.sessions[m.fd].read != Some(m.token)
    ensures Process(p, m) == Reply(p, m.token, -8)
  {
  }

  /** Every accepted command with a reply queues exactly that reply behind the ones already waiting. */
  lemma AcceptedCommandQueuesReply(p: Portal, m: Message)
    requires ReportOf(m).Some? && Accepts(ReportOf(m).value) && HasReply(ReportOf(m).value[0])
    requires p.sessions[m.fd].count < FIFO
    ensures Queue(Process(p, m).sessions[m.fd]) == Queue(p.sessions[m.fd]) + [Response(p, ReportOf(m).value)]
    ensures forall f: SlotIndex | f != m.fd :: Process(p, m).sessions[f] == p.sessions[f]
    ensures p.sessions[m.fd].read != Some(m.token)
        ==> Process(p, m).log == p.log + [Ack(m.token, |ReportOf(m).value| + 8)]
  {
    PushAppends(p.sessions[m.fd], Response(p, ReportOf(m).value));
  }

  /** An accepted query of a present figure queues the last written bytes of that block. */
  lemma QueryReturnsLastWritten(p: Portal, hs: seq<Intake>, m: Message, slot: SlotIndex, block: nat)
    requires var q := HandleAll(p, hs);
      && ReportOf(m).Some? && Accepts(ReportOf(m).value) && ReportOf(m).value[0] == QUERY
      && ReportOf(m).value[1] % 16 == slot && ReportOf(m).value[2] == block
      && q.store.slots[slot].present && q.sessions[m.fd].count < FIFO
    ensures var q := HandleAll(p, hs);
      Queue(Process(q, m).sessions[m.fd])
      == Queue(q.sessions[m.fd]) + [[QUERY, 16 + slot, block] + LastWritten(p, hs, slot, block) + Zeros(13)]
  {
    var q, d := HandleAll(p, hs), ReportOf(m).value;
    MemoryIsLastWritten(p, hs, slot, block);
    AcceptedCommandQueuesReply(q, m);
    assert Response(q, d) == [QUERY, 16 + slot, block] + Block(q.store.slots[slot].data, block) + Zeros(13);
  }
}
