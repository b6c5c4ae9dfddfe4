/** The bytes the game gets back for each command, and what each command does to the figures. */
module Protocol {
  import opened Words
  import opened HidSession
  import opened PortalSpec
  import opened Completion
  import opened Memory

  /** The commands of the protocol, with the lengths and arguments they may have. */
  predicate Known(d: seq<byte>) {
    && |d| > 0
    && match d[0]
       case 65 => |d| in {2, 32} && d[1] <= 1
       case 67 => |d| in {4, 32}
       case 74 => |d| in {7, 32}
       case 76 => |d| in {5, 32}
       case 77 => |d| in {2, 32}
       case 81 => |d| in {3, 32} && d[2] < 64
       case 82 => |d| in {2, 32}
       case 83 => |d| in {1, 32}
       case 86 => |d| in {4, 32}
       case 87 => |d| in {19, 32} && d[2] < 64
       case _ => false
  }

  /** Colour, light, status and version commands are consumed without a reply. */
  predicate IsSilent(d: seq<byte>)
    requires d != []
  {
    d[0] in {67, 76, 83, 86}
  }

  /** A new message with a SET_REPORT that carries these bytes. */
  predicate Carries(p: Portal, m: Message, d: seq<byte>) {
    ReportOf(m) == Some(d) && d != [] && p.sessions[m.fd].read != Some(m.token)
  }

  /** The command is answered with its length and eight more, and exactly this reply is queued. */
  predicate RepliesWith(p: Portal, m: Message, reply: Packet)
    requires ReportOf(m).Some?
  {
    var q := Process(p, m);
    && q.log == p.log + [Ack(m.token, |ReportOf(m).value| + 8)]
    && Queue(q.sessions[m.fd]) == Queue(p.sessions[m.fd]) + [reply]
    && forall f: SlotIndex | f != m.fd :: q.sessions[f] == p.sessions[f]
  }

  lemma Queues(p: Portal, m: Message, d: seq<byte>, reply: Packet)
    requires Carries(p, m, d) && Accepts(d) && HasReply(d[0]) && p.sessions[m.fd].count < 8
    requires Response(p, d) == reply
    ensures RepliesWith(p, m, reply)
  {
    AcceptedCommandQueuesReply(p, m);
  }

  /** Anything else is refused with -4 and does nothing. */
  lemma OthersAreRefused(p: Portal, m: Message, d: seq<byte>)
    requires Carries(p, m, d) && !Known(d)
    ensures Process(p, m) == Reply(p, m.token, -4)
  {
  }

  /** A silent command only gets its answer. */
  lemma SilentIsAnswered(p: Portal, m: Message, d: seq<byte>)
    requires Carries(p, m, d) && Known(d) && IsSilent(d)
    ensures Process(p, m) == Reply(p, m.token, |d| + 8)
  {
  }

  /** A command that needs a reply is refused with -8 and does nothing while eight replies wait. */
  lemma FullQueueIsRefused(p: Portal, m: Message, d: seq<byte>)
    requires Carries(p, m, d) && Known(d) && !IsSilent(d) && p.sessions[m.fd].count == 8
    ensures Process(p, m) == Reply(p, m.token, -8)
  {
    FullQueueRefuses(p, m);
  }

  /**
    * A write to a present figure stores its sixteen bytes in its block, marks the figure as changed and
    * is confirmed with the slot; a write to an absent one changes nothing and is answered with 1.
    */
  lemma WriteIsConfirmed(p: Portal, m: Message, d: seq<byte>)
    requires Carries(p, m, d) && Known(d) && d[0] == 87 && p.sessions[m.fd].count < 8
    ensures var i, t := d[1] % 16, Process(p, m).store;
      if p.store.slots[i].present
      then
        && RepliesWith(p, m, [87, 0x10 + i, d[2]] + Zeros(29))
        && Block(t.slots[i].data, d[2]) == d[3..19]
        && (forall b: nat | b < 64 && b != d[2] :: Block(t.slots[i].data, b) == Block(p.store.slots[i].data, b))
        && t == p.store.(slots := p.store.slots[i :=
                           p.store.slots[i].(data := t.slots[i].data, generation := p.store.slots[i].generation + 1)])
      else RepliesWith(p, m, [87, 1, d[2]] + Zeros(29)) && t == p.store
  {
    var i := d[1] % 16;
    WriteBytes(p, d);
    Queues(p, m, d, Response(p, d));
    RequestReachesStore(p, m);
    if p.store.slots[i].present {
      forall b: nat | b < 64
        ensures Block(Process(p, m).store.slots[i].data, b)
             == if b == d[2] then d[3..19] else Block(p.store.slots[i].data, b)
      {
        WriteTouchesOneBlock(p.store.slots[i], d[2], d[3..19], b);
      }
    }
  }

  lemma WriteBytes(p: Portal, d: seq<byte>)
    requires Known(d) && d[0] == 87
    ensures Response(p, d)
         == [87, if p.store.slots[d[1] % 16].present then 0x10 + d[1] % 16 else 1, d[2]] + Zeros(29)
  {
  }

  /** A query returns the sixteen bytes of a block of a present figure, and only 1 for an absent one. */
  lemma QueryIsAnswered(p: Portal, m: Message, d: seq<byte>)
    requires Carries(p, m, d) && Known(d) && d[0] == 81 && p.sessions[m.fd].count < 8
    ensures Process(p, m).store == p.store
    ensures var i := d[1] % 16;
      if p.store.slots[i].present
      then RepliesWith(p, m, [81, 0x10 + i, d[2]] + Block(p.store.slots[i].data, d[2]) + Zeros(13))
      else RepliesWith(p, m, [81, 1, d[2]] + Zeros(29))
  {
    QueryBytes(p, d);
    Queues(p, m, d, Response(p, d));
    RequestReachesStore(p, m);
  }

  lemma QueryBytes(p: Portal, d: seq<byte>)
    requires Known(d) && d[0] == 81
    ensures var i := d[1] % 16;
      Response(p, d)
      == if p.store.slots[i].present then [81, 0x10 + i, d[2]] + Block(p.store.slots[i].data, d[2]) + Zeros(13)
         else [81, 1, d[2]] + Zeros(29)
  {
  }

  /** The replies to the other commands depend on nothing but the command. */
  lemma FixedReplies(p: Portal, m: Message, d: seq<byte>)
    requires Carries(p, m, d) && Known(d) && p.sessions[m.fd].count < 8
    ensures d[0] in {65, 74, 77, 82} ==> Process(p, m).store == p.store
    ensures d[0] == 82 ==> RepliesWith(p, m, [82, 2, 0x1b] + Zeros(29))
    ensures d[0] == 65 ==> RepliesWith(p, m, [65, d[1], 0xff, 0x77] + Zeros(28))
    ensures d[0] == 77 ==> RepliesWith(p, m, [77, d[1], 0, 0x19] + Zeros(28))
    ensures d[0] == 74 ==> RepliesWith(p, m, [74] + Zeros(31))
  {
    if d[0] in {65, 74, 77, 82} {
      Queues(p, m, d, Response(p, d));
      RequestReachesStore(p, m);
    }
  }
}
