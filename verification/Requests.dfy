/** How each message of the game is answered, held or refused. */
module Requests {
  import opened Words
  import opened HidSession
  import opened PortalSpec
  import opened Completion
  import Memory
  import Announcements

  /** Nothing happens but this answer. */
  predicate Only(p: Portal, m: Message, q: Portal, result: int) {
    q == p.(log := p.log + [Ack(m.token, result)])
  }

  /** A message to an open session that does not hold it already. */
  predicate Arrives(p: Portal, m: Message) {
    m.fd < 16 && m.kind.IoctlFile? && p.sessions[m.fd].read != Some(m.token)
  }

  predicate HasHeader(m: Message) {
    m.input.Some? && m.lengthIn == 32 && m.lengthIo == 0
  }

  /** Only the session of the message and the log differ. */
  predicate OnlySession(p: Portal, m: Message, q: Portal)
    requires m.fd < 16
  {
    q == p.(log := q.log, sessions := p.sessions[m.fd := q.sessions[m.fd]])
  }

  // --------------------------------------------------------------------------
  // Transfers

  /** SET_IDLE or SET_PROTOCOL with a zero value and no data. */
  predicate IsSetting(h: seq<byte>)
    requires |h| == 32
  {
    && h[20] == 0x21 && (h[21] == 10 || h[21] == 11)
    && Be16(h, 22) == 0 && Be16(h, 24) == 0 && Be16(h, 26) == 0
  }

  /** A control transfer that carries no command: settings succeed, another device is -6, the rest is -4. */
  lemma ControlIsAnswered(p: Portal, m: Message)
    requires Arrives(p, m) && m.cmd == 2 && Memory.ReportOf(m).None?
    ensures Only(p, m, Process(p, m),
      if !HasHeader(m) then -4
      else if Be32(m.input.value, 16) != 0 then -6
      else if IsSetting(m.input.value) then 8 else -4)
  {
    if HasHeader(m) && Be32(m.input.value, 16) == 0 {
      SetupIsAnswered(p, m.fd, m.input.value, m.payload);
    }
  }

  /** A class request to the interface that sets a report of at most 32 bytes. */
  predicate SetsReport(h: seq<byte>, payload: Option<seq<byte>>)
    requires |h| == 32
  {
    h[20] == 0x21 && h[21] == 9 && Be16(h, 24) == 0 && 0 < Be16(h, 26) <= 32 && payload.Some?
  }

  lemma NoReportIsAnswered(p: Portal, f: SlotIndex, h: seq<byte>, payload: Option<seq<byte>>)
    requires |h| == 32 && (payload.Some? ==> payload.value != []) && !SetsReport(h, payload)
    ensures Setup(p, f, h, payload) == (p, if IsSetting(h) then 8 else -4)
  {
  }

  lemma MisnumberedIsRefused(p: Portal, f: SlotIndex, h: seq<byte>, payload: Option<seq<byte>>)
    requires |h| == 32 && (payload.Some? ==> payload.value != []) && SetsReport(h, payload)
    requires Be16(h, 22) != 0x200 && Be16(h, 22) - 0x200 != payload.value[0]
    ensures Setup(p, f, h, payload) == (p, -4)
  {
  }

  lemma SetupIsAnswered(p: Portal, f: SlotIndex, h: seq<byte>, payload: Option<seq<byte>>)
    requires |h| == 32 && (payload.Some? ==> payload.value != [] && Be16(h, 26) > 0)
    requires SetsReport(h, payload) ==> Be16(h, 22) != 0x200 && Be16(h, 22) - 0x200 != payload.value[0]
    ensures Setup(p, f, h, payload) == (p, if IsSetting(h) then 8 else -4)
  {
    if SetsReport(h, payload) {
      MisnumberedIsRefused(p, f, h, payload);
    } else {
      NoReportIsAnswered(p, f, h, payload);
    }
  }

  /** An output transfer: 33 to 64 bytes of sound are consumed, 32 bytes only if they are a light report. */
  lemma OutputIsAnswered(p: Portal, m: Message)
    requires Arrives(p, m) && m.cmd == 4
    ensures Only(p, m, Process(p, m),
      if !HasHeader(m) then -4
      else if Be32(m.input.value, 16) != 0 then -6
      else if Be32(m.input.value, 20) != 2 || m.payload.None? then -4
      else
        var d := m.payload.value;
        if 32 < |d| <= 64 || (|d| == 32 && d[0] == 76) then |d| else -4)
  {
  }

  /** A read that the portal holds: 32 mapped bytes on the interrupt endpoint, with no other read held. */
  predicate IsRead(p: Portal, m: Message)
    requires m.fd < 16
  {
    && m.cmd == 3 && HasHeader(m) && Be32(m.input.value, 16) == 0 && Be32(m.input.value, 20) == 0x81
    && m.payload.Some? && |m.payload.value| == 32 && p.sessions[m.fd].read.None?
  }

  lemma DueExactly(now: u32, delay: nat, n: nat)
    requires n < TWO31 && delay < 16
    ensures Since(Plus(now, n), Plus(now, delay)) < TWO31 <==> n >= delay
  {
    var x := (now + n) % TWO32 - (now + delay) % TWO32;
    assert x % TWO32 == (n - delay) % TWO32;
  }

  /**
    * A read is held, and due exactly from the eleventh tick on with the oldest waiting reply, or from
    * the first tick on with a status packet if no reply waits; any other interrupt read is refused.
    */
  lemma ReadIsHeld(p: Portal, m: Message, n: nat)
    requires Arrives(p, m) && m.cmd == 3 && n < TWO31
    ensures var q := Process(p, m);
      if IsRead(p, m) then
        var s, t := p.sessions[m.fd], q.sessions[m.fd];
        && OnlySession(p, m, q) && q.log == p.log && t.read == Some(m.token)
        && (if Queue(s) != [] then t.response == Queue(s)[0] && Queue(t) == Queue(s)[1..]
            else t.response[0] == 83 && t.response[5] == s.counter && Queue(t) == []
                 && t.response[6] == (if s.active then 1 else 0) && t.response[7..] == Zeros(25))
        && (IsDue(t, Plus(p.ticks, n)) <==> n >= if Queue(s) != [] then 11 else 1)
      else Only(p, m, q, if HasHeader(m) && Be32(m.input.value, 16) != 0 then -6 else -4)
  {
    if IsRead(p, m) {
      var s := p.sessions[m.fd];
      if s.count > 0 {
        SubmitTakesOldest(s, m.token, p.ticks);
        DueExactly(p.ticks, 11, n);
      } else {
        DueExactly(p.ticks, 1, n);
      }
    }
  }

  // --------------------------------------------------------------------------
  // The other requests

  /** Discovery is answered once; the next one is held until something changes, and a third is refused. */
  lemma DiscoveryIsHeld(p: Portal, m: Message)
    requires Arrives(p, m) && m.cmd == 0
    ensures var q, s := Process(p, m), p.sessions[m.fd];
      if m.lengthIn != 0 || !m.output || m.lengthIo != 0x600 then Only(p, m, q, -4)
      else if s.change.Some? then Only(p, m, q, -8)
      else if s.discovered then q == p.(sessions := p.sessions[m.fd := s.(change := Some(m.token))])
      else q == p.(sessions := p.sessions[m.fd := s.(discovered := true)], log := p.log + [Ack(m.token, 0)])
  {
  }

  /** Shutdown gives up what the session holds and deactivates it. */
  lemma ShutdownCancels(p: Portal, m: Message)
    requires Arrives(p, m) && m.cmd == 7
    ensures var q, t := Process(p, m), Process(p, m).sessions[m.fd];
      if m.lengthIn != 0 || m.lengthIo != 0 then Only(p, m, q, -4)
      else
        && OnlySession(p, m, q) && !t.active && !t.discovered && t.read.None? && t.change.None? && Queue(t) == []
        && q.log == p.log + Announcements.Cancelled(p.sessions[m.fd]) + [Ack(m.token, 0)]
  {
  }

  /** Cancelling the interrupt endpoint gives up its held read, and only that. */
  lemma CancelGivesUpRead(p: Portal, m: Message)
    requires Arrives(p, m) && m.cmd == 8
    ensures var q, s := Process(p, m), p.sessions[m.fd];
      if m.input.None? || m.lengthIn != 8 || m.lengthIo != 0 then Only(p, m, q, -4)
      else
        var b := m.input.value;
        if Be32(b, 0) != 0 then Only(p, m, q, -6)
        else if b[4] == 0x81 && s.read.Some? then
          q == p.(sessions := p.sessions[m.fd := s.(read := None)],
                  log := p.log + [Ack(s.read.value, -7022), Ack(m.token, 0)])
        else Only(p, m, q, if b[4] == 0x81 || b[4] == 2 then 0 else -4)
  {
  }

  /** Closing zeroes the session after giving up what it holds. */
  lemma CloseForgets(p: Portal, m: Message)
    requires m.fd < 16 && m.kind.CloseFile?
    ensures var q := Process(p, m);
      && OnlySession(p, m, q) && q.sessions[m.fd] == Zeroed()
      && q.log == p.log + Announcements.Cancelled(p.sessions[m.fd]) + [Ack(m.token, 0)]
  {
  }

  /** Suspend does nothing, the status query needs its buffer, and what is not known is refused. */
  lemma OthersAreAnswered(p: Portal, m: Message)
    requires Arrives(p, m) && m.cmd !in {0, 2, 3, 4, 7, 8} && !Announcements.AsksVersion(m)
    ensures Only(p, m, Process(p, m),
      if m.cmd == 1 || (m.cmd == 0xe900 && m.lengthIn == 0 && m.lengthIo == 32 && m.output) then 0 else -4)
  {
  }

  /** A descriptor that is not open and a command that is neither close nor ioctl are refused. */
  lemma StrangersAreRefused(p: Portal, m: Message)
    requires m.fd >= 16 || m.kind.OtherCommand?
    ensures Only(p, m, Process(p, m), -4)
  {
  }
}
