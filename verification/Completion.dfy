/** Every request is completed exactly once or held exactly once, and no read is held for long. */
module Completion {
  import opened Words
  import opened HidSession
  import opened PortalSpec

  // --------------------------------------------------------------------------
  // Accounting

  function Is(holder: Option<nat>, token: nat): nat {
    if holder == Some(token) then 1 else 0
  }

  /** How often a session holds a request. */
  function Held(s: Session, token: nat): nat {
    Is(s.read, token) + Is(s.change, token)
  }

  function HeldBy(sessions: Sessions, n: nat, token: nat): nat
    requires n <= 16
  {
    if n == 0 then 0 else HeldBy(sessions, n - 1, token) + Held(sessions[n - 1], token)
  }

  /** How often a request was answered. */
  function Answered(log: seq<Ack>, token: nat): nat {
    if log == [] then 0 else Answered(log[..|log| - 1], token) + if log[|log| - 1].token == token then 1 else 0
  }

  function Account(p: Portal, token: nat): nat {
    Answered(p.log, token) + HeldBy(p.sessions, 16, token)
  }

  lemma AnsweredAppend(log: seq<Ack>, a: Ack, token: nat)
    ensures Answered(log + [a], token) == Answered(log, token) + if a.token == token then 1 else 0
  {
    assert (log + [a])[..|log|] == log;
  }

  lemma {:induction false} HeldByUpdate(sessions: Sessions, f: SlotIndex, s: Session, n: nat, token: nat)
    requires n <= 16
    ensures HeldBy(sessions[f := s], n, token)
            == HeldBy(sessions, n, token) + if f < n then Held(s, token) - Held(sessions[f], token) else 0
  {
    if n > 0 {
      HeldByUpdate(sessions, f, s, n - 1, token);
    }
  }

  lemma {:induction false} HeldBySame(a: Sessions, b: Sessions, n: nat, token: nat)
    requires n <= 16
    requires forall f: SlotIndex :: SameRequests(a[f], b[f])
    ensures HeldBy(a, n, token) == HeldBy(b, n, token)
  {
    if n > 0 {
      HeldBySame(a, b, n - 1, token);
      assert SameRequests(a[n - 1], b[n - 1]);
    }
  }

  lemma {:induction false} HeldByHas(sessions: Sessions, f: SlotIndex, n: nat, token: nat)
    requires f < n <= 16
    ensures Held(sessions[f], token) <= HeldBy(sessions, n, token)
  {
    if f < n - 1 {
      HeldByHas(sessions, f, n - 1, token);
    }
  }

  lemma ReplyAccount(p: Portal, answered: nat, result: int, token: nat)
    ensures Account(Reply(p, answered, result), token) == Account(p, token) + if answered == token then 1 else 0
  {
    AnsweredAppend(p.log, Ack(answered, result), token);
  }

  lemma SetSessionAccount(p: Portal, f: SlotIndex, s: Session, token: nat)
    ensures Account(SetSession(p, f, s), token) == Account(p, token) + Held(s, token) - Held(p.sessions[f], token)
  {
    HeldByUpdate(p.sessions, f, s, 16, token);
  }

  predicate SameRequests(s: Session, t: Session) {
    t.read == s.read && t.change == s.change && t.due == s.due && t.response == s.response
  }

  /** Handlers that answer nothing and hold nothing. */
  predicate Silent(p: Portal, q: Portal) {
    q.log == p.log && q.ticks == p.ticks && forall f: SlotIndex :: SameRequests(p.sessions[f], q.sessions[f])
  }

  lemma SilentAccount(p: Portal, q: Portal, token: nat)
    requires Silent(p, q)
    ensures Account(q, token) == Account(p, token)
  {
    HeldBySame(p.sessions, q.sessions, 16, token);
  }

  // --------------------------------------------------------------------------
  // Handlers of the store are silent

  lemma SilentTwice(p: Portal, q: Portal, r: Portal)
    requires Silent(p, q) && Silent(q, r)
    ensures Silent(p, r)
  {
    forall f: SlotIndex ensures SameRequests(p.sessions[f], r.sessions[f]) {
      assert SameRequests(p.sessions[f], q.sessions[f]);
    }
  }

  lemma EventSilent(p: Portal, s: Store, slot: Position, inserted: bool)
    ensures Silent(p, Event(SetStore(p, s), slot, inserted))
  {
  }

  lemma BeginSilent(p: Portal, ui: nat, id: nat, action: nat)
    ensures Silent(p, Begin(p, ui, id, action).0)
  {
    if ui < 16 {
      EventSilent(p, Taken(p.store, ui, id, action, p.ticks), p.store.ui[ui], false);
    }
  }

  lemma CompleteSilent(p: Portal)
    ensures Silent(p, Complete(p))
  {
    var s := p.store.(busy := false, error := p.store.result, retry := p.ticks);
    forall error ensures Silent(p, Restore(SetStore(p, s), error)) {
      EventSilent(p, Restored(s, error), s.outgoing, true);
    }
    forall slot: SlotIndex ensures Silent(p, Place(SetStore(p, s), slot)) {
      EventSilent(p, Placed(s, slot), slot, true);
    }
    var q := SetStore(p, s.(count := |s.catalog|));
    BeginSilent(q, 0, 0, LOAD);
    SilentTwice(p, q, Begin(q, 0, 0, LOAD).0);
  }

  lemma CommandSilent(p: Portal, op: u32, arg: u32)
    ensures Silent(p, Command(p, op, arg).0)
  {
    if op == 2 || op == 3 {
      BeginSilent(p, arg / 0x1_0000, arg % 0x1_0000, op);
    } else if op == 6 {
      assert Silent(p, Rescan(p));
    }
  }

  lemma MailboxSilent(p: Portal, env: Env)
    ensures Silent(p, Mailbox(p, env))
  {
    var q := Beat(p, env.box.heartbeat);
    var r := SetStore(q, q.store.(requestSeq := env.box.seqno));
    CommandSilent(r, env.box.op, env.box.arg);
    SilentTwice(p, r, Command(r, env.box.op, env.box.arg).0);
  }

  lemma ScheduleSilent(p: Portal, sent: int)
    ensures Silent(p, Schedule(p, sent))
  {
    BeginSilent(p, 0, 0, LOAD);
  }

  lemma PollSilent(p: Portal, env: Env)
    ensures Silent(p, Poll(p, env))
  {
    var q := if p.ticks % 8 == 0 then Mailbox(p, env) else p;
    MailboxSilent(p, env);
    ScheduleSilent(q, env.sent);
    SilentTwice(p, q, Schedule(q, env.sent));
  }

  lemma ReportSilent(p: Portal, f: SlotIndex, d: seq<byte>)
    ensures Silent(p, Report(p, f, d).0)
  {
  }

  // --------------------------------------------------------------------------
  // Requests

  lemma CancelAccount(p: Portal, f: SlotIndex, token: nat)
    ensures Account(CancelAll(p, f), token) == Account(p, token)
  {
    var s := p.sessions[f];
    var q := if s.read.Some? then Reply(p, s.read.value, -7022) else p;
    var r := if s.change.Some? then Reply(q, s.change.value, -1) else q;
    if s.read.Some? {
      ReplyAccount(p, s.read.value, -7022, token);
    }
    if s.change.Some? {
      ReplyAccount(q, s.change.value, -1, token);
    }
    SetSessionAccount(r, f, Emptied(s), token);
  }

  function Gain(m: Message, token: nat): nat {
    if m.token == token then 1 else 0
  }

  lemma InputAccount(p: Portal, f: SlotIndex, m: Message, token: nat)
    requires p.sessions[f].read.None?
    ensures var s := HidSession.Submit(p.sessions[f], m.token, p.ticks);
      Account(SetSession(p, f, s), token) == Account(p, token) + Gain(m, token)
  {
    SetSessionAccount(p, f, HidSession.Submit(p.sessions[f], m.token, p.ticks), token);
  }

  /** A transfer holds its message or leaves it to be answered. */
  lemma TransferShape(p: Portal, f: SlotIndex, m: Message)
    ensures var q := Transfer(p, f, m).0;
      || Silent(p, q)
      || (p.sessions[f].read.None? && q == SetSession(p, f, HidSession.Submit(p.sessions[f], m.token, p.ticks)))
  {
    if m.payload.Some? {
      ReportSilent(p, f, m.payload.value);
    }
  }

  lemma TransferAccount(p: Portal, f: SlotIndex, m: Message, token: nat)
    requires p.sessions[f].read != Some(m.token)
    ensures var r := Transfer(p, f, m);
      var q := if r.0.sessions[f].read == Some(m.token) then r.0 else Reply(r.0, m.token, r.1);
      Account(q, token) == Account(p, token) + Gain(m, token)
  {
    TransferShape(p, f, m);
    var r := Transfer(p, f, m);
    if Silent(p, r.0) {
      SilentAccount(p, r.0, token);
      assert SameRequests(p.sessions[f], r.0.sessions[f]);
      ReplyAccount(r.0, m.token, r.1, token);
    } else {
      InputAccount(p, f, m, token);
    }
  }

  lemma EndpointAccount(p: Portal, f: SlotIndex, m: Message, token: nat)
    ensures Account(CancelEndpoint(p, f, m), token) == Account(p, token) + Gain(m, token)
  {
    if m.input.None? || m.lengthIn != 8 || m.lengthIo != 0 {
      ReplyAccount(p, m.token, -4, token);
    } else if Be32(m.input.value, 0) != 0 {
      ReplyAccount(p, m.token, -6, token);
    } else if m.input.value[4] != 0x81 && m.input.value[4] != 2 {
      ReplyAccount(p, m.token, -4, token);
    } else if m.input.value[4] == 0x81 && p.sessions[f].read.Some? {
      DropReadAccount(p, f, m, token);
    } else {
      ReplyAccount(p, m.token, 0, token);
    }
  }

  lemma DropReadAccount(p: Portal, f: SlotIndex, m: Message, token: nat)
    requires p.sessions[f].read.Some?
    ensures var s := p.sessions[f];
      Account(Reply(SetSession(Reply(p, s.read.value, -7022), f, s.(read := None)), m.token, 0), token)
        == Account(p, token) + Gain(m, token)
  {
    var s := p.sessions[f];
    var q := Reply(p, s.read.value, -7022);
    ReplyAccount(p, s.read.value, -7022, token);
    SetSessionAccount(q, f, s.(read := None), token);
    ReplyAccount(SetSession(q, f, s.(read := None)), m.token, 0, token);
  }

  lemma ChangeAccount(p: Portal, f: SlotIndex, m: Message, token: nat)
    requires m.cmd == 0
    ensures Account(Ioctl(p, f, m), token) == Account(p, token) + Gain(m, token)
  {
    var s := p.sessions[f];
    if m.lengthIn != 0 || !m.output || m.lengthIo != 0x600 {
      ReplyAccount(p, m.token, -4, token);
    } else if s.change.Some? {
      ReplyAccount(p, m.token, -8, token);
    } else if s.discovered {
      SetSessionAccount(p, f, s.(change := Some(m.token)), token);
    } else {
      SetSessionAccount(p, f, s.(discovered := true), token);
      ReplyAccount(SetSession(p, f, s.(discovered := true)), m.token, 0, token);
    }
  }

  lemma ResetAccount(p: Portal, f: SlotIndex, s: Session, answered: nat, result: int, token: nat)
    requires s.read.None? && s.change.None?
    ensures Account(Reply(SetSession(CancelAll(p, f), f, s), answered, result), token)
            == Account(p, token) + if answered == token then 1 else 0
  {
    CancelAccount(p, f, token);
    SetSessionAccount(CancelAll(p, f), f, s, token);
    ReplyAccount(SetSession(CancelAll(p, f), f, s), answered, result, token);
  }

  lemma PlainAccount(p: Portal, f: SlotIndex, m: Message, token: nat)
    requires m.cmd != 0 && m.cmd != 8 && !(2 <= m.cmd <= 4)
    requires !(m.cmd == 6 && IsVersionRequest(m)) && !(m.cmd == 7 && m.lengthIn == 0 && m.lengthIo == 0)
    ensures Account(Ioctl(p, f, m), token) == Account(p, token) + Gain(m, token)
  {
    ReplyAccount(p, m.token, 0, token);
    ReplyAccount(p, m.token, -4, token);
  }

  lemma IoctlAccount(p: Portal, f: SlotIndex, m: Message, token: nat)
    requires p.sessions[f].read != Some(m.token)
    ensures Account(Ioctl(p, f, m), token) == Account(p, token) + Gain(m, token)
  {
    if m.cmd == 0 {
      ChangeAccount(p, f, m, token);
    } else if m.cmd == 8 {
      EndpointAccount(p, f, m, token);
    } else if 2 <= m.cmd <= 4 {
      TransferAccount(p, f, m, token);
    } else if m.cmd == 6 && IsVersionRequest(m) {
      ResetAccount(p, f, AnnounceOn(Zeroed().(active := true), Presence(p.store)), m.token, 0x40001, token);
    } else if m.cmd == 7 && m.lengthIn == 0 && m.lengthIo == 0 {
      ResetAccount(p, f, CancelAll(p, f).sessions[f].(active := false), m.token, 0, token);
    } else {
      PlainAccount(p, f, m, token);
    }
  }

  /** A request not already held is afterwards either answered once or held once. */
  lemma ProcessAccount(p: Portal, m: Message, token: nat)
    requires HeldBy(p.sessions, 16, m.token) == 0
    ensures Account(Process(p, m), token) == Account(p, token) + Gain(m, token)
  {
    if m.fd >= 16 || m.kind.OtherCommand? {
      ReplyAccount(p, m.token, -4, token);
    } else if m.kind.CloseFile? {
      ResetAccount(p, m.fd, Zeroed(), m.token, 0, token);
    } else {
      HeldByHas(p.sessions, m.fd, 16, m.token);
      IoctlAccount(p, m.fd, m, token);
    }
  }

  /** Closing, asking for the version and resetting leave nothing held and nothing queued for their session. */
  lemma ResetLeavesNothingHeld(p: Portal, m: Message)
    requires m.fd < 16
    requires m.kind.CloseFile?
        || (m.kind.IoctlFile? && (IsVersionRequest(m) || (m.cmd == 7 && m.lengthIn == 0 && m.lengthIo == 0)))
    ensures var s := Process(p, m).sessions[m.fd]; s.read.None? && s.change.None? && Queue(s) == []
  {
  }

  lemma DeliverOneAccount(p: Portal, f: SlotIndex, token: nat)
    ensures Account(DeliverOne(p, f), token) == Account(p, token)
  {
    var s := p.sessions[f];
    if IsDue(s, p.ticks) {
      var q := SetSession(p, f, HidSession.Deliver(s));
      SetSessionAccount(p, f, HidSession.Deliver(s), token);
      DeliverHeld(s, token);
      AnsweredAppend(p.log, ReadAck(s.read.value, f, s.response), token);
      assert DeliverOne(p, f) == q.(log := p.log + [ReadAck(s.read.value, f, s.response)]);
    }
  }

  lemma DeliverHeld(s: Session, token: nat)
    requires s.read.Some?
    ensures Held(HidSession.Deliver(s), token) + Is(s.read, token) == Held(s, token)
  {
  }

  lemma {:induction false} DeliverAllAccount(p: Portal, n: nat, token: nat)
    requires n <= 16
    ensures Account(DeliverAll(p, n), token) == Account(p, token)
  {
    if n > 0 {
      DeliverAllAccount(p, n - 1, token);
      DeliverOneAccount(DeliverAll(p, n - 1), n - 1, token);
    }
  }

  lemma TickAccount(p: Portal, env: Env, token: nat)
    ensures Account(Tick(p, env), token) == Account(p, token)
  {
    var q := p.(ticks := Plus(p.ticks, 1));
    PollSilent(q, env);
    SilentAccount(q, Poll(q, env), token);
    DeliverAllAccount(Poll(q, env), 16, token);
  }

  // --------------------------------------------------------------------------
  // Runs

  /** What the HID worker takes from its queue; the storage worker may change the store in between. */
  datatype Intake = Ipc(m: Message) | Timer(env: Env) | Completed | Storage(result: int, job: Job, catalog: seq<u32>)

  function Handle(p: Portal, h: Intake): Portal {
    match h
    case Ipc(m) => Process(p, m)
    case Timer(env) => Tick(p, env)
    case Completed => Complete(p)
    case Storage(result, job, catalog) => SetStore(p, p.store.(result := result, job := job, catalog := catalog))
  }

  function HandleAll(p: Portal, hs: seq<Intake>): Portal {
    if hs == [] then p else Handle(HandleAll(p, hs[..|hs| - 1]), hs[|hs| - 1])
  }

  lemma {:induction false} HandleAllFront(p: Portal, hs: seq<Intake>)
    requires hs != []
    ensures HandleAll(p, hs) == HandleAll(Handle(p, hs[0]), hs[1..])
  {
    var before := hs[..|hs| - 1];
    if |hs| > 1 {
      HandleAllFront(p, before);
      assert before[1..] == hs[1..][..|hs[1..]| - 1];
    } else {
      assert before == [] && hs[1..] == [];
    }
  }

  /** How often a request was received. */
  function ReceivedTimes(hs: seq<Intake>, token: nat): nat {
    if hs == [] then 0
    else ReceivedTimes(hs[..|hs| - 1], token) + if hs[|hs| - 1].Ipc? then Gain(hs[|hs| - 1].m, token) else 0
  }

  /** Every received message has its own token. */
  ghost predicate Distinct(hs: seq<Intake>) {
    forall token :: ReceivedTimes(hs, token) <= 1
  }

  lemma {:induction false} FreshAccount(n: nat, token: nat)
    requires n <= 16
    ensures HeldBy(Fresh().sessions, n, token) == 0
  {
    if n > 0 {
      FreshAccount(n - 1, token);
    }
  }

  lemma StepAccount(p: Portal, h: Intake, token: nat)
    requires h.Ipc? ==> HeldBy(p.sessions, 16, h.m.token) == 0
    ensures Account(Handle(p, h), token) == Account(p, token) + if h.Ipc? then Gain(h.m, token) else 0
  {
    match h {
      case Ipc(m) => ProcessAccount(p, m, token);
      case Timer(env) => TickAccount(p, env, token);
      case Completed =>
        CompleteSilent(p);
        SilentAccount(p, Complete(p), token);
      case Storage(result, job, catalog) => SilentAccount(p, Handle(p, h), token);
    }
  }

  /**
    * Exactly-once completion: in every run, each request received has either been answered exactly
    * once or is held as exactly one session's read or change request, and nothing else is answered.
    */
  lemma {:induction false} AnsweredOnceOrHeldOnce(hs: seq<Intake>, token: nat)
    requires Distinct(hs)
    ensures var p := HandleAll(Fresh(), hs);
      Answered(p.log, token) + HeldBy(p.sessions, 16, token) == ReceivedTimes(hs, token)
    decreases |hs|
  {
    if hs == [] {
      FreshAccount(16, token);
    } else {
      var before, h := hs[..|hs| - 1], hs[|hs| - 1];
      assert Distinct(before) by {
        forall t: nat ensures ReceivedTimes(before, t) <= 1 {
          assert ReceivedTimes(hs, t) <= 1;
        }
      }
      AnsweredOnceOrHeldOnce(before, token);
      if h.Ipc? {
        assert ReceivedTimes(hs, h.m.token) <= 1;
        AnsweredOnceOrHeldOnce(before, h.m.token);
      }
      StepAccount(HandleAll(Fresh(), before), h, token);
    }
  }

  // --------------------------------------------------------------------------
  // Deadlines

  /** Ticks until a held read is answered. */
  function Remaining(s: Session, now: u32): int {
    Since(s.due, now)
  }

  predicate Timely(p: Portal) {
    forall f: SlotIndex :: p.sessions[f].read.Some? ==> 1 <= Remaining(p.sessions[f], p.ticks) <= 11
  }

  lemma SubmittedRemaining(s: Session, token: nat, now: u32)
    ensures Remaining(HidSession.Submit(s, token, now), now) == if s.count > 0 then 11 else 1
  {
    RemainingOfPlus(now, 11);
    RemainingOfPlus(now, 1);
  }

  lemma RemainingOfPlus(now: u32, n: nat)
    requires n < TWO31
    ensures Since(Plus(now, n), now) == n
  {
    if now + n < TWO32 {
      assert Plus(now, n) == now + n;
    } else {
      assert Plus(now, n) == now + n - TWO32;
    }
  }

  /** One tick later a read is due exactly if it had one tick left, also across the wrap of the counter. */
  lemma TickReduces(due: u32, now: u32)
    requires 1 <= Since(due, now) <= 11
    ensures Since(due, Plus(now, 1)) == Since(due, now) - 1
    ensures Since(Plus(now, 1), due) < TWO31 <==> Since(due, now) == 1
  {
    var r := Since(due, now);
    assert (due - now - r) % TWO32 == 0;
    var next := Plus(now, 1);
    assert next == now + 1 || next == now + 1 - TWO32;
    assert due == now + r || due == now + r - TWO32;
    assert due - next == r - 1 || due - next == r - 1 - TWO32 || due - next == r - 1 + TWO32;
  }

  /** The read a session holds is the same one, or it has been answered. */
  predicate HeldOrAnswered(p: Portal, q: Portal, f: SlotIndex, token: nat) {
    && p.log <= q.log
    && (p.sessions[f].read == Some(token) ==>
          (q.sessions[f].read == Some(token) && q.sessions[f].due == p.sessions[f].due)
          || exists k :: |p.log| <= k < |q.log| && q.log[k].token == token)
  }

  /** A request acts on its own session only. */
  lemma OthersUntouched(p: Portal, m: Message, f: SlotIndex)
    requires m.fd != f
    ensures Process(p, m).sessions[f] == p.sessions[f]
  {
    if m.payload.Some? && m.fd < 16 {
      ReportOwnSession(p, m.fd, m.payload.value, f);
    }
  }

  lemma ReportOwnSession(p: Portal, g: SlotIndex, d: seq<byte>, f: SlotIndex)
    requires g != f
    ensures Report(p, g, d).0.sessions[f] == p.sessions[f]
  {
  }

  /** A request that takes the held read away answers it first. */
  lemma TakenReadIsAnswered(p: Portal, m: Message)
    requires m.fd < 16 && p.sessions[m.fd].read.Some? && p.sessions[m.fd].read != Some(m.token)
    requires Process(p, m).sessions[m.fd].read != p.sessions[m.fd].read
    ensures |p.log| < |Process(p, m).log| && Process(p, m).log[|p.log|].token == p.sessions[m.fd].read.value
  {
    if m.payload.Some? {
      ReportSilent(p, m.fd, m.payload.value);
    }
  }

  lemma ReadKeepsDeadline(p: Portal, m: Message)
    requires m.fd < 16 && p.sessions[m.fd].read.Some?
    requires Process(p, m).sessions[m.fd].read == p.sessions[m.fd].read
    ensures Process(p, m).sessions[m.fd].due == p.sessions[m.fd].due
  {
    if m.payload.Some? {
      ReportSilent(p, m.fd, m.payload.value);
    }
  }

  lemma ProcessHeld(p: Portal, m: Message, f: SlotIndex, token: nat)
    requires p.sessions[f].read != Some(m.token)
    ensures HeldOrAnswered(p, Process(p, m), f, token)
  {
    LogGrows(p, m);
    if m.fd != f {
      OthersUntouched(p, m, f);
    } else if p.sessions[f].read == Some(token) {
      if Process(p, m).sessions[f].read == Some(token) {
        ReadKeepsDeadline(p, m);
      } else {
        TakenReadIsAnswered(p, m);
      }
    }
  }

  lemma ProcessTimely(p: Portal, m: Message)
    requires Timely(p)
    ensures Timely(Process(p, m))
  {
    forall f: SlotIndex | Process(p, m).sessions[f].read.Some?
      ensures 1 <= Remaining(Process(p, m).sessions[f], Process(p, m).ticks) <= 11
    {
      if m.fd != f {
        OthersUntouched(p, m, f);
      } else {
        SubmittedRemaining(p.sessions[f], m.token, p.ticks);
        if m.payload.Some? {
          ReportSilent(p, f, m.payload.value);
        }
      }
    }
  }

  /** Delivery touches exactly the sessions whose read is due. */
  lemma {:induction false} DeliverAllMeaning(p: Portal, n: nat, f: SlotIndex)
    requires n <= 16
    ensures var q := DeliverAll(p, n);
      && q.ticks == p.ticks && p.log <= q.log
      && (f >= n || !IsDue(p.sessions[f], p.ticks) ==> q.sessions[f] == p.sessions[f])
      && (f < n && IsDue(p.sessions[f], p.ticks) ==>
            q.sessions[f].read.None? && exists k ::
                  |p.log| <= k < |q.log| && q.log[k] == ReadAck(p.sessions[f].read.value, f, p.sessions[f].response))
  {
    if n > 0 {
      DeliverAllMeaning(p, n - 1, f);
      var r, q := DeliverAll(p, n - 1), DeliverAll(p, n);
      assert r.log <= q.log;
      if f == n - 1 && IsDue(p.sessions[f], p.ticks) {
        assert q.log[|r.log|] == ReadAck(p.sessions[f].read.value, f, p.sessions[f].response);
      }
    }
  }

  lemma TickSession(p: Portal, env: Env, f: SlotIndex)
    requires p.sessions[f].read.Some? && 1 <= Remaining(p.sessions[f], p.ticks) <= 11
    ensures var s, q := p.sessions[f], Tick(p, env);
      && q.ticks == Plus(p.ticks, 1) && p.log <= q.log
      && if Remaining(s, p.ticks) == 1
         then q.sessions[f].read.None? && exists k :: |p.log| <= k < |q.log| && q.log[k].token == s.read.value
         else q.sessions[f].read == s.read && q.sessions[f].due == s.due
  {
    TickReduces(p.sessions[f].due, p.ticks);
    var q := p.(ticks := Plus(p.ticks, 1));
    PollSilent(q, env);
    DeliverAllMeaning(Poll(q, env), 16, f);
  }

  lemma TickTimely(p: Portal, env: Env)
    requires Timely(p)
    ensures Timely(Tick(p, env))
  {
    var q := p.(ticks := Plus(p.ticks, 1));
    PollSilent(q, env);
    forall f: SlotIndex | Tick(p, env).sessions[f].read.Some?
      ensures 1 <= Remaining(Tick(p, env).sessions[f], Tick(p, env).ticks) <= 11
    {
      DeliverAllMeaning(Poll(q, env), 16, f);
      if p.sessions[f].read.Some? {
        TickSession(p, env, f);
        TickReduces(p.sessions[f].due, p.ticks);
      }
    }
  }

  lemma HandleTimely(p: Portal, h: Intake)
    requires Timely(p)
    ensures Timely(Handle(p, h))
  {
    match h {
      case Ipc(m) => ProcessTimely(p, m);
      case Timer(env) => TickTimely(p, env);
      case Completed => CompleteSilent(p);
      case Storage(result, job, catalog) =>
    }
  }

  function Timers(hs: seq<Intake>): nat {
    if hs == [] then 0 else Timers(hs[..|hs| - 1]) + if hs[|hs| - 1].Timer? then 1 else 0
  }

  /** A request was answered after the first `since` answers. */
  predicate Answers(p: Portal, token: nat, since: nat) {
    exists k :: since <= k < |p.log| && p.log[k].token == token
  }

  /** A held read is answered, or it is still held and every tick has brought its deadline one closer. */
  lemma {:induction false} CountsDown(p: Portal, f: SlotIndex, token: nat, hs: seq<Intake>)
    requires Timely(p) && p.sessions[f].read == Some(token)
    requires forall h | h in hs && h.Ipc? :: h.m.token != token
    ensures var q := HandleAll(p, hs);
      && Timely(q)
      && p.log <= q.log
      && (Answers(q, token, |p.log|) ||
          (q.sessions[f].read == Some(token)
            && Remaining(q.sessions[f], q.ticks) == Remaining(p.sessions[f], p.ticks) - Timers(hs)))
  {
    if hs != [] {
      var before, h := hs[..|hs| - 1], hs[|hs| - 1];
      assert forall x | x in before :: x in hs;
      assert h in hs;
      CountsDown(p, f, token, before);
      var q := HandleAll(p, before);
      HandleTimely(q, h);
      StepCountsDown(q, f, token, h, |p.log|);
    }
  }

  lemma StepCountsDown(q: Portal, f: SlotIndex, token: nat, h: Intake, since: nat)
    requires Timely(q) && (h.Ipc? ==> h.m.token != token) && since <= |q.log|
    ensures q.log <= Handle(q, h).log
    ensures Answers(q, token, since) ==> Answers(Handle(q, h), token, since)
    ensures q.sessions[f].read == Some(token) ==>
      var r := Handle(q, h);
      Answers(r, token, since) ||
      (r.sessions[f].read == Some(token)
       && Remaining(r.sessions[f], r.ticks) == Remaining(q.sessions[f], q.ticks) - if h.Timer? then 1 else 0)
  {
    var r := Handle(q, h);
    match h {
      case Ipc(m) =>
        LogGrows(q, m);
        if q.sessions[f].read == Some(token) {
          ProcessHeld(q, m, f, token);
        }
      case Timer(env) =>
        TickCountsDown(q, f, token, env);
      case Completed => CompleteSilent(q);
      case Storage(result, job, catalog) =>
    }
  }

  lemma TickCountsDown(q: Portal, f: SlotIndex, token: nat, env: Env)
    requires Timely(q)
    ensures q.log <= Tick(q, env).log
    ensures q.sessions[f].read == Some(token) ==>
      var r := Tick(q, env);
      Answers(r, token, |q.log|) ||
      (r.sessions[f].read == Some(token) && Remaining(r.sessions[f], r.ticks) == Remaining(q.sessions[f], q.ticks) - 1)
  {
    var t := q.(ticks := Plus(q.ticks, 1));
    PollSilent(t, env);
    DeliverAllMeaning(Poll(t, env), 16, f);
    if q.sessions[f].read == Some(token) {
      TickSession(q, env, f);
      TickReduces(q.sessions[f].due, q.ticks);
    }
  }

  lemma LogGrows(p: Portal, m: Message)
    ensures p.log <= Process(p, m).log
  {
    if m.payload.Some? && m.fd < 16 {
      ReportSilent(p, m.fd, m.payload.value);
    }
  }

  lemma {:induction false} RunTimely(hs: seq<Intake>)
    ensures Timely(HandleAll(Fresh(), hs))
  {
    if hs != [] {
      RunTimely(hs[..|hs| - 1]);
      HandleTimely(HandleAll(Fresh(), hs[..|hs| - 1]), hs[|hs| - 1]);
    }
  }

  /**
    * However the other events fall, and wherever the tick counter wraps, a read held in any reachable
    * state has been answered by the eleventh tick from then.
    */
  lemma AnsweredByEleventhTick(before: seq<Intake>, f: SlotIndex, token: nat, after: seq<Intake>)
    requires HandleAll(Fresh(), before).sessions[f].read == Some(token) && Timers(after) >= 11
    requires forall h | h in after && h.Ipc? :: h.m.token != token
    ensures Answers(HandleAll(HandleAll(Fresh(), before), after), token, |HandleAll(Fresh(), before).log|)
  {
    RunTimely(before);
    CountsDown(HandleAll(Fresh(), before), f, token, after);
  }
}
