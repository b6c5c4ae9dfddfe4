/**
  * The portal as the source writes it: statics updated in place by handlers with loops over slots
  * and sessions. Every method is proved against its function in PortalSpec.
  */
module PortalMachine {
  import opened Words
  import opened HidSession
  import opened PortalSpec

  /** Taking a position notes the action and hides its figure, in either order. */
  lemma TakenIsHidden(p: Portal, s: Store, position: SlotIndex, id: nat, act: nat)
    requires s == p.store.(outgoing := p.store.ui[position], actionUi := position, target := id, action := act,
                           removeTick := p.ticks, error := 0)
    ensures PortalSpec.Event(SetStore(p, SetPresent(s, s.outgoing, false)), s.outgoing, false)
        == PortalSpec.Take(p, position, id, act)
  {
  }

  // --------------------------------------------------------------------------
  // The packed status word

  function Pow4(n: nat): nat {
    if n == 0 then 1 else 4 * Pow4(n - 1)
  }

  /** The fields of the first `n` slots, or-ed into one word. */
  function Word(st: Statuses, n: nat): nat
    requires n <= 16
  {
    if n == 0 then 0 else Word(st, n - 1) + st[n - 1] * Pow4(n - 1)
  }

  /** Four more fields are one more byte. */
  lemma WordGrows(st: Statuses, n: nat)
    requires n <= 12
    ensures Word(st, n + 4) == Word(st, n) + Pow4(n) * Four(st, n)
  {
    assert Pow4(n + 1) == 4 * Pow4(n) && Pow4(n + 2) == 16 * Pow4(n) && Pow4(n + 3) == 64 * Pow4(n);
    var a, b, c, d, p := st[n] as int, st[n + 1] as int, st[n + 2] as int, st[n + 3] as int, Pow4(n);
    calc {
      Word(st, n + 4);
      Word(st, n + 3) + d * (64 * p);
      Word(st, n + 2) + c * (16 * p) + d * (64 * p);
      Word(st, n + 1) + b * (4 * p) + c * (16 * p) + d * (64 * p);
      Word(st, n) + a * p + b * (4 * p) + c * (16 * p) + d * (64 * p);
      { Regroup(p, a, b, c, d); }
      Word(st, n) + p * Pack(a, b, c, d);
    }
  }

  lemma Regroup(p: int, a: int, b: int, c: int, d: int)
    ensures a * p + b * (4 * p) + c * (16 * p) + d * (64 * p) == p * Pack(a, b, c, d)
  {
  }

  /** The bytes of the finished word are the packet's four status bytes. */
  lemma WordBytes(st: Statuses)
    ensures var w := Word(st, 16);
      && w % 256 == Four(st, 0) && w / 0x100 % 256 == Four(st, 4)
      && w / 0x1_0000 % 256 == Four(st, 8) && w / 0x100_0000 % 256 == Four(st, 12)
  {
    FourBytes(st);
    BytesOf(Four(st, 0), Four(st, 4), Four(st, 8), Four(st, 12));
  }

  lemma FourBytes(st: Statuses)
    ensures Word(st, 16) == Four(st, 0) + 0x100 * Four(st, 4) + 0x1_0000 * Four(st, 8) + 0x100_0000 * Four(st, 12)
  {
    WordGrows(st, 0);
    WordGrows(st, 4);
    WordGrows(st, 8);
    WordGrows(st, 12);
    ByteSteps();
  }

  lemma ByteSteps()
    ensures Pow4(0) == 1 && Pow4(4) == 0x100 && Pow4(8) == 0x1_0000 && Pow4(12) == 0x100_0000
  {
    ByteStep(0);
    ByteStep(4);
    ByteStep(8);
  }

  lemma ByteStep(n: nat)
    ensures Pow4(n + 4) == 256 * Pow4(n)
  {
    assert Pow4(n + 4) == 4 * Pow4(n + 3) == 16 * Pow4(n + 2) == 64 * Pow4(n + 1);
  }

  lemma BytesOf(a: byte, b: byte, c: byte, d: byte)
    ensures var w := a + 0x100 * b + 0x1_0000 * c + 0x100_0000 * d;
      w % 256 == a && w / 0x100 % 256 == b && w / 0x1_0000 % 256 == c && w / 0x100_0000 % 256 == d
  {
    var w := a + 0x100 * b + 0x1_0000 * c + 0x100_0000 * d;
    assert w == a + 0x100 * (b + 0x100 * c + 0x1_0000 * d) && w / 0x100 == b + 0x100 * c + 0x1_0000 * d;
    assert w == (a + 0x100 * b) + 0x1_0000 * (c + 0x100 * d) && w / 0x1_0000 == c + 0x100 * d;
    assert w / 0x100_0000 == d;
  }

  // --------------------------------------------------------------------------
  // The statics and their handlers

  class Machine {
    const slots: array<Slot>
    const ui: array<Position>
    const sessions: array<Session>
    var ticks: u32
    var log: seq<Ack>
    var catalog: seq<u32>
    var count: nat
    var action: nat
    var actionUi: SlotIndex
    var outgoing: Position
    var target: nat
    var removeTick: u32
    var busy: bool
    var op: nat
    var result: int
    var job: Job
    var diskSlot: SlotIndex
    var snapshot: nat
    var error: int
    var retry: u32
    var cursor: SlotIndex
    var flush: bool
    var autoload: bool
    var view: SlotIndex
    var page: nat
    var requestSeq: u32
    var heartbeat: u32
    var heartbeatTick: u32

    ghost predicate Valid() {
      slots.Length == 16 && ui.Length == 16 && sessions.Length == 16
    }

    ghost function State(): Portal
      reads this, slots, ui, sessions
      requires Valid()
    {
      Portal(Store(slots[..], ui[..], catalog, count, action, actionUi, outgoing, target, removeTick,
                   busy, op, result, job, diskSlot, snapshot, error, retry, cursor, flush, autoload,
                   view, page, requestSeq, heartbeat, heartbeatTick),
             sessions[..], ticks, log)
    }

    constructor ()
      ensures Valid() && fresh(slots) && fresh(ui) && fresh(sessions)
      ensures State() == Fresh()
    {
      slots := new Slot[16](_ => EmptySlot());
      ui := new Position[16](_ => EMPTY);
      sessions := new Session[16](_ => Zeroed());
      ticks, log, catalog, count, action, actionUi, outgoing, target, removeTick := 0, [], [], 0, NONE, 0, EMPTY, 0, 0;
      busy, op, result, job, diskSlot, snapshot := false, 0, 0, Job(0, 0, 0, Zeros(1024)), 0, 0;
      error, retry, cursor, flush, autoload := 0, 0, 0, false, true;
      view, page, requestSeq, heartbeat, heartbeatTick := 0, 0, 0, 0, 0;
      new;
      assert slots[..] == seq(16, _ => EmptySlot());
      assert ui[..] == seq<Position>(16, _ => EMPTY);
      assert sessions[..] == seq(16, _ => Zeroed());
    }

    // ------------------------------------------------------------------------
    // Status transitions

    /** `e12_event`. */
    method Event(slot: SlotIndex, inserted: bool)
      requires Valid()
      modifies sessions
      ensures State() == PortalSpec.Event(old(State()), slot, inserted)
    {
      var i := 0;
      while i < 16
        invariant 0 <= i <= 16
        invariant forall f | 0 <= f < i :: sessions[f] == EventOn(old(sessions[f]), slot, inserted)
        invariant forall f | i <= f < 16 :: sessions[f] == old(sessions[f])
      {
        var s := sessions[i];
        var q := s.transitions[slot];
        s := s.(epoch := s.epoch + 1);
        if inserted {
          if q == 4 {
            s := s.(transitions := s.transitions[slot := 0x574]);
          } else if q == 0x46 {
            s := s.(transitions := s.transitions[slot := 0x5746]);
          } else {
            s := s.(transitions := s.transitions[slot := 0x57]);
          }
        } else {
          s := s.(transitions := s.transitions[slot := 0x46]);
        }
        sessions[i] := s;
        i := i + 1;
      }
      assert sessions[..] == PortalSpec.Event(old(State()), slot, inserted).sessions;
    }

    /** `e12_announce`. */
    method Announce(f: SlotIndex)
      requires Valid()
      modifies sessions
      ensures sessions[..] == old(sessions[..])[f := AnnounceOn(old(sessions[f]), Presence(State().store))]
    {
      var s := sessions[f];
      s := s.(epoch := s.epoch + 1, announced := true);
      var status: Statuses, transitions: Transitions := s.status, s.transitions;
      var i := 0;
      while i < 16
        invariant 0 <= i <= 16
        invariant forall j | 0 <= j < i :: status[j] == 0 && transitions[j] == if slots[j].present then 0x57 else 0
      {
        status := status[i := 0];
        transitions := transitions[i := if slots[i].present then 0x57 else 0];
        i := i + 1;
      }
      sessions[f] := s.(status := status, transitions := transitions);
      assert status == AnnounceOn(old(sessions[f]), Presence(State().store)).status;
      assert transitions == AnnounceOn(old(sessions[f]), Presence(State().store)).transitions;
    }

    /** The loop of `e12_status_packet` that ors the sixteen fields into a word. */
    static method PackStatus(s: Session) returns (word: nat)
      ensures word == Word(AllShown(s), 16)
    {
      word := 0;
      ghost var st := AllShown(s);
      var i := 0;
      while i < 16
        invariant 0 <= i <= 16
        invariant word == Word(st, i)
      {
        var status: Status := if s.transitions[i] != 0 then s.transitions[i] % 4 else s.status[i];
        assert status == st[i];
        word := word + status * Pow4(i);
        i := i + 1;
      }
    }

    /** The packet of `v4_status` and `e12_status_packet`. */
    static method FillStatus(s: Session) returns (out: Packet)
      ensures out == StatusPacket(s)
    {
      var word := PackStatus(s);
      ghost var st := AllShown(s);
      WordBytes(st);
      var b: seq<byte> := [word % 256, word / 0x100 % 256, word / 0x1_0000 % 256, word / 0x100_0000 % 256];
      assert b == [Four(st, 0), Four(st, 4), Four(st, 8), Four(st, 12)];
      out := [S] + b + [s.counter, if s.active then 1 else 0] + Zeros(25);
    }

    /** `v4_status` with `e12_status_packet`: the counter it takes is given back until delivery. */
    method BuildStatus(f: SlotIndex)
      requires Valid()
      modifies sessions
      ensures sessions[..] == old(sessions[..])[f
          := old(sessions[f]).(response := StatusPacket(old(sessions[f])), readEpoch := old(sessions[f]).epoch)]
    {
      sessions[f] := sessions[f].(counter := (sessions[f].counter + 1) % 256);
      sessions[f] := sessions[f].(counter := (sessions[f].counter - 1) % 256);
      assert sessions[f] == old(sessions[f]);
      var out := FillStatus(sessions[f]);
      sessions[f] := sessions[f].(response := out, readEpoch := sessions[f].epoch);
    }

    /** `e12_status_commit`. */
    method CommitStatus(f: SlotIndex)
      requires Valid()
      modifies sessions
      ensures sessions[..] == old(sessions[..])[f := Commit(old(sessions[f]))]
    {
      var s := sessions[f];
      s := s.(counter := (s.counter + 1) % 256);
      if s.readEpoch == s.epoch {
        var status: Statuses, transitions: Transitions := s.status, s.transitions;
        var i := 0;
        while i < 16
          invariant 0 <= i <= 16
          invariant forall j | 0 <= j < i :: status[j] == Shown(s, j) && transitions[j] == s.transitions[j] / 16
          invariant forall j | i <= j < 16 :: status[j] == s.status[j] && transitions[j] == s.transitions[j]
        {
          if transitions[i] != 0 {
            status := status[i := transitions[i] % 4];
            transitions := transitions[i := transitions[i] / 16];
          }
          i := i + 1;
        }
        s := s.(status := status, transitions := transitions);
        assert status == Commit(old(sessions[f])).status;
        assert transitions == Commit(old(sessions[f])).transitions;
      }
      sessions[f] := s;
    }

    // ------------------------------------------------------------------------
    // Figure store

    /** `e12_dirty`. */
    method CountDirty() returns (n: nat)
      requires Valid()
      ensures n == Dirty(State().store.slots, 16)
    {
      n := 0;
      var i := 0;
      while i < 16
        invariant 0 <= i <= 16
        invariant n == Dirty(slots[..], i)
      {
        if slots[i].occupied && slots[i].generation != slots[i].saved {
          n := n + 1;
        }
        i := i + 1;
      }
    }

    /** Make the figure of a slot present or absent and tell every session; position 255 has no slot. */
    method Show(slot: Position, present: bool)
      requires Valid()
      modifies slots, sessions
      ensures State() == PortalSpec.Event(SetStore(old(State()), SetPresent(old(State()).store, slot, present)),
          slot, present)
    {
      if slot < 16 {
        slots[slot] := slots[slot].(present := present);
        Event(slot, present);
      }
    }

    /** `e12_restore`. */
    method Restore(code: int)
      requires Valid()
      modifies this`error, this`action, slots, sessions
      ensures State() == PortalSpec.Restore(old(State()), code)
    {
      error := code;
      Show(outgoing, true);
      action := NONE;
    }

    /** The loop of `e12_begin`: the slot owning a catalogue entry, or 16. */
    method FindOwner(id: nat) returns (i: nat)
      requires Valid()
      ensures i <= 16
      ensures Owner(slots[..], id, 0) == if i < 16 then Some(i) else None
    {
      i := 0;
      while i < 16
        invariant 0 <= i <= 16
        invariant Owner(slots[..], id, i) == Owner(slots[..], id, 0)
      {
        if slots[i].occupied && slots[i].id == id {
          return;
        }
        i := i + 1;
      }
    }

    /** The accepting end of `e12_begin`. */
    method Take(position: SlotIndex, id: nat, act: nat)
      requires Valid()
      modifies this`error, this`action, this`actionUi, this`outgoing, this`target, this`removeTick, slots, sessions
      ensures State() == PortalSpec.Take(old(State()), position, id, act)
    {
      ghost var p := State();
      outgoing, actionUi, target, action := ui[position], position, id, act;
      removeTick, error := ticks, 0;
      ghost var s := p.store.(outgoing := p.store.ui[position], actionUi := position, target := id, action := act,
        removeTick := p.ticks, error := 0);
      assert State() == SetStore(p, s);
      Show(outgoing, false);
      TakenIsHidden(p, s, position, id, act);
    }

    /** `e12_begin`. */
    method Begin(position: nat, id: nat, act: nat) returns (r: int)
      requires Valid()
      modifies this`error, this`action, this`actionUi, this`outgoing, this`target, this`removeTick, slots, sessions
      ensures (State(), r) == PortalSpec.Begin(old(State()), position, id, act)
    {
      if position >= 16 || (act == LOAD && id >= count) {
        return -4;
      }
      if action != NONE || busy {
        return -8;
      }
      if act == LOAD {
        var i := FindOwner(id);
        if i < 16 {
          return if ui[position] == i then 0 else -17;
        }
      }
      Take(position, id, act);
      r := 0;
    }

    /** The search loops of `e09_complete`: whether the identity is taken, else the slot to use, or 255. */
    method FindSlot(uid: u32) returns (taken: bool, slot: Position)
      requires Valid()
      ensures taken == UidTaken(State().store, uid)
      ensures !taken ==> slot == (match Destination(State().store, uid) case None => EMPTY case Some(i) => i)
    {
      slot := EMPTY;
      var i := 0;
      while i < 16
        invariant 0 <= i <= 16
        invariant forall j: SlotIndex | j < i :: Usable(State().store, j) || slots[j].lastUid != uid
      {
        if slots[i].occupied && i != outgoing && slots[i].lastUid == uid {
          assert !Usable(State().store, i);
          return true, slot;
        }
        i := i + 1;
      }
      taken := false;
      i := 0;
      while i < 16
        invariant 0 <= i <= 16
        invariant FormerSlot(State().store, uid, i) == FormerSlot(State().store, uid, 0)
        invariant FirstUsable(State().store, 0) == if slot == EMPTY then FirstUsable(State().store, i) else Some(slot)
      {
        if !slots[i].occupied || i == outgoing {
          if slot == EMPTY {
            slot := i;
          }
          if slots[i].seenUid && slots[i].lastUid == uid {
            slot := i;
            return;
          }
        }
        i := i + 1;
      }
    }

    /** Free the slot of a figure that leaves; position 255 has none. */
    method Leave(slot: Position)
      requires Valid()
      modifies slots
      ensures State() == SetStore(old(State()), Vacate(old(State()).store, slot))
    {
      if slot < 16 {
        slots[slot] := slots[slot].(occupied := false);
      }
    }

    /** The end of a load that found its slot. */
    method Place(slot: SlotIndex)
      requires Valid()
      modifies this`action, this`autoload, slots, ui, sessions
      ensures State() == PortalSpec.Place(old(State()), slot)
    {
      Leave(outgoing);
      slots[slot] := Slot(job.data, job.id, job.source, job.sequence, 0, 0, Uid(job.data), true, true, true);
      ui[actionUi] := slot;
      action, autoload := NONE, false;
      assert State() == SetStore(old(State()), Placed(old(State()).store, slot));
      Event(slot, true);
    }

    /** The load branch of `e09_complete`. */
    method FinishLoad()
      requires Valid()
      modifies this`error, this`action, this`autoload, slots, ui, sessions
      ensures State() == CompleteLoad(old(State()))
    {
      var taken, slot := FindSlot(Uid(job.data));
      if taken {
        Restore(-17);
      } else if slot == EMPTY {
        Restore(-8);
      } else {
        Place(slot);
      }
    }

    /** The save branch of `e09_complete`. */
    method FinishSave()
      requires Valid()
      modifies slots
      ensures State() == SetStore(old(State()), SaveCompleted(old(State()).store))
    {
      slots[diskSlot] := slots[diskSlot].(saved := snapshot);
      slots[diskSlot] := slots[diskSlot].(sequence := Plus(slots[diskSlot].sequence, 1));
    }

    /** The catalogue branch of `e09_complete`. */
    method FinishCatalog()
      requires Valid()
      modifies this`count, this`error, this`action, this`actionUi, this`outgoing, this`target, this`removeTick,
        slots, sessions
      ensures State() == PortalSpec.Begin(SetStore(old(State()), old(State()).store.(count := |catalog|)), 0, 0, LOAD).0
    {
      count := |catalog|;
      var r := Begin(0, 0, LOAD);
    }

    /** `e09_complete`. */
    method Complete()
      requires Valid()
      modifies this, slots, ui, sessions
      ensures State() == PortalSpec.Complete(old(State()))
    {
      busy, error, retry := false, result, ticks;
      ghost var q := State();
      ghost var p := old(State());
      assert q == SetStore(p, p.store.(busy := false, error := p.store.result, retry := p.ticks));
      if result < 0 {
        if action != NONE {
          Restore(result);
        }
      } else if op == OP_CATALOG {
        FinishCatalog();
      } else if op == OP_SAVE {
        FinishSave();
      } else {
        FinishLoad();
      }
    }

    /** `e11_submit`. */
    method Submit(operation: nat, sent: int)
      requires Valid()
      modifies this`op, this`busy, this`error, this`retry
      ensures State() == SetStore(old(State()), Submitted(old(State()).store, operation, sent, ticks))
    {
      ghost var s := State().store;
      op, busy := operation, true;
      assert State().store == s.(op := operation, busy := true);
      if sent < 0 {
        busy, error, retry := false, sent, ticks;
        assert State().store == s.(op := operation, busy := false, error := sent, retry := ticks);
      }
    }

    /** `e12_save_slot`. */
    method SaveSlot(i: SlotIndex, sent: int)
      requires Valid()
      modifies this`op, this`busy, this`error, this`retry, this`diskSlot, this`snapshot, this`job
      ensures State() == SetStore(old(State()), PortalSpec.SaveSlot(old(State()).store, i, sent, ticks))
    {
      var s := slots[i];
      ghost var p := State();
      diskSlot, snapshot, job := i, s.generation, Job(s.id, s.source, s.sequence, s.data);
      assert State() == SetStore(p, p.store.(diskSlot := diskSlot, snapshot := snapshot, job := job));
      Submit(OP_SAVE, sent);
    }

    /** The loop of mailbox command 6 for one session. */
    method RescanSession(f: SlotIndex)
      requires Valid()
      modifies sessions
      ensures sessions[..] == old(sessions[..])[f := RescanOn(old(sessions[f]), Presence(State().store))]
    {
      Announce(f);
      var transitions: Transitions := sessions[f].transitions;
      var j := 0;
      while j < 16
        invariant 0 <= j <= 16
        invariant forall i | 0 <= i < 16 :: transitions[i] == if !slots[i].present then 0 else if i < j then 0x574
            else 0x57
      {
        if slots[j].present {
          transitions := transitions[j := 0x574];
        }
        j := j + 1;
      }
      sessions[f] := sessions[f].(transitions := transitions);
      assert transitions == RescanOn(old(sessions[f]), Presence(State().store)).transitions;
    }

    method RescanAll()
      requires Valid()
      modifies sessions
      ensures State() == Rescan(old(State()))
    {
      var i := 0;
      while i < 16
        invariant 0 <= i <= 16
        invariant forall f | 0 <= f < i :: sessions[f] == RescanOn(old(sessions[f]), Presence(State().store))
        invariant forall f | i <= f < 16 :: sessions[f] == old(sessions[f])
      {
        RescanSession(i);
        i := i + 1;
      }
      assert sessions[..] == Rescan(old(State())).sessions;
    }

    /** The command switch of `e11_mailbox`. */
    method Command(operation: u32, arg: u32) returns (r: int)
      requires Valid()
      modifies this, slots, sessions
      ensures (State(), r) == PortalSpec.Command(old(State()), operation, arg)
    {
      r := 0;
      if operation == 1 {
        page := if arg < 640 then arg / 8 * 8 else 0;
      } else if operation == 2 || operation == 3 {
        r := Begin(arg / 0x1_0000, arg % 0x1_0000, operation);
        if r == 0 {
          autoload := false;
        }
      } else if operation == 4 {
        if arg < 16 {
          view := arg;
        } else {
          r := -4;
        }
      } else if operation == 5 {
        flush, error := true, 0;
      } else if operation == 6 {
        RescanAll();
      } else {
        r := -4;
      }
    }

    /** `e11_mailbox` up to the reply it publishes. */
    method Mailbox(env: Env)
      requires Valid()
      modifies this, slots, sessions
      ensures State() == PortalSpec.Mailbox(old(State()), env)
    {
      if !env.active {
        return;
      }
      if env.box.magic != 0x4531324d || env.box.key != 0x534b595a {
        return;
      }
      if env.box.heartbeat != heartbeat {
        heartbeat, heartbeatTick := env.box.heartbeat, ticks;
      } else if Since(ticks, heartbeatTick) > 500 {
        return;
      }
      if env.box.seqno != requestSeq {
        if (env.box.op == 2 || env.box.op == 3) && (action != NONE || busy) {
          return;
        }
        TakeCommand(env.box);
      }
    }

    /** A new mailbox command: its number is noted, and its error reported. */
    method TakeCommand(box: Request)
      requires Valid()
      modifies this, slots, sessions
      ensures State() == Reported(PortalSpec.Command(SetStore(old(State()),
          old(State()).store.(requestSeq := box.seqno)), box.op, box.arg))
    {
      requestSeq := box.seqno;
      var r := Command(box.op, box.arg);
      if r != 0 {
        error := r;
      }
    }

    /** The action part of `e09_poll`. */
    method Advance(sent: int)
      requires Valid()
      modifies this, slots, ui
      ensures State() == SetStore(old(State()), Advanced(old(State()).store, sent, ticks))
    {
      if outgoing < 16 && slots[outgoing].generation != slots[outgoing].saved {
        SaveSlot(outgoing, sent);
        return;
      }
      if Since(ticks, removeTick) < 250 {
        return;
      }
      if action == REMOVE {
        Leave(outgoing);
        ui[actionUi] := EMPTY;
        action := NONE;
        return;
      }
      job := job.(id := target, source := if target < |catalog| then catalog[target] else 0);
      Submit(OP_LOAD, sent);
    }

    /** The search of the round-robin loop of `e09_poll`: the next dirty slot, and where the cursor moves. */
    method FindDirty() returns (found: bool, n: SlotIndex, next: SlotIndex)
      requires Valid()
      ensures match NextDirty(slots[..], cursor, 0)
              case None => !found
              case Some(k) => found && n == At(cursor, k) && next == At(cursor, k + 1)
    {
      var i := 0;
      while i < 16
        invariant 0 <= i <= 16
        invariant NextDirty(slots[..], cursor, i) == NextDirty(slots[..], cursor, 0)
      {
        n := At(cursor, i);
        if slots[n].occupied && slots[n].generation != slots[n].saved {
          return true, n, At(cursor, i + 1);
        }
        i := i + 1;
      }
      found, n, next := false, 0, 0;
    }

    /** The round-robin loop of `e09_poll`. */
    method SaveNext(sent: int)
      requires Valid()
      modifies this`cursor, this`flush, this`op, this`busy, this`error, this`retry, this`diskSlot, this`snapshot,
        this`job
      ensures State() == SetStore(old(State()), Background(old(State()).store, sent, ticks))
    {
      var found, n, next := FindDirty();
      if found {
        SaveAndMove(n, next, sent);
      } else {
        flush := false;
      }
    }

    method SaveAndMove(n: SlotIndex, next: SlotIndex, sent: int)
      requires Valid()
      modifies this`cursor, this`op, this`busy, this`error, this`retry, this`diskSlot, this`snapshot, this`job
      ensures State() == SetStore(old(State()),
          PortalSpec.SaveSlot(old(State()).store.(cursor := next), n, sent, ticks))
    {
      cursor := next;
      SaveSlot(n, sent);
    }

    /** `e09_poll`. */
    method Poll(env: Env)
      requires Valid()
      modifies this, slots, ui, sessions
      ensures State() == PortalSpec.Poll(old(State()), env)
    {
      if ticks % 8 == 0 {
        Mailbox(env);
      }
      if busy {
        return;
      }
      if count == 0 {
        if Since(ticks, retry) >= 500 {
          Submit(OP_CATALOG, env.sent);
        }
        return;
      }
      if action != NONE {
        Advance(env.sent);
        return;
      }
      if autoload && Since(ticks, retry) >= 500 {
        var r := Begin(0, 0, LOAD);
        return;
      }
      if (error == 0 && flush) || Since(ticks, retry) >= 500 {
        SaveNext(env.sent);
      }
    }

    // ------------------------------------------------------------------------
    // HIDv4

    /** `os_message_queue_ack`. */
    method Ack(token: nat, code: int)
      requires Valid()
      modifies this`log
      ensures State() == Reply(old(State()), token, code)
    {
      log := log + [PortalSpec.Ack(token, code)];
    }

    /** `v4_push`. */
    method Push(f: SlotIndex, p: Packet) returns (r: int)
      requires Valid()
      modifies sessions
      ensures State() == SetSession(old(State()), f, HidSession.Push(old(sessions[f]), p))
      ensures r == if old(sessions[f]).count == FIFO then -8 else 0
      ensures r < 0 ==> State() == old(State())
    {
      var s := sessions[f];
      if s.count == FIFO {
        return -8;
      }
      s := s.(fifo := s.fifo[(s.head + s.count) % FIFO := p]);
      sessions[f] := s.(count := s.count + 1);
      r := 0;
    }

    /** `v4_cancel`. */
    method Cancel(f: SlotIndex)
      requires Valid()
      modifies this`log, sessions
      ensures State() == CancelAll(old(State()), f)
    {
      if sessions[f].read.Some? {
        Ack(sessions[f].read.value, -7022);
        sessions[f] := sessions[f].(read := None);
      }
      if sessions[f].change.Some? {
        Ack(sessions[f].change.value, -1);
        sessions[f] := sessions[f].(change := None);
      }
      sessions[f] := sessions[f].(head := 0, count := 0, discovered := false);
    }

    /** Activation: a session that was not active is announced to. */
    method Activate(f: SlotIndex, d: seq<byte>)
      requires Valid() && Accepts(d) && d[0] == ACTIVATE
      modifies sessions
      ensures State() == Effect(old(State()), f, d)
    {
      if !sessions[f].active {
        Announce(f);
      }
      sessions[f] := sessions[f].(active := true);
    }

    /** The command switch of `v4_control`. */
    method DoReport(f: SlotIndex, d: seq<byte>) returns (r: int)
      requires Valid()
      modifies slots, sessions
      ensures (State(), r) == Report(old(State()), f, d)
    {
      if !Accepts(d) {
        return -4;
      }
      var c := d[0];
      if c == READY {
        r := Push(f, [READY, 2, 0x1b] + Zeros(29));
      } else if c == ACTIVATE {
        r := Push(f, [ACTIVATE, d[1], 0xff, 0x77] + Zeros(28));
        if r == 0 {
          Activate(f, d);
        }
      } else if c == QUERY || c == WRITE {
        r := DoBlock(f, d);
      } else if c == SOUND {
        r := Push(f, [SOUND] + Zeros(31));
      } else if c == MUSIC {
        r := Push(f, [MUSIC, d[1], 0, 0x19] + Zeros(28));
      } else {
        r := 0;
      }
      if r == 0 {
        r := |d| + 8;
      }
      assert !HasReply(c) ==> State() == old(State());
    }

    /** The query and write cases of `v4_control`: the reply is queued before the data changes. */
    method DoBlock(f: SlotIndex, d: seq<byte>) returns (r: int)
      requires Valid() && Accepts(d) && (d[0] == QUERY || d[0] == WRITE)
      modifies slots, sessions
      ensures r == if old(sessions[f]).count == FIFO then -8 else 0
      ensures State() == if r < 0 then old(State())
                         else Effect(SetSession(old(State()), f,
                           HidSession.Push(old(sessions[f]), Response(old(State()), d))), f, d)
    {
      var slot: SlotIndex, block: nat := d[1] % 16, d[2];
      var present := slots[slot].present;
      var bytes := if present && d[0] == QUERY then Block(slots[slot].data, block) else Zeros(16);
      r := Push(f, [d[0], if present then 16 + slot else 1, block] + bytes + Zeros(13));
      if r < 0 {
        return;
      }
      if present && d[0] == WRITE {
        WriteBlock(slot, block, d[3..19]);
      }
    }

    /** The copy of an accepted write, and the generation it makes. */
    method WriteBlock(slot: SlotIndex, block: nat, bytes: seq<byte>)
      requires Valid() && block < 64 && |bytes| == 16
      modifies slots
      ensures slots[..] == old(slots[..])[slot := Written(old(slots[slot]), block, bytes)]
    {
      var data := slots[slot].data;
      data := data[..16 * block] + bytes + data[16 * block + 16..];
      slots[slot] := slots[slot].(data := data);
      slots[slot] := slots[slot].(generation := slots[slot].generation + 1);
    }

    /** `v4_control`. */
    method Control(f: SlotIndex, h: seq<byte>, payload: Option<seq<byte>>) returns (r: int)
      requires Valid() && |h| == 32 && (payload.Some? ==> payload.value != [])
      modifies slots, sessions
      ensures (State(), r) == Setup(old(State()), f, h, payload)
    {
      var len, value := Be16(h, 26), Be16(h, 22);
      if h[20] != 0x21 || Be16(h, 24) != 0 {
        return -4;
      }
      if (h[21] == 0x0a || h[21] == 0x0b) && len == 0 && value == 0 {
        return 8;
      }
      if h[21] != 9 || len == 0 || len > 32 || payload.None? {
        return -4;
      }
      r := DoSetReport(f, value, payload.value);
    }

    method DoSetReport(f: SlotIndex, value: nat, d: seq<byte>) returns (r: int)
      requires Valid() && d != []
      modifies slots, sessions
      ensures (State(), r) == SetReport(old(State()), f, value, d)
    {
      if value != 0x200 && value - 0x200 != d[0] {
        return -4;
      }
      r := DoReport(f, d);
    }

    /** The interrupt read of `v4_transfer`. */
    method HoldRead(f: SlotIndex, token: nat)
      requires Valid()
      modifies sessions
      ensures State() == SetSession(old(State()), f, HidSession.Submit(old(sessions[f]), token, ticks))
    {
      var s := sessions[f];
      if s.count > 0 {
        s := s.(read := Some(token), response := s.fifo[s.head]);
        s := s.(head := (s.head + 1) % FIFO, count := s.count - 1);
        sessions[f] := s.(due := Plus(ticks, 11));
      } else {
        BuildStatus(f);
        sessions[f] := sessions[f].(read := Some(token), due := Plus(ticks, 1));
      }
    }

    /** `v4_transfer`. */
    method DoTransfer(f: SlotIndex, m: Message) returns (r: int)
      requires Valid()
      modifies slots, sessions
      ensures (State(), r) == Transfer(old(State()), f, m)
    {
      if m.input.None? || m.lengthIn != 32 || m.lengthIo != 0 {
        return -4;
      }
      var h := m.input.value;
      if Be32(h, 16) != 0 {
        return -6;
      }
      if m.cmd == 2 {
        r := Control(f, h, m.payload);
        return;
      }
      var len, endpoint := Be32(h, 24), Be32(h, 20);
      if m.cmd == 4 && endpoint == 2 && 32 < len <= 64 {
        return if m.payload.None? then -4 else len;
      }
      if len != 32 || m.payload.None? {
        return -4;
      }
      if m.cmd == 4 {
        return if endpoint == 2 && m.payload.value[0] == LIGHT then 32 else -4;
      }
      if endpoint != 0x81 || sessions[f].read.Some? {
        return -4;
      }
      HoldRead(f, m.token);
      r := 0;
    }

    /** Ioctl 8 of `v4_process`. */
    method DoCancelEndpoint(f: SlotIndex, m: Message)
      requires Valid()
      modifies this`log, sessions
      ensures State() == CancelEndpoint(old(State()), f, m)
    {
      var code := -4;
      if m.input.Some? && m.lengthIn == 8 && m.lengthIo == 0 {
        var p := m.input.value;
        if Be32(p, 0) != 0 {
          code := -6;
        } else if p[4] == 0x81 || p[4] == 2 {
          if p[4] == 0x81 && sessions[f].read.Some? {
            Ack(sessions[f].read.value, -7022);
            sessions[f] := sessions[f].(read := None);
          }
          code := 0;
        }
      }
      Ack(m.token, code);
    }

    /** Ioctl 6 of `v4_process`: a new game starts from a zeroed, announced session. */
    method DoVersion(f: SlotIndex, m: Message)
      requires Valid() && IsVersionRequest(m)
      modifies this`log, sessions
      ensures State() == Reply(SetSession(CancelAll(old(State()), f), f,
          AnnounceOn(Zeroed().(active := true), Presence(old(State()).store))), m.token, 0x40001)
    {
      Cancel(f);
      sessions[f] := Zeroed();
      sessions[f] := sessions[f].(active := true);
      Announce(f);
      Ack(m.token, 0x40001);
    }

    /** The ioctl switch of `v4_process`. */
    method DoIoctl(f: SlotIndex, m: Message)
      requires Valid()
      modifies this`log, slots, sessions
      ensures State() == Ioctl(old(State()), f, m)
    {
      var code := -4;
      if m.cmd == 0xe900 {
        if m.lengthIn == 0 && m.lengthIo == 32 && m.output {
          code := 0;
        }
      } else if m.cmd == 6 {
        if IsVersionRequest(m) {
          DoVersion(f, m);
          return;
        }
      } else if m.cmd == 0 {
        if m.lengthIn == 0 && m.output && m.lengthIo == 0x600 {
          if sessions[f].change.Some? {
            code := -8;
          } else if sessions[f].discovered {
            sessions[f] := sessions[f].(change := Some(m.token));
            return;
          } else {
            sessions[f] := sessions[f].(discovered := true);
            code := 0;
          }
        }
      } else if m.cmd == 1 {
        code := 0;
      } else if 2 <= m.cmd <= 4 {
        code := DoTransfer(f, m);
        if sessions[f].read == Some(m.token) {
          return;
        }
      } else if m.cmd == 7 {
        if m.lengthIn == 0 && m.lengthIo == 0 {
          Cancel(f);
          sessions[f] := sessions[f].(active := false);
          code := 0;
        }
      } else if m.cmd == 8 {
        DoCancelEndpoint(f, m);
        return;
      }
      Ack(m.token, code);
    }

    /** `v4_process`. */
    method Process(m: Message)
      requires Valid()
      modifies this`log, slots, sessions
      ensures State() == PortalSpec.Process(old(State()), m)
    {
      if m.fd >= 16 {
        Ack(m.token, -4);
        return;
      }
      if m.kind.CloseFile? {
        Cancel(m.fd);
        sessions[m.fd] := Zeroed();
        Ack(m.token, 0);
        return;
      }
      if !m.kind.IoctlFile? {
        Ack(m.token, -4);
        return;
      }
      DoIoctl(m.fd, m);
    }

    /** One session of the delivery loop in `v4_tick`. */
    method DeliverSession(f: SlotIndex)
      requires Valid()
      modifies this`log, sessions
      ensures State() == DeliverOne(old(State()), f)
    {
      if sessions[f].read.Some? && Since(ticks, sessions[f].due) < TWO31 {
        var token := sessions[f].read.value;
        sessions[f] := sessions[f].(read := None);
        if sessions[f].response[0] == S {
          CommitStatus(f);
        }
        log := log + [ReadAck(token, f, sessions[f].response)];
      }
    }

    /** `v4_tick`. */
    method Tick(env: Env)
      requires Valid()
      modifies this, slots, ui, sessions
      ensures State() == PortalSpec.Tick(old(State()), env)
    {
      ticks := Plus(ticks, 1);
      Poll(env);
      ghost var polled := State();
      var i := 0;
      while i < 16
        invariant 0 <= i <= 16
        invariant State() == DeliverAll(polled, i)
      {
        DeliverSession(i);
        i := i + 1;
      }
    }
  }
}
