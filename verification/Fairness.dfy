/** Background saves are fair, and a flush ends. */
module Fairness {
  import opened Words
  import opened HidSession
  import opened PortalSpec
  import opened PortalInvariants
  import opened Completion
  import Memory

  /** How far a slot lies after the round-robin cursor. */
  function Distance(cursor: SlotIndex, slot: SlotIndex): nat {
    (slot - cursor) % 16
  }

  lemma Wrap(x: int)
    requires -16 <= x < 32
    ensures x % 16 == if x < 0 then x + 16 else if x < 16 then x else x - 16
  {
  }

  lemma AtDistance(cursor: SlotIndex, slot: SlotIndex)
    ensures At(cursor, Distance(cursor, slot)) == slot && Distance(cursor, slot) < 16
  {
    Wrap(slot - cursor);
    Wrap(cursor + Distance(cursor, slot));
  }

  lemma DistanceOf(cursor: SlotIndex, k: nat)
    requires k < 16
    ensures Distance(cursor, At(cursor, k)) == k
  {
    Wrap(cursor + k);
    Wrap(At(cursor, k) - cursor);
  }

  lemma DistanceAt(cursor: SlotIndex, slot: SlotIndex)
    ensures At(cursor, Distance(cursor, slot)) == slot
    ensures forall k: nat | k < 16 && At(cursor, k) == slot :: k == Distance(cursor, slot)
    ensures forall k: nat | k < Distance(cursor, slot) ::
          Distance(At(At(cursor, k), 1), slot) == Distance(cursor, slot) - k - 1
  {
    Wrap(slot - cursor);
    Wrap(cursor + Distance(cursor, slot));
    forall k: nat | k < 16 && At(cursor, k) == slot ensures k == Distance(cursor, slot) {
      Wrap(cursor + k);
    }
    forall k: nat | k < Distance(cursor, slot)
      ensures Distance(At(At(cursor, k), 1), slot) == Distance(cursor, slot) - k - 1
    {
      Wrap(cursor + k);
      Wrap(At(cursor, k) + 1);
      Wrap(slot - At(At(cursor, k), 1));
    }
  }

  /** The slot the timer hands to a background save. */
  function PickedBy(p: Portal, sent: int): Option<SlotIndex> {
    var s := p.store;
    if s.busy || s.count == 0 || s.action != NONE || (s.autoload && RetryElapsed(s, p.ticks)) then None
    else if !((s.error == 0 && s.flush) || RetryElapsed(s, p.ticks)) then None
    else if NextDirty(s.slots, s.cursor, 0).None? then None
    else Some(At(s.cursor, NextDirty(s.slots, s.cursor, 0).value))
  }

  function Picked(p: Portal, h: Intake): Option<SlotIndex> {
    if !h.Timer? then None
    else
      PickedBy(AfterMailbox(p, h.env), h.env.sent)
  }

  /** The slots handed to background saves during a run, in order. */
  function Picks(p: Portal, hs: seq<Intake>): seq<SlotIndex>
    decreases |hs|
  {
    if hs == [] then []
    else
      (if Picked(p, hs[0]).Some? then [Picked(p, hs[0]).value] else []) + Picks(Handle(p, hs[0]), hs[1..])
  }

  /** A slot that has unsaved data in every state of a run. */
  predicate StaysDirty(p: Portal, hs: seq<Intake>, slot: SlotIndex)
    decreases |hs|
  {
    IsDirty(p.store.slots[slot]) && (hs != [] ==> StaysDirty(Handle(p, hs[0]), hs[1..], slot))
  }

  lemma MailboxKeepsCursor(p: Portal, env: Env)
    ensures Mailbox(p, env).store.cursor == p.store.cursor
    ensures forall i: SlotIndex :: IsDirty(Mailbox(p, env).store.slots[i]) == IsDirty(p.store.slots[i])
  {
    var q := Beat(p, env.box.heartbeat);
    assert q.store.slots == p.store.slots && q.store.cursor == p.store.cursor;
    if TakesCommand(p, env) {
      var r := SetStore(q, q.store.(requestSeq := env.box.seqno));
      CommandKeepsCursor(r, env.box.op, env.box.arg);
    }
  }

  lemma BeginKeepsCursor(p: Portal, ui: nat, id: nat, action: nat)
    ensures Begin(p, ui, id, action).0.store.cursor == p.store.cursor
    ensures forall i: SlotIndex :: IsDirty(Begin(p, ui, id, action).0.store.slots[i]) == IsDirty(p.store.slots[i])
  {
  }

  lemma CommandKeepsCursor(p: Portal, op: u32, arg: u32)
    ensures Command(p, op, arg).0.store.cursor == p.store.cursor
    ensures forall i: SlotIndex :: IsDirty(Command(p, op, arg).0.store.slots[i]) == IsDirty(p.store.slots[i])
  {
    if op == 2 || op == 3 {
      BeginKeepsCursor(p, arg / 0x1_0000, arg % 0x1_0000, op);
    }
  }

  lemma BackgroundMovesCursor(s: Store, sent: int, now: u32)
    ensures Background(s, sent, now).cursor
            == match NextDirty(s.slots, s.cursor, 0) case None => s.cursor case Some(k) => At(At(s.cursor, k), 1)
  {
    if NextDirty(s.slots, s.cursor, 0).Some? {
      OneFurther(s.cursor + NextDirty(s.slots, s.cursor, 0).value);
    }
  }

  lemma OneFurther(x: nat)
    ensures (x % 16 + 1) % 16 == (x + 1) % 16
  {
    if x % 16 == 15 {
      assert x + 1 == 16 * (x / 16 + 1);
    } else {
      assert x + 1 == 16 * (x / 16) + (x % 16 + 1);
    }
  }

  lemma ScheduleMovesCursor(p: Portal, sent: int)
    ensures Schedule(p, sent).store.cursor
            == match PickedBy(p, sent) case None => p.store.cursor case Some(n) => At(n, 1)
  {
    var s := p.store;
    if !s.busy && s.count != 0 && s.action == NONE {
      if s.autoload && RetryElapsed(s, p.ticks) {
        BeginKeepsCursor(p, 0, 0, LOAD);
      } else {
        BackgroundMovesCursor(s, sent, p.ticks);
      }
    }
  }

  lemma ProcessKeepsCursor(p: Portal, m: Message)
    ensures Process(p, m).store.cursor == p.store.cursor
  {
    Memory.RequestReachesStore(p, m);
  }

  /** Each background save of another slot brings the cursor strictly closer to a dirty one. */
  lemma PickComesCloser(p: Portal, h: Intake, slot: SlotIndex)
    requires IsDirty(p.store.slots[slot])
    ensures match Picked(p, h)
            case None => Handle(p, h).store.cursor == p.store.cursor
            case Some(n) => n == slot || Distance(Handle(p, h).store.cursor, slot) < Distance(p.store.cursor, slot)
  {
    match h {
      case Ipc(m) => ProcessKeepsCursor(p, m);
      case Completed =>
      case Storage(result, job, catalog) =>
      case Timer(env) =>
        var q := p.(ticks := Plus(p.ticks, 1));
        MailboxKeepsCursor(q, env);
        var r := if q.ticks % 8 == 0 then Mailbox(q, env) else q;
        ScheduleMovesCursor(r, env.sent);
        DeliveryKeepsStore(Poll(q, env), 16);
        assert IsDirty(r.store.slots[slot]);
        NextDirtyMeaning(r.store.slots, r.store.cursor, 0);
        DistanceAt(r.store.cursor, slot);
    }
  }

  /**
    * Fairness: while a slot has unsaved data, at most fifteen background saves of other slots come
    * before its own, whatever is written meanwhile and however many saves fail.
    */
  lemma {:induction false} PickedWithinFifteen(p: Portal, hs: seq<Intake>, slot: SlotIndex)
    requires StaysDirty(p, hs, slot) && slot !in Picks(p, hs)
    ensures |Picks(p, hs)| <= Distance(p.store.cursor, slot) <= 15
    decreases |hs|
  {
    if hs != [] {
      PickComesCloser(p, hs[0], slot);
      assert Picked(p, hs[0]).Some? ==> Picks(p, hs)[0] == Picked(p, hs[0]).value;
      assert forall n | n in Picks(Handle(p, hs[0]), hs[1..]) :: n in Picks(p, hs);
      PickedWithinFifteen(Handle(p, hs[0]), hs[1..], slot);
    }
  }

  // --------------------------------------------------------------------------
  // A flush ends

  predicate WritesFigure(p: Portal, m: Message) {
    && Memory.ReportOf(m).Some?
    && var d := Memory.ReportOf(m).value;
    && Accepts(d) && d[0] == WRITE && p.store.slots[d[1] % 16].present && p.sessions[m.fd].count < FIFO
  }

  /** The mailbox command that this tick carries out. */
  predicate TickTakes(p: Portal, env: Env) {
    var q := p.(ticks := Plus(p.ticks, 1));
    q.ticks % 8 == 0 && TakesCommand(q, env)
  }

  /** No accepted write, no load or remove command, and nothing that fails; completions come from the disk worker. */
  predicate Calm(p: Portal, h: Intake) {
    match h
    case Ipc(m) => !WritesFigure(p, m)
    case Timer(env) => env.sent >= 0 && (TickTakes(p, env) ==> env.box.op != 2 && env.box.op != 3)
    case Completed => p.store.busy && p.store.result == 0
    case Storage(result, job, catalog) => result == 0 && job == p.store.job && catalog == p.store.catalog
  }

  predicate CalmRun(p: Portal, hs: seq<Intake>)
    decreases |hs|
  {
    hs != [] ==> Calm(p, hs[0]) && CalmRun(Handle(p, hs[0]), hs[1..])
  }

  /** A flush in progress, or one that has ended with nothing unsaved. */
  predicate FlushState(p: Portal) {
    FlushReady(p) && (!p.store.flush ==> !p.store.busy && Dirty(p.store.slots, 16) == 0)
  }

  /** The catalogue is there, and no load or removal is pending or about to begin by itself. */
  predicate FlushReady(p: Portal) {
    Inv(p) && p.store.action == NONE && p.store.count > 0 && !p.store.autoload
  }

  /** A running save of everything its slot holds; a slot written since the snapshot needs another save. */
  predicate Covers(s: Store) {
    s.busy && s.snapshot == s.slots[s.diskSlot].generation
  }

  /** The saves still to be submitted: one for each dirty slot that no running save covers. */
  function Left(s: Store): int {
    Dirty(s.slots, 16) - if Covers(s) then 1 else 0
  }

  lemma {:induction false} DirtyUpdate(slots: Slots, i: SlotIndex, s: Slot, n: nat)
    requires n <= 16
    ensures var gain, loss := if IsDirty(s) then 1 else 0, if IsDirty(slots[i]) then 1 else 0;
      Dirty(slots[i := s], n) == Dirty(slots, n) + if i >= n then 0 else gain - loss
  {
    if n > 0 {
      DirtyUpdate(slots, i, s, n - 1);
    }
  }

  lemma {:induction false} NoneDirty(slots: Slots, n: nat)
    requires n <= 16 && forall i: SlotIndex | i < n :: !IsDirty(slots[i])
    ensures Dirty(slots, n) == 0
  {
    if n > 0 {
      NoneDirty(slots, n - 1);
    }
  }

  lemma {:induction false} OneDirty(slots: Slots, i: SlotIndex, n: nat)
    requires i < n <= 16 && IsDirty(slots[i])
    ensures Dirty(slots, n) > 0
  {
    if i < n - 1 {
      OneDirty(slots, i, n - 1);
    }
  }

  lemma LeftIsNat(p: Portal)
    requires FlushState(p)
    ensures Left(p.store) >= 0
  {
    if p.store.busy {
      OneDirty(p.store.slots, p.store.diskSlot, 16);
    }
  }

  lemma CalmRequest(p: Portal, m: Message)
    requires FlushState(p) && !WritesFigure(p, m)
    ensures Process(p, m).store == p.store && FlushState(Process(p, m))
  {
    ProcessKeeps(p, m);
    Memory.RequestReachesStore(p, m);
  }

  /** A successful save leaves one dirty slot fewer, unless its slot was written since the snapshot. */
  lemma CalmCompletion(p: Portal)
    requires FlushState(p) && Calm(p, Completed)
    ensures FlushState(Complete(p)) && Left(Complete(p).store) == Left(p.store) && !Complete(p).store.busy
    ensures Complete(p).store.flush && Complete(p).store.error == 0
    ensures Dirty(Complete(p).store.slots, 16) == Dirty(p.store.slots, 16) - if Covers(p.store) then 1 else 0
  {
    CompleteKeeps(p);
    var s := p.store;
    var t := s.slots[s.diskSlot];
    var saved := t.(saved := s.snapshot, sequence := Plus(t.sequence, 1));
    assert Complete(p).store.slots == s.slots[s.diskSlot := saved];
    DirtyUpdate(s.slots, s.diskSlot, saved, 16);
  }

  /** Only what the menu shows and asks for changes. */
  predicate OnlyMenu(s: Store, t: Store) {
    && t == s.(page := t.page, view := t.view, flush := t.flush, error := t.error, requestSeq := t.requestSeq,
               heartbeat := t.heartbeat, heartbeatTick := t.heartbeatTick)
    && (s.flush ==> t.flush)
  }

  lemma CalmMailbox(p: Portal, env: Env)
    requires TakesCommand(p, env) ==> env.box.op != 2 && env.box.op != 3
    ensures OnlyMenu(p.store, Mailbox(p, env).store)
  {
    if TakesCommand(p, env) {
      var q := Beat(p, env.box.heartbeat);
      CalmCommand(SetStore(q, q.store.(requestSeq := env.box.seqno)), env.box.op, env.box.arg);
    }
  }

  lemma CalmCommand(p: Portal, op: u32, arg: u32)
    requires op != 2 && op != 3
    ensures OnlyMenu(p.store, Reported(Command(p, op, arg)).store)
  {
  }

  lemma CalmTickStore(p: Portal, env: Env)
    requires Calm(p, Timer(env))
    ensures OnlyMenu(p.store, AfterMailbox(p, env).store)
    ensures Tick(p, env).store == Schedule(AfterMailbox(p, env), env.sent).store
  {
    var q := p.(ticks := Plus(p.ticks, 1));
    if q.ticks % 8 == 0 {
      CalmMailbox(q, env);
    }
    DeliveryKeepsStore(Poll(q, env), 16);
  }

  /** What an idle flush does next: it saves the next dirty slot, or ends. */
  lemma CalmBackground(s: Store, sent: int, now: u32)
    requires !s.busy && sent >= 0
    ensures var t := Background(s, sent, now);
      match NextDirty(s.slots, s.cursor, 0)
      case None => Dirty(s.slots, 16) == 0 && t == s.(flush := false)
      case Some(_) => Dirty(s.slots, 16) > 0 && t.busy && t.op == OP_SAVE && t.slots == s.slots
                      && t.snapshot == t.slots[t.diskSlot].generation && t.flush == s.flush && t.error == s.error
                      && t.action == s.action && t.count == s.count && t.autoload == s.autoload
  {
    NextDirtyMeaning(s.slots, s.cursor, 0);
    match NextDirty(s.slots, s.cursor, 0)
    case None =>
      forall i: SlotIndex ensures !IsDirty(s.slots[i]) {
        DistanceAt(s.cursor, i);
      }
      NoneDirty(s.slots, 16);
    case Some(k) => OneDirty(s.slots, At(s.cursor, k), 16);
  }

  lemma CalmTick(p: Portal, env: Env)
    requires FlushReady(p) && Calm(p, Timer(env)) && FlushState(AfterMailbox(p, env))
    ensures FlushState(Tick(p, env))
    ensures Left(Tick(p, env).store) == Left(p.store) - if Picked(p, Timer(env)).Some? then 1 else 0
  {
    TickKeeps(p, env);
    CalmTickStore(p, env);
    var r := AfterMailbox(p, env);
    if !r.store.busy {
      CalmBackground(r.store, env.sent, r.ticks);
    }
  }

  lemma CalmStep(p: Portal, h: Intake)
    requires FlushState(p) && Calm(p, h)
    ensures FlushState(Handle(p, h))
    ensures Left(Handle(p, h).store) == Left(p.store) - if Picked(p, h).Some? then 1 else 0
  {
    match h {
      case Ipc(m) => CalmRequest(p, m);
      case Timer(env) =>
        CalmTickStore(p, env);
        MailboxKeeps(p.(ticks := Plus(p.ticks, 1)), env);
        CalmTick(p, env);
      case Completed => CalmCompletion(p);
      case Storage(result, job, catalog) => SameKeeps(p, Handle(p, h).store);
    }
  }

  lemma {:induction false} CalmRunKeeps(p: Portal, hs: seq<Intake>)
    requires FlushState(p) && CalmRun(p, hs)
    ensures FlushState(HandleAll(p, hs)) && |Picks(p, hs)| == Left(p.store) - Left(HandleAll(p, hs).store)
    decreases |hs|
  {
    if hs != [] {
      CalmStep(p, hs[0]);
      CalmRunKeeps(Handle(p, hs[0]), hs[1..]);
      HandleAllFront(p, hs);
    }
  }

  /** A flush in progress, which may have begun while a save was running. */
  predicate Flushing(p: Portal) {
    FlushState(p) && p.store.flush
  }

  /**
    * Over every run without accepted writes, load or remove commands and failures, with any ticks,
    * queries and reads in between, a flush submits at most one save for each slot that was dirty, and
    * when it has ended exactly one for each, all of them acknowledged. A save that was already running
    * counts unless its slot had been written since.
    */
  lemma FlushSavesEachSlot(p: Portal, hs: seq<Intake>)
    requires Flushing(p) && CalmRun(p, hs)
    ensures var q := HandleAll(p, hs).store;
      var saves := |Picks(p, hs)| + if Covers(p.store) then 1 else 0;
      && saves == Dirty(p.store.slots, 16) - Dirty(q.slots, 16) + (if Covers(q) then 1 else 0)
      && saves <= Dirty(p.store.slots, 16)
      && (!q.flush ==> saves == Dirty(p.store.slots, 16) && Dirty(q.slots, 16) == 0 && !q.busy)
  {
    CalmRunKeeps(p, hs);
    LeftIsNat(HandleAll(p, hs));
  }

  // --------------------------------------------------------------------------
  // When it ends

  /** Mailbox commands that neither fail nor ask for another flush. */
  predicate Unhurried(p: Portal, h: Intake) {
    && Calm(p, h)
    && (h.Timer? && TickTakes(p, h.env) ==>
          h.env.box.op == 1 || (h.env.box.op == 4 && h.env.box.arg < 16) || h.env.box.op == 6)
  }

  predicate UnhurriedRun(p: Portal, hs: seq<Intake>)
    decreases |hs|
  {
    hs != [] ==> Unhurried(p, hs[0]) && UnhurriedRun(Handle(p, hs[0]), hs[1..])
  }

  /** The ticks that find no disk job running. */
  function IdleTicks(p: Portal, hs: seq<Intake>): nat
    decreases |hs|
  {
    if hs == [] then 0
    else (if hs[0].Timer? && !p.store.busy then 1 else 0) + IdleTicks(Handle(p, hs[0]), hs[1..])
  }

  function Least(a: int, b: int): int {
    if a < b then a else b
  }

  lemma UnhurriedMailbox(p: Portal, env: Env)
    requires TakesCommand(p, env) ==> env.box.op == 1 || (env.box.op == 4 && env.box.arg < 16) || env.box.op == 6
    ensures Mailbox(p, env).store.flush == p.store.flush && Mailbox(p, env).store.error == p.store.error
  {
  }

  lemma UnhurriedStep(p: Portal, h: Intake)
    requires FlushState(p) && p.store.error == 0 && Unhurried(p, h)
    ensures Handle(p, h).store.error == 0
    ensures Picked(p, h).Some? <==> h.Timer? && !p.store.busy && p.store.flush && Left(p.store) > 0
    ensures Handle(p, h).store.flush == (p.store.flush && !(h.Timer? && !p.store.busy && Left(p.store) == 0))
  {
    match h {
      case Ipc(m) => CalmRequest(p, m);
      case Timer(env) =>
        CalmTickStore(p, env);
        var q, r := p.(ticks := Plus(p.ticks, 1)), AfterMailbox(p, env);
        if q.ticks % 8 == 0 {
          UnhurriedMailbox(q, env);
        }
        if !r.store.busy {
          CalmBackground(r.store, env.sent, r.ticks);
        }
      case Completed => CalmCompletion(p);
      case Storage(result, job, catalog) =>
    }
  }

  lemma {:induction false} CountedRun(p: Portal, hs: seq<Intake>)
    requires FlushState(p) && p.store.error == 0 && UnhurriedRun(p, hs)
    ensures |Picks(p, hs)| == if p.store.flush then Least(IdleTicks(p, hs), Left(p.store)) else 0
    ensures HandleAll(p, hs).store.flush <==> p.store.flush && IdleTicks(p, hs) <= Left(p.store)
    decreases |hs|
  {
    LeftIsNat(p);
    if hs != [] {
      CalmStep(p, hs[0]);
      UnhurriedStep(p, hs[0]);
      CountedRun(Handle(p, hs[0]), hs[1..]);
      HandleAllFront(p, hs);
    }
  }

  /**
    * If moreover no mailbox command fails or asks again, every tick that finds the disk idle submits one
    * save until all dirty slots had theirs, and the very next one ends the flush. A save that was already
    * running stands for its slot unless the slot had been written since.
    */
  lemma FlushEndsAfterDirtyCount(p: Portal, hs: seq<Intake>)
    requires Flushing(p) && p.store.error == 0 && UnhurriedRun(p, hs)
    ensures |Picks(p, hs)| == Least(IdleTicks(p, hs), Left(p.store))
    ensures HandleAll(p, hs).store.flush <==> IdleTicks(p, hs) <= Left(p.store)
  {
    CountedRun(p, hs);
  }
}
