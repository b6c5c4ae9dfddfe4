/** When the timer acts: pending loads and removes, retries after failures, and background saves. */
module Timing {
  import opened Words
  import opened HidSession
  import opened PortalSpec
  import opened PortalInvariants
  import opened Completion
  import Fairness

  // --------------------------------------------------------------------------
  // What a tick may do

  /** Nothing of the figures, the positions, the action or the disk job changes. */
  predicate Waits(s: Store, t: Store) {
    && t.slots == s.slots && t.ui == s.ui && t.action == s.action && !t.busy && t.job == s.job && t.count == s.count
  }

  /** A snapshot of this slot goes to the storage worker. */
  predicate Saves(s: Store, t: Store, i: SlotIndex) {
    && t.slots == s.slots && t.ui == s.ui && t.action == s.action
    && t.busy && t.op == 3 && t.diskSlot == i && t.snapshot == s.slots[i].generation
    && t.job == Job(s.slots[i].id, s.slots[i].source, s.slots[i].sequence, s.slots[i].data)
  }

  /** The figure asked for is to be loaded, with the checksum that the catalogue has for it. */
  predicate Loads(s: Store, t: Store) {
    && t.slots == s.slots && t.ui == s.ui && t.action == s.action
    && t.busy && t.op == 2 && t.job.id == s.target
    && (s.target < |s.catalog| ==> t.job.source == s.catalog[s.target])
  }

  /** The position shows nothing any more, and its slot is free. */
  predicate Clears(s: Store, t: Store) {
    && t.action == NONE && !t.busy && t.ui == s.ui[s.actionUi := EMPTY]
    && forall o: SlotIndex :: t.slots[o] == s.slots[o].(occupied := s.slots[o].occupied && o != s.outgoing)
  }

  /** The queue of the storage worker refused the job. */
  predicate Refused(s: Store, t: Store, code: int, now: u32) {
    && t.slots == s.slots && t.ui == s.ui && t.action == s.action && !t.busy && t.error == code && t.retry == now
  }

  // --------------------------------------------------------------------------
  // The clock of an action

  /** An action that the first intake begins and that is pending ever since. */
  predicate Acts(p: Portal, hs: seq<Intake>) {
    && p.store.action == NONE && hs != []
    && forall k | 1 <= k <= |hs| :: HandleAll(p, hs[..k]).store.action != NONE
  }

  /** The same action, begun at the same tick. */
  predicate SameAction(s: Store, t: Store) {
    && t.action == s.action && t.actionUi == s.actionUi && t.outgoing == s.outgoing && t.target == s.target
    && t.removeTick == s.removeTick
  }

  /** The action pending in `q`, if any, is the one of `p` or began at this tick. */
  predicate Clocked(p: Portal, q: Portal) {
    q.store.action != NONE ==>
      if p.store.action != NONE then SameAction(p.store, q.store) else q.store.removeTick == q.ticks
  }

  lemma BeginIsClocked(p: Portal, ui: nat, id: nat, action: nat)
    ensures Begin(p, ui, id, action).0.ticks == p.ticks && Clocked(p, Begin(p, ui, id, action).0)
  {
  }

  lemma CommandIsClocked(p: Portal, op: u32, arg: u32)
    ensures Command(p, op, arg).0.ticks == p.ticks && Clocked(p, Command(p, op, arg).0)
  {
    if op == 2 || op == 3 {
      BeginIsClocked(p, arg / 0x1_0000, arg % 0x1_0000, op);
    }
  }

  lemma MailboxIsClocked(p: Portal, env: Env)
    ensures Mailbox(p, env).ticks == p.ticks && Clocked(p, Mailbox(p, env))
  {
    if TakesCommand(p, env) {
      var r := Beat(p, env.box.heartbeat);
      CommandIsClocked(SetStore(r, r.store.(requestSeq := env.box.seqno)), env.box.op, env.box.arg);
    }
  }

  lemma ScheduleIsClocked(p: Portal, sent: int)
    ensures Schedule(p, sent).ticks == p.ticks && Clocked(p, Schedule(p, sent))
  {
    BeginIsClocked(p, 0, 0, LOAD);
  }

  lemma TickClock(p: Portal, env: Env)
    ensures Tick(p, env).ticks == Plus(p.ticks, 1)
    ensures AfterMailbox(p, env).ticks == Plus(p.ticks, 1)
    ensures Tick(p, env).store == Schedule(AfterMailbox(p, env), env.sent).store
  {
    var q := p.(ticks := Plus(p.ticks, 1));
    MailboxIsClocked(q, env);
    ScheduleIsClocked(AfterMailbox(p, env), env.sent);
    DeliveryKeepsStore(Poll(q, env), 16);
    DeliverAllMeaning(Poll(q, env), 16, 0);
  }

  lemma TickIsClocked(p: Portal, env: Env)
    ensures Clocked(p, Tick(p, env))
  {
    var r := AfterMailbox(p, env);
    MailboxIsClocked(p.(ticks := Plus(p.ticks, 1)), env);
    ScheduleIsClocked(r, env.sent);
    TickClock(p, env);
  }

  lemma CompletionIsClocked(p: Portal)
    ensures Complete(p).ticks == p.ticks && Clocked(p, Complete(p))
  {
    var s := p.store.(busy := false, error := p.store.result, retry := p.ticks);
    BeginIsClocked(SetStore(p, s.(count := |s.catalog|)), 0, 0, LOAD);
  }

  lemma RequestIsClocked(p: Portal, m: Message)
    ensures Process(p, m).ticks == p.ticks && Clocked(p, Process(p, m)) && p.store.action == Process(p, m).store.action
  {
  }

  lemma StepIsClocked(p: Portal, h: Intake)
    ensures Handle(p, h).ticks == Plus(p.ticks, if h.Timer? then 1 else 0) && Clocked(p, Handle(p, h))
  {
    match h {
      case Ipc(m) => RequestIsClocked(p, m);
      case Timer(env) =>
        TickClock(p, env);
        TickIsClocked(p, env);
      case Completed => CompletionIsClocked(p);
      case Storage(_, _, _) =>
    }
  }

  /** An action of this age is pending: so many ticks passed since the intake that began it. */
  predicate Aged(q: Portal, age: nat) {
    q.store.action != NONE && q.ticks == Plus(q.store.removeTick, age)
  }

  lemma StepAges(q: Portal, h: Intake, age: nat)
    requires Handle(q, h).store.action != NONE && (q.store.action != NONE ==> Aged(q, age))
    ensures Aged(Handle(q, h), if q.store.action == NONE then 0 else age + if h.Timer? then 1 else 0)
  {
    StepIsClocked(q, h);
    ClockAges(q, Handle(q, h), if h.Timer? then 1 else 0, age);
  }

  lemma ClockAges(p: Portal, q: Portal, passed: nat, age: nat)
    requires q.ticks == Plus(p.ticks, passed) && Clocked(p, q) && q.store.action != NONE
    requires p.store.action != NONE ==> Aged(p, age)
    ensures Aged(q, if p.store.action == NONE then 0 else age + passed)
  {
  }

  lemma TimersMore(hs: seq<Intake>, k: nat)
    requires 1 < k <= |hs|
    ensures Timers(hs[1..k]) == Timers(hs[1..k - 1]) + if hs[k - 1].Timer? then 1 else 0
  {
    assert hs[1..k][..k - 2] == hs[1..k - 1] && hs[1..k][k - 2] == hs[k - 1];
  }

  lemma HandleOneMore(p: Portal, hs: seq<Intake>, k: nat)
    requires 1 <= k <= |hs|
    ensures HandleAll(p, hs[..k]) == Handle(HandleAll(p, hs[..k - 1]), hs[k - 1])
  {
    assert hs[..k][..k - 1] == hs[..k - 1];
  }

  /** The clock of a pending action counts the timer intakes since the one that began it. */
  lemma {:induction false} ClockCounts(p: Portal, hs: seq<Intake>, k: nat)
    requires Acts(p, hs) && 1 <= k <= |hs|
    ensures Aged(HandleAll(p, hs[..k]), Timers(hs[1..k]))
  {
    var q := HandleAll(p, hs[..k - 1]);
    HandleOneMore(p, hs, k);
    if k == 1 {
      assert q == p && Timers(hs[1..1]) == 0;
      StepAges(p, hs[0], 0);
    } else {
      ClockCounts(p, hs, k - 1);
      StepAges(q, hs[k - 1], Timers(hs[1..k - 1]));
      TimersMore(hs, k);
    }
  }

  // --------------------------------------------------------------------------
  // Pending actions

  /** What the next tick does about a pending action of this age, while the disk is idle. */
  predicate GoesOn(s: Store, t: Store, age: nat, sent: int, now: u32) {
    var i := s.outgoing;
    if i != EMPTY && s.slots[i].generation != s.slots[i].saved
    then (if sent >= 0 then Saves(s, t, i) else Refused(s, t, sent, now))
    else if age < 250 then Waits(s, t)
    else if s.action == REMOVE then Clears(s, t)
    else if sent >= 0 then Loads(s, t) else Refused(s, t, sent, now)
  }

  lemma PendingSchedule(p: Portal, s: Store, sent: int)
    requires p.store.action != NONE && !p.store.busy && p.store.count > 0 && Fairness.OnlyMenu(s, p.store)
    ensures GoesOn(s, Schedule(p, sent).store, Since(p.ticks, p.store.removeTick), sent, p.ticks)
  {
  }

  /**
    * A load or remove goes on when it should, in every run: with unsaved data in the slot being
    * swapped out, every tick that finds the disk idle submits its save; without, the ticks before the
    * 250th since the action began do nothing about it, and the 250th and every later one clears the
    * position or submits the load.
    */
  lemma ActionsGoOn(p: Portal, hs: seq<Intake>, env: Env)
    requires Acts(p, hs) && !HandleAll(p, hs).store.busy && HandleAll(p, hs).store.count > 0
    ensures var q := HandleAll(p, hs);
      GoesOn(q.store, Tick(q, env).store, (Timers(hs[1..]) + 1) % TWO32, env.sent, Plus(q.ticks, 1))
  {
    var q, r := HandleAll(p, hs), AfterMailbox(HandleAll(p, hs), env);
    assert hs[..|hs|] == hs;
    ClockCounts(p, hs, |hs|);
    Fairness.CalmMailbox(q.(ticks := Plus(q.ticks, 1)), env);
    TickClock(q, env);
    PendingSchedule(r, q.store, env.sent);
    Elapsed(q.store.removeTick, Timers(hs[1..]));
  }

  lemma Elapsed(since: u32, n: nat)
    ensures Since(Plus(Plus(since, n), 1), since) == (n + 1) % TWO32
  {
  }

  // --------------------------------------------------------------------------
  // Retries and background saves

  /** The load of the first figure at the first position begins, and the figure there is hidden. */
  predicate BeginsFirst(s: Store, t: Store, now: u32) {
    && t.action == LOAD && t.actionUi == 0 && t.target == 0 && t.outgoing == s.ui[0] && t.removeTick == now
    && !t.busy && t.error == 0 && t.ui == s.ui
  }

  /** Of the slots with unsaved data this one lies closest behind the cursor, going round. */
  predicate NextUnsaved(s: Store, n: SlotIndex) {
    && IsDirty(s.slots[n])
    && forall m: SlotIndex :: IsDirty(s.slots[m]) ==>
          Fairness.Distance(s.cursor, n) <= Fairness.Distance(s.cursor, m)
  }

  /** The next slot with unsaved data is saved and the cursor moves behind it; without any, a flush ends. */
  predicate SavesNext(s: Store, t: Store, sent: int, now: u32) {
    if exists n: SlotIndex :: IsDirty(s.slots[n])
    then
      exists n: SlotIndex :: NextUnsaved(s, n) && t.cursor == (n + 1) % 16
                             && if sent >= 0 then Saves(s, t, n) else Refused(s, t, sent, now)
    else Waits(s, t) && !t.flush
  }

  /** What a tick does with an idle disk and no action, half a second after the last failure or earlier. */
  predicate Resumes(s: Store, t: Store, sent: int, now: u32) {
    var waited := (now - s.retry) % TWO32 >= 500;
    if s.count == 0 then
      (if !waited then Waits(s, t)
       else if sent >= 0 then t.busy && t.op == 1 && t.slots == s.slots && t.action == NONE
       else Refused(s, t, sent, now))
    else if s.autoload && waited then BeginsFirst(s, t, now)
    else if waited || (s.flush && s.error == 0) then SavesNext(s, t, sent, now)
    else Waits(s, t) && t.flush == s.flush
  }

  lemma NoneBefore(s: Store, n: SlotIndex)
    requires IsDirty(s.slots[n])
    ensures var next := NextDirty(s.slots, s.cursor, 0);
      next.Some? && next.value <= Fairness.Distance(s.cursor, n)
  {
    NextDirtyMeaning(s.slots, s.cursor, 0);
    Fairness.AtDistance(s.cursor, n);
  }

  lemma NearestUnsaved(s: Store)
    ensures match NextDirty(s.slots, s.cursor, 0)
            case None => forall n: SlotIndex :: !IsDirty(s.slots[n])
            case Some(k) => NextUnsaved(s, At(s.cursor, k)) && At(s.cursor, k + 1) == (At(s.cursor, k) + 1) % 16
  {
    forall n: SlotIndex | IsDirty(s.slots[n])
      ensures NextDirty(s.slots, s.cursor, 0).Some?
      ensures NextDirty(s.slots, s.cursor, 0).value <= Fairness.Distance(s.cursor, n)
    {
      NoneBefore(s, n);
    }
    NextDirtyMeaning(s.slots, s.cursor, 0);
    if NextDirty(s.slots, s.cursor, 0).Some? {
      var k := NextDirty(s.slots, s.cursor, 0).value;
      Fairness.DistanceOf(s.cursor, k);
      Fairness.OneFurther(s.cursor + k);
    }
  }

  lemma BackgroundSavesNext(s: Store, sent: int, now: u32)
    requires !s.busy
    ensures SavesNext(s, Background(s, sent, now), sent, now)
  {
    NearestUnsaved(s);
    match NextDirty(s.slots, s.cursor, 0)
    case None =>
    case Some(k) => assert IsDirty(s.slots[At(s.cursor, k)]);
  }

  lemma FirstLoadBegins(p: Portal)
    requires Inv(p) && p.store.count > 0 && p.store.action == NONE && !p.store.busy && p.store.autoload
    ensures BeginsFirst(p.store, Begin(p, 0, 0, LOAD).0.store, p.ticks)
  {
    OwnerMeaning(p.store.slots, 0, 0);
  }

  lemma IdleSchedule(p: Portal, sent: int)
    requires Inv(p) && !p.store.busy && p.store.action == NONE
    ensures Resumes(p.store, Schedule(p, sent).store, sent, p.ticks)
  {
    var s := p.store;
    if s.count > 0 {
      if s.autoload && RetryElapsed(s, p.ticks) {
        FirstLoadBegins(p);
      } else {
        BackgroundSavesNext(s, sent, p.ticks);
      }
    }
  }

  /**
    * With an idle disk and no action pending after its mailbox part, a tick reads the catalogue again,
    * loads the first figure or saves the next unsaved one exactly 500 ticks after the last disk
    * result or later; during a flush without an error the saves do not wait.
    */
  lemma IdleTicksResume(p: Portal, env: Env)
    requires Inv(p) && var r := AfterMailbox(p, env).store; !r.busy && r.action == NONE
    ensures Resumes(AfterMailbox(p, env).store, Tick(p, env).store, env.sent, Plus(p.ticks, 1))
  {
    var q := p.(ticks := Plus(p.ticks, 1));
    MailboxKeeps(q, env);
    TickClock(p, env);
    IdleSchedule(AfterMailbox(p, env), env.sent);
  }
}
