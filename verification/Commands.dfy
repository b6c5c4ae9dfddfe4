/** What each command in the mailbox does, and when it is taken. */
module Commands {
  import opened Words
  import opened HidSession
  import opened PortalSpec
  import opened PortalInvariants
  import opened Completion
  import Fairness

  // --------------------------------------------------------------------------
  // When a command is taken

  /** This tick reads the mailbox, and a menu of this version has moved its heartbeat in the last second. */
  predicate Heard(p: Portal, env: Env) {
    var now := Plus(p.ticks, 1);
    && now % 8 == 0 && env.active && env.box.magic == 0x4531324d && env.box.key == 0x534b595a
    && (env.box.heartbeat != p.store.heartbeat || (now - p.store.heartbeatTick) % TWO32 <= 500)
  }

  /** A load or remove waits in the mailbox while another one or a disk job is running. */
  predicate Deferred(s: Store, box: Request) {
    (box.op == 2 || box.op == 3) && (s.action != NONE || s.busy)
  }

  predicate Taken(p: Portal, env: Env) {
    Heard(p, env) && env.box.seqno != p.store.requestSeq && !Deferred(p.store, env.box)
  }

  /** The store with the heartbeat and the request number noted. */
  function Noted(s: Store, box: Request, now: u32): Store {
    s.(heartbeat := box.heartbeat, requestSeq := box.seqno,
       heartbeatTick := if box.heartbeat != s.heartbeat then now else s.heartbeatTick)
  }

  // --------------------------------------------------------------------------
  // What it does

  predicate ShownAt(s: Store, ui: SlotIndex, id: nat) {
    exists i: SlotIndex :: s.ui[ui] == i && Owns(s.slots[i], id)
  }

  predicate OnPortal(s: Store, id: nat) {
    exists i: SlotIndex :: Owns(s.slots[i], id)
  }

  /** The action begins: the figure at the position is hidden, and the time is noted. */
  predicate Begun(s: Store, t: Store, ui: SlotIndex, id: nat, action: nat, now: u32) {
    && t == s.(action := action, actionUi := ui, target := id, outgoing := s.ui[ui], removeTick := now, error := 0,
               autoload := false, slots := t.slots)
    && forall o: SlotIndex :: t.slots[o] == s.slots[o].(present := s.slots[o].present && o != s.ui[ui])
  }

  /** A load or remove that is not deferred. */
  predicate Answers(s: Store, t: Store, ui: nat, id: nat, action: nat, now: u32) {
    if ui >= 16 || (action == LOAD && id >= s.count) then t == s.(error := -4)
    else if action == LOAD && ShownAt(s, ui, id) then t == s.(autoload := false)
    else if action == LOAD && OnPortal(s, id) then t == s.(error := -17)
    else Begun(s, t, ui, id, action, now)
  }

  /** What a taken command makes of the store. */
  predicate CarriedOut(s: Store, t: Store, op: u32, arg: u32, now: u32) {
    if op == 1 then t == s.(page := if arg < 640 then arg - arg % 8 else 0)
    else if op == 2 || op == 3 then Answers(s, t, arg / 0x1_0000, arg % 0x1_0000, op, now)
    else if op == 4 then t == (if arg < 16 then s.(view := arg) else s.(error := -4))
    else if op == 5 then t == s.(flush := true, error := 0)
    else if op == 6 then t == s
    else t == s.(error := -4)
  }

  lemma BeginAnswers(p: Portal, ui: nat, id: nat, action: nat)
    requires Inv(p) && (action == LOAD || action == REMOVE) && p.store.action == NONE && !p.store.busy
    ensures Answers(p.store, Reported(Commanded(Begin(p, ui, id, action))).store, ui, id, action, p.ticks)
  {
    OwnerMeaning(p.store.slots, id, 0);
    if action == LOAD && Owner(p.store.slots, id, 0).Some? {
      OwnerIsOne(p.store, id);
    } else if ui < 16 {
      TakeBegins(p, ui, id, action);
    }
  }

  lemma OwnerIsOne(s: Store, id: nat)
    requires OwnersOk(s) && Owner(s.slots, id, 0).Some?
    ensures var i := Owner(s.slots, id, 0).value;
      Owns(s.slots[i], id) && forall j: SlotIndex :: Owns(s.slots[j], id) ==> j == i
  {
    OwnerMeaning(s.slots, id, 0);
  }

  lemma TakeBegins(p: Portal, ui: SlotIndex, id: nat, action: nat)
    ensures Begun(p.store, Take(p, ui, id, action).store.(autoload := false), ui, id, action, p.ticks)
  {
  }

  lemma CommandCarriesOut(p: Portal, op: u32, arg: u32)
    requires Inv(p) && !Deferred(p.store, Request(0, 0, op, arg, 0, 0))
    ensures CarriedOut(p.store, Reported(Command(p, op, arg)).store, op, arg, p.ticks)
  {
    if op == 2 || op == 3 {
      BeginAnswers(p, arg / 0x1_0000, arg % 0x1_0000, op);
    }
  }

  /**
    * Every eighth tick reads the mailbox. A new command of a live menu is carried out once, except that
    * a load or remove waits for a pending one and for the disk; a menu that has not moved its heartbeat
    * for more than 500 ticks, or is of another version, is ignored.
    */
  lemma CommandsAreCarriedOut(p: Portal, env: Env)
    requires Inv(p)
    ensures var now, r := Plus(p.ticks, 1), AfterMailbox(p, env);
      var heard := Noted(p.store, env.box, now);
      && (!Heard(p, env) ==> r == p.(ticks := now))
      && (Heard(p, env) && !Taken(p, env) ==>
            r == p.(ticks := now, store := heard.(requestSeq := p.store.requestSeq)))
      && (Taken(p, env) ==> CarriedOut(heard, r.store, env.box.op, env.box.arg, now))
  {
    var q := p.(ticks := Plus(p.ticks, 1));
    if Heard(p, env) {
      if Taken(p, env) {
        MailboxCarriesOut(q, env);
      } else {
        MailboxNotes(q, env);
      }
    }
  }

  lemma MailboxNotes(p: Portal, env: Env)
    requires Alive(p, env) && !TakesCommand(p, env)
    ensures Mailbox(p, env)
            == SetStore(p, Noted(p.store, env.box, p.ticks).(requestSeq := p.store.requestSeq))
  {
  }

  lemma MailboxCarriesOut(p: Portal, env: Env)
    requires Inv(p) && TakesCommand(p, env)
    ensures CarriedOut(Noted(p.store, env.box, p.ticks), Mailbox(p, env).store, env.box.op, env.box.arg, p.ticks)
  {
    var t := SetStore(p, Noted(p.store, env.box, p.ticks));
    SameKeeps(p, t.store);
    CommandCarriesOut(t, env.box.op, env.box.arg);
    assert Mailbox(p, env) == Reported(Command(t, env.box.op, env.box.arg));
  }

  // --------------------------------------------------------------------------
  // A flush from its command to its end

  predicate AsksToFlush(p: Portal, env: Env) {
    Taken(p, env) && env.box.op == 5
  }

  /** The command starts a flush, whatever error was shown before. */
  lemma FlushBegins(p: Portal, env: Env)
    requires Fairness.FlushReady(p) && AsksToFlush(p, env)
    ensures var r := AfterMailbox(p, env);
      && Fairness.Flushing(r) && r.store.error == 0
      && r.store.slots == p.store.slots && Fairness.Left(r.store) == Fairness.Left(p.store)
      && r.store.busy == p.store.busy
  {
    CommandsAreCarriedOut(p, env);
    MailboxKeeps(p.(ticks := Plus(p.ticks, 1)), env);
  }

  lemma HandleAllOne(p: Portal, h: Intake, hs: seq<Intake>)
    ensures HandleAll(p, [h] + hs) == HandleAll(Handle(p, h), hs)
  {
    HandleAllFront(p, [h] + hs);
    assert ([h] + hs)[1..] == hs;
  }

  lemma PicksOne(p: Portal, h: Intake, hs: seq<Intake>)
    ensures |Fairness.Picks(p, [h] + hs)|
            == (if Fairness.Picked(p, h).Some? then 1 else 0) + |Fairness.Picks(Handle(p, h), hs)|
  {
    assert ([h] + hs)[1..] == hs;
  }

  /**
    * From the command on, over every run without accepted writes, load or remove commands and failures,
    * the flush submits at most one save for each slot that was dirty, and exactly one for each when it
    * has ended; a save that was already running counts unless its slot had been written since.
    */
  lemma CommandFlushes(p: Portal, env: Env, hs: seq<Intake>)
    requires Fairness.FlushReady(p) && AsksToFlush(p, env) && env.sent >= 0
    requires Fairness.CalmRun(Tick(p, env), hs)
    ensures var all := [Timer(env)] + hs;
      var q := HandleAll(p, all).store;
      var saves := |Fairness.Picks(p, all)| + if Fairness.Covers(p.store) then 1 else 0;
      && saves == Dirty(p.store.slots, 16) - Dirty(q.slots, 16) + (if Fairness.Covers(q) then 1 else 0)
      && saves <= Dirty(p.store.slots, 16)
      && (!q.flush ==> saves == Dirty(p.store.slots, 16) && Dirty(q.slots, 16) == 0 && !q.busy)
  {
    FlushBegins(p, env);
    Fairness.CalmTick(p, env);
    Fairness.CalmRunKeeps(Tick(p, env), hs);
    HandleAllOne(p, Timer(env), hs);
    PicksOne(p, Timer(env), hs);
    Fairness.LeftIsNat(HandleAll(Tick(p, env), hs));
  }

  /** If no later command fails or asks again, each idle tick submits one of these saves, until one ends the flush. */
  lemma CommandFlushesOnTime(p: Portal, env: Env, hs: seq<Intake>)
    requires Fairness.FlushReady(p) && AsksToFlush(p, env) && env.sent >= 0
    requires Fairness.UnhurriedRun(Tick(p, env), hs)
    ensures var all := [Timer(env)] + hs;
      && |Fairness.Picks(p, all)| == Fairness.Least(Fairness.IdleTicks(p, all), Fairness.Left(p.store))
      && (HandleAll(p, all).store.flush <==> Fairness.IdleTicks(p, all) <= Fairness.Left(p.store))
  {
    FlushBegins(p, env);
    FlushingTick(p, env);
    Fairness.CalmTick(p, env);
    Fairness.CountedRun(Tick(p, env), hs);
    HandleAllOne(p, Timer(env), hs);
    PicksOne(p, Timer(env), hs);
    Fairness.LeftIsNat(AfterMailbox(p, env));
    assert ([Timer(env)] + hs)[1..] == hs;
  }

  lemma FlushingTick(p: Portal, env: Env)
    requires Fairness.FlushReady(p) && AsksToFlush(p, env) && env.sent >= 0
    requires var r := AfterMailbox(p, env);
      && Fairness.Flushing(r) && r.store.error == 0 && r.store.busy == p.store.busy
    ensures var r, t := AfterMailbox(p, env).store, Tick(p, env).store;
      && t.error == 0 && (t.flush <==> r.busy || Fairness.Left(r) > 0)
      && (Fairness.Picked(p, Timer(env)).Some? <==> !r.busy && Fairness.Left(r) > 0)
  {
    var r := AfterMailbox(p, env);
    Fairness.CalmTickStore(p, env);
    if !r.store.busy {
      Fairness.CalmBackground(r.store, env.sent, r.ticks);
    }
  }
}
