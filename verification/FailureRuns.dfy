/** How a load or a remove ends, over whole runs: completely, or with the former figure back in place. */
module FailureRuns {
  import opened Words
  import opened HidSession
  import opened PortalSpec
  import opened PortalInvariants
  import opened Durability
  import opened World
  import opened WorldSafety

  // --------------------------------------------------------------------------
  // States of an action

  /** A slot while another figure is swapped, or while it is swapped out itself. */
  predicate KeptSlot(a: Slot, b: Slot, leaving: bool) {
    if leaving then b == a.(present := b.present, saved := b.saved, sequence := b.sequence) && a.saved <= b.saved
    else b == a.(data := b.data, generation := b.generation)
  }

  /** The action of `b`, which was begun in `s`, is pending in `t`: the game writes only to other figures. */
  predicate Pending(s: Store, b: Store, t: Store) {
    && t.action == b.action != NONE && t.actionUi == b.actionUi && t.target == b.target
    && t.ui == s.ui && t.outgoing == b.outgoing == s.ui[b.actionUi]
    && forall o: SlotIndex :: KeptSlot(s.slots[o], t.slots[o], o == b.outgoing)
  }

  /** The figure that was swapped out is back, unchanged, at its position. */
  predicate PutBack(s: Store, b: Store, t: Store) {
    && t.action == NONE && t.ui == s.ui
    && (forall o: SlotIndex :: KeptSlot(s.slots[o], t.slots[o], o == s.ui[b.actionUi]))
    && (s.ui[b.actionUi] != EMPTY ==> t.slots[s.ui[b.actionUi]].present)
  }

  /** The figure that was swapped out is gone, with nothing unsaved. */
  predicate Cleared(s: Store, b: Store, t: Store) {
    var i := s.ui[b.actionUi];
    && b.action == REMOVE && t.action == NONE && t.ui == s.ui[b.actionUi := EMPTY]
    && (forall o: SlotIndex | o != i :: KeptSlot(s.slots[o], t.slots[o], false))
    && (i != EMPTY ==>
          !t.slots[i].occupied && t.slots[i].generation == t.slots[i].saved && t.slots[i].data == s.slots[i].data)
  }

  predicate Lies(t: Store, slot: SlotIndex, job: Job) {
    t.slots[slot] == Slot(job.data, job.id, job.source, job.sequence, 0, 0, Uid(job.data), true, true, true)
  }

  /** The figure asked for took the position; only a free slot or the one swapped out received it. */
  predicate Landed(s: Store, b: Store, t: Store, job: Job) {
    var i := s.ui[b.actionUi];
    && b.action == LOAD && t.action == NONE && job.id == b.target
    && exists slot: SlotIndex ::
      && Lies(t, slot, job) && t.ui == s.ui[b.actionUi := slot] && (slot == i || !s.slots[slot].occupied)
      && (forall o: SlotIndex | o != i && o != slot :: KeptSlot(s.slots[o], t.slots[o], false))
      && (i != EMPTY && i != slot ==> !t.slots[i].occupied)
  }

  /** What the step that ends an action leaves. */
  predicate Concluded(s: Store, b: Store, w: World, step: Step, t: Store) {
    match step
    case Received(_) => false
    case Worked(_) => false
    case PowerLost(_) => true
    case Ticked(_) => Cleared(s, b, t)
    case Completed =>
      var r := w.portal.store;
      if LoadLands(r) then Landed(s, b, t, r.job)
      else PutBack(s, b, t) && t.error == if r.result < 0 then r.result else -17
  }

  predicate Outcome(s: Store, b: Store, w: World, step: Step, t: Store) {
    if t.action == NONE then Concluded(s, b, w, step, t) else Pending(s, b, t)
  }

  // --------------------------------------------------------------------------
  // Single steps

  /** Slots, positions and the action are as before. */
  predicate Unmoved(s: Store, t: Store) {
    && t.slots == s.slots && t.ui == s.ui && t.action == s.action && t.actionUi == s.actionUi
    && t.outgoing == s.outgoing && t.target == s.target
  }

  predicate Vacates(s: Store, t: Store) {
    && s.action == REMOVE && t.action == NONE && t.ui == s.ui[s.actionUi := EMPTY]
    && t.slots == Vacate(s, s.outgoing).slots
    && (s.outgoing != EMPTY ==> s.slots[s.outgoing].generation == s.slots[s.outgoing].saved)
  }

  predicate Started(s: Store, t: Store) {
    && t.action != NONE && t.ui == s.ui && t.outgoing == s.ui[t.actionUi]
    && t.slots == SetPresent(s, t.outgoing, false).slots
  }

  lemma BeginStarts(p: Portal, ui: nat, id: nat, action: nat)
    requires action != NONE
    ensures var t := Begin(p, ui, id, action).0.store;
      Unmoved(p.store, t) || (p.store.action == NONE && Started(p.store, t))
  {
  }

  lemma CommandStarts(p: Portal, op: u32, arg: u32)
    ensures var t := Command(p, op, arg).0.store;
      Unmoved(p.store, t) || (p.store.action == NONE && Started(p.store, t))
  {
    if op == 2 || op == 3 {
      BeginStarts(p, arg / 0x1_0000, arg % 0x1_0000, op);
    }
  }

  lemma MailboxStarts(p: Portal, env: Env)
    ensures var t := Mailbox(p, env).store; Unmoved(p.store, t) || (p.store.action == NONE && Started(p.store, t))
  {
    var q := Beat(p, env.box.heartbeat);
    assert Unmoved(p.store, q.store);
    if TakesCommand(p, env) {
      var r := SetStore(q, q.store.(requestSeq := env.box.seqno));
      assert Unmoved(p.store, r.store);
      CommandStarts(r, env.box.op, env.box.arg);
    }
  }

  lemma AdvancedMoves(s: Store, sent: int, now: u32)
    requires StoreOk(s) && s.action != NONE
    ensures var t := Advanced(s, sent, now); Unmoved(s, t) || Vacates(s, t)
  {
  }

  lemma BackgroundMoves(s: Store, sent: int, now: u32)
    ensures Unmoved(s, Background(s, sent, now))
  {
  }

  lemma ScheduleStarts(p: Portal, sent: int)
    requires p.store.action == NONE
    ensures var t := Schedule(p, sent).store; Unmoved(p.store, t) || Started(p.store, t)
  {
    var s := p.store;
    if !s.busy && s.count > 0 {
      if s.autoload && RetryElapsed(s, p.ticks) {
        BeginStarts(p, 0, 0, LOAD);
      } else {
        BackgroundMoves(s, sent, p.ticks);
      }
    }
  }

  /** What the timer does with a pending action. */
  lemma ScheduleMoves(p: Portal, sent: int)
    requires Inv(p) && p.store.action != NONE
    ensures var s, t := p.store, Schedule(p, sent).store; Unmoved(s, t) || Vacates(s, t)
  {
    if !p.store.busy && p.store.count > 0 {
      AdvancedMoves(p.store, sent, p.ticks);
    }
  }

  lemma TickStarts(p: Portal, env: Env)
    requires Inv(p) && p.store.action == NONE && Tick(p, env).store.action != NONE
    ensures Started(p.store, Tick(p, env).store)
  {
    var q := p.(ticks := Plus(p.ticks, 1));
    MailboxStarts(q, env);
    MailboxKeeps(q, env);
    DeliveryKeepsStore(Poll(q, env), 16);
    var r := AfterMailbox(p, env);
    if r.store.action == NONE {
      ScheduleStarts(r, env.sent);
    } else {
      ScheduleMoves(r, env.sent);
    }
  }

  /** The step that begins an action hides the figure at its position and changes nothing else of any figure. */
  lemma ActionBegins(w: World, step: Step)
    requires WorldOk(w) && Enabled(w, step)
    requires w.portal.store.action == NONE && Next(w, step).portal.store.action != NONE
    ensures var s, t := w.portal.store, Next(w, step).portal.store; Pending(s, t, t)
  {
    var s, t := w.portal.store, Next(w, step).portal.store;
    match step {
      case Received(m) => var i, block, bytes := RequestWrites(w.portal, m);
      case Ticked(env) => TickStarts(w.portal, env);
      case Worked(work) => WorkMovesNothing(w, work);
      case Completed => CompletionStarts(w.portal);
      case PowerLost(_) =>
    }
    StartedIsPending(s, t);
  }

  lemma StartedIsPending(s: Store, t: Store)
    requires Started(s, t)
    ensures Pending(s, t, t)
  {
    assert forall o: SlotIndex :: KeptSlot(s.slots[o], t.slots[o], o == t.outgoing);
  }

  /** Only a finished catalogue read begins an action. */
  lemma CompletionStarts(p: Portal)
    requires Inv(p) && p.store.busy && p.store.action == NONE && Complete(p).store.action != NONE
    ensures Started(p.store, Complete(p).store)
  {
    var s := p.store;
    BeginStarts(SetStore(p, s.(busy := false, error := s.result, retry := p.ticks, count := |s.catalog|)), 0, 0, LOAD);
  }

  lemma WorkMovesNothing(w: World, work: Work)
    requires InRange(w) && Enabled(w, Worked(work))
    ensures Unmoved(w.portal.store, WorkedOn(w, work).portal.store)
  {
  }

  lemma PendingTick(s: Store, b: Store, r: Store, t: Store)
    requires Pending(s, b, r)
    requires Unmoved(r, t) || Vacates(r, t)
    ensures if t.action == NONE then Cleared(s, b, t) else Pending(s, b, t)
  {
    forall o: SlotIndex | o != b.outgoing || t.action != NONE
      ensures KeptSlot(s.slots[o], t.slots[o], o == b.outgoing)
    {
      assert KeptSlot(s.slots[o], r.slots[o], o == b.outgoing);
    }
  }

  lemma TickMoves(s: Store, b: Store, p: Portal, env: Env)
    requires Inv(p) && Pending(s, b, p.store)
    ensures var t := Tick(p, env).store; if t.action == NONE then Cleared(s, b, t) else Pending(s, b, t)
  {
    var q := p.(ticks := Plus(p.ticks, 1));
    MailboxStarts(q, env);
    MailboxKeeps(q, env);
    DeliveryKeepsStore(Poll(q, env), 16);
    var r := AfterMailbox(p, env);
    assert Unmoved(p.store, r.store);
    ScheduleMoves(r, env.sent);
    PendingTick(s, b, p.store, Tick(p, env).store);
  }

  lemma CompletionMoves(s: Store, b: Store, w: World)
    requires WorldOk(w) && w.worker == Finished && Pending(s, b, w.portal.store)
    ensures var t := Complete(w.portal).store;
      if t.action == NONE then Concluded(s, b, w, Completed, t) else Pending(s, b, t)
  {
    var r := w.portal.store;
    if r.result < 0 {
      RestoreMoves(s, b, w.portal, r.result);
    } else if r.op == OP_CATALOG {
      var q := r.(busy := false, error := r.result, retry := w.portal.ticks, count := |r.catalog|);
      BeginStarts(SetStore(w.portal, q), 0, 0, LOAD);
    } else if r.op == OP_SAVE {
      SaveMoves(s, b, w.portal);
    } else if LoadLands(r) {
      LandingMoves(s, b, w);
    } else {
      UidTakenFrame(r, r.(busy := false, error := r.result, retry := w.portal.ticks), Uid(r.job.data));
      RestoreMoves(s, b, w.portal, -17);
    }
  }

  lemma RestoreMoves(s: Store, b: Store, p: Portal, error: int)
    requires Pending(s, b, p.store)
    ensures PutBack(s, b, Restored(p.store.(busy := false, error := p.store.result, retry := p.ticks), error))
  {
    var t := Restored(p.store.(busy := false, error := p.store.result, retry := p.ticks), error);
    forall o: SlotIndex ensures KeptSlot(s.slots[o], t.slots[o], o == b.outgoing) {
      assert KeptSlot(s.slots[o], p.store.slots[o], o == b.outgoing);
    }
  }

  lemma SaveMoves(s: Store, b: Store, p: Portal)
    requires Inv(p) && p.store.busy && p.store.op == OP_SAVE && p.store.result >= 0 && Pending(s, b, p.store)
    ensures Pending(s, b, Complete(p).store)
  {
    var t := Complete(p).store;
    forall o: SlotIndex ensures KeptSlot(s.slots[o], t.slots[o], o == b.outgoing) {
      assert KeptSlot(s.slots[o], p.store.slots[o], o == b.outgoing);
    }
  }

  lemma LandingMoves(s: Store, b: Store, w: World)
    requires WorldOk(w) && w.worker == Finished && Pending(s, b, w.portal.store) && LoadLands(w.portal.store)
    ensures Landed(s, b, Complete(w.portal).store, w.portal.store.job)
  {
    var r, slot := LandingPlace(w);
    var t := Complete(w.portal).store;
    assert Lies(t, slot, w.portal.store.job);
    forall o: SlotIndex | o != s.ui[b.actionUi] && o != slot ensures KeptSlot(s.slots[o], t.slots[o], false) {
      assert KeptSlot(s.slots[o], r.slots[o], false);
    }
  }

  lemma RequestMoves(s: Store, b: Store, p: Portal, m: Message)
    requires Inv(p) && Pending(s, b, p.store)
    ensures Pending(s, b, Process(p, m).store)
  {
    var i, block, bytes := RequestWrites(p, m);
    var t := Process(p, m).store;
    forall o: SlotIndex ensures KeptSlot(s.slots[o], t.slots[o], o == b.outgoing) {
      assert KeptSlot(s.slots[o], p.store.slots[o], o == b.outgoing);
    }
  }

  /** Each step leaves a pending action pending, or ends it in one of the ways it may end. */
  lemma ActionMoves(s: Store, b: Store, w: World, step: Step)
    requires WorldOk(w) && Enabled(w, step) && Pending(s, b, w.portal.store)
    ensures Outcome(s, b, w, step, Next(w, step).portal.store)
  {
    match step {
      case Received(m) => RequestMoves(s, b, w.portal, m);
      case Ticked(env) => TickMoves(s, b, w.portal, env);
      case Worked(work) => WorkMovesNothing(w, work);
      case Completed => CompletionMoves(s, b, w);
      case PowerLost(_) =>
    }
  }

  // --------------------------------------------------------------------------
  // Runs

  /** From state `j` the action begun by step `j` is pending up to state `k`, exclusively. */
  predicate ActsBetween(trace: seq<World>, j: nat, k: nat) {
    && j + 1 < k < |trace| && trace[j].portal.store.action == NONE
    && forall m | j < m < k :: trace[m].portal.store.action != NONE
  }

  lemma PendingStep(library: Library, files: seq<Files>, trace: seq<World>, steps: seq<Step>, s: Store, b: Store,
      m: nat)
    requires IsRun(trace, steps) && Begins(trace[0], library, files) && m < |steps|
    requires Pending(s, b, trace[m].portal.store)
    ensures Outcome(s, b, trace[m], steps[m], trace[m + 1].portal.store)
  {
    RunKeeps(library, files, trace, steps, m);
    ActionMoves(s, b, trace[m], steps[m]);
  }

  lemma StillPending(library: Library, files: seq<Files>, trace: seq<World>, steps: seq<Step>, s: Store, b: Store,
      m: nat)
    requires IsRun(trace, steps) && Begins(trace[0], library, files) && m < |steps|
    requires Pending(s, b, trace[m].portal.store) && trace[m + 1].portal.store.action != NONE
    ensures Pending(s, b, trace[m + 1].portal.store)
  {
    PendingStep(library, files, trace, steps, s, b, m);
  }

  lemma LastStep(library: Library, files: seq<Files>, trace: seq<World>, steps: seq<Step>, s: Store, b: Store,
      m: nat)
    requires IsRun(trace, steps) && Begins(trace[0], library, files) && m < |steps|
    requires Pending(s, b, trace[m].portal.store) && trace[m + 1].portal.store.action == NONE
    ensures Concluded(s, b, trace[m], steps[m], trace[m + 1].portal.store)
  {
    PendingStep(library, files, trace, steps, s, b, m);
  }

  lemma FirstStep(library: Library, files: seq<Files>, trace: seq<World>, steps: seq<Step>, j: nat)
    requires IsRun(trace, steps) && Begins(trace[0], library, files) && j < |steps|
    requires trace[j].portal.store.action == NONE && trace[j + 1].portal.store.action != NONE
    ensures Pending(trace[j].portal.store, trace[j + 1].portal.store, trace[j + 1].portal.store)
  {
    RunKeeps(library, files, trace, steps, j);
    assert trace[j + 1] == Next(trace[j], steps[j]);
    ActionBegins(trace[j], steps[j]);
  }

  lemma {:induction false} StaysPending(library: Library, files: seq<Files>, trace: seq<World>, steps: seq<Step>,
      j: nat, k: nat, m: nat)
    requires IsRun(trace, steps) && Begins(trace[0], library, files) && ActsBetween(trace, j, k) && j < m < k
    ensures Pending(trace[j].portal.store, trace[j + 1].portal.store, trace[m].portal.store)
  {
    if m == j + 1 {
      FirstStep(library, files, trace, steps, j);
    } else {
      var n := m - 1;
      var s, b := trace[j].portal.store, trace[j + 1].portal.store;
      assert trace[n + 1] == trace[m];
      assert Pending(s, b, trace[n].portal.store) by {
        StaysPending(library, files, trace, steps, j, k, n);
      }
      assert Pending(s, b, trace[n + 1].portal.store) by {
        StillPending(library, files, trace, steps, s, b, n);
      }
    }
  }

  /**
    * A load or a remove is all or nothing, whatever happens in between: it ends with the figure
    * asked for in place, with the position cleared and nothing unsaved, with the former figure back
    * as it was, or by a power loss.
    */
  lemma ActionsEnd(library: Library, files: seq<Files>, trace: seq<World>, steps: seq<Step>, j: nat, k: nat)
    requires IsRun(trace, steps) && Begins(trace[0], library, files) && ActsBetween(trace, j, k)
    requires trace[k].portal.store.action == NONE
    ensures var s, b, t := trace[j].portal.store, trace[j + 1].portal.store, trace[k].portal.store;
      Concluded(s, b, trace[k - 1], steps[k - 1], t)
  {
    var n := k - 1;
    var s, b := trace[j].portal.store, trace[j + 1].portal.store;
    assert trace[n + 1] == trace[k];
    assert Pending(s, b, trace[n].portal.store) by {
      StaysPending(library, files, trace, steps, j, k, n);
    }
    assert Concluded(s, b, trace[n], steps[n], trace[n + 1].portal.store) by {
      LastStep(library, files, trace, steps, s, b, n);
    }
  }

  /**
    * A failed load, save or conflict restores the figure that was swapped out: from the step that
    * took position `u`, which showed slot `i`, to the completion that ends the action, the figure
    * keeps its data and identity, and it is present again at its position with the error reported.
    */
  lemma FailurePutsBack(library: Library, files: seq<Files>, trace: seq<World>, steps: seq<Step>, j: nat, k: nat,
      u: SlotIndex, i: SlotIndex)
    requires IsRun(trace, steps) && Begins(trace[0], library, files) && ActsBetween(trace, j, k)
    requires trace[k].portal.store.action == NONE
    requires steps[k - 1].Completed? && !LoadLands(trace[k - 1].portal.store)
    requires trace[j + 1].portal.store.actionUi == u && trace[j].portal.store.ui[u] == i
    ensures var r, s, t := trace[k - 1].portal.store, trace[j].portal.store, trace[k].portal.store;
      && t.ui == s.ui && t.ui[u] == i
      && t.slots[i].present && t.slots[i].occupied
      && t.slots[i].data == s.slots[i].data && t.slots[i].generation == s.slots[i].generation
      && t.slots[i].id == s.slots[i].id && t.slots[i].source == s.slots[i].source
      && t.slots[i].lastUid == s.slots[i].lastUid && t.slots[i].saved >= s.slots[i].saved
      && t.error == (if r.result < 0 then r.result else -17) < 0
  {
    ActionsEnd(library, files, trace, steps, j, k);
    RunKeeps(library, files, trace, steps, j);
    var s, t := trace[j].portal.store, trace[k].portal.store;
    assert KeptSlot(s.slots[i], t.slots[i], true);
  }
}
