/** Durability over every run: what the card guarantees in each reachable state, power losses included. */
module WorldSafety {
  import opened Words
  import opened HidSession
  import opened PortalSpec
  import opened PortalInvariants
  import opened Journal
  import opened Durability
  import opened World

  // --------------------------------------------------------------------------
  // The invariant

  /** The ledger of an occupied slot says where its data stands. */
  predicate Recorded(t: Slot, ledgers: map<nat, Ledger>) {
    t.occupied ==>
      && t.id in ledgers
      && ledgers[t.id].sequence == t.sequence
      && ledgers[t.id].saved == t.saved
      && |ledgers[t.id].versions| == t.generation + 1
      && ledgers[t.id].versions[t.generation] == t.data
  }

  predicate AllRecorded(slots: Slots, ledgers: map<nat, Ledger>) {
    forall i: SlotIndex :: Recorded(slots[i], ledgers)
  }

  predicate CardOk(w: World) {
    && |w.files| == |w.library|
    && (forall id | id in w.ledgers ::
          id < |w.files| && Safe(w.files[id], w.library[id].dump, w.ledgers[id])
          && LossIsUnsaved(w.files[id], w.ledgers[id]))
    && (forall id | 0 <= id < |w.files| :: Alternating(w.files[id]))
  }

  /** A running save carries the version it snapshot; a finished job did what its result claims. */
  predicate JobRecorded(s: Store, ledgers: map<nat, Ledger>) {
    s.busy && s.op == OP_SAVE ==>
      s.job.id in ledgers && s.snapshot < |ledgers[s.job.id].versions|
        && s.job.data == ledgers[s.job.id].versions[s.snapshot]
  }

  predicate ResultOk(w: World)
    requires InRange(w)
  {
    var s := w.portal.store;
    w.worker == Finished && s.result >= 0 ==>
      && (s.op == OP_CATALOG ==> |s.catalog| == |w.library|)
      && (s.op == OP_SAVE ==> w.files[s.job.id][TargetFile(s)] == Good(Plus(s.job.sequence, 1), s.job.data))
      && (s.op == OP_LOAD ==> Choose(w.library[s.job.id].dump, w.files[s.job.id][0], w.files[s.job.id][1])
                              == Loaded(s.job.sequence, s.job.data))
  }

  predicate WorkOk(w: World) {
    var s := w.portal.store;
    && InRange(w)
    && (s.count == 0 || s.count == |w.library|)
    && (s.busy <==> w.worker != Idle)
    && (w.worker == Writing ==> s.op == OP_SAVE)
    && JobRecorded(s, w.ledgers)
    && ResultOk(w)
  }

  /** A figure that left by a replace or a remove left nothing unsaved. */
  predicate RetiredOk(w: World) {
    forall id | id in w.retired ::
      id in w.ledgers && id !in OwnedIds(w.portal.store) && w.ledgers[id].saved == |w.ledgers[id].versions| - 1
  }

  predicate WorldOk(w: World) {
    Inv(w.portal) && CardOk(w) && WorkOk(w) && AllRecorded(w.portal.store.slots, w.ledgers) && RetiredOk(w)
  }

  // --------------------------------------------------------------------------
  // What handlers do to the store

  predicate SameJob(s: Store, t: Store) {
    t.busy == s.busy && t.op == s.op && t.job == s.job && t.diskSlot == s.diskSlot && t.snapshot == s.snapshot
    && t.result == s.result && t.catalog == s.catalog && t.count == s.count
  }

  predicate OnlyPresence(s: Store, t: Store) {
    forall i: SlotIndex :: t.slots[i] == s.slots[i].(present := t.slots[i].present)
  }

  /** A figure may leave, but only with everything saved. */
  predicate LeavesSaved(a: Slot, b: Slot) {
    && b == a.(present := b.present, occupied := b.occupied)
    && (b.occupied ==> a.occupied)
    && (a.occupied && !b.occupied ==> a.generation == a.saved)
  }

  predicate SnapshotTaken(t: Store) {
    && (t.op == OP_SAVE ==>
          var slot := t.slots[t.diskSlot];
                t.job == Job(slot.id, slot.source, slot.sequence, slot.data) && t.snapshot == slot.generation)
    && (t.op == OP_LOAD ==> t.job.source == SourceOf(t, t.job.id))
  }

  predicate Scheduled(s: Store, t: Store) {
    && t.catalog == s.catalog && t.count == s.count && t.result == s.result
    && (forall i: SlotIndex :: LeavesSaved(s.slots[i], t.slots[i]))
    && (s.busy ==> SameJob(s, t))
    && (!s.busy && t.busy ==> SnapshotTaken(t))
  }

  lemma BeginOnlyPresence(p: Portal, ui: nat, id: nat, action: nat)
    ensures OnlyPresence(p.store, Begin(p, ui, id, action).0.store)
        && SameJob(p.store, Begin(p, ui, id, action).0.store)
  {
  }

  lemma CommandOnlyPresence(p: Portal, op: u32, arg: u32)
    ensures OnlyPresence(p.store, Command(p, op, arg).0.store) && SameJob(p.store, Command(p, op, arg).0.store)
  {
    if op == 2 || op == 3 {
      BeginOnlyPresence(p, arg / 0x1_0000, arg % 0x1_0000, op);
    }
  }

  lemma MailboxOnlyPresence(p: Portal, env: Env)
    ensures OnlyPresence(p.store, Mailbox(p, env).store) && SameJob(p.store, Mailbox(p, env).store)
  {
    if Alive(p, env) {
      var q := Beat(p, env.box.heartbeat);
      if env.box.seqno != q.store.requestSeq
          && !((env.box.op == 2 || env.box.op == 3) && (q.store.action != NONE || q.store.busy)) {
        var r := SetStore(q, q.store.(requestSeq := env.box.seqno));
        CommandOnlyPresence(r, env.box.op, env.box.arg);
        ReportedOnlyPresence(p.store, Command(r, env.box.op, env.box.arg));
      }
    }
  }

  lemma ReportedOnlyPresence(s: Store, r: (Portal, int))
    requires OnlyPresence(s, r.0.store) && SameJob(s, r.0.store)
    ensures OnlyPresence(s, Reported(r).store) && SameJob(s, Reported(r).store)
  {
  }

  lemma AdvancedSchedules(s: Store, sent: int, now: u32)
    requires StoreOk(s) && !s.busy && s.action != NONE
    ensures Scheduled(s, Advanced(s, sent, now))
  {
    var t := Advanced(s, sent, now);
    forall i: SlotIndex ensures LeavesSaved(s.slots[i], t.slots[i]) {
      assert i != s.outgoing ==> t.slots[i] == s.slots[i];
    }
  }

  lemma BackgroundSchedules(s: Store, sent: int, now: u32)
    requires !s.busy
    ensures Scheduled(s, Background(s, sent, now))
  {
  }

  lemma ScheduleSchedules(p: Portal, sent: int)
    requires Inv(p)
    ensures Scheduled(p.store, Schedule(p, sent).store)
  {
    if !p.store.busy && p.store.count > 0 {
      if p.store.action != NONE {
        AdvancedSchedules(p.store, sent, p.ticks);
      } else {
        BeginOnlyPresence(p, 0, 0, LOAD);
        BackgroundSchedules(p.store, sent, p.ticks);
      }
    }
  }

  lemma TickSchedules(p: Portal, env: Env)
    requires Inv(p)
    ensures Scheduled(p.store, Tick(p, env).store)
  {
    var q := p.(ticks := Plus(p.ticks, 1));
    MailboxOnlyPresence(q, env);
    MailboxKeeps(q, env);
    var r := if q.ticks % 8 == 0 then Mailbox(q, env) else q;
    ScheduleSchedules(r, env.sent);
    DeliveryKeepsStore(Poll(q, env), 16);
    var t := Tick(p, env).store;
    forall i: SlotIndex ensures LeavesSaved(p.store.slots[i], t.slots[i]) {
      assert LeavesSaved(r.store.slots[i], t.slots[i]);
    }
  }

  /**
    * While the storage worker is busy no request and no tick touches the disk job, so the completion
    * refers to the slot, the snapshot and the buffer that were submitted.
    */
  lemma BusyFreezesJob(p: Portal, m: Message, env: Env)
    requires Inv(p) && p.store.busy
    ensures SameJob(p.store, Process(p, m).store) && SameJob(p.store, Tick(p, env).store)
  {
    TickSchedules(p, env);
    var i, block, bytes := RequestWrites(p, m);
  }

  /** Of the store, a request changes at most one block of one present figure. */
  lemma RequestWrites(p: Portal, m: Message) returns (i: SlotIndex, block: nat, bytes: seq<byte>)
    ensures block < 64 && |bytes| == 16
    ensures var t := Process(p, m).store;
      t == p.store || (p.store.slots[i].present
        && t == p.store.(slots := p.store.slots[i := Written(p.store.slots[i], block, bytes)]))
  {
    i, block, bytes := 0, 0, Zeros(16);
    if m.payload.Some? && Accepts(m.payload.value) && m.payload.value[0] == WRITE {
      var d := m.payload.value;
      i, block, bytes := d[1] % 16, d[2], d[3..19];
    }
  }

  // --------------------------------------------------------------------------
  // Requests

  lemma {:induction false} GrownMeaning(s: Store, t: Store, n: nat, i: SlotIndex)
    requires n <= i
    requires forall j: SlotIndex | j != i :: s.slots[j].generation == t.slots[j].generation
    ensures Grown(s, t, n) == if s.slots[i].generation != t.slots[i].generation then Some(i) else None
    decreases 16 - n
  {
    if n < i {
      GrownMeaning(s, t, n + 1, i);
    } else {
      NoneGrown(s, t, i + 1);
    }
  }

  lemma {:induction false} NoneGrown(s: Store, t: Store, n: nat)
    requires n <= 16
    requires forall j: SlotIndex | n <= j :: s.slots[j].generation == t.slots[j].generation
    ensures Grown(s, t, n) == None
    decreases 16 - n
  {
    if n < 16 {
      NoneGrown(s, t, n + 1);
    }
  }

  /** One accepted write: the ledger of its figure grows by the new version. */
  lemma WriteKeepsWorld(w: World, p: Portal, i: SlotIndex, block: nat, bytes: seq<byte>)
    requires WorldOk(w) && Inv(p) && w.portal.store.slots[i].present && block < 64 && |bytes| == 16
    requires p.store == w.portal.store.(slots
        := w.portal.store.slots[i := Written(w.portal.store.slots[i], block, bytes)])
    ensures WorldOk(Handled(w, p, Noted(w.ledgers, p.store, Some(i))))
  {
    var s, t := w.portal.store, p.store;
    var v := Handled(w, p, Noted(w.ledgers, t, Some(i)));
    SameOwned(s, t);
    var id := s.slots[i].id;
    assert Recorded(s.slots[i], w.ledgers);
    var l := w.ledgers[id];
    WriteKeepsSafe(w.files[id], w.library[id].dump, l, t.slots[i].data);
    forall j: SlotIndex ensures Recorded(t.slots[j], v.ledgers) {
      assert Recorded(s.slots[j], w.ledgers);
    }
    OwnedHas(s, i);
  }

  lemma OwnedHas(s: Store, i: SlotIndex)
    ensures s.slots[i].occupied ==> s.slots[i].id in OwnedIds(s)
  {
  }

  lemma RequestKeeps(w: World, m: Message)
    requires WorldOk(w)
    ensures WorldOk(Next(w, Received(m)))
  {
    var s, p := w.portal.store, Process(w.portal, m);
    ProcessKeeps(w.portal, m);
    var i, block, bytes := RequestWrites(w.portal, m);
    GrownMeaning(s, p.store, 0, i);
    if p.store != s {
      WriteKeepsWorld(w, p, i, block, bytes);
    }
  }

  lemma SameOwned(s: Store, t: Store)
    requires forall j: SlotIndex :: t.slots[j].occupied == s.slots[j].occupied && t.slots[j].id == s.slots[j].id
    ensures OwnedIds(t) == OwnedIds(s)
  {
    forall id ensures id in OwnedIds(t) <==> id in OwnedIds(s) {
      if id in OwnedIds(t) {
        var j: SlotIndex :| t.slots[j].occupied && t.slots[j].id == id;
        assert s.slots[j].id == id;
      }
      if id in OwnedIds(s) {
        var j: SlotIndex :| s.slots[j].occupied && s.slots[j].id == id;
        assert t.slots[j].id == id;
      }
    }
  }

  // --------------------------------------------------------------------------
  // Ticks

  lemma TickKeepsWorld(w: World, env: Env)
    requires WorldOk(w)
    ensures WorldOk(Next(w, Ticked(env)))
  {
    var s, p := w.portal.store, Tick(w.portal, env);
    TickKeeps(w.portal, env);
    TickSchedules(w.portal, env);
    var t, v := p.store, Next(w, Ticked(env));
    forall i: SlotIndex ensures Recorded(t.slots[i], v.ledgers) {
      assert Recorded(s.slots[i], w.ledgers);
      assert LeavesSaved(s.slots[i], t.slots[i]);
    }
    TickWork(w, t);
    forall id | id in v.retired
      ensures id in v.ledgers && id !in OwnedIds(t) && v.ledgers[id].saved == |v.ledgers[id].versions| - 1
    {
      if id in OwnedIds(s) {
        var i: SlotIndex :| s.slots[i].occupied && s.slots[i].id == id;
        assert Recorded(s.slots[i], w.ledgers);
        assert LeavesSaved(s.slots[i], t.slots[i]);
        OwnedHas(t, i);
      }
    }
  }

  lemma TickWork(w: World, t: Store)
    requires WorldOk(w) && StoreOk(t) && Scheduled(w.portal.store, t)
    requires AllRecorded(t.slots, w.ledgers)
    ensures JobRecorded(t, w.ledgers)
  {
    if !w.portal.store.busy && t.busy && t.op == OP_SAVE {
      assert Recorded(t.slots[t.diskSlot], w.ledgers);
    }
  }

  // --------------------------------------------------------------------------
  // The storage worker

  /** The invariant survives changes of the buffer and result that no running save depends on. */
  lemma EndedKeepsPortal(p: Portal, t: Store)
    requires Inv(p) && p.store.busy
    requires t == p.store.(result := t.result, catalog := t.catalog, job := t.job)
    requires t.job.id == p.store.job.id && (p.store.op == OP_SAVE ==> t.job == p.store.job)
    ensures Inv(SetStore(p, t))
  {
    assert Presence(t) == Presence(p.store);
  }

  lemma ReadKeeps(w: World, work: Work)
    requires WorldOk(w) && Enabled(w, Worked(work)) && (work.Fails? || work.Reads?)
    ensures WorldOk(Next(w, Worked(work)))
  {
    var t := Next(w, Worked(work)).portal.store;
    ReadKeepsWork(w, work);
    EndedKeeps(w, t);
    assert Next(w, Worked(work)) == Ended(w, t);
  }

  lemma EndedKeeps(w: World, t: Store)
    requires WorldOk(w) && w.portal.store.busy && WorkOk(Ended(w, t))
    requires t == w.portal.store.(result := t.result, catalog := t.catalog, job := t.job)
    requires t.job.id == w.portal.store.job.id && (t.op == OP_SAVE ==> t.job == w.portal.store.job)
    ensures WorldOk(Ended(w, t))
  {
    EndedKeepsPortal(w.portal, t);
    SameOwned(w.portal.store, t);
  }

  lemma ReadKeepsWork(w: World, work: Work)
    requires WorkOk(w) && Enabled(w, Worked(work)) && (work.Fails? || work.Reads?)
    ensures WorkOk(WorkedOn(w, work))
  {
  }

  /** The job of a running save, in terms of its figure's ledger. */
  lemma SaveJobLedger(w: World)
    requires WorldOk(w) && w.portal.store.busy && w.portal.store.op == OP_SAVE
    ensures var s := w.portal.store;
      && s.job.id in w.ledgers && w.ledgers[s.job.id].sequence == s.job.sequence
      && w.ledgers[s.job.id].saved < s.snapshot < |w.ledgers[s.job.id].versions|
      && s.job.data == w.ledgers[s.job.id].versions[s.snapshot]
  {
    assert Recorded(w.portal.store.slots[w.portal.store.diskSlot], w.ledgers);
  }

  /** Whatever a save has left in its file so far, every figure stays safe. */
  lemma FileKeepsCard(w: World, view: View)
    requires WorldOk(w) && w.portal.store.busy && w.portal.store.op == OP_SAVE
    requires view == Damaged || view == Good(Plus(w.portal.store.job.sequence, 1), w.portal.store.job.data)
    ensures CardOk(WithFile(w, view))
    ensures WithFile(w, view).files[w.portal.store.job.id][TargetFile(w.portal.store)] == view
  {
    SaveJobLedger(w);
    var s := w.portal.store;
    var l := w.ledgers[s.job.id];
    StoppedSaveIsSafe(w.files[s.job.id], w.library[s.job.id].dump, l, s.snapshot, view);
    SafeIsAlternating(WithFile(w, view).files[s.job.id], w.library[s.job.id].dump, l);
  }

  lemma SaveStepKeeps(w: World, work: Work)
    requires WorldOk(w) && Enabled(w, Worked(work)) && (work.Opens? || work.Stops? || work.Lands?)
    ensures WorldOk(Next(w, Worked(work)))
  {
    var s := w.portal.store;
    FileKeepsCard(w, Damaged);
    FileKeepsCard(w, Good(Plus(s.job.sequence, 1), s.job.data));
    EndedKeepsPortal(w.portal, s.(result := Next(w, Worked(work)).portal.store.result));
  }

  // --------------------------------------------------------------------------
  // Completions

  /** A completion that moves no figure. */
  lemma QuietCompletion(w: World, p: Portal)
    requires WorldOk(w) && w.worker == Finished && Inv(p) && !p.store.busy && OnlyPresence(w.portal.store, p.store)
    requires p.store.count == w.portal.store.count || p.store.count == |w.library|
    ensures WorldOk(Handled(w, p, w.ledgers))
  {
    var s, t := w.portal.store, p.store;
    SameOwned(s, t);
    forall j: SlotIndex ensures Recorded(t.slots[j], w.ledgers) {
      assert Recorded(s.slots[j], w.ledgers);
    }
    assert Handled(w, p, w.ledgers).retired == w.retired;
  }

  lemma FailureKeepsWorld(w: World)
    requires WorldOk(w) && w.worker == Finished && w.portal.store.result < 0
    ensures WorldOk(Next(w, Completed))
  {
    CompleteKeeps(w.portal);
    FailureRestores(w.portal);
    QuietCompletion(w, Complete(w.portal));
  }

  /** A failed operation leaves every figure, its data and its menu position in place, and present again. */
  lemma FailureRestores(p: Portal)
    requires p.store.result < 0
    ensures var s, t := p.store, Complete(p).store;
      && OnlyPresence(s, t) && t.ui == s.ui && t.error == s.result && t.action == NONE
      && !t.busy && t.count == s.count
      && (s.action != NONE && s.outgoing != EMPTY ==> t.slots[s.outgoing].present)
  {
  }

  lemma CatalogKeepsWorld(w: World)
    requires WorldOk(w) && w.worker == Finished && w.portal.store.result >= 0 && w.portal.store.op == OP_CATALOG
    ensures WorldOk(Next(w, Completed))
  {
    var s := w.portal.store;
    CompleteKeeps(w.portal);
    var q := SetStore(w.portal, s.(busy := false, error := s.result, retry := w.portal.ticks, count := |s.catalog|));
    BeginOnlyPresence(q, 0, 0, LOAD);
    QuietCompletion(w, Complete(w.portal));
  }

  lemma ConflictKeepsWorld(w: World)
    requires WorldOk(w) && w.worker == Finished && w.portal.store.result >= 0 && w.portal.store.op == OP_LOAD
    requires UidTaken(w.portal.store, Uid(w.portal.store.job.data))
    ensures WorldOk(Next(w, Completed))
  {
    CompleteKeeps(w.portal);
    ConflictRestores(w.portal);
    var p := Complete(w.portal);
    QuietCompletion(w, p);
    assert LedgersAfter(w.ledgers, w.portal.store) == w.ledgers;
    assert Next(w, Completed) == Handled(w, p, w.ledgers);
  }

  lemma ConflictRestores(p: Portal)
    requires p.store.result >= 0 && p.store.op == OP_LOAD && UidTaken(p.store, Uid(p.store.job.data))
    ensures var t := Complete(p).store; OnlyPresence(p.store, t) && !t.busy && t.count == p.store.count
  {
    UidTakenFrame(p.store, p.store.(busy := false, error := p.store.result, retry := p.ticks), Uid(p.store.job.data));
  }

  lemma UidTakenFrame(s: Store, t: Store, uid: u32)
    requires t.slots == s.slots && t.outgoing == s.outgoing
    ensures UidTaken(t, uid) <==> UidTaken(s, uid)
  {
    assert forall i: SlotIndex :: Usable(s, i) <==> Usable(t, i);
  }

  /** An acknowledged save: the ledger moves on, and everything else stays. */
  lemma SaveKeepsWorld(w: World)
    requires WorldOk(w) && w.worker == Finished && w.portal.store.result >= 0 && w.portal.store.op == OP_SAVE
    ensures WorldOk(Next(w, Completed))
  {
    var s, p := w.portal.store, Complete(w.portal);
    CompleteKeeps(w.portal);
    var t, v, id := p.store, Next(w, Completed), s.job.id;
    SaveJobLedger(w);
    var l := w.ledgers[id];
    AcknowledgedSaveIsSafe(w.files[id], w.library[id].dump, l, s.snapshot);
    SameOwned(s, t);
    OwnedHas(s, s.diskSlot);
    forall j: SlotIndex ensures Recorded(t.slots[j], v.ledgers) {
      assert Recorded(s.slots[j], w.ledgers);
    }
    assert v.retired == w.retired;
  }

  /** Where the loaded figure of a finished job goes. */
  lemma LandingPlace(w: World) returns (r: Store, slot: SlotIndex)
    requires WorldOk(w) && w.worker == Finished && LoadLands(w.portal.store)
    ensures r == w.portal.store.(busy := false, error := w.portal.store.result, retry := w.portal.ticks)
    ensures Usable(r, slot) && Complete(w.portal).store == Placed(r, slot)
  {
    var s := w.portal.store;
    r := s.(busy := false, error := s.result, retry := w.portal.ticks);
    UidTakenFrame(s, r, Uid(s.job.data));
    LoadAlwaysFindsSlot(r, Uid(s.job.data));
    slot := Destination(r, Uid(s.job.data)).value;
  }

  lemma LandingRecorded(w: World, r: Store, slot: SlotIndex)
    requires WorldOk(w) && w.worker == Finished && LoadLands(w.portal.store)
    requires r == w.portal.store.(busy := false, error := r.error, retry := r.retry) && Usable(r, slot)
    ensures AllRecorded(Placed(r, slot).slots, LedgersAfter(w.ledgers, w.portal.store))
  {
    var s := w.portal.store;
    forall j: SlotIndex ensures Recorded(Placed(r, slot).slots[j], LedgersAfter(w.ledgers, s)) {
      assert Recorded(s.slots[j], w.ledgers);
      assert !Owns(s.slots[j], s.target);
    }
  }

  lemma LandingRetires(w: World, r: Store, slot: SlotIndex)
    requires WorldOk(w) && w.worker == Finished && LoadLands(w.portal.store)
    requires r == w.portal.store.(busy := false, error := r.error, retry := r.retry) && Usable(r, slot)
    requires Next(w, Completed).portal.store == Placed(r, slot)
    ensures RetiredOk(Next(w, Completed))
  {
    var s, v := w.portal.store, Next(w, Completed);
    assert Owns(Placed(r, slot).slots[slot], s.job.id);
    OwnedHas(Placed(r, slot), slot);
    forall x | x in v.retired
      ensures x in v.ledgers && x !in OwnedIds(v.portal.store) && v.ledgers[x].saved == |v.ledgers[x].versions| - 1
    {
      if x in OwnedIds(s) {
        LeaverIsSaved(w, r, slot, x);
      }
    }
  }

  /** A figure lands: its ledger starts afresh, and the replaced figure retires with nothing unsaved. */
  lemma LoadKeepsWorld(w: World)
    requires WorldOk(w) && w.worker == Finished && LoadLands(w.portal.store)
    ensures WorldOk(Next(w, Completed))
  {
    var s := w.portal.store;
    CompleteKeeps(w.portal);
    var r, slot := LandingPlace(w);
    LoadStartsLedger(w.files[s.job.id], w.library[s.job.id].dump);
    LandingRecorded(w, r, slot);
    LandingRetires(w, r, slot);
  }

  /** Only the replaced figure leaves when another one lands. */
  lemma LeaverIsSaved(w: World, r: Store, slot: SlotIndex, x: nat)
    requires WorldOk(w) && w.portal.store.busy && w.portal.store.op == OP_LOAD
    requires r == w.portal.store.(busy := false, error := r.error, retry := r.retry)
    requires Usable(r, slot) && x in OwnedIds(w.portal.store) && x !in OwnedIds(Placed(r, slot))
    ensures x in w.ledgers && w.ledgers[x].saved == |w.ledgers[x].versions| - 1
  {
    var s := w.portal.store;
    var i: SlotIndex :| s.slots[i].occupied && s.slots[i].id == x;
    assert Recorded(s.slots[i], w.ledgers);
    if i != s.outgoing {
      OthersStay(r, slot, i);
    }
  }

  lemma OthersStay(r: Store, slot: SlotIndex, i: SlotIndex)
    requires Usable(r, slot) && r.slots[i].occupied && i != r.outgoing
    ensures r.slots[i].id in OwnedIds(Placed(r, slot))
  {
    OwnedHas(Placed(r, slot), i);
  }

  lemma CompletionKeeps(w: World)
    requires WorldOk(w) && w.worker == Finished
    ensures WorldOk(Next(w, Completed))
  {
    var s := w.portal.store;
    if s.result < 0 {
      FailureKeepsWorld(w);
    } else if s.op == OP_CATALOG {
      CatalogKeepsWorld(w);
    } else if s.op == OP_SAVE {
      SaveKeepsWorld(w);
    } else if UidTaken(s, Uid(s.job.data)) {
      ConflictKeepsWorld(w);
    } else {
      LoadKeepsWorld(w);
    }
  }

  // --------------------------------------------------------------------------
  // Whole runs

  lemma BootKeeps(w: World, sent: int)
    requires WorldOk(w)
    ensures WorldOk(Next(w, PowerLost(sent)))
  {
    FreshInv();
    SubmissionKeeps(Fresh().store, Boot(sent).store);
    assert forall id :: id !in OwnedIds(Boot(sent).store);
  }

  lemma StepKeeps(w: World, step: Step)
    requires WorldOk(w) && Enabled(w, step)
    ensures WorldOk(Next(w, step))
  {
    match step {
      case Received(m) => RequestKeeps(w, m);
      case Ticked(env) => TickKeepsWorld(w, env);
      case Worked(work) =>
        if work.Fails? || work.Reads? {
          ReadKeeps(w, work);
        } else {
          SaveStepKeeps(w, work);
        }
      case Completed => CompletionKeeps(w);
      case PowerLost(sent) => BootKeeps(w, sent);
    }
  }

  /** A run from a card whose journals alternate. */
  ghost predicate Begins(w: World, library: Library, files: seq<Files>) {
    && |files| == |library|
    && (forall id | 0 <= id < |files| :: Alternating(files[id]))
    && exists sent :: w == Start(library, files, sent)
  }

  lemma StartOk(w: World, library: Library, files: seq<Files>)
    requires Begins(w, library, files)
    ensures WorldOk(w)
  {
    var sent :| w == Start(library, files, sent);
    FreshInv();
    SubmissionKeeps(Fresh().store, Boot(sent).store);
  }

  /** `trace` lists the states of a run, `steps` what happens between them. */
  predicate IsRun(trace: seq<World>, steps: seq<Step>) {
    && |trace| == |steps| + 1
    && forall k | 0 <= k < |steps| ::
          InRange(trace[k]) && Enabled(trace[k], steps[k]) && trace[k + 1] == Next(trace[k], steps[k])
  }

  lemma {:induction false} RunKeeps(library: Library, files: seq<Files>, trace: seq<World>, steps: seq<Step>, k: nat)
    requires IsRun(trace, steps) && Begins(trace[0], library, files) && k < |trace|
    ensures WorldOk(trace[k])
  {
    if k == 0 {
      StartOk(trace[0], library, files);
    } else {
      RunKeeps(library, files, trace, steps, k - 1);
      StepKeeps(trace[k - 1], steps[k - 1]);
    }
  }

  /** What a fresh load of one figure from the card would return. */
  function Reload(w: World, id: nat): Loaded
    requires id < |w.files| == |w.library|
  {
    Choose(w.library[id].dump, w.files[id][0], w.files[id][1])
  }

  /**
    * Durability: in every state of every run, hence after a power loss at any step of a save, a reload
    * of a figure on the portal returns its data at the last acknowledged save or at a later generation.
    * It reports an error only for a written figure of which no save was ever acknowledged. The data it
    * has now is the latest of these.
    */
  lemma FiguresAreDurable(library: Library, files: seq<Files>, trace: seq<World>, steps: seq<Step>, k: nat,
      i: SlotIndex)
    requires IsRun(trace, steps) && Begins(trace[0], library, files) && k < |trace|
    requires trace[k].portal.store.slots[i].occupied
    ensures var w, t := trace[k], trace[k].portal.store.slots[i];
      && t.id < |w.files| == |w.library| && t.id in w.ledgers
      && t.saved <= t.generation < |w.ledgers[t.id].versions|
      && w.ledgers[t.id].versions[t.generation] == t.data
      && match Reload(w, t.id)
         case Failed(_) => t.sequence == 0 && t.saved == 0 < t.generation
         case Loaded(_, data) => exists g :: t.saved <= g <= t.generation && data == w.ledgers[t.id].versions[g]
  {
    RunKeeps(library, files, trace, steps, k);
    var w, t := trace[k], trace[k].portal.store.slots[i];
    assert Recorded(t, w.ledgers);
    RecoverableVersion(w, t.id);
  }

  lemma RecoverableVersion(w: World, id: nat)
    requires CardOk(w) && id in w.ledgers
    ensures var l := w.ledgers[id];
      match Reload(w, id)
      case Failed(_) => l.sequence == 0 && l.saved == 0 && |l.versions| > 1
      case Loaded(_, data) => exists g :: l.saved <= g < |l.versions| && data == l.versions[g]
  {
    var l := w.ledgers[id];
    ReloadIsRecent(w.files[id], w.library[id].dump, l);
    if Reload(w, id).Loaded? {
      var n :| 0 <= n < |Recoverable(l)| && Recoverable(l)[n] == Reload(w, id).data;
      assert Reload(w, id).data == l.versions[l.saved + n];
    }
  }

  /**
    * Figures that lost power keep the guarantee: until they are loaded again, a reload returns a
    * version no older than their last acknowledged save. It fails only if there was none and they had
    * been written.
    */
  lemma DurabilityAfterPowerLoss(library: Library, files: seq<Files>, trace: seq<World>, steps: seq<Step>, k: nat,
      id: nat)
    requires IsRun(trace, steps) && Begins(trace[0], library, files) && k < |trace|
    requires id in trace[k].ledgers
    ensures id < |trace[k].files| == |trace[k].library|
    ensures var l := trace[k].ledgers[id];
      match Reload(trace[k], id)
      case Failed(_) => l.sequence == 0 && l.saved == 0 && |l.versions| > 1
      case Loaded(_, data) => exists g :: l.saved <= g < |l.versions| && data == l.versions[g]
  {
    RunKeeps(library, files, trace, steps, k);
    RecoverableVersion(trace[k], id);
  }

  /** The journal of the last acknowledged save holds exactly this data; a figure never saved is its dump. */
  predicate OnCard(w: World, id: nat, sequence: u32, data: Data)
    requires id < |w.files| == |w.library|
  {
    || w.files[id][sequence % 2] == Good(sequence, data)
    || (w.files[id][sequence % 2].Missing? && sequence == 0 && w.library[id].dump == data)
  }

  /**
    * Replacing or removing loses nothing: whenever a step other than a power loss takes a figure off
    * the portal, it had no unsaved data, its newest journal holds exactly its data, and a reload
    * succeeds with exactly this data.
    */
  lemma NothingLostByLeaving(library: Library, files: seq<Files>, trace: seq<World>, steps: seq<Step>, k: nat,
      i: SlotIndex)
    requires IsRun(trace, steps) && Begins(trace[0], library, files) && k < |steps| && !steps[k].PowerLost?
    requires trace[k].portal.store.slots[i].occupied
    requires trace[k].portal.store.slots[i].id !in OwnedIds(trace[k + 1].portal.store)
    ensures var w, t := trace[k + 1], trace[k].portal.store.slots[i];
      && t.generation == t.saved && t.id in w.retired
      && t.id < |w.files| == |w.library| && OnCard(w, t.id, t.sequence, t.data)
      && Reload(w, t.id).Loaded? && Reload(w, t.id).data == t.data
  {
    RunKeeps(library, files, trace, steps, k);
    RunKeeps(library, files, trace, steps, k + 1);
    LeavingKeepsLedger(trace[k], steps[k], trace[k].portal.store.slots[i].id);
    RetirementIsComplete(trace[k], trace[k + 1], i);
  }

  lemma RetirementIsComplete(w: World, v: World, i: SlotIndex)
    requires AllRecorded(w.portal.store.slots, w.ledgers) && w.portal.store.slots[i].occupied
    requires CardOk(v) && RetiredOk(v)
    requires var id := w.portal.store.slots[i].id; id in v.retired && id in w.ledgers && v.ledgers[id] == w.ledgers[id]
    ensures var t := w.portal.store.slots[i];
      && t.generation == t.saved && t.id < |v.files| == |v.library| && OnCard(v, t.id, t.sequence, t.data)
      && Reload(v, t.id).Loaded? && Reload(v, t.id).data == t.data
  {
    var t := w.portal.store.slots[i];
    assert Recorded(t, w.ledgers);
    RecoverableVersion(v, t.id);
  }

  /** The ledger of a figure that a step takes away is the one it had. */
  lemma LeavingKeepsLedger(w: World, step: Step, id: nat)
    requires WorldOk(w) && Enabled(w, step) && !step.PowerLost?
    requires id in OwnedIds(w.portal.store) && id !in OwnedIds(Next(w, step).portal.store)
    ensures id in Next(w, step).retired && id in w.ledgers && id in Next(w, step).ledgers
    ensures Next(w, step).ledgers[id] == w.ledgers[id]
  {
    match step {
      case Received(m) => RequestOwned(w, m);
      case Ticked(env) => OwnedAreRecorded(w, id);
      case Worked(work) => WorkOwned(w, work);
      case Completed => LeavingCompletion(w, id);
    }
  }

  lemma RequestOwned(w: World, m: Message)
    ensures OwnedIds(Process(w.portal, m).store) == OwnedIds(w.portal.store)
  {
    var j, block, bytes := RequestWrites(w.portal, m);
    SameOwned(w.portal.store, Process(w.portal, m).store);
  }

  lemma WorkOwned(w: World, work: Work)
    requires InRange(w) && Enabled(w, Worked(work))
    ensures OwnedIds(WorkedOn(w, work).portal.store) == OwnedIds(w.portal.store)
  {
    SameOwned(w.portal.store, WorkedOn(w, work).portal.store);
  }

  lemma OwnedAreRecorded(w: World, id: nat)
    requires WorldOk(w) && id in OwnedIds(w.portal.store)
    ensures id in w.ledgers && !(w.portal.store.action == LOAD && id == w.portal.store.target)
  {
    var s := w.portal.store;
    var i: SlotIndex :| s.slots[i].occupied && s.slots[i].id == id;
    assert Recorded(s.slots[i], w.ledgers);
    assert !(s.action == LOAD && Owns(s.slots[i], s.target));
  }

  lemma LeavingCompletion(w: World, id: nat)
    requires WorldOk(w) && w.worker == Finished && id in OwnedIds(w.portal.store)
    ensures var v := Next(w, Completed);
      id in OwnedIds(v.portal.store)
      || (id in w.ledgers && id in v.ledgers && v.ledgers[id] == w.ledgers[id])
  {
    OwnedAreRecorded(w, id);
    if w.portal.store.result >= 0 && w.portal.store.op == OP_SAVE {
      SameOwned(w.portal.store, Complete(w.portal).store);
    }
  }

  /** And it stays so: a retired figure's card data is its data at the moment it left, until it is loaded again. */
  lemma RetiredFiguresAreComplete(library: Library, files: seq<Files>, trace: seq<World>, steps: seq<Step>, k: nat,
      id: nat)
    requires IsRun(trace, steps) && Begins(trace[0], library, files) && k < |trace|
    requires id in trace[k].retired
    ensures var w := trace[k];
      && id in w.ledgers && id < |w.files| == |w.library| && |w.ledgers[id].versions| > 0
      && var l := w.ledgers[id]; var last := l.versions[|l.versions| - 1];
      OnCard(w, id, l.sequence, last) && Reload(w, id).Loaded? && Reload(w, id).data == last
  {
    RunKeeps(library, files, trace, steps, k);
    RecoverableVersion(trace[k], id);
  }
}
