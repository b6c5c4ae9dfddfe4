/** What every handler of the portal keeps, and what follows for replacing and removing figures. */
module PortalInvariants {
  import opened Words
  import opened HidSession
  import opened SessionRuns
  import opened PortalSpec

  // --------------------------------------------------------------------------
  // The invariant

  /** Menu positions and occupied slots correspond one to one. */
  predicate MenuOk(s: Store) {
    && (forall u: SlotIndex :: s.ui[u] != EMPTY ==> s.slots[s.ui[u]].occupied)
    && (forall u: SlotIndex, v: SlotIndex :: u != v && s.ui[u] != EMPTY ==> s.ui[u] != s.ui[v])
    && (forall i: SlotIndex :: s.slots[i].occupied ==> i in s.ui)
  }

  predicate BeingSwapped(s: Store, i: SlotIndex) {
    s.action != NONE && i == s.outgoing
  }

  /** A figure is present exactly while it is occupied and not being swapped out. */
  predicate PresentOk(s: Store) {
    forall i: SlotIndex :: s.slots[i].present <==> s.slots[i].occupied && !BeingSwapped(s, i)
  }

  /** One save owner for each catalogue entry. */
  predicate OwnersOk(s: Store) {
    && (forall i: SlotIndex :: s.slots[i].occupied ==> s.slots[i].id < s.count)
    && (forall i: SlotIndex, j: SlotIndex ::
          i != j && s.slots[i].occupied && s.slots[j].occupied ==> s.slots[i].id != s.slots[j].id)
    && (s.action == LOAD ==> s.target < s.count && forall i: SlotIndex :: !Owns(s.slots[i], s.target))
  }

  /** Every slot that ever held a figure remembers a different identity. */
  predicate UidsOk(s: Store) {
    && (forall i: SlotIndex :: s.slots[i].occupied ==> s.slots[i].seenUid)
    && (forall i: SlotIndex, j: SlotIndex ::
          i != j && s.slots[i].seenUid && s.slots[j].seenUid ==> s.slots[i].lastUid != s.slots[j].lastUid)
  }

  predicate ActionOk(s: Store) {
    && (s.action == NONE || s.action == LOAD || s.action == REMOVE)
    && (s.action != NONE ==> s.ui[s.actionUi] == s.outgoing)
  }

  /** A running save works on the current occupant of its slot and on data it really had. */
  predicate SaveJobOk(s: Store) {
    var t := s.slots[s.diskSlot];
    && t.occupied && t.id == s.job.id && t.source == s.job.source && t.sequence == s.job.sequence
    && t.saved < s.snapshot <= t.generation
    && (s.action != NONE ==> s.diskSlot == s.outgoing && s.snapshot == t.generation)
  }

  predicate LoadJobOk(s: Store) {
    && s.action == LOAD && s.job.id == s.target
    && (s.outgoing != EMPTY ==> s.slots[s.outgoing].generation == s.slots[s.outgoing].saved)
  }

  predicate JobOk(s: Store) {
    s.busy ==>
      && (s.op == OP_CATALOG || s.op == OP_LOAD || s.op == OP_SAVE)
      && (s.op == OP_CATALOG ==> s.count == 0)
      && (s.op == OP_SAVE ==> SaveJobOk(s))
      && (s.op == OP_LOAD ==> LoadJobOk(s))
  }

  predicate SavedOk(s: Store) {
    && (forall i: SlotIndex :: s.slots[i].saved <= s.slots[i].generation)
    && (s.autoload ==> forall i: SlotIndex :: !s.slots[i].occupied)
  }

  predicate StoreOk(s: Store) {
    MenuOk(s) && PresentOk(s) && OwnersOk(s) && UidsOk(s) && ActionOk(s) && JobOk(s) && SavedOk(s)
  }

  predicate SessionOk(t: Session, present: PresenceMap) {
    Agrees(t, present) && NoStatusQueued(t) && t.readEpoch <= t.epoch && HeldOk(t)
  }

  predicate SessionsOk(sessions: Sessions, present: PresenceMap) {
    forall f: SlotIndex :: SessionOk(sessions[f], present)
  }

  predicate Inv(p: Portal) {
    StoreOk(p.store) && SessionsOk(p.sessions, Presence(p.store))
  }

  lemma FreshInv()
    ensures Inv(Fresh())
  {
    AnnouncementAgrees(Zeroed(), Presence(Fresh().store));
  }

  // --------------------------------------------------------------------------
  // Searches mean what they should

  lemma {:induction false} OwnerMeaning(slots: Slots, id: nat, n: nat)
    requires n <= 16
    ensures match Owner(slots, id, n)
            case None => forall i: SlotIndex | n <= i :: !Owns(slots[i], id)
            case Some(i) => n <= i && Owns(slots[i], id)
    decreases 16 - n
  {
    if n < 16 {
      OwnerMeaning(slots, id, n + 1);
    }
  }

  lemma {:induction false} UsableMeaning(s: Store, n: nat)
    requires n <= 16
    ensures match FirstUsable(s, n)
            case None => forall i: SlotIndex | n <= i :: !Usable(s, i)
            case Some(i) => n <= i && Usable(s, i) && forall j: SlotIndex | n <= j < i :: !Usable(s, j)
    decreases 16 - n
  {
    if n < 16 {
      UsableMeaning(s, n + 1);
    }
  }

  lemma {:induction false} FormerMeaning(s: Store, uid: u32, n: nat)
    requires n <= 16
    ensures match FormerSlot(s, uid, n)
            case None => forall i: SlotIndex | n <= i :: !Remembers(s, i, uid)
            case Some(i) => n <= i && Remembers(s, i, uid)
    decreases 16 - n
  {
    if n < 16 {
      FormerMeaning(s, uid, n + 1);
    }
  }

  /** The next dirty slot is the one cyclically closest to the cursor. */
  lemma {:induction false} NextDirtyMeaning(slots: Slots, cursor: SlotIndex, k: nat)
    requires k <= 16
    ensures match NextDirty(slots, cursor, k)
            case None => forall j: nat | k <= j < 16 :: !IsDirty(slots[At(cursor, j)])
            case Some(n) =>
                  k <= n < 16 && IsDirty(slots[At(cursor, n)])
                  && forall j: nat | k <= j < n :: !IsDirty(slots[At(cursor, j)])
    decreases 16 - k
  {
    if k < 16 {
      NextDirtyMeaning(slots, cursor, k + 1);
    }
  }

  /** A figure whose former slot is usable returns to it. */
  lemma ReturnsToFormerSlot(s: Store, uid: u32, i: SlotIndex)
    requires UidsOk(s) && Remembers(s, i, uid)
    ensures Destination(s, uid) == Some(i)
  {
    FormerMeaning(s, uid, 0);
  }

  /** The values of the first `n` menu positions other than `skip`. */
  function Shows(ui: Positions, skip: SlotIndex, n: nat): set<int>
    requires n <= 16
  {
    if n == 0 then {} else Shows(ui, skip, n - 1) + if n - 1 == skip then {} else {ui[n - 1]}
  }

  lemma {:induction false} ShowsFew(ui: Positions, skip: SlotIndex, n: nat)
    requires n <= 16
    ensures |Shows(ui, skip, n)| <= if skip < n then n - 1 else n
    ensures forall u: SlotIndex | u < n && u != skip :: ui[u] in Shows(ui, skip, n)
  {
    if n > 0 {
      ShowsFew(ui, skip, n - 1);
    }
  }

  function UpTo(n: nat): set<int> {
    if n == 0 then {} else UpTo(n - 1) + {n - 1}
  }

  lemma {:induction false} CountUpTo(n: nat)
    ensures |UpTo(n)| == n && forall i :: i in UpTo(n) <==> 0 <= i < n
  {
    if n > 0 {
      CountUpTo(n - 1);
    }
  }

  /** Sixteen positions, one of them free or being replaced, always leave a slot: no load finds the portal full. */
  lemma LoadAlwaysFindsSlot(s: Store, uid: u32)
    requires MenuOk(s) && ActionOk(s) && s.action != NONE
    ensures Destination(s, uid).Some? && Usable(s, Destination(s, uid).value)
  {
    UsableMeaning(s, 0);
    FormerMeaning(s, uid, 0);
    if FirstUsable(s, 0).None? {
      ShowsFew(s.ui, s.actionUi, 16);
      CountUpTo(16);
      var shown, all := Shows(s.ui, s.actionUi, 16), UpTo(16);
      forall i: SlotIndex ensures i in shown {
        assert !Usable(s, i);
        var u: int :| 0 <= u < 16 && s.ui[u] == i;
      }
      SubsetSize(all, shown);
      assert false;
    }
  }

  lemma SubsetSize(a: set<int>, b: set<int>)
    requires a <= b
    ensures |a| <= |b|
  {
    assert b == a + (b - a);
  }

  // --------------------------------------------------------------------------
  // Figure store

  lemma RestoredKeeps(s: Store, error: int)
    requires StoreOk(s) && s.action != NONE && !s.busy
    ensures StoreOk(Restored(s, error))
    ensures s.outgoing != EMPTY ==> !s.slots[s.outgoing].present
    ensures Presence(Restored(s, error)) == if s.outgoing == EMPTY then Presence(s) else Presence(s)[s.outgoing := true]
  {
    assert s.outgoing != EMPTY ==> s.slots[s.outgoing].occupied;
  }

  lemma TakenOwners(s: Store, ui: SlotIndex, id: nat, action: nat, now: u32)
    requires OwnersOk(s) && (action == LOAD ==> id < s.count && Owner(s.slots, id, 0).None?)
    ensures OwnersOk(Taken(s, ui, id, action, now))
  {
    OwnerMeaning(s.slots, id, 0);
    var t := Taken(s, ui, id, action, now);
    assert forall i: SlotIndex :: Owns(t.slots[i], id) ==> Owns(s.slots[i], id);
  }

  lemma TakenPresence(s: Store, ui: SlotIndex, id: nat, action: nat, now: u32)
    requires MenuOk(s) && PresentOk(s) && s.action == NONE && action != NONE
    ensures PresentOk(Taken(s, ui, id, action, now)) && MenuOk(Taken(s, ui, id, action, now))
    ensures s.ui[ui] != EMPTY ==> s.slots[s.ui[ui]].present
    ensures Presence(Taken(s, ui, id, action, now)) == if s.ui[ui] == EMPTY then Presence(s)
        else Presence(s)[s.ui[ui] := false]
  {
  }

  lemma TakenKeeps(s: Store, ui: SlotIndex, id: nat, action: nat, now: u32)
    requires StoreOk(s) && s.action == NONE && !s.busy && (action == LOAD || action == REMOVE)
    requires action == LOAD ==> id < s.count && Owner(s.slots, id, 0).None?
    ensures StoreOk(Taken(s, ui, id, action, now))
  {
    TakenOwners(s, ui, id, action, now);
    TakenPresence(s, ui, id, action, now);
  }

  lemma PlacedMenu(s: Store, slot: SlotIndex)
    requires MenuOk(s) && ActionOk(s) && s.action == LOAD && Usable(s, slot)
    ensures MenuOk(Placed(s, slot))
  {
    var t := Placed(s, slot);
    forall i: SlotIndex | t.slots[i].occupied ensures i in t.ui {
      if i == slot {
        assert t.ui[s.actionUi] == slot;
      } else {
        var u: int :| 0 <= u < 16 && s.ui[u] == i;
        assert t.ui[u] == i;
      }
    }
  }

  lemma PlacedUids(s: Store, slot: SlotIndex)
    requires UidsOk(s) && !UidTaken(s, Uid(s.job.data)) && Destination(s, Uid(s.job.data)) == Some(slot)
    ensures UidsOk(Placed(s, slot))
  {
    var uid := Uid(s.job.data);
    FormerMeaning(s, uid, 0);
    assert forall i: SlotIndex :: !Usable(s, i) ==> s.slots[i].lastUid != uid;
    assert forall i: SlotIndex :: i != slot && s.slots[i].seenUid ==>
          Usable(s, i) ==> !(s.slots[i].lastUid == uid && !Remembers(s, i, uid));
  }

  lemma PlacedOwners(s: Store, slot: SlotIndex)
    requires OwnersOk(s) && s.action == LOAD && s.job.id == s.target && Usable(s, slot)
    ensures OwnersOk(Placed(s, slot))
  {
    assert forall i: SlotIndex :: s.slots[i].occupied && s.slots[i].id == s.target ==> Owns(s.slots[i], s.target);
  }

  lemma PlacedKeeps(s: Store, slot: SlotIndex)
    requires StoreOk(s) && s.action == LOAD && !s.busy && s.job.id == s.target && Usable(s, slot)
    requires !UidTaken(s, Uid(s.job.data)) && Destination(s, Uid(s.job.data)) == Some(slot)
    ensures StoreOk(Placed(s, slot)) && !s.slots[slot].present
    ensures Presence(Placed(s, slot)) == Presence(s)[slot := true]
  {
    PlacedMenu(s, slot);
    PlacedUids(s, slot);
    PlacedOwners(s, slot);
  }

  lemma SaveCompletedKeeps(s: Store)
    requires StoreOk(s) && !s.busy && SaveJobOk(s)
    ensures StoreOk(SaveCompleted(s)) && Presence(SaveCompleted(s)) == Presence(s)
  {
    var t := SaveCompleted(s);
    assert forall i: SlotIndex :: t.slots[i] == s.slots[i].(saved := t.slots[i].saved, sequence := t.slots[i].sequence);
    assert s.action == LOAD ==> forall i: SlotIndex :: Owns(t.slots[i], s.target) ==> Owns(s.slots[i], s.target);
  }

  /** Only the disk job changes. */
  lemma SubmissionKeeps(s: Store, t: Store)
    requires StoreOk(s) && JobOk(t)
    requires t == s.(busy := t.busy, op := t.op, job := t.job, diskSlot := t.diskSlot, snapshot := t.snapshot,
                     error := t.error, retry := t.retry, cursor := t.cursor, flush := t.flush)
    ensures StoreOk(t) && Presence(t) == Presence(s)
  {
  }

  lemma VacatedKeeps(s: Store)
    requires StoreOk(s) && s.action == REMOVE && !s.busy
    ensures var t := Vacate(s, s.outgoing).(ui := s.ui[s.actionUi := EMPTY], action := NONE);
      StoreOk(t) && Presence(t) == Presence(s)
  {
    var t := Vacate(s, s.outgoing).(ui := s.ui[s.actionUi := EMPTY], action := NONE);
    forall i: SlotIndex | t.slots[i].occupied ensures i in t.ui {
      var u: int :| 0 <= u < 16 && s.ui[u] == i;
      assert t.ui[u] == i;
    }
  }

  lemma AdvancedKeeps(s: Store, sent: int, now: u32)
    requires StoreOk(s) && !s.busy && s.action != NONE
    ensures StoreOk(Advanced(s, sent, now)) && Presence(Advanced(s, sent, now)) == Presence(s)
  {
    assert s.outgoing != EMPTY ==> s.slots[s.outgoing].occupied;
    if s.action == REMOVE && Since(now, s.removeTick) >= 250
       && (s.outgoing == EMPTY || s.slots[s.outgoing].generation == s.slots[s.outgoing].saved) {
      VacatedKeeps(s);
    } else {
      SubmissionKeeps(s, Advanced(s, sent, now));
    }
  }

  lemma BackgroundKeeps(s: Store, sent: int, now: u32)
    requires StoreOk(s) && !s.busy && s.action == NONE
    ensures StoreOk(Background(s, sent, now)) && Presence(Background(s, sent, now)) == Presence(s)
  {
    NextDirtyMeaning(s.slots, s.cursor, 0);
    SubmissionKeeps(s, Background(s, sent, now));
  }

  /** Fields no invariant mentions, except that giving up the automatic load weakens it. */
  predicate SameFigures(s: Store, t: Store) {
    t == s.(page := t.page, view := t.view, flush := t.flush, error := t.error, requestSeq := t.requestSeq,
      retry := t.retry,
            result := t.result, heartbeat := t.heartbeat, heartbeatTick := t.heartbeatTick, autoload := t.autoload)
    && (t.autoload ==> s.autoload)
  }

  lemma SameFiguresKeeps(s: Store, t: Store)
    requires StoreOk(s) && SameFigures(s, t)
    ensures StoreOk(t) && Presence(t) == Presence(s)
  {
  }

  // --------------------------------------------------------------------------
  // Figure store with sessions

  lemma EventKeeps(p: Portal, q: Portal, slot: SlotIndex, inserted: bool)
    requires Inv(p) && p.store.slots[slot].present != inserted
    requires StoreOk(q.store) && Presence(q.store) == Presence(p.store)[slot := inserted]
    requires q.sessions == Event(p, slot, inserted).sessions
    ensures Inv(q)
  {
    forall f: SlotIndex ensures SessionOk(q.sessions[f], Presence(q.store)) {
      assert SessionOk(p.sessions[f], Presence(p.store));
      EventKeepsAgreement(p.sessions[f], Presence(p.store), slot, inserted);
    }
  }

  lemma RestoreKeeps(p: Portal, error: int)
    requires Inv(p) && p.store.action != NONE && !p.store.busy
    ensures Inv(Restore(p, error))
  {
    RestoredKeeps(p.store, error);
    if p.store.outgoing != EMPTY {
      EventKeeps(p, Restore(p, error), p.store.outgoing, true);
    }
  }

  lemma BeginKeeps(p: Portal, ui: nat, id: nat, action: nat)
    requires Inv(p) && (action == LOAD || action == REMOVE)
    ensures Inv(Begin(p, ui, id, action).0)
  {
    var s := p.store;
    if ui < 16 && s.action == NONE && !s.busy && (action == LOAD ==> id < s.count && Owner(s.slots, id, 0).None?) {
      TakenKeeps(s, ui, id, action, p.ticks);
      TakenPresence(s, ui, id, action, p.ticks);
      if s.ui[ui] != EMPTY {
        EventKeeps(p, Take(p, ui, id, action), s.ui[ui], false);
      }
    }
  }

  lemma CompleteKeeps(p: Portal)
    requires Inv(p) && p.store.busy
    ensures Inv(Complete(p))
  {
    var s := p.store.(busy := false, error := p.store.result, retry := p.ticks);
    assert StoreOk(s) && Presence(s) == Presence(p.store) by {
      SubmissionKeeps(p.store, s);
    }
    var q := SetStore(p, s);
    if s.result < 0 {
      if s.action != NONE {
        RestoreKeeps(q, s.result);
      }
    } else if s.op == OP_CATALOG {
      CatalogKeeps(q, |s.catalog|);
      BeginKeeps(SetStore(p, s.(count := |s.catalog|)), 0, 0, LOAD);
    } else if s.op == OP_SAVE {
      SaveCompletedKeeps(s);
    } else {
      LoadKeeps(q);
    }
  }

  lemma CatalogKeeps(p: Portal, n: nat)
    requires Inv(p) && p.store.count == 0 && !p.store.busy
    ensures Inv(SetStore(p, p.store.(count := n)))
  {
    assert Presence(p.store.(count := n)) == Presence(p.store);
  }

  lemma LoadKeeps(p: Portal)
    requires Inv(p) && !p.store.busy && LoadJobOk(p.store)
    ensures Inv(CompleteLoad(p))
  {
    var uid := Uid(p.store.job.data);
    LoadAlwaysFindsSlot(p.store, uid);
    if UidTaken(p.store, uid) {
      RestoreKeeps(p, -17);
    } else {
      var slot := Destination(p.store, uid).value;
      PlacedKeeps(p.store, slot);
      EventKeeps(p, Place(p, slot), slot, true);
    }
  }

  lemma ScheduleKeeps(p: Portal, sent: int)
    requires Inv(p)
    ensures Inv(Schedule(p, sent))
  {
    var s := p.store;
    if s.busy {
    } else if s.count == 0 {
      if RetryElapsed(s, p.ticks) {
        SubmissionKeeps(s, Submitted(s, OP_CATALOG, sent, p.ticks));
      }
    } else if s.action != NONE {
      AdvancedKeeps(s, sent, p.ticks);
    } else if s.autoload && RetryElapsed(s, p.ticks) {
      BeginKeeps(p, 0, 0, LOAD);
    } else if (s.error == 0 && s.flush) || RetryElapsed(s, p.ticks) {
      BackgroundKeeps(s, sent, p.ticks);
    }
  }

  lemma RescanKeeps(p: Portal)
    requires Inv(p)
    ensures Inv(Rescan(p))
  {
    forall f: SlotIndex ensures SessionOk(Rescan(p).sessions[f], Presence(p.store)) {
      assert SessionOk(p.sessions[f], Presence(p.store));
      AnnouncementAgrees(p.sessions[f], Presence(p.store));
    }
  }

  lemma SameKeeps(p: Portal, t: Store)
    requires Inv(p) && SameFigures(p.store, t)
    ensures Inv(SetStore(p, t))
  {
    SameFiguresKeeps(p.store, t);
  }

  lemma CommandedKeeps(p: Portal, ui: nat, id: nat, action: nat)
    requires Inv(p) && (action == LOAD || action == REMOVE)
    ensures Inv(Commanded(Begin(p, ui, id, action)).0)
  {
    var r := Begin(p, ui, id, action);
    BeginKeeps(p, ui, id, action);
    SameKeeps(r.0, r.0.store.(autoload := false));
  }

  lemma CommandKeeps(p: Portal, op: u32, arg: u32)
    requires Inv(p)
    ensures Inv(Command(p, op, arg).0)
  {
    if op == 2 || op == 3 {
      CommandedKeeps(p, arg / 0x1_0000, arg % 0x1_0000, op);
    } else if op == 6 {
      RescanKeeps(p);
    } else if op == 1 {
      SameKeeps(p, p.store.(page := if arg < 640 then arg / 8 * 8 else 0));
    } else if op == 4 && arg < 16 {
      SameKeeps(p, p.store.(view := arg));
    } else if op == 5 {
      SameKeeps(p, p.store.(flush := true, error := 0));
    }
  }

  lemma MailboxKeeps(p: Portal, env: Env)
    requires Inv(p)
    ensures Inv(Mailbox(p, env))
  {
    if Alive(p, env) {
      var q := Beat(p, env.box.heartbeat);
      SameKeeps(p, q.store);
      if env.box.seqno != q.store.requestSeq
          && !((env.box.op == 2 || env.box.op == 3) && (q.store.action != NONE || q.store.busy)) {
        TakenCommandKeeps(q, env.box);
      }
    }
  }

  lemma TakenCommandKeeps(p: Portal, box: Request)
    requires Inv(p)
    ensures Inv(Reported(Command(SetStore(p, p.store.(requestSeq := box.seqno)), box.op, box.arg)))
  {
    var t := SetStore(p, p.store.(requestSeq := box.seqno));
    SameKeeps(p, t.store);
    var r := Command(t, box.op, box.arg);
    CommandKeeps(t, box.op, box.arg);
    if r.1 != 0 {
      SameKeeps(r.0, r.0.store.(error := r.1));
    }
  }

  lemma PollKeeps(p: Portal, env: Env)
    requires Inv(p)
    ensures Inv(Poll(p, env))
  {
    MailboxKeeps(p, env);
    ScheduleKeeps(if p.ticks % 8 == 0 then Mailbox(p, env) else p, env.sent);
  }

  // --------------------------------------------------------------------------
  // Protocol

  /** A handler that replaces one session and leaves the store alone. */
  lemma SessionKeeps(p: Portal, q: Portal, f: SlotIndex)
    requires Inv(p) && q.store == p.store
    requires q.sessions == p.sessions[f := q.sessions[f]] && SessionOk(q.sessions[f], Presence(p.store))
    ensures Inv(q)
  {
  }

  /** Queue, read and change requests are independent of the status words. */
  lemma SameStatusOk(s: Session, t: Session, present: PresenceMap)
    requires SessionOk(s, present) && NoStatusQueued(t) && HeldOk(t)
    requires t.transitions == s.transitions && t.status == s.status && t.announced == s.announced
    requires t.epoch == s.epoch && (t.readEpoch == s.readEpoch || t.readEpoch == s.epoch)
    ensures SessionOk(t, present)
  {
    forall i: SlotIndex ensures AgreesAt(t, i, present[i]) {
      assert AgreesAt(s, i, present[i]);
    }
  }

  lemma AnnouncedOk(s: Session, present: PresenceMap)
    requires NoStatusQueued(s) && s.readEpoch <= s.epoch && HeldOk(s)
    ensures SessionOk(AnnounceOn(s, present), present)
  {
    AnnouncementAgrees(s, present);
  }

  lemma PushKeeps(p: Portal, f: SlotIndex, d: seq<byte>)
    requires Inv(p) && Accepts(d) && HasReply(d[0])
    ensures Inv(SetSession(p, f, Push(p.sessions[f], Response(p, d))))
  {
    var s := p.sessions[f];
    assert SessionOk(s, Presence(p.store));
    SameStatusOk(s, Push(s, Response(p, d)), Presence(p.store));
    SessionKeeps(p, SetSession(p, f, Push(s, Response(p, d))), f);
  }

  lemma WriteKeeps(s: Store, i: SlotIndex, block: nat, bytes: seq<byte>)
    requires StoreOk(s) && s.slots[i].present && block < 64 && |bytes| == 16
    ensures var t := s.(slots := s.slots[i := Written(s.slots[i], block, bytes)]);
      StoreOk(t) && Presence(t) == Presence(s)
  {
    var t := s.(slots := s.slots[i := Written(s.slots[i], block, bytes)]);
    assert forall j: SlotIndex ::
          t.slots[j] == s.slots[j].(data := t.slots[j].data, generation := t.slots[j].generation);
    assert s.action == LOAD ==> forall j: SlotIndex :: Owns(t.slots[j], s.target) ==> Owns(s.slots[j], s.target);
  }

  lemma EffectKeeps(p: Portal, f: SlotIndex, d: seq<byte>)
    requires Inv(p) && Accepts(d)
    ensures Inv(Effect(p, f, d))
  {
    if d[0] == ACTIVATE {
      var s := p.sessions[f];
      assert SessionOk(s, Presence(p.store));
      AnnouncedOk(s, Presence(p.store));
      var t := if s.active then s else AnnounceOn(s, Presence(p.store));
      SameStatusOk(t, t.(active := true), Presence(p.store));
      SessionKeeps(p, SetSession(p, f, t.(active := true)), f);
    } else if d[0] == WRITE && p.store.slots[d[1] % 16].present {
      WriteKeeps(p.store, d[1] % 16, d[2], d[3..19]);
    }
  }

  lemma ReportKeeps(p: Portal, f: SlotIndex, d: seq<byte>)
    requires Inv(p)
    ensures Inv(Report(p, f, d).0)
  {
    if Accepts(d) && HasReply(d[0]) && p.sessions[f].count < FIFO {
      PushKeeps(p, f, d);
      EffectKeeps(SetSession(p, f, Push(p.sessions[f], Response(p, d))), f, d);
    }
  }

  lemma TransferKeeps(p: Portal, f: SlotIndex, m: Message)
    requires Inv(p)
    ensures Inv(Transfer(p, f, m).0)
  {
    if m.payload.Some? {
      ReportKeeps(p, f, m.payload.value);
    }
    var s := p.sessions[f];
    assert SessionOk(s, Presence(p.store));
    SubmittedIsHeldOk(s, m.token, p.ticks);
    SameStatusOk(s, HidSession.Submit(s, m.token, p.ticks), Presence(p.store));
    SessionKeeps(p, SetSession(p, f, HidSession.Submit(s, m.token, p.ticks)), f);
  }

  lemma VersionKeeps(p: Portal, f: SlotIndex, m: Message)
    requires Inv(p) && m.cmd == 6
    ensures Inv(Ioctl(p, f, m))
  {
    AnnouncedOk(Zeroed().(active := true), Presence(p.store));
    SessionKeeps(p, if IsVersionRequest(m) then Ioctl(p, f, m) else p, f);
  }

  /** A session that differs in its held requests, its queue length and its flags. */
  predicate PlainChange(s: Session, t: Session) {
    t == s.(read := t.read, change := t.change, head := t.head, count := t.count, discovered := t.discovered,
      active := t.active)
  }

  lemma PlainIoctlShape(p: Portal, f: SlotIndex, m: Message)
    requires m.cmd != 6 && !(2 <= m.cmd <= 4)
    ensures var q := Ioctl(p, f, m);
      q.store == p.store && q.sessions == p.sessions[f := q.sessions[f]] && PlainChange(p.sessions[f], q.sessions[f])
  {
  }

  /** The requests that touch only the held requests and flags of their session. */
  lemma PlainIoctlKeeps(p: Portal, f: SlotIndex, m: Message)
    requires Inv(p) && m.cmd != 6 && !(2 <= m.cmd <= 4)
    ensures Inv(Ioctl(p, f, m))
  {
    var s, q := p.sessions[f], Ioctl(p, f, m);
    assert SessionOk(s, Presence(p.store));
    PlainIoctlShape(p, f, m);
    SameStatusOk(s, q.sessions[f], Presence(p.store));
    SessionKeeps(p, q, f);
  }

  lemma IoctlKeeps(p: Portal, f: SlotIndex, m: Message)
    requires Inv(p)
    ensures Inv(Ioctl(p, f, m))
  {
    if 2 <= m.cmd <= 4 {
      TransferKeeps(p, f, m);
    } else if m.cmd == 6 {
      VersionKeeps(p, f, m);
    } else {
      PlainIoctlKeeps(p, f, m);
    }
  }

  lemma ProcessKeeps(p: Portal, m: Message)
    requires Inv(p)
    ensures Inv(Process(p, m))
  {
    if m.fd < 16 && m.kind.IoctlFile? {
      IoctlKeeps(p, m.fd, m);
    } else if m.fd < 16 && m.kind.CloseFile? {
      AnnouncementAgrees(Zeroed(), Presence(p.store));
      SessionKeeps(p, Process(p, m), m.fd);
    }
  }

  lemma DeliverOneKeeps(p: Portal, f: SlotIndex)
    requires Inv(p)
    ensures Inv(DeliverOne(p, f))
  {
    var s := p.sessions[f];
    assert SessionOk(s, Presence(p.store));
    if IsDue(s, p.ticks) {
      SameStatusOk(s, s.(read := None), Presence(p.store));
      CommitKeepsAgreement(s.(read := None), Presence(p.store));
      SessionKeeps(p, DeliverOne(p, f), f);
    }
  }

  lemma {:induction false} DeliverAllKeeps(p: Portal, n: nat)
    requires Inv(p) && n <= 16
    ensures Inv(DeliverAll(p, n))
  {
    if n > 0 {
      DeliverAllKeeps(p, n - 1);
      DeliverOneKeeps(DeliverAll(p, n - 1), n - 1);
    }
  }

  lemma TickKeeps(p: Portal, env: Env)
    requires Inv(p)
    ensures Inv(Tick(p, env))
  {
    var q := p.(ticks := Plus(p.ticks, 1));
    PollKeeps(q, env);
    DeliverAllKeeps(Poll(q, env), 16);
  }
}
