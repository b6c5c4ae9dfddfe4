/** What the result of each disk job does to the figures, and where a loaded figure goes. */
module Outcomes {
  import opened Words
  import opened HidSession
  import opened PortalSpec
  import opened PortalInvariants

  /** The disk is idle again, and the time of its last result is known. */
  function Idle(s: Store, now: u32, error: int): Store {
    s.(busy := false, retry := now, error := error)
  }

  // --------------------------------------------------------------------------
  // Where a loaded figure goes

  /** A slot that no other figure holds: the one being replaced counts as free. */
  predicate Free(s: Store, i: SlotIndex) {
    !s.slots[i].occupied || i == s.outgoing
  }

  predicate Knows(s: Store, i: SlotIndex, uid: u32) {
    s.slots[i].seenUid && s.slots[i].lastUid == uid
  }

  /** Another figure on the portal has this identity. */
  predicate Conflicts(s: Store, uid: u32) {
    exists i: SlotIndex :: !Free(s, i) && s.slots[i].lastUid == uid
  }

  /** The free slot that held this identity before, else the lowest free slot. */
  predicate Receives(s: Store, slot: SlotIndex, uid: u32) {
    && Free(s, slot)
    && if exists i: SlotIndex :: Free(s, i) && Knows(s, i, uid) then Knows(s, slot, uid)
       else forall j: SlotIndex | j < slot :: !Free(s, j)
  }

  /** The loaded figure is in its slot, present and with nothing unsaved; the one it replaces has left. */
  predicate Arrives(s: Store, t: Store, slot: SlotIndex, uid: u32) {
    var j := s.job;
    && t == s.(slots := t.slots, ui := s.ui[s.actionUi := slot], action := NONE, autoload := false)
    && t.slots[slot] == Slot(j.data, j.id, j.source, j.sequence, 0, 0, uid, true, true, true)
    && forall o: SlotIndex | o != slot ::
         t.slots[o] == s.slots[o].(occupied := s.slots[o].occupied && o != s.outgoing)
  }

  /** The figure that was hidden is present again, and everything else is as before. */
  predicate Returns(s: Store, t: Store) {
    && t == s.(slots := t.slots, action := NONE)
    && forall o: SlotIndex :: t.slots[o] == s.slots[o].(present := s.slots[o].present || o == s.outgoing)
  }

  /** Slots remember distinct identities, so there is only one such slot. */
  lemma ReceiverIsOne(s: Store, uid: u32, a: SlotIndex, b: SlotIndex)
    requires UidsOk(s) && Receives(s, a, uid) && Receives(s, b, uid)
    ensures a == b
  {
    if exists i: SlotIndex :: Free(s, i) && Knows(s, i, uid) {
      assert Knows(s, a, uid) && Knows(s, b, uid);
    } else {
      assert a < b ==> !Free(s, a);
      assert b < a ==> !Free(s, b);
    }
  }

  lemma DestinationReceives(s: Store, uid: u32)
    requires MenuOk(s) && ActionOk(s) && s.action != NONE
    ensures Destination(s, uid).Some? && Receives(s, Destination(s, uid).value, uid)
  {
    LoadAlwaysFindsSlot(s, uid);
    UsableMeaning(s, 0);
    FormerMeaning(s, uid, 0);
    assert forall i: SlotIndex :: Free(s, i) == Usable(s, i);
    assert forall i: SlotIndex :: Usable(s, i) && Knows(s, i, uid) <==> Remembers(s, i, uid);
  }

  // --------------------------------------------------------------------------
  // The four results

  /** What a finished job makes of the store. */
  predicate Concludes(s: Store, t: Store, now: u32) {
    var r, uid := s.result, Be32(s.job.data, 0);
    if r < 0 then (if s.action != NONE then Returns(Idle(s, now, r), t) else t == Idle(s, now, r))
    else if s.op == 1 then Catalogued(Idle(s, now, r), t, now)
    else if s.op == 3 then
      && t == Idle(s, now, r).(slots := t.slots)
      && forall o: SlotIndex ::
           t.slots[o] == if o != s.diskSlot then s.slots[o]
                         else s.slots[o].(saved := s.snapshot, sequence := (s.slots[o].sequence + 1) % TWO32)
    else if Conflicts(s, uid) then Returns(Idle(s, now, -17), t)
    else exists slot: SlotIndex :: Receives(s, slot, uid) && Arrives(Idle(s, now, r), t, slot, uid)
  }

  /** The catalogue is known, and the first figure is asked for unless another action is pending. */
  predicate Catalogued(s: Store, t: Store, now: u32) {
    var n := |s.catalog|;
    if s.action != NONE || n == 0 then t == s.(count := n)
    else
      && t == s.(count := n, action := LOAD, actionUi := 0, target := 0, outgoing := s.ui[0], removeTick := now,
                 error := 0, slots := t.slots)
      && forall o: SlotIndex :: t.slots[o] == s.slots[o].(present := s.slots[o].present && o != s.ui[0])
  }

  lemma LoadConcludes(p: Portal)
    requires Inv(p) && p.store.action != NONE && !p.store.busy
    ensures var s, t, uid := p.store, CompleteLoad(p).store, Be32(p.store.job.data, 0);
      if Conflicts(s, uid) then Returns(s.(error := -17), t)
      else exists slot: SlotIndex :: Receives(s, slot, uid) && Arrives(s, t, slot, uid)
  {
    var s, uid := p.store, Be32(p.store.job.data, 0);
    assert Conflicts(s, uid) <==> UidTaken(s, uid) by {
      assert forall i: SlotIndex :: Free(s, i) == Usable(s, i);
    }
    DestinationReceives(s, uid);
    if !UidTaken(s, uid) {
      assert Arrives(s, CompleteLoad(p).store, Destination(s, uid).value, uid);
    }
  }

  lemma CatalogueConcludes(p: Portal)
    requires Inv(p) && p.store.count == 0 && !p.store.busy
    ensures var s := p.store;
      Catalogued(s, Begin(SetStore(p, s.(count := |s.catalog|)), 0, 0, LOAD).0.store, p.ticks)
  {
    OwnerMeaning(p.store.slots, 0, 0);
  }

  /** The store that a finished job's handler starts from still satisfies the invariant. */
  lemma IdleKeeps(p: Portal)
    requires Inv(p) && p.store.busy
    ensures Inv(SetStore(p, Idle(p.store, p.ticks, p.store.result)))
  {
    SubmissionKeeps(p.store, Idle(p.store, p.ticks, p.store.result));
  }

  /**
    * A finished job leaves the disk idle and its result noted. A failure or an identity that is taken
    * brings the hidden figure back; a save moves its slot's saved mark; the catalogue asks for the first
    * figure; a loaded figure goes to the slot it had, or else to the lowest free one.
    */
  lemma JobsConclude(p: Portal)
    requires Inv(p) && p.store.busy
    ensures Concludes(p.store, Complete(p).store, p.ticks)
  {
    var q := SetStore(p, Idle(p.store, p.ticks, p.store.result));
    IdleKeeps(p);
    if p.store.result >= 0 {
      if p.store.op == OP_CATALOG {
        CatalogueConcludes(q);
      } else if p.store.op == OP_LOAD {
        LoadConcludes(q);
        SameSearch(p.store, q.store, Be32(p.store.job.data, 0));
      }
    }
  }

  lemma SameSearch(s: Store, t: Store, uid: u32)
    requires t.slots == s.slots && t.outgoing == s.outgoing
    ensures Conflicts(t, uid) <==> Conflicts(s, uid)
    ensures forall slot: SlotIndex :: Receives(t, slot, uid) <==> Receives(s, slot, uid)
  {
    assert forall i: SlotIndex :: Free(t, i) <==> Free(s, i);
    assert forall i: SlotIndex :: Knows(t, i, uid) <==> Knows(s, i, uid);
  }
}
