/** Which requests announce the portal's figures to a session, and what the game then sees. */
module Announcements {
  import opened Words
  import opened HidSession
  import opened SessionRuns
  import opened PortalSpec
  import opened PortalInvariants
  import opened Completion
  import Commands
  import PortalSessions
  import Protocol

  /**
    * A session that is about to be shown this script, and then 1, for every present figure, and 0 for
    * every absent one. A status packet that it already holds is older than that.
    */
  predicate Introduces(p: Portal, f: SlotIndex, script: seq<Status>) {
    var s := p.sessions[f];
    && s.announced && (HoldsStatus(s) ==> s.readEpoch < s.epoch)
    && forall i: SlotIndex ::
         s.status[i] == 0 && Entries(s.transitions[i]) == if p.store.slots[i].present then script else []
  }

  // --------------------------------------------------------------------------
  // What announces

  /** GETVERSION, with no buffers or with the unused 32-byte output buffer. */
  predicate AsksVersion(m: Message) {
    && m.fd < 16 && m.kind.IoctlFile? && m.cmd == 6 && m.lengthIn == 0
    && (m.lengthIo == 0 || (m.lengthIo == 32 && m.output))
  }

  /** The answers with which a session gives up the requests it holds. */
  function Cancelled(s: Session): seq<Ack> {
    (if s.read.Some? then [Ack(s.read.value, -7022)] else [])
    + (if s.change.Some? then [Ack(s.change.value, -1)] else [])
  }

  /** A version request restarts its session: it gives up what it holds and announces every figure. */
  lemma VersionAnnounces(p: Portal, m: Message)
    requires AsksVersion(m)
    ensures var q := Process(p, m);
      && Introduces(q, m.fd, [3, 1]) && q.sessions[m.fd].active && q.store == p.store
      && Queue(q.sessions[m.fd]) == [] && q.sessions[m.fd].read.None? && q.sessions[m.fd].change.None?
      && q.log == p.log + Cancelled(p.sessions[m.fd]) + [Ack(m.token, 0x40001)]
  {
    EntriesOfWords();
  }

  /** The first activation announces, whatever its argument; a second one leaves the statuses alone. */
  lemma ActivationAnnounces(p: Portal, m: Message, d: seq<byte>)
    requires Inv(p) && Protocol.Carries(p, m, d) && Protocol.Known(d) && d[0] == 65 && p.sessions[m.fd].count < 8
    ensures var s, q := p.sessions[m.fd], Process(p, m);
      && q.sessions[m.fd].active
      && if !s.active then Introduces(q, m.fd, [3, 1])
         else q.sessions[m.fd].transitions == s.transitions && q.sessions[m.fd].status == s.status
  {
    var s := p.sessions[m.fd];
    assert SessionOk(s, Presence(p.store));
    var pushed := Push(s, Response(p, d));
    if !s.active {
      AnnouncedIntroduces(Process(p, m), m.fd, pushed, true);
    }
  }

  /** What `e12_announce` leaves in a session is the introduction of the present figures. */
  lemma AnnouncedIntroduces(q: Portal, f: SlotIndex, s: Session, active: bool)
    requires q.sessions[f] == AnnounceOn(s, Presence(q.store)).(active := active)
    requires s.readEpoch <= s.epoch
    ensures Introduces(q, f, [3, 1])
  {
    EntriesOfWords();
  }

  /** The rescan command shows every session its present figures leaving and coming back. */
  lemma RescanAnnounces(p: Portal, env: Env, f: SlotIndex)
    requires Inv(p) && Commands.Taken(p, env) && env.box.op == 6
    ensures Introduces(AfterMailbox(p, env), f, [0, 3, 1])
  {
    EntriesOfWords();
    assert SessionOk(p.sessions[f], Presence(p.store));
  }

  // --------------------------------------------------------------------------
  // What the game sees

  /** The packet that a script shows at place `j` for one slot. */
  function Scripted(script: seq<Status>, present: bool, j: nat): Status {
    if !present then 0 else if j < |script| then script[j] else 1
  }

  /**
    * As long as no figure comes or goes, the status packets that the host receives after an
    * announcement show every present figure through the script and then as present, and every absent
    * one as absent, but for one packet that was read before.
    */
  lemma AnnouncementIsSeen(p: Portal, hs: seq<Intake>, f: SlotIndex, script: seq<Status>) returns (n: nat)
    requires Inv(p) && PortalSessions.Undisturbed(p, hs, f) && Introduces(p, f, script)
    requires script in {[3, 1], [0, 3, 1]}
    requires HandleAll(p, hs).sessions[f].epoch == p.sessions[f].epoch
    ensures n <= if HoldsStatus(p.sessions[f]) then 1 else 0
    ensures var all := StatusPackets(PortalSessions.DeliveredTo(p, hs, f));
      && n <= |all|
      && forall j: nat, i: SlotIndex | n + j < |all| ::
           Field(all[n + j], i) == Scripted(script, p.store.slots[i].present, j)
  {
    var s, ops := p.sessions[f], PortalSessions.AllOps(p, hs, f);
    assert SessionOk(s, Presence(p.store));
    PortalSessions.PortalRunIsSessionRun(p, hs, f);
    PortalSessions.EpochCountsEvents(s, ops);
    StatusesObserved(s, false, ops);
    var all, seen := StatusPackets(PortalSessions.DeliveredTo(p, hs, f)), Observed(s, false, ops);
    n := if all == seen then 0 else 1;
    forall j: nat, i: SlotIndex | n + j < |all|
      ensures Field(all[n + j], i) == Scripted(script, p.store.slots[i].present, j)
    {
      assert all[n + j] == seen[j];
      SeenByScript(p, f, script, ops, i, j);
    }
  }

  lemma SeenByScript(p: Portal, f: SlotIndex, script: seq<Status>, ops: seq<Op>, i: SlotIndex, j: nat)
    requires SessionOk(p.sessions[f], Presence(p.store)) && Introduces(p, f, script) && script in {[3, 1], [0, 3, 1]}
    requires Replies(ops) && (forall op | op in ops :: !op.Change?)
    requires j < |Observed(p.sessions[f], false, ops)|
    ensures Field(Observed(p.sessions[f], false, ops)[j], i) == Scripted(script, p.store.slots[i].present, j)
  {
    var s := p.sessions[f];
    assert AgreesAt(s, i, Presence(p.store)[i]);
    EntriesAreShownInOrder(s, false, ops, i, p.store.slots[i].present);
  }
}
