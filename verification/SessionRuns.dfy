/** What one session shows the host over any sequence of requests, deliveries, cancels and events. */
module SessionRuns {
  import opened Words
  import opened HidSession

  /** Everything that can happen to a session between two announcements. */
  datatype Op =
    | Queued(reply: Packet)                    // an accepted command's reply
    | Read(token: nat, now: u32)               // an interrupt read is submitted
    | Delivery                                  // the tick on which the held read is due
    | Cancel                                    // the held read is cancelled
    | Reset                                     // v4_cancel: everything held or queued is dropped
    | Change(slot: SlotIndex, inserted: bool)  // a figure leaves or arrives
    | Mark(change: Option<nat>, discovered: bool, active: bool)  // the change request and the flags are set

  function Apply(s: Session, op: Op): Session {
    match op
    case Queued(reply) => Push(s, reply)
    case Read(token, now) => if s.read.Some? then s else Submit(s, token, now)
    case Delivery => if s.read.Some? then Deliver(s) else s
    case Cancel => s.(read := None)
    case Reset => Emptied(s)
    case Change(slot, inserted) => EventOn(s, slot, inserted)
    case Mark(change, discovered, active) => s.(change := change, discovered := discovered, active := active)
  }

  function Run(s: Session, ops: seq<Op>): Session
    decreases |ops|
  {
    if ops == [] then s else Run(Apply(s, ops[0]), ops[1..])
  }

  /** Queued replies are never taken for status packets. */
  predicate NoStatusQueued(s: Session) {
    forall k | 0 <= k < FIFO :: s.fifo[k][0] != S
  }

  predicate Replies(ops: seq<Op>) {
    forall op | op in ops && op.Queued? :: op.reply[0] != S
  }

  predicate HoldsStatus(s: Session) {
    s.read.Some? && s.response[0] == S
  }

  /** A held status packet carries the counter and, unless an event came after it, what is shown now. */
  predicate HeldOk(s: Session) {
    HoldsStatus(s) ==>
      && Number(s.response) == s.counter
      && (s.readEpoch == s.epoch ==> forall i: SlotIndex :: Field(s.response, i) == Shown(s, i))
  }

  lemma SubmittedIsHeldOk(s: Session, token: nat, now: u32)
    requires NoStatusQueued(s)
    ensures HeldOk(Submit(s, token, now))
  {
    if s.count == 0 {
      forall i: SlotIndex ensures Field(StatusPacket(s), i) == Shown(s, i) {
        FieldIsShown(s, i);
      }
    }
  }

  // --------------------------------------------------------------------------
  // The nibble queue refines a sequence

  function Entries(q: nat): seq<Status> {
    if q == 0 then [] else [q % 4] + Entries(q / 16)
  }

  /** Queue words that end with the figure absent, and with it present. */
  predicate Gone(q: nat) {
    q == 0 || q == 4 || q == 0x46
  }

  predicate Here(q: nat) {
    q == 0 || q == 5 || q == 0x57 || q == 0x574 || q == 0x5746
  }

  function Bit(b: bool): Status {
    if b then 1 else 0
  }

  lemma EntriesOfWords()
    ensures Entries(0) == [] && Entries(4) == [0] && Entries(5) == [1]
    ensures Entries(0x46) == [2, 0] && Entries(0x57) == [3, 1]
    ensures Entries(0x574) == [0, 3, 1] && Entries(0x5746) == [2, 0, 3, 1]
  {
    assert Entries(0x46) == [2] + Entries(4);
    assert Entries(0x57) == [3] + Entries(5);
    assert Entries(0x574) == [0] + Entries(0x57);
    assert Entries(0x5746) == [2] + Entries(0x574);
  }

  /** Arrival appends added and present; the word never holds more than four entries. */
  lemma ArrivalAppends(q: nat)
    requires Gone(q)
    ensures Here(Inserted(q)) && Inserted(q) < 0x1_0000
    ensures Entries(Inserted(q)) == Entries(q) + [3, 1] && |Entries(Inserted(q))| <= 4
  {
    EntriesOfWords();
  }

  /** Shifting the word right by a nibble drops exactly the entry the packet showed. */
  lemma ShiftDropsHead(q: nat)
    requires q != 0 && (Here(q) || Gone(q))
    ensures Entries(q)[0] == q % 4 && Entries(q / 16) == Entries(q)[1..]
    ensures |Entries(q)| <= 4
    ensures Here(q) ==> Here(q / 16) && Entries(q)[|Entries(q)| - 1] == 1
    ensures Gone(q) ==> Gone(q / 16) && Entries(q)[|Entries(q)| - 1] == 0
  {
    EntriesOfWords();
  }

  // --------------------------------------------------------------------------
  // Agreement with the slots

  predicate AgreesAt(s: Session, i: SlotIndex, present: bool) {
    && (if present then Here(s.transitions[i]) else Gone(s.transitions[i]))
    && (s.announced && s.transitions[i] == 0 ==> s.status[i] == Bit(present))
  }

  /** The queue of every slot ends in its presence; so does the reported status once it is empty. */
  predicate Agrees(s: Session, present: PresenceMap) {
    forall i: SlotIndex :: AgreesAt(s, i, present[i])
  }

  function Final(s: Session, i: SlotIndex): Status {
    var e := Entries(s.transitions[i]);
    if e == [] then s.status[i] else e[|e| - 1]
  }

  lemma AgreementIsFinalState(s: Session, present: PresenceMap, i: SlotIndex)
    requires Agrees(s, present) && s.announced
    ensures Final(s, i) == Bit(present[i])
  {
    assert AgreesAt(s, i, present[i]);
    if s.transitions[i] != 0 {
      ShiftDropsHead(s.transitions[i]);
    }
  }

  /** An event that changes a slot's presence finds the queue ready for it and keeps agreement. */
  lemma EventKeepsAgreement(s: Session, present: PresenceMap, slot: SlotIndex, inserted: bool)
    requires Agrees(s, present) && present[slot] != inserted
    ensures Agrees(EventOn(s, slot, inserted), present[slot := inserted])
    ensures Entries(EventOn(s, slot, inserted).transitions[slot])
            == if inserted then Entries(s.transitions[slot]) + [3, 1] else [2, 0]
  {
    assert AgreesAt(s, slot, present[slot]);
    EntriesOfWords();
    if inserted {
      ArrivalAppends(s.transitions[slot]);
    }
    var t := EventOn(s, slot, inserted);
    forall i: SlotIndex {:trigger s.transitions[i]} ensures AgreesAt(t, i, present[slot := inserted][i]) {
      assert AgreesAt(s, i, present[i]);
    }
  }

  lemma CommitKeepsAgreement(s: Session, present: PresenceMap)
    requires Agrees(s, present)
    ensures Agrees(Commit(s), present)
  {
    forall i: SlotIndex ensures AgreesAt(Commit(s), i, present[i]) {
      assert AgreesAt(s, i, present[i]);
      if s.transitions[i] != 0 {
        ShiftDropsHead(s.transitions[i]);
        EntriesOfWords();
      }
    }
  }

  lemma AnnouncementAgrees(s: Session, present: PresenceMap)
    ensures Agrees(AnnounceOn(s, present), present) && Agrees(RescanOn(s, present), present)
    ensures Agrees(Zeroed(), present)
  {
  }

  // --------------------------------------------------------------------------
  // What the host sees

  /** Status packets delivered during `ops`; `counted` says whether the held one was built during them. */
  function Observed(s: Session, counted: bool, ops: seq<Op>): seq<Packet>
    decreases |ops|
  {
    if ops == [] then []
    else
      var later := Observed(Apply(s, ops[0]), Counted(s, counted, ops[0]), ops[1..]);
      if Delivers(s, counted, ops[0]) then [s.response] + later else later
  }

  function Counted(s: Session, counted: bool, op: Op): bool {
    counted || (op.Read? && s.read.None?)
  }

  /** A status packet held from before the run is stale, so its delivery consumes nothing. */
  predicate InFlight(s: Session, counted: bool) {
    HoldsStatus(s) && !counted ==> s.readEpoch < s.epoch
  }

  /** The status of a slot in the j-th packet, if no event intervenes. */
  function Expected(s: Session, i: SlotIndex, j: nat): Status {
    var e := Entries(s.transitions[i]);
    if j < |e| then e[j] else if e == [] then s.status[i] else e[|e| - 1]
  }

  /** What a run without events needs to know about one slot. */
  predicate Steady(s: Session, counted: bool, i: SlotIndex, present: bool) {
    && AgreesAt(s, i, present) && NoStatusQueued(s) && InFlight(s, counted)
    && (HoldsStatus(s) && counted ==> s.readEpoch == s.epoch && Field(s.response, i) == Shown(s, i))
  }

  predicate Delivers(s: Session, counted: bool, op: Op) {
    op.Delivery? && counted && HoldsStatus(s)
  }

  lemma ReadStaysSteady(s: Session, token: nat, now: u32, counted: bool, i: SlotIndex, present: bool)
    requires Steady(s, counted, i, present) && s.read.None?
    ensures Steady(Submit(s, token, now), true, i, present)
  {
    if s.count == 0 {
      FieldIsShown(s, i);
    }
  }

  lemma DeliveryStaysSteady(s: Session, counted: bool, i: SlotIndex, present: bool)
    requires Steady(s, counted, i, present) && s.read.Some?
    ensures Steady(Deliver(s), counted, i, present)
  {
    if s.transitions[i] != 0 {
      ShiftDropsHead(s.transitions[i]);
    }
    EntriesOfWords();
  }

  lemma DeliveryConsumes(s: Session, counted: bool, i: SlotIndex, present: bool)
    requires Steady(s, counted, i, present) && s.read.Some?
    ensures var e := Entries(s.transitions[i]);
      Entries(Deliver(s).transitions[i]) == if counted && HoldsStatus(s) && e != [] then e[1..] else e
    ensures s.transitions[i] == 0 ==> Deliver(s).transitions[i] == 0 && Deliver(s).status[i] == s.status[i]
    ensures counted && HoldsStatus(s) && s.transitions[i] != 0 ==> Deliver(s).status[i] == Entries(s.transitions[i])[0]
  {
    if s.transitions[i] != 0 {
      ShiftDropsHead(s.transitions[i]);
    }
  }

  /** The entries of a slot, and its status once there are none, after one operation. */
  predicate Advances(s: Session, t: Session, i: SlotIndex, delivered: bool) {
    var e := Entries(s.transitions[i]);
    if delivered && e != [] then Entries(t.transitions[i]) == e[1..] && (|e| == 1 ==> t.status[i] == e[0])
    else Entries(t.transitions[i]) == e && (e == [] ==> t.status[i] == s.status[i])
  }

  lemma OpStaysSteady(s: Session, counted: bool, op: Op, i: SlotIndex, present: bool)
    requires Steady(s, counted, i, present) && !op.Change? && (op.Queued? ==> op.reply[0] != S)
    ensures Steady(Apply(s, op), Counted(s, counted, op), i, present)
    ensures Advances(s, Apply(s, op), i, Delivers(s, counted, op))
    ensures Delivers(s, counted, op) ==> Field(s.response, i) == Expected(s, i, 0)
  {
    if op.Read? && s.read.None? {
      ReadStaysSteady(s, op.token, op.now, counted, i, present);
    } else if op.Delivery? && s.read.Some? {
      DeliveryStaysSteady(s, counted, i, present);
      DeliveryConsumes(s, counted, i, present);
      if s.transitions[i] != 0 {
        ShiftDropsHead(s.transitions[i]);
      }
    }
  }

  lemma AdvanceShifts(s: Session, t: Session, i: SlotIndex, delivered: bool, j: nat)
    requires Advances(s, t, i, delivered)
    ensures Expected(t, i, j) == Expected(s, i, if delivered then j + 1 else j)
  {
  }

  /** The packets show the queued entries of a slot and then its final one; `left` is what is still queued. */
  predicate ShownInOrder(s: Session, i: SlotIndex, seen: seq<Packet>, left: seq<Status>) {
    && (forall j | 0 <= j < |seen| :: Field(seen[j], i) == Expected(s, i, j))
    && var e := Entries(s.transitions[i]); left == if |seen| <= |e| then e[|seen|..] else []
  }

  lemma OneMoreShown(s: Session, t: Session, i: SlotIndex, p: Packet, later: seq<Packet>, left: seq<Status>)
    requires Advances(s, t, i, true) && Field(p, i) == Expected(s, i, 0) && ShownInOrder(t, i, later, left)
    ensures ShownInOrder(s, i, [p] + later, left)
  {
    var seen := [p] + later;
    forall j | 0 <= j < |seen| ensures Field(seen[j], i) == Expected(s, i, j) {
      if j > 0 {
        AdvanceShifts(s, t, i, true, j - 1);
      }
    }
  }

  lemma NothingShown(s: Session, t: Session, i: SlotIndex, later: seq<Packet>, left: seq<Status>)
    requires Advances(s, t, i, false) && ShownInOrder(t, i, later, left)
    ensures ShownInOrder(s, i, later, left)
  {
    forall j | 0 <= j < |later| ensures Field(later[j], i) == Expected(s, i, j) {
      AdvanceShifts(s, t, i, false, j);
    }
  }

  /**
    * Without further events, the j-th status read shows each slot's j-th queued entry and then its
    * final one, and the queue keeps exactly the entries not yet shown.
    */
  lemma {:induction false} EntriesAreShownInOrder(s: Session, counted: bool, ops: seq<Op>, i: SlotIndex, present: bool)
    requires Steady(s, counted, i, present) && Replies(ops)
    requires forall op | op in ops :: !op.Change?
    ensures ShownInOrder(s, i, Observed(s, counted, ops), Entries(Run(s, ops).transitions[i]))
    decreases |ops|
  {
    if ops != [] {
      var op, t := ops[0], Apply(s, ops[0]);
      assert forall o | o in ops[1..] :: o in ops;
      assert op in ops;
      OpStaysSteady(s, counted, op, i, present);
      EntriesAreShownInOrder(t, Counted(s, counted, op), ops[1..], i, present);
      var later, left := Observed(t, Counted(s, counted, op), ops[1..]), Entries(Run(s, ops).transitions[i]);
      if Delivers(s, counted, op) {
        OneMoreShown(s, t, i, s.response, later, left);
      } else {
        NothingShown(s, t, i, later, left);
      }
    }
  }

  lemma OneSlotConverges(s: Session, counted: bool, i: SlotIndex, present: bool, ops: seq<Op>, j: nat)
    requires Steady(s, counted, i, present) && s.announced && Replies(ops)
    requires forall op | op in ops :: !op.Change?
    requires 3 <= j < |Observed(s, counted, ops)|
    ensures Field(Observed(s, counted, ops)[j], i) == Bit(present)
    ensures Entries(Run(s, ops).transitions[i]) == []
  {
    EntriesAreShownInOrder(s, counted, ops, i, present);
    if s.transitions[i] != 0 {
      ShiftDropsHead(s.transitions[i]);
    }
  }

  /**
    * Status convergence: from the last event on, the fourth status read and every later one carry
    * the presence of all sixteen slots, and by then no transition is queued.
    */
  lemma FourReadsConverge(s: Session, present: PresenceMap, ops: seq<Op>, j: nat)
    requires Agrees(s, present) && s.announced && NoStatusQueued(s) && Replies(ops)
    requires InFlight(s, false)
    requires forall op | op in ops :: !op.Change?
    requires 3 <= j < |Observed(s, false, ops)|
    ensures forall i: SlotIndex :: Field(Observed(s, false, ops)[j], i) == Bit(present[i])
    ensures forall i: SlotIndex :: Entries(Run(s, ops).transitions[i]) == []
  {
    forall i: SlotIndex
      ensures Field(Observed(s, false, ops)[j], i) == Bit(present[i]) && Entries(Run(s, ops).transitions[i]) == []
    {
      assert AgreesAt(s, i, present[i]);
      OneSlotConverges(s, false, i, present[i], ops, j);
    }
  }

  // --------------------------------------------------------------------------
  // Leaving and returning is always visible

  /**
    * The values shown so far follow `script` from its start, each entry once or more and none
    * skipped, and `rest` is what is still queued.
    */
  predicate Follows(shown: seq<Status>, script: seq<Status>, rest: seq<Status>)
    decreases |shown|
  {
    if shown == [] then rest == script
    else
      && script != [] && shown[0] == script[0]
      && (Follows(shown[1..], script, rest) || Follows(shown[1..], script[1..], rest))
  }

  lemma {:induction false} FollowsOneMore(shown: seq<Status>, script: seq<Status>, rest: seq<Status>)
    requires Follows(shown, script, rest) && rest != []
    ensures Follows(shown + [rest[0]], script, rest) && Follows(shown + [rest[0]], script, rest[1..])
    decreases |shown|
  {
    var more := shown + [rest[0]];
    if shown == [] {
      assert more[1..] == [];
    } else {
      assert more[1..] == shown[1..] + [rest[0]];
      if Follows(shown[1..], script, rest) {
        FollowsOneMore(shown[1..], script, rest);
      } else {
        FollowsOneMore(shown[1..], script[1..], rest);
      }
    }
  }

  lemma {:induction false} FollowsAgain(shown: seq<Status>, script: seq<Status>)
    requires Follows(shown, script, []) && script != []
    ensures Follows(shown + [script[|script| - 1]], script, [])
    decreases |shown|
  {
    var more := shown + [script[|script| - 1]];
    assert shown != [];
    assert more[1..] == shown[1..] + [script[|script| - 1]];
    if Follows(shown[1..], script, []) {
      FollowsAgain(shown[1..], script);
    } else if |script| > 1 {
      FollowsAgain(shown[1..], script[1..]);
    } else {
      assert shown[1..] == [];
      assert more[1..][1..] == [];
      assert script[1..] == [];
    }
  }

  lemma {:induction false} FollowsLonger(shown: seq<Status>, script: seq<Status>, rest: seq<Status>, tail: seq<Status>)
    requires Follows(shown, script, rest)
    ensures Follows(shown, script + tail, rest + tail)
    decreases |shown|
  {
    if shown != [] {
      assert (script + tail)[1..] == script[1..] + tail;
      if Follows(shown[1..], script, rest) {
        FollowsLonger(shown[1..], script, rest, tail);
      } else {
        FollowsLonger(shown[1..], script[1..], rest, tail);
      }
    }
  }

  /** The run has shown `shown` of slot `x` along `script`; a packet in flight continues it. */
  ghost predicate OnScript(s: Session, counted: bool, x: SlotIndex, shown: seq<Status>, script: seq<Status>) {
    && script != []
    && (Here(s.transitions[x]) || Gone(s.transitions[x]))
    && Follows(shown, script, Entries(s.transitions[x]))
    && (s.transitions[x] == 0 ==> s.status[x] == script[|script| - 1])
    && NoStatusQueued(s) && InFlight(s, counted)
    && s.readEpoch <= s.epoch
    && (HoldsStatus(s) && counted ==>
          && Follows(shown + [Field(s.response, x)], script, Entries(s.transitions[x]))
          && (s.readEpoch == s.epoch && s.transitions[x] != 0 ==> Field(s.response, x) == Entries(s.transitions[x])[0]))
  }

  /** Fields of one slot in a list of packets. */
  function Fields(packets: seq<Packet>, x: SlotIndex): (r: seq<Status>)
    ensures |r| == |packets|
  {
    seq(|packets|, j requires 0 <= j < |packets| => Field(packets[j], x))
  }

  function NowShown(s: Session, counted: bool, x: SlotIndex, shown: seq<Status>, op: Op): seq<Status> {
    if Delivers(s, counted, op) then shown + [Field(s.response, x)] else shown
  }

  lemma ReadStaysOnScript(s: Session, token: nat, now: u32, counted: bool, x: SlotIndex, shown: seq<Status>,
      script: seq<Status>)
    requires OnScript(s, counted, x, shown, script) && s.read.None?
    ensures OnScript(Submit(s, token, now), true, x, shown, script)
  {
    var q := s.transitions[x];
    EntriesOfWords();
    if s.count == 0 {
      FieldIsShown(s, x);
      if q != 0 {
        ShiftDropsHead(q);
        FollowsOneMore(shown, script, Entries(q));
      } else {
        FollowsAgain(shown, script);
      }
    }
  }

  lemma DeliveryStaysOnScript(s: Session, counted: bool, x: SlotIndex, shown: seq<Status>, script: seq<Status>)
    requires OnScript(s, counted, x, shown, script) && s.read.Some?
    ensures OnScript(Deliver(s), counted, x, NowShown(s, counted, x, shown, Delivery), script)
  {
    var q := s.transitions[x];
    EntriesOfWords();
    if HoldsStatus(s) && s.readEpoch == s.epoch && q != 0 {
      ShiftDropsHead(q);
      FollowsOneMore(shown, script, Entries(q));
      ScriptEnd(shown, script, Entries(q));
    }
  }

  lemma StaysOnScript(s: Session, counted: bool, x: SlotIndex, shown: seq<Status>, script: seq<Status>, op: Op)
    requires OnScript(s, counted, x, shown, script)
    requires op.Queued? ==> op.reply[0] != S
    requires op.Change? ==> op.slot != x
    ensures OnScript(Apply(s, op), Counted(s, counted, op), x, NowShown(s, counted, x, shown, op), script)
  {
    if op.Read? && s.read.None? {
      ReadStaysOnScript(s, op.token, op.now, counted, x, shown, script);
    } else if op.Delivery? && s.read.Some? {
      DeliveryStaysOnScript(s, counted, x, shown, script);
    }
  }

  /** The last queued entry is the last of the script. */
  lemma {:induction false} ScriptEnd(shown: seq<Status>, script: seq<Status>, rest: seq<Status>)
    requires Follows(shown, script, rest) && rest != []
    ensures script != [] && rest[|rest| - 1] == script[|script| - 1]
    decreases |shown|
  {
    if shown != [] {
      if Follows(shown[1..], script, rest) {
        ScriptEnd(shown[1..], script, rest);
      } else {
        ScriptEnd(shown[1..], script[1..], rest);
      }
    }
  }

  function CountedAfter(s: Session, counted: bool, ops: seq<Op>): bool
    decreases |ops|
  {
    if ops == [] then counted else CountedAfter(Apply(s, ops[0]), Counted(s, counted, ops[0]), ops[1..])
  }

  lemma {:induction false} RunStaysOnScript(s: Session, counted: bool, x: SlotIndex, shown: seq<Status>,
      script: seq<Status>, ops: seq<Op>)
    requires OnScript(s, counted, x, shown, script) && Replies(ops)
    requires forall op | op in ops && op.Change? :: op.slot != x
    ensures OnScript(Run(s, ops), CountedAfter(s, counted, ops), x, shown + Fields(Observed(s, counted, ops), x),
        script)
    decreases |ops|
  {
    if ops == [] {
      assert shown + Fields([], x) == shown;
    } else {
      var op, t, c := ops[0], Apply(s, ops[0]), Counted(s, counted, ops[0]);
      assert forall o | o in ops[1..] :: o in ops;
      assert op in ops;
      StaysOnScript(s, counted, x, shown, script, op);
      var now := NowShown(s, counted, x, shown, op);
      RunStaysOnScript(t, c, x, now, script, ops[1..]);
      assert now + Fields(Observed(t, c, ops[1..]), x) == shown + Fields(Observed(s, counted, ops), x);
    }
  }

  lemma {:induction false} RunsConcatenate(s: Session, counted: bool, a: seq<Op>, b: seq<Op>)
    ensures Run(s, a + b) == Run(Run(s, a), b)
    ensures Observed(s, counted, a + b) == Observed(s, counted, a) + Observed(Run(s, a), CountedAfter(s, counted, a), b)
    decreases |a|
  {
    if a == [] {
      assert a + b == b;
    } else {
      assert (a + b)[1..] == a[1..] + b;
      RunsConcatenate(Apply(s, a[0]), Counted(s, counted, a[0]), a[1..], b);
    }
  }

  /**
    * A figure that leaves a slot and returns is seen removed, absent, added and present, in that
    * order and with nothing skipped, under every interleaving of reads, deliveries, cancels, replies
    * and events on other slots.
    */
  lemma LeavingAndReturningIsSeen(s: Session, x: SlotIndex, between: seq<Op>, after: seq<Op>)
    requires NoStatusQueued(s) && s.readEpoch <= s.epoch
    requires Replies(between) && Replies(after)
    requires forall op | op in between + after && op.Change? :: op.slot != x
    ensures var start := EventOn(s, x, false);
      var ops := between + [Change(x, true)] + after;
      Follows(Fields(Observed(start, false, ops), x), [2, 0, 3, 1], Entries(Run(start, ops).transitions[x]))
  {
    var start := EventOn(s, x, false);
    EntriesOfWords();
    assert forall op | op in between :: op in between + after;
    assert forall op | op in after :: op in between + after;
    RunStaysOnScript(start, false, x, [], [2, 0], between);
    var mid, counted := Run(start, between), CountedAfter(start, false, between);
    var first := Fields(Observed(start, false, between), x);
    assert [] + first == first;
    LastStateGone(start, x, between);
    ReturnExtendsScript(mid, counted, x, first);
    var t := EventOn(mid, x, true);
    RunStaysOnScript(t, counted, x, first, [2, 0, 3, 1], after);
    assert ([Change(x, true)] + after)[1..] == after;
    assert between + [Change(x, true)] + after == between + ([Change(x, true)] + after);
    RunsConcatenate(start, false, between, [Change(x, true)] + after);
    FieldsJoin(Observed(start, false, between), Observed(t, counted, after), x);
  }

  lemma FieldsJoin(a: seq<Packet>, b: seq<Packet>, x: SlotIndex)
    ensures Fields(a + b, x) == Fields(a, x) + Fields(b, x)
  {
  }

  lemma ReturnExtendsScript(s: Session, counted: bool, x: SlotIndex, shown: seq<Status>)
    requires OnScript(s, counted, x, shown, [2, 0]) && Gone(s.transitions[x])
    ensures OnScript(EventOn(s, x, true), counted, x, shown, [2, 0, 3, 1])
  {
    var q := s.transitions[x];
    ArrivalAppends(q);
    assert [2, 0] + [3, 1] == [2, 0, 3, 1];
    FollowsLonger(shown, [2, 0], Entries(q), [3, 1]);
    if HoldsStatus(s) && counted {
      FollowsLonger(shown + [Field(s.response, x)], [2, 0], Entries(q), [3, 1]);
    }
  }

  lemma {:induction false} LastStateGone(s: Session, x: SlotIndex, ops: seq<Op>)
    requires Gone(s.transitions[x])
    requires forall op | op in ops && op.Change? :: op.slot != x
    ensures Gone(Run(s, ops).transitions[x])
    decreases |ops|
  {
    if ops != [] {
      assert ops[0] in ops;
      assert forall o | o in ops[1..] :: o in ops;
      LastStateGone(Apply(s, ops[0]), x, ops[1..]);
    }
  }

  // --------------------------------------------------------------------------
  // Counters

  function Number(p: Packet): int {
    p[5]
  }

  predicate Follow(p: Packet, q: Packet) {
    Number(q) == (Number(p) + 1) % 256
  }

  predicate Consecutive(seen: seq<Packet>) {
    forall j | 0 <= j < |seen| - 1 :: Follow(seen[j], seen[j + 1])
  }

  /** Delivered status packets are numbered consecutively, whatever is cancelled in between. */
  lemma {:induction false} CountersAreConsecutive(s: Session, counted: bool, ops: seq<Op>)
    requires NoStatusQueued(s) && Replies(ops)
    requires HoldsStatus(s) && counted ==> Number(s.response) == s.counter
    ensures Consecutive(Observed(s, counted, ops))
    ensures counted && Observed(s, counted, ops) != [] ==> Number(Observed(s, counted, ops)[0]) == s.counter
    decreases |ops|
  {
    if ops != [] {
      var op, t := ops[0], Apply(s, ops[0]);
      assert forall o | o in ops[1..] :: o in ops;
      assert op in ops;
      CounterStep(s, counted, op);
      CountersAreConsecutive(t, Counted(s, counted, op), ops[1..]);
      var later := Observed(t, Counted(s, counted, op), ops[1..]);
      if Delivers(s, counted, op) {
        assert Observed(s, counted, ops) == [s.response] + later;
        OneMoreFollows(s.response, later);
      }
    }
  }

  /** The counter moves exactly with a counted delivery, and a packet is numbered when it is built. */
  lemma CounterStep(s: Session, counted: bool, op: Op)
    requires NoStatusQueued(s) && (op.Queued? ==> op.reply[0] != S)
    requires HoldsStatus(s) && counted ==> Number(s.response) == s.counter
    ensures var t := Apply(s, op);
      && NoStatusQueued(t)
      && (HoldsStatus(t) && Counted(s, counted, op) ==> Number(t.response) == t.counter)
      && (counted ==> t.counter == (s.counter + if Delivers(s, counted, op) then 1 else 0) % 256)
  {
  }

  lemma OneMoreFollows(p: Packet, later: seq<Packet>)
    requires Consecutive(later) && (later != [] ==> Follow(p, later[0]))
    ensures Consecutive([p] + later)
  {
    var seen := [p] + later;
    forall j | 0 <= j < |seen| - 1 ensures Follow(seen[j], seen[j + 1]) {
      assert j > 0 ==> Follow(later[j - 1], later[j]);
    }
  }

  // --------------------------------------------------------------------------
  // Replies leave in order

  datatype Fate = Delivered(reply: Packet) | Dropped(reply: Packet)

  function Waiting(s: Session): seq<Packet> {
    (if s.read.Some? && s.response[0] != S then [s.response] else []) + Queue(s)
  }

  function AllDropped(replies: seq<Packet>): (r: seq<Fate>)
    ensures |r| == |replies|
  {
    seq(|replies|, i requires 0 <= i < |replies| => Dropped(replies[i]))
  }

  /** The replies that leave a session, in the order they leave. */
  function Leaving(s: Session, op: Op): seq<Fate> {
    match op
    case Delivery => if s.read.Some? && s.response[0] != S then [Delivered(s.response)] else []
    case Cancel => if s.read.Some? && s.response[0] != S then [Dropped(s.response)] else []
    case Reset => AllDropped(Waiting(s))
    case _ => []
  }

  function AllLeaving(s: Session, ops: seq<Op>): seq<Fate>
    decreases |ops|
  {
    if ops == [] then [] else Leaving(s, ops[0]) + AllLeaving(Apply(s, ops[0]), ops[1..])
  }

  /** The replies the FIFO accepts during a run. */
  function Accepted(s: Session, ops: seq<Op>): seq<Packet>
    decreases |ops|
  {
    if ops == [] then []
    else
      (if ops[0].Queued? && s.count < FIFO then [ops[0].reply] else []) + Accepted(Apply(s, ops[0]), ops[1..])
  }

  function Contents(fates: seq<Fate>): (r: seq<Packet>)
    ensures |r| == |fates|
  {
    seq(|fates|, i requires 0 <= i < |fates| => fates[i].reply)
  }

  /** Every accepted reply leaves exactly once and in order, or is still waiting. */
  lemma {:induction false} RepliesLeaveInOrder(s: Session, ops: seq<Op>)
    requires NoStatusQueued(s) && Replies(ops)
    ensures Contents(AllLeaving(s, ops)) + Waiting(Run(s, ops)) == Waiting(s) + Accepted(s, ops)
    decreases |ops|
  {
    if ops != [] {
      var op, t := ops[0], Apply(s, ops[0]);
      assert forall o | o in ops[1..] :: o in ops;
      assert op in ops;
      RepliesLeaveInOrder(t, ops[1..]);
      OneStepInOrder(s, op);
      var first := if op.Queued? && s.count < FIFO then [op.reply] else [];
      var later := AllLeaving(t, ops[1..]);
      ContentsJoin(Leaving(s, op), later);
      Rejoin(Contents(Leaving(s, op)), Contents(later), Waiting(Run(t, ops[1..])), Waiting(t), Accepted(t, ops[1..]),
        Waiting(s), first);
    }
  }

  lemma ContentsJoin(a: seq<Fate>, b: seq<Fate>)
    ensures Contents(a + b) == Contents(a) + Contents(b)
  {
  }

  /** No reply is dropped unless a cancel or a reset does it. */
  lemma {:induction false} OnlyCancelsDrop(s: Session, ops: seq<Op>)
    requires forall op | op in ops :: !op.Cancel? && !op.Reset?
    ensures forall f | f in AllLeaving(s, ops) :: f.Delivered?
    decreases |ops|
  {
    if ops != [] {
      assert forall o | o in ops[1..] :: o in ops;
      assert ops[0] in ops;
      OnlyCancelsDrop(Apply(s, ops[0]), ops[1..]);
    }
  }

  lemma Rejoin(lead: seq<Packet>, later: seq<Packet>, end: seq<Packet>, mid: seq<Packet>, more: seq<Packet>,
      start: seq<Packet>, first: seq<Packet>)
    requires later + end == mid + more && lead + mid == start + first
    ensures (lead + later) + end == start + (first + more)
  {
    assert (lead + later) + end == lead + (later + end);
    assert lead + (mid + more) == (lead + mid) + more;
    assert (start + first) + more == start + (first + more);
  }

  lemma OneStepInOrder(s: Session, op: Op)
    requires NoStatusQueued(s) && (op.Queued? ==> op.reply[0] != S)
    ensures Contents(Leaving(s, op)) + Waiting(Apply(s, op))
            == Waiting(s) + if op.Queued? && s.count < FIFO then [op.reply] else []
  {
    match op {
      case Queued(reply) => QueuedInOrder(s, reply);
      case Read(token, now) => ReadInOrder(s, token, now);
      case Mark(_, _, _) => SameQueue(s, Apply(s, op));
      case Delivery => SameQueue(s, Apply(s, op));
      case Cancel => SameQueue(s, Apply(s, op));
      case Reset => ResetInOrder(s);
      case Change(slot, inserted) => SameQueue(s, Apply(s, op));
    }
  }

  lemma ResetInOrder(s: Session)
    ensures Contents(AllDropped(Waiting(s))) + Waiting(Emptied(s)) == Waiting(s) + []
  {
    assert Contents(AllDropped(Waiting(s))) == Waiting(s);
    assert Waiting(Emptied(s)) == [];
  }

  lemma QueuedInOrder(s: Session, reply: Packet)
    ensures Contents([]) + Waiting(Push(s, reply)) == Waiting(s) + if s.count < FIFO then [reply] else []
  {
    var held := if s.read.Some? && s.response[0] != S then [s.response] else [];
    var t, more := Push(s, reply), if s.count < FIFO then [reply] else [];
    assert Queue(t) == Queue(s) + more by {
      PushAppends(s, reply);
      assert s.count == FIFO ==> Queue(s) + more == Queue(s);
    }
    assert Waiting(t) == held + Queue(t) && Waiting(s) == held + Queue(s);
    assert Contents([]) == [];
    Regroup([], held, Queue(t));
    Regroup(held, Queue(s), more);
  }

  lemma Regroup(a: seq<Packet>, b: seq<Packet>, c: seq<Packet>)
    ensures a + (b + c) == (a + b) + c
  {
  }

  lemma ReadInOrder(s: Session, token: nat, now: u32)
    requires NoStatusQueued(s)
    ensures Contents([]) + Waiting(Apply(s, Read(token, now))) == Waiting(s) + []
  {
    assert Contents([]) == [];
    if s.read.None? && s.count > 0 {
      SubmitTakesOldest(s, token, now);
    }
  }

  lemma SameQueue(s: Session, t: Session)
    requires s.fifo == t.fifo && s.head == t.head && s.count == t.count
    ensures Queue(s) == Queue(t)
  {
  }

  // --------------------------------------------------------------------------
  // Everything delivered

  /** The packets a run of operations delivers, in order. */
  function Deliveries(s: Session, ops: seq<Op>): seq<Packet>
    decreases |ops|
  {
    if ops == [] then []
    else
      (if ops[0].Delivery? && s.read.Some? then [s.response] else []) + Deliveries(Apply(s, ops[0]), ops[1..])
  }

  function StatusPackets(packets: seq<Packet>): seq<Packet> {
    if packets == [] then []
    else (if packets[0][0] == S then [packets[0]] else []) + StatusPackets(packets[1..])
  }

  function CommandReplies(packets: seq<Packet>): seq<Packet> {
    if packets == [] then []
    else (if packets[0][0] != S then [packets[0]] else []) + CommandReplies(packets[1..])
  }

  /** The replies that reached the host. */
  function Reached(fates: seq<Fate>): seq<Packet> {
    if fates == [] then []
    else (if fates[0].Delivered? then [fates[0].reply] else []) + Reached(fates[1..])
  }

  lemma {:induction false} DeliveriesConcatenate(s: Session, a: seq<Op>, b: seq<Op>)
    ensures Deliveries(s, a + b) == Deliveries(s, a) + Deliveries(Run(s, a), b)
    decreases |a|
  {
    if a == [] {
      assert a + b == b;
    } else {
      assert (a + b)[1..] == a[1..] + b;
      DeliveriesConcatenate(Apply(s, a[0]), a[1..], b);
    }
  }

  lemma {:induction false} ReachedJoin(a: seq<Fate>, b: seq<Fate>)
    ensures Reached(a + b) == Reached(a) + Reached(b)
    decreases |a|
  {
    if a == [] {
      assert a + b == b;
    } else {
      assert (a + b)[1..] == a[1..] + b;
      ReachedJoin(a[1..], b);
    }
  }

  lemma {:induction false} DroppedNeverReach(fates: seq<Fate>)
    requires forall f | f in fates :: f.Dropped?
    ensures Reached(fates) == []
  {
    if fates != [] {
      assert fates[0] in fates;
      DroppedNeverReach(fates[1..]);
    }
  }

  /** The delivered replies are exactly the fates that ended in a delivery. */
  lemma {:induction false} RepliesReached(s: Session, ops: seq<Op>)
    ensures Reached(AllLeaving(s, ops)) == CommandReplies(Deliveries(s, ops))
    decreases |ops|
  {
    if ops != [] {
      var op, t := ops[0], Apply(s, ops[0]);
      RepliesReached(t, ops[1..]);
      ReachedJoin(Leaving(s, op), AllLeaving(t, ops[1..]));
      LeavingReached(s, op);
      var now := if op.Delivery? && s.read.Some? then [s.response] else [];
      if now != [] {
        assert (now + Deliveries(t, ops[1..]))[1..] == Deliveries(t, ops[1..]);
      } else {
        assert now + Deliveries(t, ops[1..]) == Deliveries(t, ops[1..]);
      }
    }
  }

  lemma LeavingReached(s: Session, op: Op)
    ensures Reached(Leaving(s, op)) == if op.Delivery? && s.read.Some? && s.response[0] != S then [s.response] else []
  {
    if op.Delivery? && s.read.Some? && s.response[0] != S {
      assert Leaving(s, op)[1..] == [];
    } else {
      DroppedNeverReach(Leaving(s, op));
    }
  }

  lemma OneMoreStatus(p: Packet, later: seq<Packet>)
    ensures StatusPackets([p] + later) == (if p[0] == S then [p] else []) + StatusPackets(later)
  {
    assert ([p] + later)[1..] == later;
  }

  /** The observed packets are the delivered status packets but for a first one that was held before the run. */
  lemma {:induction false} StatusesObserved(s: Session, counted: bool, ops: seq<Op>)
    ensures var all, seen := StatusPackets(Deliveries(s, ops)), Observed(s, counted, ops);
      all == seen || (!counted && HoldsStatus(s) && all != [] && all[1..] == seen)
    decreases |ops|
  {
    if ops != [] {
      var op, t := ops[0], Apply(s, ops[0]);
      StatusesObserved(t, Counted(s, counted, op), ops[1..]);
      if op.Delivery? && s.read.Some? {
        OneMoreStatus(s.response, Deliveries(t, ops[1..]));
        assert Deliveries(s, ops) == [s.response] + Deliveries(t, ops[1..]);
      } else {
        assert Deliveries(s, ops) == Deliveries(t, ops[1..]);
      }
    }
  }

  /** Without a cancel or a reset the delivered replies, then the waiting ones, are those waiting and accepted. */
  lemma {:induction false} AllReach(fates: seq<Fate>)
    requires forall f | f in fates :: f.Delivered?
    ensures Reached(fates) == Contents(fates)
  {
    if fates != [] {
      assert fates[0] in fates;
      AllReach(fates[1..]);
      ContentsJoin([fates[0]], fates[1..]);
      assert [fates[0]] + fates[1..] == fates;
    }
  }
}
