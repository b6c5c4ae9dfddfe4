/** One HIDv4 session: its reply FIFO, its held requests and its queue of status transitions. */
module HidSession {
  import opened Words

  datatype Option<T> = None | Some(value: T)

  type Packet = p: seq<byte> | |p| == 32 witness Zeros(32)

  function Blank(): Packet {
    Zeros(32)
  }

  /** A two-bit status: 0 absent, 1 present, 2 removed, 3 added. */
  type Status = x: int | 0 <= x < 4

  type Statuses = s: seq<Status> | |s| == 16 witness seq(16, _ => 0)
  type Transitions = s: seq<nat> | |s| == 16 witness seq(16, _ => 0)
  type PresenceMap = s: seq<bool> | |s| == 16 witness seq(16, _ => false)

  type SlotIndex = x: int | 0 <= x < 16

  const FIFO := 8
  type Ring = s: seq<Packet> | |s| == FIFO witness seq<Packet>(FIFO, _ => Blank())
  type RingIndex = x: int | 0 <= x < FIFO
  type RingLength = x: int | 0 <= x <= FIFO

  const S: byte := 83

  /**
    * `v4_session`. Messages are named by a token. `announced` is a history variable: it records
    * that the session was announced to since it was last zeroed.
    */
  datatype Session = Session(
    transitions: Transitions, status: Statuses, epoch: nat, readEpoch: nat,
    change: Option<nat>, read: Option<nat>, due: u32, response: Packet,
    fifo: Ring, head: RingIndex, count: RingLength,
    discovered: bool, active: bool, counter: byte, announced: bool)

  /** `zero_bytes(s, sizeof(*s))`. */
  function Zeroed(): Session {
    Session(seq(16, _ => 0), seq(16, _ => 0), 0, 0, None, None, 0, Blank(),
            seq<Packet>(FIFO, _ => Blank()), 0, 0, false, false, 0, false)
  }

  // --------------------------------------------------------------------------
  // Status transitions, packed four nibbles to a word, the next one lowest

  function Inserted(q: nat): nat {
    if q == 4 then 0x574 else if q == 0x46 then 0x5746 else 0x57
  }

  /** `e12_event` on one session. */
  function EventOn(s: Session, slot: nat, inserted: bool): Session
    requires slot < 16
  {
    s.(epoch := s.epoch + 1,
       transitions := s.transitions[slot := if inserted then Inserted(s.transitions[slot]) else 0x46])
  }

  /** `e12_announce`. */
  function AnnounceOn(s: Session, present: PresenceMap): Session {
    s.(epoch := s.epoch + 1, status := seq(16, _ => 0), announced := true,
       transitions := seq(16, i requires 0 <= i < 16 => if present[i] then 0x57 else 0))
  }

  /** Mailbox command 6 on one session: present figures are shown leaving first. */
  function RescanOn(s: Session, present: PresenceMap): Session {
    AnnounceOn(s, present).(transitions := seq(16, i requires 0 <= i < 16 => if present[i] then 0x574 else 0))
  }

  function Shown(s: Session, i: nat): Status
    requires i < 16
  {
    if s.transitions[i] != 0 then s.transitions[i] % 4 else s.status[i]
  }

  function AllShown(s: Session): Statuses {
    seq(16, i requires 0 <= i < 16 => Shown(s, i))
  }

  /** Four two-bit fields in one byte, the first one lowest. */
  function Pack(a: int, b: int, c: int, d: int): int {
    a + 4 * b + 16 * c + 64 * d
  }

  function Four(st: Statuses, at: nat): byte
    requires at <= 12
  {
    Pack(st[at], st[at + 1], st[at + 2], st[at + 3])
  }

  /** `v4_status`: byte 0 is 'S', bytes 1 to 4 the fields, byte 5 the counter, byte 6 the activation. */
  function StatusPacket(s: Session): Packet {
    var st := AllShown(s);
    [S, Four(st, 0), Four(st, 4), Four(st, 8), Four(st, 12), s.counter, if s.active then 1 else 0] + Zeros(25)
  }

  /** The two-bit field of a byte at position `i` of four. */
  function Unpack(v: byte, i: nat): Status
    requires i < 4
  {
    match i
    case 0 => v % 4
    case 1 => v / 4 % 4
    case 2 => v / 16 % 4
    case _ => v / 64 % 4
  }

  /** What the host decodes as the status of one slot. */
  function Field(p: Packet, i: nat): Status
    requires i < 16
  {
    Unpack(p[1 + i / 4], i % 4)
  }

  lemma FieldIsShown(s: Session, i: nat)
    requires i < 16
    ensures Field(StatusPacket(s), i) == Shown(s, i)
  {
    var st := AllShown(s);
    var row, column := i / 4, i % 4;
    assert StatusPacket(s)[1 + row] == Four(st, 4 * row) by {
      assert row == 0 || row == 1 || row == 2 || row == 3;
    }
    UnpackPack(st[4 * row], st[4 * row + 1], st[4 * row + 2], st[4 * row + 3], column);
    assert [st[4 * row], st[4 * row + 1], st[4 * row + 2], st[4 * row + 3]][column] == st[i];
  }

  lemma UnpackPack(a: Status, b: Status, c: Status, d: Status, i: nat)
    requires i < 4
    ensures Unpack(Pack(a, b, c, d), i) == [a, b, c, d][i]
  {
    var v := Pack(a, b, c, d);
    assert v == a + 4 * (b + 4 * c + 16 * d) && v / 4 == b + 4 * c + 16 * d;
    assert v == a + 4 * b + 16 * (c + 4 * d) && v / 16 == c + 4 * d;
    assert v / 64 == d;
  }

  /** `e12_status_commit`: entries are consumed only if no event came after the packet was built. */
  function Commit(s: Session): Session {
    var t := s.(counter := (s.counter + 1) % 256);
    if s.readEpoch != s.epoch then t
    else t.(status := seq(16, i requires 0 <= i < 16 => Shown(s, i)),
            transitions := seq(16, i requires 0 <= i < 16 => s.transitions[i] / 16))
  }

  // --------------------------------------------------------------------------
  // Replies and reads

  /** The queued replies, oldest first. */
  function Queue(s: Session): (r: seq<Packet>)
    ensures |r| == s.count
  {
    seq(s.count, i requires 0 <= i < s.count => s.fifo[(s.head + i) % FIFO])
  }

  /** `v4_push`. */
  function Push(s: Session, p: Packet): Session {
    if s.count == FIFO then s
    else s.(fifo := s.fifo[(s.head + s.count) % FIFO := p], count := s.count + 1)
  }

  /** The interrupt read of `v4_transfer`: a queued reply if there is one, else a status packet. */
  function Submit(s: Session, token: nat, now: u32): Session {
    if s.count > 0 then
      s.(read := Some(token), response := s.fifo[s.head], head := (s.head + 1) % FIFO, count := s.count - 1,
        due := Plus(now, 11))
    else
      s.(read := Some(token), response := StatusPacket(s), readEpoch := s.epoch, due := Plus(now, 1))
  }

  /** The delivery in `v4_tick`. */
  function Deliver(s: Session): Session {
    var t := s.(read := None);
    if s.response[0] == S then Commit(t) else t
  }

  /** `(s32)(now - due) >= 0`. */
  predicate IsDue(s: Session, now: u32) {
    s.read.Some? && Since(now, s.due) < TWO31
  }

  /** The queue and flag part of `v4_cancel`. */
  function Emptied(s: Session): Session {
    s.(read := None, change := None, head := 0, count := 0, discovered := false)
  }

  lemma PushAppends(s: Session, p: Packet)
    ensures Queue(Push(s, p)) == if s.count == FIFO then Queue(s) else Queue(s) + [p]
  {
    if s.count < FIFO {
      var t := Push(s, p);
      forall i | 0 <= i < t.count ensures Queue(t)[i] == (Queue(s) + [p])[i] {
        if i < s.count {
          assert (s.head + i) % FIFO != (s.head + s.count) % FIFO;
        }
      }
    }
  }

  lemma SubmitTakesOldest(s: Session, token: nat, now: u32)
    requires s.count > 0
    ensures [Submit(s, token, now).response] + Queue(Submit(s, token, now)) == Queue(s)
  {
    var t := Submit(s, token, now);
    forall i | 0 <= i < t.count ensures Queue(t)[i] == Queue(s)[i + 1] {
      NextPlace(s.head, i);
    }
  }

  lemma NextPlace(head: RingIndex, i: nat)
    ensures ((head + 1) % FIFO + i) % FIFO == (head + (i + 1)) % FIFO
  {
    if head == FIFO - 1 {
      assert (head + (i + 1)) % FIFO == (FIFO + i) % FIFO == i % FIFO;
    }
  }
}
