/**
  * The sequence lock between the two processors: the portal publishes a reply and a name in several
  * phases, the menu reads them word by word, and neither waits for the other.
  */
module SeqLock {
  import opened Words

  const WORDS := 136
  const REVISION := 112
  const REPLY_AT := 8
  const REPLY_END := 112
  const NAME_AT := 120
  const VIEW := 116

  /** The shared words. */
  type Box = b: seq<u32> | |b| == WORDS witness seq<u32>(WORDS, _ => 0)

  type ReplyWords = r: seq<u32> | |r| == 104 witness seq<u32>(104, _ => 0)
  type NameWords = r: seq<u32> | |r| == 16 witness seq<u32>(16, _ => 0)
  type View = v: seq<u32> | |v| == VIEW witness seq<u32>(VIEW, _ => 0)

  /** One call of `e11_publish`: the reply and the name of the current figure. */
  datatype Publication = Publication(reply: ReplyWords, name: NameWords)

  function Nothing(): Publication {
    Publication(seq<u32>(104, _ => 0), seq<u32>(16, _ => 0))
  }

  /** What the menu shows of a publication: the reply and the first twelve name words. */
  function Visible(p: Publication): View {
    p.reply + p.name[..12]
  }

  /** Where the menu reads the `i`-th word of its snapshot. */
  function Source(i: nat): (at: nat)
    requires i < VIEW
    ensures at < WORDS
  {
    if i < 104 then REPLY_AT + i else NAME_AT + (i - 104)
  }

  // --------------------------------------------------------------------------
  // The steps of both processors

  datatype Phase = Resting | WritingName | WritingReply

  /**
    * The portal's side. `count` is the revision without its wrap-around, and `published` lists every
    * finished publication after the initial zeros; both are history.
    */
  datatype Writer = Writer(phase: Phase, next: Publication, count: nat, published: seq<Publication>)

  /**
    * The menu's side. `start` is the count at the first revision read, and `shown` the index of the
    * accepted publication.
    */
  datatype Reader = Reader(reading: bool, version: u32, got: seq<u32>, start: nat, reply: View, shown: nat)

  datatype System = System(box: Box, writer: Writer, reader: Reader)

  function Initial(): System {
    System(seq<u32>(WORDS, _ => 0), Writer(Resting, Nothing(), 0, [Nothing()]),
           Reader(false, 0, [], 0, Visible(Nothing()), 0))
  }

  datatype Step =
    | Announce(p: Publication)    // the revision becomes odd
    | Scribble(at: nat, v: u32)   // the phase in progress stores one word, not necessarily its final value
    | NameDone                    // the name is written back
    | Seal                        // the reply is written back and the revision becomes even
    | Begin                       // the menu reads the revision
    | Fetch                       // the menu reads the next word
    | Finish                      // the menu reads the revision again and accepts or drops its snapshot

  predicate InPhase(phase: Phase, at: nat) {
    match phase
    case Resting => false
    case WritingName => NAME_AT <= at < WORDS
    case WritingReply => REPLY_AT <= at < REPLY_END
  }

  predicate Enabled(s: System, step: Step) {
    match step
    case Announce(_) => s.writer.phase.Resting?
    case Scribble(at, _) => InPhase(s.writer.phase, at)
    case NameDone => s.writer.phase.WritingName? && s.box[NAME_AT..] == s.writer.next.name
    case Seal => s.writer.phase.WritingReply? && s.box[REPLY_AT..REPLY_END] == s.writer.next.reply
    case Begin => !s.reader.reading
    case Fetch => s.reader.reading && |s.reader.got| < VIEW
    case Finish => s.reader.reading && |s.reader.got| == VIEW
  }

  function Stamp(box: Box, count: nat): Box {
    box[REVISION := count % TWO32]
  }

  function Accepts(s: System): bool {
    s.box[REVISION] == s.reader.version
  }

  function Next(s: System, step: Step): System
    requires Enabled(s, step)
  {
    var w, r := s.writer, s.reader;
    match step
    case Announce(p) =>
      s.(box := Stamp(s.box, w.count + 1), writer := w.(phase := WritingName, next := p, count := w.count + 1))
    case Scribble(at, v) => s.(box := s.box[at := v])
    case NameDone => s.(writer := w.(phase := WritingReply))
    case Seal =>
      s.(box := Stamp(s.box, w.count + 1),
         writer := w.(phase := Resting, count := w.count + 1, published := w.published + [w.next]))
    case Begin =>
      if s.box[REVISION] % 2 != 0 then s
      else s.(reader := r.(reading := true, version := s.box[REVISION], got := [], start := w.count))
    case Fetch => s.(reader := r.(got := r.got + [s.box[Source(|r.got|)]]))
    case Finish =>
      s.(reader := if Accepts(s) then r.(reading := false, reply := r.got, shown := r.start / 2)
                   else r.(reading := false))
  }

  // --------------------------------------------------------------------------
  // The invariant

  predicate Holds(box: Box, p: Publication) {
    box[REPLY_AT..REPLY_END] == p.reply && box[NAME_AT..] == p.name
  }

  predicate WriterOk(s: System) {
    var w := s.writer;
    && s.box[REVISION] == w.count % TWO32
    && |w.published| == w.count / 2 + 1
    && (w.phase.Resting? <==> w.count % 2 == 0)
    && (w.phase.Resting? ==> Holds(s.box, w.published[w.count / 2]))
    && (w.phase.WritingReply? ==> s.box[NAME_AT..] == w.next.name)
  }

  /** As long as the revision has not moved, the snapshot is a prefix of the publication it started on. */
  predicate ReaderOk(s: System) {
    var w, r := s.writer, s.reader;
    && r.shown <= w.count / 2
    && r.shown < |w.published| && r.reply == Visible(w.published[r.shown])
    && (r.reading ==>
          && r.start <= w.count && r.start % 2 == 0 && r.version == r.start % TWO32
          && r.shown <= r.start / 2 && |r.got| <= VIEW
          && (w.count == r.start && r.start / 2 < |w.published|
            ==> r.got == Visible(w.published[r.start / 2])[..|r.got|]))
  }

  predicate Ok(s: System) {
    WriterOk(s) && ReaderOk(s)
  }

  lemma InitiallyOk()
    ensures Ok(Initial())
  {
  }

  lemma EvenRevision(n: nat)
    ensures n % TWO32 % 2 == n % 2
  {
    assert n == TWO32 * (n / TWO32) + n % TWO32;
  }

  /** Two counts less than a full turn apart with the same revision are the same count. */
  lemma SameRevision(a: nat, b: nat)
    requires b <= a < b + TWO32 && a % TWO32 == b % TWO32
    ensures a == b
  {
    assert a - b == TWO32 * (a / TWO32 - b / TWO32);
  }

  lemma HeldWord(box: Box, p: Publication, i: nat)
    requires Holds(box, p) && i < VIEW
    ensures box[Source(i)] == Visible(p)[i]
  {
    if i < 104 {
      assert box[REPLY_AT..REPLY_END][i] == box[REPLY_AT + i];
    } else {
      assert box[NAME_AT..][i - 104] == box[NAME_AT + (i - 104)];
      assert Visible(p)[i] == p.name[i - 104];
    }
  }

  lemma WriterKeeps(s: System, step: Step)
    requires Ok(s) && Enabled(s, step)
    requires step.Announce? || step.Scribble? || step.NameDone? || step.Seal?
    ensures Ok(Next(s, step))
  {
    var t := Next(s, step);
    match step
    case Announce(_) =>
    case Scribble(at, _) =>
      assert s.writer.phase.WritingReply? ==> t.box[NAME_AT..] == s.box[NAME_AT..];
    case NameDone =>
    case Seal =>
      assert t.box[REPLY_AT..REPLY_END] == s.box[REPLY_AT..REPLY_END] && t.box[NAME_AT..] == s.box[NAME_AT..];
  }

  /** The menu may take this step before the 32-bit revision has made a full turn. */
  predicate Timely(s: System, step: Step) {
    step.Finish? ==> s.writer.count < s.reader.start + TWO32
  }

  lemma ReaderKeeps(s: System, step: Step)
    requires Ok(s) && Enabled(s, step) && Timely(s, step)
    requires step.Begin? || step.Fetch? || step.Finish?
    ensures Ok(Next(s, step))
  {
    match step
    case Begin =>
      EvenRevision(s.writer.count);
    case Fetch => FetchKeeps(s);
    case Finish =>
      if Accepts(s) {
        SameRevision(s.writer.count, s.reader.start);
        var full := Visible(s.writer.published[s.reader.start / 2]);
        assert full[..VIEW] == full;
      }
  }

  lemma FetchKeeps(s: System)
    requires Ok(s) && Enabled(s, Fetch)
    ensures Ok(Next(s, Fetch))
  {
    var w, r := s.writer, s.reader;
    if w.count == r.start && r.start / 2 < |w.published| {
      var full := Visible(w.published[r.start / 2]);
      HeldWord(s.box, w.published[r.start / 2], |r.got|);
      assert full[..|r.got| + 1] == full[..|r.got|] + [full[|r.got|]];
    }
  }

  // --------------------------------------------------------------------------
  // Whole runs

  predicate IsRun(trace: seq<System>, steps: seq<Step>) {
    && |trace| == |steps| + 1 && trace[0] == Initial()
    && forall k | 0 <= k < |steps| :: Enabled(trace[k], steps[k]) && trace[k + 1] == Next(trace[k], steps[k])
  }

  /** No single read of the menu lasts while the portal publishes 2^31 times. */
  predicate AllTimely(trace: seq<System>, steps: seq<Step>)
    requires |trace| == |steps| + 1
  {
    forall k | 0 <= k < |steps| :: Timely(trace[k], steps[k])
  }

  lemma {:induction false} RunOk(trace: seq<System>, steps: seq<Step>, k: nat)
    requires IsRun(trace, steps) && AllTimely(trace, steps) && k < |trace|
    ensures Ok(trace[k])
  {
    if k == 0 {
      InitiallyOk();
    } else {
      RunOk(trace, steps, k - 1);
      var s, step := trace[k - 1], steps[k - 1];
      if step.Begin? || step.Fetch? || step.Finish? {
        ReaderKeeps(s, step);
      } else {
        WriterKeeps(s, step);
      }
    }
  }

  /**
    * Under every interleaving of stores and reads, what the menu shows is one whole publication, or
    * the initial zeros: never words of two.
    */
  lemma SnapshotIsWhole(trace: seq<System>, steps: seq<Step>, k: nat)
    requires IsRun(trace, steps) && AllTimely(trace, steps) && k < |trace|
    ensures var s := trace[k];
          s.reader.shown < |s.writer.published| && s.reader.reply == Visible(s.writer.published[s.reader.shown])
    ensures trace[k].writer.published[0] == Nothing()
  {
    RunOk(trace, steps, k);
    HistoryGrows(trace, steps, 0, k);
    assert trace[0].writer.published == [Nothing()];
  }

  /** Publications are never taken back. */
  lemma {:induction false} HistoryGrows(trace: seq<System>, steps: seq<Step>, j: nat, k: nat)
    requires IsRun(trace, steps) && j <= k < |trace|
    ensures trace[j].writer.published <= trace[k].writer.published
    decreases k
  {
    if j < k {
      HistoryGrows(trace, steps, j, k - 1);
      assert Enabled(trace[k - 1], steps[k - 1]);
    }
  }

  /**
    * An accepted snapshot is the newest publication finished when its read began, so the menu never
    * goes back to an older one.
    */
  lemma AcceptedIsNewest(trace: seq<System>, steps: seq<Step>, j: nat, k: nat)
    requires IsRun(trace, steps) && AllTimely(trace, steps) && j < k < |trace|
    requires steps[j].Begin? && trace[j].box[REVISION] % 2 == 0
    requires steps[k - 1].Finish? && Accepts(trace[k - 1])
    requires forall i | j < i < k - 1 :: !steps[i].Begin? && !steps[i].Finish?
    ensures trace[k].reader.shown == |trace[j].writer.published| - 1
    ensures trace[j].reader.shown <= trace[k].reader.shown
  {
    RunOk(trace, steps, j);
    RunOk(trace, steps, k - 1);
    assert Enabled(trace[j], steps[j]) && trace[j + 1] == Next(trace[j], steps[j]);
    StartStays(trace, steps, j + 1, k - 1);
  }

  lemma {:induction false} StartStays(trace: seq<System>, steps: seq<Step>, j: nat, k: nat)
    requires IsRun(trace, steps) && j <= k < |trace|
    requires forall i | j <= i < k :: !steps[i].Begin? && !steps[i].Finish?
    ensures trace[k].reader.start == trace[j].reader.start && trace[k].reader.shown == trace[j].reader.shown
    decreases k
  {
    if j < k {
      StartStays(trace, steps, j, k - 1);
      assert Enabled(trace[k - 1], steps[k - 1]);
    }
  }

  /** A read during which no revision is stored is accepted; one that overlaps a publication is dropped. */
  lemma AcceptedExactlyWhenQuiet(trace: seq<System>, steps: seq<Step>, k: nat)
    requires IsRun(trace, steps) && AllTimely(trace, steps) && k < |steps| && steps[k].Finish?
    ensures Accepts(trace[k]) <==> trace[k].writer.count == trace[k].reader.start
  {
    RunOk(trace, steps, k);
    assert Enabled(trace[k], steps[k]);
    if Accepts(trace[k]) {
      SameRevision(trace[k].writer.count, trace[k].reader.start);
    }
  }

  // --------------------------------------------------------------------------
  // The two loops, each store and read being one step of the model

  class SharedWords {
    const box: array<u32>
    const reply: array<u32>
    var revision: u32
    ghost var system: System

    ghost predicate Valid()
      reads this, box, reply
    {
      && box.Length == WORDS && reply.Length == VIEW && box != reply
      && system.box == box[..] && system.reader.reply == reply[..]
      && revision == system.writer.count % TWO32
    }

    constructor ()
      ensures Valid() && fresh(box) && fresh(reply) && system == Initial()
    {
      box := new u32[WORDS](_ => 0);
      reply := new u32[VIEW](_ => 0);
      revision, system := 0, Initial();
      new;
      assert box[..] == Initial().box;
      assert reply[..] == Initial().reader.reply;
    }

    /** `put_be32(box + 448, ++e11_revision)`. */
    method Stamped(ghost step: Step)
      requires Valid() && Enabled(system, step) && (step.Announce? || step.Seal?)
      modifies this`revision, this`system, box
      ensures Valid() && system == Next(old(system), step)
    {
      revision := Plus(revision, 1);
      box[REVISION] := revision;
      NextRevision(system.writer.count);
      system := Next(system, step);
    }

    /** The copy of one region by `v4_copy`. */
    method CopyWords(at: nat, words: seq<u32>)
      requires Valid() && 0 < |words| && at + |words| <= WORDS
      requires forall i | at <= i < at + |words| :: InPhase(system.writer.phase, i)
      modifies this`system, box
      ensures Valid() && box[at..at + |words|] == words
      ensures system == old(system).(box := box[..])
      ensures forall i | 0 <= i < WORDS && !(at <= i < at + |words|) :: box[i] == old(box[i])
    {
      var i := 0;
      while i < |words|
        invariant 0 <= i <= |words|
        invariant Valid() && system == old(system).(box := box[..])
        invariant box[at..at + i] == words[..i]
        invariant forall j | 0 <= j < WORDS && !(at <= j < at + i) :: box[j] == old(box[j])
      {
        box[at + i] := words[i];
        system := Next(system, Scribble(at + i, words[i]));
        i := i + 1;
      }
    }

    /** `e11_publish`, once its buffers are filled. */
    method Publish(p: Publication)
      requires Valid() && Ok(system) && system.writer.phase.Resting?
      modifies this`revision, this`system, box
      ensures Valid() && system.writer.phase.Resting? && system.reader == old(system.reader)
      ensures Holds(box[..], p)
      ensures system.writer.published == old(system.writer.published) + [p]
          && system.writer.count == old(system.writer.count) + 2
    {
      Stamped(Announce(p));
      CopyWords(NAME_AT, p.name);
      ghost var named := box[..];
      assert named[NAME_AT..] == p.name;
      system := Next(system, NameDone);
      CopyWords(REPLY_AT, p.reply);
      ghost var written := box[..];
      assert written[REPLY_AT..REPLY_END] == p.reply;
      assert written[NAME_AT..] == named[NAME_AT..];
      Stamped(Seal);
      assert box[..][REPLY_AT..REPLY_END] == written[REPLY_AT..REPLY_END];
      assert box[..][NAME_AT..] == written[NAME_AT..];
    }

    /** The 116 reads of `update_menu` between its two reads of the revision, undisturbed. */
    method TakeSnapshot() returns (snapshot: seq<u32>)
      requires Valid() && Ok(system) && system.reader.reading && system.reader.got == []
      modifies this`system
      ensures Valid() && Ok(system) && |snapshot| == VIEW
      ensures system == old(system).(reader := old(system).reader.(got := snapshot))
    {
      snapshot := [];
      while |snapshot| < VIEW
        invariant |snapshot| <= VIEW
        invariant Valid() && Ok(system)
        invariant system == old(system).(reader := old(system).reader.(got := snapshot))
      {
        FetchKeeps(system);
        system := Next(system, Fetch);
        snapshot := snapshot + [box[Source(|snapshot|)]];
      }
    }

    /** The last copy of `update_menu`. */
    method Accept(snapshot: seq<u32>)
      requires reply.Length == VIEW == |snapshot|
      modifies reply
      ensures reply[..] == snapshot
    {
      var i := 0;
      while i < VIEW
        invariant 0 <= i <= VIEW
        invariant reply[..i] == snapshot[..i]
      {
        reply[i] := snapshot[i];
        i := i + 1;
      }
    }

    /** The reads of `update_menu`, undisturbed: between publications they accept the newest one. */
    method Refresh()
      requires Valid() && Ok(system) && !system.reader.reading
      modifies this`system, reply
      ensures Valid() && Ok(system) && system.writer == old(system.writer)
      ensures reply[..] == if system.writer.phase.Resting?
          then Visible(system.writer.published[system.writer.count / 2]) else old(reply[..])
    {
      EvenRevision(system.writer.count);
      var version := box[REVISION];
      if version % 2 != 0 {
        return;
      }
      ReaderKeeps(system, Begin);
      system := Next(system, Begin);
      var snapshot := TakeSnapshot();
      ghost var full := Visible(system.writer.published[system.writer.count / 2]);
      assert full[..VIEW] == full;
      ReaderKeeps(system, Finish);
      if version == box[REVISION] {
        Accept(snapshot);
      }
      system := Next(system, Finish);
    }
  }

  lemma NextRevision(n: nat)
    ensures Plus(n % TWO32, 1) == (n + 1) % TWO32
  {
    assert n == TWO32 * (n / TWO32) + n % TWO32;
    assert n + 1 == TWO32 * (n / TWO32) + (n % TWO32 + 1);
  }
}
