/**
  * The storage worker on the bytes of the card takes exactly the steps that the world model takes on
  * the classified files.
  */
module CardRefinement {
  import opened Words
  import opened HidSession
  import opened PortalSpec
  import opened Journal
  import opened Durability
  import Fnv
  import W = World
  import Catalogue
  import Library
  import WorldSafety
  import Reachable

  /** The card holds these source dumps, and its journals are classified this way. */
  ghost predicate Represents(card: Card, library: W.Library, files: seq<Files>) {
    && |files| == |library|
    && forall id: nat | id < |library| ::
          HoldsDump(card, library[id], id) && HoldsJournals(card, library[id], files[id], id)
  }

  predicate HoldsDump(card: Card, entry: W.Entry, id: nat)
    requires id < 640
  {
    && PathOf(id, DumpFile) in card && |card[PathOf(id, DumpFile)]| >= FIGURE
    && card[PathOf(id, DumpFile)][..FIGURE] == entry.dump
    && Fnv.Hash(entry.dump) == entry.source
  }

  predicate HoldsJournals(card: Card, entry: W.Entry, files: Files, id: nat)
    requires id < 640
  {
    ViewOf(card, id, entry.source, 0) == files[0] && ViewOf(card, id, entry.source, 1) == files[1]
  }

  /** A save leaves the card representing the same files but for the one it wrote. */
  lemma SaveRefines(card: Card, library: W.Library, files: seq<Files>, id: nat, s: u32, data: Data, left: seq<byte>)
      returns (view: View)
    requires Represents(card, library, files) && id < |library|
    requires Torn(left, s, id, library[id].source, data)
    ensures view == Damaged || view == Good(s, data)
    ensures view.Good? <==> |left| >= SIZE && left[..SIZE] == Record(s, id, library[id].source, data)
    ensures Represents(card[PathOf(id, SavFile(s % 2)) := left], library, files[id := files[id][s % 2 := view]])
  {
    var source := library[id].source;
    var after := card[PathOf(id, SavFile(s % 2)) := left];
    view := ViewOf(after, id, source, s % 2);
    SaveTouchesOneView(card, id, source, s, data, left);
    var changed := files[id := files[id][s % 2 := view]];
    forall other: nat | other < |library|
      ensures HoldsDump(after, library[other], other) && HoldsJournals(after, library[other], changed[other], other)
    {
      EntryAfterSave(card, library[other], files[other], other, id, library[id].source, s, data, left);
    }
  }

  /** One catalogue entry across the save of another, or of itself. */
  lemma EntryAfterSave(card: Card, entry: W.Entry, files: Files, other: nat, id: nat, source: u32, s: u32,
      data: Data, left: seq<byte>)
    requires other < 640 && id < 640 && Torn(left, s, id, source, data)
    requires HoldsDump(card, entry, other) && HoldsJournals(card, entry, files, other)
    requires other == id ==> entry.source == source
    ensures var after := card[PathOf(id, SavFile(s % 2)) := left];
      && HoldsDump(after, entry, other)
      && HoldsJournals(after, entry, if other == id then files[s % 2 := ViewOf(after, id, source, s % 2)]
        else files, other)
  {
    SaveTouchesOneView(card, id, source, s, data, left);
    var after := card[PathOf(id, SavFile(s % 2)) := left];
    assert (other, 0) != (id, s % 2) ==> ViewOf(after, other, entry.source, 0) == ViewOf(card, other, entry.source, 0);
    assert (other, 1) != (id, s % 2) ==> ViewOf(after, other, entry.source, 1) == ViewOf(card, other, entry.source, 1);
  }

  // --------------------------------------------------------------------------
  // The bytes behind a step of the world

  function SavedFile(j: Job): string
    requires j.id < 640
  {
    PathOf(j.id, SavFile(Plus(j.sequence, 1) % 2))
  }

  /** The bytes a write of this job leaves, and whether they begin with its whole record. */
  ghost predicate Leaves(j: Job, left: seq<byte>, complete: bool)
    requires j.id < 640
  {
    && Torn(left, Plus(j.sequence, 1), j.id, j.source, j.data)
    && (complete <==> |left| >= SIZE && left[..SIZE] == Record(Plus(j.sequence, 1), j.id, j.source, j.data))
  }

  /** What the card holds after a step: only a save writes to it, and only to its one file. */
  ghost predicate CardFollows(card: Card, w: W.World, step: W.Step, after: Card)
    requires W.InRange(w) && W.Enabled(w, step)
  {
    var j := w.portal.store.job;
    match step
    case Worked(Opens) => after == card[SavedFile(j) := []]
    case Worked(Stops(complete, _)) => exists left :: Leaves(j, left, complete) && after == card[SavedFile(j) := left]
    case Worked(Lands) => exists left :: Leaves(j, left, true) && after == card[SavedFile(j) := left]
    case _ => after == card
  }

  /** Every step moves the card and its classification together. */
  lemma StepRefines(w: W.World, step: W.Step, card: Card, after: Card)
    requires W.InRange(w) && W.Enabled(w, step) && Represents(card, w.library, w.files)
    requires step.Worked? && w.portal.store.op == OP_SAVE ==>
      w.portal.store.job.source == w.library[w.portal.store.job.id].source
    requires CardFollows(card, w, step, after)
    ensures Represents(after, W.Next(w, step).library, W.Next(w, step).files)
  {
    var j := w.portal.store.job;
    match step
    case Worked(Opens) => var view := LeftRefines(card, w, [], false);
    case Worked(Stops(complete, _)) =>
      var left :| Leaves(j, left, complete) && after == card[SavedFile(j) := left];
      var view := LeftRefines(card, w, left, complete);
    case Worked(Lands) =>
      var left :| Leaves(j, left, true) && after == card[SavedFile(j) := left];
      var view := LeftRefines(card, w, left, true);
    case _ =>
  }

  lemma LeftRefines(card: Card, w: W.World, left: seq<byte>, complete: bool) returns (view: View)
    requires W.InRange(w) && w.worker != W.Idle && w.portal.store.op == OP_SAVE
    requires Represents(card, w.library, w.files)
    requires w.portal.store.job.source == w.library[w.portal.store.job.id].source
    requires Leaves(w.portal.store.job, left, complete)
    ensures var j := w.portal.store.job;
      && view == (if complete then Good(Plus(j.sequence, 1), j.data) else Damaged)
      && Represents(card[SavedFile(j) := left], w.library, W.WithFile(w, view).files)
  {
    var j := w.portal.store.job;
    view := SaveRefines(card, w.library, w.files, j.id, Plus(j.sequence, 1), j.data, left);
  }

  // --------------------------------------------------------------------------
  // A save

  /** The world in which the worker starts, with the job of `e12_save_slot` in its buffer. */
  ghost predicate StartsSave(w: W.World, card: Card) {
    && W.InRange(w) && w.worker == W.Queued && w.portal.store.op == OP_SAVE
    && Represents(card, w.library, w.files)
    && w.portal.store.job.source == w.library[w.portal.store.job.id].source
  }

  /** What `StorageWorker.Save` promises about its result and the card. */
  ghost predicate SaveOutcome(job: Job, card: Card, after: Card, plan: WritePlan, r: int)
    requires job.id < 640
  {
    var s := Plus(job.sequence, 1);
    && r <= 0
    && (r == 0 ==>
          plan.Attempted? && |plan.left| >= SIZE && plan.left[..SIZE] == Record(s, job.id, job.source, job.data))
    && after == match plan
                case NotOpened(_) => card
                case Attempted(left, _, _) => card[SavedFile(job) := left]
  }

  /** These disk steps lead from one world to the other. */
  predicate Leads(w: W.World, works: seq<W.Work>, u: W.World)
    decreases |works|
  {
    if works == [] then w == u
    else W.InRange(w) && W.Enabled(w, W.Worked(works[0])) && Leads(W.WorkedOn(w, works[0]), works[1..], u)
  }

  /** The card passes through the bytes of each of these disk steps. */
  ghost predicate CardLeads(card: Card, w: W.World, works: seq<W.Work>, after: Card)
    decreases |works|
  {
    if works == [] then after == card
    else
      && W.InRange(w) && W.Enabled(w, W.Worked(works[0]))
      && exists mid ::
        CardFollows(card, w, W.Worked(works[0]), mid) && CardLeads(mid, W.WorkedOn(w, works[0]), works[1..], after)
  }

  /** Every disk outcome of a save is a run of the world model that ends with the same result and card. */
  lemma SaveIsSimulated(w: W.World, card: Card, after: Card, plan: WritePlan, r: int)
      returns (works: seq<W.Work>, u: W.World)
    requires StartsSave(w, card) && SaveOutcome(w.portal.store.job, card, after, plan, r)
    requires var j := w.portal.store.job;
      plan.Attempted? ==> Torn(plan.left, Plus(j.sequence, 1), j.id, j.source, j.data)
    ensures Leads(w, works, u) && CardLeads(card, w, works, after)
    ensures u.worker == W.Finished && u.portal.store == w.portal.store.(result := r)
    ensures Represents(after, u.library, u.files)
    ensures r == 0 <==> works == [W.Work.Opens, W.Work.Lands]
  {
    var j := w.portal.store.job;
    match plan
    case NotOpened(_) =>
      works := [W.Work.Fails(r, j.data)];
      u := W.WorkedOn(w, works[0]);
      assert Leads(u, works[1..], u) && CardLeads(card, u, works[1..], card);
    case Attempted(left, _, _) =>
      var view := SaveRefines(card, w.library, w.files, j.id, Plus(j.sequence, 1), j.data, left);
      var last := if r == 0 then W.Work.Lands else W.Work.Stops(view.Good?, r);
      works := [W.Work.Opens, last];
      u := WritingEnds(w, last, view, r);
      WritingOnCard(card, w, last, left, view.Good?);
  }

  /** On the card, opening the file truncates it and the write then leaves its bytes. */
  lemma WritingOnCard(card: Card, w: W.World, last: W.Work, left: seq<byte>, complete: bool)
    requires W.InRange(w) && w.worker == W.Queued && w.portal.store.op == OP_SAVE
    requires Leaves(w.portal.store.job, left, complete)
    requires (last == W.Work.Lands && complete) || (last.Stops? && last.complete == complete)
    ensures CardLeads(card, w, [W.Work.Opens, last], card[SavedFile(w.portal.store.job) := left])
  {
    var j := w.portal.store.job;
    var v, mid, after := W.WorkedOn(w, W.Work.Opens), card[SavedFile(j) := []], card[SavedFile(j) := left];
    assert mid[SavedFile(j) := left] == after;
    assert CardFollows(mid, v, W.Worked(last), after);
    assert [W.Work.Opens, last][1..] == [last] && [last][1..] == [];
    assert CardLeads(after, W.WorkedOn(v, last), [], after);
    assert CardLeads(mid, v, [last], after);
    assert CardFollows(card, w, W.Worked(W.Work.Opens), mid);
  }

  /** Opening the file and then leaving `view` in it changes only that classification. */
  lemma WritingEnds(w: W.World, last: W.Work, view: View, r: int) returns (u: W.World)
    requires W.InRange(w) && w.worker == W.Queued && w.portal.store.op == OP_SAVE
    requires var j := w.portal.store.job; view == Damaged || view == Good(Plus(j.sequence, 1), j.data)
    requires (last == W.Work.Lands && r == 0 && view.Good?) || (r < 0 && last == W.Work.Stops(view.Good?, r))
    ensures Leads(w, [W.Work.Opens, last], u)
    ensures u.worker == W.Finished && u.portal.store == w.portal.store.(result := r)
    ensures var j := w.portal.store.job;
      u.library == w.library && u.files == w.files[j.id := w.files[j.id][Plus(j.sequence, 1) % 2 := view]]
  {
    var j := w.portal.store.job;
    var k := Plus(j.sequence, 1) % 2;
    var v := W.WorkedOn(w, W.Work.Opens);
    u := W.WorkedOn(v, last);
    assert w.files[j.id][k := Damaged][k := view] == w.files[j.id][k := view];
    assert v.files[j.id := v.files[j.id][k := view]] == w.files[j.id := w.files[j.id][k := view]];
    assert [W.Work.Opens, last][1..] == [last];
    assert [last][1..] == [];
    assert Leads(u, [], u) && Leads(v, [last], u);
  }

  // --------------------------------------------------------------------------
  // A load

  /** A read that does not report a present or sound journal as absent or damaged. */
  predicate Honest(card: Card, id: nat, k: nat, fault: Fault)
    requires id < 1000 && k < 2
  {
    var code := ReadCode(card, PathOf(id, SavFile(k)), SIZE, fault);
    Hides(code) ==> code == ReadCode(card, PathOf(id, SavFile(k)), SIZE, Works)
  }

  lemma HonestSight(card: Card, id: nat, source: u32, k: nat, fault: Fault)
    requires id < 1000 && k < 2 && Honest(card, id, k, fault)
    ensures var v := Seen(card, id, source, k, fault); v == ViewOf(card, id, source, k) || (v.Broken? && v.code < 0)
  {
    SeenIsMasked(card, id, source, k, fault);
  }

  /** Every honest load is one step of the world model with the same result, sequence and data. */
  lemma LoadIsSimulated(w: W.World, card: Card, f: Fault, f0: Fault, f1: Fault, junk: Data) returns (work: W.Work)
    requires W.InRange(w) && w.worker == W.Queued && w.portal.store.op == OP_LOAD
    requires Represents(card, w.library, w.files)
    requires w.portal.store.job.source == w.library[w.portal.store.job.id].source
    requires Honest(card, w.portal.store.job.id, 0, f0) && Honest(card, w.portal.store.job.id, 1, f1)
    ensures W.Enabled(w, W.Worked(work))
    ensures var u := W.Next(w, W.Worked(work));
      && u.worker == W.Finished && Represents(card, u.library, u.files)
      && match LoadResult(card, w.portal.store.job.id, w.portal.store.job.source, f, f0, f1)
         case Failed(code) => u.portal.store.result == code < 0
         case Loaded(s, data) =>
               u.portal.store.result == 0 && u.portal.store.job == w.portal.store.job.(sequence := s, data := data)
  {
    var j := w.portal.store.job;
    HonestSight(card, j.id, j.source, 0, f0);
    HonestSight(card, j.id, j.source, 1, f1);
    assert HoldsDump(card, w.library[j.id], j.id) && HoldsJournals(card, w.library[j.id], w.files[j.id], j.id);
    match LoadResult(card, j.id, j.source, f, f0, f1)
    case Failed(code) => work := W.Work.Fails(code, junk);
    case Loaded(_, _) => work := W.Work.Reads;
  }

  /** Without a disk error a load of the represented card is the choice the world model makes. */
  lemma ReliableLoad(card: Card, library: W.Library, files: seq<Files>, id: nat)
    requires Represents(card, library, files) && id < |library|
    ensures LoadResult(card, id, library[id].source, Works, Works, Works)
        == Choose(library[id].dump, files[id][0], files[id][1])
  {
    assert HoldsDump(card, library[id], id) && HoldsJournals(card, library[id], files[id], id);
  }

  // --------------------------------------------------------------------------
  // The worker's own methods

  /** The worker's buffer and fields hold the job of this world. */
  ghost predicate HasJob(worker: StorageWorker, w: W.World)
    reads worker, worker.job
  {
    var j := w.portal.store.job;
    worker.Valid() && worker.slot == j.id && worker.source == j.source && worker.sequence == j.sequence
      && worker.job[32..] == j.data
  }

  /** `StorageWorker.Save` moves the card along a run of the world model. */
  method SaveInWorld(worker: StorageWorker, plan: WritePlan, fault: Fault, ghost w: W.World)
    returns (r: int, ghost works: seq<W.Work>, ghost u: W.World)
    requires HasJob(worker, w) && StartsSave(w, worker.card)
    requires var j := w.portal.store.job;
      plan.Attempted? ==> Torn(plan.left, Plus(j.sequence, 1), j.id, j.source, j.data)
    modifies worker, worker.job, worker.check
    ensures Leads(w, works, u) && u.worker == W.Finished && CardLeads(old(worker.card), w, works, worker.card)
    ensures u.portal.store == w.portal.store.(result := r)
    ensures Represents(worker.card, u.library, u.files)
  {
    ghost var card := worker.card;
    r := worker.Save(plan, fault);
    works, u := SaveIsSimulated(w, card, worker.card, plan, r);
  }

  /** `StorageWorker.Load` agrees with one step of the world model. */
  method LoadInWorld(worker: StorageWorker, f: Fault, f0: Fault, f1: Fault, ghost w: W.World)
    returns (r: int, ghost work: W.Work)
    requires worker.Valid() && W.InRange(w) && w.worker == W.Queued && w.portal.store.op == OP_LOAD
    requires Represents(worker.card, w.library, w.files)
    requires var j := w.portal.store.job;
      && j.source == w.library[j.id].source && worker.slot == j.id && worker.source == j.source
      && Honest(worker.card, j.id, 0, f0) && Honest(worker.card, j.id, 1, f1)
    modifies worker, worker.job, worker.check
    ensures W.Enabled(w, W.Worked(work))
    ensures var u := W.Next(w, W.Worked(work));
      && Represents(worker.card, u.library, u.files) && u.portal.store.result == r
      && (r == 0 ==> HasJob(worker, u))
  {
    ghost var card := worker.card;
    r := worker.Load(f, f0, f1);
    work := LoadIsSimulated(w, card, f, f0, f1, Zeros(1024));
  }

  // --------------------------------------------------------------------------
  // Runs

  /** Whatever run led here, the worker finds its job ready for a save or a load of the represented card. */
  lemma JobIsReady(library: W.Library, files: seq<Files>, trace: seq<W.World>, steps: seq<W.Step>, k: nat, card: Card)
    requires WorldSafety.IsRun(trace, steps) && WorldSafety.Begins(trace[0], library, files) && k < |trace|
    requires trace[k].worker == W.Queued && Represents(card, trace[k].library, trace[k].files)
    ensures W.InRange(trace[k])
    ensures trace[k].portal.store.op == OP_SAVE ==> StartsSave(trace[k], card)
    ensures trace[k].portal.store.op == OP_LOAD ==>
      var j := trace[k].portal.store.job; j.source == trace[k].library[j.id].source
  {
    WorldSafety.RunKeeps(library, files, trace, steps, k);
    Reachable.RunKeepsSources(library, files, trace, steps, k);
  }

  /** The cards of a run: each step of the world leaves the bytes it may leave. */
  ghost predicate IsCardRun(cards: seq<Card>, trace: seq<W.World>, steps: seq<W.Step>)
    requires WorldSafety.IsRun(trace, steps)
  {
    && |cards| == |trace|
    && forall k | 0 <= k < |steps| :: CardFollows(cards[k], trace[k], steps[k], cards[k + 1])
  }

  lemma CardStep(library: W.Library, files: seq<Files>, trace: seq<W.World>, steps: seq<W.Step>, cards: seq<Card>,
      n: nat)
    requires WorldSafety.IsRun(trace, steps) && WorldSafety.Begins(trace[0], library, files) && n < |steps|
    requires IsCardRun(cards, trace, steps) && Represents(cards[n], trace[n].library, trace[n].files)
    ensures Represents(cards[n + 1], trace[n + 1].library, trace[n + 1].files)
  {
    WorldSafety.RunKeeps(library, files, trace, steps, n);
    Reachable.RunKeepsSources(library, files, trace, steps, n);
    StepRefines(trace[n], steps[n], cards[n], cards[n + 1]);
  }

  /** A card that represents the files at the start represents them in every state of the run. */
  lemma {:induction false} CardRunRepresents(library: W.Library, files: seq<Files>, trace: seq<W.World>,
      steps: seq<W.Step>, cards: seq<Card>, k: nat)
    requires WorldSafety.IsRun(trace, steps) && WorldSafety.Begins(trace[0], library, files) && k < |trace|
    requires IsCardRun(cards, trace, steps) && Represents(cards[0], library, files)
    ensures Represents(cards[k], trace[k].library, trace[k].files)
  {
    if k > 0 {
      var n := k - 1;
      CardRunRepresents(library, files, trace, steps, cards, n);
      CardStep(library, files, trace, steps, cards, n);
    }
  }

  /**
    * Durability in bytes, over every run of the card: whatever its files hold at any moment, the
    * loader's result for a figure on the portal is the figure's data at its last acknowledged save or
    * later, or an error if there was no such save.
    */
  lemma CardIsDurable(library: W.Library, files: seq<Files>, trace: seq<W.World>, steps: seq<W.Step>,
      cards: seq<Card>, k: nat, i: SlotIndex)
    requires WorldSafety.IsRun(trace, steps) && WorldSafety.Begins(trace[0], library, files) && k < |trace|
    requires IsCardRun(cards, trace, steps) && Represents(cards[0], library, files)
    requires trace[k].portal.store.slots[i].occupied
    ensures var w, t := trace[k], trace[k].portal.store.slots[i];
      && t.id < |w.library| && t.id in w.ledgers && t.generation < |w.ledgers[t.id].versions|
      && match LoadResult(cards[k], t.id, t.source, Works, Works, Works)
         case Failed(_) => t.sequence == 0 && t.saved == 0 < t.generation
         case Loaded(_, data) => exists g :: t.saved <= g <= t.generation && data == w.ledgers[t.id].versions[g]
  {
    var w, t := trace[k], trace[k].portal.store.slots[i];
    WorldSafety.FiguresAreDurable(library, files, trace, steps, k, i);
    Reachable.RunKeepsSources(library, files, trace, steps, k);
    CardRunRepresents(library, files, trace, steps, cards, k);
    assert Reachable.SlotSource(t, w.library);
    ReliableLoad(cards[k], w.library, w.files, t.id);
  }

  /**
    * And under any read failures: in every state of every run of the card, a load of a figure returns
    * data that is neither its last acknowledged save nor later exactly when its newest journal is
    * hidden and the loader then finds something older.
    */
  lemma StaleLoadsOfRuns(library: W.Library, files: seq<Files>, trace: seq<W.World>, steps: seq<W.Step>,
      cards: seq<Card>, k: nat, id: nat, f: Fault, f0: Fault, f1: Fault)
    requires WorldSafety.IsRun(trace, steps) && WorldSafety.Begins(trace[0], library, files) && k < |trace|
    requires IsCardRun(cards, trace, steps) && Represents(cards[0], library, files)
    requires id in trace[k].ledgers
    ensures var w, card := trace[k], cards[k];
      && id < |w.files| == |w.library| && w.ledgers[id].saved < |w.ledgers[id].versions|
      && var l, newest := w.ledgers[id], w.ledgers[id].sequence % 2;
      var out := LoadResult(card, id, w.library[id].source, f, f0, f1);
      var base := ReadCode(card, PathOf(id, SavFile(newest)), SIZE, if newest == 0 then f0 else f1);
      var other := ReadCode(card, PathOf(id, SavFile(1 - newest)), SIZE, if newest == 0 then f1 else f0);
      (out.Loaded? && out.data !in Recoverable(l)) <==>
        && ReadCode(card, PathOf(id, DumpFile), FIGURE, f) >= 0
        && Stale(w.files[id][1 - newest], w.library[id].dump, l, base, other)
  {
    var w, card := trace[k], cards[k];
    WorldSafety.RunKeeps(library, files, trace, steps, k);
    CardRunRepresents(library, files, trace, steps, cards, k);
    StaleLoadOfCard(card, w.library[id], w.files[id], w.ledgers[id], id, f, f0, f1);
  }

  lemma StaleLoadOfCard(card: Card, entry: W.Entry, files: Files, l: Ledger, id: nat, f: Fault, f0: Fault, f1: Fault)
    requires id < 640 && HoldsDump(card, entry, id) && HoldsJournals(card, entry, files, id)
    requires Safe(files, entry.dump, l)
    ensures var newest := l.sequence % 2;
      var out := LoadResult(card, id, entry.source, f, f0, f1);
      var base := ReadCode(card, PathOf(id, SavFile(newest)), SIZE, if newest == 0 then f0 else f1);
      var other := ReadCode(card, PathOf(id, SavFile(1 - newest)), SIZE, if newest == 0 then f1 else f0);
      (out.Loaded? && out.data !in Recoverable(l)) <==>
        && ReadCode(card, PathOf(id, DumpFile), FIGURE, f) >= 0
        && Stale(files[1 - newest], entry.dump, l, base, other)
  {
    SeenIsMasked(card, id, entry.source, 0, f0);
    SeenIsMasked(card, id, entry.source, 1, f1);
    var a := ReadCode(card, PathOf(id, SavFile(0)), SIZE, f0);
    var b := ReadCode(card, PathOf(id, SavFile(1)), SIZE, f1);
    StaleLoadCondition(files, entry.dump, l, a, b);
  }

  // --------------------------------------------------------------------------
  // The library on the card

  /** What the portal reads from an extended catalogue is the library whose dumps the tool wrote. */
  lemma CatalogueNamesDumps(entries: seq<Library.Entry>, cat: seq<byte>, files: map<nat, seq<byte>>,
      dumps: seq<Library.Dump>,
                            sha: seq<byte> -> Library.Digest, library: W.Library, i: nat)
    requires Library.Extended(entries, cat, files, dumps, sha).Written?
    requires var shelf := Library.Extended(entries, cat, files, dumps, sha).shelf;
      |library| == |shelf.data| && forall k | 0 <= k < |library| ::
            library[k].dump == shelf.data[k] && library[k].source == Fnv.Hash(library[k].dump)
    requires i < |library|
    ensures var image := Library.Extended(entries, cat, files, dumps, sha).image;
      |image| == Catalogue.SIZE
        && W.Sources(library)[i] == Catalogue.SourceHash(image, Catalogue.Dense, i) == library[i].source
  {
    Library.ExtendedReadsBack(entries, cat, files, dumps, sha, i);
  }
}
