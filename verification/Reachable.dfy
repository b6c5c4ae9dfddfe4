/** What holds of the portal in every reachable state, and what a running disk job keeps to itself. */
module Reachable {
  import opened Words
  import opened HidSession
  import opened SessionRuns
  import opened PortalSpec
  import opened PortalInvariants
  import opened Durability
  import opened World
  import opened WorldSafety

  // --------------------------------------------------------------------------
  // Figures, positions and sessions

  predicate Shows(s: Store, u: SlotIndex, i: SlotIndex) {
    s.ui[u] == i
  }

  /** In every reachable state each occupied slot has exactly one menu position, and no other slot has any. */
  lemma PositionsMatchFigures(library: Library, files: seq<Files>, trace: seq<World>, steps: seq<Step>, k: nat,
      i: SlotIndex)
    requires IsRun(trace, steps) && Begins(trace[0], library, files) && k < |trace|
    ensures var s := trace[k].portal.store;
      && (s.slots[i].occupied <==> exists u: SlotIndex :: Shows(s, u, i))
      && (forall u: SlotIndex, v: SlotIndex :: Shows(s, u, i) && Shows(s, v, i) ==> u == v)
  {
    RunKeeps(library, files, trace, steps, k);
    var s := trace[k].portal.store;
    if s.slots[i].occupied {
      var u :| 0 <= u < 16 && s.ui[u] == i;
      assert Shows(s, u, i);
    }
  }

  /** Two figures on the portal never share a catalogue entry, nor do two slots remember one identity. */
  lemma FiguresAreDistinct(library: Library, files: seq<Files>, trace: seq<World>, steps: seq<Step>, k: nat,
      i: SlotIndex, j: SlotIndex)
    requires IsRun(trace, steps) && Begins(trace[0], library, files) && k < |trace| && i != j
    ensures var a, b := trace[k].portal.store.slots[i], trace[k].portal.store.slots[j];
      && (a.occupied && b.occupied ==> a.id != b.id && a.id < |library|)
      && (a.seenUid && b.seenUid ==> a.lastUid != b.lastUid)
  {
    RunKeeps(library, files, trace, steps, k);
    LibraryStays(library, files, trace, steps, k);
  }

  /** What a session that was announced to has been or will be told is whether the figure is there. */
  lemma StatusAgrees(library: Library, files: seq<Files>, trace: seq<World>, steps: seq<Step>, k: nat, f: SlotIndex,
      i: SlotIndex)
    requires IsRun(trace, steps) && Begins(trace[0], library, files) && k < |trace|
    requires trace[k].portal.sessions[f].announced
    ensures var p := trace[k].portal; var s := p.store;
      Final(p.sessions[f], i) == Bit(s.slots[i].occupied && !(s.action != NONE && s.outgoing == i))
  {
    RunKeeps(library, files, trace, steps, k);
    var p := trace[k].portal;
    assert SessionOk(p.sessions[f], Presence(p.store));
    AgreementIsFinalState(p.sessions[f], Presence(p.store), i);
  }

  // --------------------------------------------------------------------------
  // Every job names the checksum of its own dump

  predicate SlotSource(t: Slot, library: Library) {
    t.occupied ==> t.id < |library| && t.source == library[t.id].source
  }

  predicate SourcesOk(w: World) {
    var s := w.portal.store;
    && (s.count != 0 ==> s.catalog == Sources(w.library))
    && (forall i: SlotIndex :: SlotSource(s.slots[i], w.library))
    && (s.busy && s.op != OP_CATALOG ==> s.job.id < |w.library| && s.job.source == w.library[s.job.id].source)
    && (w.worker == Finished && s.op == OP_CATALOG && s.result >= 0 ==> s.catalog == Sources(w.library))
  }

  lemma HandlerKeepsSources(w: World, p: Portal, ledgers: map<nat, Ledger>)
    requires WorldOk(w) && SourcesOk(w) && WorldOk(Handled(w, p, ledgers)) && Scheduled(w.portal.store, p.store)
    ensures SourcesOk(Handled(w, p, ledgers))
  {
    var s, t := w.portal.store, p.store;
    forall i: SlotIndex ensures SlotSource(t.slots[i], w.library) {
      assert SlotSource(s.slots[i], w.library) && LeavesSaved(s.slots[i], t.slots[i]);
    }
    if !s.busy && t.busy {
      if t.op == OP_SAVE {
        assert SlotSource(t.slots[t.diskSlot], w.library);
      }
    }
  }

  lemma RequestKeepsSources(w: World, m: Message)
    requires WorldOk(w) && SourcesOk(w)
    ensures SourcesOk(Next(w, Received(m)))
  {
    var s := w.portal.store;
    var j, block, bytes := RequestWrites(w.portal, m);
    var t := Process(w.portal, m).store;
    forall i: SlotIndex ensures SlotSource(t.slots[i], w.library) {
      assert SlotSource(s.slots[i], w.library);
    }
  }

  lemma LandingKeepsSources(w: World)
    requires WorldOk(w) && SourcesOk(w) && w.worker == Finished && LoadLands(w.portal.store)
    ensures SourcesOk(Next(w, Completed))
  {
    var s, t := w.portal.store, Complete(w.portal).store;
    var r, slot := LandingPlace(w);
    forall i: SlotIndex ensures SlotSource(t.slots[i], w.library) {
      assert SlotSource(s.slots[i], w.library);
    }
  }

  /** A completion that lands no figure. */
  predicate Quiet(s: Store, t: Store) {
    && !t.busy && t.catalog == s.catalog
    && (t.count == s.count || (s.op == OP_CATALOG && s.result >= 0))
    && forall i: SlotIndex ::
          t.slots[i].occupied == s.slots[i].occupied && t.slots[i].id == s.slots[i].id
          && t.slots[i].source == s.slots[i].source
  }

  lemma CompletionIsQuiet(p: Portal)
    requires !LoadLands(p.store) && JobOk(p.store) && p.store.busy
    ensures Quiet(p.store, Complete(p).store)
  {
    var s := p.store;
    if s.result < 0 {
      FailureRestores(p);
    } else if s.op == OP_CATALOG {
      var q := SetStore(p, s.(busy := false, error := s.result, retry := p.ticks, count := |s.catalog|));
      BeginOnlyPresence(q, 0, 0, LOAD);
    } else if s.op == OP_LOAD {
      ConflictIsQuiet(p);
    }
  }

  lemma ConflictIsQuiet(p: Portal)
    requires p.store.result >= 0 && p.store.op == OP_LOAD && !LoadLands(p.store)
    ensures Quiet(p.store, Complete(p).store)
  {
    ConflictRestores(p);
    UidTakenFrame(p.store, p.store.(busy := false, error := p.store.result, retry := p.ticks), Uid(p.store.job.data));
  }

  lemma QuietKeepsSources(w: World)
    requires InRange(w) && SourcesOk(w) && JobOk(w.portal.store) && w.portal.store.busy && w.worker == Finished
        && !LoadLands(w.portal.store)
    ensures SourcesOk(Next(w, Completed))
  {
    CompletionIsQuiet(w.portal);
    var s, t := w.portal.store, Complete(w.portal).store;
    forall i: SlotIndex ensures SlotSource(t.slots[i], w.library) {
      assert SlotSource(s.slots[i], w.library);
    }
  }

  lemma TickKeepsSources(w: World, env: Env)
    requires WorldOk(w) && SourcesOk(w) && WorldOk(Next(w, Ticked(env)))
    ensures SourcesOk(Next(w, Ticked(env)))
  {
    TickSchedules(w.portal, env);
    HandlerKeepsSources(w, Tick(w.portal, env), w.ledgers);
  }

  lemma WorkKeepsSources(w: World, work: Work)
    requires InRange(w) && SourcesOk(w) && Enabled(w, Worked(work))
        && (w.portal.store.count == 0 || w.portal.store.op != OP_CATALOG)
    ensures SourcesOk(WorkedOn(w, work))
  {
    var s, t := w.portal.store, WorkedOn(w, work).portal.store;
    assert t.slots == s.slots && t.count == s.count;
    assert t.job.id == s.job.id && t.job.source == s.job.source;
  }

  lemma StepKeepsSources(w: World, step: Step)
    requires WorldOk(w) && SourcesOk(w) && Enabled(w, step)
    ensures SourcesOk(Next(w, step))
  {
    match step {
      case Received(m) => RequestKeepsSources(w, m);
      case Ticked(env) =>
        StepKeeps(w, step);
        TickKeepsSources(w, env);
      case Worked(work) => WorkKeepsSources(w, work);
      case Completed =>
        if LoadLands(w.portal.store) {
          LandingKeepsSources(w);
        } else {
          QuietKeepsSources(w);
        }
      case PowerLost(sent) => assert Next(w, step).portal.store.slots == Fresh().store.slots;
    }
  }

  lemma {:induction false} RunKeepsSources(library: Library, files: seq<Files>, trace: seq<World>, steps: seq<Step>,
      k: nat)
    requires IsRun(trace, steps) && Begins(trace[0], library, files) && k < |trace|
    ensures SourcesOk(trace[k])
  {
    if k > 0 {
      RunKeeps(library, files, trace, steps, k - 1);
      RunKeepsSources(library, files, trace, steps, k - 1);
      StepKeepsSources(trace[k - 1], steps[k - 1]);
    }
  }

  lemma {:induction false} LibraryStays(library: Library, files: seq<Files>, trace: seq<World>, steps: seq<Step>,
      k: nat)
    requires IsRun(trace, steps) && Begins(trace[0], library, files) && k < |trace|
    ensures trace[k].library == library
    ensures trace[k].portal.store.count == 0 || trace[k].portal.store.count == |library|
  {
    RunKeeps(library, files, trace, steps, k);
    if k > 0 {
      LibraryStays(library, files, trace, steps, k - 1);
    }
  }

  // --------------------------------------------------------------------------
  // Who owns the disk buffer

  /** What the storage worker reads and writes while a job runs. */
  predicate SameSubmission(s: Store, t: Store) {
    && t.op == s.op && t.diskSlot == s.diskSlot && t.snapshot == s.snapshot
    && t.job.id == s.job.id && t.job.source == s.job.source
    && (s.op == OP_SAVE ==> t.job == s.job)
  }

  /** The job stays submitted: no completion and no power loss between these states. */
  predicate KeepsRunning(trace: seq<World>, steps: seq<Step>, first: nat, last: nat) {
    && first <= last < |trace| == |steps| + 1
    && trace[first].portal.store.busy
    && forall k | first <= k < last :: !steps[k].Completed? && !steps[k].PowerLost?
  }

  /** From submission to completion the portal is busy, and the job completed is the one submitted. */
  lemma {:induction false} JobStaysSubmitted(library: Library, files: seq<Files>, trace: seq<World>,
      steps: seq<Step>, first: nat, last: nat)
    requires IsRun(trace, steps) && Begins(trace[0], library, files) && KeepsRunning(trace, steps, first, last)
    ensures trace[last].portal.store.busy
    ensures SameSubmission(trace[first].portal.store, trace[last].portal.store)
    decreases last
  {
    if first < last {
      var n := last - 1;
      var s, t := trace[first].portal.store, trace[n].portal.store;
      assert trace[n + 1] == trace[last];
      assert t.busy && SameSubmission(s, t) by {
        JobStaysSubmitted(library, files, trace, steps, first, n);
      }
      assert trace[n + 1].portal.store.busy && SameSubmission(t, trace[n + 1].portal.store) by {
        StaysOneStep(library, files, trace, steps, n);
      }
    }
  }

  lemma StaysOneStep(library: Library, files: seq<Files>, trace: seq<World>, steps: seq<Step>, n: nat)
    requires IsRun(trace, steps) && Begins(trace[0], library, files) && n < |steps| && trace[n].portal.store.busy
    requires !steps[n].Completed? && !steps[n].PowerLost?
    ensures trace[n + 1].portal.store.busy
    ensures SameSubmission(trace[n].portal.store, trace[n + 1].portal.store)
  {
    RunKeeps(library, files, trace, steps, n);
    OneStepOwned(trace[n], steps[n]);
  }

  /** No request and no tick touches the buffer of the storage worker while its job runs. */
  lemma BufferIsOwned(library: Library, files: seq<Files>, trace: seq<World>, steps: seq<Step>, first: nat,
      last: nat, k: nat)
    requires IsRun(trace, steps) && Begins(trace[0], library, files) && KeepsRunning(trace, steps, first, last)
    requires first <= k < last && !steps[k].Worked?
    ensures SameJob(trace[k].portal.store, trace[k + 1].portal.store)
  {
    JobStaysSubmitted(library, files, trace, steps, first, k);
    RunKeeps(library, files, trace, steps, k);
    OneStepOwned(trace[k], steps[k]);
  }

  lemma OneStepOwned(w: World, step: Step)
    requires WorldOk(w) && Enabled(w, step) && w.portal.store.busy && !step.Completed? && !step.PowerLost?
    ensures var s, t := w.portal.store, Next(w, step).portal.store;
      t.busy && SameSubmission(s, t) && (!step.Worked? ==> SameJob(s, t))
  {
    match step
    case Received(m) => BusyFreezesJob(w.portal, m, Env(false, Request(0, 0, 0, 0, 0, 0), 0));
    case Ticked(env) => BusyFreezesJob(w.portal, Message(0, 0, CloseFile, 0, 0, None, 0, false, None), env);
    case Worked(work) => WorkKeepsSubmission(w, work);
  }

  lemma WorkKeepsSubmission(w: World, work: Work)
    requires InRange(w) && Enabled(w, Worked(work))
    ensures var s, t := w.portal.store, WorkedOn(w, work).portal.store; t.busy == s.busy && SameSubmission(s, t)
  {
    match work {
      case Fails(_, _) =>
      case Reads =>
      case Opens =>
      case Stops(_, _) =>
      case Lands =>
    }
  }

  /** Conversely the storage worker takes no step unless a job is submitted. */
  lemma WorkerNeedsJob(library: Library, files: seq<Files>, trace: seq<World>, steps: seq<Step>, k: nat)
    requires IsRun(trace, steps) && Begins(trace[0], library, files) && k < |steps|
    requires steps[k].Worked? || steps[k].Completed?
    ensures trace[k].portal.store.busy
  {
    RunKeeps(library, files, trace, steps, k);
  }
}
