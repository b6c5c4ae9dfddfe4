/**
  * The portal together with its storage worker and card: every interleaving of requests, timer
  * ticks, disk steps, completions and power losses.
  */
module World {
  import opened Words
  import opened HidSession
  import opened PortalSpec
  import opened PortalInvariants
  import opened Journal
  import opened Durability

  /** One catalogue entry: the source dump and its checksum. */
  datatype Entry = Entry(dump: Data, source: u32)

  type Library = l: seq<Entry> | 1 <= |l| <= 640 witness [Entry(Zeros(1024), 0)]

  /** What the storage worker is doing; `Writing` is a save between opening its file and the result. */
  datatype Worker = Idle | Queued | Writing | Finished

  /**
    * `files` classifies the two journals of each catalogue entry. `ledgers` and `retired` are
    * history: the versions of every figure since its last load, and the figures that left the portal
    * by a replace or a remove.
    */
  datatype World = World(portal: Portal, library: Library, files: seq<Files>, worker: Worker,
                         ledgers: map<nat, Ledger>, retired: set<nat>)

  function Sources(library: Library): seq<u32> {
    seq(|library|, i requires 0 <= i < |library| => library[i].source)
  }

  // --------------------------------------------------------------------------
  // Steps

  datatype Work =
    | Fails(code: Negative, junk: Data)          // any disk operation ends with an error
    | Reads                                      // the catalogue or a figure is read
    | Opens                                      // a save truncates its file
    | Stops(complete: bool, code: Negative)      // the write or its verification fails
    | Lands                                      // the record is on the card and verified

  datatype Step =
    | Received(m: Message)
    | Ticked(env: Env)
    | Worked(work: Work)
    | Completed
    | PowerLost(sent: int)

  predicate Enabled(w: World, step: Step) {
    match step
    case Worked(Opens) => w.worker == Queued && w.portal.store.op == OP_SAVE
    case Worked(Stops(_, _)) => w.worker == Writing && w.portal.store.op == OP_SAVE
    case Worked(Lands) => w.worker == Writing && w.portal.store.op == OP_SAVE
    case Worked(Reads) => w.worker == Queued && w.portal.store.op != OP_SAVE
    case Worked(Fails(_, _)) => w.worker == Queued
    case Completed => w.worker == Finished
    case _ => true
  }

  /** The storage worker only works on catalogue entries. */
  predicate InRange(w: World) {
    |w.files| == |w.library|
      && (w.worker != Idle && w.portal.store.op != OP_CATALOG ==> w.portal.store.job.id < |w.files|)
  }

  /** `e09_start` after a reset: only the card survives. */
  function Boot(sent: int): Portal {
    SetStore(Fresh(), Submitted(Fresh().store, OP_CATALOG, sent, 0))
  }

  function Start(library: Library, files: seq<Files>, sent: int): World {
    World(Boot(sent), library, files, if sent < 0 then Idle else Queued, map[], {})
  }

  function OwnedIds(s: Store): set<nat> {
    set i: SlotIndex | s.slots[i].occupied :: s.slots[i].id
  }

  /** The slot whose data a handler changed. */
  function Grown(s: Store, t: Store, n: nat): Option<SlotIndex>
    requires n <= 16
    decreases 16 - n
  {
    if n == 16 then None
    else if s.slots[n].generation != t.slots[n].generation then Some(n)
    else Grown(s, t, n + 1)
  }

  function Noted(ledgers: map<nat, Ledger>, t: Store, grown: Option<SlotIndex>): map<nat, Ledger> {
    if grown.None? || t.slots[grown.value].id !in ledgers then ledgers
    else
      var slot := t.slots[grown.value];
      ledgers[slot.id := ledgers[slot.id].(versions := ledgers[slot.id].versions + [slot.data])]
  }

  /** A completed load whose figure lands in a slot. */
  predicate LoadLands(s: Store) {
    s.result >= 0 && s.op == OP_LOAD && !UidTaken(s, Uid(s.job.data))
  }

  function LedgersAfter(ledgers: map<nat, Ledger>, s: Store): map<nat, Ledger> {
    if s.result >= 0 && s.op == OP_SAVE && s.job.id in ledgers then
      ledgers[s.job.id := ledgers[s.job.id].(sequence := Plus(s.job.sequence, 1), saved := s.snapshot)]
    else if LoadLands(s) then ledgers[s.job.id := Ledger(s.job.sequence, [s.job.data], 0)]
    else ledgers
  }

  /** A step of the HID worker: requests, ticks and completions. */
  function Handled(w: World, p: Portal, ledgers: map<nat, Ledger>): World {
    w.(portal := p, ledgers := ledgers,
       worker := if !p.store.busy then Idle else if !w.portal.store.busy then Queued else w.worker,
       retired := w.retired + OwnedIds(w.portal.store) - OwnedIds(p.store))
  }

  function TargetFile(s: Store): nat {
    Plus(s.job.sequence, 1) % 2
  }

  function WithFile(w: World, view: View): World
    requires w.portal.store.job.id < |w.files|
  {
    var id := w.portal.store.job.id;
    w.(files := w.files[id := w.files[id][TargetFile(w.portal.store) := view]])
  }

  function Ended(w: World, s: Store): World {
    w.(worker := Finished, portal := SetStore(w.portal, s))
  }

  /** A step of the storage worker, which alone touches the card. */
  function WorkedOn(w: World, work: Work): World
    requires InRange(w) && Enabled(w, Worked(work))
  {
    var s := w.portal.store;
    match work
    case Fails(code, junk) => Ended(w,
      s.(result := code, job := if s.op == OP_LOAD then s.job.(data := junk) else s.job))
    case Reads =>
      if s.op == OP_CATALOG then Ended(w, s.(result := 0, catalog := Sources(w.library)))
      else (match Choose(w.library[s.job.id].dump, w.files[s.job.id][0], w.files[s.job.id][1])
            case Failed(code) => Ended(w, s.(result := -4))
            case Loaded(sequence, data) => Ended(w, s.(result := 0, job := s.job.(sequence := sequence, data := data))))
    case Opens => WithFile(w, Damaged).(worker := Writing)
    case Stops(complete, code) =>
      Ended(WithFile(w, if complete then Good(Plus(s.job.sequence, 1), s.job.data) else Damaged), s.(result := code))
    case Lands => Ended(WithFile(w, Good(Plus(s.job.sequence, 1), s.job.data)), s.(result := 0))
  }

  function Next(w: World, step: Step): World
    requires InRange(w) && Enabled(w, step)
  {
    match step
    case Received(m) =>
      var p := Process(w.portal, m);
      Handled(w, p, Noted(w.ledgers, p.store, Grown(w.portal.store, p.store, 0)))
    case Ticked(env) => Handled(w, Tick(w.portal, env), w.ledgers)
    case Worked(work) => WorkedOn(w, work)
    case Completed => Handled(w, Complete(w.portal), LedgersAfter(w.ledgers, w.portal.store))
    case PowerLost(sent) => w.(portal := Boot(sent), worker := if sent < 0 then Idle else Queued)
  }
}
