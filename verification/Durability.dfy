/** What two alternating journal files guarantee about one figure, whatever step a save stops at. */
module Durability {
  import opened Words
  import opened Journal
  import Fnv

  /**
    * One figure since its last load: every version its data went through, the version of the last
    * acknowledged save, and the journal sequence of that save.
    */
  datatype Ledger = Ledger(sequence: u32, versions: seq<Data>, saved: nat)

  type Files = f: seq<View> | |f| == 2 witness [Missing, Missing]

  /** The versions a reload may still return. */
  function Recoverable(l: Ledger): seq<Data>
    requires l.saved < |l.versions|
  {
    l.versions[l.saved..]
  }

  /** Journals as this store writes them: parity names the file, and two valid records are adjacent. */
  predicate Alternating(files: Files) {
    && (forall k | 0 <= k < 2 :: !files[k].Broken? && (files[k].Good? ==> files[k].sequence % 2 == k))
    && (files[0].Good? && files[1].Good? ==>
          files[1].sequence == Plus(files[0].sequence, 1) || files[0].sequence == Plus(files[1].sequence, 1))
  }

  /** The acknowledged version: its own record, or the untouched dump of a figure never saved. */
  predicate Acknowledged(base: View, dump: Data, l: Ledger)
    requires l.saved < |l.versions|
  {
    || base == Good(l.sequence, l.versions[l.saved])
    || (base.Missing? && l.sequence == 0 && l.saved == 0 && dump == l.versions[0])
  }

  /** The other file: an older record, a stopped write, or a newer record not yet acknowledged. */
  predicate Spare(other: View, base: View, l: Ledger)
    requires l.saved < |l.versions|
  {
    match other
    case Missing => true
    case Damaged => true
    case Broken(_) => false
    case Good(s, x) =>
      || (base.Good? && l.sequence == Plus(s, 1))
      || (s == Plus(l.sequence, 1) && x in Recoverable(l))
  }

  predicate Safe(files: Files, dump: Data, l: Ledger) {
    && l.saved < |l.versions|
    && Acknowledged(files[l.sequence % 2], dump, l)
    && Spare(files[1 - l.sequence % 2], files[l.sequence % 2], l)
  }

  /** A first save cut short leaves nothing to load; it was made for data that differs from the dump. */
  predicate LostFirstSave(files: Files, l: Ledger) {
    files[l.sequence % 2].Missing? && files[1 - l.sequence % 2].Damaged?
  }

  predicate LossIsUnsaved(files: Files, l: Ledger) {
    LostFirstSave(files, l) ==> |l.versions| > 1
  }

  lemma SafeIsAlternating(files: Files, dump: Data, l: Ledger)
    requires Safe(files, dump, l)
    ensures Alternating(files)
  {
    var k := l.sequence % 2;
    assert files[k].Missing? || files[k].Good?;
    if files[1 - k].Good? {
      assert files[1 - k].sequence % 2 == 1 - k;
    }
  }

  /** A load of well-formed journals starts a new ledger that the same files make safe. */
  lemma LoadStartsLedger(files: Files, dump: Data)
    requires Alternating(files) && Choose(dump, files[0], files[1]).Loaded?
    ensures var out := Choose(dump, files[0], files[1]);
      var l := Ledger(out.sequence, [out.data], 0); Safe(files, dump, l) && LossIsUnsaved(files, l)
  {
    if files[0].Good? && files[1].Good? {
      LaterOfAdjacentWins(dump, files[0].sequence, files[0].data, files[1].data);
      LaterOfAdjacentWins(dump, files[1].sequence, files[1].data, files[0].data);
    }
  }

  /**
    * A reload returns the acknowledged version or a later one. It reports an error exactly when the
    * first save ever of the figure was cut short, leaving no valid record and no trustworthy dump.
    */
  lemma ReloadIsRecent(files: Files, dump: Data, l: Ledger)
    requires Safe(files, dump, l)
    ensures match Choose(dump, files[0], files[1])
            case Loaded(s, x) => x in Recoverable(l) && Safe(files, dump, Ledger(s, [x], 0))
            case Failed(_) => LostFirstSave(files, l)
    ensures LostFirstSave(files, l) ==> Choose(dump, files[0], files[1]).Failed?
  {
    SafeIsAlternating(files, dump, l);
    var base, other := files[l.sequence % 2], files[1 - l.sequence % 2];
    assert l.versions[l.saved] == Recoverable(l)[0];
    if base.Good? && other.Good? {
      LaterOfAdjacentWins(dump, base.sequence, base.data, other.data);
      LaterOfAdjacentWins(dump, other.sequence, other.data, base.data);
    }
    if Choose(dump, files[0], files[1]).Loaded? {
      LoadStartsLedger(files, dump);
    }
  }

  /** While a save of version `g` runs, stopping it anywhere keeps the figure safe. */
  lemma StoppedSaveIsSafe(files: Files, dump: Data, l: Ledger, g: nat, left: View)
    requires Safe(files, dump, l) && l.saved <= g < |l.versions|
    requires left == Damaged || left == Good(Plus(l.sequence, 1), l.versions[g])
    ensures Safe(files[Plus(l.sequence, 1) % 2 := left], dump, l)
  {
    assert Plus(l.sequence, 1) % 2 == 1 - l.sequence % 2;
    assert l.versions[g] == Recoverable(l)[g - l.saved];
  }

  /** The acknowledgement moves the ledger to the record just written. */
  lemma AcknowledgedSaveIsSafe(files: Files, dump: Data, l: Ledger, g: nat)
    requires Safe(files, dump, l) && l.saved <= g < |l.versions|
    requires files[Plus(l.sequence, 1) % 2] == Good(Plus(l.sequence, 1), l.versions[g])
    ensures Safe(files, dump, Ledger(Plus(l.sequence, 1), l.versions, g))
  {
    assert Plus(l.sequence, 1) % 2 == 1 - l.sequence % 2;
  }

  /** A game write adds a version and disturbs nothing on the card. */
  lemma WriteKeepsSafe(files: Files, dump: Data, l: Ledger, x: Data)
    requires Safe(files, dump, l)
    ensures Safe(files, dump, l.(versions := l.versions + [x]))
  {
    var m := l.(versions := l.versions + [x]);
    assert Recoverable(m) == Recoverable(l) + [x];
    assert forall y :: y in Recoverable(l) ==> y in Recoverable(m);
  }

  // --------------------------------------------------------------------------
  // Unreliable reads

  /** A file as the loader classifies it when its read returns `code`. */
  function Masked(v: View, code: int): View {
    if code == ERR_MISSING then Missing
    else if code == ERR_INVALID then Damaged
    else if code < 0 then Broken(code)
    else v
  }

  /** Every fault of one journal read acts through its return code alone. */
  lemma SeenIsMasked(card: Card, id: nat, source: u32, k: nat, fault: Fault)
    requires id < 1000 && k < 2
    ensures Seen(card, id, source, k, fault)
            == Masked(ViewOf(card, id, source, k), ReadCode(card, PathOf(id, SavFile(k)), SIZE, fault))
    ensures ReadCode(card, PathOf(id, SavFile(k)), SIZE, Works) in {0, ERR_MISSING, ERR_INVALID}
  {
  }

  predicate Hides(code: int) {
    code == ERR_MISSING || code == ERR_INVALID
  }

  /**
    * The loader takes the codes -106 and -4 for an absent and a damaged journal, so a read that
    * returns one of them for a sound file makes it fall back to the other journal or to the dump. This
    * is exactly when a load yields data that is neither the last acknowledged save nor later, without
    * reporting an error: the newest journal is hidden, and what the loader then finds is older.
    */
  lemma StaleLoadCondition(files: Files, dump: Data, l: Ledger, a: int, b: int)
    requires Safe(files, dump, l)
    ensures var out := Choose(dump, Masked(files[0], a), Masked(files[1], b));
      var base, other := if l.sequence % 2 == 0 then a else b, if l.sequence % 2 == 0 then b else a;
      var spare := files[1 - l.sequence % 2];
      (out.Loaded? && out.data !in Recoverable(l)) <==> Stale(spare, dump, l, base, other)
  {
    var k := l.sequence % 2;
    var base, other := if k == 0 then a else b, if k == 0 then b else a;
    assert l.versions[l.saved] == Recoverable(l)[0];
    if base >= 0 && other >= 0 {
      ReloadIsRecent(files, dump, l);
    }
  }

  /** The acknowledged journal's read returns `base` and hides it, and older data is read instead. */
  predicate Stale(spare: View, dump: Data, l: Ledger, base: int, other: int)
    requires l.saved < |l.versions|
  {
    && Hides(base)
    && ((spare.Good? && other >= 0 && spare.data !in Recoverable(l))
        || (base == ERR_MISSING && Masked(spare, other).Missing? && dump !in Recoverable(l)))
  }

  /** The card of one figure saved twice: the older record in file 1, the newer one in file 0. */
  function SavedTwice(id: nat, dump: Data, x: Data, y: Data): Card
    requires id < 640
  {
    map[PathOf(id, DumpFile) := dump, PathOf(id, SavFile(0)) := Record(2, id, Fnv.Hash(dump), y),
        PathOf(id, SavFile(1)) := Record(1, id, Fnv.Hash(dump), x)]
  }

  lemma SavedTwiceFiles(id: nat, dump: Data, x: Data, y: Data)
    requires id < 640
    ensures var card, source := SavedTwice(id, dump, x, y), Fnv.Hash(dump);
      && PathOf(id, DumpFile) in card && card[PathOf(id, DumpFile)] == dump
      && PathOf(id, SavFile(0)) in card && card[PathOf(id, SavFile(0))] == Record(2, id, source, y)
      && PathOf(id, SavFile(1)) in card && card[PathOf(id, SavFile(1))] == Record(1, id, source, x)
  {
    PathParts(id, DumpFile);
    PathParts(id, SavFile(0));
    PathParts(id, SavFile(1));
  }

  /** A record is read back, and a short read of it looks like a damaged file. */
  lemma RecordSeen(card: Card, id: nat, source: u32, k: nat, s: u32, data: Data, count: nat)
    requires id < 640 && k < 2 && count < SIZE
    requires PathOf(id, SavFile(k)) in card && card[PathOf(id, SavFile(k))] == Record(s, id, source, data)
    ensures ViewOf(card, id, source, k) == Good(s, data) && Seen(card, id, source, k, Stops(count)) == Damaged
  {
    RecordWords(s, id, source, data);
    RecordIsSound(s, id, source, data);
    assert Record(s, id, source, data)[..SIZE] == Record(s, id, source, data);
  }

  /**
    * The weakness is real: on a sound card a single short read of the newest journal makes the loader
    * return the data of the save before it, without an error.
    */
  lemma StaleLoadExample(id: nat, dump: Data, x: Data, y: Data, count: nat)
    requires id < 640 && x != y && count < SIZE
    ensures var card, source := SavedTwice(id, dump, x, y), Fnv.Hash(dump);
      && Safe([ViewOf(card, id, source, 0), ViewOf(card, id, source, 1)], dump, Ledger(2, [y], 0))
      && LoadResult(card, id, source, Works, Works, Works) == Loaded(2, y)
      && LoadResult(card, id, source, Works, Stops(count), Works) == Loaded(1, x)
  {
    var card, source := SavedTwice(id, dump, x, y), Fnv.Hash(dump);
    SavedTwiceFiles(id, dump, x, y);
    RecordSeen(card, id, source, 0, 2, y, count);
    RecordSeen(card, id, source, 1, 1, x, count);
    WholeDump(card, id, dump, Works, Works);
    WholeDump(card, id, dump, Stops(count), Works);
    LaterOfAdjacentWins(dump, 1, x, y);
  }

  /** With its source dump intact, a load is the choice between the journals it sees. */
  lemma WholeDump(card: Card, id: nat, dump: Data, f0: Fault, f1: Fault)
    requires id < 640 && PathOf(id, DumpFile) in card && card[PathOf(id, DumpFile)] == dump
    ensures var source := Fnv.Hash(dump);
      LoadResult(card, id, source, Works, f0, f1)
      == Choose(dump, Seen(card, id, source, 0, f0), Seen(card, id, source, 1, f1))
  {
    assert dump[..FIGURE] == dump;
  }
}
