/** The tools that prepare a figure library and extend one without moving any existing figure. */
module Library {
  import opened Words
  import opened HidSession
  import opened Catalogue
  import Fnv

  /** The digest is any function of the bytes; it stands for SHA-256. */
  type Digest = string

  /** A label: upper-case ASCII without NUL. */
  predicate IsLabel(s: seq<byte>) {
    forall i | 0 <= i < |s| :: 0 < s[i] < 128
  }

  type Name = s: seq<byte> | IsLabel(s) witness []

  /** One element of `library.json`; `key` is the folded source path. */
  datatype Entry = Entry(index: int, name: Name, key: string, sha: Digest, fnv: int)

  /** One dump found under the source directory. */
  datatype Dump = Dump(key: string, name: Name, data: seq<byte>)

  datatype Shelf = Shelf(entries: seq<Entry>, data: seq<seq<byte>>)

  datatype Reason = BadCatalogue | BadFigure | BadChecksum | NotAFigure | SourceChanged | TooMany | Collision

  // --------------------------------------------------------------------------
  // Display names

  function Cut(s: Name, n: nat): (r: Name)
    ensures |r| <= n
  {
    if |s| <= n then s else s[..n]
  }

  /** `f' {i:03d}'`. */
  function Suffix(i: nat): (r: Name)
    requires i < 1000
    ensures |r| == 4
  {
    [32, 48 + i / 100, 48 + i / 10 % 10, 48 + i % 10]
  }

  predicate Alone(names: seq<Name>, i: nat)
    requires i < |names|
  {
    forall j | 0 <= j < |names| && j != i :: names[j] != names[i]
  }

  /** A name nobody else has stays; the others are abbreviated to `keep` bytes and numbered. */
  function Display(names: seq<Name>, keep: nat, i: nat): Name
    requires i < |names| <= 1000
  {
    if Alone(names, i) then names[i] else Cut(names[i], keep) + Suffix(i)
  }

  function Displays(names: seq<Name>, keep: nat): (r: seq<Name>)
    requires |names| <= 1000
    ensures |r| == |names|
  {
    seq(|names|, i requires 0 <= i < |names| => Display(names, keep, i))
  }

  predicate Distinct<T(==)>(s: seq<T>) {
    forall i, j | 0 <= i < j < |s| :: s[i] != s[j]
  }

  lemma SuffixInjective(i: nat, j: nat)
    requires i < 1000 && j < 1000 && Suffix(i) == Suffix(j)
    ensures i == j
  {
    assert Suffix(i)[1] == Suffix(j)[1] && Suffix(i)[2] == Suffix(j)[2] && Suffix(i)[3] == Suffix(j)[3];
    ThreeDigits(i);
    ThreeDigits(j);
  }

  lemma NumberedDiffer(a: Name, i: nat, b: Name, j: nat)
    requires i < 1000 && j < 1000 && a + Suffix(i) == b + Suffix(j)
    ensures i == j
  {
    assert (a + Suffix(i))[|a|..] == Suffix(i) && (b + Suffix(j))[|b|..] == Suffix(j);
    SuffixInjective(i, j);
  }

  /** A repeated name whose numbered form is some other entry's own name. */
  predicate Clash(names: seq<Name>, keep: nat, i: nat, j: nat)
    requires i < |names| <= 1000 && j < |names|
  {
    !Alone(names, i) && Alone(names, j) && names[j] == Cut(names[i], keep) + Suffix(i)
  }

  predicate NoClash(names: seq<Name>, keep: nat)
    requires |names| <= 1000
  {
    forall i, j | 0 <= i < |names| && 0 <= j < |names| :: !Clash(names, keep, i, j)
  }

  /** The display names are distinct exactly when no entry is named like the numbered form of another. */
  lemma DistinctUnlessClash(names: seq<Name>, keep: nat)
    requires |names| <= 1000
    ensures Distinct(Displays(names, keep)) <==> NoClash(names, keep)
  {
    var d := Displays(names, keep);
    forall i, j | 0 <= i < |names| && 0 <= j < |names| && Clash(names, keep, i, j) ensures !Distinct(d) {
      assert d[i] == d[j] && i != j;
      assert i < j || j < i;
    }
    forall i, j | 0 <= i < j < |names| && d[i] == d[j]
      ensures exists a, b :: 0 <= a < |names| && 0 <= b < |names| && Clash(names, keep, a, b)
    {
      if !Alone(names, i) && !Alone(names, j) {
        NumberedDiffer(Cut(names[i], keep), i, Cut(names[j], keep), j);
      } else if !Alone(names, i) {
        assert Clash(names, keep, i, j);
      } else if !Alone(names, j) {
        assert Clash(names, keep, j, i);
      }
    }
  }

  /** `labels.count(labels[i]) == 1`. */
  method CountIsOne(names: seq<Name>, i: nat) returns (one: bool)
    requires i < |names|
    ensures one <==> Alone(names, i)
  {
    var n := 0;
    var j := 0;
    while j < |names|
      invariant 0 <= j <= |names|
      invariant n >= if i < j then 1 else 0
      invariant n == (if i < j then 1 else 0) <==> forall k | 0 <= k < j && k != i :: names[k] != names[i]
    {
      if names[j] == names[i] {
        n := n + 1;
      }
      j := j + 1;
    }
    one := n == 1;
  }

  method AllDisplays(names: seq<Name>, keep: nat) returns (r: seq<Name>)
    requires |names| <= 1000
    ensures r == Displays(names, keep)
  {
    r := [];
    var i := 0;
    while i < |names|
      invariant 0 <= i <= |names|
      invariant r == Displays(names, keep)[..i]
    {
      var one := CountIsOne(names, i);
      r := r + [if one then names[i] else Cut(names[i], keep) + Suffix(i)];
      i := i + 1;
    }
  }

  /** `len({...}) == len(entries)`. */
  method AllDistinct(s: seq<Name>) returns (r: bool)
    ensures r <==> Distinct(s)
  {
    var seen: set<Name> := {};
    var i := 0;
    while i < |s|
      invariant 0 <= i <= |s|
      invariant forall x :: x in seen <==> x in s[..i]
      invariant |seen| <= i && (|seen| == i <==> Distinct(s[..i]))
    {
      DistinctMore(s, i);
      seen := seen + {s[i]};
      i := i + 1;
    }
    assert s[..i] == s;
    r := |seen| == |s|;
  }

  lemma DistinctMore<T>(s: seq<T>, i: nat)
    requires i < |s|
    ensures Distinct(s[..i + 1]) <==> Distinct(s[..i]) && s[i] !in s[..i]
  {
    var a, b := s[..i], s[..i + 1];
    assert forall k | 0 <= k < i :: a[k] == b[k];
    assert b[i] == s[i];
  }

  // --------------------------------------------------------------------------
  // Extending

  function Names(entries: seq<Entry>, width: nat): (r: seq<Name>)
    ensures |r| == |entries|
  {
    seq(|entries|, i requires 0 <= i < |entries| => Cut(entries[i].name, width))
  }

  /** The entry describes these bytes at this position. */
  predicate Describes(e: Entry, i: int, b: seq<byte>, sha: seq<byte> -> Digest) {
    e.index == i && |b| == 1024 && sha(b) == e.sha && Fnv.Hash(b) == e.fnv
  }

  predicate Shelved(s: Shelf, sha: seq<byte> -> Digest) {
    |s.entries| == |s.data| && forall i | 0 <= i < |s.entries| :: Describes(s.entries[i], i, s.data[i], sha)
  }

  /** The checks on the existing catalogue file. */
  predicate HeaderAccepted(cat: seq<byte>, count: nat) {
    && |cat| == SIZE
    && FormatOf(Be32(cat, 0)).Some?
    && var f := FormatOf(Be32(cat, 0)).value;
    && Be32(cat, 4) == count <= Capacity(f)
    && Fnv.Hash(cat[HEAD..Offset(f, count)]) == Be32(cat, 8)
  }

  datatype Check = Fine | Refused(reason: Reason)

  /** The checks on each existing figure, in order. */
  function FiguresAccepted(entries: seq<Entry>, cat: Image, f: Format, files: map<nat, seq<byte>>,
      sha: seq<byte> -> Digest, i: nat): Check
    requires i <= |entries| <= Capacity(f)
    decreases |entries| - i
  {
    if i == |entries| then Fine
    else if i !in files || !Describes(entries[i], i, files[i], sha) then Refused(BadFigure)
    else if SourceHash(cat, f, i) != Fnv.Hash(files[i]) then Refused(BadChecksum)
    else FiguresAccepted(entries, cat, f, files, sha, i + 1)
  }

  function FirstWith(entries: seq<Entry>, key: string, i: nat): (r: nat)
    requires i <= |entries|
    ensures i <= r <= |entries|
    decreases |entries| - i
  {
    if i == |entries| || entries[i].key == key then i else FirstWith(entries, key, i + 1)
  }

  datatype Merge = Merged(shelf: Shelf) | Rejected(reason: Reason)

  /** One dump: refused, already there, or appended. */
  function AddDump(s: Shelf, d: Dump, sha: seq<byte> -> Digest): Merge {
    var k := FirstWith(s.entries, d.key, 0);
    if |d.data| != 1024 then Rejected(NotAFigure)
    else if k < |s.entries| then (if sha(d.data) != s.entries[k].sha then Rejected(SourceChanged) else Merged(s))
    else Merged(Shelf(s.entries + [Entry(|s.entries|, d.name, d.key, sha(d.data), Fnv.Hash(d.data))],
      s.data + [d.data]))
  }

  function AddDumps(s: Shelf, dumps: seq<Dump>, n: nat, sha: seq<byte> -> Digest): Merge
    requires n <= |dumps|
  {
    if n == 0 then Merged(s)
    else
      var m := AddDumps(s, dumps, n - 1, sha);
      if m.Rejected? then m else AddDump(m.shelf, dumps[n - 1], sha)
  }

  function LinesOf(entries: seq<Entry>, displays: seq<Name>): (r: seq<Line>)
    requires |displays| == |entries| && forall i | 0 <= i < |entries| :: 0 <= entries[i].fnv < TWO32
    ensures |r| == |entries|
  {
    seq(|entries|, i requires 0 <= i < |entries| => Line(entries[i].fnv, displays[i]))
  }

  datatype Outcome = Written(image: seq<byte>, shelf: Shelf) | Stopped(reason: Reason)

  /** The existing files as a shelf. */
  function Old(entries: seq<Entry>, files: map<nat, seq<byte>>): Shelf {
    Shelf(entries, seq(|entries|, i requires 0 <= i < |entries| => if i in files then files[i] else []))
  }

  lemma {:induction false} OldShelved(entries: seq<Entry>, cat: Image, f: Format, files: map<nat, seq<byte>>,
      sha: seq<byte> -> Digest, i: nat)
    requires i <= |entries| <= Capacity(f) && FiguresAccepted(entries, cat, f, files, sha, i).Fine?
    ensures forall k | i <= k < |entries| ::
      k in files && Describes(entries[k], k, files[k], sha) && SourceHash(cat, f, k) == Fnv.Hash(files[k])
    decreases |entries| - i
  {
    if i < |entries| {
      OldShelved(entries, cat, f, files, sha, i + 1);
    }
  }

  lemma {:induction false} AddDumpsShelves(s: Shelf, dumps: seq<Dump>, n: nat, sha: seq<byte> -> Digest)
    requires n <= |dumps| && Shelved(s, sha) && AddDumps(s, dumps, n, sha).Merged?
    ensures var t := AddDumps(s, dumps, n, sha).shelf; Shelved(t, sha) && s.entries <= t.entries && s.data <= t.data
  {
    if n > 0 {
      AddDumpsShelves(s, dumps, n - 1, sha);
    }
  }

  /** The display names fit their field. */
  lemma DisplaysFit(entries: seq<Entry>, width: nat, keep: nat)
    requires |entries| <= 1000 && keep + 4 <= width
    ensures forall i | 0 <= i < |entries| :: |Displays(Names(entries, width), keep)[i]| <= width
  {
  }

  function Finish(f: Format, width: nat, keep: nat, s: Shelf): Image
    requires |s.entries| <= Capacity(f) && width == LabelLength(f) && keep + 4 <= width
    requires forall i | 0 <= i < |s.entries| :: 0 <= s.entries[i].fnv < TWO32
  {
    DisplaysFit(s.entries, width, keep);
    ImageOf(f, LinesOf(s.entries, Displays(Names(s.entries, width), keep)))
  }

  /** The end of `extend`: the limit, the collision check and the new catalogue. */
  function Decided(s: Shelf): Outcome
    requires forall i | 0 <= i < |s.entries| :: 0 <= s.entries[i].fnv < TWO32
  {
    if |s.entries| > 640 then Stopped(TooMany)
    else if !Distinct(Displays(Names(s.entries, 19), 15)) then Stopped(Collision)
    else Written(Finish(Dense, 19, 15, s), s)
  }

  /** `extend`, once its destination is known to be new. */
  function Extended(entries: seq<Entry>, cat: seq<byte>, files: map<nat, seq<byte>>, dumps: seq<Dump>,
      sha: seq<byte> -> Digest): Outcome {
    if !HeaderAccepted(cat, |entries|) then Stopped(BadCatalogue)
    else
      var c := FiguresAccepted(entries, cat, FormatOf(Be32(cat, 0)).value, files, sha, 0);
      if c.Refused? then Stopped(c.reason)
      else
        OldShelved(entries, cat, FormatOf(Be32(cat, 0)).value, files, sha, 0);
        var m := AddDumps(Old(entries, files), dumps, |dumps|, sha);
        if m.Rejected? then Stopped(m.reason)
        else
          AddDumpsShelves(Old(entries, files), dumps, |dumps|, sha);
          Decided(m.shelf)
  }

  // --------------------------------------------------------------------------
  // What an extended library keeps

  /** Each index of a written catalogue reads back its figure's checksum and its zero-padded display name. */
  lemma FinishReadsBack(f: Format, width: nat, keep: nat, s: Shelf, sha: seq<byte> -> Digest, i: nat)
    requires |s.entries| <= Capacity(f) && width == LabelLength(f) && keep + 4 <= width
    requires Shelved(s, sha) && i < |s.entries|
    ensures var p, d := Finish(f, width, keep, s), Displays(Names(s.entries, width), keep);
      && SourceHash(p, f, i) == Fnv.Hash(s.data[i])
      && |d[i]| <= width && Label(p, f, i) == d[i] + Zeros(width - |d[i]|)
  {
    DisplaysFit(s.entries, width, keep);
    assert Describes(s.entries[i], i, s.data[i], sha);
    ImageReadsBack(f, LinesOf(s.entries, Displays(Names(s.entries, width), keep)), i);
  }

  /** Zero padding keeps different labels different. */
  lemma PaddingKeepsNames(a: Name, b: Name, n: nat)
    requires |a| <= n && |b| <= n
    ensures a + Zeros(n - |a|) == b + Zeros(n - |b|) <==> a == b
  {
    if |a| < |b| {
      LongerDiffers(a, b, n);
    } else if |b| < |a| {
      LongerDiffers(b, a, n);
    } else {
      assert (a + Zeros(n - |a|))[..|a|] == a && (b + Zeros(n - |b|))[..|b|] == b;
    }
  }

  lemma LongerDiffers(a: Name, b: Name, n: nat)
    requires |a| < |b| <= n
    ensures a + Zeros(n - |a|) != b + Zeros(n - |b|)
  {
    assert (a + Zeros(n - |a|))[|a|] == 0;
    assert (b + Zeros(n - |b|))[|a|] == b[|a|];
  }

  /**
    * Extending any accepted library of any format keeps every index: the first entries and their
    * figures are the old ones, and the portal reads the same checksum at each of their indices.
    */
  lemma IndicesAreStable(entries: seq<Entry>, cat: seq<byte>, files: map<nat, seq<byte>>, dumps: seq<Dump>,
      sha: seq<byte> -> Digest, i: nat)
    requires Extended(entries, cat, files, dumps, sha).Written? && i < |entries|
    ensures var r := Extended(entries, cat, files, dumps, sha);
      && |r.image| == SIZE == |cat| && FormatOf(Be32(cat, 0)).Some?
        && |entries| <= Capacity(FormatOf(Be32(cat, 0)).value)
      && i < |r.shelf.entries| <= 640 && i in files && i < |r.shelf.data|
      && r.shelf.entries[i] == entries[i] && r.shelf.data[i] == files[i]
      && SourceHash(r.image, Dense, i) == SourceHash(cat, FormatOf(Be32(cat, 0)).value, i) == Fnv.Hash(files[i])
  {
    var f, before := FormatOf(Be32(cat, 0)).value, Old(entries, files);
    OldShelved(entries, cat, f, files, sha, 0);
    AddDumpsShelves(before, dumps, |dumps|, sha);
    var s := AddDumps(before, dumps, |dumps|, sha).shelf;
    assert s.entries[i] == before.entries[i] && s.data[i] == before.data[i];
    FinishReadsBack(Dense, 19, 15, s, sha, i);
  }

  lemma {:induction false} NothingAdded(s: Shelf, dumps: seq<Dump>, n: nat, sha: seq<byte> -> Digest)
    requires n <= |dumps| && AddDumps(s, dumps, n, sha).Merged?
    ensures AddDumps(s, dumps, n, sha).shelf.entries == [] <==> s.entries == [] && n == 0
  {
    if n > 0 {
      NothingAdded(s, dumps, n - 1, sha);
    }
  }

  /**
    * The written catalogue passes the portal's own check exactly when there was an entry or a dump to
    * add; every index reads back its own figure's checksum and its own display name, padded with zeros
    * to 19 bytes.
    */
  lemma ExtendedReadsBack(entries: seq<Entry>, cat: seq<byte>, files: map<nat, seq<byte>>, dumps: seq<Dump>,
      sha: seq<byte> -> Digest, i: nat)
    requires Extended(entries, cat, files, dumps, sha).Written?
    ensures var r := Extended(entries, cat, files, dumps, sha);
      && |r.image| == SIZE && Shelved(r.shelf, sha) && |r.shelf.entries| <= 640
      && (Loads(r.image) <==> entries != [] || dumps != [])
      && (i < |r.shelf.entries| ==>
            && SourceHash(r.image, Dense, i) == Fnv.Hash(r.shelf.data[i])
            && var d := Displays(Names(r.shelf.entries, 19), 15);
            && |d[i]| <= 19 && Label(r.image, Dense, i) == d[i] + Zeros(19 - |d[i]|))
  {
    OldShelved(entries, cat, FormatOf(Be32(cat, 0)).value, files, sha, 0);
    AddDumpsShelves(Old(entries, files), dumps, |dumps|, sha);
    NothingAdded(Old(entries, files), dumps, |dumps|, sha);
    var s := Extended(entries, cat, files, dumps, sha).shelf;
    DisplaysFit(s.entries, 19, 15);
    ImageLoads(Dense, LinesOf(s.entries, Displays(Names(s.entries, 19), 15)));
    if i < |s.entries| {
      FinishReadsBack(Dense, 19, 15, s, sha, i);
    }
  }

  /** Every image a tool writes passes the checks on an existing catalogue file, also one without entries. */
  lemma ImageIsAccepted(f: Format, lines: seq<Line>)
    requires Fits(f, lines)
    ensures HeaderAccepted(ImageOf(f, lines), |lines|)
  {
    ImageWords(f, lines);
    ImageLoads(f, lines);
  }

  /** Two indices of a written catalogue read back the same label exactly when they display the same name. */
  lemma SameLabelSameName(f: Format, width: nat, keep: nat, s: Shelf, sha: seq<byte> -> Digest, i: nat, j: nat)
    requires |s.entries| <= Capacity(f) && width == LabelLength(f) && keep + 4 <= width
    requires Shelved(s, sha) && i < |s.entries| && j < |s.entries|
    ensures var p, d := Finish(f, width, keep, s), Displays(Names(s.entries, width), keep);
      Label(p, f, i) == Label(p, f, j) <==> d[i] == d[j]
  {
    var p, d := Finish(f, width, keep, s), Displays(Names(s.entries, width), keep);
    var x, y := d[i], d[j];
    assert |x| <= width && Label(p, f, i) == x + Zeros(width - |x|) by {
      FinishReadsBack(f, width, keep, s, sha, i);
    }
    assert |y| <= width && Label(p, f, j) == y + Zeros(width - |y|) by {
      FinishReadsBack(f, width, keep, s, sha, j);
    }
    PaddingKeepsNames(x, y, width);
  }

  function Labels(p: Image, f: Format, n: nat): (r: seq<seq<byte>>)
    requires n <= Capacity(f)
    ensures |r| == n
  {
    seq(n, i requires 0 <= i < n => Label(p, f, i))
  }

  predicate LabelsDistinct(p: Image, f: Format, n: nat)
    requires n <= Capacity(f)
  {
    Distinct(Labels(p, f, n))
  }

  lemma SameDistinct<T, U>(a: seq<T>, b: seq<U>)
    requires |a| == |b| && forall i, j | 0 <= i < j < |a| :: a[i] == a[j] <==> b[i] == b[j]
    ensures Distinct(a) <==> Distinct(b)
  {
  }

  lemma LabelsFollowNames(f: Format, width: nat, keep: nat, s: Shelf, sha: seq<byte> -> Digest)
    requires |s.entries| <= Capacity(f) && width == LabelLength(f) && keep + 4 <= width && Shelved(s, sha)
    ensures LabelsDistinct(Finish(f, width, keep, s), f, |s.entries|)
        <==> Distinct(Displays(Names(s.entries, width), keep))
  {
    var a, d := Labels(Finish(f, width, keep, s), f, |s.entries|), Displays(Names(s.entries, width), keep);
    forall i, j | 0 <= i < j < |a| ensures a[i] == a[j] <==> d[i] == d[j] {
      SameLabelSameName(f, width, keep, s, sha, i, j);
    }
    SameDistinct(a, d);
  }

  lemma DecidedLabels(s: Shelf, sha: seq<byte> -> Digest)
    requires Shelved(s, sha) && |s.entries| <= 640
    ensures forall i | 0 <= i < |s.entries| :: 0 <= s.entries[i].fnv < TWO32
    ensures var r := Decided(s);
      if NoClash(Names(s.entries, 19), 15)
      then r.Written? && |r.image| == SIZE && r.shelf == s && LabelsDistinct(r.image, Dense, |s.entries|)
      else r == Stopped(Collision)
  {
    forall i | 0 <= i < |s.entries| ensures 0 <= s.entries[i].fnv < TWO32 {
      assert Describes(s.entries[i], i, s.data[i], sha);
    }
    LabelsFollowNames(Dense, 19, 15, s, sha);
    DistinctUnlessClash(Names(s.entries, 19), 15);
  }

  /** The existing library passes every check on its files. */
  predicate Accepted(entries: seq<Entry>, cat: seq<byte>, files: map<nat, seq<byte>>, sha: seq<byte> -> Digest) {
    HeaderAccepted(cat, |entries|)
      && FiguresAccepted(entries, cat, FormatOf(Be32(cat, 0)).value, files, sha, 0).Fine?
  }

  lemma {:induction false} NoCollisionYet(entries: seq<Entry>, cat: Image, f: Format, files: map<nat, seq<byte>>,
      sha: seq<byte> -> Digest, i: nat)
    requires i <= |entries| <= Capacity(f)
    ensures FiguresAccepted(entries, cat, f, files, sha, i) != Refused(Collision)
    decreases |entries| - i
  {
    if i < |entries| {
      NoCollisionYet(entries, cat, f, files, sha, i + 1);
    }
  }

  lemma {:induction false} NoCollisionAdding(s: Shelf, dumps: seq<Dump>, n: nat, sha: seq<byte> -> Digest)
    requires n <= |dumps|
    ensures AddDumps(s, dumps, n, sha) != Rejected(Collision)
  {
    if n > 0 {
      NoCollisionAdding(s, dumps, n - 1, sha);
    }
  }

  /**
    * No two indices of an extended library read back the same label. The extension is refused for a
    * collision exactly when everything else is in order and an entry, old or new, is named like the
    * numbered form of another.
    */
  lemma ExtendedLabelsDistinct(entries: seq<Entry>, cat: seq<byte>, files: map<nat, seq<byte>>, dumps: seq<Dump>,
      sha: seq<byte> -> Digest)
    ensures var r, m := Extended(entries, cat, files, dumps, sha), AddDumps(Old(entries, files), dumps, |dumps|, sha);
      && (r.Written? ==>
            |r.image| == SIZE && |r.shelf.entries| <= 640 && LabelsDistinct(r.image, Dense, |r.shelf.entries|))
      && (r == Stopped(Collision) <==>
            && Accepted(entries, cat, files, sha) && m.Merged? && |m.shelf.entries| <= 640
            && !NoClash(Names(m.shelf.entries, 19), 15))
  {
    if HeaderAccepted(cat, |entries|) {
      NoCollisionYet(entries, cat, FormatOf(Be32(cat, 0)).value, files, sha, 0);
    }
    if Accepted(entries, cat, files, sha) {
      var m := AddDumps(Old(entries, files), dumps, |dumps|, sha);
      OldShelved(entries, cat, FormatOf(Be32(cat, 0)).value, files, sha, 0);
      NoCollisionAdding(Old(entries, files), dumps, |dumps|, sha);
      if m.Merged? {
        AddDumpsShelves(Old(entries, files), dumps, |dumps|, sha);
        if |m.shelf.entries| <= 640 {
          DecidedLabels(m.shelf, sha);
        }
      }
    }
  }

  /** Without entries and dumps there is nothing left to refuse. */
  lemma NothingIsWritten(entries: seq<Entry>, cat: seq<byte>, files: map<nat, seq<byte>>, dumps: seq<Dump>,
      sha: seq<byte> -> Digest)
    requires |entries| == |dumps| == 0 && HeaderAccepted(cat, |entries|)
    ensures Extended(entries, cat, files, dumps, sha).Written?
  {
    var s := AddDumps(Old(entries, files), dumps, |dumps|, sha).shelf;
    assert s == Old(entries, files) && NoClash(Names(s.entries, 19), 15);
    DecidedLabels(s, sha);
  }

  /** `extend` accepts its inputs, and the portal refuses what it writes. */
  predicate WritesRefused(entries: seq<Entry>, cat: seq<byte>, files: map<nat, seq<byte>>, dumps: seq<Dump>,
      sha: seq<byte> -> Digest)
  {
    var r := Extended(entries, cat, files, dumps, sha);
    r.Written? && |r.image| == SIZE && !Loads(r.image)
  }

  lemma NothingIsRefused(entries: seq<Entry>, cat: seq<byte>, files: map<nat, seq<byte>>, dumps: seq<Dump>,
      sha: seq<byte> -> Digest)
    requires |entries| == |dumps| == 0 && HeaderAccepted(cat, |entries|)
    ensures WritesRefused(entries, cat, files, dumps, sha)
  {
    NothingIsWritten(entries, cat, files, dumps, sha);
    ExtendedReadsBack(entries, cat, files, dumps, sha, 0);
  }

  /**
    * The refused catalogue is real: extending a library without entries by no dumps, from an image of
    * any format, passes every check of `extend` and writes a catalogue that the portal refuses.
    */
  lemma EmptyExtensionIsRefused(f: Format, lines: seq<Line>, entries: seq<Entry>, files: map<nat, seq<byte>>,
      dumps: seq<Dump>, sha: seq<byte> -> Digest)
    requires |lines| == |entries| == |dumps| == 0
    ensures WritesRefused(entries, ImageOf(f, lines), files, dumps, sha)
  {
    ImageIsAccepted(f, lines);
    NothingIsRefused(entries, ImageOf(f, lines), files, dumps, sha);
  }

  // --------------------------------------------------------------------------
  // Preparing

  function Collected(dumps: seq<Dump>, n: nat, sha: seq<byte> -> Digest): Merge
    requires n <= |dumps|
  {
    if n == 0 then Merged(Shelf([], []))
    else
      var m, d := Collected(dumps, n - 1, sha), dumps[n - 1];
      if m.Rejected? then m
      else if |d.data| != 1024 then Rejected(NotAFigure)
      else Merged(Shelf(m.shelf.entries + [Entry(n - 1, d.name, d.key, sha(d.data), Fnv.Hash(d.data))],
        m.shelf.data + [d.data]))
  }

  lemma {:induction false} CollectedShelves(dumps: seq<Dump>, n: nat, sha: seq<byte> -> Digest)
    requires n <= |dumps| && Collected(dumps, n, sha).Merged?
    ensures var s := Collected(dumps, n, sha).shelf;
      Shelved(s, sha) && |s.entries| == n && forall i | 0 <= i < n ::
            && s.data[i] == dumps[i].data
            && s.entries[i] == Entry(i, dumps[i].name, dumps[i].key, sha(dumps[i].data), Fnv.Hash(dumps[i].data))
  {
    if n > 0 {
      CollectedShelves(dumps, n - 1, sha);
    }
  }

  /** The labels as cut to their field, before any is numbered. */
  function Given(dumps: seq<Dump>): (r: seq<Name>)
    ensures |r| == |dumps|
  {
    seq(|dumps|, i requires 0 <= i < |dumps| => Cut(dumps[i].name, 47))
  }

  /** The entries as written, under their display names. */
  function Renamed(entries: seq<Entry>, names: seq<Name>): (r: seq<Entry>)
    requires |names| == |entries|
    ensures |r| == |entries|
  {
    seq(|entries|, i requires 0 <= i < |entries| => entries[i].(name := names[i]))
  }

  /** `prepare`: the wide format, and no check for colliding labels. */
  function Prepared(dumps: seq<Dump>, sha: seq<byte> -> Digest): Outcome {
    if !(0 < |dumps| <= 256) then Stopped(TooMany)
    else
      var m := Collected(dumps, |dumps|, sha);
      if m.Rejected? then Stopped(m.reason)
      else
        CollectedShelves(dumps, |dumps|, sha);
        Written(Finish(Wide, 47, 42, m.shelf),
                Shelf(Renamed(m.shelf.entries, Displays(Given(dumps), 42)), m.shelf.data))
  }

  /** Every prepared library loads, and every index reads back its own figure's checksum and display name. */
  lemma PreparedReadsBack(dumps: seq<Dump>, sha: seq<byte> -> Digest, i: nat)
    requires Prepared(dumps, sha).Written? && i < |dumps|
    ensures var r := Prepared(dumps, sha);
      && |r.image| == SIZE && Loads(r.image) && FormatOf(Be32(r.image, 0)) == Some(Wide)
      && |r.shelf.entries| == |r.shelf.data| == |dumps| <= 256 && r.shelf.data[i] == dumps[i].data
      && SourceHash(r.image, Wide, i) == Fnv.Hash(dumps[i].data)
      && var d := Displays(Given(dumps), 42);
      && r.shelf.entries[i] == Entry(i, d[i], dumps[i].key, sha(dumps[i].data), Fnv.Hash(dumps[i].data))
      && |d[i]| <= 47 && Label(r.image, Wide, i) == d[i] + Zeros(47 - |d[i]|)
  {
    CollectedShelves(dumps, |dumps|, sha);
    var s := Collected(dumps, |dumps|, sha).shelf;
    DisplaysFit(s.entries, 47, 42);
    ImageLoads(Wide, LinesOf(s.entries, Displays(Names(s.entries, 47), 42)));
    assert Names(s.entries, 47) == Given(dumps);
    FinishReadsBack(Wide, 47, 42, s, sha, i);
  }

  lemma {:induction false} CollectedAll(dumps: seq<Dump>, n: nat, sha: seq<byte> -> Digest)
    requires n <= |dumps|
    ensures Collected(dumps, n, sha).Merged? <==> forall i | 0 <= i < n :: |dumps[i].data| == 1024
  {
    if n > 0 {
      CollectedAll(dumps, n - 1, sha);
    }
  }

  /**
    * Any 1 to 256 dumps of 1024 bytes make a library. Its labels are distinct exactly when no dump is
    * named like the numbered form of another.
    */
  lemma PreparedDistinctUnlessClash(dumps: seq<Dump>, sha: seq<byte> -> Digest)
    ensures var r := Prepared(dumps, sha);
      && (r.Written? <==> 0 < |dumps| <= 256 && forall i | 0 <= i < |dumps| :: |dumps[i].data| == 1024)
      && (r.Written? ==>
            |r.image| == SIZE && (LabelsDistinct(r.image, Wide, |dumps|) <==> NoClash(Given(dumps), 42)))
  {
    CollectedAll(dumps, |dumps|, sha);
    if Prepared(dumps, sha).Written? {
      CollectedShelves(dumps, |dumps|, sha);
      var s := Collected(dumps, |dumps|, sha).shelf;
      assert Names(s.entries, 47) == Given(dumps);
      LabelsFollowNames(Wide, 47, 42, s, sha);
      DistinctUnlessClash(Names(s.entries, 47), 42);
    }
  }

  const SSA_A: Name := [83, 83, 65, 32, 65]

  /** The clash is real: dumps labelled `SSA A`, `SSA A` and `SSA A 000` leave two indices with one label. */
  lemma PreparedCanCollide(dumps: seq<Dump>, sha: seq<byte> -> Digest)
    requires |dumps| == 3 && forall i | 0 <= i < 3 :: |dumps[i].data| == 1024
    requires dumps[0].name == dumps[1].name == SSA_A && dumps[2].name == SSA_A + [32, 48, 48, 48]
    ensures var r := Prepared(dumps, sha);
      && r.Written? && |r.image| == SIZE
      && Label(r.image, Wide, 0) == Label(r.image, Wide, 2) == dumps[2].name + Zeros(38)
  {
    var names := Given(dumps);
    assert names == [SSA_A, SSA_A, SSA_A + [32, 48, 48, 48]];
    CollidingNames(names);
    assert Prepared(dumps, sha).Written? by {
      CollectedAll(dumps, 3, sha);
    }
    assert Label(Prepared(dumps, sha).image, Wide, 0) == names[2] + Zeros(38) by {
      PreparedReadsBack(dumps, sha, 0);
    }
    assert Label(Prepared(dumps, sha).image, Wide, 2) == names[2] + Zeros(38) by {
      PreparedReadsBack(dumps, sha, 2);
    }
  }

  lemma CollidingNames(names: seq<Name>)
    requires names == [SSA_A, SSA_A, SSA_A + [32, 48, 48, 48]]
    ensures Displays(names, 42)[0] == Displays(names, 42)[2] == names[2]
  {
    assert names[0] == names[1] && |names[0]| != |names[2]|;
    assert !Alone(names, 0) && Alone(names, 2);
    assert Suffix(0) == [32, 48, 48, 48];
  }

  // --------------------------------------------------------------------------
  // The two programs

  lemma {:induction false} RejectionStays(s: Shelf, dumps: seq<Dump>, k: nat, n: nat, sha: seq<byte> -> Digest)
    requires k <= n <= |dumps| && AddDumps(s, dumps, k, sha).Rejected?
    ensures AddDumps(s, dumps, n, sha) == AddDumps(s, dumps, k, sha)
  {
    if k < n {
      RejectionStays(s, dumps, k, n - 1, sha);
    }
  }

  /** The first entry with this source path. */
  method Find(entries: seq<Entry>, key: string) returns (k: nat)
    ensures k == FirstWith(entries, key, 0)
  {
    k := 0;
    while k < |entries| && entries[k].key != key
      invariant k <= |entries| && FirstWith(entries, key, k) == FirstWith(entries, key, 0)
    {
      k := k + 1;
    }
  }

  /** The loop over the existing figures. */
  method CheckFigures(entries: seq<Entry>, cat: Image, f: Format, files: map<nat, seq<byte>>, sha: seq<byte> -> Digest)
    returns (c: Check, data: seq<seq<byte>>)
    requires |entries| <= Capacity(f)
    ensures c == FiguresAccepted(entries, cat, f, files, sha, 0)
    ensures c.Fine? ==> data == Old(entries, files).data
  {
    data := [];
    var i := 0;
    while i < |entries|
      invariant 0 <= i <= |entries| && data == Old(entries, files).data[..i]
      invariant FiguresAccepted(entries, cat, f, files, sha, i) == FiguresAccepted(entries, cat, f, files, sha, 0)
    {
      if i !in files {
        return Refused(BadFigure), data;
      }
      var b := files[i];
      var hash := Fnv.ComputeHash(b);
      if entries[i].index != i || |b| != 1024 || sha(b) != entries[i].sha || hash != entries[i].fnv {
        return Refused(BadFigure), data;
      }
      if SourceHash(cat, f, i) != hash {
        return Refused(BadChecksum), data;
      }
      data := data + [b];
      i := i + 1;
    }
    c := Fine;
  }

  /** The loop over the dumps. */
  method Append(s: Shelf, dumps: seq<Dump>, sha: seq<byte> -> Digest) returns (m: Merge)
    ensures m == AddDumps(s, dumps, |dumps|, sha)
  {
    var entries, data := s.entries, s.data;
    var i := 0;
    while i < |dumps|
      invariant 0 <= i <= |dumps|
      invariant AddDumps(s, dumps, i, sha) == Merged(Shelf(entries, data))
    {
      var d := dumps[i];
      if |d.data| != 1024 {
        RejectionStays(s, dumps, i + 1, |dumps|, sha);
        return Rejected(NotAFigure);
      }
      var k := Find(entries, d.key);
      if k < |entries| {
        if sha(d.data) != entries[k].sha {
          RejectionStays(s, dumps, i + 1, |dumps|, sha);
          return Rejected(SourceChanged);
        }
      } else {
        var hash := Fnv.ComputeHash(d.data);
        entries := entries + [Entry(|entries|, d.name, d.key, sha(d.data), hash)];
        data := data + [d.data];
      }
      i := i + 1;
    }
    m := Merged(Shelf(entries, data));
  }

  /** `extend`. */
  method Extend(entries: seq<Entry>, cat: seq<byte>, files: map<nat, seq<byte>>, dumps: seq<Dump>,
      sha: seq<byte> -> Digest) returns (r: Outcome)
    ensures r == Extended(entries, cat, files, dumps, sha)
  {
    if !HeaderAccepted(cat, |entries|) {
      return Stopped(BadCatalogue);
    }
    var f := FormatOf(Be32(cat, 0)).value;
    var c, data := CheckFigures(entries, cat, f, files, sha);
    if c.Refused? {
      return Stopped(c.reason);
    }
    OldShelved(entries, cat, f, files, sha, 0);
    var m := Append(Shelf(entries, data), dumps, sha);
    if m.Rejected? {
      return Stopped(m.reason);
    }
    AddDumpsShelves(Old(entries, files), dumps, |dumps|, sha);
    if |m.shelf.entries| > 640 {
      return Stopped(TooMany);
    }
    var names := AllDisplays(Names(m.shelf.entries, 19), 15);
    var distinct := AllDistinct(names);
    if !distinct {
      return Stopped(Collision);
    }
    DisplaysFit(m.shelf.entries, 19, 15);
    var p := WriteImage(Dense, LinesOf(m.shelf.entries, names));
    r := Written(p[..], m.shelf);
  }

  lemma {:induction false} CollectionStops(dumps: seq<Dump>, k: nat, n: nat, sha: seq<byte> -> Digest)
    requires k <= n <= |dumps| && Collected(dumps, k, sha).Rejected?
    ensures Collected(dumps, n, sha) == Collected(dumps, k, sha)
  {
    if k < n {
      CollectionStops(dumps, k, n - 1, sha);
    }
  }

  /** The loop that numbers repeated labels. */
  method Rename(entries: seq<Entry>, names: seq<Name>) returns (r: seq<Entry>)
    requires |names| == |entries|
    ensures r == Renamed(entries, names)
  {
    r := [];
    var i := 0;
    while i < |entries|
      invariant 0 <= i <= |entries| && r == Renamed(entries, names)[..i]
    {
      r := r + [entries[i].(name := names[i])];
      i := i + 1;
    }
  }

  /** `prepare`. */
  method Prepare(dumps: seq<Dump>, sha: seq<byte> -> Digest) returns (r: Outcome)
    ensures r == Prepared(dumps, sha)
  {
    if !(0 < |dumps| <= 256) {
      return Stopped(TooMany);
    }
    var entries: seq<Entry>, data: seq<seq<byte>> := [], [];
    var i := 0;
    while i < |dumps|
      invariant 0 <= i <= |dumps|
      invariant Collected(dumps, i, sha) == Merged(Shelf(entries, data))
    {
      var d := dumps[i];
      if |d.data| != 1024 {
        CollectionStops(dumps, i + 1, |dumps|, sha);
        return Stopped(NotAFigure);
      }
      var hash := Fnv.ComputeHash(d.data);
      entries := entries + [Entry(i, d.name, d.key, sha(d.data), hash)];
      data := data + [d.data];
      i := i + 1;
    }
    CollectedShelves(dumps, |dumps|, sha);
    var names := AllDisplays(Names(entries, 47), 42);
    DisplaysFit(entries, 47, 42);
    var p := WriteImage(Wide, LinesOf(entries, names));
    assert Names(entries, 47) == Given(dumps);
    var named := Rename(entries, names);
    r := Written(p[..], Shelf(named, data));
  }
}
