/** Exactly which libraries and dumps `extend` accepts, what it adds, and that its results can be extended again. */
module Extension {
  import opened Words
  import opened HidSession
  import opened Catalogue
  import opened Library
  import Fnv

  // --------------------------------------------------------------------------
  // The existing library

  /** The file of a figure and its word in the catalogue are the ones its entry describes. */
  predicate IntactFigure(e: Entry, i: nat, b: seq<byte>, word: u32, sha: seq<byte> -> Digest) {
    && e.index == i && |b| == 1024 && sha(b) == e.sha && Fnv.Hash(b) == e.fnv && word == Fnv.Hash(b)
  }

  predicate IntactRecords(entries: seq<Entry>, cat: seq<byte>, files: map<nat, seq<byte>>, sha: seq<byte> -> Digest,
      capacity: nat, stride: nat, at: nat)
    requires |cat| == 16416 && at + 4 <= stride && 32 + capacity * stride <= 16416
  {
    && Be32(cat, 4) == |entries| <= capacity
    && HoldsChecksum(cat, 32 + |entries| * stride)
    && forall i: nat | i < |entries| :: FigureAt(entries, cat, files, sha, stride, at, i)
  }

  /** The figure of one entry, whose word lies `at` bytes into its record. */
  predicate FigureAt(entries: seq<Entry>, cat: seq<byte>, files: map<nat, seq<byte>>, sha: seq<byte> -> Digest,
      stride: nat, at: nat, i: nat)
    requires i < |entries|
  {
    i in files && IntactFigure(entries[i], i, files[i], WordAt(cat, 32 + i * stride + at), sha)
  }

  function WordAt(cat: seq<byte>, at: nat): u32 {
    if at + 4 <= |cat| then Be32(cat, at) else 0
  }

  /** A catalogue of 16416 bytes in one of the three formats, with its checksum and every figure intact. */
  predicate Intact(entries: seq<Entry>, cat: seq<byte>, files: map<nat, seq<byte>>, sha: seq<byte> -> Digest) {
    && |cat| == 16416
    && var magic := Be32(cat, 0);
    || (magic == 0x45313143 && IntactRecords(entries, cat, files, sha, 256, 64, 4))
    || (magic == 0x45313443 && IntactRecords(entries, cat, files, sha, 512, 32, 0))
    || (magic == 0x45313543 && IntactRecords(entries, cat, files, sha, 640, 24, 0))
  }

  lemma FigureIsIntact(entries: seq<Entry>, cat: Image, f: Format, files: map<nat, seq<byte>>,
      sha: seq<byte> -> Digest, i: nat)
    requires i < |entries| <= Capacity(f)
    ensures i in files && Describes(entries[i], i, files[i], sha) && SourceHash(cat, f, i) == Fnv.Hash(files[i])
        <==> FigureAt(entries, cat, files, sha, Stride(f), HashOffset(f), i)
  {
    OffsetIs(f, i);
  }

  lemma {:induction false} FiguresAreIntact(entries: seq<Entry>, cat: Image, f: Format, files: map<nat, seq<byte>>,
      sha: seq<byte> -> Digest, i: nat)
    requires i <= |entries| <= Capacity(f)
    ensures FiguresAccepted(entries, cat, f, files, sha, i).Fine? <==>
              forall k: nat | i <= k < |entries| :: FigureAt(entries, cat, files, sha, Stride(f), HashOffset(f), k)
    decreases |entries| - i
  {
    if i < |entries| {
      FiguresAreIntact(entries, cat, f, files, sha, i + 1);
      FigureIsIntact(entries, cat, f, files, sha, i);
    }
  }

  lemma RecordsAreIntact(entries: seq<Entry>, cat: Image, f: Format, files: map<nat, seq<byte>>,
      sha: seq<byte> -> Digest)
    requires FormatOf(Be32(cat, 0)) == Some(f)
    ensures Accepted(entries, cat, files, sha)
        <==> IntactRecords(entries, cat, files, sha, Capacity(f), Stride(f), HashOffset(f))
  {
    HeaderIsIntact(entries, cat, f);
    if |entries| <= Capacity(f) {
      FiguresAreIntact(entries, cat, f, files, sha, 0);
    }
  }

  lemma HeaderIsIntact(entries: seq<Entry>, cat: Image, f: Format)
    requires FormatOf(Be32(cat, 0)) == Some(f)
    ensures HeaderAccepted(cat, |entries|)
        <==> Be32(cat, 4) == |entries| <= Capacity(f) && HoldsChecksum(cat, 32 + |entries| * Stride(f))
  {
    OffsetIs(f, |entries|);
  }

  /** The checks of `extend` accept exactly the intact libraries. */
  lemma AcceptedIsIntact(entries: seq<Entry>, cat: seq<byte>, files: map<nat, seq<byte>>, sha: seq<byte> -> Digest)
    ensures Accepted(entries, cat, files, sha) <==> Intact(entries, cat, files, sha)
  {
    if |cat| == SIZE && FormatOf(Be32(cat, 0)).Some? {
      RecordsAreIntact(entries, cat, FormatOf(Be32(cat, 0)).value, files, sha);
    }
  }

  // --------------------------------------------------------------------------
  // The dumps

  /** The entry that a source path stands for: the first one with it. */
  predicate Keyed(entries: seq<Entry>, key: string, i: nat) {
    && i < |entries| && entries[i].key == key
    && forall j: nat | j < i :: entries[j].key != key
  }

  lemma {:induction false} FirstIsKeyed(entries: seq<Entry>, key: string, i: nat)
    requires i <= |entries| && forall j: nat | j < i :: entries[j].key != key
    ensures var k := FirstWith(entries, key, i);
      if k < |entries| then Keyed(entries, key, k) else forall j: nat | j < |entries| :: entries[j].key != key
    decreases |entries| - i
  {
    if i < |entries| && entries[i].key != key {
      FirstIsKeyed(entries, key, i + 1);
    }
  }

  /** A dump of 1024 bytes whose source path, if it is there already, stands for the same bytes. */
  predicate Agrees(s: Shelf, dumps: seq<Dump>, k: nat, sha: seq<byte> -> Digest)
    requires k < |dumps|
  {
    var d := dumps[k];
    && |d.data| == 1024
    && (forall i: nat | i < |s.entries| && Keyed(s.entries, d.key, i) :: s.entries[i].sha == sha(d.data))
    && forall j: nat | j < k && dumps[j].key == d.key :: sha(dumps[j].data) == sha(d.data)
  }

  /** The dump's path stands for its bytes in the result. */
  predicate IsThere(t: Shelf, d: Dump, sha: seq<byte> -> Digest) {
    exists i: nat :: i < |t.entries| && Keyed(t.entries, d.key, i) && t.entries[i].sha == sha(d.data)
  }

  /** A new entry describes one of the dumps, under a path that no earlier entry has. */
  predicate IsNew(t: Shelf, i: nat, dumps: seq<Dump>, n: nat, sha: seq<byte> -> Digest)
    requires i < |t.entries| == |t.data| && n <= |dumps|
  {
    exists k: nat :: k < n && Stores(t, i, dumps[k], sha)
  }

  predicate Stores(t: Shelf, i: nat, d: Dump, sha: seq<byte> -> Digest)
    requires i < |t.entries| == |t.data|
  {
    && t.entries[i] == Entry(i, d.name, d.key, sha(d.data), Fnv.Hash(d.data)) && t.data[i] == d.data
    && Keyed(t.entries, d.key, i)
  }

  /** The result of adding `n` dumps: the old entries, and after them new ones for what was not there. */
  predicate Adds(s: Shelf, dumps: seq<Dump>, n: nat, sha: seq<byte> -> Digest, t: Shelf)
    requires n <= |dumps|
  {
    && s.entries <= t.entries && s.data <= t.data && |t.entries| == |t.data|
    && (forall k: nat | k < n :: IsThere(t, dumps[k], sha))
    && forall i: nat | |s.entries| <= i < |t.entries| :: IsNew(t, i, dumps, n, sha)
  }

  lemma KeyedIsOne(entries: seq<Entry>, key: string, i: nat, j: nat)
    requires Keyed(entries, key, i) && Keyed(entries, key, j)
    ensures i == j
  {
  }

  lemma KeyedStays(entries: seq<Entry>, more: seq<Entry>, key: string, i: nat)
    requires entries <= more && i < |entries|
    ensures Keyed(entries, key, i) <==> Keyed(more, key, i)
  {
    assert forall j: nat | j <= i :: entries[j] == more[j];
  }

  lemma StoresStays(t: Shelf, u: Shelf, i: nat, d: Dump, sha: seq<byte> -> Digest)
    requires t.entries <= u.entries && t.data <= u.data && |t.entries| == |t.data| && |u.entries| == |u.data|
    requires i < |t.entries| && Stores(t, i, d, sha)
    ensures Stores(u, i, d, sha)
  {
    KeyedStays(t.entries, u.entries, d.key, i);
  }

  lemma IsThereStays(t: Shelf, u: Shelf, d: Dump, sha: seq<byte> -> Digest)
    requires t.entries <= u.entries && IsThere(t, d, sha)
    ensures IsThere(u, d, sha)
  {
    var i: nat :| i < |t.entries| && Keyed(t.entries, d.key, i) && t.entries[i].sha == sha(d.data);
    KeyedStays(t.entries, u.entries, d.key, i);
    assert u.entries[i] == t.entries[i];
  }

  /** An accepted dump is there already, or is the one new entry. */
  lemma OneIsThere(t: Shelf, d: Dump, sha: seq<byte> -> Digest)
    requires |t.entries| == |t.data| && AddDump(t, d, sha).Merged?
    ensures var u := AddDump(t, d, sha).shelf;
      && IsThere(u, d, sha) && |u.entries| == |u.data|
      && (u == t || (|u.entries| == |t.entries| + 1 && t.entries <= u.entries && t.data <= u.data
                     && Stores(u, |t.entries|, d, sha)))
  {
    var u := AddDump(t, d, sha).shelf;
    FirstIsKeyed(t.entries, d.key, 0);
    if FirstWith(t.entries, d.key, 0) == |t.entries| {
      assert Keyed(u.entries, d.key, |t.entries|);
    }
  }

  lemma AddsOne(s: Shelf, dumps: seq<Dump>, n: nat, sha: seq<byte> -> Digest, t: Shelf)
    requires n < |dumps| && Adds(s, dumps, n, sha, t) && AddDump(t, dumps[n], sha).Merged?
    ensures Adds(s, dumps, n + 1, sha, AddDump(t, dumps[n], sha).shelf)
  {
    var d, u, m := dumps[n], AddDump(t, dumps[n], sha).shelf, n + 1;
    OneIsThere(t, d, sha);
    forall k: nat | k < n ensures IsThere(u, dumps[k], sha) {
      IsThereStays(t, u, dumps[k], sha);
    }
    assert |u.entries| > |t.entries| ==> IsNew(u, |t.entries|, dumps, m, sha);
    forall i: nat | |s.entries| <= i < |t.entries| ensures IsNew(u, i, dumps, m, sha) {
      assert IsNew(t, i, dumps, n, sha);
      var k: nat :| k < n && Stores(t, i, dumps[k], sha);
      StoresStays(t, u, i, dumps[k], sha);
    }
  }

  /** Whatever is added is one of the dumps, and every dump is there afterwards. */
  lemma {:induction false} DumpsAreAdded(s: Shelf, dumps: seq<Dump>, n: nat, sha: seq<byte> -> Digest)
    requires n <= |dumps| && |s.entries| == |s.data| && AddDumps(s, dumps, n, sha).Merged?
    ensures Adds(s, dumps, n, sha, AddDumps(s, dumps, n, sha).shelf)
  {
    if n > 0 {
      DumpsAreAdded(s, dumps, n - 1, sha);
      AddsOne(s, dumps, n - 1, sha, AddDumps(s, dumps, n - 1, sha).shelf);
    }
  }

  /** One more dump is accepted exactly if it agrees with the entries and the dumps before it. */
  lemma AcceptedIsAgreed(s: Shelf, dumps: seq<Dump>, n: nat, sha: seq<byte> -> Digest, t: Shelf)
    requires n < |dumps| && Adds(s, dumps, n, sha, t)
    ensures AddDump(t, dumps[n], sha).Merged? <==> Agrees(s, dumps, n, sha)
  {
    var d := dumps[n];
    var k := FirstWith(t.entries, d.key, 0);
    FirstIsKeyed(t.entries, d.key, 0);
    forall i: nat | i < |s.entries| && Keyed(s.entries, d.key, i) ensures i == k && t.entries[i] == s.entries[i] {
      KeyedStays(s.entries, t.entries, d.key, i);
      KeyedIsOne(t.entries, d.key, i, k);
    }
    forall j: nat | j < n && dumps[j].key == d.key
      ensures k < |t.entries| && t.entries[k].sha == sha(dumps[j].data)
    {
      assert IsThere(t, dumps[j], sha);
      var i: nat :| i < |t.entries| && Keyed(t.entries, d.key, i) && t.entries[i].sha == sha(dumps[j].data);
      KeyedIsOne(t.entries, d.key, i, k);
    }
    if k < |t.entries| {
      if k < |s.entries| {
        KeyedStays(s.entries, t.entries, d.key, k);
      } else {
        assert IsNew(t, k, dumps, n, sha);
      }
    }
  }

  lemma {:induction false} MergedExactly(s: Shelf, dumps: seq<Dump>, n: nat, sha: seq<byte> -> Digest)
    requires n <= |dumps| && |s.entries| == |s.data|
    ensures AddDumps(s, dumps, n, sha).Merged? <==> forall k: nat | k < n :: Agrees(s, dumps, k, sha)
  {
    if n > 0 {
      var last := n - 1;
      var m := AddDumps(s, dumps, last, sha);
      MergedExactly(s, dumps, last, sha);
      if m.Merged? {
        assert AddDump(m.shelf, dumps[last], sha).Merged? <==> Agrees(s, dumps, last, sha) by {
          DumpsAreAdded(s, dumps, last, sha);
          AcceptedIsAgreed(s, dumps, last, sha, m.shelf);
        }
      }
    }
  }

  // --------------------------------------------------------------------------
  // The whole program

  /** The old figures and, after them, the dumps that were not there, with distinct display names. */
  predicate Extends(entries: seq<Entry>, files: map<nat, seq<byte>>, dumps: seq<Dump>, sha: seq<byte> -> Digest,
      t: Shelf)
  {
    && Adds(Old(entries, files), dumps, |dumps|, sha, t)
    && |t.entries| <= 640 && NoClash(Names(t.entries, 19), 15)
  }

  /**
    * `extend` writes a library exactly if the existing one is intact, every dump agrees with it and with
    * the dumps before, and the result has at most 640 figures with distinct display names.
    */
  lemma ExtendsExactly(entries: seq<Entry>, cat: seq<byte>, files: map<nat, seq<byte>>, dumps: seq<Dump>,
      sha: seq<byte> -> Digest)
    ensures var r, m := Extended(entries, cat, files, dumps, sha), AddDumps(Old(entries, files), dumps, |dumps|, sha);
      && (r.Written? ==> Extends(entries, files, dumps, sha, r.shelf))
      && (r.Written? <==>
            && Intact(entries, cat, files, sha)
            && (forall k: nat | k < |dumps| :: Agrees(Old(entries, files), dumps, k, sha))
            && (m.Merged? ==> Extends(entries, files, dumps, sha, m.shelf)))
  {
    AcceptedIsIntact(entries, cat, files, sha);
    MergedExactly(Old(entries, files), dumps, |dumps|, sha);
    var m := AddDumps(Old(entries, files), dumps, |dumps|, sha);
    if Accepted(entries, cat, files, sha) && m.Merged? {
      DumpsAreAdded(Old(entries, files), dumps, |dumps|, sha);
      OldShelved(entries, cat, FormatOf(Be32(cat, 0)).value, files, sha, 0);
      AddDumpsShelves(Old(entries, files), dumps, |dumps|, sha);
      if |m.shelf.entries| <= 640 {
        DecidedLabels(m.shelf, sha);
      }
    }
  }

  // --------------------------------------------------------------------------
  // Extending what was written

  /** The figure files of a library as a directory. */
  function Files(s: Shelf): map<nat, seq<byte>> {
    map i: nat | i < |s.data| :: s.data[i]
  }

  lemma {:induction false} WrittenFigures(s: Shelf, cat: Image, f: Format, sha: seq<byte> -> Digest, i: nat)
    requires Shelved(s, sha) && i <= |s.entries| <= Capacity(f)
    requires forall k: nat | k < |s.entries| :: SourceHash(cat, f, k) == Fnv.Hash(s.data[k])
    ensures FiguresAccepted(s.entries, cat, f, Files(s), sha, i).Fine?
    decreases |s.entries| - i
  {
    if i < |s.entries| {
      WrittenFigures(s, cat, f, sha, i + 1);
      assert Describes(s.entries[i], i, s.data[i], sha);
    }
  }

  /** What `extend` wrote is intact, so it can be extended again. */
  lemma ExtendedIsIntact(entries: seq<Entry>, cat: seq<byte>, files: map<nat, seq<byte>>, dumps: seq<Dump>,
      sha: seq<byte> -> Digest)
    requires Extended(entries, cat, files, dumps, sha).Written?
    ensures var r := Extended(entries, cat, files, dumps, sha); Intact(r.shelf.entries, r.image, Files(r.shelf), sha)
  {
    var s, image := Extended(entries, cat, files, dumps, sha).shelf, Extended(entries, cat, files, dumps, sha).image;
    ExtendedReadsBack(entries, cat, files, dumps, sha, 0);
    DisplaysFit(s.entries, 19, 15);
    WrittenIsIntact(s, image, Dense, LinesOf(s.entries, Displays(Names(s.entries, 19), 15)), sha);
  }

  lemma WrittenIsIntact(s: Shelf, image: seq<byte>, f: Format, lines: seq<Line>, sha: seq<byte> -> Digest)
    requires Shelved(s, sha) && |lines| == |s.entries| && Fits(f, lines) && image == ImageOf(f, lines)
    requires forall k: nat | k < |lines| :: lines[k].hash == Fnv.Hash(s.data[k])
    ensures Intact(s.entries, image, Files(s), sha)
  {
    ImageIsAccepted(f, lines);
    ImageLoads(f, lines);
    forall k: nat | k < |lines| ensures SourceHash(image, f, k) == Fnv.Hash(s.data[k]) {
      ImageReadsBack(f, lines, k);
    }
    WrittenFigures(s, image, f, sha, 0);
    AcceptedIsIntact(s.entries, image, Files(s), sha);
  }

  /** What `prepare` wrote is intact, so it can be extended. */
  lemma PreparedIsIntact(dumps: seq<Dump>, sha: seq<byte> -> Digest)
    requires Prepared(dumps, sha).Written?
    ensures var r := Prepared(dumps, sha); Intact(r.shelf.entries, r.image, Files(r.shelf), sha)
  {
    var r, s := Prepared(dumps, sha), Collected(dumps, |dumps|, sha).shelf;
    CollectedShelves(dumps, |dumps|, sha);
    DisplaysFit(s.entries, 47, 42);
    var lines := LinesOf(s.entries, Displays(Names(s.entries, 47), 42));
    assert Shelved(r.shelf, sha) by {
      forall i | 0 <= i < |s.entries| ensures Describes(r.shelf.entries[i], i, r.shelf.data[i], sha) {
        assert Describes(s.entries[i], i, s.data[i], sha);
      }
    }
    WrittenIsIntact(r.shelf, r.image, Wide, lines, sha);
  }
}
