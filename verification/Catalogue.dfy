/** The catalogue file: three record formats, the image the library tools write, and the portal's reader. */
module Catalogue {
  import opened Words
  import opened HidSession
  import Fnv

  const SIZE := 16416
  const HEAD := 32

  type Image = s: seq<byte> | |s| == SIZE witness Zeros(SIZE)

  /** The formats with magic `E11C`, `E14C` and `E15C`. */
  datatype Format = Wide | Compact | Dense

  function Magic(f: Format): u32 {
    match f case Wide => 0x45313143 case Compact => 0x45313443 case Dense => 0x45313543
  }

  function Stride(f: Format): nat {
    match f case Wide => 64 case Compact => 32 case Dense => 24
  }

  function Capacity(f: Format): nat {
    match f case Wide => 256 case Compact => 512 case Dense => 640
  }

  function LabelLength(f: Format): nat {
    match f case Wide => 47 case Compact => 27 case Dense => 19
  }

  /** Only the wide format stores the index, in front of the checksum. */
  function HashOffset(f: Format): nat {
    if f.Wide? then 4 else 0
  }

  function FormatOf(magic: u32): Option<Format> {
    if magic == Magic(Wide) then Some(Wide)
    else if magic == Magic(Compact) then Some(Compact)
    else if magic == Magic(Dense) then Some(Dense)
    else None
  }

  /** Where the records end after the first `i`. */
  function Offset(f: Format, i: nat): nat {
    match f case Wide => HEAD + i * 64 case Compact => HEAD + i * 32 case Dense => HEAD + i * 24
  }

  // --------------------------------------------------------------------------
  // Reading

  predicate RecordOk(p: Image, f: Format, i: nat)
    requires i < Capacity(f)
  {
    (f.Wide? ==> Be32(p, Offset(f, i)) == i) && p[Offset(f, i) + Stride(f) - 1] == 0
  }

  predicate Sound(p: Image, f: Format) {
    var n := Be32(p, 4);
    && 0 < n <= Capacity(f)
    && Be32(p, 8) == Fnv.Hash(p[HEAD..Offset(f, n)])
    && forall i | 0 <= i < n :: RecordOk(p, f, i)
  }

  /** What `e11_catalog_load` accepts. */
  predicate Loads(p: Image) {
    FormatOf(Be32(p, 0)).Some? && Sound(p, FormatOf(Be32(p, 0)).value)
  }

  /** `e11_source_hash`. */
  function SourceHash(p: Image, f: Format, i: nat): u32
    requires i < Capacity(f)
  {
    Be32(p, Offset(f, i) + HashOffset(f))
  }

  /** The bytes `e11_label` copies. */
  function Label(p: Image, f: Format, i: nat): (r: seq<byte>)
    requires i < Capacity(f)
    ensures |r| == LabelLength(f)
  {
    p[Offset(f, i) + HashOffset(f) + 4..Offset(f, i) + HashOffset(f) + 4 + LabelLength(f)]
  }

  datatype Read = Failed(code: int) | Complete(image: Image)

  class Reader {
    const catalog: array<byte>
    var compact: nat

    ghost predicate Valid()
      reads this
    {
      catalog.Length == SIZE && compact < 3
    }

    /** The format `e11_compact` stands for. */
    function Kind(): Format
      requires Valid()
      reads this
    {
      if compact == 2 then Dense else if compact == 1 then Compact else Wide
    }

    constructor ()
      ensures Valid() && fresh(catalog)
    {
      catalog := new byte[SIZE](_ => 0);
      compact := 0;
    }

    method Store(image: Image)
      requires Valid()
      modifies catalog
      ensures catalog[..] == image
    {
      var i := 0;
      while i < SIZE
        invariant 0 <= i <= SIZE && catalog[..i] == image[..i]
      {
        catalog[i] := image[i];
        i := i + 1;
      }
    }

    /** `e11_catalog_load` from its read on. */
    method Load(read: Read) returns (r: int)
      requires Valid() && (read.Failed? ==> read.code < 0)
      modifies this`compact, catalog
      ensures Valid()
      ensures match read
              case Failed(code) => r == code && compact == old(compact)
              case Complete(image) => catalog[..] == image && (r == 0 <==> Loads(image)) && (r == 0 || r == -4)
      ensures r == 0 ==> Some(Kind()) == FormatOf(Be32(catalog[..], 0))
    {
      if read.Failed? {
        return read.code;
      }
      Store(read.image);
      ghost var p: Image := catalog[..];
      var n, magic := Be32(catalog[..], 4), Be32(catalog[..], 0);
      var kind := if magic == 0x45313543 then 2 else if magic == 0x45313443 then 1 else 0;
      var stride := if kind == 2 then 24 else if kind == 1 then 32 else 64;
      if (kind == 0 && magic != 0x45313143) || n == 0
          || n > (if kind == 2 then 640 else if kind == 1 then 512 else 256) {
        return -4;
      }
      ghost var f := FormatOf(magic).value;
      assert stride == Stride(f) && HEAD + n * stride == Offset(f, n);
      var hash := Fnv.ComputeHash(catalog[32..32 + n * stride]);
      if Be32(catalog[..], 8) != hash {
        return -4;
      }
      r := CheckRecords(f, n, kind, stride);
      if r == 0 {
        compact := kind;
      }
    }

    /** The loop over the records. */
    method CheckRecords(ghost f: Format, n: nat, kind: nat, stride: nat) returns (r: int)
      requires Valid() && n <= Capacity(f) && stride == Stride(f) && (kind == 0 <==> f.Wide?)
      ensures r == 0 || r == -4
      ensures r == 0 <==> forall i | 0 <= i < n :: RecordOk(catalog[..], f, i)
    {
      var i := 0;
      while i < n
        invariant 0 <= i <= n
        invariant forall j | 0 <= j < i :: RecordOk(catalog[..], f, j)
      {
        assert Offset(f, i) == 32 + i * stride;
        var p := catalog[..];
        if (kind == 0 && Be32(p, 32 + i * stride) != i) || p[32 + i * stride + stride - 1] != 0 {
          assert !RecordOk(catalog[..], f, i);
          return -4;
        }
        i := i + 1;
      }
      r := 0;
    }

    /** `e11_source_hash`. */
    method GetHash(id: nat) returns (h: u32)
      requires Valid() && id < Capacity(Kind())
      ensures h == SourceHash(catalog[..], Kind(), id)
    {
      var at := 32 + id * (if compact == 2 then 24 else if compact == 1 then 32 else 64) + if compact != 0 then 0
        else 4;
      h := Be32(catalog[..], at);
    }

    /** `e11_label` into a cleared field of the reply. */
    method GetLabel(dst: array<byte>, id: nat)
      requires Valid() && id < Capacity(Kind()) && dst.Length == 48 && dst != catalog
      modifies dst
      ensures dst[..] == Label(catalog[..], Kind(), id) + old(dst[LabelLength(Kind())..])
    {
      var at := 32 + id * (if compact == 2 then 24 else if compact == 1 then 32 else 64) + if compact != 0 then 4
        else 8;
      var len := if compact == 2 then 19 else if compact == 1 then 27 else 47;
      var i := 0;
      while i < len
        invariant 0 <= i <= len
        invariant dst[..i] == catalog[at..at + i]
        invariant forall j | i <= j < 48 :: dst[j] == old(dst[j])
        modifies dst
      {
        dst[i] := catalog[at + i];
        i := i + 1;
      }
      assert catalog[at..at + len] == Label(catalog[..], Kind(), id) by {
        assert at == Offset(Kind(), id) + HashOffset(Kind()) + 4 && len == LabelLength(Kind());
        assert catalog[at..at + len] == catalog[..][at..at + len];
      }
      assert dst[len..] == old(dst[len..]);
      assert dst[..] == dst[..len] + dst[len..];
    }
  }

  // --------------------------------------------------------------------------
  // Writing

  /** One catalogue entry as the tools write it. */
  datatype Line = Line(hash: u32, name: seq<byte>)

  predicate Fits(f: Format, lines: seq<Line>) {
    |lines| <= Capacity(f) && forall i | 0 <= i < |lines| :: |lines[i].name| <= LabelLength(f)
  }

  /** The index word, which only wide records have. */
  function Index(f: Format, i: u32): (r: seq<byte>)
    ensures |r| == HashOffset(f)
  {
    if f.Wide? then Put32(i) else []
  }

  function Record(f: Format, i: u32, line: Line): (r: seq<byte>)
    requires |line.name| <= LabelLength(f)
    ensures |r| == Stride(f)
  {
    Index(f, i) + Put32(line.hash) + line.name + Zeros(Stride(f) - HashOffset(f) - 4 - |line.name|)
  }

  predicate Sized(f: Format, records: seq<seq<byte>>) {
    |records| <= Capacity(f) && forall k | 0 <= k < |records| :: |records[k]| == Stride(f)
  }

  function Records(f: Format, lines: seq<Line>): (r: seq<seq<byte>>)
    requires Fits(f, lines)
    ensures |r| == |lines| && Sized(f, r)
  {
    seq(|lines|, i requires 0 <= i < |lines| => Record(f, i, lines[i]))
  }

  function Join(f: Format, records: seq<seq<byte>>, n: nat): (r: seq<byte>)
    requires Sized(f, records) && n <= |records|
    ensures |r| == Offset(f, n) - HEAD
  {
    if n == 0 then [] else Join(f, records, n - 1) + records[n - 1]
  }

  function ImageOf(f: Format, lines: seq<Line>): (r: Image)
    requires Fits(f, lines)
  {
    var body := Join(f, Records(f, lines), |lines|);
    Put32(Magic(f)) + Put32(|lines|) + Put32(Fnv.Hash(body)) + Zeros(20) + body + Zeros(SIZE - HEAD - |body|)
  }

  /** Where record `i` lies in the body. */
  function First(f: Format, i: nat): nat {
    Offset(f, i) - HEAD
  }

  lemma {:induction false} JoinAt(f: Format, records: seq<seq<byte>>, n: nat, i: nat)
    requires Sized(f, records) && i < n <= |records|
    ensures First(f, i) <= First(f, i + 1) <= |Join(f, records, n)|
    ensures Join(f, records, n)[First(f, i)..First(f, i + 1)] == records[i]
  {
    SliceOfSum(Join(f, records, n - 1), records[n - 1], First(f, i), First(f, i + 1));
    if i < n - 1 {
      JoinAt(f, records, n - 1, i);
    }
  }

  lemma SliceOfSum(a: seq<byte>, b: seq<byte>, first: nat, last: nat)
    requires first <= last <= |a| + |b|
    ensures last <= |a| ==> (a + b)[first..last] == a[first..last]
    ensures first == |a| && last == |a| + |b| ==> (a + b)[first..last] == b
  {
  }

  lemma ImageWords(f: Format, lines: seq<Line>)
    requires Fits(f, lines)
    ensures var p := ImageOf(f, lines);
      && Be32(p, 0) == Magic(f) && Be32(p, 4) == |lines|
      && p[HEAD..Offset(f, |lines|)] == Join(f, Records(f, lines), |lines|)
        && Be32(p, 8) == Fnv.Hash(p[HEAD..Offset(f, |lines|)])
  {
    var p, body := ImageOf(f, lines), Join(f, Records(f, lines), |lines|);
    assert p[0..4] == Put32(Magic(f)) && p[4..8] == Put32(|lines|) && p[8..12] == Put32(Fnv.Hash(body));
    Be32At(p, 0, Magic(f));
    Be32At(p, 4, |lines|);
    Be32At(p, 8, Fnv.Hash(body));
  }

  lemma ImageRecord(f: Format, lines: seq<Line>, i: nat)
    requires Fits(f, lines) && i < |lines|
    ensures ImageOf(f, lines)[Offset(f, i)..Offset(f, i + 1)] == Record(f, i, lines[i])
  {
    var p, body := ImageOf(f, lines), Join(f, Records(f, lines), |lines|);
    assert p[HEAD..HEAD + |body|] == body by {
      ImageWords(f, lines);
    }
    JoinAt(f, Records(f, lines), |lines|, i);
    SliceOfSlice(p, HEAD, body, Offset(f, i) - HEAD, Offset(f, i + 1) - HEAD);
  }

  lemma SliceOfSlice(p: seq<byte>, at: nat, r: seq<byte>, first: nat, last: nat)
    requires at + |r| <= |p| && p[at..at + |r|] == r && first <= last <= |r|
    ensures p[at + first..at + last] == r[first..last]
  {
    forall k | 0 <= k < last - first ensures p[at + first..at + last][k] == r[first..last][k] {
      assert p[at..at + |r|][first + k] == p[at + (first + k)];
    }
  }

  /** Every index reads back its checksum and its zero-padded label, and its record passes the reader's checks. */
  lemma ImageReadsBack(f: Format, lines: seq<Line>, i: nat)
    requires Fits(f, lines) && i < |lines|
    ensures var p := ImageOf(f, lines);
      && RecordOk(p, f, i) && SourceHash(p, f, i) == lines[i].hash
      && Label(p, f, i) == lines[i].name + Zeros(LabelLength(f) - |lines[i].name|)
  {
    ImageRecord(f, lines, i);
    RecordReadsBack(ImageOf(f, lines), f, i, lines[i]);
  }

  lemma RecordReadsBack(p: Image, f: Format, i: nat, line: Line)
    requires i < Capacity(f) && |line.name| <= LabelLength(f)
    requires p[Offset(f, i)..Offset(f, i) + Stride(f)] == Record(f, i, line)
    ensures RecordOk(p, f, i) && SourceHash(p, f, i) == line.hash
    ensures Label(p, f, i) == line.name + Zeros(LabelLength(f) - |line.name|)
  {
    var at, h, n, r := Offset(f, i), HashOffset(f), LabelLength(f), Record(f, i, line);
    RecordParts(f, i, line);
    SliceOfSlice(p, at, r, h, h + 4);
    Be32At(p, at + h, line.hash);
    if f.Wide? {
      SliceOfSlice(p, at, r, 0, 4);
      Be32At(p, at, i);
    }
    SliceOfSlice(p, at, r, h + 4, h + 4 + n);
    SliceOfSlice(p, at, r, Stride(f) - 1, Stride(f));
    assert p[at + (Stride(f) - 1)..at + Stride(f)][0] == p[at + Stride(f) - 1];
  }

  lemma RecordParts(f: Format, i: u32, line: Line)
    requires |line.name| <= LabelLength(f)
    ensures var r, h := Record(f, i, line), HashOffset(f);
      && (f.Wide? ==> r[0..4] == Put32(i)) && r[h..h + 4] == Put32(line.hash)
      && r[h + 4..h + 4 + LabelLength(f)] == line.name + Zeros(LabelLength(f) - |line.name|)
      && r[Stride(f) - 1..Stride(f)] == [0]
  {
    FieldsOf(Index(f, i), Put32(line.hash), line.name, LabelLength(f));
  }

  lemma FieldsOf(index: seq<byte>, hash: seq<byte>, name: seq<byte>, n: nat)
    requires |hash| == 4 && |name| <= n
    ensures var r, h := index + hash + name + Zeros(n + 1 - |name|), |index|;
      && r[0..h] == index && r[h..h + 4] == hash
      && r[h + 4..h + 4 + n] == name + Zeros(n - |name|) && r[h + 4 + n..h + 4 + n + 1] == [0]
  {
  }

  /** A written catalogue passes the portal's checks exactly when it has an entry. */
  lemma ImageLoads(f: Format, lines: seq<Line>)
    requires Fits(f, lines)
    ensures Loads(ImageOf(f, lines)) <==> lines != []
    ensures FormatOf(Be32(ImageOf(f, lines), 0)) == Some(f)
  {
    ImageWords(f, lines);
    forall i | 0 <= i < |lines| ensures RecordOk(ImageOf(f, lines), f, i) {
      ImageReadsBack(f, lines, i);
    }
  }

  // --------------------------------------------------------------------------
  // Which images are accepted

  /** The records and the checksum of an image with so many of them, 32 bytes after its start. */
  predicate Holds(p: Image, capacity: nat, stride: nat, indexed: bool)
    requires 8 <= stride && 32 + capacity * stride <= SIZE
  {
    var n := Be32(p, 4);
    && 0 < n <= capacity && HoldsChecksum(p, 32 + n * stride)
    && forall i: nat | i < n :: HoldsRecord(p, i, stride, indexed)
  }

  predicate HoldsChecksum(p: Image, end: int) {
    32 <= end <= SIZE && Be32(p, 8) == Fnv.Hash(p[32..end])
  }

  predicate HoldsRecord(p: Image, i: nat, stride: nat, indexed: bool)
    requires 8 <= stride
  {
    var at: nat := 32 + i * stride;
    at + stride <= SIZE && p[at + stride - 1] == 0 && (indexed ==> Be32(p, at) == i)
  }

  /**
    * A catalogue is accepted exactly if its magic is known and it holds between one and the capacity of
    * its format records, the right checksum over them, a zero last byte in each and, in the wide format,
    * its index in each.
    */
  lemma AcceptedImages(p: Image)
    ensures var magic := Be32(p, 0);
      Loads(p) <==>
        || (magic == 0x45313143 && Holds(p, 256, 64, true))
        || (magic == 0x45313443 && Holds(p, 512, 32, false))
        || (magic == 0x45313543 && Holds(p, 640, 24, false))
  {
    if FormatOf(Be32(p, 0)).Some? && 0 < Be32(p, 4) <= Capacity(FormatOf(Be32(p, 0)).value) {
      SoundHolds(p, FormatOf(Be32(p, 0)).value);
    }
  }

  lemma OffsetIs(f: Format, i: nat)
    ensures Offset(f, i) == 32 + i * Stride(f)
  {
  }

  lemma RecordHolds(p: Image, f: Format, i: nat)
    requires i < Capacity(f)
    ensures RecordOk(p, f, i) <==> HoldsRecord(p, i, Stride(f), f.Wide?)
  {
    OffsetIs(f, i);
  }

  lemma SoundHolds(p: Image, f: Format)
    requires 0 < Be32(p, 4) <= Capacity(f)
    ensures Sound(p, f) <==> Holds(p, Capacity(f), Stride(f), f.Wide?)
  {
    var n := Be32(p, 4);
    OffsetIs(f, n);
    forall i: nat | i < n
      ensures RecordOk(p, f, i) <==> HoldsRecord(p, i, Stride(f), f.Wide?)
    {
      RecordHolds(p, f, i);
    }
  }

  /** Where the three formats keep the checksum word and the label of an entry. */
  lemma ReadPlaces(p: Image, f: Format, i: nat)
    requires i < Capacity(f)
    ensures match f
            case Wide => SourceHash(p, f, i) == Be32(p, 36 + 64 * i) && Label(p, f, i) == p[40 + 64 * i..87 + 64 * i]
            case Compact => SourceHash(p, f, i) == Be32(p, 32 + 32 * i) && Label(p, f, i) == p[36 + 32 * i..63 + 32 * i]
            case Dense => SourceHash(p, f, i) == Be32(p, 32 + 24 * i) && Label(p, f, i) == p[36 + 24 * i..55 + 24 * i]
  {
  }

  /** Two images that differ in exactly one byte. */
  predicate OneByteApart(p: Image, q: Image, k: nat)
    requires k < SIZE
  {
    p[k] != q[k] && forall i | 0 <= i < SIZE && i != k :: p[i] == q[i]
  }

  lemma WordKept(p: Image, q: Image, k: nat, at: nat)
    requires k < SIZE && OneByteApart(p, q, k) && at + 4 <= SIZE && !(at <= k < at + 4)
    ensures Be32(p, at) == Be32(q, at)
  {
  }

  lemma WordChanged(p: Image, q: Image, at: nat, k: nat)
    requires at <= k < at + 4 <= SIZE && p[k] != q[k]
    ensures Be32(p, at) != Be32(q, at)
  {
    assert p[at..at + 4][k - at] == p[k] && q[at..at + 4][k - at] == q[k];
    if Be32(p, at) == Be32(q, at) {
      Be32Injective(p, q, at);
    }
  }

  /**
    * A damaged catalogue is refused: behind the magic and the count, changing one byte of an accepted
    * one leaves it accepted exactly if the byte belongs neither to the checksum nor to a record.
    */
  lemma DamageIsRefused(p: Image, q: Image, k: nat)
    requires Loads(p) && 8 <= k < SIZE && OneByteApart(p, q, k)
    ensures var f := FormatOf(Be32(p, 0)).value;
      Loads(q) <==> 12 <= k < 32 || Offset(f, Be32(p, 4)) <= k
  {
    var f, n := FormatOf(Be32(p, 0)).value, Be32(p, 4);
    var end := Offset(f, n);
    WordKept(p, q, k, 0);
    WordKept(p, q, k, 4);
    if 32 <= k < end {
      WordKept(p, q, k, 8);
      Fnv.DetectsOneByte(p[32..end], q[32..end], k - 32);
    } else {
      assert p[32..end] == q[32..end];
      if k < 12 {
        WordChanged(p, q, 8, k);
      } else {
        WordKept(p, q, k, 8);
        forall i: nat | i < n ensures RecordOk(q, f, i) {
          RecordKept(p, q, k, f, n, i);
        }
      }
    }
  }

  lemma RecordKept(p: Image, q: Image, k: nat, f: Format, n: nat, i: nat)
    requires k < SIZE && OneByteApart(p, q, k) && i < n <= Capacity(f) && RecordOk(p, f, i)
    requires k < 32 || Offset(f, n) <= k
    ensures RecordOk(q, f, i)
  {
    assert 32 <= Offset(f, i) && Offset(f, i) + Stride(f) <= Offset(f, n);
    if f.Wide? {
      WordKept(p, q, k, Offset(f, i));
    }
  }

  // --------------------------------------------------------------------------
  // The writing loop of both tools

  function Blitted(p: seq<byte>, at: nat, bytes: seq<byte>): (r: seq<byte>)
    requires at + |bytes| <= |p|
    ensures |r| == |p|
  {
    p[..at] + bytes + p[at + |bytes|..]
  }

  method Blit(p: array<byte>, at: nat, bytes: seq<byte>)
    requires at + |bytes| <= p.Length
    modifies p
    ensures p[..] == Blitted(old(p[..]), at, bytes)
  {
    var i := 0;
    while i < |bytes|
      invariant 0 <= i <= |bytes|
      invariant p[..] == Blitted(old(p[..]), at, bytes[..i])
    {
      p[at + i] := bytes[i];
      i := i + 1;
    }
    assert bytes[..i] == bytes;
  }

  /** The catalogue with its records in place and its header still zero. */
  function Filled(f: Format, records: seq<seq<byte>>, n: nat): (r: Image)
    requires Sized(f, records) && n <= |records|
  {
    Zeros(HEAD) + Join(f, records, n) + Zeros(SIZE - Offset(f, n))
  }

  lemma BlitReplaces(a: seq<byte>, b: seq<byte>, c: seq<byte>, bytes: seq<byte>)
    requires |b| == |bytes|
    ensures Blitted(a + b + c, |a|, bytes) == a + bytes + c
  {
  }

  lemma BlitFills(a: seq<byte>, m: nat, bytes: seq<byte>)
    requires |bytes| <= m
    ensures Blitted(a + Zeros(m), |a|, bytes) == a + bytes + Zeros(m - |bytes|)
  {
    assert a + Zeros(m) == a + Zeros(|bytes|) + Zeros(m - |bytes|);
    BlitReplaces(a, Zeros(|bytes|), Zeros(m - |bytes|), bytes);
  }

  predicate Written(p: seq<byte>, a: seq<byte>) {
    |a| <= SIZE && p == a + Zeros(SIZE - |a|)
  }

  method Append(p: array<byte>, at: nat, bytes: seq<byte>, ghost a: seq<byte>)
    requires Written(p[..], a) && at == |a| && at + |bytes| <= SIZE
    modifies p
    ensures Written(p[..], a + bytes)
  {
    BlitFills(a, SIZE - |a|, bytes);
    Blit(p, at, bytes);
  }

  /** The record of one line, written over zeros. */
  method WriteRecord(p: array<byte>, f: Format, ghost records: seq<seq<byte>>, i: nat, line: Line)
    requires Sized(f, records) && i < |records| && |line.name| <= LabelLength(f) && records[i] == Record(f, i, line)
    requires p[..] == Filled(f, records, i)
    modifies p
    ensures p[..] == Filled(f, records, i + 1)
  {
    ghost var start := Zeros(HEAD) + Join(f, records, i);
    var at := HEAD + i * Stride(f);
    assert at == Offset(f, i) == |start|;
    var index, hash := Index(f, i), Put32(line.hash);
    WriteFields(p, at, index, hash, line.name, start);
    RecordCompletes(p[..], f, records, i, index + hash + line.name, Stride(f) - HashOffset(f) - 4 - |line.name|);
  }

  lemma RecordCompletes(p: seq<byte>, f: Format, records: seq<seq<byte>>, i: nat, fields: seq<byte>, pad: nat)
    requires Sized(f, records) && i < |records| && records[i] == fields + Zeros(pad)
    requires Written(p, Zeros(HEAD) + Join(f, records, i) + fields)
    ensures p == Filled(f, records, i + 1)
  {
    Regroup(Zeros(HEAD), Join(f, records, i), fields, pad, SIZE - Offset(f, i + 1));
  }

  lemma Regroup(a: seq<byte>, b: seq<byte>, c: seq<byte>, m: nat, n: nat)
    ensures a + b + c + Zeros(m + n) == a + (b + (c + Zeros(m))) + Zeros(n)
  {
    assert Zeros(m + n) == Zeros(m) + Zeros(n);
  }

  method WriteFields(p: array<byte>, at: nat, index: seq<byte>, hash: seq<byte>, name: seq<byte>,
      ghost start: seq<byte>)
    requires Written(p[..], start) && at == |start| && at + |index| + |hash| + |name| <= SIZE
    modifies p
    ensures Written(p[..], start + (index + hash + name))
  {
    Append(p, at, index, start);
    Append(p, at + |index|, hash, start + index);
    Append(p, at + |index| + |hash|, name, start + index + hash);
    assert start + index + hash + name == start + (index + hash + name);
  }

  lemma ThreeWords(x: seq<byte>, y: seq<byte>, z: seq<byte>, rest: seq<byte>)
    requires |x| == |y| == |z| == 4
    ensures Blitted(Blitted(Blitted(Zeros(HEAD) + rest, 0, x), 4, y), 8, z) == x + y + z + Zeros(20) + rest
  {
    assert Zeros(HEAD) + rest == [] + Zeros(4) + (Zeros(28) + rest);
    BlitReplaces([], Zeros(4), Zeros(28) + rest, x);
    assert [] + x + (Zeros(28) + rest) == x + Zeros(4) + (Zeros(24) + rest);
    BlitReplaces(x, Zeros(4), Zeros(24) + rest, y);
    assert x + y + (Zeros(24) + rest) == (x + y) + Zeros(4) + (Zeros(20) + rest);
    BlitReplaces(x + y, Zeros(4), Zeros(20) + rest, z);
  }

  /** The three header words, written over zeros. */
  method WriteHeader(p: array<byte>, f: Format, ghost records: seq<seq<byte>>, n: nat)
    requires Sized(f, records) && n == |records|
    requires p[..] == Filled(f, records, n)
    modifies p
    ensures var body := Join(f, records, n);
      p[..] == Put32(Magic(f)) + Put32(n) + Put32(Fnv.Hash(body)) + Zeros(20) + body + Zeros(SIZE - HEAD - |body|)
  {
    assert HEAD + n * Stride(f) == Offset(f, n);
    ghost var body := Join(f, records, n);
    assert p[HEAD..HEAD + n * Stride(f)] == body;
    var hash := Fnv.ComputeHash(p[HEAD..HEAD + n * Stride(f)]);
    ghost var zeros := Zeros(SIZE - HEAD - |body|);
    assert p[..] == Zeros(HEAD) + (body + zeros);
    var x, y, z := Put32(Magic(f)), Put32(n), Put32(hash);
    ThreeWords(x, y, z, body + zeros);
    Blit(p, 0, x);
    Blit(p, 4, y);
    Blit(p, 8, z);
    assert p[..] == x + y + z + Zeros(20) + body + zeros;
  }

  lemma NothingFilled(f: Format, records: seq<seq<byte>>, p: seq<byte>)
    requires Sized(f, records) && |p| == SIZE && forall i | 0 <= i < SIZE :: p[i] == 0
    ensures p == Filled(f, records, 0)
  {
  }

  /** The record loop of both tools. */
  method WriteRecords(f: Format, lines: seq<Line>) returns (p: array<byte>)
    requires Fits(f, lines)
    ensures fresh(p) && p[..] == Filled(f, Records(f, lines), |lines|)
  {
    ghost var records := Records(f, lines);
    assert forall k | 0 <= k < |lines| :: records[k] == Record(f, k, lines[k]);
    p := new byte[SIZE](_ => 0);
    NothingFilled(f, records, p[..]);
    var i := 0;
    while i < |lines|
      invariant 0 <= i <= |lines|
      invariant p[..] == Filled(f, records, i)
    {
      WriteRecord(p, f, records, i, lines[i]);
      i := i + 1;
    }
  }

  /** The `cat` bytearray of `extend` and `prepare`. */
  method WriteImage(f: Format, lines: seq<Line>) returns (p: array<byte>)
    requires Fits(f, lines)
    ensures fresh(p) && p[..] == ImageOf(f, lines)
  {
    p := WriteRecords(f, lines);
    WriteHeader(p, f, Records(f, lines), |lines|);
  }
}
