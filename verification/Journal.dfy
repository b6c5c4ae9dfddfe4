/** Journal records, their file names, and the storage worker that reads and writes them. */
module Journal {
  import opened Words
  import Fnv

  const MAGIC: u32 := 0x45313152
  const SIZE := 1056
  const FIGURE := 1024
  const ERR_MISSING := -106
  const ERR_INVALID := -4

  // --------------------------------------------------------------------------
  // Records

  function Header(sequence: u32, id: u32, source: u32, data: seq<byte>): (r: seq<byte>)
    ensures |r| == 20
  {
    Put32(MAGIC) + Put32(sequence) + Put32(id) + Put32(source) + Put32(Fnv.Hash(data))
  }

  /** The 1056 bytes a save writes. */
  function Record(sequence: u32, id: u32, source: u32, data: seq<byte>): (r: seq<byte>)
    ensures |r| == 32 + |data|
  {
    Header(sequence, id, source, data) + Put32(Fnv.Hash(Header(sequence, id, source, data))) + Zeros(8) + data
  }

  /** `e11_valid`, for the figure and source hash of the current job. */
  predicate Sound(p: seq<byte>, id: u32, source: u32) {
    && |p| == SIZE
    && Be32(p, 0) == MAGIC
    && Be32(p, 8) == id
    && Be32(p, 12) == source
    && Be32(p, 16) == Fnv.Hash(p[32..])
    && Be32(p, 20) == Fnv.Hash(p[..20])
  }

  lemma RecordWords(sequence: u32, id: u32, source: u32, data: seq<byte>)
    ensures var r := Record(sequence, id, source, data);
      && Be32(r, 0) == MAGIC && Be32(r, 4) == sequence && Be32(r, 8) == id && Be32(r, 12) == source
      && Be32(r, 16) == Fnv.Hash(data) && Be32(r, 20) == Fnv.Hash(r[..20])
      && r[32..] == data
  {
    var r := Record(sequence, id, source, data);
    var head := Header(sequence, id, source, data);
    assert r[..20] == head;
    assert r[0..4] == head[0..4] == Put32(MAGIC);
    assert r[4..8] == head[4..8] == Put32(sequence);
    assert r[8..12] == head[8..12] == Put32(id);
    assert r[12..16] == head[12..16] == Put32(source);
    assert r[16..20] == head[16..20] == Put32(Fnv.Hash(data));
    assert r[20..24] == Put32(Fnv.Hash(head));
    assert r[32..] == data;
    Be32At(r, 0, MAGIC);
    Be32At(r, 4, sequence);
    Be32At(r, 8, id);
    Be32At(r, 12, source);
    Be32At(r, 16, Fnv.Hash(data));
    Be32At(r, 20, Fnv.Hash(head));
  }

  /** Every record a save builds passes the validity test of its own figure. */
  lemma RecordIsSound(sequence: u32, id: u32, source: u32, data: seq<byte>)
    requires |data| == FIGURE
    ensures Sound(Record(sequence, id, source, data), id, source)
  {
    RecordWords(sequence, id, source, data);
  }

  /**
    * The layout of a record: five words in front of the header's checksum, padding, and the figure. It is
    * valid for no other figure and for no other source dump.
    */
  lemma RecordIsItsOwn(sequence: u32, id: u32, source: u32, data: seq<byte>, other: u32, src: u32)
    requires |data| == 1024
    ensures var r := Record(sequence, id, source, data);
      && |r| == 1056 && Be32(r, 0) == 0x45313152 && Be32(r, 4) == sequence && Be32(r, 8) == id
      && Be32(r, 12) == source && Be32(r, 16) == Fnv.Hash(data) && Be32(r, 20) == Fnv.Hash(r[..20])
      && r[24..32] == Zeros(8) && r[32..] == data
      && (Sound(r, other, src) <==> other == id && src == source)
  {
    RecordWords(sequence, id, source, data);
    var head := Header(sequence, id, source, data) + Put32(Fnv.Hash(Header(sequence, id, source, data)));
    assert Record(sequence, id, source, data) == head + Zeros(8) + data && |head| == 24;
  }

  /** Changing one byte of a valid record is noticed unless it is one of the eight padding bytes. */
  lemma OneByteChangeNoticed(p: seq<byte>, q: seq<byte>, k: nat, id: u32, source: u32)
    requires Sound(p, id, source) && |q| == SIZE && k < SIZE
    requires p[k] != q[k] && forall i | 0 <= i < SIZE && i != k :: p[i] == q[i]
    ensures Sound(q, id, source) <==> 24 <= k < 32
  {
    if k >= 32 {
      Fnv.DetectsOneByte(p[32..], q[32..], k - 32);
      SameWord(p, q, k, 16);
    } else {
      assert p[32..] == q[32..];
      if 24 <= k {
        assert p[..20] == q[..20];
        forall at | at in {0, 8, 12, 16, 20} ensures Be32(p, at) == Be32(q, at) {
          SameWord(p, q, k, at);
        }
      } else if k >= 20 {
        assert p[..20] == q[..20];
        if Be32(p, 20) == Be32(q, 20) {
          Be32Injective(p, q, 20);
          SliceAt(p, q, 20, k);
        }
      } else {
        Fnv.DetectsOneByte(p[..20], q[..20], k);
        SameWord(p, q, k, 20);
      }
    }
  }

  lemma SliceAt(p: seq<byte>, q: seq<byte>, at: nat, k: nat)
    requires at <= k < at + 4 <= |p| == |q| && p[at..at + 4] == q[at..at + 4]
    ensures p[k] == q[k]
  {
    assert p[k] == p[at..at + 4][k - at] == q[at..at + 4][k - at];
  }

  lemma SameWord(p: seq<byte>, q: seq<byte>, k: nat, at: nat)
    requires |p| == |q| && at + 4 <= |p| && !(at <= k < at + 4)
    requires forall i | 0 <= i < |p| && i != k :: p[i] == q[i]
    ensures Be32(p, at) == Be32(q, at)
  {
  }

  // --------------------------------------------------------------------------
  // File names

  datatype Kind = DumpFile | SavFile(k: nat)

  function Digits(id: nat): (r: string)
    requires id < 1000
    ensures |r| == 3
  {
    [Digit(id / 100), Digit(id / 10 % 10), Digit(id % 10)]
  }

  function Digit(n: nat): char
    requires n < 10
  {
    (48 + n) as char
  }

  const FOLDER := "fat0:/skylanders/e11/"

  function Stem(kind: Kind): string {
    if kind.DumpFile? then "fig" else "save"
  }

  function Extension(kind: Kind): string {
    match kind
    case DumpFile => ".bin"
    case SavFile(k) => if k == 0 then ".sav0" else ".sav1"
  }

  function PathOf(id: nat, kind: Kind): string
    requires id < 1000
  {
    FOLDER + Stem(kind) + Digits(id) + Extension(kind)
  }

  /** No two figures share a file, and no figure's three files coincide. */
  lemma PathInjective(id: nat, kind: Kind, other: nat, kind': Kind)
    requires id < 1000 && other < 1000
    requires kind.SavFile? ==> kind.k < 2
    requires kind'.SavFile? ==> kind'.k < 2
    requires PathOf(id, kind) == PathOf(other, kind')
    ensures id == other && kind == kind'
  {
    PathParts(id, kind);
    PathParts(other, kind');
    DigitsInjective(id, other);
  }

  lemma DigitsInjective(id: nat, other: nat)
    requires id < 1000 && other < 1000 && Digits(id) == Digits(other)
    ensures id == other
  {
    var p, q := Digits(id), Digits(other);
    DigitInjective(id / 100, other / 100, p[0], q[0]);
    DigitInjective(id / 10 % 10, other / 10 % 10, p[1], q[1]);
    DigitInjective(id % 10, other % 10, p[2], q[2]);
    ThreeDigits(id);
    ThreeDigits(other);
  }

  lemma DigitInjective(m: nat, n: nat, c: char, d: char)
    requires m < 10 && n < 10 && c == Digit(m) && d == Digit(n) && c == d
    ensures m == n
  {
    assert c as int == 48 + m && d as int == 48 + n;
  }

  lemma PathParts(id: nat, kind: Kind)
    requires id < 1000 && (kind.SavFile? ==> kind.k < 2)
    ensures var p := PathOf(id, kind);
      && |p| == (if kind.DumpFile? then 31 else 33)
      && p[|p| - 8 + (if kind.DumpFile? then 1 else 0)..][..3] == Digits(id)
      && (kind.SavFile? ==> p[32] == if kind.k == 0 then '0' else '1')
  {
    assert |FOLDER| == 21;
    var head := FOLDER + Stem(kind);
    assert PathOf(id, kind) == head + Digits(id) + Extension(kind);
    assert PathOf(id, kind)[|head|..][..3] == Digits(id);
  }

  // --------------------------------------------------------------------------
  // What a load makes of the files

  type Card = map<string, seq<byte>>

  type Negative = x: int | x < 0 witness -1

  /** How one file read may go wrong. */
  datatype Fault = Works | OpenFails(code: Negative) | Stops(count: int) | CloseFails(code: Negative)

  /** The result of `os_read`. */
  function Transferred(contents: seq<byte>, n: nat, fault: Fault): int {
    var whole := if |contents| < n then |contents| else n;
    if fault.Stops? && fault.count < whole then fault.count else whole
  }

  /** The result of `e11_read`. */
  function ReadCode(card: Card, path: string, n: nat, fault: Fault): int {
    if fault.OpenFails? then fault.code
    else if path !in card then ERR_MISSING
    else
      var r := Transferred(card[path], n, fault);
      if r == n then (if fault.CloseFails? then fault.code else 0)
      else if r < 0 then r else ERR_INVALID
  }

  /** One journal file as the loader classifies it. */
  datatype View = Missing | Damaged | Good(sequence: u32, data: Data) | Broken(code: int)

  function Seen(card: Card, id: nat, source: u32, k: nat, fault: Fault): View
    requires id < 1000
  {
    var r := ReadCode(card, PathOf(id, SavFile(k)), SIZE, fault);
    if r == ERR_MISSING then Missing
    else if r == ERR_INVALID then Damaged
    else if r < 0 then Broken(r)
    else
      var p := card[PathOf(id, SavFile(k))][..SIZE];
      if Sound(p, id, source) then Good(Be32(p, 4), p[32..]) else Damaged
  }

  /** The file itself, read without any fault. */
  function ViewOf(card: Card, id: nat, source: u32, k: nat): View
    requires id < 1000
  {
    Seen(card, id, source, k, Works)
  }

  datatype Loaded = Loaded(sequence: u32, data: Data) | Failed(code: int)

  /** Which of the two journals, or the source dump, a load returns. */
  function Choose(dump: Data, a: View, b: View): Loaded {
    if a.Broken? then Failed(a.code)
    else if b.Broken? then Failed(b.code)
    else if a.Good? && (!b.Good? || !Newer(b.sequence, a.sequence)) then Loaded(a.sequence, a.data)
    else if b.Good? then Loaded(b.sequence, b.data)
    else if a.Damaged? || b.Damaged? then Failed(ERR_INVALID)
    else Loaded(0, dump)
  }

  /** What the loader's loop knows after some journals: its flags, the best sequence, and the data it holds. */
  datatype Scan = Scan(invalid: bool, found: bool, best: u32, data: Data)

  function Judge(s: Scan, v: View): Scan {
    match v
    case Missing => s
    case Damaged => s.(invalid := true)
    case Broken(_) => s
    case Good(sequence, data) =>
      if !s.found || Newer(sequence, s.best) then Scan(s.invalid, true, sequence, data) else s
  }

  function Judged(dump: Data, seen: seq<View>, k: nat): Scan
    requires k <= |seen|
  {
    if k == 0 then Scan(false, false, 0, dump) else Judge(Judged(dump, seen, k - 1), seen[k - 1])
  }

  /** Judging the two files one after the other makes the choice. */
  lemma JudgedIsChosen(dump: Data, seen: seq<View>)
    requires |seen| == 2 && !seen[0].Broken? && !seen[1].Broken?
    ensures var s := Judged(dump, seen, 2);
      Choose(dump, seen[0], seen[1])
      == if s.invalid && !s.found then Failed(ERR_INVALID) else Loaded(s.best, s.data)
  {
    assert Judged(dump, seen, 1) == Judge(Scan(false, false, 0, dump), seen[0]);
  }

  function LoadResult(card: Card, id: nat, source: u32, f: Fault, f0: Fault, f1: Fault): Loaded
    requires id < 1000
  {
    var r := ReadCode(card, PathOf(id, DumpFile), FIGURE, f);
    if r < 0 then Failed(r)
    else
      var dump := card[PathOf(id, DumpFile)][..FIGURE];
      if Fnv.Hash(dump) != source then Failed(ERR_INVALID)
      else Choose(dump, Seen(card, id, source, 0, f0), Seen(card, id, source, 1, f1))
  }

  /**
    * A file is read exactly if it opens, holds enough bytes, is not cut short and closes; otherwise the
    * result is the error of the step that failed, -106 for a missing file and -4 for a short one.
    */
  lemma ReadMeaning(card: Card, path: string, n: nat, fault: Fault)
    ensures var code := ReadCode(card, path, n, fault);
      match fault
      case OpenFails(e) => code == e
      case Works => code == if path !in card then -106 else if |card[path]| < n then -4 else 0
      case CloseFails(e) => code == if path !in card then -106 else if |card[path]| < n then -4 else e
      case Stops(count) =>
        code == if path !in card then -106
          else if |card[path]| >= n && count >= n then 0
          else if count < 0 then count else -4
  {
  }

  /**
    * A load succeeds only with an intact source dump, whose checksum is the one the job carries: a dump
    * that cannot be read reports its error, a changed one -4, whatever the journals hold.
    */
  lemma LoadNeedsItsDump(card: Card, id: nat, source: u32, f: Fault, f0: Fault, f1: Fault)
    requires id < 1000
    ensures var out, path := LoadResult(card, id, source, f, f0, f1), PathOf(id, DumpFile);
      && var code := ReadCode(card, path, 1024, f);
      && (code < 0 ==> out == Failed(code))
      && (code == 0 ==> path in card && |card[path]| >= 1024)
      && (code == 0 && Fnv.Hash(card[path][..1024]) != source ==> out == Failed(-4))
      && (out.Loaded? ==> code == 0 && Fnv.Hash(card[path][..1024]) == source)
  {
    ReadMeaning(card, PathOf(id, DumpFile), 1024, f);
  }

  /** Signed wrap-around comparison is serial number comparison, for every pair of sequences. */
  lemma NewerIsSerialOrder(a: u32, b: u32)
    ensures Newer(a, b) <==> SerialLess(b, a)
  {
    if a >= b {
      assert Since(a, b) == a - b;
    } else {
      assert Since(a, b) == a - b + TWO32;
    }
  }

  /** Of two adjacent records the later one is loaded, in either file order and across the wrap. */
  lemma LaterOfAdjacentWins(dump: Data, s: u32, x: Data, y: Data)
    ensures Choose(dump, Good(s, x), Good(Plus(s, 1), y)) == Loaded(Plus(s, 1), y)
    ensures Choose(dump, Good(Plus(s, 1), y), Good(s, x)) == Loaded(Plus(s, 1), y)
  {
    NewerIsSerialOrder(Plus(s, 1), s);
    NewerIsSerialOrder(s, Plus(s, 1));
  }

  // --------------------------------------------------------------------------
  // The worker

  datatype WritePlan =
    | NotOpened(code: Negative)
    | Attempted(left: seq<byte>, wrote: int, closed: int)  // what the file holds afterwards, and the two results

  class StorageWorker {
    var card: Card
    var path: string
    const job: array<byte>
    const check: array<byte>
    var slot: u32
    var source: u32
    var sequence: u32

    ghost predicate Valid()
      reads this
    {
      job.Length == SIZE && check.Length == SIZE && job != check && slot < 1000
    }

    constructor (card: Card, slot: u32, source: u32)
      requires slot < 1000
      ensures Valid() && fresh(job) && fresh(check)
      ensures this.card == card && this.slot == slot && this.source == source
    {
      this.card, this.slot, this.source, this.sequence, this.path := card, slot, source, 0, "";
      job := new byte[SIZE](_ => 0);
      check := new byte[SIZE](_ => 0);
    }

    /** One of the copy loops of `e11_name`. */
    method Append(s: string)
      modifies this`path
      ensures path == old(path) + s
    {
      var i := 0;
      while i < |s|
        invariant 0 <= i <= |s|
        invariant path == old(path) + s[..i]
      {
        path := path + [s[i]];
        i := i + 1;
      }
    }

    /** `e11_name(slot, save)`. */
    method Name(save: int)
      requires slot < 1000
      modifies this`path
      ensures path == PathOf(slot, if save < 0 then DumpFile else SavFile(save))
    {
      var kind := if save < 0 then DumpFile else SavFile(save);
      path := "";
      Append(FOLDER);
      Append(Stem(kind));
      ghost var head := path;
      assert head == FOLDER + Stem(kind);
      path := path + [Digit(slot / 100)];
      path := path + [Digit(slot / 10 % 10)];
      path := path + [Digit(slot % 10)];
      assert path == head + Digits(slot);
      Append(Extension(kind));
    }

    /** `e11_read(p + at, n)`. */
    method Read(p: array<byte>, at: nat, n: nat, fault: Fault) returns (r: int)
      requires at + n == p.Length
      modifies p
      ensures r == ReadCode(card, path, n, fault)
      ensures r == 0 ==> p[at..] == card[path][..n]
      ensures p[..at] == old(p[..at])
    {
      if fault.OpenFails? {
        return fault.code;
      }
      if path !in card {
        return ERR_MISSING;
      }
      r := Transferred(card[path], n, fault);
      var i := 0;
      while i < r
        invariant 0 <= i && (r >= 0 ==> i <= r) && (r < 0 ==> i == 0) && r <= n && r <= |card[path]|
        invariant p[..at] == old(p[..at])
        invariant forall j | 0 <= j < i :: p[at + j] == card[path][j]
      {
        p[at + i] := card[path][i];
        i := i + 1;
      }
      if r == n {
        return if fault.CloseFails? then fault.code else 0;
      }
      return if r < 0 then r else ERR_INVALID;
    }

    /** `e11_valid(e11_check)`. */
    method CheckIsSound() returns (ok: bool)
      requires Valid()
      ensures ok == Sound(check[..], slot, source)
    {
      var body := Fnv.ComputeHash(check[32..]);
      var head := Fnv.ComputeHash(check[..20]);
      var p := check[..];
      assert p[32..] == check[32..] && p[..20] == check[..20];
      ok := Be32(p, 0) == MAGIC && Be32(p, 8) == slot && Be32(p, 12) == source && Be32(p, 16) == body
        && Be32(p, 20) == head;
    }

    /** Read and judge one journal file. */
    method Look(k: nat, fault: Fault) returns (r: int, ok: bool)
      requires Valid() && k < 2
      modifies this`path, check
      ensures match Seen(card, slot, source, k, fault)
              case Missing => r == ERR_MISSING
              case Broken(code) => r == code < 0 && r != ERR_MISSING && r != ERR_INVALID
              case Damaged => r == ERR_INVALID || (r == 0 && !ok)
              case Good(s, data) => r == 0 && ok && Be32(check[..], 4) == s && check[32..] == data
    {
      Name(k);
      r := Read(check, 0, SIZE, fault);
      ok := CheckIsSound();
      assert r == 0 ==> check[0..] == check[..];
      assert check[..][32..] == check[32..];
    }

    /** `e11_load`. */
    method Load(f: Fault, f0: Fault, f1: Fault) returns (r: int)
      requires Valid()
      modifies this`path, this`sequence, job, check
      ensures match LoadResult(card, slot, source, f, f0, f1)
              case Failed(code) => r == code && sequence == old(sequence)
              case Loaded(s, data) => r == 0 && sequence == s && job[32..] == data
    {
      r := LoadDump(f);
      if r == 0 {
        r := LoadJournals(f0, f1);
      }
    }

    /** `e11_load` up to the checksum of the source dump. */
    method LoadDump(f: Fault) returns (r: int)
      requires Valid()
      modifies this`path, job
      ensures var c := ReadCode(card, PathOf(slot, DumpFile), FIGURE, f);
        if c < 0 then r == c
        else
          var dump := card[PathOf(slot, DumpFile)][..FIGURE];
          if Fnv.Hash(dump) != source then r == ERR_INVALID else r == 0 && job[32..] == dump
    {
      Name(-1);
      r := Read(job, 32, FIGURE, f);
      if r < 0 {
        return;
      }
      var h := Fnv.ComputeHash(job[32..]);
      if h != source {
        return ERR_INVALID;
      }
    }

    /** The loop of `e11_load` over both journals, with the source dump in the buffer. */
    method LoadJournals(f0: Fault, f1: Fault) returns (r: int)
      requires Valid()
      modifies this`path, this`sequence, job, check
      ensures match Choose(old(job[32..]), Seen(card, slot, source, 0, f0), Seen(card, slot, source, 1, f1))
              case Failed(code) => r == code && sequence == old(sequence)
              case Loaded(s, data) => r == 0 && sequence == s && job[32..] == data
    {
      ghost var dump := job[32..];
      ghost var seen := [Seen(card, slot, source, 0, f0), Seen(card, slot, source, 1, f1)];
      var best: u32, found, invalid := 0, false, false;
      var k := 0;
      while k < 2
        invariant 0 <= k <= 2
        invariant sequence == old(sequence)
        invariant forall j | 0 <= j < k :: !seen[j].Broken?
        invariant Judged(dump, seen, k) == Scan(invalid, found, best, job[32..])
      {
        var ok;
        r, ok := Look(k, if k == 0 then f0 else f1);
        if r < 0 && r != ERR_MISSING && r != ERR_INVALID {
          return;
        }
        if r == ERR_INVALID || (r == 0 && !ok) {
          invalid := true;
        }
        if r == 0 && ok {
          var s := Be32(check[..], 4);
          if !found || Newer(s, best) {
            Copy();
            best, found := s, true;
          }
        }
        k := k + 1;
      }
      JudgedIsChosen(dump, seen);
      if invalid && !found {
        return ERR_INVALID;
      }
      sequence := best;
      r := 0;
    }

    /** `v4_copy(e11_job, e11_check, 1056)`. */
    method Copy()
      requires Valid()
      modifies job
      ensures job[..] == check[..] && job[32..] == check[32..]
    {
      var i := 0;
      while i < SIZE
        invariant 0 <= i <= SIZE
        invariant job[..i] == check[..i]
      {
        job[i] := check[i];
        i := i + 1;
      }
    }

    /** `put_be32(e11_job + at, v)`. */
    method Put(at: nat, v: u32)
      requires Valid() && at + 4 <= SIZE
      modifies job
      ensures job[..at + 4] == old(job[..at]) + Put32(v)
      ensures at <= 28 ==> job[32..] == old(job[32..])
    {
      var b := Put32(v);
      job[at], job[at + 1], job[at + 2], job[at + 3] := b[0], b[1], b[2], b[3];
    }

    /** The five words under the header checksum. */
    method PutHeader(hash: u32)
      requires Valid() && hash == Fnv.Hash(job[32..])
      modifies job
      ensures job[..20] == Header(Plus(sequence, 1), slot, source, job[32..])
      ensures job[32..] == old(job[32..])
    {
      ghost var data := job[32..];
      Put(0, MAGIC);
      Put(4, Plus(sequence, 1));
      Put(8, slot);
      Put(12, source);
      ghost var head := job[..16];
      assert head == Put32(MAGIC) + Put32(Plus(sequence, 1)) + Put32(slot) + Put32(source);
      Put(16, hash);
      assert job[..20] == head + Put32(hash);
    }

    /** `zero_bytes(e11_job + 24, 8)`. */
    method ClearPadding()
      requires Valid()
      modifies job
      ensures job[..] == old(job[..24]) + Zeros(8) + old(job[32..])
    {
      var i := 24;
      while i < 32
        invariant 24 <= i <= 32
        invariant forall j | 24 <= j < i :: job[j] == 0
        invariant job[..24] == old(job[..24]) && job[32..] == old(job[32..])
      {
        job[i] := 0;
        i := i + 1;
      }
      assert job[24..32] == Zeros(8);
      assert job[..] == job[..24] + job[24..32] + job[32..];
    }

    /** The record `e11_save` builds around the snapshot. */
    method Seal()
      requires Valid()
      modifies job
      ensures job[..] == Record(Plus(sequence, 1), slot, source, old(job[32..]))
    {
      var hash := Fnv.ComputeHash(job[32..]);
      PutHeader(hash);
      ghost var head := job[..20];
      var check := Fnv.ComputeHash(job[..20]);
      Put(20, check);
      assert job[..24] == head + Put32(check);
      ClearPadding();
    }

    /** The read-back that ends `e11_save`. */
    method Verify(fault: Fault) returns (r: int)
      requires Valid()
      modifies check
      ensures var code := ReadCode(card, path, SIZE, fault);
        r == if code < 0 then code else if card[path][..SIZE] == job[..] then 0 else ERR_INVALID
    {
      r := Read(check, 0, SIZE, fault);
      if r < 0 {
        return;
      }
      var i := 0;
      while i < SIZE
        invariant 0 <= i <= SIZE
        invariant forall j | 0 <= j < i :: check[j] == job[j]
      {
        if check[i] != job[i] {
          assert check[0..][i] != job[..][i];
          return ERR_INVALID;
        }
        i := i + 1;
      }
      assert check[0..] == job[..];
    }

    /** `e11_save`: it writes the file of the other parity, then reads it back and compares. */
    method Save(plan: WritePlan, fault: Fault) returns (r: int)
      requires Valid()
      modifies this`path, this`card, job, check
      ensures r <= 0
      ensures job[..] == Record(Plus(sequence, 1), slot, source, old(job[32..]))
      ensures card == match plan
                      case NotOpened(_) => old(card)
                      case Attempted(left, _, _) => old(card)[PathOf(slot, SavFile(Plus(sequence, 1) % 2)) := left]
      ensures match plan
              case NotOpened(code) => r == code
              case Attempted(left, wrote, closed) =>
                var code := ReadCode(card, PathOf(slot, SavFile(Plus(sequence, 1) % 2)), SIZE, fault);
                r == if wrote < 0 then wrote
                     else if closed < 0 then closed
                     else if wrote != SIZE then ERR_INVALID
                     else if code < 0 then code
                     else if left[..SIZE] == job[..] then 0 else ERR_INVALID
    {
      Seal();
      Name(Plus(sequence, 1) % 2);
      match plan {
        case NotOpened(code) =>
          return code;
        case Attempted(left, wrote, closed) =>
          card := card[path := left];
          if wrote != SIZE || closed < 0 {
            return if wrote < 0 then wrote else if closed < 0 then closed else ERR_INVALID;
          }
          r := Verify(fault);
      }
    }
  }

  // --------------------------------------------------------------------------
  // A save seen through the classification

  /** The crash model: a file left by a stopped write is invalid or is the complete new record. */
  predicate Torn(left: seq<byte>, sequence: u32, id: u32, source: u32, data: seq<byte>) {
    |left| >= SIZE && Sound(left[..SIZE], id, source) ==> left[..SIZE] == Record(sequence, id, source, data)
  }

  /**
    * Whatever a save leaves behind, the target file is invalid or is the new record; no other
    * journal and no source dump of any figure changes.
    */
  lemma SaveTouchesOneView(card: Card, id: nat, source: u32, s: u32, data: Data, left: seq<byte>)
    requires id < 1000 && Torn(left, s, id, source, data)
    ensures var after := card[PathOf(id, SavFile(s % 2)) := left];
      && (ViewOf(after, id, source, s % 2) == Damaged || ViewOf(after, id, source, s % 2) == Good(s, data))
      && (|left| >= SIZE && left[..SIZE] == Record(s, id, source, data)
        ==> ViewOf(after, id, source, s % 2) == Good(s, data))
      && (forall other: nat, src: u32, k | other < 1000 && 0 <= k < 2 && (other, k) != (id, s % 2) ::
            ViewOf(after, other, src, k) == ViewOf(card, other, src, k))
      && (forall other: nat | other < 1000 && PathOf(other, DumpFile) in card ::
            PathOf(other, DumpFile) in after && after[PathOf(other, DumpFile)] == card[PathOf(other, DumpFile)])
  {
    RecordWords(s, id, source, data);
    RecordIsSound(s, id, source, data);
    forall other: nat, k | other < 1000 && 0 <= k < 2 && (other, k) != (id, s % 2)
      ensures PathOf(other, SavFile(k)) != PathOf(id, SavFile(s % 2))
    {
      if PathOf(other, SavFile(k)) == PathOf(id, SavFile(s % 2)) {
        PathInjective(other, SavFile(k), id, SavFile(s % 2));
      }
    }
    forall other: nat | other < 1000 ensures PathOf(other, DumpFile) != PathOf(id, SavFile(s % 2)) {
      if PathOf(other, DumpFile) == PathOf(id, SavFile(s % 2)) {
        PathInjective(other, DumpFile, id, SavFile(s % 2));
      }
    }
  }
}
