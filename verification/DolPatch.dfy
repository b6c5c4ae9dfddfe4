/** The sparse patch of an executable: the loop that writes it and the program that applies it. */
module DolPatch {
  import opened Words

  datatype Write = Write(offset: int, data: seq<byte>)

  function End(w: Write): int {
    w.offset + |w.data|
  }

  /** The digest is any function of the bytes; it stands for SHA-256. */
  type Digest = string

  datatype Patch = Patch(format: string, inputSize: int, inputDigest: Digest, outputSize: int, outputDigest: Digest,
      writes: seq<Write>)

  const FORMAT := "skylanders-dol-patch-v1"
  const GROWTH := 0x2000

  datatype Error = UnsupportedFormat | WrongOriginal | InvalidSize | InvalidRange | HashMismatch

  datatype Result = Patched(bytes: seq<byte>) | Refused(error: Error)

  // --------------------------------------------------------------------------
  // What writes mean

  /** Non-empty writes in order, each starting no earlier than the one before it ends, inside `size` bytes. */
  predicate Ordered(writes: seq<Write>, first: int, size: int) {
    writes == [] ||
    (first <= writes[0].offset && writes[0].data != [] && End(writes[0]) <= size
      && Ordered(writes[1..], End(writes[0]), size))
  }

  predicate Covers(w: Write, at: int) {
    w.offset <= at < End(w)
  }

  predicate Covered(writes: seq<Write>, at: int) {
    exists k :: 0 <= k < |writes| && Covers(writes[k], at)
  }

  function Overwrite(bytes: seq<byte>, w: Write): (r: seq<byte>)
    requires 0 <= w.offset && End(w) <= |bytes|
    ensures |r| == |bytes|
    ensures forall i | 0 <= i < |r| :: r[i] == if Covers(w, i) then w.data[i - w.offset] else bytes[i]
  {
    bytes[..w.offset] + w.data + bytes[End(w)..]
  }

  function Overwritten(bytes: seq<byte>, writes: seq<Write>, first: nat): (r: seq<byte>)
    requires Ordered(writes, first, |bytes|)
    ensures |r| == |bytes|
    decreases |writes|
  {
    if writes == [] then bytes else Overwritten(Overwrite(bytes, writes[0]), writes[1..], End(writes[0]))
  }

  /** The result of `apply_patch`, its refusals in the order they are tried. */
  function Outcome(original: seq<byte>, p: Patch, digest: seq<byte> -> Digest): Result {
    if p.format != FORMAT then Refused(UnsupportedFormat)
    else if |original| != p.inputSize || digest(original) != p.inputDigest then Refused(WrongOriginal)
    else if !(|original| <= p.outputSize <= |original| + GROWTH) then Refused(InvalidSize)
    else if !Ordered(p.writes, 0, p.outputSize) then Refused(InvalidRange)
    else
      var out := Overwritten(original + Zeros(p.outputSize - |original|), p.writes, 0);
      if digest(out) != p.outputDigest then Refused(HashMismatch) else Patched(out)
  }

  // --------------------------------------------------------------------------
  // Applying

  lemma {:induction false} OrderedSplit(writes: seq<Write>, k: nat, first: int, size: int)
    requires k < |writes|
    ensures Ordered(writes, first, size) <==>
              && Ordered(writes[..k], first, size)
              && (if k == 0 then first else End(writes[k - 1])) <= writes[k].offset
              && Ordered(writes[k..], writes[k].offset, size)
  {
    if k > 0 {
      OrderedSplit(writes[1..], k - 1, End(writes[0]), size);
      assert writes[1..][..k - 1] == writes[..k][1..] && writes[1..][k - 1..] == writes[k..];
    } else {
      assert writes[..0] == [] && writes[0..] == writes;
    }
  }

  lemma {:induction false} OrderedPrefix(writes: seq<Write>, k: nat, first: nat, size: int)
    requires k < |writes| && Ordered(writes[..k], first, size) && (k > 0 ==> End(writes[k - 1]) >= first)
    ensures Ordered(writes[..k + 1], first, size) <==>
              (if k == 0 then first else End(writes[k - 1])) <= writes[k].offset && writes[k].data != []
                && End(writes[k]) <= size
  {
    var w := writes[..k + 1];
    OrderedSplit(w, k, first, size);
    assert w[..k] == writes[..k] && w[k..] == [writes[k]];
    assert [writes[k]][1..] == [];
  }

  /** One more write at the end of an ordered list. */
  lemma {:induction false} OverwriteLast(bytes: seq<byte>, writes: seq<Write>, first: nat)
    requires writes != [] && Ordered(writes, first, |bytes|)
    ensures var n := |writes| - 1;
      && Ordered(writes[..n], first, |bytes|) && 0 <= writes[n].offset && End(writes[n]) <= |bytes|
      && Overwritten(bytes, writes, first) == Overwrite(Overwritten(bytes, writes[..n], first), writes[n])
    decreases |writes|
  {
    var n := |writes| - 1;
    if n == 0 {
      assert writes[1..] == [] && writes[..0] == [];
    } else {
      OverwriteLast(Overwrite(bytes, writes[0]), writes[1..], End(writes[0]));
      assert writes[1..][..n - 1] == writes[..n][1..];
    }
  }

  /** `apply_patch`. */
  method ApplyPatch(original: seq<byte>, p: Patch, digest: seq<byte> -> Digest) returns (r: Result)
    ensures r == Outcome(original, p, digest)
  {
    if p.format != FORMAT {
      return Refused(UnsupportedFormat);
    }
    if |original| != p.inputSize || digest(original) != p.inputDigest {
      return Refused(WrongOriginal);
    }
    var size := p.outputSize;
    if !(|original| <= size <= |original| + GROWTH) {
      return Refused(InvalidSize);
    }
    var base := original + Zeros(size - |original|);
    var result := new byte[size](i requires 0 <= i < |base| => base[i]);
    assert result[..] == base;
    var end, k := 0, 0;
    while k < |p.writes|
      invariant 0 <= k <= |p.writes|
      invariant Ordered(p.writes[..k], 0, size)
      invariant 0 <= end == if k == 0 then 0 else End(p.writes[k - 1])
      invariant result[..] == Overwritten(base, p.writes[..k], 0)
    {
      var w := p.writes[k];
      OrderedPrefix(p.writes, k, 0, size);
      if w.offset < end || End(w) > size || w.data == [] {
        BadPrefix(p.writes, k + 1, size);
        return Refused(InvalidRange);
      }
      OverwriteLast(base, p.writes[..k + 1], 0);
      assert p.writes[..k + 1][..k] == p.writes[..k];
      Store(result, w);
      end := End(w);
      k := k + 1;
    }
    assert p.writes[..k] == p.writes;
    if digest(result[..]) != p.outputDigest {
      return Refused(HashMismatch);
    }
    return Patched(result[..]);
  }

  lemma BadPrefix(writes: seq<Write>, k: nat, size: int)
    requires k <= |writes| && !Ordered(writes[..k], 0, size)
    ensures !Ordered(writes, 0, size)
  {
    if k < |writes| {
      OrderedSplit(writes, k, 0, size);
    } else {
      assert writes[..k] == writes;
    }
  }

  /** `result[offset:offset + len(data)] = data`. */
  method Store(result: array<byte>, w: Write)
    requires 0 <= w.offset && End(w) <= result.Length
    modifies result
    ensures result[..] == Overwrite(old(result[..]), w)
  {
    var i := 0;
    while i < |w.data|
      invariant 0 <= i <= |w.data|
      invariant forall j | 0 <= j < result.Length ::
        result[j] == if w.offset <= j < w.offset + i then w.data[j - w.offset] else old(result[j])
    {
      result[w.offset + i] := w.data[i];
      i := i + 1;
    }
  }

  // --------------------------------------------------------------------------
  // Writing the patch

  predicate Differs(original: seq<byte>, target: seq<byte>, at: int)
    requires 0 <= at < |target|
  {
    at >= |original| || original[at] != target[at]
  }

  /** The writes carry target bytes, and cover exactly the places where the two differ. */
  predicate IsDiff(writes: seq<Write>, original: seq<byte>, target: seq<byte>) {
    && Ordered(writes, 0, |target|)
    && AllCopy(writes, target)
    && (forall at | 0 <= at < |target| :: Covered(writes, at) <==> Differs(original, target, at))
  }

  predicate AllCopy(writes: seq<Write>, target: seq<byte>) {
    forall k | 0 <= k < |writes| :: Copies(writes[k], target)
  }

  predicate Copies(w: Write, target: seq<byte>) {
    0 <= w.offset && End(w) <= |target| && w.data == target[w.offset..End(w)]
  }

  /** The diff up to `limit`. */
  predicate DiffBelow(writes: seq<Write>, original: seq<byte>, target: seq<byte>, limit: nat)
    requires limit <= |target|
  {
    && Ordered(writes, 0, |target|)
    && (writes != [] ==> End(writes[|writes| - 1]) <= limit)
    && AllCopy(writes, target)
    && (forall at | 0 <= at < limit :: Covered(writes, at) <==> Differs(original, target, at))
  }

  /** Closing the run that started at `start` extends the diff. */
  lemma RunAdded(writes: seq<Write>, original: seq<byte>, target: seq<byte>, start: nat, stop: nat) returns (w: Write)
    requires start < stop <= |target| && DiffBelow(writes, original, target, start)
    requires forall at | start <= at < stop :: Differs(original, target, at)
    ensures w == Write(start, target[start..stop])
    ensures DiffBelow(writes + [w], original, target, stop)
  {
    w := Write(start, target[start..stop]);
    var more := writes + [w];
    assert more[..|writes|] == writes && more[..|writes| + 1] == more;
    EndsWithin(writes, 0, |target|);
    OrderedPrefix(more, |writes|, 0, |target|);
    forall at | 0 <= at < stop ensures Covered(more, at) <==> Differs(original, target, at) {
      CoveredMore(writes, w, at);
      if Covered(writes, at) {
        assert at < start;
      }
    }
  }

  lemma {:induction false} EndsWithin(writes: seq<Write>, first: int, size: int)
    requires Ordered(writes, first, size)
    ensures forall k | 0 <= k < |writes|
        :: first <= writes[k].offset < End(writes[k]) <= End(writes[|writes| - 1]) <= size
    decreases |writes|
  {
    if |writes| > 1 {
      var rest := writes[1..];
      EndsWithin(rest, End(writes[0]), size);
      assert rest[0] == writes[1] && rest[|rest| - 1] == writes[|writes| - 1];
      assert forall k | 0 < k < |writes| :: writes[k] == rest[k - 1];
    }
  }

  lemma CoveredMore(writes: seq<Write>, w: Write, at: int)
    ensures Covered(writes + [w], at) <==> Covered(writes, at) || Covers(w, at)
  {
    var more := writes + [w];
    if Covered(writes, at) {
      var k :| 0 <= k < |writes| && Covers(writes[k], at);
      assert Covers(more[k], at);
    }
    if Covers(w, at) {
      assert Covers(more[|writes|], at);
    }
    if Covered(more, at) {
      var k :| 0 <= k < |more| && Covers(more[k], at);
      assert k < |writes| ==> Covers(writes[k], at);
    }
  }

  datatype Start = None | At(pos: nat)

  /** The diff loop: maximal runs of changed bytes, then the appended bytes. */
  method Diff(original: seq<byte>, b: seq<byte>) returns (writes: seq<Write>)
    requires |original| <= |b|
    ensures IsDiff(writes, original, b)
  {
    writes := [];
    var start := None;
    var pos := 0;
    while pos < |original|
      invariant 0 <= pos <= |original|
      invariant start.At? ==> start.pos < pos
      invariant DiffBelow(writes, original, b, if start.At? then start.pos else pos)
      invariant start.At? ==> forall at | start.pos <= at < pos :: Differs(original, b, at)
    {
      if b[pos] != original[pos] {
        if start.None? {
          start := At(pos);
        }
      } else if start.At? {
        ghost var w := RunAdded(writes, original, b, start.pos, pos);
        writes := writes + [Write(start.pos, b[start.pos..pos])];
        NotCovered(writes, original, b, pos);
        start := None;
      } else {
        NotCovered(writes, original, b, pos);
      }
      pos := pos + 1;
    }
    if start.At? {
      ghost var w := RunAdded(writes, original, b, start.pos, |original|);
      writes := writes + [Write(start.pos, b[start.pos..|original|])];
    }
    if |b| > |original| {
      ghost var w := RunAdded(writes, original, b, |original|, |b|);
      assert b[|original|..] == b[|original|..|b|];
      writes := writes + [Write(|original|, b[|original|..])];
    }
  }

  lemma NotCovered(writes: seq<Write>, original: seq<byte>, target: seq<byte>, pos: nat)
    requires pos < |target| && DiffBelow(writes, original, target, pos) && !Differs(original, target, pos)
    ensures DiffBelow(writes, original, target, pos + 1)
  {
    EndsWithin(writes, 0, |target|);
  }

  // --------------------------------------------------------------------------
  // The two undo each other

  /** Bytes no write covers keep their value; covered bytes hold the written one. */
  lemma {:induction false} OverwrittenAt(bytes: seq<byte>, writes: seq<Write>, at: nat, target: seq<byte>)
    requires Ordered(writes, 0, |bytes|) && at < |bytes| == |target|
    requires AllCopy(writes, target)
    ensures Overwritten(bytes, writes, 0)[at] == if Covered(writes, at) then target[at] else bytes[at]
    decreases |writes|
  {
    if writes != [] {
      var n := |writes| - 1;
      OverwriteLast(bytes, writes, 0);
      OverwrittenAt(bytes, writes[..n], at, target);
      assert writes == writes[..n] + [writes[n]];
      CoveredMore(writes[..n], writes[n], at);
      assert Copies(writes[n], target);
    }
  }

  function PatchOf(original: seq<byte>, target: seq<byte>, writes: seq<Write>, digest: seq<byte> -> Digest): Patch {
    Patch(FORMAT, |original|, digest(original), |target|, digest(target), writes)
  }

  /** Applying the patch to the original yields exactly the target, whenever it grew by at most 0x2000 bytes. */
  lemma PatchRestoresTarget(original: seq<byte>, target: seq<byte>, writes: seq<Write>, digest: seq<byte> -> Digest)
    requires |original| <= |target| && IsDiff(writes, original, target)
    ensures Outcome(original, PatchOf(original, target, writes, digest), digest)
            == if |target| <= |original| + GROWTH then Patched(target) else Refused(InvalidSize)
  {
    var base := original + Zeros(|target| - |original|);
    forall at | 0 <= at < |target| ensures Overwritten(base, writes, 0)[at] == target[at] {
      OverwrittenAt(base, writes, at, target);
    }
    assert Overwritten(base, writes, 0) == target;
  }

  /** Any accepted patch changes nothing outside its writes and keeps the promised digest. */
  lemma AcceptedPatchIsLocal(original: seq<byte>, p: Patch, digest: seq<byte> -> Digest, at: nat)
    requires Outcome(original, p, digest).Patched? && at < |original| && !Covered(p.writes, at)
    ensures var out := Outcome(original, p, digest).bytes;
      |original| <= |out| <= |original| + GROWTH && digest(out) == p.outputDigest && out[at] == original[at]
  {
    var base := original + Zeros(p.outputSize - |original|);
    UncoveredStays(base, p.writes, at);
  }

  lemma {:induction false} UncoveredStays(bytes: seq<byte>, writes: seq<Write>, at: nat)
    requires Ordered(writes, 0, |bytes|) && at < |bytes| && !Covered(writes, at)
    ensures Overwritten(bytes, writes, 0)[at] == bytes[at]
    decreases |writes|
  {
    if writes != [] {
      var n := |writes| - 1;
      OverwriteLast(bytes, writes, 0);
      assert writes == writes[..n] + [writes[n]];
      CoveredMore(writes[..n], writes[n], at);
      UncoveredStays(bytes, writes[..n], at);
    }
  }

  // --------------------------------------------------------------------------
  // Exactly when a patch is accepted

  /** A write with data, inside the result and behind the one before it. */
  predicate InOrder(writes: seq<Write>, k: nat, first: int, size: int)
    requires k < |writes|
  {
    && writes[k].data != [] && End(writes[k]) <= size
    && (if k == 0 then first else End(writes[k - 1])) <= writes[k].offset
  }

  lemma {:induction false} OrderedMeaning(writes: seq<Write>, first: int, size: int)
    ensures Ordered(writes, first, size) <==> forall k: nat | k < |writes| :: InOrder(writes, k, first, size)
  {
    if writes != [] {
      var rest, next := writes[1..], End(writes[0]);
      OrderedMeaning(rest, next, size);
      forall k: nat | 0 < k < |writes| ensures InOrder(writes, k, first, size) <==> InOrder(rest, k - 1, next, size) {
      }
      forall k: nat | k < |rest| ensures InOrder(rest, k, next, size) <==> InOrder(writes, k + 1, first, size) {
      }
      assert InOrder(writes, 0, first, size)
        <==> writes[0].data != [] && End(writes[0]) <= size && first <= writes[0].offset;
    }
  }

  /** The patch was made for this file and for a result that is not smaller and at most 0x2000 bytes longer. */
  predicate MadeFor(p: Patch, original: seq<byte>, digest: seq<byte> -> Digest) {
    && p.format == "skylanders-dol-patch-v1"
    && p.inputSize == |original| && p.inputDigest == digest(original)
    && |original| <= p.outputSize <= |original| + 0x2000
    && forall k: nat | k < |p.writes| :: InOrder(p.writes, k, 0, p.outputSize)
  }

  /** The original, padded with zeros, with every write carried out. */
  predicate IsResult(p: Patch, original: seq<byte>, out: seq<byte>) {
    && |out| == p.outputSize
    && forall at: nat | at < |out| :: HoldsAt(p, original, out, at)
  }

  predicate HoldsAt(p: Patch, original: seq<byte>, out: seq<byte>, at: nat)
    requires at < |out|
  {
    && (forall k: nat | k < |p.writes| && Covers(p.writes[k], at) ::
          out[at] == p.writes[k].data[at - p.writes[k].offset])
    && (!Covered(p.writes, at) ==> out[at] == if at < |original| then original[at] else 0)
  }

  /** A covered byte is the one its write carries. */
  lemma {:induction false} CoveredHolds(bytes: seq<byte>, writes: seq<Write>, k: nat, at: nat)
    requires Ordered(writes, 0, |bytes|) && k < |writes| && at < |bytes| && Covers(writes[k], at)
    ensures Overwritten(bytes, writes, 0)[at] == writes[k].data[at - writes[k].offset]
    decreases |writes|
  {
    var n := |writes| - 1;
    OverwriteLast(bytes, writes, 0);
    if k < n {
      OrderedMeaning(writes, 0, |bytes|);
      EndsWithin(writes[..n], 0, |bytes|);
      assert InOrder(writes, n, 0, |bytes|) && writes[..n][k] == writes[k];
      CoveredHolds(bytes, writes[..n], k, at);
    }
  }

  lemma ResultIsOne(p: Patch, original: seq<byte>, a: seq<byte>, b: seq<byte>)
    requires IsResult(p, original, a) && IsResult(p, original, b)
    ensures a == b
  {
    forall at: nat | at < |a| ensures a[at] == b[at] {
      assert HoldsAt(p, original, a, at) && HoldsAt(p, original, b, at);
    }
  }

  lemma OverwrittenIsResult(p: Patch, original: seq<byte>)
    requires |original| <= p.outputSize && Ordered(p.writes, 0, p.outputSize)
    ensures IsResult(p, original, Overwritten(original + Zeros(p.outputSize - |original|), p.writes, 0))
  {
    var base := original + Zeros(p.outputSize - |original|);
    var out := Overwritten(base, p.writes, 0);
    forall at: nat | at < |out| ensures HoldsAt(p, original, out, at) {
      OverwrittenHoldsAt(p, original, base, at);
    }
  }

  lemma OverwrittenHoldsAt(p: Patch, original: seq<byte>, base: seq<byte>, at: nat)
    requires |base| == p.outputSize && Ordered(p.writes, 0, |base|) && at < |base|
    requires base[at] == if at < |original| then original[at] else 0
    ensures HoldsAt(p, original, Overwritten(base, p.writes, 0), at)
  {
    var out := Overwritten(base, p.writes, 0);
    forall k: nat | k < |p.writes| && Covers(p.writes[k], at)
      ensures out[at] == p.writes[k].data[at - p.writes[k].offset]
    {
      CoveredHolds(base, p.writes, k, at);
    }
    if !Covered(p.writes, at) {
      UncoveredStays(base, p.writes, at);
    }
  }

  /** A patch is accepted exactly for the file it was made for, and if the file it describes has the promised digest. */
  lemma PatchesExactly(original: seq<byte>, p: Patch, digest: seq<byte> -> Digest, out: seq<byte>)
    ensures Outcome(original, p, digest) == Patched(out) <==>
              MadeFor(p, original, digest) && IsResult(p, original, out) && digest(out) == p.outputDigest
  {
    OrderedMeaning(p.writes, 0, p.outputSize);
    if MadeFor(p, original, digest) {
      var made := Overwritten(original + Zeros(p.outputSize - |original|), p.writes, 0);
      OverwrittenIsResult(p, original);
      if IsResult(p, original, out) {
        ResultIsOne(p, original, made, out);
      }
    }
  }
}
