// Cluster chains and fusefat_read: the two loops of a read against the flat file they stand for.
module FatRead {
  import opened Bytes
  import opened Common
  import opened FuseFat

  // ---------------------------------------------------------------- layout

  lemma U32Small(x: int)
    requires 0 <= x < 0x1_0000_0000
    ensures U32(x) == x
  {
  }

  // When the layout sums fit in 32 bits, the FATs, the root directory and the data area follow one
  // another: a FAT slot ends before the root directory, and two data clusters never overlap.
  lemma LayoutRegionsDisjoint(b: Bpb, c: uint16, d: uint16)
    requires 2 <= c < d && 2 * c + 2 <= b.numFats * b.fatSize16 * b.bytesPerSector
    requires b.reservedSectors * b.bytesPerSector + b.numFats * b.fatSize16 * b.bytesPerSector
             + b.rootEntryCount * ENTRY_SIZE
             + (d - 1) * (b.sectorsPerCluster * b.bytesPerSector) < 0x1_0000_0000
    ensures var l := ComputeLayout(b);
            && l.fatStart <= U32(l.fatStart + c * 2) && U32(l.fatStart + c * 2) + 2 <= l.rootDirStart
            && l.rootDirStart + l.rootEntries * ENTRY_SIZE == l.dataStart <= ClusterToOffset(l, c)
            && ClusterToOffset(l, c) + l.clusterSize <= ClusterToOffset(l, d)
  {
    hide U32;
    var cs := b.sectorsPerCluster * b.bytesPerSector;
    var fats := b.numFats * b.fatSize16 * b.bytesPerSector;
    var reserved := b.reservedSectors * b.bytesPerSector;
    ProductMonotone(0, b.sectorsPerCluster, b.bytesPerSector);
    ProductMonotone(0, b.reservedSectors, b.bytesPerSector);
    ProductMonotone(0, c - 2, cs);
    ProductMonotone(c - 1, d - 2, cs);
    Distribute(c - 2, cs);
    Distribute(d - 2, cs);
    LayoutSums(b.rootEntryCount, c, reserved, fats, cs, (c - 2) * cs, (d - 2) * cs);
    assert ComputeLayout(b).clusterSize == cs;
  }

  // The places C computes are the true ones, up to that of a cluster, exactly when that place is below
  // 2^32. The FAT's own and the cluster size always are.
  lemma PlacedExactly(b: Bpb, c: uint16)
    requires c >= 2
    ensures
      var l := ComputeLayout(b);
      var root := b.reservedSectors * b.bytesPerSector + b.numFats * b.fatSize16 * b.bytesPerSector;
      var data := root + b.rootEntryCount * ENTRY_SIZE;
      var at := data + (c - 2) * (b.sectorsPerCluster * b.bytesPerSector);
      (l.rootDirStart == root && l.dataStart == data && ClusterToOffset(l, c) == at) <==> at < 0x1_0000_0000
    ensures ComputeLayout(b).fatStart == b.reservedSectors * b.bytesPerSector
    ensures ComputeLayout(b).clusterSize == b.sectorsPerCluster * b.bytesPerSector
    ensures ComputeLayout(b).rootEntries == b.rootEntryCount
  {
    var reserved, fats := b.reservedSectors * b.bytesPerSector, b.numFats * b.fatSize16 * b.bytesPerSector;
    var cs := b.sectorsPerCluster * b.bytesPerSector;
    ProductBelow(b.reservedSectors, b.bytesPerSector);
    ProductBelow(b.sectorsPerCluster, b.bytesPerSector);
    ProductMonotone(0, b.numFats, b.fatSize16);
    ProductMonotone(0, b.numFats * b.fatSize16, b.bytesPerSector);
    ProductMonotone(0, c - 2, cs);
    WrapsExactly(reserved, fats, b.rootEntryCount * ENTRY_SIZE, (c - 2) * cs);
    U32Small(cs);
    U32Small(reserved);
    hide U32;
    assert ComputeLayout(b).clusterSize == cs && ComputeLayout(b).fatStart == reserved;
  }

  lemma ProductBelow(a: uint16, b: uint16)
    ensures 0 <= a * b < 0x1_0000_0000
  {
    ProductMonotone(0, a, b);
    ProductMonotone(a, 0xFFFF, b);
  }

  lemma WrapsExactly(reserved: nat, fats: nat, roots: nat, at: nat)
    requires reserved < 0x1_0000_0000
    ensures
      var root := U32(U32(reserved) + fats);
      var data := U32(root + roots);
      (root == reserved + fats && data == reserved + fats + roots && U32(data + at) == reserved + fats + roots + at)
        <==> reserved + fats + roots + at < 0x1_0000_0000
  {
  }

  lemma LayoutSums(roots: uint16, c: uint16, reserved: nat, fats: nat, cs: nat, atC: nat, atD: nat)
    requires 2 * c + 2 <= fats && atC + cs <= atD
    requires reserved + fats + roots * ENTRY_SIZE + atD + cs < 0x1_0000_0000
    ensures var fat := U32(reserved);
            var root := U32(fat + fats);
            var data := U32(root + roots * ENTRY_SIZE);
            && U32(cs) == cs
            && fat <= U32(fat + c * 2) && U32(fat + c * 2) + 2 <= root
            && root + roots * ENTRY_SIZE == data <= U32(data + atC)
            && U32(data + atC) + cs <= U32(data + atD)
  {
    U32Small(cs);
    U32Small(reserved);
    U32Small(reserved + c * 2);
    U32Small(reserved + fats);
    var data := reserved + fats + roots * ENTRY_SIZE;
    U32Small(data);
    U32Small(data + atC);
    U32Small(data + atD);
    hide U32;
  }

  lemma ProductMonotone(a: int, b: int, k: nat)
    requires a <= b
    ensures a * k <= b * k
  {
  }

  lemma Distribute(a: int, k: int)
    ensures (a + 1) * k == a * k + k
  {
  }

  // ---------------------------------------------------------------- chains

  // The skip loop: at most k links, stopping at an end-of-chain mark.
  function SkipTo(v: Volume, cluster: uint16, k: nat): uint16
    decreases k
  {
    if k == 0 || cluster >= END_OF_CHAIN then cluster else SkipTo(v, NextCluster(v, cluster), k - 1)
  }

  predicate DataCluster(cluster: uint16) { 2 <= cluster < END_OF_CHAIN }

  predicate InImage(v: Volume, cluster: uint16) {
    && DataCluster(cluster)
    && v.layout.dataStart + (cluster - 2) * v.layout.clusterSize + v.layout.clusterSize <= |v.disk| < 0x1_0000_0000
  }

  // The next n clusters of the chain are data clusters lying wholly inside the image.
  predicate Covers(v: Volume, cluster: uint16, n: nat)
    decreases n
  {
    n == 0 || (DataCluster(cluster) && InImage(v, cluster) && Covers(v, NextCluster(v, cluster), n - 1))
  }

  function ClusterBytes(v: Volume, cluster: uint16): (r: seq<byte>)
    requires InImage(v, cluster)
    ensures |r| == v.layout.clusterSize
  {
    ProductMonotone(0, cluster - 2, v.layout.clusterSize);
    var at := v.layout.dataStart + (cluster - 2) * v.layout.clusterSize;
    v.disk[at..at + v.layout.clusterSize]
  }

  // The byte length of n clusters.
  function Span(v: Volume, n: nat): nat {
    if n == 0 then 0 else v.layout.clusterSize + Span(v, n - 1)
  }

  lemma {:induction false} SpanIsProduct(v: Volume, n: nat)
    ensures Span(v, n) == n * v.layout.clusterSize
  {
    if n > 0 {
      SpanIsProduct(v, n - 1);
      Distribute(n - 1, v.layout.clusterSize);
    }
  }

  // A read inside one cluster of the image delivers that stretch of it.
  lemma SliceOfCluster(v: Volume, cluster: uint16, intra: nat, want: nat)
    requires InImage(v, cluster) && intra + want <= v.layout.clusterSize && intra < v.layout.clusterSize
    ensures Slice(v.disk, U32(ClusterToOffset(v.layout, cluster) + intra), want)
            == ClusterBytes(v, cluster)[intra..intra + want]
  {
    ProductMonotone(0, cluster - 2, v.layout.clusterSize);
    var at := v.layout.dataStart + (cluster - 2) * v.layout.clusterSize;
    U32Small(at);
    U32Small(at + intra);
  }

  // The contents of n clusters of the chain, one after the other.
  function FlatChain(v: Volume, cluster: uint16, n: nat): (r: seq<byte>)
    requires Covers(v, cluster, n)
    ensures |r| == Span(v, n)
    decreases n
  {
    if n == 0 then [] else
      ClusterBytes(v, cluster) + FlatChain(v, NextCluster(v, cluster), n - 1)
  }

  function ClustersFor(v: Volume, e: DirEntry): nat
    requires v.layout.clusterSize > 0
  {
    (e.fileSize + v.layout.clusterSize - 1) / v.layout.clusterSize
  }

  predicate WellStored(v: Volume, e: DirEntry) {
    v.layout.clusterSize > 0 && Covers(v, e.firstCluster, ClustersFor(v, e))
  }

  lemma ClustersSuffice(v: Volume, e: DirEntry)
    requires v.layout.clusterSize > 0
    ensures e.fileSize <= Span(v, ClustersFor(v, e))
  {
    SpanIsProduct(v, ClustersFor(v, e));
    DivisionBounds(e.fileSize + v.layout.clusterSize - 1, v.layout.clusterSize);
  }

  lemma DivisionBounds(a: nat, k: nat)
    requires k > 0
    ensures a == a / k * k + a % k && 0 <= a / k && 0 <= a % k < k
  {
  }

  // The flat file a directory entry stands for.
  function FlatFile(v: Volume, e: DirEntry): (r: seq<byte>)
    requires WellStored(v, e)
    ensures |r| == e.fileSize
  {
    ClustersSuffice(v, e);
    FlatChain(v, e.firstCluster, ClustersFor(v, e))[..e.fileSize]
  }

  // The skip loop drops whole clusters from the front of the chain.
  lemma {:induction false} SkipInChain(v: Volume, cluster: uint16, n: nat, k: nat) returns (skipped: seq<byte>)
    requires Covers(v, cluster, n) && k <= n
    ensures Covers(v, SkipTo(v, cluster, k), n - k)
    ensures |skipped| == Span(v, k)
    ensures FlatChain(v, cluster, n) == skipped + FlatChain(v, SkipTo(v, cluster, k), n - k)
    decreases k
  {
    hide ClusterBytes, NextCluster, InImage;
    skipped := [];
    if k > 0 {
      var next := NextCluster(v, cluster);
      skipped := SkipInChain(v, next, n - 1, k - 1);
      var head := ClusterBytes(v, cluster);
      Associate(head, skipped, FlatChain(v, SkipTo(v, next, k - 1), n - k));
      skipped := head + skipped;
    }
  }

  // ---------------------------------------------------------------- the read loop

  datatype ReadState = ReadState(cluster: uint16, intra: nat, out: seq<byte>)

  // The read loop's guard.
  predicate Reading(size: nat, st: ReadState) {
    |st.out| < size && DataCluster(st.cluster)
  }

  function ReadStep(v: Volume, size: nat, st: ReadState): (r: ReadState)
    requires Reading(size, st) && st.intra <= v.layout.clusterSize
    ensures |r.out| <= size && r.intra == 0
  {
    var want := Min(v.layout.clusterSize - st.intra, size - |st.out|);
    ReadState(NextCluster(v, st.cluster), 0,
              st.out + Slice(v.disk, U32(ClusterToOffset(v.layout, st.cluster) + st.intra), want))
  }

  // n turns of the loop, or fewer when it ends.
  function Iterate(v: Volume, size: nat, st: ReadState, n: nat): (r: ReadState)
    requires st.intra <= v.layout.clusterSize
    ensures |st.out| <= size ==> |r.out| <= size
    decreases n
  {
    if n == 0 || !Reading(size, st) then st else Iterate(v, size, ReadStep(v, size, st), n - 1)
  }

  // The byte count after clamping to the file size; the sum is a 64-bit one.
  function ReadSize(e: DirEntry, size: nat, offset: nat): nat {
    if offset >= e.fileSize then 0
    else if U64(offset + size) > e.fileSize then e.fileSize - offset
    else size
  }

  function ReadStart(v: Volume, e: DirEntry, offset: nat): (r: ReadState)
    requires v.layout.clusterSize > 0
    ensures r.intra < v.layout.clusterSize
  {
    ReadState(SkipTo(v, e.firstCluster, offset / v.layout.clusterSize), offset % v.layout.clusterSize, [])
  }

  function ReadAfter(v: Volume, e: DirEntry, size: nat, offset: nat, n: nat): (r: ReadState)
    requires v.layout.clusterSize > 0
    ensures |r.out| <= ReadSize(e, size, offset)
  {
    Iterate(v, ReadSize(e, size, offset), ReadStart(v, e, offset), n)
  }

  predicate HaltsBy(v: Volume, e: DirEntry, size: nat, offset: nat, n: nat)
    requires v.layout.clusterSize > 0
  {
    !Reading(ReadSize(e, size, offset), ReadAfter(v, e, size, offset, n))
  }

  ghost predicate Halts(v: Volume, e: DirEntry, size: nat, offset: nat)
    requires v.layout.clusterSize > 0
  {
    exists n: nat :: HaltsBy(v, e, size, offset, n)
  }

  lemma {:induction false} IterateStable(v: Volume, size: nat, st: ReadState, n: nat, m: nat)
    requires st.intra <= v.layout.clusterSize && n <= m
    requires !Reading(size, Iterate(v, size, st, n))
    ensures Iterate(v, size, st, m) == Iterate(v, size, st, n)
    decreases n
  {
    if Reading(size, st) {
      IterateStable(v, size, ReadStep(v, size, st), n - 1, m - 1);
    }
  }

  // A read that ends has one outcome.
  lemma OutcomeUnique(v: Volume, e: DirEntry, size: nat, offset: nat, n: nat, m: nat)
    requires v.layout.clusterSize > 0
    requires HaltsBy(v, e, size, offset, n) && HaltsBy(v, e, size, offset, m)
    ensures ReadAfter(v, e, size, offset, n) == ReadAfter(v, e, size, offset, m)
  {
    var k := if n <= m then n else m;
    IterateStable(v, ReadSize(e, size, offset), ReadStart(v, e, offset), k, n);
    IterateStable(v, ReadSize(e, size, offset), ReadStart(v, e, offset), k, m);
  }

  // The loop collects exactly the wanted stretch of the chain, and needs no more turns than clusters,
  // whatever the links beyond them say (the chain may be cyclic).
  lemma {:induction false} LoopCollects(v: Volume, size: nat, st: ReadState, n: nat)
    requires st.intra < v.layout.clusterSize && |st.out| <= size
    requires Covers(v, st.cluster, n) && st.intra + (size - |st.out|) <= Span(v, n)
    ensures !Reading(size, Iterate(v, size, st, n))
    ensures Iterate(v, size, st, n).out
            == st.out + FlatChain(v, st.cluster, n)[st.intra..st.intra + (size - |st.out|)]
    decreases n
  {
    hide Covers, ReadStep, Span, FlatChain, InImage, NextCluster;
    if |st.out| < size {
      StepCollects(v, size, st, n);
      LoopCollects(v, size, ReadStep(v, size, st), n - 1);
    }
  }

  // One turn of the loop takes the stretch of the first cluster that is still wanted, and leaves the
  // rest of the wanted stretch at the start of the remaining clusters.
  lemma StepCollects(v: Volume, size: nat, st: ReadState, n: nat)
    requires |st.out| < size && st.intra < v.layout.clusterSize && Covers(v, st.cluster, n)
    requires st.intra + (size - |st.out|) <= Span(v, n)
    ensures n > 0 && Reading(size, st)
    ensures var next := ReadStep(v, size, st);
            && Covers(v, next.cluster, n - 1) && size - |next.out| <= Span(v, n - 1)
            && st.out + FlatChain(v, st.cluster, n)[st.intra..st.intra + (size - |st.out|)]
               == next.out + FlatChain(v, next.cluster, n - 1)[0..size - |next.out|]
  {
    hide NextCluster, InImage, ClusterBytes, ReadStep;
    StepOut(v, size, st);
    var next := ReadStep(v, size, st);
    var cluster, rest := ClusterBytes(v, st.cluster), FlatChain(v, next.cluster, n - 1);
    assert FlatChain(v, st.cluster, n) == cluster + rest;
    hide *;
    JoinStretch(st.out, cluster, rest, st.intra, size - |st.out|);
  }

  lemma StepOut(v: Volume, size: nat, st: ReadState)
    requires |st.out| < size && st.intra < v.layout.clusterSize && InImage(v, st.cluster)
    ensures Reading(size, st) && ReadStep(v, size, st).cluster == NextCluster(v, st.cluster)
    ensures var want := Min(v.layout.clusterSize - st.intra, size - |st.out|);
            ReadStep(v, size, st).out == st.out + ClusterBytes(v, st.cluster)[st.intra..st.intra + want]
  {
    hide NextCluster, ClusterToOffset, U32, ClusterBytes, Slice, InImage;
    ImageHoldsData(v, st.cluster);
    SliceOfCluster(v, st.cluster, st.intra, Min(v.layout.clusterSize - st.intra, size - |st.out|));
  }

  lemma ImageHoldsData(v: Volume, cluster: uint16)
    requires InImage(v, cluster)
    ensures DataCluster(cluster)
  {
  }

  // A stretch of a ++ b that starts inside a.
  lemma JoinStretch(before: seq<byte>, a: seq<byte>, b: seq<byte>, from: nat, left: nat)
    requires from < |a| && from + left <= |a| + |b|
    ensures var want := Min(|a| - from, left);
            before + (a + b)[from..from + left] == before + a[from..from + want] + b[0..left - want]
  {
    var want := Min(|a| - from, left);
    assert (a + b)[from..from + left] == a[from..from + want] + b[0..left - want];
  }

  // The 64-bit sum in the clamp does not wrap for sizes and offsets a caller can pass.
  lemma ClampedSize(e: DirEntry, size: nat, offset: nat)
    requires offset < 0x8000_0000_0000_0000 && size < 0x8000_0000_0000_0000
    ensures offset < e.fileSize ==> ReadSize(e, size, offset) == Min(offset + size, e.fileSize) - offset
    ensures offset >= e.fileSize ==> ReadSize(e, size, offset) == 0
  {
  }

  // Where the skip loop leaves a read that starts inside the first n clusters.
  lemma StartPoint(v: Volume, e: DirEntry, offset: nat, n: nat) returns (skip: nat, intra: nat)
    requires v.layout.clusterSize > 0 && offset < Span(v, n)
    ensures skip < n && intra < v.layout.clusterSize && offset == Span(v, skip) + intra
    ensures ReadStart(v, e, offset) == ReadState(SkipTo(v, e.firstCluster, skip), intra, [])
  {
    skip, intra := offset / v.layout.clusterSize, offset % v.layout.clusterSize;
    DivisionBounds(offset, v.layout.clusterSize);
    SpanIsProduct(v, skip);
    SpanIsProduct(v, n);
    if skip >= n {
      ProductMonotone(n, skip, v.layout.clusterSize);
      assert false;
    }
  }

  // Skip, then collect: any stretch inside n covered clusters.
  lemma ReadStretch(v: Volume, first: uint16, n: nat, skip: nat, intra: nat, want: nat)
    requires Covers(v, first, n) && intra < v.layout.clusterSize && skip < n
    requires Span(v, skip) + intra + want <= Span(v, n)
    ensures var end := Iterate(v, want, ReadState(SkipTo(v, first, skip), intra, []), n);
            && !Reading(want, end)
            && end.out == FlatChain(v, first, n)[Span(v, skip) + intra..Span(v, skip) + intra + want]
  {
    hide Covers, Iterate, FlatChain, SkipTo, Span;
    var st := ReadState(SkipTo(v, first, skip), intra, []);
    var skipped := SkipInChain(v, first, n, skip);
    var rest := FlatChain(v, st.cluster, n - skip);
    assert |skipped + rest| == Span(v, n);
    LoopCollects(v, want, st, n - skip);
    IterateStable(v, want, st, n - skip, n);
    TakePast(skipped, rest, intra, want);
  }

  // What a read of a flat file returns: the bytes from offset on, clamped to the file's end.
  function FileStretch(file: seq<byte>, offset: nat, size: nat): seq<byte> {
    if offset >= |file| then [] else file[offset..Min(offset + size, |file|)]
  }

  // fusefat_read returns exactly that stretch of the flat file.
  lemma ReadRefinesFlatFile(v: Volume, e: DirEntry, size: nat, offset: nat)
    requires WellStored(v, e) && offset < 0x8000_0000_0000_0000 && size < 0x8000_0000_0000_0000
    ensures HaltsBy(v, e, size, offset, ClustersFor(v, e))
    ensures ReadAfter(v, e, size, offset, ClustersFor(v, e)).out == FileStretch(FlatFile(v, e), offset, size)
  {
    hide Covers, Iterate, FlatChain, SkipTo, ReadSize, ClustersFor, ReadStart, Span, U64;
    ClampedSize(e, size, offset);
    if offset < e.fileSize {
      var n, want := ClustersFor(v, e), ReadSize(e, size, offset);
      ClustersSuffice(v, e);
      var skip, intra := StartPoint(v, e, offset, n);
      ReadStretch(v, e.firstCluster, n, skip, intra, want);
      assert FlatFile(v, e)[offset..offset + want] == FlatChain(v, e.firstCluster, n)[offset..offset + want];
    }
  }

  lemma TakePast(a: seq<byte>, b: seq<byte>, from: nat, want: nat)
    requires from + want <= |b|
    ensures (a + b)[|a| + from..|a| + from + want] == b[from..from + want]
  {
  }

  // Two adjacent reads give what one long read gives.
  lemma AdjacentReadsConcatenate(v: Volume, e: DirEntry, offset: nat, size1: nat, size2: nat)
    requires WellStored(v, e) && offset + size1 + size2 < 0x8000_0000_0000_0000
    ensures var n := ClustersFor(v, e);
            ReadAfter(v, e, size1, offset, n).out + ReadAfter(v, e, size2, offset + size1, n).out
            == ReadAfter(v, e, size1 + size2, offset, n).out
  {
    hide *;
    ReadRefinesFlatFile(v, e, size1, offset);
    ReadRefinesFlatFile(v, e, size2, offset + size1);
    ReadRefinesFlatFile(v, e, size1 + size2, offset);
    AdjacentStretches(FlatFile(v, e), offset, size1, size2);
  }

  lemma AdjacentStretches(file: seq<byte>, at: nat, size1: nat, size2: nat)
    ensures FileStretch(file, at, size1) + FileStretch(file, at + size1, size2)
            == FileStretch(file, at, size1 + size2)
  {
  }
}
