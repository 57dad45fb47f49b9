// Files told from the bytes of the image alone: the numbers that stand in the FAT, the clusters they lead to, and
// what a read of a file stored so returns.
module FatChain {
  import opened Bytes
  import opened Common
  import opened FuseFat
  import opened FatRead

  // The FAT entry of cluster c lies on the image and holds n, low byte first.
  predicate LinkOnDisk(v: Volume, c: uint16, n: uint16) {
    var at := (v.layout.fatStart + 2 * c) % 0x1_0000_0000;
    at + 2 <= |v.disk| && v.disk[at] as int + 0x100 * v.disk[at + 1] as int == n
  }

  // A data cluster whose bytes lie on an image below 4 GiB.
  predicate DataOnDisk(v: Volume, c: uint16) {
    && 2 <= c < 0xFFF8
    && v.layout.dataStart + (c - 2) * v.layout.clusterSize + v.layout.clusterSize <= |v.disk| < 0x1_0000_0000
  }

  // Data clusters, each holding the number of the next one in the FAT.
  predicate ChainOnDisk(v: Volume, cs: seq<uint16>) {
    && (forall i :: 0 <= i < |cs| ==> DataOnDisk(v, cs[i]))
    && forall i :: 0 <= i < |cs| - 1 ==> LinkOnDisk(v, cs[i], cs[i + 1])
  }

  // The bytes of one cluster, and of clusters one after the other.
  function ClusterOnDisk(v: Volume, c: uint16): (r: seq<byte>)
    requires DataOnDisk(v, c)
    ensures |r| == v.layout.clusterSize
  {
    ProductMonotone(0, c - 2, v.layout.clusterSize);
    var at := v.layout.dataStart + (c - 2) * v.layout.clusterSize;
    v.disk[at..at + v.layout.clusterSize]
  }

  function Contents(v: Volume, cs: seq<uint16>): (r: seq<byte>)
    requires ChainOnDisk(v, cs)
  {
    if cs == [] then [] else ClusterOnDisk(v, cs[0]) + Contents(v, cs[1..])
  }

  lemma LinkRead(v: Volume, c: uint16, n: uint16)
    ensures LinkOnDisk(v, c, n) ==> NextCluster(v, c) == n
    ensures NextCluster(v, c) == n && n != 0xFFFF ==> LinkOnDisk(v, c, n)
  {
    var at := (v.layout.fatStart + 2 * c) % 0x1_0000_0000;
    if at + 2 <= |v.disk| {
      assert Slice(v.disk, at, 2) == v.disk[at..at + 2];
    }
  }

  lemma OnDiskIsInImage(v: Volume, c: uint16)
    ensures DataOnDisk(v, c) <==> InImage(v, c)
    ensures DataOnDisk(v, c) ==> ClusterOnDisk(v, c) == ClusterBytes(v, c)
  {
  }

  lemma ChainTail(v: Volume, cs: seq<uint16>)
    requires ChainOnDisk(v, cs) && cs != []
    ensures ChainOnDisk(v, cs[1..]) && DataOnDisk(v, cs[0])
    ensures |cs| > 1 ==> NextCluster(v, cs[0]) == cs[1] == cs[1..][0]
    ensures Contents(v, cs) == ClusterOnDisk(v, cs[0]) + Contents(v, cs[1..])
  {
    hide DataOnDisk, NextCluster;
    if |cs| > 1 {
      LinkRead(v, cs[0], cs[1]);
    }
    hide LinkOnDisk;
  }

  // A chain on the disk is what the flat contents of its clusters are made of.
  lemma {:induction false} ChainCovers(v: Volume, c: uint16, cs: seq<uint16>)
    requires ChainOnDisk(v, cs) && (cs != [] ==> cs[0] == c)
    ensures Covers(v, c, |cs|) && FlatChain(v, c, |cs|) == Contents(v, cs)
    decreases |cs|
  {
    hide DataOnDisk, LinkOnDisk, InImage, NextCluster, ClusterOnDisk, ClusterBytes, ChainOnDisk, Contents;
    if cs != [] {
      ChainTail(v, cs);
      OnDiskIsInImage(v, c);
      ImageHoldsData(v, c);
      ChainCovers(v, NextCluster(v, c), cs[1..]);
    } else {
      NoContents(v);
    }
  }

  lemma NoContents(v: Volume)
    ensures ChainOnDisk(v, []) && Contents(v, []) == []
  {
  }

  // And only such chains make up flat contents.
  lemma {:induction false} CoversChain(v: Volume, c: uint16, n: nat) returns (cs: seq<uint16>)
    requires Covers(v, c, n)
    ensures |cs| == n && ChainOnDisk(v, cs) && (cs != [] ==> cs[0] == c)
    decreases n
  {
    hide DataOnDisk, LinkOnDisk, InImage, NextCluster, ClusterOnDisk, ClusterBytes;
    cs := [];
    if n > 0 {
      var rest := CoversChain(v, NextCluster(v, c), n - 1);
      OnDiskIsInImage(v, c);
      cs := [c] + rest;
      if rest != [] {
        assert DataOnDisk(v, rest[0]);
        DataIsNoMark(v, rest[0]);
        LinkRead(v, c, rest[0]);
      }
      forall i | 0 <= i < |cs| - 1 ensures LinkOnDisk(v, cs[i], cs[i + 1]) {
        if i > 0 {
          assert cs[i] == rest[i - 1] && cs[i + 1] == rest[i];
        }
      }
    }
  }

  lemma DataIsNoMark(v: Volume, c: uint16)
    requires DataOnDisk(v, c)
    ensures c < 0xFFF8
  {
  }

  // The flat file is told by the disk: a file is well stored exactly when a chain of as many clusters as its
  // size needs stands on the disk from its first cluster on, and the flat file is the start of their contents.
  ghost predicate StoredIn(v: Volume, e: DirEntry, cs: seq<uint16>)
    requires v.layout.clusterSize > 0
  {
    && |cs| == (e.fileSize + v.layout.clusterSize - 1) / v.layout.clusterSize
    && ChainOnDisk(v, cs) && (cs != [] ==> cs[0] == e.firstCluster)
  }

  lemma FlatFileOnDisk(v: Volume, e: DirEntry)
    requires v.layout.clusterSize > 0
    ensures WellStored(v, e) <==> exists cs :: StoredIn(v, e, cs)
    ensures forall cs :: StoredIn(v, e, cs) ==>
      WellStored(v, e) && e.fileSize <= |Contents(v, cs)| && FlatFile(v, e) == Contents(v, cs)[..e.fileSize]
  {
    hide ChainOnDisk, Covers, Contents, FlatChain;
    var n := (e.fileSize + v.layout.clusterSize - 1) / v.layout.clusterSize;
    forall cs | StoredIn(v, e, cs)
      ensures WellStored(v, e) && e.fileSize <= |Contents(v, cs)| && FlatFile(v, e) == Contents(v, cs)[..e.fileSize]
    {
      ChainCovers(v, e.firstCluster, cs);
      ClustersSuffice(v, e);
    }
    if WellStored(v, e) {
      var cs := CoversChain(v, e.firstCluster, n);
      assert StoredIn(v, e, cs);
    }
  }

  // ---------------------------------------------------------------- reading a chain of any length

  // The chain's last FAT entry holds `last`; an empty chain starts there.
  predicate EndsIn(v: Volume, cs: seq<uint16>, last: uint16) { cs == [] || LinkOnDisk(v, cs[|cs| - 1], last) }

  function First(cs: seq<uint16>, last: uint16): uint16 { if cs == [] then last else cs[0] }

  lemma StepAlong(v: Volume, cs: seq<uint16>, last: uint16)
    requires ChainOnDisk(v, cs) && EndsIn(v, cs, last) && cs != []
    ensures NextCluster(v, cs[0]) == First(cs[1..], last)
    ensures ChainOnDisk(v, cs[1..]) && EndsIn(v, cs[1..], last)
  {
    hide NextCluster, LinkOnDisk;
    ChainTail(v, cs);
    LinkRead(v, cs[0], First(cs[1..], last));
    assert |cs| > 1 ==> cs[1..][|cs[1..]| - 1] == cs[|cs| - 1];
  }

  // The skip loop stops at the chain's end mark.
  lemma {:induction false} SkipAlong(v: Volume, cs: seq<uint16>, last: uint16, k: nat)
    requires ChainOnDisk(v, cs) && EndsIn(v, cs, last) && (last >= 0xFFF8 || k <= |cs|)
    ensures SkipTo(v, First(cs, last), k) == First(cs[Min(k, |cs|)..], last)
    decreases k
  {
    hide NextCluster, LinkOnDisk, ChainOnDisk, EndsIn;
    if k == 0 {
      assert cs[0..] == cs;
    } else if cs != [] {
      StepAlong(v, cs, last);
      ChainTail(v, cs);
      DataIsNoMark(v, cs[0]);
      SkipAlong(v, cs[1..], last, k - 1);
      assert cs[1..][Min(k - 1, |cs[1..]|)..] == cs[Min(k, |cs|)..];
    }
  }

  lemma {:induction false} ContentsLength(v: Volume, cs: seq<uint16>)
    requires ChainOnDisk(v, cs)
    ensures |Contents(v, cs)| == Span(v, |cs|)
    decreases |cs|
  {
    hide LinkOnDisk, DataOnDisk, ChainOnDisk, Contents;
    if cs == [] {
      NoContents(v);
    } else {
      ChainTail(v, cs);
      ContentsLength(v, cs[1..]);
    }
  }

  lemma {:induction false} TailOnDisk(v: Volume, cs: seq<uint16>, last: uint16, k: nat)
    requires ChainOnDisk(v, cs) && EndsIn(v, cs, last) && k <= |cs|
    ensures ChainOnDisk(v, cs[k..]) && EndsIn(v, cs[k..], last)
    ensures Span(v, k) <= |Contents(v, cs)|
    ensures Contents(v, cs[k..]) == Contents(v, cs)[Span(v, k)..]
    decreases k
  {
    hide LinkOnDisk, DataOnDisk, ChainOnDisk, EndsIn, Contents;
    if k == 0 {
      assert cs[0..] == cs;
    } else {
      StepAlong(v, cs, last);
      ChainTail(v, cs);
      TailOnDisk(v, cs[1..], last, k - 1);
      assert cs[1..][k - 1..] == cs[k..];
      DropMore(ClusterOnDisk(v, cs[0]), Contents(v, cs[1..]), Span(v, k - 1));
    }
  }

  lemma DropMore(a: seq<byte>, b: seq<byte>, k: nat)
    requires k <= |b|
    ensures (a + b)[|a| + k..] == b[k..]
  {
  }

  // From a state standing at the head of a chain, the loop appends the wanted stretch of the contents, or
  // what there is of it, and ends.
  lemma {:induction false} LoopReads(v: Volume, size: nat, st: ReadState, cs: seq<uint16>, last: uint16)
    requires ChainOnDisk(v, cs) && EndsIn(v, cs, last) && st.cluster == First(cs, last)
    requires |st.out| <= size && st.intra < v.layout.clusterSize
    requires last >= 0xFFF8 || st.intra + size - |st.out| <= |Contents(v, cs)|
    ensures
      var all, end := Contents(v, cs), Iterate(v, size, st, |cs|);
      && !Reading(size, end)
      && end.out == st.out + all[Min(st.intra, |all|)..Min(st.intra + size - |st.out|, |all|)]
    decreases |cs|
  {
    hide NextCluster, LinkOnDisk, ChainOnDisk, EndsIn, Contents, ReadStep, ClusterOnDisk, ClusterBytes;
    hide InImage, DataOnDisk;
    if cs == [] {
      NoContents(v);
    } else if |st.out| < size {
      StepAlong(v, cs, last);
      ChainTail(v, cs);
      OnDiskIsInImage(v, cs[0]);
      StepOut(v, size, st);
      var next := ReadStep(v, size, st);
      var here, rest := ClusterOnDisk(v, cs[0]), Contents(v, cs[1..]);
      LoopReads(v, size, next, cs[1..], last);
      JoinRest(st.out, here, rest, st.intra, size - |st.out|);
    } else {
      ChainTail(v, cs);
    }
  }

  // A stretch of a ++ b that starts inside a and may go past the end of b.
  lemma JoinRest(before: seq<byte>, a: seq<byte>, b: seq<byte>, from: nat, left: nat)
    requires from < |a|
    ensures
      var want := Min(|a| - from, left);
      before + (a + b)[from..Min(from + left, |a + b|)]
        == before + a[from..from + want] + b[0..Min(left - want, |b|)]
  {
    var want := Min(|a| - from, left);
    assert (a + b)[from..Min(from + left, |a + b|)] == a[from..from + want] + b[0..Min(left - want, |b|)];
  }

  // A file whose chain stands on the disk and either ends in an end mark or holds all its bytes: whatever the
  // two lengths, a read returns the stretch of the contents, cut to the file's size and to the chain.
  lemma ChainFileRead(v: Volume, e: DirEntry, cs: seq<uint16>, last: uint16, size: nat, offset: nat)
    requires v.layout.clusterSize > 0 && ChainOnDisk(v, cs) && EndsIn(v, cs, last) && e.firstCluster == First(cs, last)
    requires last >= 0xFFF8 || e.fileSize <= |Contents(v, cs)|
    requires offset < 0x8000_0000_0000_0000 && size < 0x8000_0000_0000_0000
    ensures HaltsBy(v, e, size, offset, |cs|)
    ensures
      var all := Contents(v, cs);
      ReadAfter(v, e, size, offset, |cs|).out == FileStretch(all[..Min(e.fileSize, |all|)], offset, size)
  {
    hide Iterate, SkipTo, ReadSize, ChainOnDisk, EndsIn, Contents, U64, Reading;
    ClampedSize(e, size, offset);
    var want := ReadSize(e, size, offset);
    if want == 0 {
      NothingWanted(v, ReadStart(v, e, offset), |cs|);
    } else {
      ReadInside(v, e, cs, last, offset, want);
      Clip(Contents(v, cs), e.fileSize, offset, size);
    }
  }

  lemma NothingWanted(v: Volume, st: ReadState, n: nat)
    requires st.intra <= v.layout.clusterSize
    ensures Iterate(v, 0, st, n) == st && !Reading(0, st)
  {
  }

  lemma Clip(all: seq<byte>, fileSize: nat, offset: nat, size: nat)
    requires offset < fileSize
    ensures
      FileStretch(all[..Min(fileSize, |all|)], offset, size)
        == all[Min(offset, |all|)..Min(Min(offset + size, fileSize), |all|)]
  {
  }

  lemma ReadInside(v: Volume, e: DirEntry, cs: seq<uint16>, last: uint16, offset: nat, want: nat)
    requires v.layout.clusterSize > 0 && ChainOnDisk(v, cs) && EndsIn(v, cs, last) && e.firstCluster == First(cs, last)
    requires last >= 0xFFF8 || offset + want <= |Contents(v, cs)|
    ensures
      var all, end := Contents(v, cs), Iterate(v, want, ReadStart(v, e, offset), |cs|);
      !Reading(want, end) && end.out == all[Min(offset, |all|)..Min(offset + want, |all|)]
  {
    hide Iterate, SkipTo, ChainOnDisk, EndsIn, Contents, Reading, Span;
    var skip, intra := offset / v.layout.clusterSize, offset % v.layout.clusterSize;
    DivisionBounds(offset, v.layout.clusterSize);
    SpanIsProduct(v, skip);
    ContentsLength(v, cs);
    TailOnDisk(v, cs, last, Min(skip, |cs|));
    if skip > |cs| {
      SpanGrows(v, |cs|, skip);
    }
    SkipAlong(v, cs, last, skip);
    var st, rest := ReadStart(v, e, offset), cs[Min(skip, |cs|)..];
    Behind(Contents(v, cs), Span(v, Min(skip, |cs|)), Span(v, skip), intra, want);
    LoopReads(v, want, st, rest, last);
    IterateStable(v, want, st, |rest|, |cs|);
  }

  lemma {:induction false} SpanGrows(v: Volume, n: nat, m: nat)
    requires n < m
    ensures Span(v, m) >= Span(v, n) + v.layout.clusterSize
    decreases m
  {
    if n < m - 1 {
      SpanGrows(v, n, m - 1);
    }
  }

  // Skipping to where the chain ends, or short of it, leaves the rest of the contents.
  lemma Behind(all: seq<byte>, skipped: nat, start: nat, intra: nat, want: nat)
    requires skipped <= |all| && (skipped == start || (skipped == |all| <= start))
    ensures
      var offset, rest := start + intra, all[skipped..];
      && rest[Min(intra, |rest|)..Min(intra + want, |rest|)] == all[Min(offset, |all|)..Min(offset + want, |all|)]
      && (offset + want <= |all| ==> intra + want <= |rest|)
  {
  }
}
