// When fusefat_read ends. Nothing in its loop bounds the number of turns, so it is a question about the
// chain: how many bytes the image holds of the clusters on the way, and where the links lead.
module FatHalting {
  import opened Bytes
  import opened Common
  import opened FuseFat
  import opened FatRead
  import opened FatChain

  // The cluster n links along.
  function Link(v: Volume, cluster: uint16, n: nat): uint16
    decreases n
  {
    if n == 0 then cluster else Link(v, NextCluster(v, cluster), n - 1)
  }

  // How many bytes the image holds of a cluster from intra on.
  function Held(v: Volume, cluster: uint16, intra: nat): nat
    requires intra <= v.layout.clusterSize
  {
    |Slice(v.disk, U32(ClusterToOffset(v.layout, cluster) + intra), v.layout.clusterSize - intra)|
  }

  // Which is what lies between that place and the end of the cluster or of the image.
  lemma HeldExactly(v: Volume, cluster: uint16, intra: nat)
    requires DataCluster(cluster) && intra < v.layout.clusterSize
    requires v.layout.dataStart + (cluster - 1) * v.layout.clusterSize < 0x1_0000_0000
    ensures
      var at := v.layout.dataStart + (cluster - 2) * v.layout.clusterSize + intra;
      Held(v, cluster, intra) ==
        if at >= |v.disk| then 0 else Min(v.layout.clusterSize - intra, |v.disk| - at)
  {
    var size := v.layout.clusterSize;
    ProductMonotone(0, cluster - 2, size);
    Distribute(cluster - 2, size);
    U32Small(v.layout.dataStart + (cluster - 2) * size);
    U32Small(v.layout.dataStart + (cluster - 2) * size + intra);
    hide U32;
  }

  // How many it holds of the first n clusters of the chain, the first one from intra on.
  function Total(v: Volume, cluster: uint16, intra: nat, n: nat): nat
    requires intra <= v.layout.clusterSize
    decreases n
  {
    if n == 0 then 0 else Held(v, cluster, intra) + Total(v, NextCluster(v, cluster), 0, n - 1)
  }

  // The chain goes through data clusters up to the one n links along.
  predicate DataUpTo(v: Volume, cluster: uint16, n: nat)
    decreases n
  {
    DataCluster(cluster) && (n == 0 || DataUpTo(v, NextCluster(v, cluster), n - 1))
  }

  // After n turns the loop is still going.
  predicate Goes(v: Volume, cluster: uint16, intra: nat, size: nat, n: nat)
    requires intra <= v.layout.clusterSize
  {
    DataUpTo(v, cluster, n) && Total(v, cluster, intra, n) < size
  }

  // The chain comes back after j links to where it was after i, through data clusters only, and the image
  // holds no byte of the clusters on the way round.
  predicate EmptyCycle(v: Volume, cluster: uint16, i: nat, j: nat) {
    && i < j && Link(v, cluster, i) == Link(v, cluster, j) && DataUpTo(v, cluster, j)
    && forall k :: i <= k < j ==> Held(v, Link(v, cluster, k), 0) == 0
  }

  // ---------------------------------------------------------------- turns and clusters

  // One turn reads what the image holds of the cluster, or what is still wanted if that is less.
  lemma TurnReads(v: Volume, size: nat, st: ReadState)
    requires Reading(size, st) && st.intra <= v.layout.clusterSize
    ensures var next := ReadStep(v, size, st);
            && |next.out| == Min(size, |st.out| + Held(v, st.cluster, st.intra))
            && next.cluster == NextCluster(v, st.cluster) && next.intra == 0
  {
    hide NextCluster, ClusterToOffset, U32;
  }

  // The loop is still going after n turns exactly when the chain has met data clusters only and the image
  // held too little of them.
  lemma {:induction false} GoingExactly(v: Volume, size: nat, st: ReadState, n: nat)
    requires st.intra <= v.layout.clusterSize && |st.out| <= size
    ensures Reading(size, Iterate(v, size, st, n))
      <==> DataUpTo(v, st.cluster, n) && |st.out| + Total(v, st.cluster, st.intra, n) < size
    decreases n
  {
    hide ReadStep, Held, NextCluster, DataCluster;
    if n > 0 && Reading(size, st) {
      TurnReads(v, size, st);
      GoingExactly(v, size, ReadStep(v, size, st), n - 1);
    }
  }

  lemma {:induction false} LinkSplits(v: Volume, cluster: uint16, a: nat, b: nat)
    ensures Link(v, cluster, a + b) == Link(v, Link(v, cluster, a), b)
    decreases a
  {
    hide NextCluster;
    if a > 0 {
      LinkSplits(v, NextCluster(v, cluster), a - 1, b);
    }
  }

  lemma {:induction false} TotalSplits(v: Volume, cluster: uint16, intra: nat, n: nat)
    requires intra <= v.layout.clusterSize
    ensures Total(v, cluster, intra, n + 1)
      == Total(v, cluster, intra, n) + Held(v, Link(v, cluster, n), if n == 0 then intra else 0)
    decreases n
  {
    hide NextCluster, Held;
    if n > 0 {
      TotalSplits(v, NextCluster(v, cluster), 0, n - 1);
    }
  }

  lemma {:induction false} TotalGrows(v: Volume, cluster: uint16, intra: nat, n: nat, m: nat)
    requires intra <= v.layout.clusterSize && n <= m
    ensures Total(v, cluster, intra, n) <= Total(v, cluster, intra, m)
    decreases m - n
  {
    hide Total, Held, Link;
    if n < m {
      TotalSplits(v, cluster, intra, n);
      TotalGrows(v, cluster, intra, n + 1, m);
    }
  }

  lemma {:induction false} DataSplits(v: Volume, cluster: uint16, n: nat)
    ensures DataUpTo(v, cluster, n + 1) <==> DataUpTo(v, cluster, n) && DataCluster(Link(v, cluster, n + 1))
    decreases n
  {
    hide NextCluster, DataCluster;
    if n > 0 {
      DataSplits(v, NextCluster(v, cluster), n - 1);
    }
  }

  lemma {:induction false} DataAt(v: Volume, cluster: uint16, n: nat, k: nat)
    requires DataUpTo(v, cluster, n) && k <= n
    ensures DataCluster(Link(v, cluster, k))
    decreases n
  {
    hide NextCluster, DataCluster;
    if k > 0 {
      DataAt(v, NextCluster(v, cluster), n - 1, k - 1);
    }
  }

  // ---------------------------------------------------------------- round and round

  lemma RoundAgain(v: Volume, cluster: uint16, i: nat, j: nat, n: nat)
    requires i < j && Link(v, cluster, i) == Link(v, cluster, j) && n >= i
    ensures Link(v, cluster, n + (j - i)) == Link(v, cluster, n)
  {
    hide Link;
    LinkSplits(v, cluster, i, n - i);
    LinkSplits(v, cluster, j, n - i);
  }

  // Wherever the chain is from i on, it is somewhere on the cycle.
  lemma {:induction false} OnCycle(v: Volume, cluster: uint16, i: nat, j: nat, n: nat) returns (k: nat)
    requires i < j && Link(v, cluster, i) == Link(v, cluster, j) && n >= i
    ensures i <= k < j && Link(v, cluster, n) == Link(v, cluster, k)
    decreases n
  {
    hide Link;
    if n < j {
      k := n;
    } else {
      RoundAgain(v, cluster, i, j, n - (j - i));
      k := OnCycle(v, cluster, i, j, n - (j - i));
    }
  }

  lemma {:induction false} CycleHoldsNothing(v: Volume, cluster: uint16, intra: nat, i: nat, j: nat, n: nat)
    requires EmptyCycle(v, cluster, i, j) && intra <= v.layout.clusterSize && n >= j
    ensures DataUpTo(v, cluster, n) && Total(v, cluster, intra, n) == Total(v, cluster, intra, j)
    decreases n
  {
    hide Link, Held, Total, DataUpTo, DataCluster;
    if n > j {
      CycleHoldsNothing(v, cluster, intra, i, j, n - 1);
      TotalSplits(v, cluster, intra, n - 1);
      DataSplits(v, cluster, n - 1);
      var k := OnCycle(v, cluster, i, j, n - 1);
      var l := OnCycle(v, cluster, i, j, n);
      DataAt(v, cluster, j, l);
    }
  }

  // Each time round a cluster the image holds something of, at least one byte is read.
  lemma {:induction false} RoundsAdd(v: Volume, cluster: uint16, intra: nat, i: nat, j: nat, k: nat, m: nat)
    returns (n: nat)
    requires intra <= v.layout.clusterSize && i < j && Link(v, cluster, i) == Link(v, cluster, j) && i <= k < j
    requires Held(v, Link(v, cluster, k), 0) > 0
    ensures n >= j && Link(v, cluster, n) == Link(v, cluster, k) && Total(v, cluster, intra, n + 1) > m
    ensures !Goes(v, cluster, intra, m, n + 1)
    decreases m
  {
    hide Link, Held, Total;
    if m == 0 {
      n := k + (j - i);
      RoundAgain(v, cluster, i, j, k);
    } else {
      var before := RoundsAdd(v, cluster, intra, i, j, k, m - 1);
      n := before + (j - i);
      RoundAgain(v, cluster, i, j, before);
      TotalGrows(v, cluster, intra, before + 1, n);
    }
    TotalSplits(v, cluster, intra, n);
  }

  // ---------------------------------------------------------------- exactly

  // Data clusters for ever, and never enough bytes: there are fewer than 0xFFF8 numbers, so the chain comes
  // back, and the image holds nothing on the way round.
  lemma EndlessComesBack(v: Volume, cluster: uint16, intra: nat, size: nat) returns (i: nat, j: nat)
    requires intra <= v.layout.clusterSize
    requires forall n: nat :: Goes(v, cluster, intra, size, n)
    ensures j <= END_OF_CHAIN && EmptyCycle(v, cluster, i, j) && Total(v, cluster, intra, j) < size
  {
    hide Link, Held, Total, DataUpTo;
    var links: seq<nat> := seq(END_OF_CHAIN + 1, n requires 0 <= n => Link(v, cluster, n) as nat);
    forall n: nat | n <= END_OF_CHAIN ensures links[n] < END_OF_CHAIN {
      assert Goes(v, cluster, intra, size, n);
      DataAt(v, cluster, n, n);
    }
    i, j := Pigeonhole(links, END_OF_CHAIN);
    assert Goes(v, cluster, intra, size, j);
    forall k | i <= k < j ensures Held(v, Link(v, cluster, k), 0) == 0 {
      if Held(v, Link(v, cluster, k), 0) > 0 {
        var n := RoundsAdd(v, cluster, intra, i, j, k, size);
      }
    }
  }

  lemma EmptyCycleIsEndless(v: Volume, cluster: uint16, intra: nat, size: nat, i: nat, j: nat, n: nat)
    requires intra <= v.layout.clusterSize && EmptyCycle(v, cluster, i, j) && Total(v, cluster, intra, j) < size
    ensures Goes(v, cluster, intra, size, n)
  {
    hide Total, Held, Link, EmptyCycle;
    if n >= j {
      CycleHoldsNothing(v, cluster, intra, i, j, n);
    } else {
      TotalGrows(v, cluster, intra, n, j);
      DataBefore(v, cluster, n, j) by { EmptyCycleData(v, cluster, i, j); }
    }
  }

  lemma EmptyCycleData(v: Volume, cluster: uint16, i: nat, j: nat)
    requires EmptyCycle(v, cluster, i, j)
    ensures DataUpTo(v, cluster, j)
  {
  }

  lemma {:induction false} DataBefore(v: Volume, cluster: uint16, n: nat, m: nat)
    requires DataUpTo(v, cluster, m) && n <= m
    ensures DataUpTo(v, cluster, n)
    decreases n
  {
    hide NextCluster, DataCluster;
    if n > 0 {
      DataBefore(v, NextCluster(v, cluster), n - 1, m - 1);
    }
  }

  // The chain from a read's first cluster runs into an empty cycle before enough bytes are held.
  ghost predicate RunsDry(v: Volume, e: DirEntry, size: nat, offset: nat)
    requires v.layout.clusterSize > 0
  {
    var st := ReadStart(v, e, offset);
    exists i: nat, j: nat ::
      j <= END_OF_CHAIN && EmptyCycle(v, st.cluster, i, j)
      && Total(v, st.cluster, st.intra, j) < ReadSize(e, size, offset)
  }

  lemma HaltsUnlessGoing(v: Volume, e: DirEntry, size: nat, offset: nat, n: nat)
    requires v.layout.clusterSize > 0
    ensures var st := ReadStart(v, e, offset);
            HaltsBy(v, e, size, offset, n) <==> !Goes(v, st.cluster, st.intra, ReadSize(e, size, offset), n)
  {
    hide Iterate, DataUpTo, Total, Reading, ReadSize;
    GoingExactly(v, ReadSize(e, size, offset), ReadStart(v, e, offset), n);
  }

  // A read runs for ever exactly when its chain comes back to a cluster through data clusters only, the image
  // holds no byte of those on the way round, and of the clusters up to there fewer than are wanted.
  lemma HaltsExactly(v: Volume, e: DirEntry, size: nat, offset: nat)
    requires v.layout.clusterSize > 0
    ensures !Halts(v, e, size, offset) <==> RunsDry(v, e, size, offset)
  {
    hide ReadStart, ReadSize, EmptyCycle, HaltsBy, Goes, Total;
    var st, wanted := ReadStart(v, e, offset), ReadSize(e, size, offset);
    if !Halts(v, e, size, offset) {
      forall n: nat ensures Goes(v, st.cluster, st.intra, wanted, n) {
        HaltsUnlessGoing(v, e, size, offset, n);
      }
      var i, j := EndlessComesBack(v, st.cluster, st.intra, wanted);
    } else {
      var n: nat :| HaltsBy(v, e, size, offset, n);
      HaltsUnlessGoing(v, e, size, offset, n);
      if RunsDry(v, e, size, offset) {
        var i: nat, j: nat :| j <= END_OF_CHAIN && EmptyCycle(v, st.cluster, i, j)
                              && Total(v, st.cluster, st.intra, j) < wanted;
        EmptyCycleIsEndless(v, st.cluster, st.intra, wanted, i, j, n);
      }
    }
  }

  // ---------------------------------------------------------------- an image on which a read never ends

  // 512 bytes to a sector and to a cluster, one sector each of boot record, FAT and root directory, and no
  // data area. Cluster 2 links to itself; the root holds one file, A, that starts there.
  function StuckByte(at: nat): byte {
    if at == 12 then 2                                  // bytes per sector
    else if at == 13 then 1                             // sectors per cluster
    else if at == 14 || at == 16 || at == 22 then 1     // reserved sectors, FATs, sectors per FAT
    else if at == 17 then 16                            // root entries
    else if at == 516 then 2                            // link of cluster 2
    else if at == 1024 then 65                          // the file's name
    else if 1025 <= at < 1035 then SPACE
    else if at == 1035 then 0x20                        // its attribute
    else if at == 1050 then 2                           // its first cluster
    else if at == 1052 then 100                         // its size
    else 0
  }

  function StuckImage(): (r: seq<byte>)
    ensures |r| == 1536
  {
    seq(1536, at requires 0 <= at => StuckByte(at))
  }

  function StuckFile(): DirEntry { DirEntry(Pad([65], 8), Pad([], 3), 0x20, 2, 100) }

  lemma StuckHead()
    ensures var s := StuckImage();
            && s[11] == 0 && s[12] == 2 && s[13] == 1 && s[14] == 1 && s[15] == 0
            && s[16] == 1 && s[17] == 16 && s[18] == 0 && s[22] == 1 && s[23] == 0
  {
  }

  lemma StuckLayout()
    ensures ComputeLayout(ParseBpb(StuckImage())) == Layout(512, 1024, 1536, 512, 16)
  {
    StuckHead();
    hide StuckImage, StuckByte;
    assert ParseBpb(StuckImage()) == Bpb(512, 1, 1, 1, 16, 1);
  }

  function StuckVolume(): Volume { Volume(StuckImage(), Layout(512, 1024, 1536, 512, 16)) }

  lemma StuckSlot()
    ensures SlotAt(StuckVolume(), 1024, 0) == Some(StuckFile())
  {
    var s := StuckImage()[1024..1056];
    assert forall k :: 0 <= k < 32 ==> s[k] == StuckByte(1024 + k);
    assert s[0..8] == StuckFile().name && s[8..11] == StuckFile().ext;
    hide StuckImage;
  }

  lemma StuckName()
    ensures StuckFile().Valid() && !StuckFile().Hidden() && Name(StuckFile()) == [65] && StuckFile().name[0] == 65
  {
    ShortNameRoundTrip([65], [], 0x20, 2, 100);
  }

  lemma StuckScan()
    ensures FirstMatch(ListRegion(StuckVolume(), Region(1024, 16)), [65]) == Some(StuckFile())
  {
    StuckSlot();
    StuckName();
    hide SlotAt, Name, Listing, FirstMatch, StuckFile, StuckVolume;
    ScanStep(StuckVolume(), 1024, 0, 16, [65]);
  }

  lemma StuckComponents()
    ensures Components([SLASH, 65]) == [[65]]
  {
    assert [SLASH, 65][1..] == [65];
    TokensOfComponent([65]);
    hide Tokens;
  }

  lemma StuckLookup()
    ensures Lookup(StuckVolume(), [SLASH, 65]) == Ok(StuckFile())
  {
    hide Components, Walk, FirstMatch, ListRegion, StuckFile, StuckImage;
    StuckComponents();
    StuckScan();
    WalkOne(StuckVolume(), Region(1024, 16), [65]);
  }

  lemma CycleOfOne(v: Volume, cluster: uint16)
    requires DataCluster(cluster) && NextCluster(v, cluster) == cluster && Held(v, cluster, 0) == 0
    ensures EmptyCycle(v, cluster, 0, 1) && Total(v, cluster, 0, 1) == 0
  {
    hide NextCluster, Held;
    assert Link(v, cluster, 0) == cluster && Link(v, cluster, 1) == cluster;
  }

  lemma StuckLinkBytes()
    ensures StuckImage()[516] == 2 && StuckImage()[517] == 0
  {
  }

  lemma StuckCluster()
    ensures ClusterToOffset(StuckVolume().layout, 2) == 1536 && Held(StuckVolume(), 2, 0) == 0
  {
    hide StuckImage, StuckByte;
  }

  lemma CycleRunsDry(v: Volume, e: DirEntry, size: nat, cluster: uint16)
    requires v.layout.clusterSize > 0 && ReadStart(v, e, 0) == ReadState(cluster, 0, [])
    requires EmptyCycle(v, cluster, 0, 1) && Total(v, cluster, 0, 1) < ReadSize(e, size, 0)
    ensures RunsDry(v, e, size, 0)
  {
    hide ReadStart, ReadSize, EmptyCycle, Total;
  }

  lemma StuckStart(size: nat)
    requires 0 < size < 0x8000_0000_0000_0000
    ensures ReadStart(StuckVolume(), StuckFile(), 0) == ReadState(2, 0, []) && ReadSize(StuckFile(), size, 0) > 0
  {
    hide StuckImage, StuckByte;
  }

  // Mounted, this image has a file any read of which never ends.
  lemma ReadDiverges(size: nat)
    requires 0 < size < 0x8000_0000_0000_0000
    ensures
      var v := Volume(StuckImage(), ComputeLayout(ParseBpb(StuckImage())));
      Lookup(v, [SLASH, 65]) == Ok(StuckFile()) && v.layout.clusterSize > 0 && !Halts(v, StuckFile(), size, 0)
  {
    hide Lookup, ParseBpb, ComputeLayout, Halts, EmptyCycle, Total, Held, NextCluster, StuckImage, StuckFile;
    hide RunsDry, ReadStart, ReadSize, ClusterToOffset;
    StuckLayout();
    StuckLookup();
    StuckLinkBytes();
    LinkRead(StuckVolume(), 2, 2);
    StuckCluster();
    CycleOfOne(StuckVolume(), 2);
    StuckStart(size);
    CycleRunsDry(StuckVolume(), StuckFile(), size, 2);
    HaltsExactly(StuckVolume(), StuckFile(), size, 0);
  }
}
