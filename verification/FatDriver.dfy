// The driver of fuse_fat.c: one open image with a file position, and the operations over it.
module FatDriver {
  import opened Bytes
  import opened Common
  import opened FuseFat
  import opened FatRead

  // Copies a field up to its first space, as the loops of format_name do.
  method CopyField(field: Str, out: array<byte>, at: nat) returns (pos: nat)
    requires at + |field| < out.Length
    modifies out
    ensures pos == at + |UntilSpace(field)|
    ensures out[..pos] == old(out[..at]) + UntilSpace(field)
  {
    var i := 0;
    pos := at;
    while i < |field| && field[i] != SPACE
      invariant 0 <= i <= |UntilSpace(field)| && pos == at + i
      invariant out[..pos] == old(out[..at]) + field[..i]
    {
      out[pos] := field[i];
      pos := pos + 1;
      i := i + 1;
    }
    assert i == |UntilSpace(field)|;
  }

  method FormatNameInto(e: DirEntry, out: array<byte>)
    requires e.Valid() && out.Length == 13
    modifies out
    ensures CString(out[..]) == Name(e)
  {
    hide UntilSpace, CString, FormatName;
    NameParts(e);
    var pos := CopyField(e.name, out, 0);
    if e.ext[0] != SPACE {
      ghost var base := out[..pos];
      out[pos] := DOT;
      assert out[..pos + 1] == base + [DOT];
      pos := CopyField(e.ext, out, pos + 1);
    }
    assert out[..pos] == FormatName(e);
    Terminate(out, pos);
  }

  lemma NameParts(e: DirEntry)
    requires e.Valid()
    ensures FormatName(e)
      == if e.ext[0] != SPACE then UntilSpace(e.name) + [DOT] + UntilSpace(e.ext) else [] + UntilSpace(e.name)
  {
    hide UntilSpace;
  }

  // The terminating zero behind what has been written.
  method Terminate(out: array<byte>, pos: nat)
    requires pos < out.Length
    modifies out
    ensures CString(out[..]) == CString(old(out[..pos]))
  {
    hide CString;
    ghost var s := out[..pos];
    out[pos] := 0;
    CStringStops(out[..], pos);
    assert out[..][..pos] == s;
  }

  class FatDriver {
    const disk: seq<byte>
    var filePos: nat
    var layout: Layout

    constructor (image: seq<byte>)
      ensures disk == image && filePos == 0
    {
      disk := image;
      filePos := 0;
      layout := Layout(0, 0, 0, 0, 0);
    }

    function Vol(): Volume
      reads this
    {
      Volume(disk, layout)
    }

    method Fread(want: nat) returns (got: seq<byte>)
      modifies this`filePos
      ensures got == Slice(disk, old(filePos), want)
      ensures filePos == old(filePos) + |got|
    {
      got := Slice(disk, filePos, want);
      filePos := filePos + |got|;
    }

    // fread into the caller's buffer at `at`; returns the number of bytes delivered.
    method FreadInto(buf: array<byte>, at: nat, want: nat) returns (k: nat)
      requires at + want <= buf.Length
      modifies this`filePos, buf
      ensures k == |Slice(disk, old(filePos), want)|
      ensures buf[..at + k] == old(buf[..at]) + Slice(disk, old(filePos), want)
      ensures buf[at + k..] == old(buf[at + k..])
    {
      hide Slice;
      ghost var before := buf[..];
      var got := Fread(want);
      CopyInto(buf, at, got);
      SpliceParts(before, at, got);
      k := |got|;
    }

    // Reads the boot sector and computes the layout; false for an image too short to hold one.
    method Mount() returns (ok: bool)
      modifies this
      ensures ok <==> |disk| >= BPB_SIZE
      ensures ok ==> layout == ComputeLayout(ParseBpb(disk))
    {
      filePos := 0;
      var sector := Fread(BPB_SIZE);
      ok := |sector| == BPB_SIZE;
      if ok {
        assert ParseBpb(sector) == ParseBpb(disk);
        layout := ComputeLayout(ParseBpb(sector));
      }
    }

    method FatNextCluster(cluster: uint16) returns (next: uint16)
      modifies this`filePos
      ensures next == NextCluster(Vol(), cluster)
      ensures
        var at := (layout.fatStart + 2 * cluster) % 0x1_0000_0000;
        next == if at + 2 <= |disk| then disk[at] as int + 0x100 * disk[at + 1] as int else 0xFFFF
    {
      filePos := U32(layout.fatStart + cluster * 2);
      var s := Fread(2);
      if |s| != 2 {
        return 0xFFFF;
      }
      next := Le16(s[0], s[1]);
    }

    // Reads the directory slot at the file position.
    method ReadSlot(ghost off: nat, ghost j: nat) returns (slot: Option<DirEntry>)
      requires filePos == off + j * ENTRY_SIZE
      modifies this`filePos
      ensures slot == SlotAt(Vol(), off, j)
      ensures slot.Some? ==> filePos == off + (j + 1) * ENTRY_SIZE && slot.value.Valid()
    {
      var s := Fread(ENTRY_SIZE);
      slot := if |s| == ENTRY_SIZE then Some(ParseEntry(s)) else None;
    }

    method NameOf(e: DirEntry) returns (name: Str)
      requires e.Valid()
      ensures name == Name(e)
    {
      var fname := new byte[13];
      FormatNameInto(e, fname);
      name := CString(fname[..]);
    }

    // The inner loop of find_entry: the first visible entry with the component's name.
    method ScanFor(r: Region, component: Str) returns (found: Option<DirEntry>)
      modifies this`filePos
      ensures found == FirstMatch(ListRegion(Vol(), r), component)
    {
      hide FirstMatch, SlotAt, Name, SameName;
      filePos := r.off;
      var j := 0;
      while j < r.max
        invariant 0 <= j <= r.max && filePos == r.off + j * ENTRY_SIZE
        invariant FirstMatch(Listing(Vol(), r.off, j, r.max), component)
               == FirstMatch(ListRegion(Vol(), r), component)
      {
        ScanStep(Vol(), r.off, j, r.max, component);
        var slot := ReadSlot(r.off, j);
        if slot.None? { return None; }
        var entry := slot.value;
        if entry.name[0] == 0 { return None; }
        j := j + 1;
        if entry.name[0] == 0xE5 { continue; }
        if entry.attr == ATTR_LONG_NAME { continue; }
        if entry.IsVolumeId() { continue; }
        var fname := NameOf(entry);
        if SameName(fname, component) {
          return Some(entry);
        }
      }
      assert FirstMatch([], component) == None by { EmptyScan(component); }
      found := None;
    }

    // find_entry: walk the components of the (truncated) path from the root directory.
    method FindEntry(path: Str) returns (res: Result<DirEntry>)
      requires path != []
      modifies this`filePos
      ensures res == Lookup(Vol(), path)
    {
      if path == [SLASH] {
        return Ok(ROOT_ENTRY);
      }
      var components := Components(path);
      var region := RootRegion(Vol());
      var k := 0;
      while k < |components|
        invariant 0 <= k <= |components|
        invariant Walk(Vol(), region, components[k..]) == Walk(Vol(), RootRegion(Vol()), components)
      {
        var found := ScanFor(region, components[k]);
        assert components[k..][1..] == components[k + 1..];
        match found {
          case None =>
            return Err(ENOENT);
          case Some(entry) =>
            if k + 1 == |components| {
              return Ok(entry);
            }
            if !entry.IsDirectory() {
              return Err(ENOTDIR);
            }
            region := SubRegion(Vol(), entry);
        }
        k := k + 1;
      }
      res := Err(ENOENT);
    }

    // fusefat_readdir: the names passed to the filler, in order.
    method Readdir(path: Str) returns (res: Result<seq<Str>>)
      requires path != []
      modifies this`filePos
      ensures Lookup(Vol(), path).Err? ==> res == Err(Lookup(Vol(), path).error)
      ensures Lookup(Vol(), path).Ok? ==>
                res == Ok([[DOT], [DOT, DOT]]
                          + Names(ListRegion(Vol(), RegionOf(Vol(), path, Lookup(Vol(), path).value))))
    {
      var dir := FindEntry(path);
      if dir.Err? {
        return Err(dir.error);
      }
      var region := RegionOf(Vol(), path, dir.value);
      var listed := [[DOT], [DOT, DOT]];
      hide Names, SlotAt, Name, Lookup, Listing;
      filePos := region.off;
      var j := 0;
      while j < region.max
        invariant 0 <= j <= region.max && filePos == region.off + j * ENTRY_SIZE
        invariant listed + Names(Listing(Vol(), region.off, j, region.max))
               == [[DOT], [DOT, DOT]] + Names(ListRegion(Vol(), region))
      {
        ListStep(Vol(), region.off, j, region.max);
        assert listed + [] == listed;
        var slot := ReadSlot(region.off, j);
        if slot.None? { return Ok(listed); }
        var entry := slot.value;
        if entry.name[0] == 0 { return Ok(listed); }
        j := j + 1;
        if entry.name[0] == 0xE5 { continue; }
        if entry.attr == ATTR_LONG_NAME { continue; }
        if entry.IsVolumeId() { continue; }
        var fname := NameOf(entry);
        Associate(listed, [fname], Names(Listing(Vol(), region.off, j, region.max)));
        listed := listed + [fname];
      }
      assert Names(Listing(Vol(), region.off, j, region.max)) == [];
      assert listed + [] == listed;
      res := Ok(listed);
    }

    // fusefat_read. The loops end for every well-stored file; for others this is a requirement.
    method Read(path: Str, buf: array<byte>, size: nat, offset: nat) returns (res: Result<nat>)
      requires path != [] && layout.clusterSize > 0
      requires size <= buf.Length && size < 0x8000_0000_0000_0000 && offset < 0x8000_0000_0000_0000
      requires var e := Lookup(Vol(), path);
               e.Ok? && !e.value.IsDirectory() ==> Halts(Vol(), e.value, size, offset)
      modifies this`filePos, buf
      ensures var e := Lookup(Vol(), path);
              && (e.Err? ==> res == Err(e.error))
              && (e.Ok? && e.value.IsDirectory() ==> res == Err(EISDIR))
              && (e.Ok? && !e.value.IsDirectory() ==>
                    && res.Ok? && res.value <= size
                    && (forall n: nat :: HaltsBy(Vol(), e.value, size, offset, n) ==>
                          buf[..res.value] == ReadAfter(Vol(), e.value, size, offset, n).out)
                    && (WellStored(Vol(), e.value) ==>
                          buf[..res.value] == FileStretch(FlatFile(Vol(), e.value), offset, size)))
      ensures res.Err? ==> buf[..] == old(buf[..])
      ensures res.Ok? ==> buf[res.value..] == old(buf[res.value..])
    {
      var found := FindEntry(path);
      if found.Err? {
        return Err(found.error);
      }
      var entry := found.value;
      if entry.IsDirectory() {
        return Err(EISDIR);
      }
      ghost var turns: nat :| HaltsBy(Vol(), entry, size, offset, turns);
      OutcomeOfRead(Vol(), entry, size, offset, turns);
      var n := 0;
      if offset < entry.fileSize {
        n := ReadLoop(entry, buf, ReadSize(entry, size, offset), offset, turns);
      }
      res := Ok(n);
    }

    // The skip loop and the read loop of fusefat_read.
    method ReadLoop(entry: DirEntry, buf: array<byte>, size: nat, offset: nat, ghost turns: nat) returns (n: nat)
      requires layout.clusterSize > 0 && size <= buf.Length
      requires !Reading(size, Iterate(Vol(), size, ReadStart(Vol(), entry, offset), turns))
      modifies this`filePos, buf
      ensures n <= size && buf[..n] == Iterate(Vol(), size, ReadStart(Vol(), entry, offset), turns).out
      ensures buf[n..] == old(buf[n..])
    {
      hide SkipTo, Iterate, NextCluster, Reading;
      var skip, intra := offset / layout.clusterSize, offset % layout.clusterSize;
      ghost var start := ReadStart(Vol(), entry, offset);
      assert start.intra == intra && start.out == [] && start.cluster == SkipTo(Vol(), entry.firstCluster, skip);
      var cluster := SkipClusters(entry.firstCluster, skip);
      n := ReadClusters(cluster, intra, buf, size, turns);
    }

    method SkipClusters(first: uint16, skip: nat) returns (cluster: uint16)
      modifies this`filePos
      ensures cluster == SkipTo(Vol(), first, skip)
    {
      hide NextCluster;
      cluster := first;
      var i := 0;
      while i < skip && cluster < END_OF_CHAIN
        invariant 0 <= i <= skip
        invariant SkipTo(Vol(), cluster, skip - i) == SkipTo(Vol(), first, skip)
      {
        cluster := FatNextCluster(cluster);
        i := i + 1;
      }
    }

    method ReadClusters(first: uint16, start: nat, buf: array<byte>, size: nat, ghost turns: nat) returns (n: nat)
      requires start < layout.clusterSize && size <= buf.Length
      requires !Reading(size, Iterate(Vol(), size, ReadState(first, start, []), turns))
      modifies this`filePos, buf
      ensures n <= size && buf[..n] == Iterate(Vol(), size, ReadState(first, start, []), turns).out
      ensures buf[n..] == old(buf[n..])
    {
      hide NextCluster, ClusterToOffset, U32, ReadStep, Slice;
      var cluster, intra := first, start;
      n := 0;
      ghost var left := turns;
      ghost var st := ReadState(first, start, []);
      while n < size && DataCluster(cluster)
        invariant 0 <= n <= size && 0 <= intra < layout.clusterSize && st == ReadState(cluster, intra, buf[..n])
        invariant Iterate(Vol(), size, st, left) == Iterate(Vol(), size, ReadState(first, start, []), turns)
        invariant buf[n..] == old(buf[n..])
        decreases left
      {
        StepShape(Vol(), size, st);
        filePos := U32(ClusterToOffset(layout, cluster) + intra);
        ghost var before := buf[..];
        var k := FreadInto(buf, n, Min(layout.clusterSize - intra, size - n));
        SameBehind(before, old(buf[..]), n, n + k);
        n := n + k;
        intra := 0;
        cluster := FatNextCluster(cluster);
        st := ReadStep(Vol(), size, st);
        left := left - 1;
      }
    }
  }

  lemma SameBehind(a: seq<byte>, b: seq<byte>, n: nat, m: nat)
    requires n <= m <= |a| == |b| && a[n..] == b[n..]
    ensures a[m..] == b[m..]
  {
    assert a[m..] == a[n..][m - n..] && b[m..] == b[n..][m - n..];
  }

  lemma StepShape(v: Volume, size: nat, st: ReadState)
    requires Reading(size, st) && st.intra <= v.layout.clusterSize
    ensures ReadStep(v, size, st)
         == ReadState(NextCluster(v, st.cluster), 0,
                      st.out + Slice(v.disk, U32(ClusterToOffset(v.layout, st.cluster) + st.intra),
                                     Min(v.layout.clusterSize - st.intra, size - |st.out|)))
  {
  }

  // Whatever number of turns ends the loop, its outcome is the same; for a well-stored file it is the
  // wanted stretch of the flat file.
  lemma OutcomeOfRead(v: Volume, e: DirEntry, size: nat, offset: nat, turns: nat)
    requires v.layout.clusterSize > 0 && HaltsBy(v, e, size, offset, turns)
    requires offset < 0x8000_0000_0000_0000 && size < 0x8000_0000_0000_0000
    ensures ReadSize(e, size, offset) <= size
    ensures offset >= e.fileSize ==> ReadAfter(v, e, size, offset, turns).out == []
    ensures forall n: nat :: HaltsBy(v, e, size, offset, n) ==>
              ReadAfter(v, e, size, offset, n).out == ReadAfter(v, e, size, offset, turns).out
    ensures WellStored(v, e) ==>
              ReadAfter(v, e, size, offset, turns).out == FileStretch(FlatFile(v, e), offset, size)
  {
    hide HaltsBy, Reading, ReadAfter;
    ClampedSize(e, size, offset);
    assert |ReadAfter(v, e, size, offset, turns).out| <= ReadSize(e, size, offset);
    forall n: nat | HaltsBy(v, e, size, offset, n)
      ensures ReadAfter(v, e, size, offset, n).out == ReadAfter(v, e, size, offset, turns).out
    {
      OutcomeUnique(v, e, size, offset, turns, n);
    }
    if WellStored(v, e) {
      ReadRefinesFlatFile(v, e, size, offset);
    }
  }
}
