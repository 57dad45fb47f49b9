// What the driver makes of an image, told from the bytes of the image alone: the boot sector and the directory
// slots field by field, and the slots a directory shows.
module FatImage {
  import opened Bytes
  import opened Common
  import opened FuseFat
  import opened FatRead

  // ---------------------------------------------------------------- the packed structs

  // fat16_bpb_t up to fat_size_16, then whatever follows on the image.
  function BootImage(head: seq<byte>, b: Bpb, totalSectors: uint16, media: byte, rest: seq<byte>): seq<byte> {
    head + PutLe16(b.bytesPerSector) + [b.sectorsPerCluster] + PutLe16(b.reservedSectors) + [b.numFats]
    + PutLe16(b.rootEntryCount) + PutLe16(totalSectors) + [media] + PutLe16(b.fatSize16) + rest
  }

  // Mounting finds in a boot record the fields that were put there.
  lemma BootRoundTrip(head: seq<byte>, b: Bpb, totalSectors: uint16, media: byte, rest: seq<byte>)
    requires |head| == 3 + 8 && |rest| >= 38
    ensures ParseBpb(BootImage(head, b, totalSectors, media, rest)) == b
  {
    hide Le16, PutLe16;
    var s := BootImage(head, b, totalSectors, media, rest);
    assert s[11..13] == PutLe16(b.bytesPerSector) && s[14..16] == PutLe16(b.reservedSectors);
    assert s[17..19] == PutLe16(b.rootEntryCount) && s[22..24] == PutLe16(b.fatSize16);
  }

  // The bits of an attribute byte, lowest first.
  datatype Attributes = Attributes(readOnly: bool, hidden: bool, system: bool, volumeId: bool, directory: bool,
                                   archive: bool)

  function Bit(b: bool): nat { if b then 1 else 0 }

  function AttributeByte(a: Attributes): byte {
    Bit(a.readOnly) + 2 * Bit(a.hidden) + 4 * Bit(a.system) + 8 * Bit(a.volumeId) + 16 * Bit(a.directory)
    + 32 * Bit(a.archive)
  }

  // fat_dir_entry_t; the fourteen bytes between attribute and first cluster are times and dates.
  function SlotImage(e: DirEntry, times: seq<byte>): seq<byte> {
    e.name + e.ext + [e.attr] + times + PutLe16(e.firstCluster) + PutLe32(e.fileSize)
  }

  lemma SlotRoundTrip(e: DirEntry, times: seq<byte>)
    requires |e.name| == 8 && |e.ext| == 3 && |times| == 14
    ensures |SlotImage(e, times)| == 32 && ParseEntry(SlotImage(e, times)) == e
  {
    hide Le16, PutLe16, Le32, PutLe32;
    var s := SlotImage(e, times);
    assert s[0..8] == e.name && s[8..11] == e.ext && s[11] == e.attr;
    assert s[26..28] == PutLe16(e.firstCluster) && s[28..32] == PutLe32(e.fileSize);
  }

  // The attribute bits decide which entries are directories and which are hidden.
  lemma AttributesRead(e: DirEntry, a: Attributes)
    requires |e.name| == 8 && |e.ext| == 3 && e.attr == AttributeByte(a)
    ensures e.IsDirectory() <==> a.directory
    ensures e.Hidden() <==> e.name[0] == 0xE5 || a.volumeId
  {
  }

  // ---------------------------------------------------------------- what a directory shows

  // Slot j of the directory at off lies on the image, no slot up to and including it is the end mark, and it
  // is neither deleted nor a long name nor a volume label.
  ghost predicate Shown(disk: seq<byte>, off: nat, j: nat) {
    var at := off + 32 * j;
    && at + 32 <= |disk|
    && (forall k: nat :: k <= j ==> disk[off + 32 * k] != 0)
    && disk[at] != 0xE5 && disk[at + 11] != 0x0F && disk[at + 11] / 8 % 2 == 0
  }

  // The entry that the 32 bytes at `at` spell.
  predicate Spells(disk: seq<byte>, at: nat, e: DirEntry)
    requires at + 32 <= |disk|
  {
    && e.name == disk[at..at + 8] && e.ext == disk[at + 8..at + 11] && e.attr == disk[at + 11]
    && e.firstCluster == disk[at + 26] as int + 0x100 * disk[at + 27] as int
    && e.fileSize ==
         disk[at + 28] as int + 0x100 * disk[at + 29] as int + 0x1_0000 * disk[at + 30] as int
         + 0x100_0000 * disk[at + 31] as int
  }

  predicate StrictlyAscending(s: seq<nat>) { forall i, j :: 0 <= i < j < |s| ==> s[i] < s[j] }

  // The entries are those of the slots, in slot order.
  predicate Entries(disk: seq<byte>, off: nat, slots: seq<nat>, es: seq<DirEntry>) {
    && |es| == |slots| && StrictlyAscending(slots)
    && forall k :: 0 <= k < |es| ==> off + 32 * slots[k] + 32 <= |disk| && Spells(disk, off + 32 * slots[k], es[k])
  }

  // No end mark before slot j.
  predicate Open(disk: seq<byte>, off: nat, j: nat) {
    off + 32 * j <= |disk| && forall k: nat :: k < j ==> disk[off + 32 * k] != 0
  }

  lemma SlotRead(v: Volume, off: nat, j: nat)
    ensures SlotAt(v, off, j).Some? <==> off + 32 * j + 32 <= |v.disk|
    ensures SlotAt(v, off, j).Some? ==>
      var e := SlotAt(v, off, j).value;
      && Spells(v.disk, off + 32 * j, e) && e.name[0] == v.disk[off + 32 * j]
      && (e.Hidden() <==> e.name[0] == 0xE5 || e.attr == 0x0F || e.attr / 8 % 2 == 1)
  {
    var at := off + 32 * j;
    if at + 32 <= |v.disk| {
      var s := v.disk[at..at + 32];
      assert Slice(v.disk, at, 32) == s;
      Within(v.disk, at, 0, 8);
      Within(v.disk, at, 8, 11);
    }
  }

  lemma Within(disk: seq<byte>, at: nat, from: nat, to: nat)
    requires from <= to <= 32 && at + 32 <= |disk|
    ensures disk[at..at + 32][from..to] == disk[at + from..at + to]
  {
    var slot, field := disk[at..at + 32][from..to], disk[at + from..at + to];
    assert forall k :: 0 <= k < to - from ==> slot[k] == disk[at + from + k] == field[k];
  }

  // A slot that is no end mark leaves the directory open.
  lemma OpenNext(disk: seq<byte>, off: nat, j: nat)
    requires Open(disk, off, j) && off + 32 * j + 32 <= |disk| && disk[off + 32 * j] != 0
    ensures Open(disk, off, j + 1)
  {
  }

  // Behind the end, and behind an end mark, nothing is shown.
  lemma ShownLater(disk: seq<byte>, off: nat, j: nat, k: nat)
    requires j <= k && Shown(disk, off, k)
    ensures off + 32 * j + 32 <= |disk| && disk[off + 32 * j] != 0
  {
  }

  lemma EntriesPrepend(disk: seq<byte>, off: nat, j: nat, e: DirEntry, slots: seq<nat>, es: seq<DirEntry>)
    requires Entries(disk, off, slots, es) && forall k :: 0 <= k < |slots| ==> j < slots[k]
    requires off + 32 * j + 32 <= |disk| && Spells(disk, off + 32 * j, e)
    ensures Entries(disk, off, [j] + slots, [e] + es)
  {
    hide Spells;
  }

  // One slot decides whether it is shown when those before it leave the directory open.
  lemma ShownHere(v: Volume, off: nat, j: nat)
    requires Open(v.disk, off, j)
    ensures Shown(v.disk, off, j)
      <==> SlotAt(v, off, j).Some? && SlotAt(v, off, j).value.name[0] != 0 && !SlotAt(v, off, j).value.Hidden()
  {
    SlotRead(v, off, j);
    hide SlotAt;
  }

  lemma {:induction false} ListingFrom(v: Volume, off: nat, j: nat, max: nat) returns (slots: seq<nat>)
    requires Open(v.disk, off, j)
    ensures Entries(v.disk, off, slots, Listing(v, off, j, max))
    ensures forall k: nat :: k in slots <==> j <= k < max && Shown(v.disk, off, k)
    decreases max - j
  {
    hide SlotAt, Shown, Spells, Open, Entries;
    slots := [];
    if j < max && off + 32 * j + 32 <= |v.disk| && v.disk[off + 32 * j] != 0 {
      SlotRead(v, off, j);
      ShownHere(v, off, j);
      OpenNext(v.disk, off, j);
      var rest := ListingFrom(v, off, j + 1, max);
      var e, es := SlotAt(v, off, j).value, Listing(v, off, j + 1, max);
      if e.Hidden() {
        assert [] + es == es;
        slots := rest;
      } else {
        assert forall k :: 0 <= k < |rest| ==> rest[k] in rest;
        EntriesPrepend(v.disk, off, j, e, rest, es);
        slots := [j] + rest;
      }
    } else {
      NothingListed(v, off, j, max);
      forall k: nat | j <= k < max ensures !Shown(v.disk, off, k) {
        if Shown(v.disk, off, k) {
          ShownLater(v.disk, off, j, k);
        }
      }
    }
  }

  lemma NothingListed(v: Volume, off: nat, j: nat, max: nat)
    requires j >= max || off + 32 * j + 32 > |v.disk| || v.disk[off + 32 * j] == 0
    ensures Listing(v, off, j, max) == [] && Entries(v.disk, off, [], [])
  {
    SlotRead(v, off, j);
    hide SlotAt;
  }

  // A directory lists, in slot order, exactly the entries of the slots it shows, each as its bytes spell it.
  lemma ListingExactly(v: Volume, r: Region) returns (slots: seq<nat>)
    ensures Entries(v.disk, r.off, slots, ListRegion(v, r))
    ensures forall k: nat :: k in slots <==> k < r.max && Shown(v.disk, r.off, k)
  {
    hide Listing;
    if r.off <= |v.disk| {
      slots := ListingFrom(v, r.off, 0, r.max);
    } else {
      slots := [];
      NothingListed(v, r.off, 0, r.max);
    }
  }

  // The root resolves, to a directory.
  lemma RootResolves(v: Volume)
    ensures Lookup(v, [SLASH]).Ok? && Lookup(v, [SLASH]).value.IsDirectory()
  {
    hide Walk, Components;
  }

  // Where readdir and lookup look below a directory e at path: the root directory's slots, or one cluster's
  // worth of slots at the cluster the entry names.
  lemma DirectoryShows(v: Volume, path: Str, e: DirEntry) returns (slots: seq<nat>)
    ensures
      var l, root := v.layout, path == [SLASH];
      var off := if root then l.rootDirStart else (l.dataStart + (e.firstCluster - 2) * l.clusterSize) % 0x1_0000_0000;
      && Entries(v.disk, off, slots, ListRegion(v, RegionOf(v, path, e)))
      && forall k: nat :: k in slots <==>
           k < (if root then l.rootEntries else l.clusterSize / 32) && Shown(v.disk, off, k)
  {
    hide ListRegion, Entries, Shown;
    slots := ListingExactly(v, RegionOf(v, path, e));
  }

  // ---------------------------------------------------------------- names

  // The upper-case form of a name, in ASCII.
  function Upper(s: Str): (r: Str)
    ensures |r| == |s|
  {
    seq(|s|, i requires 0 <= i < |s| =>
      if 97 <= s[i] <= 122 then s[i] - 97 + 65 else s[i])
  }

  // Names are the same when they agree in upper case.
  lemma SameNameExactly(a: Str, b: Str)
    ensures SameName(a, b) <==> Upper(a) == Upper(b)
  {
    if SameName(a, b) {
      forall i | 0 <= i < |a| ensures Upper(a)[i] == Upper(b)[i] {
        assert Lower(a[i]) == Lower(b[i]);
      }
    } else if |a| == |b| {
      var i :| 0 <= i < |a| && Lower(a[i]) != Lower(b[i]);
      assert Upper(a)[i] != Upper(b)[i];
    }
  }
}
