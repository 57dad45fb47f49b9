// The read path of fuse_fat.c: layout, cluster chains, directory scans, path walk and read.
module FuseFat {
  import opened Bytes
  import opened Common

  type Str = seq<byte>

  const SLASH: byte := 47
  const SPACE: byte := 32
  const DOT: byte := 46
  const ATTR_VOLUME_ID := 0x08
  const ATTR_DIRECTORY := 0x10
  const ATTR_LONG_NAME := 0x0F
  const END_OF_CHAIN := 0xFFF8
  const ENTRY_SIZE := 32
  const PATH_BUFFER := 512

  datatype Errno = ENOENT | ENOTDIR | EISDIR

  datatype Result<T> = Ok(value: T) | Err(error: Errno)

  // The globals computed once at mount time.
  datatype Layout = Layout(fatStart: uint32, rootDirStart: uint32, dataStart: uint32,
                           clusterSize: uint32, rootEntries: uint16)

  datatype Volume = Volume(disk: seq<byte>, layout: Layout)

  datatype Bpb = Bpb(bytesPerSector: uint16, sectorsPerCluster: byte, reservedSectors: uint16,
                     numFats: byte, rootEntryCount: uint16, fatSize16: uint16)

  datatype DirEntry = DirEntry(name: Str, ext: Str, attr: byte, firstCluster: uint16, fileSize: uint32)
  {
    predicate Valid() { |name| == 8 && |ext| == 3 }

    predicate IsDirectory() { attr / ATTR_DIRECTORY % 2 == 1 }

    predicate IsVolumeId() { attr / ATTR_VOLUME_ID % 2 == 1 }

    // Skipped by both directory loops: deleted, long-name and volume-label slots.
    predicate Hidden() requires Valid() {
      name[0] == 0xE5 || attr == ATTR_LONG_NAME || IsVolumeId()
    }
  }

  // ---------------------------------------------------------------- layout

  // C computes these in int and converts to uint32_t.
  function ComputeLayout(b: Bpb): Layout {
    var fat := U32(b.reservedSectors * b.bytesPerSector);
    var root := U32(fat + b.numFats * b.fatSize16 * b.bytesPerSector);
    Layout(fat, root, U32(root + b.rootEntryCount * ENTRY_SIZE),
           U32(b.sectorsPerCluster * b.bytesPerSector), b.rootEntryCount)
  }

  const BPB_SIZE := 62

  function ParseBpb(s: seq<byte>): Bpb
    requires |s| >= BPB_SIZE
  {
    Bpb(Le16(s[11], s[12]), s[13], Le16(s[14], s[15]), s[16], Le16(s[17], s[18]), Le16(s[22], s[23]))
  }

  function ClusterToOffset(l: Layout, cluster: uint16): uint32 {
    U32(l.dataStart + (cluster - 2) * l.clusterSize)
  }

  // What fread delivers at a file offset: as much as the image still holds.
  function Slice(disk: seq<byte>, at: nat, want: nat): (r: seq<byte>)
    ensures |r| <= want
    ensures at + want <= |disk| ==> r == disk[at..at + want]
  {
    if at >= |disk| then [] else disk[at..Min(|disk|, at + want)]
  }

  function NextCluster(v: Volume, cluster: uint16): uint16 {
    var s := Slice(v.disk, U32(v.layout.fatStart + cluster * 2), 2);
    if |s| == 2 then Le16(s[0], s[1]) else 0xFFFF
  }

  // ---------------------------------------------------------------- names

  function UntilSpace(s: Str): (r: Str)
    ensures r <= s
    ensures SPACE !in r
    ensures |r| < |s| ==> s[|r|] == SPACE
  {
    if s == [] || s[0] == SPACE then [] else [s[0]] + UntilSpace(s[1..])
  }

  function FormatName(e: DirEntry): (r: Str)
    requires e.Valid()
    ensures |r| <= 12
  {
    UntilSpace(e.name) + if e.ext[0] != SPACE then [DOT] + UntilSpace(e.ext) else []
  }

  function Name(e: DirEntry): Str requires e.Valid() { CString(FormatName(e)) }

  function Lower(b: byte): byte { if 65 <= b <= 90 then b + 32 else b }

  predicate SameName(a: Str, b: Str) {
    |a| == |b| && forall i :: 0 <= i < |a| ==> Lower(a[i]) == Lower(b[i])
  }

  // A base name or extension as it is stored: padded with spaces.
  function Pad(s: Str, n: nat): (r: Str)
    requires |s| <= n
    ensures |r| == n
  {
    s + seq(n - |s|, _ => SPACE)
  }

  // The field holds s, which ends at the field's first space or fills it.
  predicate FieldHolds(field: Str, s: Str) { SPACE !in s && 0 !in s && (field == s || s + [SPACE] <= field) }

  lemma {:induction false} UntilSpaceOfField(field: Str, s: Str)
    requires FieldHolds(field, s)
    ensures UntilSpace(field) == s
  {
    if s != [] {
      assert forall b :: b in s[1..] ==> b in s;
      assert s[0] in s;
      assert field != s ==> s[1..] + [SPACE] == (s + [SPACE])[1..] <= field[1..];
      UntilSpaceOfField(field[1..], s[1..]);
    }
  }

  // Whatever stands behind the first space of a field is not part of the name.
  lemma ShortNameShown(e: DirEntry, base: Str, ext: Str)
    requires e.Valid() && FieldHolds(e.name, base) && FieldHolds(e.ext, ext)
    ensures Name(e) == if ext == [] then base else base + [DOT] + ext
  {
    UntilSpaceOfField(e.name, base);
    UntilSpaceOfField(e.ext, ext);
    assert ext != [] ==> e.ext[0] == ext[0] && ext[0] in ext;
    assert FormatName(e) == if ext == [] then base else base + [DOT] + ext;
    CStringOfText(FormatName(e));
  }

  // A stored 8.3 name comes back as BASE.EXT, or BASE when there is no extension.
  lemma ShortNameRoundTrip(base: Str, ext: Str, attr: byte, cluster: uint16, size: uint32)
    requires |base| <= 8 && |ext| <= 3
    requires SPACE !in base + ext && 0 !in base + ext
    ensures Name(DirEntry(Pad(base, 8), Pad(ext, 3), attr, cluster, size))
            == if ext == [] then base else base + [DOT] + ext
  {
    forall b | b in base ensures b != SPACE && b != 0 { assert b in base + ext; }
    forall b | b in ext ensures b != SPACE && b != 0 { assert b in base + ext; }
    PadHolds(base, 8);
    PadHolds(ext, 3);
    ShortNameShown(DirEntry(Pad(base, 8), Pad(ext, 3), attr, cluster, size), base, ext);
  }

  lemma PadHolds(s: Str, n: nat)
    requires |s| <= n && SPACE !in s && 0 !in s
    ensures FieldHolds(Pad(s, n), s)
  {
    assert |s| < n ==> Pad(s, n)[..|s| + 1] == s + [SPACE];
    assert |s| == n ==> Pad(s, n) == s;
  }

  // ---------------------------------------------------------------- directories

  function ParseEntry(s: seq<byte>): (e: DirEntry)
    requires |s| == ENTRY_SIZE
    ensures e.Valid()
  {
    DirEntry(s[0..8], s[8..11], s[11], Le16(s[26], s[27]), Le32(s[28], s[29], s[30], s[31]))
  }

  // Slot j of a directory at byte `off`; None where fread comes up short.
  function SlotAt(v: Volume, off: nat, j: nat): (r: Option<DirEntry>)
    ensures r.Some? ==> r.value.Valid()
  {
    var s := Slice(v.disk, off + j * ENTRY_SIZE, ENTRY_SIZE);
    if |s| == ENTRY_SIZE then Some(ParseEntry(s)) else None
  }

  // The entries a scan of slots j.. shows, with the stop and skip rules of both loops.
  function Listing(v: Volume, off: nat, j: nat, max: nat): (r: seq<DirEntry>)
    ensures forall e :: e in r ==> e.Valid() && !e.Hidden()
    decreases max - j
  {
    if j >= max then [] else
    match SlotAt(v, off, j)
    case None => []
    case Some(e) =>
      if e.name[0] == 0 then []
      else (if e.Hidden() then [] else [e]) + Listing(v, off, j + 1, max)
  }

  function FirstMatch(es: seq<DirEntry>, component: Str): (r: Option<DirEntry>)
    requires forall e :: e in es ==> e.Valid()
    ensures r.Some? ==> r.value in es && SameName(Name(r.value), component)
  {
    if es == [] then None
    else if SameName(Name(es[0]), component) then Some(es[0])
    else FirstMatch(es[1..], component)
  }

  // Names handed to the filler, after "." and "..".
  function Names(es: seq<DirEntry>): (r: seq<Str>)
    requires forall e :: e in es ==> e.Valid()
    ensures |r| == |es|
    ensures forall i :: 0 <= i < |es| ==> r[i] == Name(es[i])
  {
    if es == [] then [] else [Name(es[0])] + Names(es[1..])
  }

  predicate ListedAt(es: seq<DirEntry>, component: Str, i: nat)
    requires forall e :: e in es ==> e.Valid()
  {
    i < |es| && SameName(Name(es[i]), component)
  }

  // es[i] is the first entry listed under the component's name, ignoring case.
  predicate FirstAt(es: seq<DirEntry>, component: Str, i: nat)
    requires forall e :: e in es ==> e.Valid()
  {
    ListedAt(es, component, i) && forall k: nat :: k < i ==> !ListedAt(es, component, k)
  }

  lemma {:induction false} FirstMatchIsFirst(es: seq<DirEntry>, component: Str) returns (i: nat)
    requires forall e :: e in es ==> e.Valid()
    ensures FirstMatch(es, component).Some? ==> FirstAt(es, component, i) && FirstMatch(es, component) == Some(es[i])
    ensures FirstMatch(es, component).None? ==> forall k: nat :: !ListedAt(es, component, k)
  {
    i := 0;
    if es != [] && !ListedAt(es, component, 0) {
      var rest := es[1..];
      var j := FirstMatchIsFirst(rest, component);
      assert forall k: nat :: 0 < k < |es| ==> es[k] == rest[k - 1];
      forall k: nat ensures ListedAt(es, component, k) <==> k > 0 && ListedAt(rest, component, k - 1) {
      }
      i := j + 1;
    }
  }

  // How one directory slot contributes to a search.
  lemma ScanStep(v: Volume, off: nat, j: nat, max: nat, component: Str)
    requires j < max
    ensures var rest := FirstMatch(Listing(v, off, j + 1, max), component);
            FirstMatch(Listing(v, off, j, max), component) ==
            match SlotAt(v, off, j)
            case None => None
            case Some(e) =>
              if e.name[0] == 0 then None
              else if !e.Hidden() && SameName(Name(e), component) then Some(e)
              else rest
  {
    var rest := Listing(v, off, j + 1, max);
    hide Name, SlotAt, SameName;
    if SlotAt(v, off, j).Some? {
      var e := SlotAt(v, off, j).value;
      assert ([e] + rest)[1..] == rest;
      assert [] + rest == rest;
    }
  }

  lemma EmptyScan(component: Str)
    ensures FirstMatch([], component) == None
  {
  }

  // How one directory slot contributes to a listing.
  lemma ListStep(v: Volume, off: nat, j: nat, max: nat)
    requires j < max
    ensures var rest := Names(Listing(v, off, j + 1, max));
            Names(Listing(v, off, j, max)) ==
            match SlotAt(v, off, j)
            case None => []
            case Some(e) => if e.name[0] == 0 then [] else if e.Hidden() then rest else [Name(e)] + rest
  {
    var rest := Listing(v, off, j + 1, max);
    hide Name, SlotAt;
    if SlotAt(v, off, j).Some? {
      var e := SlotAt(v, off, j).value;
      assert ([e] + rest)[1..] == rest;
      assert [] + rest == rest;
    }
  }

  // ---------------------------------------------------------------- paths

  // The tokens strtok(s, "/") yields one by one.
  function Tokens(s: Str): (r: seq<Str>)
    ensures forall t :: t in r ==> t != [] && SLASH !in t
    decreases |s|
  {
    if s == [] then []
    else if s[0] == SLASH then Tokens(s[1..])
    else var t := UntilSlash(s); [t] + Tokens(s[|t|..])
  }

  function UntilSlash(s: Str): (r: Str)
    ensures r <= s && SLASH !in r
    ensures |r| < |s| ==> s[|r|] == SLASH
    ensures s != [] && s[0] != SLASH ==> r != []
  {
    if s == [] || s[0] == SLASH then [] else [s[0]] + UntilSlash(s[1..])
  }

  const ROOT_ENTRY := DirEntry([0, 0, 0, 0, 0, 0, 0, 0], [0, 0, 0], ATTR_DIRECTORY, 0, 0)

  datatype Region = Region(off: uint32, max: nat)

  function RootRegion(v: Volume): Region { Region(v.layout.rootDirStart, v.layout.rootEntries) }

  // A subdirectory is read as one cluster.
  function SubRegion(v: Volume, e: DirEntry): Region {
    Region(ClusterToOffset(v.layout, e.firstCluster), v.layout.clusterSize / ENTRY_SIZE)
  }

  function ListRegion(v: Volume, r: Region): (es: seq<DirEntry>)
    ensures forall e :: e in es ==> e.Valid()
  {
    Listing(v, r.off, 0, r.max)
  }

  function Walk(v: Volume, r: Region, components: seq<Str>): (res: Result<DirEntry>)
    ensures res.Ok? ==> res.value.Valid()
    decreases |components|
  {
    if components == [] then Err(ENOENT) else
    match FirstMatch(ListRegion(v, r), components[0])
    case None => Err(ENOENT)
    case Some(e) =>
      if |components| == 1 then Ok(e)
      else if !e.IsDirectory() then Err(ENOTDIR)
      else Walk(v, SubRegion(v, e), components[1..])
  }

  function Components(path: Str): seq<Str>
    requires path != []
  {
    Tokens(path[1..Min(|path|, PATH_BUFFER)])
  }

  function Lookup(v: Volume, path: Str): (res: Result<DirEntry>)
    requires path != []
    ensures res.Ok? ==> res.value.Valid()
  {
    if path == [SLASH] then Ok(ROOT_ENTRY) else Walk(v, RootRegion(v), Components(path))
  }

  function RegionOf(v: Volume, path: Str, e: DirEntry): Region {
    if path == [SLASH] then RootRegion(v) else SubRegion(v, e)
  }

  function Join(path: Str, component: Str): Str {
    if path == [SLASH] then path + component else path + [SLASH] + component
  }

  lemma {:induction false} UntilSlashOf(t: Str, s: Str)
    requires SLASH !in t && (s == [] || s[0] == SLASH)
    ensures UntilSlash(t + s) == t
  {
    if t == [] {
      assert t + s == s;
    } else {
      assert (t + s)[1..] == t[1..] + s;
      UntilSlashOf(t[1..], s);
    }
  }

  lemma TokensOfComponent(c: Str)
    requires c != [] && SLASH !in c
    ensures Tokens(c) == [c]
  {
    UntilSlashOf(c, []);
    assert c + [] == c;
    assert c[0] in c;
    assert c[|c|..] == [];
  }

  lemma {:induction false} TokensAppend(s: Str, c: Str)
    requires c != [] && SLASH !in c
    ensures Tokens(s + [SLASH] + c) == Tokens(s) + [c]
    decreases |s|
  {
    var all := s + [SLASH] + c;
    if s == [] {
      assert all[1..] == c;
      TokensOfComponent(c);
    } else if s[0] == SLASH {
      assert all[1..] == s[1..] + [SLASH] + c;
      TokensAppend(s[1..], c);
    } else {
      var t := UntilSlash(s);
      assert all == t + (s[|t|..] + [SLASH] + c);
      UntilSlashOf(t, s[|t|..] + [SLASH] + c);
      assert all[|t|..] == s[|t|..] + [SLASH] + c;
      TokensAppend(s[|t|..], c);
      assert Tokens(all) == [t] + (Tokens(s[|t|..]) + [c]);
    }
  }

  lemma {:induction false} TokensBeforeSlash(s: Str)
    ensures Tokens(s + [SLASH]) == Tokens(s)
    decreases |s|
  {
    var all := s + [SLASH];
    if s == [] {
      assert all[1..] == [];
    } else if s[0] == SLASH {
      assert all[1..] == s[1..] + [SLASH];
      TokensBeforeSlash(s[1..]);
    } else {
      var t := UntilSlash(s);
      assert all == t + (s[|t|..] + [SLASH]);
      UntilSlashOf(t, s[|t|..] + [SLASH]);
      assert all[|t|..] == s[|t|..] + [SLASH];
      TokensBeforeSlash(s[|t|..]);
    }
  }

  // What the path buffer, the slash in front included, keeps of a component joined to a path.
  function Kept(path: Str, c: Str): (r: Str)
    ensures r <= c
  {
    var room := 512 - (|Join(path, c)| - |c|);
    if room < 0 then [] else c[..Min(room, |c|)]
  }

  // The buffer holds the path and what it keeps of the component, or the path alone.
  lemma JoinedComponents(path: Str, c: Str)
    requires path != [] && path[0] == SLASH && c != [] && SLASH !in c
    ensures Components(Join(path, c)) == Components(path) + if Kept(path, c) == [] then [] else [Kept(path, c)]
  {
    var joined, k := Join(path, c), Kept(path, c);
    var held := joined[1..Min(|joined|, PATH_BUFFER)];
    assert forall b :: b in k ==> b in c;
    if path == [SLASH] {
      assert held == k && Components(path) == [];
      TokensOfComponent(k);
      assert [] + [k] == [k];
    } else {
      hide Tokens;
      assert joined == path + [SLASH] + c;
      assert |path| <= PATH_BUFFER ==> path[1..Min(|path|, PATH_BUFFER)] == path[1..];
      if k != [] {
        assert held == path[1..] + [SLASH] + k;
        TokensAppend(path[1..], k);
      } else {
        assert Components(path) + [] == Components(path);
        if |path| < PATH_BUFFER {
          assert held == path[1..] + [SLASH];
          TokensBeforeSlash(path[1..]);
        } else {
          assert held == path[1..PATH_BUFFER];
        }
      }
    }
  }

  // One more component below a directory that the walk has reached.
  lemma {:induction false} WalkAppend(v: Volume, r: Region, cs: seq<Str>, c: Str)
    requires Walk(v, r, cs).Ok? && Walk(v, r, cs).value.IsDirectory()
    ensures Walk(v, r, cs + [c]) == Walk(v, SubRegion(v, Walk(v, r, cs).value), [c])
    decreases |cs|
  {
    hide ListRegion, FirstMatch, SubRegion;
    assert (cs + [c])[0] == cs[0];
    assert (cs + [c])[1..] == cs[1..] + [c];
    if |cs| == 1 {
      assert cs[1..] + [c] == [c];
    } else {
      var e := FirstMatch(ListRegion(v, r), cs[0]).value;
      WalkAppend(v, SubRegion(v, e), cs[1..], c);
    }
  }

  // Below a directory the lookup is one search for what the buffer keeps of the component; if it keeps
  // nothing, the directory itself is found again.
  lemma LookupBelow(v: Volume, path: Str, c: Str)
    requires path != [] && path[0] == SLASH && c != [] && SLASH !in c
    requires Lookup(v, path).Ok? && Lookup(v, path).value.IsDirectory()
    ensures Lookup(v, Join(path, c)) ==
      if Kept(path, c) == [] then Lookup(v, path)
      else Walk(v, RegionOf(v, path, Lookup(v, path).value), [Kept(path, c)])
  {
    hide Components, Walk, SubRegion;
    JoinedComponents(path, c);
    assert Join(path, c) != [SLASH];
    if path == [SLASH] {
      RootHasNoComponents();
      assert [] + [Kept(path, c)] == [Kept(path, c)];
    } else if Kept(path, c) != [] {
      WalkAppend(v, RootRegion(v), Components(path), Kept(path, c));
    } else {
      assert Components(path) + [] == Components(path);
    }
  }

  lemma RootHasNoComponents()
    ensures Components([SLASH]) == []
  {
  }

  lemma WalkOne(v: Volume, r: Region, c: Str)
    ensures var found := FirstMatch(ListRegion(v, r), c);
            Walk(v, r, [c]) == if found.Some? then Ok(found.value) else Err(ENOENT)
  {
    hide FirstMatch, ListRegion;
  }

  // What a directory lists.
  function ListBelow(v: Volume, path: Str): (es: seq<DirEntry>)
    requires path != [] && Lookup(v, path).Ok?
    ensures forall e :: e in es ==> e.Valid()
  {
    ListRegion(v, RegionOf(v, path, Lookup(v, path).value))
  }

  ghost predicate IsListed(es: seq<DirEntry>, c: Str)
    requires forall e :: e in es ==> e.Valid()
  {
    exists i: nat :: ListedAt(es, c, i)
  }

  ghost predicate IsFirst(es: seq<DirEntry>, c: Str, found: DirEntry)
    requires forall e :: e in es ==> e.Valid()
  {
    exists i: nat :: FirstAt(es, c, i) && es[i] == found
  }

  // Lookup and readdir agree on a component below a directory: it is found exactly when a name equal to it
  // ignoring case is listed, what is found is the first such entry, and the only error is ENOENT.
  ghost predicate Agrees(v: Volume, path: Str, c: Str)
    requires path != [] && Lookup(v, path).Ok?
  {
    var es, res := ListBelow(v, path), Lookup(v, Join(path, c));
    && (res.Ok? <==> IsListed(es, c)) && (res.Ok? ==> IsFirst(es, c, res.value)) && (res.Err? ==> res.error == ENOENT)
  }

  // A search of a directory finds the first entry listed under the name, or nothing.
  lemma SearchFinds(v: Volume, r: Region, c: Str)
    ensures var es, res := ListRegion(v, r), Walk(v, r, [c]);
            && (res.Ok? <==> IsListed(es, c)) && (res.Ok? ==> IsFirst(es, c, res.value) && SameName(Name(res.value), c))
            && (res.Err? ==> res.error == ENOENT)
  {
    hide ListRegion, ListedAt, Name, SameName;
    WalkOne(v, r, c);
    hide Walk;
    var i := FirstMatchIsFirst(ListRegion(v, r), c);
  }

  // Names of different length are listed by different entries.
  lemma NotBoth(es: seq<DirEntry>, a: Str, b: Str, found: DirEntry)
    requires forall e :: e in es ==> e.Valid()
    requires IsFirst(es, a, found) && IsFirst(es, b, found)
    ensures |a| == |b|
  {
    hide Name;
  }

  // Directory agreement, for paths and components of every length: it holds when the path buffer keeps the
  // whole component. When it cuts it short, it holds exactly when neither the cut nor the whole component is
  // listed, and when nothing is left, when the directory lists its own entry under the component.
  lemma DirectoryAgreement(v: Volume, path: Str, c: Str)
    requires path != [] && path[0] == SLASH && c != [] && SLASH !in c
    requires Lookup(v, path).Ok? && Lookup(v, path).value.IsDirectory()
    ensures var es := ListBelow(v, path);
            Agrees(v, path, c) <==>
              || |Join(path, c)| <= 512
              || (Kept(path, c) != [] && !IsListed(es, Kept(path, c)) && !IsListed(es, c))
              || (Kept(path, c) == [] && IsFirst(es, c, Lookup(v, path).value))
  {
    hide Lookup, Walk, ListRegion, RegionOf, Name, SameName, FirstAt, ListedAt, IsListed, IsFirst;
    var e, k := Lookup(v, path).value, Kept(path, c);
    LookupBelow(v, path, c);
    FirstIsListed(ListBelow(v, path), c, e);
    if k != [] {
      SearchFinds(v, RegionOf(v, path, e), k);
      var res := Walk(v, RegionOf(v, path, e), [k]);
      if res.Ok? && IsFirst(ListBelow(v, path), c, res.value) {
        NotBoth(ListBelow(v, path), k, c, res.value);
      }
      assert |k| == |c| ==> k == c;
    }
  }

  lemma FirstIsListed(es: seq<DirEntry>, c: Str, found: DirEntry)
    requires forall e :: e in es ==> e.Valid()
    ensures IsFirst(es, c, found) ==> IsListed(es, c)
  {
    hide Name, SameName;
  }

  // A listed file is not a directory: nothing resolves below it, although readdir never checks. Only a path
  // that fills the buffer finds the file again.
  lemma NothingBelowFile(v: Volume, path: Str, c: Str)
    requires path != [] && path[0] == SLASH && c != [] && SLASH !in c
    requires Lookup(v, path).Ok? && !Lookup(v, path).value.IsDirectory()
    ensures Lookup(v, Join(path, c)) == if Kept(path, c) == [] then Lookup(v, path) else Err(ENOTDIR)
  {
    hide Components, Walk;
    JoinedComponents(path, c);
    assert Join(path, c) != [SLASH];
    if Kept(path, c) != [] {
      WalkBelowFile(v, RootRegion(v), Components(path), Kept(path, c));
    } else {
      assert Components(path) + [] == Components(path);
    }
  }

  lemma {:induction false} WalkBelowFile(v: Volume, r: Region, cs: seq<Str>, c: Str)
    requires Walk(v, r, cs).Ok? && !Walk(v, r, cs).value.IsDirectory()
    ensures Walk(v, r, cs + [c]) == Err(ENOTDIR)
    decreases |cs|
  {
    hide ListRegion, FirstMatch, SubRegion;
    assert (cs + [c])[0] == cs[0];
    assert (cs + [c])[1..] == cs[1..] + [c];
    if |cs| > 1 {
      var e := FirstMatch(ListRegion(v, r), cs[0]).value;
      WalkBelowFile(v, SubRegion(v, e), cs[1..], c);
    }
  }
}
