// The FUSE calls of memfs.c, in place on the array of slots.
module MemFsDriver {
  import opened Bytes
  import opened MemFs

  // realloc: the old bytes that still fit, then whatever the memory holds.
  method Realloc(data: seq<byte>, size: nat) returns (r: seq<byte>)
    ensures |r| == size
    ensures forall k :: 0 <= k < size && k < |data| ==> r[k] == data[k]
  {
    var rest := if size > |data| then size - |data| else 0;
    var junk: seq<byte> :| |junk| == rest by {
      assert |seq(rest, _ => 0 as byte)| == rest;
    }
    r := if size > |data| then data + junk else data[..size];
  }

  // The bytes memfs_write leaves are those meant, however the new memory came.
  lemma WriteFills(data: seq<byte>, grown: seq<byte>, bytes: seq<byte>, offset: nat)
    requires offset + |bytes| > |data| && |grown| == offset + |bytes|
    requires forall k :: 0 <= k < |data| ==> grown[k] == data[k]
    ensures
      var gap := if offset > |data| then offset - |data| else 0;
      var cleared := if gap > 0 then Splice(grown, |data|, seq(gap, _ => 0)) else grown;
      Splice(cleared, offset, bytes) == Written(data, bytes, offset)
  {
  }

  lemma WriteOver(data: seq<byte>, bytes: seq<byte>, offset: nat)
    requires offset + |bytes| <= |data|
    ensures Splice(data, offset, bytes) == Written(data, bytes, offset)
  {
  }

  lemma TruncateFills(data: seq<byte>, resized: seq<byte>, size: nat)
    requires |resized| == size && forall k :: 0 <= k < size && k < |data| ==> resized[k] == data[k]
    ensures (if size > |data| then Splice(resized, |data|, seq(size - |data|, _ => 0)) else resized)
      == Resized(data, size)
  {
  }

  class FileSystem {
    const entries: array<Slot>

    ghost predicate Ready() { entries.Length == MAX_FILES }

    constructor ()
      ensures Ready() && fresh(entries) && entries[..] == EMPTY
    {
      entries := new Slot[MAX_FILES](_ => Slot(false, [], false, []));
    }

    method FindEntry(path: seq<byte>) returns (r: int)
      requires Ready()
      ensures r == Find(entries[..], path)
    {
      var i := 0;
      while i < MAX_FILES
        invariant i <= MAX_FILES && Find(entries[..], path) == FindFrom(entries[..], path, i)
      {
        if entries[i].used && entries[i].name == path {
          return i;
        }
        i := i + 1;
      }
      return -1;
    }

    // The first free slot, cleared and marked used.
    method AllocEntry() returns (r: int)
      requires Ready()
      modifies entries
      ensures r == FreeFrom(old(entries[..]), 0)
      ensures entries[..] == if r < 0 then old(entries[..]) else old(entries[..])[r := Slot(true, [], false, [])]
    {
      var i := 0;
      while i < MAX_FILES
        invariant i <= MAX_FILES && entries[..] == old(entries[..])
        invariant FreeFrom(entries[..], 0) == FreeFrom(entries[..], i)
      {
        if !entries[i].used {
          entries[i] := Slot(true, [], false, []);
          return i;
        }
        i := i + 1;
      }
      return -1;
    }

    method Readdir(path: seq<byte>) returns (listed: seq<seq<byte>>)
      requires Ready()
      ensures listed == [[0x2E], [0x2E, 0x2E]] + ListedFrom(entries[..], path, 0)
    {
      listed := [[0x2E], [0x2E, 0x2E]];
      for i := 0 to MAX_FILES
        invariant [[0x2E], [0x2E, 0x2E]] + ListedFrom(entries[..], path, 0) == listed + ListedFrom(entries[..], path, i)
      {
        var name := entries[i].name;
        if entries[i].used && DirectChild(path, name) {
          listed := listed + [Rest(path, name)];
        }
      }
    }

    method Make(path: seq<byte>, isDir: bool) returns (r: int)
      requires Ready()
      modifies entries
      ensures var s := MadeSlot(old(entries[..]), path, isDir); entries[..] == s.state && r == s.code
    {
      var found := FindEntry(path);
      if found >= 0 {
        return -EEXIST;
      }
      var e := AllocEntry();
      if e < 0 {
        return -ENOSPC;
      }
      entries[e] := entries[e].(name := StoredName(path), isDir := isDir);
      return 0;
    }

    method CreateFile(path: seq<byte>) returns (r: int)
      requires Ready()
      modifies entries
      ensures var s := Step(old(entries[..]), Create(path)); entries[..] == s.state && r == s.code
    {
      r := Make(path, false);
    }

    method MakeDirectory(path: seq<byte>) returns (r: int)
      requires Ready()
      modifies entries
      ensures var s := Step(old(entries[..]), Mkdir(path)); entries[..] == s.state && r == s.code
    {
      r := Make(path, true);
    }

    method Read(path: seq<byte>, size: nat, offset: nat) returns (r: int, bytes: seq<byte>)
      requires Ready() && offset < 0x8000_0000_0000_0000 && size < 0x8000_0000_0000_0000
      ensures Answer(r, bytes) == ReadFrom(entries[..], path, size, offset)
    {
      var e := FindEntry(path);
      if e < 0 {
        return -ENOENT, [];
      }
      var n := size;
      if offset >= |entries[e].data| {
        return 0, [];
      }
      if U64(offset + size) > |entries[e].data| {
        n := |entries[e].data| - offset;
      }
      return n, entries[e].data[offset..offset + n];
    }

    method WriteFile(path: seq<byte>, bytes: seq<byte>, offset: nat) returns (r: int)
      requires Ready() && Valid(Write(path, bytes, offset))
      modifies entries
      ensures var s := Step(old(entries[..]), Write(path, bytes, offset)); entries[..] == s.state && r == s.code
    {
      hide Written;
      var e := FindEntry(path);
      if e < 0 {
        return -ENOENT;
      }
      var newSize := U64(offset + |bytes|);
      if newSize > MAX_DATA_SIZE {
        return -ENOSPC;
      }
      ghost var before := entries[e].data;
      var data, size := entries[e].data, |entries[e].data|;
      if newSize > size {
        data := Realloc(data, newSize);
        WriteFills(before, data, bytes, offset);
        if offset > size {
          data := Splice(data, size, seq(offset - size, _ => 0));
        }
      } else {
        WriteOver(before, bytes, offset);
      }
      data := Splice(data, offset, bytes);
      entries[e] := entries[e].(data := data);
      return |bytes|;
    }

    method UnlinkFile(path: seq<byte>) returns (r: int)
      requires Ready()
      modifies entries
      ensures var s := Step(old(entries[..]), Unlink(path)); entries[..] == s.state && r == s.code
    {
      var e := FindEntry(path);
      if e < 0 {
        return -ENOENT;
      }
      if entries[e].isDir {
        return -EISDIR;
      }
      entries[e] := entries[e].(used := false);
      return 0;
    }

    method RemoveDirectory(path: seq<byte>) returns (r: int)
      requires Ready()
      modifies entries
      ensures var s := Step(old(entries[..]), Rmdir(path)); entries[..] == s.state && r == s.code
    {
      hide Below;
      var e := FindEntry(path);
      if e < 0 {
        return -ENOENT;
      }
      if !entries[e].isDir {
        return -ENOTDIR;
      }
      for i := 0 to MAX_FILES
        invariant entries[..] == old(entries[..])
        invariant Occupied(entries[..], path, e, 0) == Occupied(entries[..], path, e, i)
      {
        if entries[i].used && i != e && Below(path, entries[i].name) {
          return -ENOTEMPTY;
        }
      }
      entries[e] := entries[e].(used := false);
      return 0;
    }

    method TruncateFile(path: seq<byte>, size: int) returns (r: int)
      requires Ready() && Valid(Truncate(path, size))
      modifies entries
      ensures var s := Step(old(entries[..]), Truncate(path, size)); entries[..] == s.state && r == s.code
    {
      hide Resized;
      var e := FindEntry(path);
      if e < 0 {
        return -ENOENT;
      }
      var newSize := U64(size);
      if newSize > MAX_DATA_SIZE {
        return -ENOSPC;
      }
      ghost var before := entries[e].data;
      var data := Realloc(entries[e].data, newSize);
      TruncateFills(before, data, newSize);
      if newSize > |entries[e].data| {
        data := Splice(data, |entries[e].data|, seq(newSize - |entries[e].data|, _ => 0));
      }
      entries[e] := entries[e].(data := data);
      return 0;
    }
  }
}
