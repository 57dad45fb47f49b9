// memfs.c: 64 slots holding names and contents, against a map from path to node.
module MemFs {
  import opened Bytes
  import opened Common

  const MAX_FILES := 64
  const MAX_NAME_LEN := 255
  const MAX_DATA_SIZE := 1024 * 1024

  const ENOENT := 2
  const EEXIST := 17
  const ENOTDIR := 20
  const EISDIR := 21
  const ENOSPC := 28
  const ENOTEMPTY := 39

  const SLASH: byte := 0x2F
  const ROOT: seq<byte> := [SLASH]

  // memfs_entry_t, without its mode, owner and times. A C string has no zero byte.
  datatype Slot = Slot(used: bool, name: seq<byte>, isDir: bool, data: seq<byte>)

  datatype Node = Node(isDir: bool, data: seq<byte>)

  datatype Op =
    | Create(path: seq<byte>)
    | Mkdir(path: seq<byte>)
    | Unlink(path: seq<byte>)
    | Rmdir(path: seq<byte>)
    | Write(path: seq<byte>, bytes: seq<byte>, offset: nat)
    | Truncate(path: seq<byte>, size: int)

  datatype Result<T> = Result(state: T, code: int)

  // ---------------------------------------------------------------- the meaning

  // pwrite on a growing file: the gap reads as zeros.
  function Written(data: seq<byte>, bytes: seq<byte>, offset: nat): seq<byte> {
    var end := offset + |bytes|;
    seq(if end > |data| then end else |data|, k requires 0 <= k =>
      if offset <= k < end then bytes[k - offset] else if k < |data| then data[k] else 0)
  }

  function Resized(data: seq<byte>, size: nat): seq<byte> {
    seq(size, k requires 0 <= k => if k < |data| then data[k] else 0)
  }

  // Path k lies under directory path.
  predicate Below(path: seq<byte>, k: seq<byte>) { path + [SLASH] <= k }

  type Tree = map<seq<byte>, Node>

  function Made(m: Tree, path: seq<byte>, isDir: bool): Result<Tree> {
    if path in m then Result(m, -EEXIST)
    else if |m| == MAX_FILES then Result(m, -ENOSPC)
    else Result(m[path := Node(isDir, [])], 0)
  }

  // What each call means for the map from path to node.
  function Apply(m: Tree, op: Op): Result<Tree> {
    match op
    case Create(path) => Made(m, path, false)
    case Mkdir(path) => Made(m, path, true)
    case Unlink(path) =>
      if path !in m then Result(m, -ENOENT)
      else if m[path].isDir then Result(m, -EISDIR)
      else Result(m - {path}, 0)
    case Rmdir(path) =>
      if path !in m then Result(m, -ENOENT)
      else if !m[path].isDir then Result(m, -ENOTDIR)
      else if exists k :: k in m && Below(path, k) then Result(m, -ENOTEMPTY)
      else Result(m - {path}, 0)
    case Write(path, bytes, offset) =>
      if path !in m then Result(m, -ENOENT)
      else if offset + |bytes| > MAX_DATA_SIZE then Result(m, -ENOSPC)
      else Result(m[path := m[path].(data := Written(m[path].data, bytes, offset))], |bytes|)
    case Truncate(path, size) =>
      if path !in m then Result(m, -ENOENT)
      else if size < 0 || size > MAX_DATA_SIZE then Result(m, -ENOSPC)
      else Result(m[path := m[path].(data := Resized(m[path].data, size))], 0)
  }

  // ---------------------------------------------------------------- the slots

  // find_entry from slot i on, or -1.
  function FindFrom(es: seq<Slot>, path: seq<byte>, i: nat): (r: int)
    requires i <= |es|
    ensures r == -1 ==> forall k :: i <= k < |es| && es[k].used ==> es[k].name != path
    ensures r != -1 ==> i <= r < |es| && es[r].used && es[r].name == path
    decreases |es| - i
  {
    if i == |es| then -1
    else if es[i].used && es[i].name == path then i
    else FindFrom(es, path, i + 1)
  }

  function Find(es: seq<Slot>, path: seq<byte>): int { FindFrom(es, path, 0) }

  // alloc_entry's scan.
  function FreeFrom(es: seq<Slot>, i: nat): (r: int)
    requires i <= |es|
    ensures r == -1 ==> forall k :: i <= k < |es| ==> es[k].used
    ensures r != -1 ==> i <= r < |es| && !es[r].used && forall k :: i <= k < r ==> es[k].used
    decreases |es| - i
  {
    if i == |es| then -1
    else if !es[i].used then i
    else FreeFrom(es, i + 1)
  }

  // strncpy into the cleared name of 256 bytes.
  function StoredName(path: seq<byte>): seq<byte> { path[..Min(|path|, MAX_NAME_LEN)] }

  function MadeSlot(es: seq<Slot>, path: seq<byte>, isDir: bool): Result<seq<Slot>> {
    if Find(es, path) >= 0 then Result(es, -EEXIST)
    else if FreeFrom(es, 0) < 0 then Result(es, -ENOSPC)
    else Result(es[FreeFrom(es, 0) := Slot(true, StoredName(path), isDir, [])], 0)
  }

  // rmdir's scan for an entry under the directory in slot e, from slot i on.
  predicate Occupied(es: seq<Slot>, path: seq<byte>, e: int, i: nat)
    requires i <= |es|
    decreases |es| - i
  {
    i < |es| && ((es[i].used && i != e && Below(path, es[i].name)) || Occupied(es, path, e, i + 1))
  }

  // The calls on the slots.
  function Step(es: seq<Slot>, op: Op): Result<seq<Slot>> {
    var i := Find(es, op.path);
    match op
    case Create(path) => MadeSlot(es, path, false)
    case Mkdir(path) => MadeSlot(es, path, true)
    case Unlink(_) =>
      if i < 0 then Result(es, -ENOENT)
      else if es[i].isDir then Result(es, -EISDIR)
      else Result(es[i := es[i].(used := false)], 0)
    case Rmdir(path) =>
      if i < 0 then Result(es, -ENOENT)
      else if !es[i].isDir then Result(es, -ENOTDIR)
      else if Occupied(es, path, i, 0) then Result(es, -ENOTEMPTY)
      else Result(es[i := es[i].(used := false)], 0)
    case Write(_, bytes, offset) =>
      if i < 0 then Result(es, -ENOENT)
      else if U64(offset + |bytes|) > MAX_DATA_SIZE then Result(es, -ENOSPC)
      else Result(es[i := es[i].(data := Written(es[i].data, bytes, offset))], |bytes|)
    case Truncate(_, size) =>
      if i < 0 then Result(es, -ENOENT)
      else if U64(size) > MAX_DATA_SIZE then Result(es, -ENOSPC)
      else Result(es[i := es[i].(data := Resized(es[i].data, U64(size)))], 0)
  }

  // ---------------------------------------------------------------- refinement

  function NodeOf(s: Slot): Node { Node(s.isDir, s.data) }

  // No two used slots have the same name.
  predicate Distinct(es: seq<Slot>) {
    forall i, j :: 0 <= i < j < |es| && es[i].used && es[j].used ==> es[i].name != es[j].name
  }

  ghost predicate Holds(es: seq<Slot>, n: seq<byte>) {
    exists i :: 0 <= i < |es| && es[i].used && es[i].name == n
  }

  // The slots stand for the map m, each path in one slot.
  ghost predicate Represents(es: seq<Slot>, m: Tree) {
    && Distinct(es)
    && (forall i :: 0 <= i < |es| && es[i].used ==> es[i].name in m && m[es[i].name] == NodeOf(es[i]))
    && (forall n :: n in m ==> Holds(es, n))
  }

  // Arguments the kernel passes: offsets fit off_t, buffers fit memory, sizes are off_t.
  predicate Valid(op: Op) {
    && (op.Write? ==> op.offset < 0x8000_0000_0000_0000 && |op.bytes| < 0x8000_0000_0000_0000)
    && (op.Truncate? ==> -0x8000_0000_0000_0000 <= op.size < 0x8000_0000_0000_0000)
  }

  lemma FindMeans(es: seq<Slot>, m: Tree, path: seq<byte>)
    requires Represents(es, m)
    ensures Find(es, path) >= 0 <==> path in m
    ensures Find(es, path) >= 0 ==> NodeOf(es[Find(es, path)]) == m[path]
  {
    if path in m {
      assert Holds(es, path);
    }
  }

  lemma SlotChanged(es: seq<Slot>, m: Tree, i: nat, data: seq<byte>)
    requires Represents(es, m) && i < |es| && es[i].used
    ensures Represents(es[i := es[i].(data := data)], m[es[i].name := Node(es[i].isDir, data)])
  {
    var es', m' := es[i := es[i].(data := data)], m[es[i].name := Node(es[i].isDir, data)];
    forall n | n in m' ensures Holds(es', n) {
      assert Holds(es, n);
      var k :| 0 <= k < |es| && es[k].used && es[k].name == n;
      assert es'[k].used && es'[k].name == n;
    }
  }

  lemma SlotFreed(es: seq<Slot>, m: Tree, i: nat)
    requires Represents(es, m) && i < |es| && es[i].used
    ensures Represents(es[i := es[i].(used := false)], m - {es[i].name})
  {
    var es', m' := es[i := es[i].(used := false)], m - {es[i].name};
    forall n | n in m' ensures Holds(es', n) {
      assert Holds(es, n);
      var k :| 0 <= k < |es| && es[k].used && es[k].name == n;
      assert es'[k].used && es'[k].name == n;
    }
  }

  lemma SlotTaken(es: seq<Slot>, m: Tree, i: nat, s: Slot)
    requires Represents(es, m) && i < |es| && !es[i].used && s.used && s.name !in m
    ensures Represents(es[i := s], m[s.name := NodeOf(s)])
  {
    var es', m' := es[i := s], m[s.name := NodeOf(s)];
    forall n | n in m' ensures Holds(es', n) {
      if n == s.name {
        assert es'[i].used && es'[i].name == n;
      } else {
        assert Holds(es, n);
        var k :| 0 <= k < |es| && es[k].used && es[k].name == n;
        assert es'[k].used && es'[k].name == n;
      }
    }
  }

  lemma Shorter(es: seq<Slot>, m: Tree)
    requires Represents(es, m) && es != []
    ensures
      var last := |es| - 1;
      && (es[last].used ==> es[last].name in m)
      && Represents(es[..last], if es[last].used then m - {es[last].name} else m)
  {
    var last := |es| - 1;
    var m' := if es[last].used then m - {es[last].name} else m;
    forall n | n in m' ensures Holds(es[..last], n) {
      assert Holds(es, n);
      var k :| 0 <= k < |es| && es[k].used && es[k].name == n;
      assert es[..last][k] == es[k];
    }
  }

  lemma NoSlotsNoPaths(m: Tree)
    requires Represents([], m)
    ensures m == map[] && AllUsed([])
  {
    assert forall n :: n in m ==> Holds([], n);
    assert m.Keys == {};
  }

  lemma OneLess(m: Tree, n: seq<byte>)
    requires n in m
    ensures |m| == |m - {n}| + 1
  {
    assert m.Keys == (m - {n}).Keys + {n};
  }

  predicate AllUsed(es: seq<Slot>) { forall i :: 0 <= i < |es| ==> es[i].used }

  lemma AllUsedButLast(es: seq<Slot>)
    requires es != []
    ensures AllUsed(es) <==> AllUsed(es[..|es| - 1]) && es[|es| - 1].used
  {
    assert es == es[..|es| - 1] + [es[|es| - 1]];
  }

  // As many paths as used slots.
  lemma {:induction false} FullExactly(es: seq<Slot>, m: Tree)
    requires Represents(es, m)
    ensures |m| <= |es|
    ensures |m| == |es| <==> AllUsed(es)
  {
    hide Represents, AllUsed;
    if es == [] {
      NoSlotsNoPaths(m);
    } else {
      var last := |es| - 1;
      Shorter(es, m);
      AllUsedButLast(es);
      if es[last].used {
        FullExactly(es[..last], m - {es[last].name});
        OneLess(m, es[last].name);
      } else {
        FullExactly(es[..last], m);
      }
    }
  }

  lemma {:induction false} OccupiedMeans(es: seq<Slot>, path: seq<byte>, e: int, i: nat)
    requires i <= |es|
    ensures Occupied(es, path, e, i) <==> exists k :: i <= k < |es| && k != e && es[k].used && Below(path, es[k].name)
    decreases |es| - i
  {
    if i < |es| {
      OccupiedMeans(es, path, e, i + 1);
    }
  }

  lemma OccupiedByMap(es: seq<Slot>, m: Tree, path: seq<byte>, e: int)
    requires Represents(es, m) && 0 <= e < |es| && es[e].used && es[e].name == path
    ensures Occupied(es, path, e, 0) <==> exists k :: k in m && Below(path, k)
  {
    OccupiedMeans(es, path, e, 0);
    if k :| k in m && Below(path, k) {
      assert Holds(es, k);
    }
  }

  // A path stored cut is in no slot.
  lemma CutPathIsLost(es: seq<Slot>, m: Tree, i: nat, path: seq<byte>, s: Slot)
    requires Represents(es, m) && path !in m && i < |es| && s.name == StoredName(path) && |path| > MAX_NAME_LEN
    ensures !Holds(es[i := s], path)
  {
    assert s.name != path;
  }

  // The answer is always the one meant; the map is, unless a path too long for a name was stored cut.
  lemma MakeRefines(es: seq<Slot>, m: Tree, path: seq<byte>, isDir: bool)
    requires Represents(es, m) && |es| == MAX_FILES
    ensures MadeSlot(es, path, isDir).code == Made(m, path, isDir).code
    ensures Represents(MadeSlot(es, path, isDir).state, Made(m, path, isDir).state)
      <==> |path| <= MAX_NAME_LEN || Made(m, path, isDir).code != 0
  {
    hide Distinct, Holds;
    FindMeans(es, m, path);
    FullExactly(es, m);
    var f, s := FreeFrom(es, 0), Slot(true, StoredName(path), isDir, []);
    if Find(es, path) < 0 && f >= 0 {
      if |path| <= MAX_NAME_LEN {
        assert StoredName(path) == path;
        SlotTaken(es, m, f, s);
      } else {
        CutPathIsLost(es, m, f, path, s);
        assert path in Made(m, path, isDir).state;
      }
    }
  }

  // The call creates something under a path too long for a name.
  predicate CutsPath(m: Tree, op: Op) {
    (op.Create? || op.Mkdir?) && |op.path| > MAX_NAME_LEN && Apply(m, op).code == 0
  }

  // Each call answers as it should, and does to the map just what it should, exactly when it does not create
  // under a path too long for a name.
  lemma StepRefines(es: seq<Slot>, m: Tree, op: Op)
    requires Represents(es, m) && |es| == MAX_FILES && Valid(op)
    ensures Represents(Step(es, op).state, Apply(m, op).state) <==> !CutsPath(m, op)
    ensures Step(es, op).code == Apply(m, op).code && |Step(es, op).state| == MAX_FILES
  {
    hide Represents, Written, Resized, Below, Occupied;
    FindMeans(es, m, op.path);
    var i := Find(es, op.path);
    match op
    case Create(path) => MakeRefines(es, m, path, false);
    case Mkdir(path) => MakeRefines(es, m, path, true);
    case Unlink(_) => if i >= 0 { SlotFreed(es, m, i); }
    case Rmdir(path) =>
      if i >= 0 {
        OccupiedByMap(es, m, path, i);
        SlotFreed(es, m, i);
      }
    case Write(_, bytes, offset) =>
      if i >= 0 { SlotChanged(es, m, i, Written(es[i].data, bytes, offset)); }
    case Truncate(_, size) =>
      if i >= 0 { SlotChanged(es, m, i, Resized(es[i].data, U64(size))); }
  }

  // ---------------------------------------------------------------- whole runs

  const EMPTY := seq(MAX_FILES, _ => Slot(false, [], false, []))

  // The slots, and what the calls answered.
  datatype History<T> = History(state: T, codes: seq<int>)

  function RunSlots(es: seq<Slot>, ops: seq<Op>): History<seq<Slot>>
    decreases |ops|
  {
    if ops == [] then History(es, [])
    else
      var r := Step(es, ops[0]);
      var h := RunSlots(r.state, ops[1..]);
      History(h.state, [r.code] + h.codes)
  }

  function RunMap(m: Tree, ops: seq<Op>): History<Tree>
    decreases |ops|
  {
    if ops == [] then History(m, [])
    else
      var r := Apply(m, ops[0]);
      var h := RunMap(r.state, ops[1..]);
      History(h.state, [r.code] + h.codes)
  }

  predicate AllValid(ops: seq<Op>) { forall i :: 0 <= i < |ops| ==> Valid(ops[i]) }

  // No call creates anything under a path too long for a name.
  predicate Storable(m: Tree, ops: seq<Op>)
    decreases |ops|
  {
    ops == [] || (!CutsPath(m, ops[0]) && Storable(Apply(m, ops[0]).state, ops[1..]))
  }

  // The slots stand for the map all along.
  ghost predicate InStep(es: seq<Slot>, m: Tree, ops: seq<Op>)
    decreases |ops|
  {
    Represents(es, m) && (ops == [] || InStep(Step(es, ops[0]).state, Apply(m, ops[0]).state, ops[1..]))
  }

  // Over a sequence of calls the slots behave as the map, same contents all along and no name twice, exactly
  // when nothing is created under a path too long; then all answers agree.
  lemma {:induction false} RunRefines(es: seq<Slot>, m: Tree, ops: seq<Op>)
    requires Represents(es, m) && |es| == MAX_FILES && AllValid(ops)
    ensures InStep(es, m, ops) <==> Storable(m, ops)
    ensures Storable(m, ops) ==>
      && Represents(RunSlots(es, ops).state, RunMap(m, ops).state)
      && RunSlots(es, ops).codes == RunMap(m, ops).codes
    decreases |ops|
  {
    hide Represents, Step, Apply, Valid, CutsPath;
    if ops != [] {
      StepRefines(es, m, ops[0]);
      if !CutsPath(m, ops[0]) {
        RunRefines(Step(es, ops[0]).state, Apply(m, ops[0]).state, ops[1..]);
      } else {
        OutOfStep(Step(es, ops[0]).state, Apply(m, ops[0]).state, ops[1..]);
      }
    }
  }

  lemma OutOfStep(es: seq<Slot>, m: Tree, ops: seq<Op>)
    requires !Represents(es, m)
    ensures !InStep(es, m, ops)
  {
    hide Represents, Step, Apply;
  }

  // Which is so when all created paths fit.
  lemma {:induction false} ShortPathsStorable(m: Tree, ops: seq<Op>)
    requires forall i :: 0 <= i < |ops| && (ops[i].Create? || ops[i].Mkdir?) ==> |ops[i].path| <= 255
    ensures Storable(m, ops)
    decreases |ops|
  {
    hide Apply;
    if ops != [] {
      ShortPathsStorable(Apply(m, ops[0]).state, ops[1..]);
    }
  }

  lemma EmptyRepresents()
    ensures Represents(EMPTY, map[])
  {
  }

  // ---------------------------------------------------------------- the tree

  function LastSlash(p: seq<byte>): (r: int)
    ensures -1 <= r < |p|
    ensures r >= 0 ==> p[r] == SLASH
    ensures forall j :: r < j < |p| ==> p[j] != SLASH
  {
    if p == [] then -1
    else if p[|p| - 1] == SLASH then |p| - 1
    else LastSlash(p[..|p| - 1])
  }

  function Parent(p: seq<byte>): seq<byte> {
    if LastSlash(p) <= 0 then ROOT else p[..LastSlash(p)]
  }

  predicate DirectoryIn(m: Tree, path: seq<byte>) { path == ROOT || (path in m && m[path].isDir) }

  // Every path hangs from a directory.
  predicate IsTree(m: Tree) { forall p :: p in m ==> DirectoryIn(m, Parent(p)) }

  lemma ChildIsBelow(p: seq<byte>)
    requires Parent(p) != ROOT
    ensures Below(Parent(p), p)
  {
    var s := LastSlash(p);
    assert p[..s] + [SLASH] == p[..s + 1];
  }

  // Nothing but the last rmdir of an empty directory takes a parent away.
  lemma TreeKept(m: Tree, op: Op)
    requires IsTree(m)
    requires op.Create? || op.Mkdir? ==> DirectoryIn(m, Parent(op.path))
    ensures IsTree(Apply(m, op).state)
  {
    hide Parent, Below, Written, Resized;
    var m' := Apply(m, op).state;
    forall p | p in m' ensures DirectoryIn(m', Parent(p)) {
      if p in m {
        assert DirectoryIn(m, Parent(p));
        if op.Rmdir? && Parent(p) == op.path && Parent(p) != ROOT {
          ChildIsBelow(p);
        }
      }
    }
  }

  // Every creation happens under a directory that is there.
  predicate Grounded(m: Tree, ops: seq<Op>)
    decreases |ops|
  {
    ops == []
    || ((ops[0].Create? || ops[0].Mkdir? ==> DirectoryIn(m, Parent(ops[0].path)))
        && Grounded(Apply(m, ops[0]).state, ops[1..]))
  }

  lemma {:induction false} TreeAlways(m: Tree, ops: seq<Op>)
    requires IsTree(m) && Grounded(m, ops)
    ensures IsTree(RunMap(m, ops).state)
    decreases |ops|
  {
    hide IsTree, Apply, DirectoryIn;
    if ops != [] {
      TreeKept(m, ops[0]);
      TreeAlways(Apply(m, ops[0]).state, ops[1..]);
    }
  }

  // From the empty filesystem: the slots stand for the map the calls mean, the answers agree, and the parent
  // of every used name is a directory.
  lemma MemfsCorrect(ops: seq<Op>)
    requires AllValid(ops) && Storable(map[], ops) && Grounded(map[], ops)
    ensures
      var es, m := RunSlots(EMPTY, ops), RunMap(map[], ops);
      && es.codes == m.codes && Represents(es.state, m.state)
      && forall i :: 0 <= i < |es.state| && es.state[i].used ==> DirectoryIn(m.state, Parent(es.state[i].name))
  {
    hide RunSlots, RunMap, AllValid, Storable, Grounded, DirectoryIn, InStep;
    EmptyRepresents();
    RunRefines(EMPTY, map[], ops);
    TreeAlways(map[], ops);
  }

  // ---------------------------------------------------------------- paths too long for a name

  // A creation that succeeds keeps names apart exactly when the name it stores is not in use.
  lemma CreateKeepsDistinct(es: seq<Slot>, path: seq<byte>, isDir: bool)
    requires Distinct(es) && MadeSlot(es, path, isDir).code == 0
    ensures Distinct(MadeSlot(es, path, isDir).state) <==> Find(es, StoredName(path)) < 0
  {
    var f, s := FreeFrom(es, 0), Find(es, StoredName(path));
    if s >= 0 {
      var es' := MadeSlot(es, path, isDir).state;
      assert es'[f].name == es'[s].name && es'[f].used && es'[s].used && f != s;
    }
  }

  // Which is so for every path that fits.
  lemma ShortPathsStayDistinct(es: seq<Slot>, path: seq<byte>, isDir: bool)
    requires Distinct(es) && |path| <= 255
    ensures Distinct(MadeSlot(es, path, isDir).state)
  {
    assert StoredName(path) == path;
    if MadeSlot(es, path, isDir).code == 0 {
      CreateKeepsDistinct(es, path, isDir);
    }
  }

  lemma LongPathStored(path: seq<byte>)
    requires |path| > MAX_NAME_LEN
    ensures
      var es := MadeSlot(EMPTY, path, false).state;
      && MadeSlot(EMPTY, path, false).code == 0 && |es| == MAX_FILES && Distinct(es)
      && es[0] == Slot(true, StoredName(path), false, [])
      && forall i :: 0 < i < |es| ==> !es[i].used
  {
    assert !EMPTY[0].used;
    assert Find(EMPTY, path) < 0;
    assert FreeFrom(EMPTY, 0) == 0;
  }

  lemma LongPathStoredAgain(es: seq<Slot>, path: seq<byte>)
    requires |path| > MAX_NAME_LEN && |es| == MAX_FILES && Distinct(es)
    requires es[0] == Slot(true, StoredName(path), false, []) && forall i :: 0 < i < |es| ==> !es[i].used
    ensures MadeSlot(es, path, false).code == 0 && !Distinct(MadeSlot(es, path, false).state)
  {
    hide Distinct;
    assert !es[1].used;
    assert Find(es, path) < 0;
    assert FreeFrom(es, 0) >= 0;
    CreateKeepsDistinct(es, path, false);
  }

  // A path too long for a name can be created again and again: it is cut when stored and so never found.
  lemma LongPathCreatedTwice(path: seq<byte>)
    requires |path| > 255
    ensures
      var h := RunSlots(EMPTY, [Create(path), Create(path)]);
      h.codes == [0, 0] && !Distinct(h.state)
  {
    hide Distinct, MadeSlot;
    var ops := [Create(path), Create(path)];
    LongPathStored(path);
    LongPathStoredAgain(MadeSlot(EMPTY, path, false).state, path);
    var es := MadeSlot(EMPTY, path, false).state;
    assert ops[1..] == [Create(path)] && ops[1..][1..] == [];
    assert RunSlots(es, ops[1..]) == History(MadeSlot(es, path, false).state, [0]);
  }

  // ---------------------------------------------------------------- directories

  // readdir's test on a name.
  predicate DirectChild(path: seq<byte>, name: seq<byte>) {
    if path == ROOT then |name| > 0 && name[0] == SLASH && SLASH !in name[1..]
    else Below(path, name) && SLASH !in name[|path| + 1..]
  }

  // What it hands to filler of a name that passes.
  function Rest(path: seq<byte>, name: seq<byte>): seq<byte>
    requires DirectChild(path, name)
  {
    if path == ROOT then name[1..] else name[|path| + 1..]
  }

  function ListedFrom(es: seq<Slot>, path: seq<byte>, i: nat): seq<seq<byte>>
    requires i <= |es|
    decreases |es| - i
  {
    if i == |es| then []
    else if es[i].used && DirectChild(path, es[i].name) then [Rest(path, es[i].name)] + ListedFrom(es, path, i + 1)
    else ListedFrom(es, path, i + 1)
  }

  function Join(path: seq<byte>, b: seq<byte>): seq<byte> {
    if path == ROOT then ROOT + b else path + [SLASH] + b
  }

  lemma JoinOfRest(path: seq<byte>, name: seq<byte>)
    requires DirectChild(path, name)
    ensures Join(path, Rest(path, name)) == name && SLASH !in Rest(path, name)
  {
  }

  lemma JoinIsChild(path: seq<byte>, b: seq<byte>)
    requires SLASH !in b
    ensures DirectChild(path, Join(path, b)) && Rest(path, Join(path, b)) == b
  {
    var k := Join(path, b);
    if path == ROOT {
      assert k[1..] == b;
    } else {
      assert k[..|path| + 1] == path + [SLASH];
      assert k[|path| + 1..] == b;
    }
  }

  lemma LastSlashIs(k: seq<byte>, s: nat)
    requires s < |k| && k[s] == SLASH && SLASH !in k[s + 1..]
    ensures LastSlash(k) == s
  {
    var r := LastSlash(k);
    assert forall j :: s < j < |k| ==> k[j] == k[s + 1..][j - s - 1];
  }

  // What is joined to a directory has that directory as its parent.
  lemma ParentOfJoin(path: seq<byte>, b: seq<byte>)
    requires path != [] && SLASH !in b
    ensures Parent(Join(path, b)) == path
  {
    var k := Join(path, b);
    var s := if path == ROOT then 0 else |path|;
    assert k[s] == SLASH && k[s + 1..] == b;
    LastSlashIs(k, s);
  }

  ghost predicate HeldFrom(es: seq<Slot>, n: seq<byte>, i: nat) {
    exists k :: i <= k < |es| && es[k].used && es[k].name == n
  }

  // b is listed from slot i on exactly when a slot from there on holds it under path.
  lemma {:induction false} ListedExactly(es: seq<Slot>, path: seq<byte>, i: nat, b: seq<byte>)
    requires i <= |es|
    ensures b in ListedFrom(es, path, i) <==> SLASH !in b && HeldFrom(es, Join(path, b), i)
    decreases |es| - i
  {
    hide DirectChild, Rest, Join;
    if i < |es| {
      ListedExactly(es, path, i + 1, b);
      assert HeldFrom(es, Join(path, b), i) <==>
        (es[i].used && es[i].name == Join(path, b)) || HeldFrom(es, Join(path, b), i + 1);
      if es[i].used && DirectChild(path, es[i].name) {
        JoinOfRest(path, es[i].name);
      }
      if SLASH !in b {
        JoinIsChild(path, b);
      }
    }
  }

  lemma {:induction false} ListedOnce(es: seq<Slot>, path: seq<byte>, i: nat)
    requires i <= |es| && Distinct(es)
    ensures NoRepeats(ListedFrom(es, path, i))
    decreases |es| - i
  {
    hide DirectChild, Rest, Join;
    if i < |es| {
      ListedOnce(es, path, i + 1);
      if es[i].used && DirectChild(path, es[i].name) {
        JoinOfRest(path, es[i].name);
        ListedExactly(es, path, i + 1, Rest(path, es[i].name));
      }
    }
  }

  // readdir lists each direct child exactly once and nothing else.
  lemma ReaddirLists(es: seq<Slot>, m: Tree, path: seq<byte>)
    requires Represents(es, m)
    ensures NoRepeats(ListedFrom(es, path, 0))
    ensures forall b :: b in ListedFrom(es, path, 0) <==> SLASH !in b && Join(path, b) in m
  {
    hide ListedFrom, NoRepeats, Join;
    ListedOnce(es, path, 0);
    forall b ensures b in ListedFrom(es, path, 0) <==> SLASH !in b && Join(path, b) in m {
      ListedExactly(es, path, 0, b);
      if Join(path, b) in m {
        assert Holds(es, Join(path, b));
      }
    }
  }

  // The names stand in slot order: ascending slots, each in use and holding the name joined to the directory.
  predicate FromSlots(es: seq<Slot>, path: seq<byte>, listed: seq<seq<byte>>, slots: seq<nat>) {
    && |listed| == |slots| && (forall i, j :: 0 <= i < j < |slots| ==> slots[i] < slots[j])
    && forall k :: 0 <= k < |slots| ==>
         slots[k] < |es| && es[slots[k]].used && es[slots[k]].name == Join(path, listed[k])
  }

  lemma {:induction false} ListedInOrder(es: seq<Slot>, path: seq<byte>, i: nat) returns (slots: seq<nat>)
    requires i <= |es|
    ensures FromSlots(es, path, ListedFrom(es, path, i), slots) && forall k :: 0 <= k < |slots| ==> i <= slots[k]
    decreases |es| - i
  {
    hide DirectChild, Rest, Join, FromSlots;
    slots := [];
    if i < |es| {
      slots := ListedInOrder(es, path, i + 1);
      if es[i].used && DirectChild(path, es[i].name) {
        JoinOfRest(path, es[i].name);
        SlotInFront(es, path, i, Rest(path, es[i].name), ListedFrom(es, path, i + 1), slots);
        slots := [i] + slots;
      }
    } else {
      NoneInOrder(es, path);
    }
  }

  lemma NoneInOrder(es: seq<Slot>, path: seq<byte>)
    ensures FromSlots(es, path, [], [])
  {
  }

  lemma SlotInFront(es: seq<Slot>, path: seq<byte>, i: nat, b: seq<byte>, listed: seq<seq<byte>>, slots: seq<nat>)
    requires FromSlots(es, path, listed, slots) && forall k :: 0 <= k < |slots| ==> i < slots[k]
    requires i < |es| && es[i].used && es[i].name == Join(path, b)
    ensures FromSlots(es, path, [b] + listed, [i] + slots)
  {
    hide Join;
  }

  // ---------------------------------------------------------------- contents

  datatype Answer = Answer(code: int, bytes: seq<byte>)

  function ReadFrom(es: seq<Slot>, path: seq<byte>, size: nat, offset: nat): Answer
    requires offset < 0x8000_0000_0000_0000 && size < 0x8000_0000_0000_0000
  {
    var i := Find(es, path);
    if i < 0 then Answer(-ENOENT, [])
    else if offset >= |es[i].data| then Answer(0, [])
    else
      var n := if U64(offset + size) > |es[i].data| then |es[i].data| - offset else size;
      Answer(n, es[i].data[offset..offset + n])
  }

  // The part of data a read of size bytes at offset covers.
  function Range(data: seq<byte>, size: nat, offset: nat): seq<byte> {
    data[Min(offset, |data|)..Min(offset + size, |data|)]
  }

  lemma ReadRefines(es: seq<Slot>, m: Tree, path: seq<byte>, size: nat, offset: nat)
    requires Represents(es, m) && offset < 0x8000_0000_0000_0000 && size < 0x8000_0000_0000_0000
    ensures ReadFrom(es, path, size, offset) ==
      if path !in m then Answer(-ENOENT, [])
      else Answer(|Range(m[path].data, size, offset)|, Range(m[path].data, size, offset))
  {
    hide Represents;
    FindMeans(es, m, path);
  }

  // What was written is read back; around it the old bytes, and zeros in a gap.
  lemma ReadsBack(data: seq<byte>, bytes: seq<byte>, offset: nat)
    ensures Range(Written(data, bytes, offset), |bytes|, offset) == bytes
    ensures Range(Written(data, bytes, offset), offset, 0) == Resized(data, offset)
    ensures offset + |bytes| < |data| ==>
      Written(data, bytes, offset)[offset + |bytes|..] == data[offset + |bytes|..]
  {
    var w, end := Written(data, bytes, offset), offset + |bytes|;
    assert |w| >= end;
    assert w[offset..end] == bytes;
    assert w[0..offset] == Resized(data, offset);
    if end < |data| {
      assert |w[end..]| == |data[end..]|;
      assert forall k :: 0 <= k < |data| - end ==> w[end..][k] == data[end..][k];
    }
  }
}
