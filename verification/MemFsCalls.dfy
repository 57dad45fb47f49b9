// What a caller of memfs.c sees: the answer of each call, what is read afterwards at its path and at all others,
// and the limits, in the numbers of errno.h and of the source.
module MemFsCalls {
  import opened Bytes
  import opened MemFs

  // ---------------------------------------------------------------- answers

  // When each call succeeds, and with which error it fails.
  lemma AnswersExactly(es: seq<Slot>, m: Tree, op: Op)
    requires Represents(es, m) && |es| == 64 && Valid(op)
    ensures
      var code := Step(es, op).code;
      match op
      case Create(p) => code == if p in m then -17 else if |m| == 64 then -28 else 0
      case Mkdir(p) => code == if p in m then -17 else if |m| == 64 then -28 else 0
      case Unlink(p) => code == if p !in m then -2 else if m[p].isDir then -21 else 0
      case Rmdir(p) =>
        code == if p !in m then -2
                else if !m[p].isDir then -20
                else if exists k :: k in m && p + [0x2F] <= k then -39
                else 0
      case Write(p, bytes, offset) =>
        code == if p !in m then -2 else if offset + |bytes| > 1048576 then -28 else |bytes|
      case Truncate(p, size) =>
        code == if p !in m then -2 else if size < 0 || size > 1048576 then -28 else 0
  {
    hide Represents, Step;
    StepRefines(es, m, op);
  }

  // A call that fails changes nothing.
  lemma FailureKeeps(es: seq<Slot>, op: Op)
    requires Step(es, op).code < 0
    ensures Step(es, op).state == es
  {
    hide Written, Resized, Occupied;
  }

  // ---------------------------------------------------------------- effects

  lemma OtherPaths(m: Tree, op: Op, q: seq<byte>)
    requires q != op.path
    ensures var t := Apply(m, op).state; (q in t <==> q in m) && (q in m ==> t[q] == m[q])
  {
    hide Written, Resized, Below;
  }

  // A call at one path is not seen at another.
  lemma OthersUntouched(es: seq<Slot>, m: Tree, op: Op, q: seq<byte>, size: nat, offset: nat)
    requires Represents(es, m) && |es| == 64 && Valid(op) && !CutsPath(m, op) && q != op.path
    requires offset < 0x8000_0000_0000_0000 && size < 0x8000_0000_0000_0000
    ensures ReadFrom(Step(es, op).state, q, size, offset) == ReadFrom(es, q, size, offset)
  {
    hide Represents, Step, Apply, ReadFrom;
    StepRefines(es, m, op);
    OtherPaths(m, op, q);
    ReadRefines(es, m, q, size, offset);
    ReadRefines(Step(es, op).state, Apply(m, op).state, q, size, offset);
  }

  // What is created is empty and of its kind.
  lemma CreatedEmpty(es: seq<Slot>, m: Tree, p: seq<byte>, isDir: bool, size: nat)
    requires Represents(es, m) && |es| == 64 && |p| <= 255 && size < 0x8000_0000_0000_0000
    ensures
      var op := if isDir then Mkdir(p) else Create(p);
      var t := Step(es, op).state;
      Step(es, op).code == 0 ==>
        && ReadFrom(t, p, size, 0) == Answer(0, [])
        && (isDir ==> Step(t, Unlink(p)).code == -21) && (!isDir ==> Step(t, Rmdir(p)).code == -20)
  {
    hide Represents, Step, ReadFrom;
    var op := if isDir then Mkdir(p) else Create(p);
    StepRefines(es, m, op);
    var t, n := Step(es, op).state, Apply(m, op).state;
    if Step(es, op).code == 0 {
      ReadRefines(t, n, p, size, 0);
      AnswersExactly(t, n, if isDir then Unlink(p) else Rmdir(p));
    }
  }

  lemma RemovedFromMap(m: Tree, op: Op)
    requires (op.Unlink? || op.Rmdir?) && Apply(m, op).code == 0
    ensures op.path in m && Apply(m, op).state == m - {op.path} && |Apply(m, op).state| < |m|
  {
    hide Below;
    OneLess(m, op.path);
  }

  // What is removed is gone, and can be created again.
  lemma RemovedGone(es: seq<Slot>, m: Tree, op: Op)
    requires Represents(es, m) && |es| == 64 && (op.Unlink? || op.Rmdir?) && Step(es, op).code == 0
    ensures
      var t := Step(es, op).state;
      && (forall size: nat :: size < 0x8000_0000_0000_0000 ==> ReadFrom(t, op.path, size, 0) == Answer(-2, []))
      && Step(t, Create(op.path)).code == 0
  {
    hide Represents, Step, ReadFrom, Apply;
    StepRefines(es, m, op);
    var t, n := Step(es, op).state, Apply(m, op).state;
    RemovedFromMap(m, op);
    forall size: nat | size < 0x8000_0000_0000_0000 ensures ReadFrom(t, op.path, size, 0) == Answer(-2, []) {
      ReadRefines(t, n, op.path, size, 0);
    }
    FullExactly(es, m);
    AnswersExactly(t, n, Create(op.path));
  }

  // The contents as a read from the start gives them.
  function AllOf(es: seq<Slot>, p: seq<byte>): seq<byte> { ReadFrom(es, p, 0x100_0000, 0).bytes }

  // A write within the limit is read back where it was written; before it stand the old bytes, then zeros if
  // there was a gap, and behind it the old bytes.
  lemma WrittenBack(es: seq<Slot>, m: Tree, p: seq<byte>, bytes: seq<byte>, offset: nat)
    requires Represents(es, m) && |es| == 64 && p in m && offset + |bytes| <= 1048576
    requires |m[p].data| <= 1048576
    ensures
      var t := Step(es, Write(p, bytes, offset)).state;
      var before, after := AllOf(es, p), AllOf(t, p);
      && ReadFrom(t, p, |bytes|, offset) == Answer(|bytes|, bytes)
      && |after| == (if offset + |bytes| > |before| then offset + |bytes| else |before|)
      && (forall k :: 0 <= k < offset ==> after[k] == if k < |before| then before[k] else 0)
      && (forall k :: offset + |bytes| <= k < |after| ==> after[k] == before[k])
  {
    hide Represents, Step, ReadFrom;
    var op := Write(p, bytes, offset);
    StepRefines(es, m, op);
    var t, n := Step(es, op).state, Apply(m, op).state;
    ReadRefines(es, m, p, 0x100_0000, 0);
    ReadRefines(t, n, p, 0x100_0000, 0);
    ReadRefines(t, n, p, |bytes|, offset);
    ReadsBack(m[p].data, bytes, offset);
    assert m[p].data[0..|m[p].data|] == m[p].data && n[p].data[0..|n[p].data|] == n[p].data;
  }

  // A truncate within the limit leaves the first bytes, and zeros beyond the old end.
  lemma TruncatedTo(es: seq<Slot>, m: Tree, p: seq<byte>, size: nat)
    requires Represents(es, m) && |es| == 64 && p in m && size <= 1048576 && |m[p].data| <= 1048576
    ensures
      var before, after := AllOf(es, p), AllOf(Step(es, Truncate(p, size)).state, p);
      |after| == size && forall k :: 0 <= k < size ==> after[k] == if k < |before| then before[k] else 0
  {
    hide Represents, Step, ReadFrom;
    var op := Truncate(p, size);
    StepRefines(es, m, op);
    var t, n := Step(es, op).state, Apply(m, op).state;
    ReadRefines(es, m, p, 0x100_0000, 0);
    ReadRefines(t, n, p, 0x100_0000, 0);
    assert m[p].data[0..|m[p].data|] == m[p].data && n[p].data[0..|n[p].data|] == n[p].data;
  }

  // ---------------------------------------------------------------- the size limit

  predicate WithinLimit(m: Tree) { forall p :: p in m ==> |m[p].data| <= 1048576 }

  lemma LimitKept(m: Tree, op: Op)
    requires WithinLimit(m)
    ensures WithinLimit(Apply(m, op).state)
  {
    hide Below;
  }

  // No file ever grows beyond a megabyte.
  lemma {:induction false} LimitAlways(m: Tree, ops: seq<Op>)
    requires WithinLimit(m)
    ensures WithinLimit(RunMap(m, ops).state)
    decreases |ops|
  {
    hide WithinLimit, Apply;
    if ops != [] {
      LimitKept(m, ops[0]);
      LimitAlways(Apply(m, ops[0]).state, ops[1..]);
    }
  }
}
