// Names longer than parse_name's output buffer. Once the buffer is full the copy loop copies nothing, so the
// decoder takes the rest of a label a byte at a time for label lengths: it stops at any zero byte and follows
// any byte that looks like a pointer. This module says exactly when the name is recovered all the same.
module DnsCut {
  import opened Bytes
  import opened Common
  import opened DnsName
  import opened DnsEnds

  // The decoder's state when its output buffer has filled up, following jumps that descend.
  function Filled(pkt: seq<byte>, len: nat, outsize: nat, start: nat, st: ParseState): ParseState
    requires len <= |pkt|
    decreases start, |pkt| - st.pos
  {
    if |st.out| >= outsize - 1 || !Parsing(len, st) || pkt[st.pos] == 0 then st
    else if IsPointer(pkt[st.pos]) then
      if st.pos + 1 >= |pkt| || PointerTarget(pkt[st.pos], pkt[st.pos + 1]) >= start then st
      else
        Filled(pkt, len, outsize, PointerTarget(pkt[st.pos], pkt[st.pos + 1]), ParseStep(pkt, len, outsize, st))
    else Filled(pkt, len, outsize, start, ParseStep(pkt, len, outsize, st))
  }

  predicate IsStop(b: byte) { b == 0 || IsPointer(b) }

  // The first byte from at on that ends the skimming.
  function FirstStop(pkt: seq<byte>, len: nat, at: nat): (r: nat)
    requires len <= |pkt|
    ensures r >= at && (r < len ==> IsStop(pkt[r]))
    decreases |pkt| - at
  {
    if at >= len || IsStop(pkt[at]) then at else FirstStop(pkt, len, at + 1)
  }

  // The offset behind a zero byte or a pointer at q.
  function EndOf(pkt: seq<byte>, q: nat): nat
    requires q < |pkt|
  {
    if pkt[q] == 0 then q + 1 else q + 2
  }

  // What parse_name returns when it ends: fixed if it had jumped before the buffer was full, otherwise the
  // end the first stop behind that place gives.
  function CutOffset(pkt: seq<byte>, len: nat, outsize: nat, pos: nat): nat
    requires len <= |pkt|
  {
    var full := Filled(pkt, len, outsize, pos, ParseStart(pos));
    var q := FirstStop(pkt, len, full.pos);
    if full.jumped then full.saved else if q < len then EndOf(pkt, q) else q
  }

  // The exact condition under which a name standing for e is recovered.
  ghost predicate Recovers(pkt: seq<byte>, len: nat, outsize: nat, pos: nat, e: Expansion)
    requires len <= |pkt|
  {
    || |Dotted(e.labels)| < outsize
    || (Parses(pkt, len, outsize, pos) && JumpedOrEnds(pkt, len, outsize, pos, e.end))
  }

  // The decoder had jumped before its buffer was full, or the first stop behind that place is the name's end.
  predicate JumpedOrEnds(pkt: seq<byte>, len: nat, outsize: nat, pos: nat, end: nat)
    requires len <= |pkt|
  {
    var full := Filled(pkt, len, outsize, pos, ParseStart(pos));
    var q := FirstStop(pkt, len, full.pos);
    full.jumped || (q < len && EndOf(pkt, q) == end)
  }

  // ---------------------------------------------------------------- until the buffer is full

  ghost predicate Reaches(pkt: seq<byte>, len: nat, outsize: nat, st: ParseState, f: ParseState)
    requires len <= |pkt|
  {
    exists n: nat :: ParseRun(pkt, len, outsize, st, n) == f
  }

  lemma ReachesItself(pkt: seq<byte>, len: nat, outsize: nat, st: ParseState)
    requires len <= |pkt|
    ensures Reaches(pkt, len, outsize, st, st)
  {
    assert ParseRun(pkt, len, outsize, st, 0) == st;
  }

  lemma ReachesNext(pkt: seq<byte>, len: nat, outsize: nat, st: ParseState, f: ParseState)
    requires len <= |pkt| && Parsing(len, st) && Reaches(pkt, len, outsize, ParseStep(pkt, len, outsize, st), f)
    ensures Reaches(pkt, len, outsize, st, f)
  {
    hide ParseStep;
    var n: nat :| ParseRun(pkt, len, outsize, ParseStep(pkt, len, outsize, st), n) == f;
    assert ParseRun(pkt, len, outsize, st, n + 1) == f;
  }

  lemma {:induction false} StopBefore(pkt: seq<byte>, len: nat, a: nat, b: nat)
    requires len <= |pkt| && a <= b
    ensures FirstStop(pkt, len, a) <= FirstStop(pkt, len, b)
    decreases b - a
  {
    if a < b {
      StopBefore(pkt, len, a + 1, b);
    }
  }

  lemma {:induction false} ExpandHasStop(pkt: seq<byte>, len: nat, start: nat, pos: nat)
    requires len <= |pkt| && Expand(pkt, len, start, pos).Some?
    ensures FirstStop(pkt, len, pos) < len
    decreases |pkt| - pos
  {
    if !IsStop(pkt[pos]) {
      ExpandHasStop(pkt, len, start, pos + 1 + pkt[pos]);
      StopBefore(pkt, len, pos, pos + 1 + pkt[pos]);
    }
  }

  // What is known of the state with the full buffer, when the name is too long for it.
  predicate FullState(pkt: seq<byte>, len: nat, outsize: nat, st: ParseState, e: Expansion, f: ParseState)
    requires len <= |pkt| && outsize > 0
  {
    && |f.out| == outsize - 1 && f.out == Cut(Append(st.out, e.labels), outsize) && !f.done && !f.overrun
    && (st.jumped ==> f.jumped) && (f.jumped ==> f.saved == ReturnedOffset(st, e))
    && (!f.jumped ==> FirstStop(pkt, len, f.pos) < len)
  }

  lemma {:induction false} FillsUp(pkt: seq<byte>, len: nat, outsize: nat, start: nat, st: ParseState, e: Expansion)
    requires len <= |pkt| && !st.done && !st.overrun && |st.out| < outsize
    requires Expand(pkt, len, start, st.pos) == Some(e) && |Append(st.out, e.labels)| >= outsize
    ensures var f := Filled(pkt, len, outsize, start, st);
            FullState(pkt, len, outsize, st, e, f) && Reaches(pkt, len, outsize, st, f)
    decreases start, |pkt| - st.pos
  {
    if |st.out| == outsize - 1 {
      FullAlready(pkt, len, outsize, start, st, e);
    } else if IsPointer(pkt[st.pos]) {
      FillsAfterJump(pkt, len, outsize, start, st, e);
    } else {
      FillsAfterLabel(pkt, len, outsize, start, st, e);
    }
  }

  lemma FullAlready(pkt: seq<byte>, len: nat, outsize: nat, start: nat, st: ParseState, e: Expansion)
    requires len <= |pkt| && !st.done && !st.overrun && |st.out| == outsize - 1
    requires Expand(pkt, len, start, st.pos) == Some(e) && |Append(st.out, e.labels)| >= outsize
    ensures var f := Filled(pkt, len, outsize, start, st);
            FullState(pkt, len, outsize, st, e, f) && Reaches(pkt, len, outsize, st, f)
  {
    hide Expand, Append, FirstStop, Cut, Reaches;
    ExpandHasStop(pkt, len, start, st.pos);
    CutAgain(st.out, Append(st.out, e.labels), outsize);
    ReachesItself(pkt, len, outsize, st);
  }

  lemma {:induction false} FillsAfterJump(pkt: seq<byte>, len: nat, outsize: nat, start: nat, st: ParseState,
      e: Expansion)
    requires len <= |pkt| && !st.done && !st.overrun && |st.out| < outsize - 1
    requires Expand(pkt, len, start, st.pos) == Some(e) && |Append(st.out, e.labels)| >= outsize
    requires IsPointer(pkt[st.pos])
    ensures var f := Filled(pkt, len, outsize, start, st);
            FullState(pkt, len, outsize, st, e, f) && Reaches(pkt, len, outsize, st, f)
    decreases start, |pkt| - st.pos, 0
  {
    hide Append, FirstStop, Cut, Reaches, PointerTarget;
    var target, next := PointerTarget(pkt[st.pos], pkt[st.pos + 1]), ParseStep(pkt, len, outsize, st);
    var rest := Expand(pkt, len, target, target).value;
    FillsUp(pkt, len, outsize, target, next, rest);
    ReachesNext(pkt, len, outsize, st, Filled(pkt, len, outsize, target, next));
  }

  // A label turn does not change where the buffer fills, and a state with a full buffer is where.
  lemma FilledBehind(pkt: seq<byte>, len: nat, outsize: nat, start: nat, st: ParseState)
    requires len <= |pkt| && Parsing(len, st) && |st.out| < outsize - 1
    requires pkt[st.pos] != 0 && !IsPointer(pkt[st.pos])
    ensures Filled(pkt, len, outsize, start, st)
         == Filled(pkt, len, outsize, start, ParseStep(pkt, len, outsize, st))
  {
    hide ParseStep;
  }

  lemma FilledFull(pkt: seq<byte>, len: nat, outsize: nat, start: nat, st: ParseState)
    requires len <= |pkt| && |st.out| >= outsize - 1
    ensures Filled(pkt, len, outsize, start, st) == st
  {
  }

  // The label fills the buffer.
  lemma FillsHere(pkt: seq<byte>, len: nat, outsize: nat, start: nat, st: ParseState, next: ParseState, stop: nat,
      full: Str, e: Expansion)
    requires len <= |pkt| && !st.done && !st.overrun && 0 < outsize <= |full| && full <= Append(st.out, e.labels)
    requires next == st.(pos := next.pos, out := Cut(full, outsize)) && next.pos <= stop
    requires Expand(pkt, len, start, stop).Some?
    ensures FullState(pkt, len, outsize, st, e, next) && Reaches(pkt, len, outsize, next, next)
    ensures Filled(pkt, len, outsize, start, next) == next
  {
    hide Expand, Append, FirstStop, Cut, Reaches, Filled;
    CutPrefix(full, Append(st.out, e.labels), outsize);
    CutFull(full, outsize);
    FilledFull(pkt, len, outsize, start, next);
    ExpandHasStop(pkt, len, start, stop);
    StopBefore(pkt, len, next.pos, stop);
    ReachesItself(pkt, len, outsize, next);
  }

  lemma {:induction false} FillsAfterLabel(pkt: seq<byte>, len: nat, outsize: nat, start: nat, st: ParseState,
      e: Expansion)
    requires len <= |pkt| && !st.done && !st.overrun && |st.out| < outsize - 1
    requires Expand(pkt, len, start, st.pos) == Some(e) && |Append(st.out, e.labels)| >= outsize
    requires !IsPointer(pkt[st.pos])
    ensures var f := Filled(pkt, len, outsize, start, st);
            FullState(pkt, len, outsize, st, e, f) && Reaches(pkt, len, outsize, st, f)
    decreases start, |pkt| - st.pos, 0
  {
    hide ParseStep, FirstStop, Cut, Reaches, Extend, PointerTarget, Filled, Expand, Append;
    LabelNotZero(pkt, len, outsize, start, st, e);
    var l, rest := ExpandLabel(pkt, len, start, st.pos, e);
    var stop, full := st.pos + 1 + |l|, Extend(st.out, l);
    var next := ParseStep(pkt, len, outsize, st);
    LabelStep(pkt, len, outsize, st);
    AppendExtends(st.out, l, rest.labels);
    FilledBehind(pkt, len, outsize, start, st);
    if |full| < outsize {
      CutWhole(full, outsize);
      FillsUp(pkt, len, outsize, start, next, rest);
    } else {
      FillsHere(pkt, len, outsize, start, st, next, stop, full, e);
    }
    ReachesNext(pkt, len, outsize, st, Filled(pkt, len, outsize, start, next));
  }

  lemma LabelNotZero(pkt: seq<byte>, len: nat, outsize: nat, start: nat, st: ParseState, e: Expansion)
    requires len <= |pkt| && Expand(pkt, len, start, st.pos) == Some(e)
    requires |Append(st.out, e.labels)| >= outsize > |st.out|
    ensures st.pos < len && pkt[st.pos] != 0
  {
  }

  // ---------------------------------------------------------------- with the buffer full

  // One byte a turn up to the first stop.
  lemma {:induction false} SkimToStop(pkt: seq<byte>, len: nat, outsize: nat, st: ParseState)
    requires len <= |pkt| && !st.done && |st.out| == outsize - 1 && FirstStop(pkt, len, st.pos) < len
    ensures Reaches(pkt, len, outsize, st, st.(pos := FirstStop(pkt, len, st.pos)))
    decreases |pkt| - st.pos
  {
    hide Reaches;
    if IsStop(pkt[st.pos]) {
      ReachesItself(pkt, len, outsize, st);
      assert st.(pos := FirstStop(pkt, len, st.pos)) == st;
    } else {
      var next := st.(pos := st.pos + 1);
      assert ParseStep(pkt, len, outsize, st) == next;
      SkimToStop(pkt, len, outsize, next);
      ReachesNext(pkt, len, outsize, st, st.(pos := FirstStop(pkt, len, st.pos)));
    }
  }

  // Nothing more is written, and a returned offset that is fixed stays fixed.
  predicate Follows(a: ParseState, b: ParseState) {
    b.out == a.out && (a.jumped ==> b.jumped && b.saved == a.saved)
  }

  lemma FullStep(pkt: seq<byte>, len: nat, outsize: nat, st: ParseState)
    requires len <= |pkt| && Parsing(len, st) && |st.out| == outsize - 1
    ensures Follows(st, ParseStep(pkt, len, outsize, st))
  {
    hide PointerTarget;
  }

  lemma {:induction false} FullRun(pkt: seq<byte>, len: nat, outsize: nat, st: ParseState, n: nat)
    requires len <= |pkt| && |st.out| == outsize - 1
    ensures Follows(st, ParseRun(pkt, len, outsize, st, n))
    decreases n
  {
    hide ParseStep;
    if n > 0 && Parsing(len, st) {
      FullStep(pkt, len, outsize, st);
      FullRun(pkt, len, outsize, ParseStep(pkt, len, outsize, st), n - 1);
    }
  }

  // A state reached on the way ends where the whole run ends.
  lemma EndsAlike(pkt: seq<byte>, len: nat, outsize: nat, st: ParseState, f: ParseState, n: nat)
    requires len <= |pkt| && Reaches(pkt, len, outsize, st, f) && ParsesBy(pkt, len, outsize, st, n)
    ensures ParsesBy(pkt, len, outsize, f, n)
    ensures ParseRun(pkt, len, outsize, f, n) == ParseRun(pkt, len, outsize, st, n)
  {
    hide ParseRun;
    var m: nat :| ParseRun(pkt, len, outsize, st, m) == f;
    RunSplits(pkt, len, outsize, st, m, n);
    ParseRunStable(pkt, len, outsize, st, n, m + n);
  }

  // From a stop with the buffer full and no jump so far, the offset returned is the end the stop gives.
  lemma StopFixesOffset(pkt: seq<byte>, len: nat, outsize: nat, st: ParseState, n: nat)
    requires len <= |pkt| && !st.done && !st.overrun && !st.jumped && |st.out| == outsize - 1
    requires st.pos < len && IsStop(pkt[st.pos]) && ParsesBy(pkt, len, outsize, st, n)
    ensures ParseRun(pkt, len, outsize, st, n).Offset() == EndOf(pkt, st.pos)
    ensures ParseRun(pkt, len, outsize, st, n).out == st.out
  {
    TurnTaken(pkt, len, outsize, st, n);
    StepCases(pkt, len, outsize, st);
    hide ParseStep, PointerTarget;
    FullStep(pkt, len, outsize, st);
    FullRun(pkt, len, outsize, ParseStep(pkt, len, outsize, st), n - 1);
  }

  // A name too long for the buffer whose parse ends: the text is the name cut short, whatever its bytes, and
  // this is the offset.
  lemma CutReads(pkt: seq<byte>, len: nat, outsize: nat, pos: nat, e: Expansion)
    requires len <= |pkt| && outsize > 0 && Expand(pkt, len, pos, pos) == Some(e)
    requires |Dotted(e.labels)| >= outsize && Parses(pkt, len, outsize, pos)
    ensures Reads(pkt, len, outsize, ParseStart(pos), Cut(Dotted(e.labels), outsize), CutOffset(pkt, len, outsize, pos))
    ensures JumpedOrEnds(pkt, len, outsize, pos, e.end) <==> CutOffset(pkt, len, outsize, pos) == e.end
  {
    hide Expand, Append, Cut, ParseRun, ParsesBy, Filled, Reaches;
    var st := ParseStart(pos);
    var n: nat :| ParsesBy(pkt, len, outsize, st, n);
    var f := Filled(pkt, len, outsize, pos, st);
    FillsUp(pkt, len, outsize, pos, st, e);
    EndsAlike(pkt, len, outsize, st, f, n);
    if f.jumped {
      FullRun(pkt, len, outsize, f, n);
    } else {
      var s := f.(pos := FirstStop(pkt, len, f.pos));
      SkimToStop(pkt, len, outsize, f);
      EndsAlike(pkt, len, outsize, f, s, n);
      StopFixesOffset(pkt, len, outsize, s, n);
    }
    assert ReadsBy(pkt, len, outsize, st, Cut(Dotted(e.labels), outsize), CutOffset(pkt, len, outsize, pos), n);
  }

  lemma ReadsFrom(pkt: seq<byte>, len: nat, outsize: nat, st: ParseState, f: ParseState, out: Str, offset: nat)
    requires len <= |pkt| && Reaches(pkt, len, outsize, st, f) && Reads(pkt, len, outsize, f, out, offset)
    ensures Reads(pkt, len, outsize, st, out, offset)
  {
    hide ParseRun;
    var m: nat :| ParseRun(pkt, len, outsize, st, m) == f;
    var n: nat :| ReadsBy(pkt, len, outsize, f, out, offset, n);
    RunSplits(pkt, len, outsize, st, m, n);
    assert ReadsBy(pkt, len, outsize, st, out, offset, m + n);
  }

  // With the buffer full, a zero byte ends the parse.
  lemma ZeroEnds(pkt: seq<byte>, len: nat, outsize: nat, pos: nat, e: Expansion)
    requires len <= |pkt| && outsize > 0 && Expand(pkt, len, pos, pos) == Some(e) && |Dotted(e.labels)| >= outsize
    requires var q := FirstStop(pkt, len, Filled(pkt, len, outsize, pos, ParseStart(pos)).pos);
             q < len && pkt[q] == 0
    ensures Reads(pkt, len, outsize, ParseStart(pos), Cut(Dotted(e.labels), outsize), CutOffset(pkt, len, outsize, pos))
  {
    hide Expand, Append, Cut, Reads, Filled, Reaches;
    var f := Filled(pkt, len, outsize, pos, ParseStart(pos));
    var s := f.(pos := FirstStop(pkt, len, f.pos));
    FillsUp(pkt, len, outsize, pos, ParseStart(pos), e);
    SkimToStop(pkt, len, outsize, f);
    ReadsRoot(pkt, len, outsize, s);
    ReadsFrom(pkt, len, outsize, f, s, f.out, CutOffset(pkt, len, outsize, pos));
    ReadsFrom(pkt, len, outsize, ParseStart(pos), f, f.out, CutOffset(pkt, len, outsize, pos));
  }

  lemma FitReads(pkt: seq<byte>, len: nat, outsize: nat, pos: nat, e: Expansion)
    requires len <= |pkt| && Expand(pkt, len, pos, pos) == Some(e) && |Dotted(e.labels)| < outsize
    ensures Reads(pkt, len, outsize, ParseStart(pos), Cut(Dotted(e.labels), outsize), e.end)
  {
    hide Expand, Append, Cut, Reads;
    DecodeFollows(pkt, len, outsize, pos, ParseStart(pos), e);
  }

  // A name that expands is recovered, text and offset, exactly when it fits the buffer, or its parse ends and
  // either had jumped before the buffer was full or the first stop behind that place is the name's end.
  lemma RecoveredExactly(pkt: seq<byte>, len: nat, outsize: nat, pos: nat, e: Expansion)
    requires len <= |pkt| && outsize > 0 && Expand(pkt, len, pos, pos) == Some(e)
    ensures Reads(pkt, len, outsize, ParseStart(pos), Cut(Dotted(e.labels), outsize), e.end)
      <==> Recovers(pkt, len, outsize, pos, e)
  {
    hide Expand, Append, Cut, Reads, Parses, JumpedOrEnds, CutOffset;
    var text := Cut(Dotted(e.labels), outsize);
    if |Dotted(e.labels)| < outsize {
      FitReads(pkt, len, outsize, pos, e);
    } else if Parses(pkt, len, outsize, pos) {
      CutReads(pkt, len, outsize, pos, e);
      if Reads(pkt, len, outsize, ParseStart(pos), text, e.end) {
        ReadsUnique(pkt, len, outsize, ParseStart(pos), text, e.end, text, CutOffset(pkt, len, outsize, pos));
      }
    } else if Reads(pkt, len, outsize, ParseStart(pos), text, e.end) {
      ReadsParses(pkt, len, outsize, pos, text, e.end);
    }
  }

  // The text alone is recovered whenever the parse ends.
  lemma TextRecovered(pkt: seq<byte>, len: nat, outsize: nat, pos: nat, e: Expansion) returns (r: nat)
    requires len <= |pkt| && outsize > 0 && Expand(pkt, len, pos, pos) == Some(e) && Parses(pkt, len, outsize, pos)
    ensures Reads(pkt, len, outsize, ParseStart(pos), Cut(Dotted(e.labels), outsize), r)
  {
    hide Expand, Append, Cut, Reads, Parses;
    if |Dotted(e.labels)| < outsize {
      FitReads(pkt, len, outsize, pos, e);
      r := e.end;
    } else {
      CutReads(pkt, len, outsize, pos, e);
      r := CutOffset(pkt, len, outsize, pos);
    }
  }
}
