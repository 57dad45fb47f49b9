// Which names survive encode_name followed by parse_name. Neither checks the length of a label: the encoder
// casts it to a byte, and the decoder takes any byte below 0xC0 for a length.
module DnsRoundTrip {
  import opened Bytes
  import opened Common
  import opened DnsCut
  import opened DnsEnds
  import opened DnsMessage
  import opened DnsName

  // The longest label whose length byte is not taken for a pointer.
  const LONGEST_LABEL := 191

  // The pieces of a name between its dots.
  function Split(name: Str): (r: seq<Str>)
    ensures |r| > 0
    decreases |name|
  {
    var l := UntilDot(name);
    if |l| == |name| then [l] else [l] + Split(name[|l| + 1..])
  }

  predicate Sound(l: Str) { 1 <= |l| <= LONGEST_LABEL }

  // The empty name, or one without an empty piece and without a piece that is too long.
  predicate Restorable(name: Str) {
    name == [] || forall l :: l in Split(name) ==> Sound(l)
  }

  // ---------------------------------------------------------------- one label

  // The first label of a name, and what is left behind it.
  lemma AroundDot(name: Str)
    requires name != []
    ensures var l := UntilDot(name);
            && (|l| < |name| ==> AfterLabel(name) == name[|l| + 1..] && name == l + [DOT] + AfterLabel(name))
            && (|l| == |name| ==> AfterLabel(name) == [] && name == l)
  {
    var l := UntilDot(name);
    if |l| < |name| {
      assert name[..|l|] == l;
    }
  }

  lemma FirstPiece(name: Str)
    requires name != []
    ensures UntilDot(name) in Split(name)
    ensures |UntilDot(name)| < |name| ==> forall m :: m in Split(AfterLabel(name)) ==> m in Split(name)
  {
    AroundDot(name);
  }

  lemma PiecesAre(name: Str)
    requires |UntilDot(name)| < |name|
    ensures forall m :: m in Split(name) ==> m == UntilDot(name) || m in Split(AfterLabel(name))
  {
    AroundDot(name);
    hide UntilDot;
  }

  // The decoder takes a sound label whole and goes on behind it.
  lemma LabelTaken(pkt: seq<byte>, len: nat, outsize: nat, st: ParseState, l: Str, out: Str, offset: nat)
    requires len <= |pkt| && Sound(l) && HasAt(pkt, st.pos, [|l|] + l) && !st.done && !st.overrun
    requires st.pos + 1 + |l| <= len && |Extend(st.out, l)| < outsize
    requires Reads(pkt, len, outsize, st.(pos := st.pos + 1 + |l|, out := Extend(st.out, l)), out, offset)
    ensures Reads(pkt, len, outsize, st, out, offset)
  {
    hide ParseStep, Cut, HasAt, PointerTarget, Reads;
    SoundLabelAt(pkt, st.pos, l);
    LabelStep(pkt, len, outsize, st);
    CutWhole(Extend(st.out, l), outsize);
    ReadsStep(pkt, len, outsize, st, out, offset);
  }

  lemma SoundLabelAt(pkt: seq<byte>, at: nat, l: Str)
    requires Sound(l) && HasAt(pkt, at, [|l|] + l)
    ensures pkt[at] == |l| && pkt[at + 1..at + 1 + |l|] == l && at + 1 + |l| <= |pkt|
  {
    HasAtSplit(pkt, at, [|l|], l);
    assert pkt[at] == pkt[at..at + 1][0];
  }

  lemma WireOfPiece(name: Str)
    requires name != []
    ensures Wire(name) == [|UntilDot(name)| % 0x100] + UntilDot(name) + Wire(AfterLabel(name))
  {
    hide UntilDot, AfterLabel;
  }

  lemma WireSplits(pkt: seq<byte>, at: nat, name: Str)
    requires name != [] && HasAt(pkt, at, Wire(name))
    ensures var l := UntilDot(name);
            && HasAt(pkt, at, [|l| % 0x100] + l) && HasAt(pkt, at + 1 + |l|, Wire(AfterLabel(name)))
            && |Wire(name)| == 1 + |l| + |Wire(AfterLabel(name))|
  {
    hide Wire, HasAt, UntilDot, AfterLabel;
    var l := UntilDot(name);
    WireOfPiece(name);
    HasAtSplit(pkt, at, [|l| % 0x100] + l, Wire(AfterLabel(name)));
  }

  lemma RootAt(pkt: seq<byte>, at: nat)
    requires HasAt(pkt, at, Wire([]))
    ensures at < |pkt| && pkt[at] == 0
  {
    assert pkt[at] == pkt[at..at + 1][0];
  }

  lemma ExtendTwice(out: Str, l: Str, rest: Str)
    requires l != []
    ensures Extend(Extend(out, l), rest) == Extend(out, l + [DOT] + rest)
  {
  }

  // ---------------------------------------------------------------- names that survive

  lemma {:induction false} SoundNameRead(pkt: seq<byte>, len: nat, outsize: nat, st: ParseState, name: Str)
    requires len <= |pkt| && !st.done && !st.overrun && !st.jumped && HasAt(pkt, st.pos, Wire(name))
    requires st.pos + |Wire(name)| <= len && name != [] && Restorable(name) && |Extend(st.out, name)| < outsize
    ensures Reads(pkt, len, outsize, st, Extend(st.out, name), st.pos + |Wire(name)|)
    decreases |name|
  {
    hide ParseStep, HasAt, Wire, Reads, Split, Extend;
    var l, rest := UntilDot(name), AfterLabel(name);
    FirstPiece(name);
    AroundDot(name);
    WireSplits(pkt, st.pos, name);
    assert Sound(l);
    var next := st.(pos := st.pos + 1 + |l|, out := Extend(st.out, l));
    if |l| == |name| {
      RootAt(pkt, next.pos);
      RootLength();
      ReadsRoot(pkt, len, outsize, next);
    } else {
      NoTrailingDot(name);
      ExtendTwice(st.out, l, rest);
      SoundNameRead(pkt, len, outsize, next, rest);
      ExtendGrows(Extend(st.out, l), rest);
    }
    LabelTaken(pkt, len, outsize, st, l, Extend(st.out, name), st.pos + |Wire(name)|);
  }

  lemma RootLength()
    ensures |Wire([])| == 1
  {
  }

  lemma ExtendGrows(out: Str, l: Str)
    ensures |out| <= |Extend(out, l)| && (out != [] ==> |out| + |l| < |Extend(out, l)|)
  {
  }

  lemma EmptyPiece()
    ensures Split([]) == [[]] && [] in Split([])
  {
  }

  lemma NoTrailingDot(name: Str)
    requires name != [] && Restorable(name) && |UntilDot(name)| < |name|
    ensures AfterLabel(name) != [] && Restorable(AfterLabel(name))
  {
    hide Split, UntilDot, AfterLabel;
    FirstPiece(name);
    EmptyPiece();
  }

  // ---------------------------------------------------------------- names that do not

  predicate ShortPieces(name: Str) { forall l :: l in Split(name) ==> |l| <= LONGEST_LABEL }

  // An empty piece cuts the name short.
  lemma {:induction false} BrokenNameRead(pkt: seq<byte>, len: nat, outsize: nat, st: ParseState, name: Str)
    returns (out: Str)
    requires len <= |pkt| && !st.done && !st.overrun && !st.jumped && HasAt(pkt, st.pos, Wire(name))
    requires st.pos + |Wire(name)| <= len && |Extend(st.out, name)| < outsize
    requires ShortPieces(name) && !Restorable(name)
    ensures |out| < |Extend(st.out, name)| && exists offset: nat :: Reads(pkt, len, outsize, st, out, offset)
    decreases |name|
  {
    hide ParseStep, HasAt, Wire, Reads, Split, Extend;
    var l, rest := UntilDot(name), AfterLabel(name);
    FirstPiece(name);
    AroundDot(name);
    WireSplits(pkt, st.pos, name);
    ExtendGrowsBy(st.out, name);
    if l == [] {
      out := st.out;
      ZeroLengthAt(pkt, st.pos);
      ReadsRoot(pkt, len, outsize, st);
    } else {
      var next := st.(pos := st.pos + 1 + |l|, out := Extend(st.out, l));
      WholeIsSound(name);
      ExtendTwice(st.out, l, rest);
      ExtendGrows(Extend(st.out, l), rest);
      var offset: nat;
      if rest == [] {
        out := Extend(st.out, l);
        ExtendNonempty(st.out, l);
        RootAt(pkt, next.pos);
        RootLength();
        ReadsRoot(pkt, len, outsize, next);
        offset := next.pos + 1;
      } else {
        BrokenBehind(name);
        out := BrokenNameRead(pkt, len, outsize, next, rest);
        offset :| Reads(pkt, len, outsize, next, out, offset);
      }
      ExtendFits(st.out, l, rest);
      LabelTaken(pkt, len, outsize, st, l, out, offset);
    }
  }

  lemma ExtendGrowsBy(out: Str, name: Str)
    requires name != []
    ensures |out| < |Extend(out, name)|
  {
  }

  lemma ExtendNonempty(out: Str, l: Str)
    requires l != []
    ensures Extend(out, l) != []
  {
  }

  lemma ExtendFits(out: Str, l: Str, rest: Str)
    requires l != []
    ensures |Extend(out, l)| <= |Extend(Extend(out, l), rest)|
  {
  }

  lemma ZeroLengthAt(pkt: seq<byte>, at: nat)
    requires HasAt(pkt, at, [0] + [])
    ensures at < |pkt| && pkt[at] == 0
  {
    assert pkt[at] == pkt[at..at + 1][0];
  }

  // A name that is one sound piece is restorable.
  lemma WholeIsSound(name: Str)
    requires name != [] && UntilDot(name) != [] && ShortPieces(name)
    ensures |UntilDot(name)| == |name| ==> Restorable(name)
  {
    if |UntilDot(name)| == |name| {
      assert Split(name) == [UntilDot(name)];
      assert Sound(UntilDot(name));
    }
  }

  lemma BrokenBehind(name: Str)
    requires name != [] && UntilDot(name) != [] && |UntilDot(name)| < |name| && AfterLabel(name) != []
    requires ShortPieces(name) && !Restorable(name)
    ensures ShortPieces(AfterLabel(name)) && !Restorable(AfterLabel(name))
  {
    hide Split, UntilDot, AfterLabel;
    FirstPiece(name);
    PiecesAre(name);
  }

  // Within any 192 bytes there is a dot.
  predicate Dotty(s: Str) { forall i :: 0 <= i < |s| && i + 192 <= |s| ==> DOT in Window(s, i) }

  function Window(s: Str, i: nat): Str
    requires i + 192 <= |s|
  {
    s[i..i + 192]
  }

  // No turn writes more than 191 bytes without a dot.
  lemma DottyExtended(out: Str, piece: Str)
    requires Dotty(out) && |piece| <= LONGEST_LABEL
    ensures Dotty(out + [DOT] + piece)
  {
    var s := out + [DOT] + piece;
    forall i | 0 <= i < |s| && i + 192 <= |s| ensures DOT in Window(s, i) {
      if i + 192 <= |out| {
        assert Window(s, i) == Window(out, i);
      } else {
        assert Window(s, i)[|out| - i] == DOT;
      }
    }
  }

  lemma StepDotty(pkt: seq<byte>, len: nat, outsize: nat, st: ParseState)
    requires len <= |pkt| && Parsing(len, st) && |st.out| < outsize && Dotty(st.out)
    ensures Dotty(ParseStep(pkt, len, outsize, st).out)
  {
    var b := pkt[st.pos];
    if b != 0 && !IsPointer(b) {
      PieceDotty(pkt, len, outsize, st.pos + 1, b, st.out);
    }
    hide Dotty, LabelOut, PointerTarget;
  }

  // What a label writes: a dot if there is something before it and room, then a piece of it.
  lemma LabelWrites(pkt: seq<byte>, len: nat, outsize: nat, at: nat, size: nat, out: Str) returns (piece: Str)
    requires at <= len <= |pkt| && |out| < outsize
    ensures |piece| <= size
    ensures LabelOut(pkt, len, outsize, at, size, out).1
      == if out == [] then piece else if |out| < outsize - 1 then out + [DOT] + piece else out
  {
    piece := pkt[at..LabelOut(pkt, len, outsize, at, size, out).0];
    if |out| == outsize - 1 {
      assert out + pkt[at..at] == out;
    }
    assert [] + piece == piece;
  }

  lemma PieceDotty(pkt: seq<byte>, len: nat, outsize: nat, at: nat, size: nat, out: Str)
    requires at <= len <= |pkt| && size <= LONGEST_LABEL && |out| < outsize && Dotty(out)
    ensures Dotty(LabelOut(pkt, len, outsize, at, size, out).1)
  {
    hide LabelOut;
    var piece := LabelWrites(pkt, len, outsize, at, size, out);
    if out != [] && |out| < outsize - 1 {
      DottyExtended(out, piece);
    }
  }

  lemma {:induction false} RunDotty(pkt: seq<byte>, len: nat, outsize: nat, st: ParseState, n: nat)
    requires len <= |pkt| && |st.out| < outsize && Dotty(st.out)
    ensures Dotty(ParseRun(pkt, len, outsize, st, n).out)
    decreases n
  {
    hide ParseStep, Dotty;
    if n > 0 && Parsing(len, st) {
      StepDotty(pkt, len, outsize, st);
      StepFits(pkt, len, outsize, st);
      RunDotty(pkt, len, outsize, ParseStep(pkt, len, outsize, st), n - 1);
    }
  }

  // A piece that is not the first stands behind the first dot.
  lemma BehindFirst(name: Str, l: Str)
    requires l in Split(name) && l != UntilDot(name)
    ensures |UntilDot(name)| < |name| && l in Split(name[|UntilDot(name)| + 1..])
  {
    hide UntilDot;
  }

  lemma SliceBehind(s: Str, at: nat, i: nat, n: nat)
    requires at + i + n <= |s|
    ensures s[at..][i..i + n] == s[at + i..at + i + n]
  {
  }

  lemma {:induction false} PieceAt(name: Str, l: Str) returns (i: nat)
    requires l in Split(name)
    ensures i + |l| <= |name| && name[i..i + |l|] == l && DOT !in l
    decreases |name|
  {
    hide Split, UntilDot, AfterLabel;
    var first := UntilDot(name);
    if l == first {
      i := 0;
    } else {
      BehindFirst(name, l);
      var behind := name[|first| + 1..];
      var j := PieceAt(behind, l);
      i := |first| + 1 + j;
      SliceBehind(name, |first| + 1, j, |l|);
    }
  }

  // A piece that is too long is never written.
  lemma LongPieceNotDotty(name: Str)
    requires !ShortPieces(name)
    ensures !Dotty(name)
  {
    hide Split;
    var l :| l in Split(name) && |l| > LONGEST_LABEL;
    var i := PieceAt(name, l);
    assert Window(name, i) == l[..192];
  }

  // ---------------------------------------------------------------- exactly

  lemma ReadIsDotty(pkt: seq<byte>, len: nat, outsize: nat, at: nat, name: Str, offset: nat)
    requires len <= |pkt| && outsize > 0 && Reads(pkt, len, outsize, ParseStart(at), name, offset)
    ensures |name| < outsize && Dotty(name)
  {
    hide ParseRun, ParsesBy;
    var n: nat :| ReadsBy(pkt, len, outsize, ParseStart(at), name, offset, n);
    RunFits(pkt, len, outsize, ParseStart(at), n);
    RunDotty(pkt, len, outsize, ParseStart(at), n);
  }

  lemma RestorableRead(pkt: seq<byte>, len: nat, outsize: nat, at: nat, name: Str)
    requires len <= |pkt| && HasAt(pkt, at, Wire(name)) && at + |Wire(name)| <= len
    requires |name| < outsize && Restorable(name)
    ensures Reads(pkt, len, outsize, ParseStart(at), name, at + |Wire(name)|)
  {
    hide HasAt, Wire, Reads, Split;
    if name == [] {
      RootAt(pkt, at);
      RootLength();
      ReadsRoot(pkt, len, outsize, ParseStart(at));
    } else {
      SoundNameRead(pkt, len, outsize, ParseStart(at), name);
    }
  }

  // Encoded anywhere in a packet, a name comes back, and exactly its encoded length is consumed, if and only if
  // it fits the output buffer and is empty or splits into pieces of 1 to 191 bytes.
  lemma RestoredExactly(pkt: seq<byte>, len: nat, outsize: nat, at: nat, name: Str)
    requires len <= |pkt| && outsize > 0 && HasAt(pkt, at, Wire(name)) && at + |Wire(name)| <= len
    ensures Reads(pkt, len, outsize, ParseStart(at), name, at + |Wire(name)|)
      <==> |name| < outsize && Restorable(name)
  {
    hide HasAt, Wire, Reads, Split, Dotty, ShortPieces, Restorable;
    if |name| < outsize && Restorable(name) {
      RestorableRead(pkt, len, outsize, at, name);
    } else if Reads(pkt, len, outsize, ParseStart(at), name, at + |Wire(name)|) {
      ReadIsDotty(pkt, len, outsize, at, name, at + |Wire(name)|);
      if ShortPieces(name) {
        var out := BrokenNameRead(pkt, len, outsize, ParseStart(at), name);
        var offset: nat :| Reads(pkt, len, outsize, ParseStart(at), out, offset);
        ReadsUnique(pkt, len, outsize, ParseStart(at), name, at + |Wire(name)|, out, offset);
      } else {
        LongPieceNotDotty(name);
      }
    }
  }
}
