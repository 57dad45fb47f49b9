// When parse_name's loop ends. What a turn does next depends only on the position and on how much is in
// the output buffer, so the loop runs for ever exactly when it comes back to both.
module DnsEnds {
  import opened Bytes
  import opened Common
  import opened DnsName

  ghost predicate Ends(pkt: seq<byte>, len: nat, outsize: nat, st: ParseState)
    requires len <= |pkt|
  {
    exists n: nat :: !Parsing(len, ParseRun(pkt, len, outsize, st, n))
  }

  // After i and after j turns the loop goes on, at one position and with one output length.
  predicate ComesBack(pkt: seq<byte>, len: nat, outsize: nat, st: ParseState, i: nat, j: nat)
    requires len <= |pkt|
  {
    var a, b := ParseRun(pkt, len, outsize, st, i), ParseRun(pkt, len, outsize, st, j);
    i < j && Parsing(len, b) && a.pos == b.pos && |a.out| == |b.out|
  }

  // It does so within as many turns as there are positions and output lengths.
  ghost predicate ComesBackSoon(pkt: seq<byte>, len: nat, outsize: nat, st: ParseState)
    requires len <= |pkt|
  {
    exists i: nat, j: nat :: j <= len * outsize && ComesBack(pkt, len, outsize, st, i, j)
  }

  // The two states take the same turns from here on.
  predicate Alike(a: ParseState, b: ParseState) {
    a.pos == b.pos && |a.out| == |b.out| && a.done == b.done
  }

  lemma StepAlike(pkt: seq<byte>, len: nat, outsize: nat, a: ParseState, b: ParseState)
    requires len <= |pkt| && Alike(a, b) && Parsing(len, a)
    ensures Alike(ParseStep(pkt, len, outsize, a), ParseStep(pkt, len, outsize, b))
  {
    hide PointerTarget;
  }

  lemma {:induction false} RunAlike(pkt: seq<byte>, len: nat, outsize: nat, a: ParseState, b: ParseState, n: nat)
    requires len <= |pkt| && Alike(a, b)
    ensures Alike(ParseRun(pkt, len, outsize, a, n), ParseRun(pkt, len, outsize, b, n))
    decreases n
  {
    hide ParseStep;
    if n > 0 && Parsing(len, a) {
      StepAlike(pkt, len, outsize, a, b);
      RunAlike(pkt, len, outsize, ParseStep(pkt, len, outsize, a), ParseStep(pkt, len, outsize, b), n - 1);
    }
  }

  lemma {:induction false} RunSplits(pkt: seq<byte>, len: nat, outsize: nat, st: ParseState, m: nat, n: nat)
    requires len <= |pkt|
    ensures ParseRun(pkt, len, outsize, st, m + n)
         == ParseRun(pkt, len, outsize, ParseRun(pkt, len, outsize, st, m), n)
    decreases m
  {
    hide ParseStep;
    if m > 0 && Parsing(len, st) {
      RunSplits(pkt, len, outsize, ParseStep(pkt, len, outsize, st), m - 1, n);
    }
  }

  // Once it has come back it never ends.
  lemma {:induction false} GoesRound(pkt: seq<byte>, len: nat, outsize: nat, st: ParseState, d: nat, n: nat)
    requires len <= |pkt| && d > 0 && Parsing(len, ParseRun(pkt, len, outsize, st, d))
    requires Alike(st, ParseRun(pkt, len, outsize, st, d))
    ensures Parsing(len, ParseRun(pkt, len, outsize, st, n))
    decreases n
  {
    hide ParseStep;
    if n <= d {
      if !Parsing(len, ParseRun(pkt, len, outsize, st, n)) {
        ParseRunStable(pkt, len, outsize, st, n, d);
      }
    } else {
      GoesRound(pkt, len, outsize, st, d, n - d);
      RunSplits(pkt, len, outsize, st, d, n - d);
      RunAlike(pkt, len, outsize, st, ParseRun(pkt, len, outsize, st, d), n - d);
    }
  }

  lemma StepFits(pkt: seq<byte>, len: nat, outsize: nat, st: ParseState)
    requires len <= |pkt| && Parsing(len, st) && |st.out| < outsize
    ensures |ParseStep(pkt, len, outsize, st).out| < outsize
  {
    hide PointerTarget;
  }

  lemma {:induction false} RunFits(pkt: seq<byte>, len: nat, outsize: nat, st: ParseState, n: nat)
    requires len <= |pkt| && |st.out| < outsize
    ensures |ParseRun(pkt, len, outsize, st, n).out| < outsize
    decreases n
  {
    hide ParseStep;
    if n > 0 && Parsing(len, st) {
      StepFits(pkt, len, outsize, st);
      RunFits(pkt, len, outsize, ParseStep(pkt, len, outsize, st), n - 1);
    }
  }

  function Code(pos: nat, filled: nat, outsize: nat): nat { pos * outsize + filled }

  lemma CodeBelow(pos: nat, filled: nat, len: nat, outsize: nat)
    requires pos < len && filled < outsize
    ensures Code(pos, filled, outsize) < len * outsize
  {
    assert pos * outsize + outsize == (pos + 1) * outsize <= len * outsize;
  }

  lemma AtLeastOne(d: nat, size: nat)
    requires d > 0
    ensures d * size >= size
  {
    assert (d - 1) * size >= 0;
  }

  lemma Difference(p: nat, q: nat, size: nat)
    ensures (p - q) * size == p * size - q * size
  {
  }

  lemma CodeTells(p: nat, a: nat, q: nat, b: nat, outsize: nat)
    requires a < outsize && b < outsize && Code(p, a, outsize) == Code(q, b, outsize)
    ensures p == q && a == b
  {
    Difference(p, q, outsize);
    Difference(q, p, outsize);
    if p > q {
      AtLeastOne(p - q, outsize);
    } else if q > p {
      AtLeastOne(q - p, outsize);
    }
  }

  // More turns than there are positions and output lengths: some pair comes twice.
  lemma LongRunComesBack(pkt: seq<byte>, len: nat, outsize: nat, st: ParseState) returns (i: nat, j: nat)
    requires len <= |pkt| && |st.out| < outsize
    requires Parsing(len, ParseRun(pkt, len, outsize, st, len * outsize))
    ensures j <= len * outsize && ComesBack(pkt, len, outsize, st, i, j)
  {
    hide ParseRun, Code;
    var bound := len * outsize;
    var codes: seq<nat> := seq(bound + 1, n requires 0 <= n =>
      Code(ParseRun(pkt, len, outsize, st, n).pos, |ParseRun(pkt, len, outsize, st, n).out|, outsize));
    forall n: nat | n <= bound
      ensures Parsing(len, ParseRun(pkt, len, outsize, st, n)) && |ParseRun(pkt, len, outsize, st, n).out| < outsize
      ensures codes[n] < bound
    {
      StillParsing(pkt, len, outsize, st, n, bound);
      RunFits(pkt, len, outsize, st, n);
      CodeBelow(ParseRun(pkt, len, outsize, st, n).pos, |ParseRun(pkt, len, outsize, st, n).out|, len, outsize);
    }
    i, j := Pigeonhole(codes, bound);
    var a, b := ParseRun(pkt, len, outsize, st, i), ParseRun(pkt, len, outsize, st, j);
    CodeTells(a.pos, |a.out|, b.pos, |b.out|, outsize);
  }

  lemma StillParsing(pkt: seq<byte>, len: nat, outsize: nat, st: ParseState, n: nat, m: nat)
    requires len <= |pkt| && n <= m && Parsing(len, ParseRun(pkt, len, outsize, st, m))
    ensures Parsing(len, ParseRun(pkt, len, outsize, st, n))
  {
    if !Parsing(len, ParseRun(pkt, len, outsize, st, n)) {
      ParseRunStable(pkt, len, outsize, st, n, m);
    }
  }

  lemma BackForEver(pkt: seq<byte>, len: nat, outsize: nat, st: ParseState, i: nat, j: nat)
    requires len <= |pkt| && ComesBack(pkt, len, outsize, st, i, j)
    ensures !Ends(pkt, len, outsize, st)
  {
    hide ParseRun;
    var a := ParseRun(pkt, len, outsize, st, i);
    RunSplits(pkt, len, outsize, st, i, j - i);
    StillParsing(pkt, len, outsize, st, i, j);
    forall n: nat ensures Parsing(len, ParseRun(pkt, len, outsize, st, n)) {
      GoesRound(pkt, len, outsize, a, j - i, n);
      RunSplits(pkt, len, outsize, st, i, n);
      StillParsing(pkt, len, outsize, st, n, i + n);
    }
  }

  // The loop runs for ever exactly when it comes back to a position with the output length it had there,
  // which then happens within len * outsize turns; one that ends does so within as many.
  lemma LoopsExactly(pkt: seq<byte>, len: nat, outsize: nat, offset: nat)
    requires len <= |pkt| && outsize > 0
    ensures !Ends(pkt, len, outsize, ParseStart(offset)) <==> ComesBackSoon(pkt, len, outsize, ParseStart(offset))
    ensures Ends(pkt, len, outsize, ParseStart(offset)) <==>
      !Parsing(len, ParseRun(pkt, len, outsize, ParseStart(offset), len * outsize))
  {
    hide ParseRun, ComesBack;
    var st := ParseStart(offset);
    if Parsing(len, ParseRun(pkt, len, outsize, st, len * outsize)) {
      var i, j := LongRunComesBack(pkt, len, outsize, st);
      BackForEver(pkt, len, outsize, st, i, j);
    } else if i: nat, j: nat :| j <= len * outsize && ComesBack(pkt, len, outsize, st, i, j) {
      BackForEver(pkt, len, outsize, st, i, j);
    }
  }

  // parse_name does its work, ending inside the buffer, exactly when it does not come back and never reads
  // the second byte of a pointer outside the buffer.
  lemma ParsesExactly(pkt: seq<byte>, len: nat, outsize: nat, offset: nat)
    requires len <= |pkt| && outsize > 0
    ensures Parses(pkt, len, outsize, offset) <==>
      && !ComesBackSoon(pkt, len, outsize, ParseStart(offset))
      && !(exists n: nat :: ParseRun(pkt, len, outsize, ParseStart(offset), n).overrun)
  {
    hide ParseRun, ComesBackSoon;
    var st := ParseStart(offset);
    LoopsExactly(pkt, len, outsize, offset);
    if Parses(pkt, len, outsize, offset) {
      var n: nat :| ParsesBy(pkt, len, outsize, st, n);
      assert !Parsing(len, ParseRun(pkt, len, outsize, st, n));
      forall m: nat ensures !ParseRun(pkt, len, outsize, st, m).overrun {
        NeverOverran(pkt, len, outsize, st, n, m);
      }
    } else if Ends(pkt, len, outsize, st) {
      var n: nat :| !Parsing(len, ParseRun(pkt, len, outsize, st, n));
      assert ParsesBy(pkt, len, outsize, st, n) || ParseRun(pkt, len, outsize, st, n).overrun;
    }
  }

  lemma NeverOverran(pkt: seq<byte>, len: nat, outsize: nat, st: ParseState, n: nat, m: nat)
    requires len <= |pkt| && ParsesBy(pkt, len, outsize, st, n)
    ensures !ParseRun(pkt, len, outsize, st, m).overrun
  {
    hide ParseRun;
    if ParseRun(pkt, len, outsize, st, m).overrun {
      RunSplits(pkt, len, outsize, st, m, n);
      StaysOverrun(pkt, len, outsize, ParseRun(pkt, len, outsize, st, m), n);
      ParseRunStable(pkt, len, outsize, st, n, m + n);
    }
  }
}
