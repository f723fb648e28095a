/** Bytes, alignment padding and native words: the vocabulary of the wire format. */
module Bytes {

  datatype Option<+T> = None | Some(value: T) {
    predicate IsFailure() {
      None?
    }

    function PropagateFailure<U>(): Option<U>
      requires None?
    {
      None
    }

    function Extract(): T
      requires Some?
    {
      value
    }
  }

  type Byte = x: int | 0 <= x < 256

  /** The boundaries of the wire format. */
  predicate IsBoundary(b: nat) {
    b == 1 || b == 2 || b == 4 || b == 8
  }

  /** The number of bytes from `off` up to the next multiple of `b`; like
      everything in the format it depends on `off` only modulo 8. */
  function PadLen(off: nat, b: nat): (n: nat)
    requires IsBoundary(b)
    ensures n < b
  {
    var r := off % 8;
    if b == 1 || r == 0 then 0
    else if b == 8 then 8 - r
    else if b == 4 then (if r <= 4 then 4 - r else 8 - r)
    else if r == 2 || r == 4 || r == 6 then 0
    else 1
  }

  /** ADBUS_ALIGN: round up to a boundary. */
  function AlignUp(off: nat, b: nat): (r: nat)
    requires IsBoundary(b)
    ensures off <= r < off + b
  {
    off + PadLen(off, b)
  }

  /** AlignUp is the rounding of ADBUS_ALIGN: the least multiple of the
      boundary that is not below the offset. */
  lemma AlignUpRounds(off: nat, b: nat)
    requires IsBoundary(b)
    ensures AlignUp(off, b) == (off + b - 1) / b * b
  {
    if b == 8 { RoundTo8(off); }
    else if b == 4 { RoundTo4(off); }
    else if b == 2 { RoundTo2(off); }
  }

  lemma RoundTo8(off: nat)
    ensures AlignUp(off, 8) == (off + 7) / 8 * 8
  {
  }

  lemma RoundTo4(off: nat)
    ensures AlignUp(off, 4) == (off + 3) / 4 * 4
  {
    var q := off / 8;
    assert off == 8 * q + off % 8;
    assert AlignUp(off, 4) == 8 * q || AlignUp(off, 4) == 4 * (2 * q + 1) || AlignUp(off, 4) == 4 * (2 * q + 2);
  }

  lemma RoundTo2(off: nat)
    ensures AlignUp(off, 2) == (off + 1) / 2 * 2
  {
    var q := off / 8;
    assert off == 8 * q + off % 8;
  }

  lemma AlignedResidue(off: nat)
    ensures AlignUp(off, 8) % 8 == 0
    ensures AlignUp(off, 4) % 8 == 0 || AlignUp(off, 4) % 8 == 4
    ensures AlignUp(off, 2) % 8 in {0, 2, 4, 6}
  {
  }

  function Zeros(n: nat): (z: seq<Byte>)
    ensures |z| == n
  {
    seq(n, _ => 0)
  }

  function Pad(off: nat, b: nat): (z: seq<Byte>)
    requires IsBoundary(b)
    ensures |z| == PadLen(off, b)
  {
    Zeros(PadLen(off, b))
  }

  /** 256 to the power `w`: the number of values a `w` byte word holds. */
  function Span(w: nat): (n: nat)
    ensures n > 0
  {
    if w == 0 then 1 else 256 * Span(w - 1)
  }

  /** The `w` low order bytes of `n`, least significant first (a little-endian host). */
  function Word(w: nat, n: nat): (bs: seq<Byte>)
    ensures |bs| == w
  {
    if w == 0 then [] else [n % 256] + Word(w - 1, n / 256)
  }

  function WordValue(bs: seq<Byte>): (n: nat)
  {
    if bs == [] then 0 else bs[0] + 256 * WordValue(bs[1..])
  }

  /** Storing a word and loading it back gives the word, if it fits. */
  lemma {:induction false} WordRoundTrip(w: nat, n: nat)
    requires n < Span(w)
    ensures WordValue(Word(w, n)) == n
  {
    if w > 0 {
      WordRoundTrip(w - 1, n / 256);
      assert Word(w, n)[1..] == Word(w - 1, n / 256);
    }
  }

  lemma SpanFacts()
    ensures Span(1) == 0x100 && Span(2) == 0x1_0000 && Span(4) == 0x1_0000_0000
    ensures Span(8) == 0x1_0000_0000_0000_0000
  {
    assert Span(3) == 0x100_0000;
    assert Span(6) == 0x1_0000_0000_0000;
  }

  /** Memory `mem` holds the bytes `bs` at address `p`. */
  predicate Holds(mem: seq<Byte>, p: nat, bs: seq<Byte>) {
    p + |bs| <= |mem| && mem[p..p + |bs|] == bs
  }

  lemma HoldsConcat(mem: seq<Byte>, p: nat, a: seq<Byte>, b: seq<Byte>)
    ensures Holds(mem, p, a + b) <==> Holds(mem, p, a) && Holds(mem, p + |a|, b)
  {
    if p + |a| + |b| <= |mem| {
      var c := mem[p..p + |a| + |b|];
      assert c[..|a|] == mem[p..p + |a|];
      assert c[|a|..] == mem[p + |a|..p + |a| + |b|];
      assert (a + b)[..|a|] == a && (a + b)[|a|..] == b;
      assert c == c[..|a|] + c[|a|..];
    }
  }

  predicate NulFree(s: seq<Byte>) {
    forall i :: 0 <= i < |s| ==> s[i] != 0
  }
}
