/** Two skips over the same bytes, in memories that need not agree behind them, and
    with sizes that need not agree: when both succeed they stop at the same place. */
module Retrace {
  import opened Bytes
  import opened Signature
  import opened Codec
  import opened CodecLaws
  import opened Header

  /** `j` stands `d` bytes from where `i` stands, and the memories agree up to `cut`. */
  predicate Agrees(i: Iter, j: Iter, d: int, cut: nat) {
    && d % 8 == 0 && j.pos == i.pos + d && j.sig == i.sig
    && cut <= |i.mem| && 0 <= cut + d <= |j.mem|
    && (i.pos <= cut ==> i.mem[i.pos..cut] == j.mem[j.pos..cut + d])
  }

  /** Everything that is read on the way to `p` lies in front of the cut. */
  predicate InReach(i: Iter, p: nat, cut: nat) {
    p <= cut || cut == |i.mem|
  }

  lemma {:induction false} AgreesMove(i: Iter, j: Iter, d: int, cut: nat, n: nat, a: nat, b: nat, s: seq<Byte>)
    requires Agrees(i, j, d, cut)
    ensures Agrees(Iter(i.mem, i.pos + n, a, s), Iter(j.mem, j.pos + n, b, s), d, cut)
  {
    if i.pos + n <= cut {
      assert i.mem[i.pos + n..cut] == i.mem[i.pos..cut][n..];
      assert j.mem[j.pos + n..cut + d] == j.mem[j.pos..cut + d][n..];
    }
  }

  lemma {:induction false} AgreesBytes(i: Iter, j: Iter, d: int, cut: nat, n: nat)
    requires Agrees(i, j, d, cut) && i.pos + n <= cut
    ensures j.pos + n <= |j.mem| && i.mem[i.pos..i.pos + n] == j.mem[j.pos..j.pos + n]
  {
    assert i.mem[i.pos..i.pos + n] == i.mem[i.pos..cut][..n];
    assert j.mem[j.pos..j.pos + n] == j.mem[j.pos..cut + d][..n];
  }

  lemma {:induction false} AgreesParts(i: Iter, j: Iter, d: int, cut: nat)
    requires Agrees(i, j, d, cut)
    ensures i.sig == j.sig && i.Letter() == j.Letter() && j.pos == i.pos + d
    ensures i.sig != [] ==> Agrees(i.Next(), j.Next(), d, cut)
    ensures forall s: seq<Byte> :: Agrees(i.(sig := s), j.(sig := s), d, cut)
  {
  }

  lemma {:induction false} AlignForward(i: Iter, b: nat)
    requires IsBoundary(b)
    ensures i.Align(b).Some? ==>
              var r := i.Align(b).value;
              r.pos >= i.pos && r.size <= i.size && r.sig == i.sig && r.mem == i.mem
  {
  }

  lemma {:induction false} BothAlign(i: Iter, j: Iter, d: int, cut: nat, b: nat)
    requires Agrees(i, j, d, cut) && IsBoundary(b) && i.Align(b).Some? && j.Align(b).Some?
    ensures Agrees(i.Align(b).value, j.Align(b).value, d, cut)
  {
    hide PadLen, Agrees;
    assert i.pos % 8 == j.pos % 8 by { SameResidue(i, j, d, cut); }
    PadModulo8(i.pos, j.pos, b);
    var n := PadLen(i.pos, b);
    AgreesParts(i, j, d, cut);
    AgreesMove(i, j, d, cut, n, i.size - n, j.size - n, i.sig);
  }

  lemma {:induction false} SameResidue(i: Iter, j: Iter, d: int, cut: nat)
    requires Agrees(i, j, d, cut)
    ensures i.pos % 8 == j.pos % 8
  {
  }

  lemma {:induction false} BothGet(i: Iter, j: Iter, d: int, cut: nat, w: nat)
    requires Agrees(i, j, d, cut) && IsBoundary(w) && i.Get(w).Some? && j.Get(w).Some?
    requires InReach(i, i.Get(w).value.1.pos, cut)
    ensures i.Get(w).value.0 == j.Get(w).value.0
    ensures Agrees(i.Get(w).value.1, j.Get(w).value.1, d, cut)
  {
    hide PadLen, WordValue, Agrees;
    BothAlign(i, j, d, cut, w);
    var i1, j1 := i.Align(w).value, j.Align(w).value;
    AgreesParts(i1, j1, d, cut);
    AgreesBytes(i1, j1, d, cut, w);
    AgreesMove(i1, j1, d, cut, w, i1.size - w, j1.size - w, i1.sig);
  }

  lemma {:induction false} BothPass(i: Iter, j: Iter, d: int, cut: nat, w: nat)
    requires Agrees(i, j, d, cut) && IsBoundary(w) && i.Pass(w).Some? && j.Pass(w).Some?
    ensures Agrees(i.Pass(w).value, j.Pass(w).value, d, cut)
  {
    hide PadLen, Agrees;
    BothAlign(i, j, d, cut, w);
    var i1, j1 := i.Align(w).value, j.Align(w).value;
    AgreesParts(i1, j1, d, cut);
    AgreesMove(i1, j1, d, cut, w, i1.size - w, j1.size - w, i1.sig);
  }

  lemma {:induction false} BothString(i: Iter, j: Iter, d: int, cut: nat, n: nat)
    requires Agrees(i, j, d, cut) && i.GetString(n).Some? && j.GetString(n).Some?
    requires InReach(i, i.GetString(n).value.1.pos, cut)
    ensures i.GetString(n).value.0 == j.GetString(n).value.0
    ensures Agrees(i.GetString(n).value.1, j.GetString(n).value.1, d, cut)
  {
    hide Agrees;
    AgreesBytes(i, j, d, cut, n);
    AgreesParts(i, j, d, cut);
    AgreesMove(i, j, d, cut, n + 1, i.size - n - 1, j.size - n - 1, i.sig);
  }

  /** A length word and the text behind it */
  lemma {:induction false} BothText(i: Iter, j: Iter, d: int, cut: nat, w: nat)
    requires Agrees(i, j, d, cut) && IsBoundary(w) && i.Get(w).Some? && j.Get(w).Some?
    requires var (n, i1) := i.Get(w).value;
             i1.GetString(n).Some? && InReach(i, i1.GetString(n).value.1.pos, cut)
    requires j.Get(w).value.1.GetString(j.Get(w).value.0).Some?
    ensures var (n, i1) := i.Get(w).value;
            var (m, j1) := j.Get(w).value;
            && n == m && i1.GetString(n).value.0 == j1.GetString(n).value.0
            && Agrees(i1.GetString(n).value.1, j1.GetString(n).value.1, d, cut)
  {
    SameMemory(i, w);
    hide Agrees, Iter.Get, Iter.GetString;
    BothGet(i, j, d, cut, w);
    BothString(i.Get(w).value.1, j.Get(w).value.1, d, cut, i.Get(w).value.0);
  }

  lemma {:induction false} SameMemory(i: Iter, w: nat)
    requires IsBoundary(w) && i.Get(w).Some?
    ensures i.Get(w).value.1.mem == i.mem
  {
  }

  lemma {:induction false} BothVariant(i: Iter, j: Iter, d: int, cut: nat)
    requires Agrees(i, j, d, cut) && i.BeginVariant().Some? && j.BeginVariant().Some?
    requires InReach(i, i.BeginVariant().value.pos, cut)
    ensures Agrees(i.BeginVariant().value, j.BeginVariant().value, d, cut)
    ensures i.BeginVariant().value.mem == i.mem
  {
    hide Agrees, Iter.Get, Iter.GetString, Iter.Align, Boundary;
    AgreesParts(i, j, d, cut);
    var (n, i1) := i.Next().Get(1).value;
    var (m, j1) := j.Next().Get(1).value;
    SameMemory(i.Next(), 1);
    var (s, i2) := i1.GetString(n).value;
    var (t, j2) := j1.GetString(m).value;
    StringMemory(i1, n);
    var c: Byte := if s == [] then 0 else s[0];
    AlignForward(i2.(sig := s), Boundary(c).value);
    BothText(i.Next(), j.Next(), d, cut, 1);
    AgreesParts(i2, j2, d, cut);
    BothAlign(i2.(sig := s), j2.(sig := s), d, cut, Boundary(c).value);
  }

  lemma {:induction false} StringMemory(i: Iter, n: nat)
    requires i.GetString(n).Some?
    ensures i.GetString(n).value.1.mem == i.mem
  {
  }

  lemma {:induction false} BothArray(i: Iter, j: Iter, d: int, cut: nat)
    requires Agrees(i, j, d, cut) && i.BeginArray().Some? && j.BeginArray().Some?
    requires InReach(i, i.BeginArray().value.0.pos, cut)
    ensures Agrees(i.BeginArray().value.0, j.BeginArray().value.0, d, cut)
    ensures i.BeginArray().value.1 == j.BeginArray().value.1 && i.BeginArray().value.2 == j.BeginArray().value.2
  {
    hide Agrees, Iter.Get, Iter.Align, Boundary, RestOf;
    AgreesParts(i, j, d, cut);
    var (n, i1) := i.Next().Get(4).value;
    var j1 := j.Next().Get(4).value.1;
    SameMemory(i.Next(), 4);
    AlignForward(i1, Boundary(i1.Letter()).value);
    BothGet(i.Next(), j.Next(), d, cut, 4);
    AgreesParts(i1, j1, d, cut);
    BothAlign(i1, j1, d, cut, Boundary(i1.Letter()).value);
    AgreesParts(i1.AlignField(i1.Letter()).value, j1.AlignField(i1.Letter()).value, d, cut);
  }

  lemma {:induction false} BothSkip(i: Iter, j: Iter, d: int, cut: nat)
    requires Agrees(i, j, d, cut) && Skip(i).Some? && Skip(j).Some? && InReach(i, Skip(i).value.pos, cut)
    ensures Agrees(Skip(i).value, Skip(j).value, d, cut)
    decreases i.size, |i.sig|, 0
  {
    AgreesParts(i, j, d, cut);
    var c := i.Letter();
    if c == VARIANT_BEGIN {
      hide Agrees, Iter.BeginVariant, SkipFields;
      var i0, j0 := i.BeginVariant().value, j.BeginVariant().value;
      BothVariant(i, j, d, cut);
      BothSkip(i0, j0, d, cut);
      AgreesParts(Skip(i0).value, Skip(j0).value, d, cut);
    } else if c == STRUCT_BEGIN {
      hide Agrees, SkipFields, Iter.Align;
      AlignForward(i.Next(), 8);
      BothAlign(i.Next(), j.Next(), d, cut, 8);
      BothSkipFields(i.Next().Align(8).value, j.Next().Align(8).value, d, cut);
    } else if c == DICTENTRY_BEGIN {
      BothEntry(i, j, d, cut);
    } else {
      BothLeaf(i, j, d, cut);
    }
  }

  lemma {:induction false} BothLeaf(i: Iter, j: Iter, d: int, cut: nat)
    requires Agrees(i, j, d, cut) && Skip(i).Some? && Skip(j).Some? && InReach(i, Skip(i).value.pos, cut)
    requires i.Letter() !in {VARIANT_BEGIN, STRUCT_BEGIN, DICTENTRY_BEGIN}
    ensures Agrees(Skip(i).value, Skip(j).value, d, cut)
  {
    hide Agrees, SkipFields, Iter.Get, Iter.GetString, Iter.BeginArray, Iter.Pass, Width;
    AgreesParts(i, j, d, cut);
    var c := i.Letter();
    if IsFixed(c) {
      BothPass(i.Next(), j.Next(), d, cut, Width(c));
    } else if c == ARRAY_BEGIN {
      BothArray(i, j, d, cut);
      var (i0, n, rest) := i.BeginArray().value;
      var j0 := j.BeginArray().value.0;
      AgreesParts(i0, j0, d, cut);
      AgreesMove(i0, j0, d, cut, n, i0.size, j0.size, rest);
    } else if IsText(c) {
      BothText(i.Next(), j.Next(), d, cut, 4);
    } else {
      BothText(i.Next(), j.Next(), d, cut, 1);
    }
  }

  lemma {:induction false} BothEntry(i: Iter, j: Iter, d: int, cut: nat)
    requires Agrees(i, j, d, cut) && Skip(i).Some? && Skip(j).Some? && InReach(i, Skip(i).value.pos, cut)
    requires i.Letter() == DICTENTRY_BEGIN
    ensures Agrees(Skip(i).value, Skip(j).value, d, cut)
    decreases i.size, |i.sig|, -1
  {
    hide Agrees, SkipFields, Iter.Align, Iter.BeginVariant, Iter.BeginArray, Iter.Get, Iter.GetString, Iter.Pass;
    AgreesParts(i, j, d, cut);
    AlignForward(i.Next(), 8);
    BothAlign(i.Next(), j.Next(), d, cut, 8);
    var i1, j1 := i.Next().Align(8).value, j.Next().Align(8).value;
    var i2, j2 := Skip(i1).value, Skip(j1).value;
    BothSkip(i1, j1, d, cut);
    BothSkip(i2, j2, d, cut);
    AgreesParts(Skip(i2).value, Skip(j2).value, d, cut);
  }

  lemma {:induction false} BothSkipFields(i: Iter, j: Iter, d: int, cut: nat)
    requires Agrees(i, j, d, cut) && SkipFields(i).Some? && SkipFields(j).Some?
    requires InReach(i, SkipFields(i).value.pos, cut)
    ensures Agrees(SkipFields(i).value, SkipFields(j).value, d, cut)
    decreases i.size, |i.sig|, 1
  {
    hide Agrees, Skip;
    AgreesParts(i, j, d, cut);
    if i.Letter() != STRUCT_END {
      BothSkip(i, j, d, cut);
      BothSkipFields(Skip(i).value, Skip(j).value, d, cut);
    }
  }

  lemma {:induction false} BothBeginField(i: Iter, j: Iter, d: int, cut: nat)
    requires Agrees(i, j, d, cut) && BeginField(i).Some? && BeginField(j).Some?
    requires InReach(i, BeginField(i).value.1.pos, cut)
    ensures BeginField(i).value.0 == BeginField(j).value.0
    ensures Agrees(BeginField(i).value.1, BeginField(j).value.1, d, cut)
  {
    hide Agrees, Iter.Get, Iter.Align, Iter.BeginVariant;
    AgreesParts(i, j, d, cut);
    AlignForward(i.Next(), 8);
    BothAlign(i.Next(), j.Next(), d, cut, 8);
    var i1, j1 := i.Next().Align(8).value, j.Next().Align(8).value;
    AgreesParts(i1, j1, d, cut);
    SameMemory(i1.Next(), 1);
    BothGet(i1.Next(), j1.Next(), d, cut, 1);
    BothVariant(i1.Next().Get(1).value.1, j1.Next().Get(1).value.1, d, cut);
  }
}
