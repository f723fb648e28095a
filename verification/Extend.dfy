/** A reader that succeeds does the same with more memory behind it and more size
    left; and what it takes off the size it has gone forward. */
module Extend {
  import opened Bytes
  import opened Signature
  import opened Codec
  import opened CodecLaws
  import opened Header
  import opened HeaderRewrite
  import opened Message

  predicate Extends(i: Iter, j: Iter) {
    i.mem <= j.mem && j.pos == i.pos && j.sig == i.sig && i.size <= j.size
  }

  lemma {:induction false} ExtendsParts(i: Iter, j: Iter)
    requires Extends(i, j)
    ensures i.sig == j.sig && i.Letter() == j.Letter() && i.pos == j.pos
    ensures i.sig != [] ==> Extends(i.Next(), j.Next())
    ensures forall s: seq<Byte> :: Extends(i.(sig := s), j.(sig := s))
  {
  }

  lemma {:induction false} ExtendsAlign(i: Iter, j: Iter, b: nat)
    requires Extends(i, j) && IsBoundary(b) && i.Align(b).Some?
    ensures j.Align(b).Some? && Extends(i.Align(b).value, j.Align(b).value)
    ensures i.Align(b).value.size <= i.size && i.Align(b).value.sig == i.sig
  {
    hide PadLen;
  }

  lemma {:induction false} ExtendsGet(i: Iter, j: Iter, w: nat)
    requires Extends(i, j) && IsBoundary(w) && i.Get(w).Some?
    ensures j.Get(w).Some? && j.Get(w).value.0 == i.Get(w).value.0
    ensures Extends(i.Get(w).value.1, j.Get(w).value.1)
  {
    hide PadLen, WordValue;
    var p := i.Align(w).value.pos;
    assert i.mem[p..p + w] == j.mem[p..p + w];
  }

  lemma {:induction false} ExtendsPass(i: Iter, j: Iter, w: nat)
    requires Extends(i, j) && IsBoundary(w) && i.Pass(w).Some?
    ensures j.Pass(w).Some? && Extends(i.Pass(w).value, j.Pass(w).value)
  {
    hide PadLen;
  }

  lemma {:induction false} ExtendsString(i: Iter, j: Iter, n: nat)
    requires Extends(i, j) && i.GetString(n).Some?
    ensures j.GetString(n).Some? && j.GetString(n).value.0 == i.GetString(n).value.0
    ensures Extends(i.GetString(n).value.1, j.GetString(n).value.1)
  {
    assert i.mem[i.pos..i.pos + n] == j.mem[i.pos..i.pos + n];
  }

  lemma {:induction false} ExtendsVariant(i: Iter, j: Iter)
    requires Extends(i, j) && i.BeginVariant().Some?
    ensures j.BeginVariant().Some? && Extends(i.BeginVariant().value, j.BeginVariant().value)
  {
    hide Extends, Iter.Get, Iter.GetString, Iter.Align, Boundary;
    ExtendsParts(i, j);
    ExtendsGet(i.Next(), j.Next(), 1);
    var (n, i1) := i.Next().Get(1).value;
    var j1 := j.Next().Get(1).value.1;
    ExtendsString(i1, j1, n);
    var (s, i2) := i1.GetString(n).value;
    var j2 := j1.GetString(n).value.1;
    ExtendsParts(i2, j2);
    ExtendsAlign(i2.(sig := s), j2.(sig := s), Boundary(if s == [] then 0 else s[0]).value);
  }

  lemma {:induction false} ExtendsArray(i: Iter, j: Iter)
    requires Extends(i, j) && i.BeginArray().Some?
    ensures j.BeginArray().Some? && Extends(i.BeginArray().value.0, j.BeginArray().value.0)
    ensures j.BeginArray().value.1 == i.BeginArray().value.1 && j.BeginArray().value.2 == i.BeginArray().value.2
  {
    hide Extends, Iter.Get, Iter.Align, Boundary, RestOf;
    ExtendsParts(i, j);
    ExtendsGet(i.Next(), j.Next(), 4);
    var i1, j1 := i.Next().Get(4).value.1, j.Next().Get(4).value.1;
    ExtendsParts(i1, j1);
    ExtendsAlign(i1, j1, Boundary(i1.Letter()).value);
    ExtendsParts(i1.AlignField(i1.Letter()).value, j1.AlignField(i1.Letter()).value);
  }

  lemma {:induction false} ExtendsJump(i: Iter, j: Iter, n: nat, rest: seq<Byte>)
    requires Extends(i, j)
    ensures Extends(i.(pos := i.pos + n, sig := rest), j.(pos := j.pos + n, sig := rest))
  {
  }

  lemma {:induction false} ExtendsSkip(i: Iter, j: Iter)
    requires Extends(i, j) && Skip(i).Some?
    ensures Skip(j).Some? && Extends(Skip(i).value, Skip(j).value)
    decreases i.size, |i.sig|, 0
  {
    ExtendsParts(i, j);
    var c := i.Letter();
    if c == VARIANT_BEGIN {
      hide Extends, Iter.BeginVariant, SkipFields;
      ExtendsVariant(i, j);
      var i0, j0 := i.BeginVariant().value, j.BeginVariant().value;
      ExtendsSkip(i0, j0);
      ExtendsParts(Skip(i0).value, Skip(j0).value);
    } else if c == STRUCT_BEGIN {
      hide Extends, SkipFields, Iter.Align;
      ExtendsAlign(i.Next(), j.Next(), 8);
      ExtendsSkipFields(i.Next().Align(8).value, j.Next().Align(8).value);
    } else if c == DICTENTRY_BEGIN {
      ExtendsEntry(i, j);
    } else {
      ExtendsLeaf(i, j);
    }
  }

  lemma {:induction false} ExtendsLeaf(i: Iter, j: Iter)
    requires Extends(i, j) && Skip(i).Some? && i.Letter() !in {VARIANT_BEGIN, STRUCT_BEGIN, DICTENTRY_BEGIN}
    ensures Skip(j).Some? && Extends(Skip(i).value, Skip(j).value)
  {
    hide Extends, SkipFields, Iter.Get, Iter.GetString, Iter.BeginArray, Iter.Pass, Width;
    ExtendsParts(i, j);
    var c := i.Letter();
    if IsFixed(c) {
      ExtendsPass(i.Next(), j.Next(), Width(c));
    } else if c == ARRAY_BEGIN {
      ExtendsArray(i, j);
      var (i0, n, rest) := i.BeginArray().value;
      ExtendsJump(i0, j.BeginArray().value.0, n, rest);
    } else {
      var w := if IsText(c) then 4 else 1;
      ExtendsGet(i.Next(), j.Next(), w);
      var (n, i1) := i.Next().Get(w).value;
      ExtendsString(i1, j.Next().Get(w).value.1, n);
    }
  }

  lemma {:induction false} ExtendsEntry(i: Iter, j: Iter)
    requires Extends(i, j) && Skip(i).Some? && i.Letter() == DICTENTRY_BEGIN
    ensures Skip(j).Some? && Extends(Skip(i).value, Skip(j).value)
    decreases i.size, |i.sig|, -1
  {
    hide Extends, SkipFields, Iter.Align, Iter.BeginVariant, Iter.BeginArray, Iter.Get, Iter.GetString, Iter.Pass;
    ExtendsParts(i, j);
    ExtendsAlign(i.Next(), j.Next(), 8);
    var i1, j1 := i.Next().Align(8).value, j.Next().Align(8).value;
    ExtendsSkip(i1, j1);
    var i2, j2 := Skip(i1).value, Skip(j1).value;
    ExtendsSkip(i2, j2);
    ExtendsParts(Skip(i2).value, Skip(j2).value);
  }

  lemma {:induction false} ExtendsSkipFields(i: Iter, j: Iter)
    requires Extends(i, j) && SkipFields(i).Some?
    ensures SkipFields(j).Some? && Extends(SkipFields(i).value, SkipFields(j).value)
    decreases i.size, |i.sig|, 1
  {
    hide Extends, Skip;
    ExtendsParts(i, j);
    if i.Letter() != STRUCT_END {
      ExtendsSkip(i, j);
      ExtendsSkipFields(Skip(i).value, Skip(j).value);
    }
  }

  // --------------------------------------------------------------- header fields

  lemma {:induction false} ExtendsBegin(i: Iter, j: Iter)
    requires Extends(i, j) && BeginField(i).Some?
    ensures BeginField(j).Some? && BeginField(j).value.0 == BeginField(i).value.0
    ensures Extends(BeginField(i).value.1, BeginField(j).value.1)
  {
    hide Extends, Iter.Get, Iter.Align, Iter.BeginVariant;
    ExtendsParts(i, j);
    ExtendsAlign(i.Next(), j.Next(), 8);
    var i1, j1 := i.Next().Align(8).value, j.Next().Align(8).value;
    ExtendsParts(i1, j1);
    ExtendsGet(i1.Next(), j1.Next(), 1);
    ExtendsVariant(i1.Next().Get(1).value.1, j1.Next().Get(1).value.1);
  }

  lemma {:induction false} ExtendsEnd(i: Iter, j: Iter, rest: seq<Byte>)
    requires Extends(i, j) && EndField(i, rest).Some?
    ensures EndField(j, rest).Some? && Extends(EndField(i, rest).value, EndField(j, rest).value)
  {
  }

  /** The types that header fields have */
  predicate IsTyped(c: Byte) {
    c == STRING || c == OBJECT_PATH || c == SIGNATURE || c == UINT32
  }

  lemma {:induction false} ExtendsTyped(i: Iter, j: Iter)
    requires Extends(i, j) && Read(i).Some? && IsTyped(i.Letter())
    ensures Read(j).Some? && Read(j).value.0 == Read(i).value.0 && Extends(Read(i).value.1, Read(j).value.1)
  {
    hide Extends, ReadFields, ReadElems, Iter.Get, Iter.GetString, Iter.BeginArray, Iter.BeginVariant, Iter.Align;
    ExtendsParts(i, j);
    var w := if i.Letter() == SIGNATURE then 1 else 4;
    ExtendsGet(i.Next(), j.Next(), w);
    if i.Letter() != UINT32 {
      var (n, i1) := i.Next().Get(w).value;
      ExtendsString(i1, j.Next().Get(w).value.1, n);
    }
  }

  lemma {:induction false} ExtendsField(m: Fields, code: nat, i: Iter, j: Iter)
    requires Extends(i, j) && ReadField(m, code, i).Some?
    ensures ReadField(m, code, j).Some? && ReadField(m, code, j).value.0 == ReadField(m, code, i).value.0
    ensures Extends(ReadField(m, code, i).value.1, ReadField(m, code, j).value.1)
  {
    hide Extends, Read, Skip;
    ExtendsParts(i, j);
    if IsTyped(i.Letter()) && Read(i).Some? {
      ExtendsTyped(i, j);
    }
    if Skip(i).Some? {
      ExtendsSkip(i, j);
    }
  }

  /** What is read of a header does not change with more behind it. */
  lemma {:induction false} ExtendsLoop(m: Fields, i: Iter, j: Iter, end: nat)
    requires Extends(i, j) && ReadFieldsLoop(m, i, end).Some?
    ensures ReadFieldsLoop(m, j, end) == ReadFieldsLoop(m, i, end)
    decreases i.size
  {
    hide Extends, BeginField, ReadField, EndField;
    ExtendsParts(i, j);
    if i.pos < end {
      var i', j' := i.(sig := FIELD_SIG), j.(sig := FIELD_SIG);
      ExtendsBegin(i', j');
      var (code, i0) := BeginField(i').value;
      var j0 := BeginField(j').value.1;
      ExtendsField(m, code, i0, j0);
      var (m1, i1) := ReadField(m, code, i0).value;
      var j1 := ReadField(m, code, j0).value.1;
      ExtendsEnd(i1, j1, [STRUCT_END]);
      ExtendsLoop(m1, EndField(i1, [STRUCT_END]).value, EndField(j1, [STRUCT_END]).value, end);
    }
  }

  // -------------------------------------------------------------- size and place

  /** `j` is as far ahead of `i` as it has less size left, or further. */
  predicate Spends(i: Iter, j: Iter) {
    i.pos + i.size <= j.pos + j.size
  }

  lemma {:induction false} SpendsReaders(i: Iter)
    ensures forall b :: IsBoundary(b) && i.Align(b).Some? ==> Spends(i, i.Align(b).value)
    ensures forall w :: IsBoundary(w) && i.Get(w).Some? ==> Spends(i, i.Get(w).value.1)
    ensures forall w :: IsBoundary(w) && i.Pass(w).Some? ==> Spends(i, i.Pass(w).value)
    ensures forall n: nat :: i.GetString(n).Some? ==> Spends(i, i.GetString(n).value.1)
  {
    hide PadLen, WordValue;
  }

  lemma {:induction false} SpendsVariant(i: Iter)
    requires i.BeginVariant().Some?
    ensures Spends(i, i.BeginVariant().value)
  {
    hide Iter.Get, Iter.GetString, Iter.Align, Boundary;
    SpendsReaders(i.Next());
    var (n, i1) := i.Next().Get(1).value;
    SpendsReaders(i1);
    var (s, i2) := i1.GetString(n).value;
    SpendsReaders(i2.(sig := s));
  }

  lemma {:induction false} SpendsArray(i: Iter)
    requires i.BeginArray().Some?
    ensures Spends(i, i.BeginArray().value.0)
  {
    hide Iter.Get, Iter.Align, Boundary, RestOf;
    SpendsReaders(i.Next());
    SpendsReaders(i.Next().Get(4).value.1);
  }

  lemma {:induction false} SpendsSkip(i: Iter)
    requires Skip(i).Some?
    ensures Spends(i, Skip(i).value)
    decreases i.size, |i.sig|, 0
  {
    hide SkipFields, Iter.Get, Iter.GetString, Iter.Pass, Iter.BeginArray, Iter.BeginVariant, Iter.Align;
    var c := i.Letter();
    if c == VARIANT_BEGIN {
      SpendsVariant(i);
      SpendsSkip(i.BeginVariant().value);
    } else if c == ARRAY_BEGIN {
      SpendsArray(i);
    } else {
      SpendsReaders(i.Next());
      if c == STRUCT_BEGIN {
        AlignKeeps(i.Next());
        SpendsSkipFields(i.Next().Align(8).value);
      } else if c == DICTENTRY_BEGIN {
        AlignKeeps(i.Next());
        var i1 := i.Next().Align(8).value;
        SpendsSkip(i1);
        SpendsSkip(Skip(i1).value);
      } else if !IsFixed(c) {
        SpendsReaders(i.Next().Get(if IsText(c) then 4 else 1).value.1);
      }
    }
  }

  lemma {:induction false} AlignKeeps(i: Iter)
    requires i.Align(8).Some?
    ensures i.Align(8).value.size <= i.size && i.Align(8).value.sig == i.sig
  {
  }

  lemma {:induction false} SpendsSkipFields(i: Iter)
    requires SkipFields(i).Some?
    ensures Spends(i, SkipFields(i).value)
    decreases i.size, |i.sig|, 1
  {
    hide Skip;
    if i.Letter() != STRUCT_END {
      SpendsSkip(i);
      SpendsSkipFields(Skip(i).value);
    }
  }

  lemma {:induction false} SpendsTyped(i: Iter)
    requires Read(i).Some? && IsTyped(i.Letter())
    ensures Spends(i, Read(i).value.1)
  {
    hide ReadFields, ReadElems, Iter.Get, Iter.GetString, Iter.BeginArray, Iter.BeginVariant, Iter.Align;
    SpendsReaders(i.Next());
    SpendsReaders(i.Next().Get(if i.Letter() == SIGNATURE then 1 else 4).value.1);
  }

  /** A turn of the parser's loop */
  lemma {:induction false} SpendsTurn(m: Fields, i: Iter)
    requires BeginField(i).Some?
    requires var (code, i0) := BeginField(i).value;
             && ReadField(m, code, i0).Some?
             && EndField(ReadField(m, code, i0).value.1, [STRUCT_END]).Some?
    ensures var (code, i0) := BeginField(i).value;
            Spends(i, EndField(ReadField(m, code, i0).value.1, [STRUCT_END]).value)
  {
    hide BeginField, ReadField, Skip, Read;
    SpendsBegin(i);
    var (code, i0) := BeginField(i).value;
    SpendsField(m, code, i0);
  }

  lemma {:induction false} SpendsBegin(i: Iter)
    requires BeginField(i).Some?
    ensures Spends(i, BeginField(i).value.1)
  {
    hide Iter.Get, Iter.Align, Iter.BeginVariant;
    SpendsReaders(i.Next());
    var i1 := i.Next().Align(8).value;
    SpendsReaders(i1.Next());
    SpendsVariant(i1.Next().Get(1).value.1);
  }

  lemma {:induction false} SpendsField(m: Fields, code: nat, i: Iter)
    requires ReadField(m, code, i).Some?
    ensures Spends(i, ReadField(m, code, i).value.1)
  {
    hide Read, Skip;
    if IsTyped(i.Letter()) && Read(i).Some? {
      SpendsTyped(i);
    }
    if Skip(i).Some? {
      SpendsSkip(i);
    }
  }
}
