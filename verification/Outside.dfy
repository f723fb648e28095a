/** Where the readers look outside of their memory. An iterator trusts its size,
    and adbus_iter_endarray jumps by the declared length of an array without
    taking it off the size; behind such a jump the size may promise bytes that
    are not there. */
module Outside {
  import opened Bytes
  import opened Signature
  import opened Codec
  import opened CodecLaws
  import opened Header

  /** Reading a word within the size, but behind the memory */
  predicate WordOutside(it: Iter, w: nat)
    requires IsBoundary(w)
  {
    it.Align(w).Some? && it.Align(w).value.size >= w && it.Align(w).value.pos + w > |it.mem|
  }

  /** The bytes of the memory from a position on */
  function Tail(mem: seq<Byte>, pos: nat): seq<Byte> {
    if pos <= |mem| then mem[pos..] else []
  }

  /** The memchr of adbusI_iter_getstring, which stops at the first NUL */
  predicate TextOutside(it: Iter, n: nat) {
    it.size >= n + 1 && it.pos + n + 1 > |it.mem| && NulFree(Tail(it.mem, it.pos))
  }

  /** A length word and the text behind it */
  predicate LengthOutside(it: Iter, w: nat)
    requires IsBoundary(w)
  {
    WordOutside(it, w) || (it.Get(w).Some? && TextOutside(it.Get(w).value.1, it.Get(w).value.0))
  }

  predicate VariantOutside(it: Iter) {
    it.Sig(VARIANT_BEGIN).Some? && LengthOutside(it.Next(), 1)
  }

  /** adbus_iter_value looks outside of the memory. */
  predicate SkipOutside(it: Iter)
    decreases it.size, |it.sig|, 0
  {
    var c := it.Letter();
    if IsText(c) then LengthOutside(it.Next(), 4)
    else if c == SIGNATURE then LengthOutside(it.Next(), 1)
    else if c == VARIANT_BEGIN then
      VariantOutside(it) || (it.BeginVariant().Some? && SkipOutside(it.BeginVariant().value))
    else if c == ARRAY_BEGIN then WordOutside(it.Next(), 4)
    else if c == STRUCT_BEGIN then
      it.Next().Align(8).Some? && SkipFieldsOutside(it.Next().Align(8).value)
    else if c == DICTENTRY_BEGIN then
      it.Next().Align(8).Some?
      && var i1 := it.Next().Align(8).value;
      SkipOutside(i1) || (Skip(i1).Some? && SkipOutside(Skip(i1).value))
    else false
  }

  predicate SkipFieldsOutside(it: Iter)
    decreases it.size, |it.sig|, 1
  {
    it.Letter() != STRUCT_END && (SkipOutside(it) || (Skip(it).Some? && SkipFieldsOutside(Skip(it).value)))
  }

  /** beginstruct, u8, beginvariant, with a look at the code */
  predicate PrefixOutside(it: Iter) {
    && it.Sig(STRUCT_BEGIN).Some? && it.Next().Align(8).Some?
    && var i1 := it.Next().Align(8).value;
    && i1.Sig(UINT8).Some?
    && (WordOutside(i1.Next(), 1) || (i1.Next().Get(1).Some? && VariantOutside(i1.Next().Get(1).value.1)))
  }

  /** Going over a header field looks outside of the memory. */
  predicate FieldOutside(it: Iter) {
    PrefixOutside(it) || (BeginField(it).Some? && SkipOutside(BeginField(it).value.1))
  }

  // ------------------------------------------------------- what is looked at

  /** `j` stands `d` bytes from where `i` stands, in a memory that has the bytes in
      front of `i`, and perhaps more behind them. */
  predicate Sees(i: Iter, j: Iter, d: int) {
    && d % 8 == 0 && j.pos == i.pos + d && j.size == i.size && j.sig == i.sig
    && |i.mem| + d <= |j.mem| && Tail(i.mem, i.pos) <= Tail(j.mem, j.pos)
  }

  lemma {:induction false} SeesPad(i: Iter, j: Iter, d: int, b: nat)
    requires Sees(i, j, d) && IsBoundary(b)
    ensures PadLen(i.pos, b) == PadLen(j.pos, b)
    ensures i.Align(b).Some? <==> j.Align(b).Some?
    ensures i.Align(b).Some? ==> Sees(i.Align(b).value, j.Align(b).value, d)
  {
    hide PadLen;
    PadModulo8(i.pos, j.pos, b);
    if i.Align(b).Some? {
      SeesAdvance(i, j, d, PadLen(i.pos, b));
    }
  }

  lemma {:induction false} SeesAdvance(i: Iter, j: Iter, d: int, n: nat)
    requires Sees(i, j, d) && n <= i.size
    ensures Sees(i.Advance(n), j.Advance(n), d)
  {
    TailAdvance(i, j, d, n);
  }

  lemma {:induction false} TailAdvance(i: Iter, j: Iter, d: int, n: nat)
    requires Sees(i, j, d)
    ensures Tail(i.mem, i.pos + n) <= Tail(j.mem, j.pos + n)
  {
    if i.pos + n <= |i.mem| {
      assert i.mem[i.pos + n..] == i.mem[i.pos..][n..];
      assert j.mem[j.pos + n..] == j.mem[j.pos..][n..];
    }
  }

  lemma {:induction false} SeesBytes(i: Iter, j: Iter, d: int, n: nat)
    requires Sees(i, j, d) && i.pos + n <= |i.mem|
    ensures j.pos + n <= |j.mem| && i.mem[i.pos..i.pos + n] == j.mem[j.pos..j.pos + n]
  {
    var s, t := Tail(i.mem, i.pos), Tail(j.mem, j.pos);
    assert s[..n] == i.mem[i.pos..i.pos + n] && t[..n] == j.mem[j.pos..j.pos + n];
    assert t[..|s|][..n] == t[..n];
  }

  lemma {:induction false} SeesWord(i: Iter, j: Iter, d: int, w: nat)
    requires Sees(i, j, d) && IsBoundary(w) && !WordOutside(i, w)
    ensures !WordOutside(j, w)
    ensures i.Get(w).Some? <==> j.Get(w).Some?
    ensures i.Get(w).Some? ==>
              i.Get(w).value.0 == j.Get(w).value.0 && Sees(i.Get(w).value.1, j.Get(w).value.1, d)
  {
    hide PadLen, WordValue;
    SeesPad(i, j, d, w);
    if i.Get(w).Some? {
      var i1, j1 := i.Align(w).value, j.Align(w).value;
      SeesBytes(i1, j1, d, w);
      SeesAdvance(i1, j1, d, w);
    }
  }

  lemma {:induction false} SeesText(i: Iter, j: Iter, d: int, n: nat)
    requires Sees(i, j, d) && !TextOutside(i, n)
    ensures !TextOutside(j, n)
    ensures i.GetString(n).Some? <==> j.GetString(n).Some?
    ensures i.GetString(n).Some? ==>
              i.GetString(n).value.0 == j.GetString(n).value.0 && Sees(i.GetString(n).value.1, j.GetString(n).value.1, d)
  {
    hide NulFree, TextOutside, Iter.GetString, Tail;
    if i.size < n + 1 {
      TextTooLong(i, n);
      TextTooLong(j, n);
    } else if i.pos + n + 1 <= |i.mem| {
      SeesBytes(i, j, d, n + 1);
      TextWithin(i, n);
      TextWithin(j, n);
      SeesAdvance(i, j, d, n + 1);
    } else {
      NulSooner(i, j, d, n);
    }
  }

  lemma {:induction false} TextTooLong(it: Iter, n: nat)
    requires it.size < n + 1
    ensures !TextOutside(it, n) && it.GetString(n).None?
  {
  }

  lemma {:induction false} TextWithin(it: Iter, n: nat)
    requires it.size >= n + 1 && it.pos + n + 1 <= |it.mem|
    ensures !TextOutside(it, n)
    ensures var s := it.mem[it.pos..it.pos + n + 1];
            it.GetString(n) == if NulFree(s[..n]) && s[n] == 0 then Some((s[..n], it.Advance(n + 1))) else None
  {
    var s := it.mem[it.pos..it.pos + n + 1];
    assert it.mem[it.pos..it.pos + n] == s[..n];
  }

  /** The memchr finds a NUL before the memory ends. */
  lemma {:induction false} NulSooner(i: Iter, j: Iter, d: int, n: nat)
    requires Sees(i, j, d) && i.size >= n + 1 && i.pos + n + 1 > |i.mem| && !TextOutside(i, n)
    ensures !TextOutside(j, n) && i.GetString(n).None? && j.GetString(n).None?
  {
    var s, t := Tail(i.mem, i.pos), Tail(j.mem, j.pos);
    var k :| 0 <= k < |s| && s[k] == 0;
    assert t[k] == 0;
    if j.pos + n + 1 <= |j.mem| {
      assert j.mem[j.pos..j.pos + n][k] == 0;
    }
  }

  lemma {:induction false} SeesLength(i: Iter, j: Iter, d: int, w: nat)
    requires Sees(i, j, d) && IsBoundary(w) && !LengthOutside(i, w)
    ensures !LengthOutside(j, w)
    ensures i.Get(w).Some? <==> j.Get(w).Some?
    ensures i.Get(w).Some? ==>
              && i.Get(w).value.0 == j.Get(w).value.0
              && var (n, i1) := i.Get(w).value;
              var j1 := j.Get(w).value.1;
              && (i1.GetString(n).Some? <==> j1.GetString(n).Some?)
              && (i1.GetString(n).Some? ==>
                    && i1.GetString(n).value.0 == j1.GetString(n).value.0
                    && Sees(i1.GetString(n).value.1, j1.GetString(n).value.1, d))
  {
    hide Sees, WordOutside, TextOutside, Iter.Get, Iter.GetString;
    SeesWord(i, j, d, w);
    if i.Get(w).Some? {
      SeesText(i.Get(w).value.1, j.Get(w).value.1, d, i.Get(w).value.0);
    }
  }

  lemma {:induction false} SeesLetters(i: Iter, j: Iter, d: int)
    requires Sees(i, j, d)
    ensures i.sig == j.sig && i.Letter() == j.Letter() && i.size == j.size
    ensures i.sig != [] ==> Sees(i.Next(), j.Next(), d)
    ensures forall s: seq<Byte> :: Sees(i.(sig := s), j.(sig := s), d)
  {
  }

  lemma {:induction false} SeesVariant(i: Iter, j: Iter, d: int)
    requires Sees(i, j, d) && !VariantOutside(i)
    ensures !VariantOutside(j)
    ensures i.BeginVariant().Some? <==> j.BeginVariant().Some?
    ensures i.BeginVariant().Some? ==> Sees(i.BeginVariant().value, j.BeginVariant().value, d)
  {
    hide Sees, LengthOutside, Iter.Get, Iter.GetString, Iter.Align, Boundary;
    SeesLetters(i, j, d);
    if i.Letter() == VARIANT_BEGIN {
      SeesLength(i.Next(), j.Next(), d, 1);
      if i.Next().Get(1).Some? {
        var (n, i1) := i.Next().Get(1).value;
        var j1 := j.Next().Get(1).value.1;
        if i1.GetString(n).Some? {
          var (s, i2) := i1.GetString(n).value;
          var j2 := j1.GetString(n).value.1;
          SeesLetters(i2, j2, d);
          if Boundary(if s == [] then 0 else s[0]).Some? {
            SeesPad(i2.(sig := s), j2.(sig := s), d, Boundary(if s == [] then 0 else s[0]).value);
          }
        }
      }
    }
  }

  lemma {:induction false} SeesArray(i: Iter, j: Iter, d: int)
    requires Sees(i, j, d) && i.Letter() == ARRAY_BEGIN && !WordOutside(i.Next(), 4)
    ensures !WordOutside(j.Next(), 4)
    ensures i.BeginArray().Some? <==> j.BeginArray().Some?
    ensures i.BeginArray().Some? ==>
              && Sees(i.BeginArray().value.0, j.BeginArray().value.0, d)
              && i.BeginArray().value.1 == j.BeginArray().value.1 && i.BeginArray().value.2 == j.BeginArray().value.2
  {
    hide Sees, WordOutside, Iter.Get, Iter.Align, Boundary, RestOf;
    SeesLetters(i, j, d);
    SeesWord(i.Next(), j.Next(), d, 4);
    if i.Next().Get(4).Some? {
      var i1, j1 := i.Next().Get(4).value.1, j.Next().Get(4).value.1;
      SeesLetters(i1, j1, d);
      if Boundary(i1.Letter()).Some? {
        SeesPad(i1, j1, d, Boundary(i1.Letter()).value);
        if i1.AlignField(i1.Letter()).Some? {
          SeesLetters(i1.AlignField(i1.Letter()).value, j1.AlignField(i1.Letter()).value, d);
        }
      }
    }
  }

  lemma {:induction false} SeesJump(i: Iter, j: Iter, d: int, n: nat, rest: seq<Byte>)
    requires Sees(i, j, d)
    ensures Sees(i.(pos := i.pos + n, sig := rest), j.(pos := j.pos + n, sig := rest), d)
  {
    TailAdvance(i, j, d, n);
  }

  /** A skip that does not look outside of its memory does the same wherever that
      memory lies and whatever lies behind it. */
  lemma {:induction false} SkipSees(i: Iter, j: Iter, d: int)
    requires Sees(i, j, d) && !SkipOutside(i)
    ensures !SkipOutside(j)
    ensures Skip(i).Some? <==> Skip(j).Some?
    ensures Skip(i).Some? ==> Sees(Skip(i).value, Skip(j).value, d)
    decreases i.size, |i.sig|, 0
  {
    SeesLetters(i, j, d);
    var c := i.Letter();
    if c == VARIANT_BEGIN {
      hide Sees, VariantOutside, Iter.BeginVariant, SkipFields, SkipFieldsOutside;
      SeesVariant(i, j, d);
      if i.BeginVariant().Some? {
        var i0, j0 := i.BeginVariant().value, j.BeginVariant().value;
        SkipSees(i0, j0, d);
        if Skip(i0).Some? {
          SeesLetters(Skip(i0).value, Skip(j0).value, d);
        }
      }
    } else if c == STRUCT_BEGIN {
      hide Sees, SkipFields, SkipFieldsOutside, Iter.Align;
      SeesPad(i.Next(), j.Next(), d, 8);
      if i.Next().Align(8).Some? {
        AlignShrinks(i.Next());
        SkipFieldsSees(i.Next().Align(8).value, j.Next().Align(8).value, d);
      }
    } else if c == DICTENTRY_BEGIN {
      EntrySees(i, j, d);
    } else {
      LeafSees(i, j, d);
    }
  }

  lemma {:induction false} AlignShrinks(i: Iter)
    ensures i.Align(8).Some? ==> i.Align(8).value.size <= i.size && i.Align(8).value.sig == i.sig
  {
  }

  lemma {:induction false} LeafSees(i: Iter, j: Iter, d: int)
    requires Sees(i, j, d) && !SkipOutside(i)
    requires i.Letter() !in {VARIANT_BEGIN, STRUCT_BEGIN, DICTENTRY_BEGIN}
    ensures !SkipOutside(j)
    ensures Skip(i).Some? <==> Skip(j).Some?
    ensures Skip(i).Some? ==> Sees(Skip(i).value, Skip(j).value, d)
  {
    hide Sees, SkipFields, Iter.Get, Iter.GetString, Iter.BeginArray, Width, WordOutside, TextOutside, LengthOutside, Iter.Pass;
    SeesLetters(i, j, d);
    var c := i.Letter();
    if IsFixed(c) {
      SeesPass(i.Next(), j.Next(), d, Width(c));
    } else if c == ARRAY_BEGIN {
      SeesArray(i, j, d);
      if i.BeginArray().Some? {
        var (i0, n, rest) := i.BeginArray().value;
        SeesJump(i0, j.BeginArray().value.0, d, n, rest);
      }
    } else if IsText(c) {
      SeesLength(i.Next(), j.Next(), d, 4);
    } else if c == SIGNATURE {
      SeesLength(i.Next(), j.Next(), d, 1);
    }
  }

  lemma {:induction false} SeesPass(i: Iter, j: Iter, d: int, w: nat)
    requires Sees(i, j, d) && IsBoundary(w)
    ensures i.Pass(w).Some? <==> j.Pass(w).Some?
    ensures i.Pass(w).Some? ==> Sees(i.Pass(w).value, j.Pass(w).value, d)
  {
    hide PadLen;
    SeesPad(i, j, d, w);
    if i.Pass(w).Some? {
      SeesAdvance(i.Align(w).value, j.Align(w).value, d, w);
    }
  }

  lemma {:induction false} EntrySees(i: Iter, j: Iter, d: int)
    requires Sees(i, j, d) && !SkipOutside(i) && i.Letter() == DICTENTRY_BEGIN
    ensures !SkipOutside(j)
    ensures Skip(i).Some? <==> Skip(j).Some?
    ensures Skip(i).Some? ==> Sees(Skip(i).value, Skip(j).value, d)
    decreases i.size, |i.sig|, -1
  {
    hide Sees, SkipFields, SkipFieldsOutside, Iter.Align, Iter.BeginVariant, Iter.BeginArray, Iter.Get, Iter.GetString, Iter.Pass;
    SeesLetters(i, j, d);
    SeesPad(i.Next(), j.Next(), d, 8);
    if i.Next().Align(8).Some? {
      AlignShrinks(i.Next());
      var i1, j1 := i.Next().Align(8).value, j.Next().Align(8).value;
      SkipSees(i1, j1, d);
      if Skip(i1).Some? {
        var i2, j2 := Skip(i1).value, Skip(j1).value;
        SkipSees(i2, j2, d);
        if Skip(i2).Some? {
          SeesLetters(Skip(i2).value, Skip(j2).value, d);
        }
      }
    }
  }

  lemma {:induction false} SkipFieldsSees(i: Iter, j: Iter, d: int)
    requires Sees(i, j, d) && !SkipFieldsOutside(i)
    ensures !SkipFieldsOutside(j)
    ensures SkipFields(i).Some? <==> SkipFields(j).Some?
    ensures SkipFields(i).Some? ==> Sees(SkipFields(i).value, SkipFields(j).value, d)
    decreases i.size, |i.sig|, 1
  {
    hide Sees, Skip, SkipOutside;
    SeesLetters(i, j, d);
    if i.Letter() != STRUCT_END {
      SkipSees(i, j, d);
      if Skip(i).Some? {
        SkipFieldsSees(Skip(i).value, Skip(j).value, d);
      }
    }
  }

  lemma {:induction false} BeginFieldSees(i: Iter, j: Iter, d: int)
    requires Sees(i, j, d) && !PrefixOutside(i)
    ensures !PrefixOutside(j)
    ensures BeginField(i).Some? <==> BeginField(j).Some?
    ensures BeginField(i).Some? ==>
              BeginField(i).value.0 == BeginField(j).value.0 && Sees(BeginField(i).value.1, BeginField(j).value.1, d)
  {
    hide Sees, WordOutside, VariantOutside, Iter.Get, Iter.Align, Iter.BeginVariant;
    SeesLetters(i, j, d);
    if i.Letter() == STRUCT_BEGIN {
      SeesPad(i.Next(), j.Next(), d, 8);
      if i.Next().Align(8).Some? {
        var i1, j1 := i.Next().Align(8).value, j.Next().Align(8).value;
        SeesLetters(i1, j1, d);
        if i1.Letter() == UINT8 {
          SeesWord(i1.Next(), j1.Next(), d, 1);
          if i1.Next().Get(1).Some? {
            SeesVariant(i1.Next().Get(1).value.1, j1.Next().Get(1).value.1, d);
          }
        }
      }
    }
  }

  lemma {:induction false} EndFieldSees(i: Iter, j: Iter, d: int, rest: seq<Byte>)
    requires Sees(i, j, d)
    ensures EndField(i, rest).Some? <==> EndField(j, rest).Some?
    ensures EndField(i, rest).Some? ==> Sees(EndField(i, rest).value, EndField(j, rest).value, d)
  {
  }

  /** A skip that looks outside of its memory does not succeed within it. */
  lemma {:induction false} OutsideFails(it: Iter)
    requires SkipOutside(it)
    ensures Skip(it).None?
    decreases it.size, |it.sig|, 0
  {
    hide SkipFields, SkipFieldsOutside, Iter.BeginVariant, Iter.BeginArray, Iter.Align, Iter.Get, Iter.GetString, WordOutside, LengthOutside;
    var c := it.Letter();
    if c == VARIANT_BEGIN {
      if it.BeginVariant().Some? {
        VariantFails(it);
        OutsideFails(it.BeginVariant().value);
      }
    } else if c == STRUCT_BEGIN {
      AlignShrinks(it.Next());
      FieldsOutsideFails(it.Next().Align(8).value);
    } else if c == DICTENTRY_BEGIN {
      AlignShrinks(it.Next());
      var i1 := it.Next().Align(8).value;
      if SkipOutside(i1) { OutsideFails(i1); } else { OutsideFails(Skip(i1).value); }
    } else if c == ARRAY_BEGIN {
      ArrayFails(it);
    } else {
      LengthFails(it.Next(), if IsText(c) then 4 else 1);
    }
  }

  lemma {:induction false} FieldsOutsideFails(it: Iter)
    requires SkipFieldsOutside(it)
    ensures SkipFields(it).None?
    decreases it.size, |it.sig|, 1
  {
    hide Skip, SkipOutside;
    if SkipOutside(it) { OutsideFails(it); } else { FieldsOutsideFails(Skip(it).value); }
  }

  lemma {:induction false} LengthFails(it: Iter, w: nat)
    requires IsBoundary(w) && LengthOutside(it, w)
    ensures it.Get(w).Some? ==> it.Get(w).value.1.GetString(it.Get(w).value.0).None?
  {
    hide PadLen;
  }

  lemma {:induction false} VariantFails(it: Iter)
    requires it.BeginVariant().Some?
    ensures !VariantOutside(it)
  {
    hide Iter.Get, Iter.GetString, Iter.AlignField, LengthOutside;
    if VariantOutside(it) {
      LengthFails(it.Next(), 1);
    }
  }

  lemma {:induction false} ArrayFails(it: Iter)
    requires it.Letter() == ARRAY_BEGIN && WordOutside(it.Next(), 4)
    ensures it.BeginArray().None?
  {
    hide PadLen, WordValue, RestOf, Boundary;
  }
}
