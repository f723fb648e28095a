/** What the readers demand of the bytes and of the signature, on any memory. */
module ReaderLaws {
  import opened Bytes
  import opened Signature
  import opened Codec
  import opened CodecLaws
  import opened Header
  import opened HeaderRewrite
  import opened WireFormat

  // ------------------------------------------------------------ the signature

  /** A skip that succeeds has gone over exactly one complete type of the signature. */
  lemma {:induction false} SkipTakesOneType(it: Iter)
    requires Skip(it).Some?
    ensures RestOf(it.sig) == Some(Skip(it).value.sig)
    decreases it.size, |it.sig|, 0
  {
    hide SkipFields, Iter.Get, Iter.GetString, Iter.Pass, Iter.Align, Iter.BeginVariant, Iter.BeginArray, Width;
    var c := it.Letter();
    if c == ARRAY_BEGIN {
      ArrayRest(it);
    } else if c == STRUCT_BEGIN {
      AlignedSig(it.Next());
      FieldsTakeTypes(it.Next().Align(8).value);
      StructRest(it.sig);
    } else if c == DICTENTRY_BEGIN {
      AlignedSig(it.Next());
      var i1 := it.Next().Align(8).value;
      SkipTakesOneType(i1);
      SkipTakesOneType(Skip(i1).value);
      EntryRest(it.sig);
    } else {
      LeafSig(it);
    }
  }

  lemma {:induction false} AlignedSig(it: Iter)
    ensures it.Align(8).Some? ==> it.Align(8).value.sig == it.sig && it.Align(8).value.size <= it.size
  {
  }

  lemma {:induction false} LeafSig(it: Iter)
    requires Skip(it).Some? && it.Letter() !in {ARRAY_BEGIN, STRUCT_BEGIN, DICTENTRY_BEGIN}
    ensures RestOf(it.sig) == Some(Skip(it).value.sig)
  {
    hide SkipFields, Width, PadLen, WordValue, Iter.BeginVariant, Iter.BeginArray;
  }

  lemma {:induction false} ArrayRest(it: Iter)
    requires it.Letter() == ARRAY_BEGIN && it.BeginArray().Some?
    ensures RestOf(it.sig) == Some(it.BeginArray().value.2)
  {
    hide PadLen, WordValue;
  }

  lemma {:induction false} StructRest(sig: seq<Byte>)
    requires sig != [] && sig[0] == STRUCT_BEGIN
    ensures RestOf(sig) == FieldsRest(sig[1..])
  {
  }

  lemma {:induction false} EntryRest(sig: seq<Byte>)
    requires sig != [] && sig[0] == DICTENTRY_BEGIN && RestOf(sig[1..]).Some? && RestOf(RestOf(sig[1..]).value).Some?
    ensures var end := RestOf(RestOf(sig[1..]).value).value;
            end != [] && end[0] == DICTENTRY_END ==> RestOf(sig) == Some(end[1..])
  {
  }

  lemma {:induction false} FieldsTakeTypes(it: Iter)
    requires SkipFields(it).Some?
    ensures FieldsRest(it.sig) == Some(SkipFields(it).value.sig)
    decreases it.size, |it.sig|, 1
  {
    hide Skip;
    if it.Letter() != STRUCT_END {
      var i0 := Skip(it).value;
      SkipTakesOneType(it);
      FieldsTakeTypes(i0);
      OneMore(it.sig, i0.sig);
    }
  }

  lemma {:induction false} OneMore(sig: seq<Byte>, rest: seq<Byte>)
    requires sig != [] && sig[0] != STRUCT_END && RestOf(sig) == Some(rest)
    ensures FieldsRest(sig) == FieldsRest(rest)
  {
  }

  /** The contents of a variant: a skip succeeds only if its signature is one complete
      type, and nothing else. */
  lemma {:induction false} VariantHoldsOne(it: Iter)
    requires it.Letter() == VARIANT_BEGIN && Skip(it).Some?
    ensures it.BeginVariant().Some? && RestOf(it.BeginVariant().value.sig) == Some([])
  {
    hide Iter.BeginVariant, SkipFields;
    SkipTakesOneType(it.BeginVariant().value);
  }

  /** A header field: the loops go over one only if its variant holds exactly one value. */
  lemma {:induction false} FieldHoldsOne(it: Iter)
    requires SkipField(it).Some?
    ensures BeginField(it).Some? && RestOf(BeginField(it).value.1.sig) == Some([])
  {
    hide BeginField, Skip;
    SkipTakesOneType(BeginField(it).value.1);
  }

  /** A read goes over one complete type as well. */
  lemma {:induction false} ReadTakesOneType(it: Iter)
    requires Read(it).Some?
    ensures RestOf(it.sig) == Some(Read(it).value.1.sig)
  {
    hide Read, Skip;
    SkipAgrees(it, it);
    SkipTakesOneType(it);
  }

  // ---------------------------------------------------------------- the bytes

  /** A word is stored as the bytes that it is loaded from. */
  lemma {:induction false} WordInverse(w: seq<Byte>)
    ensures Word(|w|, WordValue(w)) == w && WordValue(w) < Span(|w|)
  {
    if w != [] {
      WordInverse(w[1..]);
      assert WordValue(w) / 256 == WordValue(w[1..]) && WordValue(w) % 256 == w[0];
      assert w == [w[0]] + w[1..];
    }
  }

  lemma {:induction false} FourInverse(w: seq<Byte>, n: nat)
    requires |w| == 4 && n < 0x1_0000_0000
    ensures WordValue(w) == n <==> w == Four(n)
  {
    hide Word, WordValue, Four, Span;
    SpanFacts();
    WordIs(n);
    WordInverse(w);
    WordRoundTrip(4, n);
  }

  /** A string is read exactly where its length on a boundary of four, its text without a
      NUL, and a NUL lie within the size. */
  lemma {:induction false} TextReadIff(it: Iter, c: TextCode, rest: seq<Byte>, s: seq<Byte>)
    requires it.sig == [c] + rest
    ensures var p := it.pos + Gap(it.pos, 4);
            (Read(it).Some? && Read(it).value.0 == Text(c, s)) <==>
              && NulFree(s) && |s| < 0x1_0000_0000 && Gap(it.pos, 4) + 4 + |s| + 1 <= it.size
              && Holds(it.mem, p, Four(|s|) + s + [0])
    ensures Read(it).Some? ==>
              var (v, j) := Read(it).value;
              && v.Text? && v.tcode == c && j.sig == rest && j.mem == it.mem
              && j.pos == it.pos + Gap(it.pos, 4) + 4 + |v.text| + 1
              && j.size == it.size - (Gap(it.pos, 4) + 4 + |v.text| + 1)
  {
    hide PadLen, Gap, Word, WordValue, ReadFields, ReadElems, Holds, Four, NulFree;
    GapIsPad(it.pos, 4);
    assert it.Next().sig == rest;
    var p := it.pos + Gap(it.pos, 4);
    assert it.Letter() == c && IsText(c);
    HoldsConcat(it.mem, p, Four(|s|) + s, [0]);
    HoldsConcat(it.mem, p, Four(|s|), s);
    assert |Four(|s|)| == 4 by { FourLength(|s|); }
    TextThere(it.mem, p, s);
    TextParts(it, c, s);
    if p + 4 <= |it.mem| {
      var w := it.mem[p..p + 4];
      WordBelow(w);
      if |s| < 0x1_0000_0000 { FourInverse(w, |s|); }
    }
  }

  lemma {:induction false} FourLength(n: nat)
    ensures |Four(n)| == 4
  {
  }

  lemma {:induction false} WordBelow(w: seq<Byte>)
    requires |w| == 4
    ensures WordValue(w) < 0x1_0000_0000
  {
    hide Word, WordValue, Span;
    SpanFacts();
    WordInverse(w);
  }

  lemma {:induction false} TextThere(mem: seq<Byte>, p: nat, s: seq<Byte>)
    ensures Holds(mem, p, Four(|s|)) <==> p + 4 <= |mem| && mem[p..p + 4] == Four(|s|)
    ensures Holds(mem, p + 4, s) <==> p + 4 + |s| <= |mem| && mem[p + 4..p + 4 + |s|] == s
    ensures Holds(mem, p + 4 + |s|, [0]) <==> p + 5 + |s| <= |mem| && mem[p + 4 + |s|] == 0
  {
    hide Four;
    FourLength(|s|);
    if p + 5 + |s| <= |mem| {
      assert mem[p + 4 + |s|..p + 5 + |s|] == [mem[p + 4 + |s|]];
    }
  }

  lemma {:induction false} TextParts(it: Iter, c: TextCode, s: seq<Byte>)
    requires it.sig != [] && it.sig[0] == c
    ensures var p := it.pos + PadLen(it.pos, 4);
            Read(it) ==
              if it.size < PadLen(it.pos, 4) + 4 || p + 4 > |it.mem| then None
              else
                var n := WordValue(it.mem[p..p + 4]);
                if it.size < PadLen(it.pos, 4) + 4 + n + 1 || p + 4 + n + 1 > |it.mem| then None
                else if NulFree(it.mem[p + 4..p + 4 + n]) && it.mem[p + 4 + n] == 0 then
                  Some((Text(c, it.mem[p + 4..p + 4 + n]),
                        Iter(it.mem, p + 4 + n + 1, it.size - PadLen(it.pos, 4) - 4 - n - 1, it.sig[1..])))
                else None
  {
    hide PadLen, WordValue, ReadFields, ReadElems, NulFree;
    assert IsText(c);
  }

  /** No array of more than 64 MiB is begun. */
  lemma {:induction false} ArrayLimit(it: Iter)
    requires it.BeginArray().Some?
    ensures it.BeginArray().value.1 <= 0x400_0000
  {
    hide PadLen, WordValue, RestOf;
  }
}
