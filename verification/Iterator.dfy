/** adbus_Iterator: the readers that advance a cursor over marshaled data, the
    skip `adbus_iter_value`, and the sequence of reader calls that unmarshals a
    whole value. A reader that fails leaves the iterator unspecified. */
module Iterator {
  import opened Bytes
  import opened Signature
  import opened Codec

  /** adbus_IterArray */
  datatype IterArray = IterArray(sig: seq<Byte>, rest: seq<Byte>, data: nat, size: nat)

  class Iterator {
    var mem: seq<Byte>
    var pos: nat
    var size: nat
    var sig: seq<Byte>

    constructor (mem: seq<Byte>, pos: nat, size: nat, sig: seq<Byte>)
      ensures State() == Iter(mem, pos, size, sig)
    {
      this.mem, this.pos, this.size, this.sig := mem, pos, size, sig;
    }

    function State(): Iter
      reads this
    {
      Iter(mem, pos, size, sig)
    }

    method Align(b: nat) returns (ok: bool)
      requires IsBoundary(b)
      modifies this
      ensures ok == old(State()).Align(b).Some?
      ensures ok ==> State() == old(State()).Align(b).value
    {
      var diff := AlignUp(pos, b) - pos;
      if size < diff {
        return false;
      }
      pos, size := pos + diff, size - diff;
      return true;
    }

    method AlignField(c: Byte) returns (ok: bool)
      modifies this
      ensures ok == old(State()).AlignField(c).Some?
      ensures ok ==> State() == old(State()).AlignField(c).value
    {
      var b := Boundary(c);
      if b.None? {
        return false;
      }
      ok := Align(b.value);
    }

    method Sig(c: Byte) returns (ok: bool)
      requires c != 0
      modifies this
      ensures ok == old(State()).Sig(c).Some?
      ensures ok ==> State() == old(State()).Sig(c).value
    {
      if sig == [] || sig[0] != c {
        return false;
      }
      sig := sig[1..];
      return true;
    }

    method Get(w: nat) returns (ok: bool, n: nat)
      requires IsBoundary(w)
      modifies this
      ensures ok == old(State()).Get(w).Some?
      ensures ok ==> (n, State()) == old(State()).Get(w).value
    {
      n := 0;
      ok := Align(w);
      if !ok || size < w || pos + w > |mem| {
        return false, 0;
      }
      n := WordValue(mem[pos..pos + w]);
      pos, size := pos + w, size - w;
    }

    method GetString(n: nat) returns (ok: bool, s: seq<Byte>)
      modifies this
      ensures ok == old(State()).GetString(n).Some?
      ensures ok ==> (s, State()) == old(State()).GetString(n).value
    {
      if size < n + 1 || pos + n + 1 > |mem| {
        return false, [];
      }
      // memchr for the first NUL
      var k := 0;
      while k < n + 1 && mem[pos + k] != 0
        invariant 0 <= k <= n + 1
        invariant NulFree(mem[pos..pos + k])
      {
        assert mem[pos..pos + k + 1] == mem[pos..pos + k] + [mem[pos + k]];
        k := k + 1;
      }
      if k != n {
        assert k < n ==> mem[pos..pos + n][k] == 0;
        return false, [];
      }
      s := mem[pos..pos + n];
      pos, size := pos + n + 1, size - (n + 1);
      return true, s;
    }

    method BeginVariant() returns (ok: bool, origsig: seq<Byte>)
      modifies this
      ensures ok == old(State()).BeginVariant().Some?
      ensures ok ==> State() == old(State()).BeginVariant().value && origsig == old(sig)[1..]
    {
      hide Codec.Iter.Get, Codec.Iter.GetString, Codec.Iter.AlignField;
      origsig := [];
      ok := Sig(VARIANT_BEGIN);
      if !ok {
        return;
      }
      origsig := sig;
      var len, vsig;
      ok, len := Get(1);
      if !ok {
        return;
      }
      ok, vsig := GetString(len);
      if !ok {
        return;
      }
      sig := vsig;
      ok := AlignField(if vsig == [] then 0 else vsig[0]);
    }

    method EndVariant(origsig: seq<Byte>) returns (ok: bool)
      modifies this
      ensures ok <==> old(sig) == []
      ensures ok ==> State() == old(State()).(sig := origsig)
    {
      if sig != [] {
        return false;
      }
      sig := origsig;
      return true;
    }

    method BeginArray() returns (ok: bool, a: IterArray)
      modifies this
      ensures ok == old(State()).BeginArray().Some?
      ensures ok ==> var (i0, n, rest) := old(State()).BeginArray().value;
                     State() == i0 && a == IterArray(i0.sig, rest, i0.pos, n)
    {
      hide Codec.Iter.Get, Codec.Iter.AlignField, RestOf;
      a := IterArray([], [], 0, 0);
      ok := Sig(ARRAY_BEGIN);
      if !ok {
        return;
      }
      var len;
      ok, len := Get(4);
      if !ok || len > MAX_ARRAY {
        return false, a;
      }
      ok := AlignField(if sig == [] then 0 else sig[0]);
      if !ok {
        return;
      }
      var end := NextArg(sig);
      if end.None? {
        return false, a;
      }
      a := IterArray(sig, end.value, pos, len);
    }

    method InArray(a: IterArray) returns (more: bool)
      modifies this`sig
      ensures more == (pos < a.data + a.size)
      ensures sig == if more then a.sig else old(sig)
    {
      more := pos < a.data + a.size;
      if more {
        sig := a.sig;
      }
    }

    /** adbus_iter_endarray moves the data pointer and leaves `size` alone. */
    method EndArray(a: IterArray)
      modifies this
      ensures State() == old(State()).(pos := a.data + a.size, sig := a.rest)
    {
      pos, sig := a.data + a.size, a.rest;
    }

    /** adbus_iter_bool ... adbus_iter_double */
    method GetFixed(c: Byte) returns (ok: bool, n: nat)
      requires IsFixed(c)
      modifies this
      ensures ok == (old(State()).Sig(c).Some? && old(State()).Sig(c).value.Get(Width(c)).Some?)
      ensures ok ==> (n, State()) == old(State()).Sig(c).value.Get(Width(c)).value
    {
      hide Codec.Iter.Get;
      n := 0;
      ok := Sig(c);
      if ok {
        ok, n := Get(Width(c));
      }
    }

    /** The same with a null result pointer */
    method PassFixed(c: Byte) returns (ok: bool)
      requires sig != [] && sig[0] == c && IsFixed(c)
      modifies this
      ensures ok == old(State()).Next().Pass(Width(c)).Some?
      ensures ok ==> State() == old(State()).Next().Pass(Width(c)).value
    {
      hide PadLen;
      ok := Sig(c);
      ok := Align(Width(c));
      if !ok || size < Width(c) {
        return false;
      }
      pos, size := pos + Width(c), size - Width(c);
    }

    /** adbus_iter_string, adbus_iter_objectpath, adbus_iter_signature */
    method GetText(c: Byte) returns (ok: bool, s: seq<Byte>)
      requires IsText(c) || c == SIGNATURE
      modifies this
      ensures ok == ReadText(old(State()), c).Some?
      ensures ok ==> (s, State()) == ReadText(old(State()), c).value
    {
      hide Codec.Iter.Get, Codec.Iter.GetString;
      s := [];
      ok := Sig(c);
      if !ok {
        return;
      }
      var len;
      ok, len := Get(if IsText(c) then 4 else 1);
      if ok {
        ok, s := GetString(len);
      }
    }

    /** adbus_iter_value */
    method Value() returns (ok: bool)
      modifies this
      ensures ok == Skip(old(State())).Some?
      ensures ok ==> State() == Skip(old(State())).value
      decreases size, |sig|, 0
    {
      hide Codec.Iter.Get, Codec.Iter.Pass, Codec.Iter.GetString, Codec.Iter.BeginArray, Codec.Iter.BeginVariant, SkipFields, PadLen;
      var c := if sig == [] then 0 else sig[0];
      if IsFixed(c) {
        ok := PassFixed(c);
      } else if IsText(c) || c == SIGNATURE {
        var s;
        ok, s := GetText(c);
      } else if c == VARIANT_BEGIN {
        var origsig;
        ok, origsig := BeginVariant();
        if !ok {
          return;
        }
        ok := Value();
        if ok {
          ok := EndVariant(origsig);
        }
      } else if c == ARRAY_BEGIN {
        var a;
        ok, a := BeginArray();
        if ok {
          EndArray(a);
        }
      } else if c == STRUCT_BEGIN {
        ok := ValueStruct();
      } else if c == DICTENTRY_BEGIN {
        ok := ValueEntry();
      } else {
        ok := false;
      }
    }

    method ValueStruct() returns (ok: bool)
      requires sig != [] && sig[0] == STRUCT_BEGIN
      modifies this
      ensures ok == Skip(old(State())).Some?
      ensures ok ==> State() == Skip(old(State())).value
      decreases size, |sig|, -1
    {
      hide PadLen;
      ok := Sig(STRUCT_BEGIN);
      assert ok;
      ok := Align(8);
      if !ok {
        return;
      }
      ghost var start := State();
      hide Skip;
      while State().Letter() != STRUCT_END
        invariant size <= old(size) && |sig| < |old(sig)|
        invariant SkipFields(State()) == SkipFields(start)
        decreases size, |sig|
      {
        ok := Value();
        if !ok {
          return;
        }
      }
      ok := Sig(STRUCT_END);
    }

    method ValueEntry() returns (ok: bool)
      requires sig != [] && sig[0] == DICTENTRY_BEGIN
      modifies this
      ensures ok == Skip(old(State())).Some?
      ensures ok ==> State() == Skip(old(State())).value
      decreases size, |sig|, -1
    {
      hide PadLen;
      ok := Sig(DICTENTRY_BEGIN);
      ok := Align(8);
      if !ok {
        return;
      }
      ok := Value();
      if !ok {
        return;
      }
      ok := Value();
      if ok {
        ok := Sig(DICTENTRY_END);
      }
    }

    /** The reader calls, in the order the signature asks for, that unmarshal
        one value. */
    method ReadValue() returns (ok: bool, v: Value)
      modifies this
      ensures ok == Read(old(State())).Some?
      ensures ok ==> (v, State()) == Read(old(State())).value
      decreases size, |sig|, 0
    {
      hide Codec.Iter.Get, Codec.Iter.GetString, Codec.Iter.BeginArray, Codec.Iter.BeginVariant;
      hide ReadFields, ReadElems, PadLen;
      v := SigText([]);
      var c := if sig == [] then 0 else sig[0];
      if IsFixed(c) {
        var n;
        ok, n := GetFixed(c);
        v := Fixed(c, n);
      } else if IsText(c) || c == SIGNATURE {
        var s;
        ok, s := GetText(c);
        v := if IsText(c) then Text(c, s) else SigText(s);
      } else if c == VARIANT_BEGIN {
        var origsig;
        ok, origsig := BeginVariant();
        if !ok {
          return;
        }
        ok, v := ReadValue();
        if !ok {
          return;
        }
        ok := EndVariant(origsig);
        v := VariantOf(v);
      } else if c == ARRAY_BEGIN {
        var a, vs;
        ok, a := BeginArray();
        if !ok {
          return;
        }
        ok, vs := ReadArrayElems(a);
        if ok {
          EndArray(a);
          v := ArrayOf(ParseType(a.sig).value.0, vs);
        }
      } else if c == STRUCT_BEGIN {
        ok, v := ReadStruct();
      } else if c == DICTENTRY_BEGIN {
        ok, v := ReadDictEntry();
      } else {
        ok := false;
      }
    }

    method ReadArrayElems(a: IterArray) returns (ok: bool, vs: seq<Value>)
      requires sig == a.sig && pos == a.data
      modifies this
      ensures ok == ReadElems(old(State()), a.data + a.size).Some?
      ensures ok ==> ReadElems(old(State()), a.data + a.size) == Some((vs, State().(sig := a.sig)))
      decreases size, |sig|, 1
    {
      hide Read;
      ghost var start, end := State(), a.data + a.size;
      vs := [];
      ok := true;
      PrependNil(ReadElems(start, end));
      var more := InArray(a);
      while more
        invariant ok && more == (pos < end)
        invariant more ==> sig == a.sig
        invariant size <= old(size)
        invariant ReadElems(start, end) == Prepend(vs, ReadElems(State().(sig := a.sig), end))
        decreases size
      {
        ghost var it := State();
        var left, v := size, SigText([]);
        ok, v := ReadValue();
        if !ok || size == left {
          return false, vs;
        }
        PrependSnoc(vs, v, ReadElems(State().(sig := a.sig), end));
        assert ReadElems(it, end) == Prepend([v], ReadElems(State().(sig := a.sig), end));
        vs := vs + [v];
        more := InArray(a);
      }
      assert vs + [] == vs;
    }

    method ReadStruct() returns (ok: bool, v: Value)
      requires sig != [] && sig[0] == STRUCT_BEGIN
      modifies this
      ensures ok == Read(old(State())).Some?
      ensures ok ==> (v, State()) == Read(old(State())).value
      decreases size, |sig|, -1
    {
      hide PadLen;
      v := SigText([]);
      ok := Sig(STRUCT_BEGIN);
      ok := Align(8);
      if !ok {
        return;
      }
      ghost var start := State();
      assert ReadFields(start).None? ==> Read(old(State())).None?;
      assert forall vs, it :: ReadFields(start) == Some((vs, it)) ==> Read(old(State())) == Some((StructOf(vs), it));
      hide Read;
      var vs: seq<Value> := [];
      PrependNil(ReadFields(start));
      while State().Letter() != STRUCT_END
        invariant size <= old(size) && |sig| < |old(sig)|
        invariant ReadFields(start) == Prepend(vs, ReadFields(State()))
        decreases size, |sig|
      {
        ghost var it := State();
        ok, v := ReadValue();
        if !ok {
          return;
        }
        PrependSnoc(vs, v, ReadFields(State()));
        assert ReadFields(it) == Prepend([v], ReadFields(State()));
        vs := vs + [v];
      }
      ok := Sig(STRUCT_END);
      assert vs + [] == vs;
      v := StructOf(vs);
    }

    method ReadDictEntry() returns (ok: bool, v: Value)
      requires sig != [] && sig[0] == DICTENTRY_BEGIN
      modifies this
      ensures ok == Read(old(State())).Some?
      ensures ok ==> (v, State()) == Read(old(State())).value
      decreases size, |sig|, -1
    {
      hide PadLen;
      v := SigText([]);
      ok := Sig(DICTENTRY_BEGIN);
      ok := Align(8);
      if !ok {
        return;
      }
      var k, w := v, v;
      ok, k := ReadValue();
      if !ok {
        return;
      }
      ok, w := ReadValue();
      if !ok {
        return;
      }
      ok := Sig(DICTENTRY_END);
      v := EntryOf(k, w);
    }
  }

  ghost function Prepend(vs: seq<Value>, r: Option<(seq<Value>, Iter)>): Option<(seq<Value>, Iter)> {
    if r.None? then None else Some((vs + r.value.0, r.value.1))
  }

  lemma PrependNil(r: Option<(seq<Value>, Iter)>)
    ensures Prepend([], r) == r
  {
    if r.Some? {
      assert [] + r.value.0 == r.value.0;
    }
  }

  lemma PrependSnoc(vs: seq<Value>, v: Value, r: Option<(seq<Value>, Iter)>)
    ensures Prepend(vs, Prepend([v], r)) == Prepend(vs + [v], r)
  {
    if r.Some? {
      assert vs + ([v] + r.value.0) == (vs + [v]) + r.value.0;
    }
  }

  function ReadText(it: Iter, c: Byte): (r: Option<(seq<Byte>, Iter)>)
    requires IsText(c) || c == SIGNATURE
  {
    var i0 :- it.Sig(c);
    var (n, i1) :- i0.Get(if IsText(c) then 4 else 1);
    i1.GetString(n)
  }
}
