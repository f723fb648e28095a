/** Type signatures: the grammar, and the scanner `adbus_nextarg` that finds
    the end of the first complete type of a signature.

    A signature cursor (a C pointer into a NUL terminated string) is modelled
    by the text that remains; the terminator is the end of that sequence. */
module Signature {
  import opened Bytes

  const UINT8: Byte := 121             // 'y'
  const BOOLEAN: Byte := 98            // 'b'
  const INT16: Byte := 110             // 'n'
  const UINT16: Byte := 113            // 'q'
  const INT32: Byte := 105             // 'i'
  const UINT32: Byte := 117            // 'u'
  const INT64: Byte := 120             // 'x'
  const UINT64: Byte := 116            // 't'
  const DOUBLE: Byte := 100            // 'd'
  const STRING: Byte := 115            // 's'
  const OBJECT_PATH: Byte := 111       // 'o'
  const SIGNATURE: Byte := 103         // 'g'
  const ARRAY_BEGIN: Byte := 97        // 'a'
  const STRUCT_BEGIN: Byte := 40       // '('
  const STRUCT_END: Byte := 41         // ')'
  const VARIANT_BEGIN: Byte := 118     // 'v'
  const DICTENTRY_BEGIN: Byte := 123   // '{'
  const DICTENTRY_END: Byte := 125     // '}'

  predicate IsFixed(c: Byte) {
    c in {UINT8, BOOLEAN, INT16, UINT16, INT32, UINT32, INT64, UINT64, DOUBLE}
  }

  predicate IsText(c: Byte) {
    c == STRING || c == OBJECT_PATH
  }

  predicate IsBasic(c: Byte) {
    IsFixed(c) || IsText(c) || c == SIGNATURE
  }

  type FixedCode = c: Byte | IsFixed(c) witness UINT8
  type TextCode = c: Byte | IsText(c) witness STRING
  type BasicCode = c: Byte | IsBasic(c) witness UINT8

  datatype Type =
    | Basic(code: BasicCode)
    | Variant
    | Array(elem: Type)
    | Struct(fields: seq<Type>)
    | DictEntry(key: Type, value: Type)

  /** The text of a type. */
  function Show(t: Type): (s: seq<Byte>)
    ensures s != [] && s[0] != STRUCT_END
    decreases t, 0
  {
    match t
    case Basic(c) => [c]
    case Variant => [VARIANT_BEGIN]
    case Array(e) => [ARRAY_BEGIN] + Show(e)
    case Struct(ts) => [STRUCT_BEGIN] + ShowAll(ts) + [STRUCT_END]
    case DictEntry(k, v) => [DICTENTRY_BEGIN] + Show(k) + Show(v) + [DICTENTRY_END]
  }

  function ShowAll(ts: seq<Type>): (s: seq<Byte>)
    decreases ts
  {
    if ts == [] then [] else Show(ts[0]) + ShowAll(ts[1..])
  }

  /** Reads the first complete type of `sig`, and what follows it. */
  function ParseType(sig: seq<Byte>): (r: Option<(Type, seq<Byte>)>)
    ensures r.Some? ==> sig == Show(r.value.0) + r.value.1
    decreases |sig|, 0
  {
    if sig == [] then None
    else if IsBasic(sig[0]) then
      Some((Basic(sig[0]), sig[1..]))
    else if sig[0] == VARIANT_BEGIN then
      Some((Variant, sig[1..]))
    else if sig[0] == ARRAY_BEGIN then
      var (e, rest) :- ParseType(sig[1..]);
      Some((Array(e), rest))
    else if sig[0] == STRUCT_BEGIN then
      var (ts, rest) :- ParseFields(sig[1..]);
      Some((Struct(ts), rest))
    else if sig[0] == DICTENTRY_BEGIN then
      var (k, s1) :- ParseType(sig[1..]);
      var (v, s2) :- ParseType(s1);
      if s2 != [] && s2[0] == DICTENTRY_END then Some((DictEntry(k, v), s2[1..])) else None
    else None
  }

  function ParseFields(sig: seq<Byte>): (r: Option<(seq<Type>, seq<Byte>)>)
    ensures r.Some? ==> sig == ShowAll(r.value.0) + [STRUCT_END] + r.value.1
    decreases |sig|, 1
  {
    if sig == [] then None
    else if sig[0] == STRUCT_END then Some(([], sig[1..]))
    else
      var (t, s1) :- ParseType(sig);
      var (ts, s2) :- ParseFields(s1);
      assert ([t] + ts)[1..] == ts;
      Some(([t] + ts, s2))
  }

  /** Every type is recognised in front of any text: the grammar is
      unambiguous and the scan never looks past the type. */
  lemma {:induction false} ParseShow(t: Type, rest: seq<Byte>)
    ensures ParseType(Show(t) + rest) == Some((t, rest))
    decreases t, 0
  {
    match t
    case Basic(_) => LeafText(t, rest);
    case Variant => LeafText(t, rest);
    case Array(e) =>
      ParseShow(e, rest);
      ArrayText(e, rest);
    case Struct(ts) =>
      ParseShowAll(ts, rest);
      StructText(ts, rest);
    case DictEntry(k, v) =>
      var s2 := [DICTENTRY_END] + rest;
      ParseShow(k, Show(v) + s2);
      ParseShow(v, s2);
      DictEntryText(k, v, rest);
  }

  lemma LeafText(t: Type, rest: seq<Byte>)
    requires t.Basic? || t.Variant?
    ensures ParseType(Show(t) + rest) == Some((t, rest))
  {
    assert (Show(t) + rest)[1..] == rest;
  }

  lemma ArrayText(e: Type, rest: seq<Byte>)
    ensures var s := Show(Array(e)) + rest;
            s[0] == ARRAY_BEGIN && s[1..] == Show(e) + rest
  {
  }

  lemma StructText(ts: seq<Type>, rest: seq<Byte>)
    ensures var s := Show(Struct(ts)) + rest;
            s[0] == STRUCT_BEGIN && s[1..] == ShowAll(ts) + [STRUCT_END] + rest
  {
  }

  lemma DictEntryText(k: Type, v: Type, rest: seq<Byte>)
    ensures var s := Show(DictEntry(k, v)) + rest;
            s[0] == DICTENTRY_BEGIN && s[1..] == Show(k) + (Show(v) + ([DICTENTRY_END] + rest))
  {
  }

  lemma {:induction false} ParseShowAll(ts: seq<Type>, rest: seq<Byte>)
    ensures ParseFields(ShowAll(ts) + [STRUCT_END] + rest) == Some((ts, rest))
    decreases ts
  {
    var s := ShowAll(ts) + [STRUCT_END] + rest;
    if ts == [] {
      assert s[1..] == rest;
    } else {
      var s1 := ShowAll(ts[1..]) + [STRUCT_END] + rest;
      assert s == Show(ts[0]) + s1;
      ParseShow(ts[0], s1);
      ParseShowAll(ts[1..], rest);
      assert [ts[0]] + ts[1..] == ts;
    }
  }

  /** `sig` starts with a complete type and `rest` is what follows it. */
  ghost predicate StartsWithType(sig: seq<Byte>, rest: seq<Byte>) {
    exists t :: sig == Show(t) + rest
  }

  /** The text after the first complete type is unique. */
  lemma RestUnique(sig: seq<Byte>, r1: seq<Byte>, r2: seq<Byte>)
    requires StartsWithType(sig, r1) && StartsWithType(sig, r2)
    ensures r1 == r2
  {
    var t1 :| sig == Show(t1) + r1;
    var t2 :| sig == Show(t2) + r2;
    ParseShow(t1, r1);
    ParseShow(t2, r2);
  }

  /** adbus_nextarg: the cursor behind the first complete type, or none
      exactly when the signature starts with no complete type. */
  method NextArg(sig: seq<Byte>) returns (r: Option<seq<Byte>>)
    ensures r.Some? <==> exists rest :: StartsWithType(sig, rest)
    ensures r.Some? ==> StartsWithType(sig, r.value)
    ensures r == RestOf(sig)
    decreases |sig|
  {
    ScanIff(sig);
    if sig == [] {
      return None;
    } else if IsBasic(sig[0]) || sig[0] == VARIANT_BEGIN {
      return Some(sig[1..]);
    } else if sig[0] == ARRAY_BEGIN {
      r := NextArg(sig[1..]);
    } else if sig[0] == STRUCT_BEGIN {
      r := Some(sig[1..]);
      while r.Some? && !(r.value != [] && r.value[0] == STRUCT_END)
        invariant r.Some? ==> |r.value| < |sig|
        invariant r.Some? ==> FieldsRest(r.value) == FieldsRest(sig[1..])
        invariant r.None? ==> FieldsRest(sig[1..]).None?
        decreases r.Some?, if r.Some? then |r.value| else 0
      {
        r := NextArg(r.value);
      }
      if r.Some? {
        r := Some(r.value[1..]);
      }
    } else if sig[0] == DICTENTRY_BEGIN {
      var val := NextArg(sig[1..]);
      if val.None? {
        return None;
      }
      var end := NextArg(val.value);
      if end.None? || end.value == [] || end.value[0] != DICTENTRY_END {
        return None;
      }
      return Some(end.value[1..]);
    } else {
      return None;
    }
  }

  function RestOf(sig: seq<Byte>): (r: Option<seq<Byte>>)
    ensures r.Some? ==> |r.value| < |sig| && sig[|sig| - |r.value|..] == r.value
  {
    var (_, rest) :- ParseType(sig);
    Some(rest)
  }

  function FieldsRest(sig: seq<Byte>): (r: Option<seq<Byte>>)
  {
    var (_, rest) :- ParseFields(sig);
    Some(rest)
  }

  lemma ScanIff(sig: seq<Byte>)
    ensures RestOf(sig).Some? <==> exists rest :: StartsWithType(sig, rest)
    ensures RestOf(sig).Some? ==> StartsWithType(sig, RestOf(sig).value)
  {
    if RestOf(sig).Some? {
      assert StartsWithType(sig, RestOf(sig).value);
    }
    forall rest | StartsWithType(sig, rest)
      ensures RestOf(sig).Some?
    {
      var t :| sig == Show(t) + rest;
      ParseShow(t, rest);
    }
  }

  /** What the scan finds does not depend on the text behind it. */
  lemma ScanStable(sig: seq<Byte>, more: seq<Byte>)
    requires RestOf(sig).Some?
    ensures RestOf(sig + more) == Some(RestOf(sig).value + more)
  {
    var (t, rest) := ParseType(sig).value;
    assert sig + more == Show(t) + (rest + more);
    ParseShow(t, rest + more);
  }
}
