/** The text of match rules, character by character: the form of a pair, the keys that
    are understood, and the keys that are ignored. */
module MatchText {
  import opened Bytes
  import opened Scan
  import opened MatchRule

  // ------------------------------------------------------------------ one pair

  /** The parser takes a pair off a text exactly when that starts with a key without an
      equals sign, an equals sign, and a value without quotes in quotes, and ends there or
      goes on behind a comma. */
  lemma {:induction false} PairIff(s: string, key: string, value: string, rest: string)
    ensures Pair(s) == Some((Item(key, value), rest)) <==>
              && '=' !in key && '\'' !in value
              && (s == key + "='" + value + "'," + rest || (rest == "" && s == key + "='" + value + "'"))
  {
    hide Pair;
    if Pair(s) == Some((Item(key, value), rest)) {
      TakenApart(s, key, value, rest);
    }
    if '=' !in key && '\'' !in value {
      PutTogether(key, value, rest);
    }
  }

  lemma {:induction false} PutTogether(key: string, value: string, rest: string)
    requires '=' !in key && '\'' !in value
    ensures Pair(key + "='" + value + "'," + rest) == Some((Item(key, value), rest))
    ensures Pair(key + "='" + value + "'") == Some((Item(key, value), ""))
  {
    hide Pair;
    var i := Item(key, value);
    PairParts(i, "," + rest);
    assert key + "='" + value + "'," + rest == key + "='" + value + "'" + ("," + rest);
    assert ("," + rest)[1..] == rest;
    PairParts(i, "");
    assert key + "='" + value + "'" + "" == key + "='" + value + "'";
  }

  lemma {:induction false} TakenApart(s: string, key: string, value: string, rest: string)
    requires Pair(s) == Some((Item(key, value), rest))
    ensures '=' !in key && '\'' !in value
    ensures s == key + "='" + value + "'," + rest || (rest == "" && s == key + "='" + value + "'")
  {
    hide Index;
    var k := Index(s, '=');
    var tail := s[k + 2..];
    var q := Index(tail, '\'');
    assert s == s[..k] + [s[k]] + [s[k + 1]] + tail;
    assert s == key + "='" + tail;
    if q + 1 == |tail| {
      assert tail == tail[..q] + [tail[q]];
      assert tail == value + "'";
      assert s == key + "='" + value + "'";
    } else {
      assert tail == tail[..q] + [tail[q]] + [tail[q + 1]] + tail[q + 2..];
      assert tail == value + "'," + rest;
      assert s == key + "='" + value + "'," + rest;
    }
  }

  // ------------------------------------------------------------------ the keys

  /** The numbers of the argument keys: one or two decimal digits, up to 63 */
  lemma {:induction false} ArgKeyIff(key: string, n: nat)
    ensures ArgNumber(key) == Some(n) <==>
              n <= 63 && (key == "arg" + Decimal(n) || (n < 10 && key == "arg0" + Decimal(n)))
  {
    hide ArgNumber;
    if ArgNumber(key) == Some(n) {
      KeyOfNumber(key, n);
    }
    if n <= 63 {
      ArgKeyNumber(n);
      if n < 10 {
        assert Decimal(n) == [('0' as int + n) as char];
        ZeroInFront(n);
      }
    }
  }

  lemma {:induction false} ZeroInFront(n: nat)
    requires n < 10
    ensures ArgNumber("arg0" + Decimal(n)) == Some(n)
  {
    var key := "arg0" + Decimal(n);
    assert Decimal(n) == [('0' as int + n) as char];
    assert key[..3] == "arg" && key[3] == '0' && key[4] == Decimal(n)[0];
  }

  lemma {:induction false} KeyOfNumber(key: string, n: nat)
    requires ArgNumber(key) == Some(n)
    ensures n <= 63 && (key == "arg" + Decimal(n) || (n < 10 && key == "arg0" + Decimal(n)))
  {
    assert key == key[..3] + key[3..] && key[..3] == "arg";
    if |key| == 4 {
      assert Decimal(n) == [key[3]] == key[3..];
    } else {
      assert key[3..] == [key[3]] + [key[4]];
      if n < 10 {
        assert Decimal(n) == [key[4]] && key[3] == '0';
        assert "arg0" == "arg" + "0";
        assert key == "arg0" + Decimal(n);
      } else {
        assert Decimal(n / 10) == [key[3]];
        assert Decimal(n) == [key[3]] + [key[4]];
      }
    }
  }

  /** A key that no part of a rule has */
  ghost predicate Unknown(key: string) {
    && key !in {"type", "sender", "interface", "member", "path", "destination"}
    && forall n :: 0 <= n <= 63 ==> key != "arg" + Decimal(n) && (n < 10 ==> key != "arg0" + Decimal(n))
  }

  /** The parts of a rule by their keys, and the types by their names and numbers */
  lemma {:induction false} KnownKeys(r: Rule, v: string)
    ensures Set(r, "type", "method_call") == Some(r.(kind := 1)) && TypeString(1) == "method_call"
    ensures Set(r, "type", "method_return") == Some(r.(kind := 2)) && TypeString(2) == "method_return"
    ensures Set(r, "type", "error") == Some(r.(kind := 3)) && TypeString(3) == "error"
    ensures Set(r, "type", "signal") == Some(r.(kind := 4)) && TypeString(4) == "signal"
    ensures v !in {"method_call", "method_return", "error", "signal"} ==> Set(r, "type", v).None?
    ensures Set(r, "sender", v) == Some(r.(sender := Some(v)))
    ensures Set(r, "interface", v) == Some(r.(iface := Some(v)))
    ensures Set(r, "member", v) == Some(r.(member := Some(v)))
    ensures Set(r, "path", v) == Some(r.(path := Some(v)))
    ensures Set(r, "destination", v) == Some(r.(destination := Some(v)))
  {
    hide ArgNumber;
    KeysDiffer();
    assert "signal"[0] == 's' && "error"[0] == 'e' && "method_call"[0] == 'm';
    assert "method_call"[7] == 'c' && "method_return"[7] == 'r';
  }

  /** A pair with an unknown key, anywhere in a rule, changes nothing. */
  lemma {:induction false} UnknownIgnored(r: Rule, a: seq<Item>, x: Item, b: seq<Item>)
    requires Unknown(x.key) && Plain(x)
    requires (forall k :: 0 <= k < |a| ==> Plain(a[k])) && forall k :: 0 <= k < |b| ==> Plain(b[k])
    ensures ParseFrom(DropLast(Texts(a + [x] + b)), r) == ParseFrom(DropLast(Texts(a + b)), r)
  {
    hide Set, Plain, Texts, DropLast, ParseFrom, SetAll, Unknown;
    ParseTexts(r, a + [x] + b);
    ParseTexts(r, a + b);
    SetAllConcat(r, a, b);
    SetAllConcat(r, a, [x] + b);
    assert a + [x] + b == a + ([x] + b);
    match SetAll(r, a)
    case None =>
    case Some(u) =>
      SetNothing(u, x);
      SetAllConcat(u, [x], b);
  }

  lemma {:induction false} SetNothing(r: Rule, x: Item)
    requires Unknown(x.key)
    ensures SetAll(r, [x]) == Some(r)
  {
    hide ArgNumber;
    if ArgNumber(x.key).Some? {
      ArgKeyIff(x.key, ArgNumber(x.key).value);
    }
    assert [x][1..] == [];
    assert Set(r, x.key, x.value) == Some(r);
  }

  // --------------------------------------------------------------- the printer

  function Whole(s: string): Text {
    Text(Some(s), -1)
  }

  /** The text of a signal match with a member and one argument */
  lemma {:induction false} PrintedText(member: string, arg0: string)
    ensures var none := Text(None, -1);
            Print(Match(4, none, none, Whole(member), none, none, [Whole(arg0)]))
            == "type='signal',member='" + member + "',arg0='" + arg0 + "'"
  {
    hide Texts, ItemText, Printed;
    var none := Text(None, -1);
    var m := Match(4, none, none, Whole(member), none, none, [Whole(arg0)]);
    PrintedWhole(member);
    PrintedWhole(arg0);
    FirstArg();
    OneArg(m.arguments);
    var items := [Item("type", "signal"), Item("member", member), Item("arg0", arg0)];
    assert Printed(none).None? by { NotPrinted(none); }
    assert Items(m) == items;
    ThreeTexts(items);
    ThreeParts(member, arg0);
  }

  lemma {:induction false} NotPrinted(t: Text)
    requires t.value.None?
    ensures Printed(t).None?
  {
  }

  lemma {:induction false} PrintedWhole(s: string)
    ensures Printed(Whole(s)) == Some(s)
  {
    assert Spaces(0) + s == s;
  }

  lemma {:induction false} FirstArg()
    ensures ArgKey(0) == "arg0"
  {
    assert Decimal(0) == "0";
    assert "arg" + "0" == "arg0";
  }

  lemma {:induction false} OneArg(arguments: seq<Text>)
    requires |arguments| == 1
    ensures ArgItems(arguments, 0) == Optional(ArgKey(0), Printed(arguments[0]))
  {
    hide Printed;
    assert ArgItems(arguments, 1) == [];
  }

  lemma {:induction false} ThreeTexts(i: seq<Item>)
    requires |i| == 3
    ensures Texts(i) == ItemText(i[0]) + ItemText(i[1]) + ItemText(i[2])
  {
    hide Texts, ItemText;
    NoTexts();
    TextsSnoc([], i[0]);
    TextsSnoc([i[0]], i[1]);
    TextsSnoc([i[0], i[1]], i[2]);
    assert [] + [i[0]] == [i[0]] && [i[0]] + [i[1]] == [i[0], i[1]] && [i[0], i[1]] + [i[2]] == i;
    assert "" + ItemText(i[0]) == ItemText(i[0]);
  }

  lemma {:induction false} ThreeParts(member: string, arg0: string)
    ensures DropLast(ItemText(Item("type", "signal")) + ItemText(Item("member", member)) + ItemText(Item("arg0", arg0)))
            == "type='signal',member='" + member + "',arg0='" + arg0 + "'"
  {
    assert ItemText(Item("type", "signal")) == "type='signal',";
    assert "type='signal'," + ItemText(Item("member", member)) == "type='signal',member='" + member + "',";
    var a := "type='signal',member='" + member;
    assert a + "'," + ItemText(Item("arg0", arg0)) == a + "',arg0='" + arg0 + "'" + ",";
    var b := a + "',arg0='" + arg0 + "'";
    assert DropLast(b + ",") == b;
  }

  /** A width beyond the length of the value puts spaces in front of it. */
  lemma {:induction false} PaddedInFront(value: string, size: nat)
    ensures var p := Printed(Text(Some(value), size));
            && p.Some?
            && (size <= |value| ==> p.value == value)
            && (size > |value| ==>
                  && |p.value| == size && p.value[size - |value|..] == value
                  && forall i :: 0 <= i < size - |value| ==> p.value[i] == ' ')
  {
    assert Spaces(0) + value == value;
    assert size <= |value| ==> Spaces(size - |value|) == "";
  }
}
