/** Match rules: the text a client prints for a match and the server's parser. */
module MatchRule {
  import opened Bytes
  import opened Scan

  const METHOD: nat := 1
  const RETURN: nat := 2
  const ERROR: nat := 3
  const SIGNAL: nat := 4

  /** A C string, none for a null pointer, and its size, negative for "up to the
      NUL" */
  datatype Text = Text(value: Option<string>, size: int)

  /** The parts of adbus_Match that are printed */
  datatype Match = Match(
    kind: nat, sender: Text, iface: Text, member: Text, path: Text, destination: Text, arguments: seq<Text>)

  /** The parts of the server's struct Match that are parsed */
  datatype Rule = Rule(
    kind: nat, sender: Option<string>, iface: Option<string>, member: Option<string>, path: Option<string>,
    destination: Option<string>, arguments: seq<Option<string>>)

  const BLANK: Rule := Rule(0, None, None, None, None, None, [])

  // ---------------------------------------------------------------- printing

  function Spaces(n: int): (s: string)
    ensures |s| == if n < 0 then 0 else n
  {
    seq(if n < 0 then 0 else n, _ => ' ')
  }

  /** The conversion %*s: the size is a minimum width, so the whole string is
      printed. */
  function Padded(value: string, width: int): string {
    Spaces(width - |value|) + value
  }

  /** The text that is printed for a value, if any */
  function Printed(t: Text): Option<string> {
    if t.value.None? then None
    else Some(Padded(t.value.value, if t.size < 0 then |t.value.value| else t.size))
  }

  function TypeString(kind: nat): string {
    if kind == METHOD then "method_call"
    else if kind == RETURN then "method_return"
    else if kind == ERROR then "error"
    else if kind == SIGNAL then "signal"
    else "unknown"
  }

  /** The conversion %d */
  function Decimal(n: nat): (s: string)
    ensures |s| >= 1
  {
    var digit := [('0' as int + n % 10) as char];
    if n < 10 then digit else Decimal(n / 10) + digit
  }

  function ArgKey(i: nat): string {
    "arg" + Decimal(i)
  }

  datatype Item = Item(key: string, value: string)

  function ItemText(i: Item): string {
    i.key + "='" + i.value + "',"
  }

  function Optional(key: string, value: Option<string>): seq<Item> {
    if value.None? then [] else [Item(key, value.value)]
  }

  function ArgItems(arguments: seq<Text>, i: nat): (items: seq<Item>)
    requires i <= |arguments|
    decreases |arguments| - i
  {
    if i == |arguments| then []
    else Optional(ArgKey(i), Printed(arguments[i])) + ArgItems(arguments, i + 1)
  }

  /** The key-value pairs of a match, in the order they are printed in */
  function Items(m: Match): seq<Item> {
    (if m.kind == 0 then [] else [Item("type", TypeString(m.kind))])
    + Optional("sender", Printed(m.sender)) + Optional("interface", Printed(m.iface))
    + Optional("member", Printed(m.member)) + Optional("path", Printed(m.path))
    + Optional("destination", Printed(m.destination)) + ArgItems(m.arguments, 0)
  }

  function Texts(items: seq<Item>): string {
    if items == [] then "" else Texts(items[..|items| - 1]) + ItemText(items[|items| - 1])
  }

  function DropLast(s: string): string {
    if s == "" then "" else s[..|s| - 1]
  }

  /** adbusI_matchString on an empty string */
  function Print(m: Match): string {
    DropLast(Texts(Items(m)))
  }

  // ----------------------------------------------------------------- parsing

  predicate IsDigit(c: char) {
    '0' <= c <= '9'
  }

  /** IsArgKey: the argument number of the keys arg0 to arg63 */
  function ArgNumber(key: string): (r: Option<nat>)
    ensures r.Some? ==> r.value <= 63
  {
    if |key| < 3 || key[..3] != "arg" then None
    else if |key| == 4 && IsDigit(key[3]) then Some(key[3] as int - '0' as int)
    else if |key| == 5 && IsDigit(key[3]) && IsDigit(key[4]) then
      var n := (key[3] as int - '0' as int) * 10 + (key[4] as int - '0' as int);
      if n <= 63 then Some(n) else None
    else None
  }

  function Grown(args: seq<Option<string>>, n: nat): (r: seq<Option<string>>)
    ensures |r| == if n > |args| then n else |args|
    ensures forall i :: 0 <= i < |r| ==> r[i] == if i < |args| then args[i] else None
  {
    args + seq(if n > |args| then n - |args| else 0, _ => None)
  }

  /** What one pair does to the rule; an unknown type is an error, an unknown key is
      not. */
  function Set(r: Rule, key: string, value: string): (u: Option<Rule>)
  {
    if key == "type" then
      if value == "signal" then Some(r.(kind := SIGNAL))
      else if value == "method_call" then Some(r.(kind := METHOD))
      else if value == "method_return" then Some(r.(kind := RETURN))
      else if value == "error" then Some(r.(kind := ERROR))
      else None
    else if key == "sender" then Some(r.(sender := Some(value)))
    else if key == "interface" then Some(r.(iface := Some(value)))
    else if key == "member" then Some(r.(member := Some(value)))
    else if key == "path" then Some(r.(path := Some(value)))
    else if key == "destination" then Some(r.(destination := Some(value)))
    else match ArgNumber(key)
      case Some(n) => Some(r.(arguments := Grown(r.arguments, n + 1)[n := Some(value)]))
      case None => Some(r)
  }

  /** The pair at the start of the text and what follows it and its comma */
  function Pair(s: string): (r: Option<(Item, string)>)
    ensures r.Some? && s != [] ==> |r.value.1| < |s|
  {
    var k := Index(s, '=');
    if k + 1 >= |s| || s[k + 1] != '\'' then None
    else
      var tail := s[k + 2..];
      var q := Index(tail, '\'');
      if q == |tail| || (q + 1 != |tail| && tail[q + 1] != ',') then None
      else Some((Item(s[..k], tail[..q]), if q + 1 == |tail| then "" else tail[q + 2..]))
  }

  /** adbusI_serv_newmatch from a position on, none for an error */
  function ParseFrom(s: string, r: Rule): Option<Rule>
    decreases |s|
  {
    if s == "" then Some(r)
    else match Pair(s)
      case None => None
      case Some((item, rest)) =>
        match Set(r, item.key, item.value)
        case None => None
        case Some(r1) => ParseFrom(rest, r1)
  }

  function Parse(s: string): Option<Rule> {
    ParseFrom(s, BLANK)
  }

  // -------------------------------------------- text and pairs round trip

  /** What the pairs do to a rule, one after the other */
  function SetAll(r: Rule, items: seq<Item>): Option<Rule>
    decreases |items|
  {
    if items == [] then Some(r)
    else match Set(r, items[0].key, items[0].value)
      case None => None
      case Some(r1) => SetAll(r1, items[1..])
  }

  predicate Plain(i: Item) {
    '=' !in i.key && '\'' !in i.value
  }

  /** A printed pair is read back, with its comma or without. */
  lemma {:induction false} PairReads(i: Item, rest: string)
    requires Plain(i)
    ensures Pair(ItemText(i) + rest) == Some((i, rest))
    ensures Pair(DropLast(ItemText(i))) == Some((i, ""))
  {
    hide Pair, Plain, ItemText;
    PairParts(i, "," + rest);
    PairParts(i, "");
    ItemTextIs(i, rest);
    assert ("," + rest)[1..] == rest;
  }

  lemma {:induction false} ItemTextIs(i: Item, rest: string)
    ensures ItemText(i) + rest == i.key + "='" + i.value + "'" + ("," + rest)
    ensures DropLast(ItemText(i)) == i.key + "='" + i.value + "'" + ""
  {
  }

  lemma {:induction false} PairParts(i: Item, rest: string)
    requires Plain(i) && (rest == "" || rest[0] == ',')
    ensures Pair(i.key + "='" + i.value + "'" + rest) == Some((i, if rest == "" then "" else rest[1..]))
  {
    var s: string := i.key + "='" + i.value + "'" + rest;
    var k := |i.key|;
    assert s[..k] == i.key && s[k] == '=' && s[k + 1] == '\'';
    IndexIs(s, '=', k);
    var tail := s[k + 2..];
    assert tail == i.value + "'" + rest;
    var q := |i.value|;
    assert tail[..q] == i.value && tail[q] == '\'';
    IndexIs(tail, '\'', q);
    assert tail[q + 1..] == rest;
    if rest != "" {
      assert tail[q + 1] == rest[0];
      assert tail[q + 2..] == rest[1..];
    }
  }

  lemma {:induction false} TextsFront(items: seq<Item>)
    requires items != []
    ensures Texts(items) == ItemText(items[0]) + Texts(items[1..])
  {
    var n := |items| - 1;
    if n == 0 {
      assert items[..0] == [] && items[1..] == [];
      assert Texts(items[..0]) == "";
    } else {
      TextsFront(items[..n]);
      assert items[..n][1..] == items[1..][..n - 1];
      assert items[1..][n - 1] == items[n];
      assert items[..n][0] == items[0];
      var a, b, c := ItemText(items[0]), Texts(items[1..][..n - 1]), ItemText(items[n]);
      assert a + b + c == a + (b + c);
    }
  }

  /** Parsing the printed pairs sets them one by one. */
  lemma {:induction false} ParseTexts(r: Rule, items: seq<Item>)
    requires forall k :: 0 <= k < |items| ==> Plain(items[k])
    ensures ParseFrom(DropLast(Texts(items)), r) == SetAll(r, items)
    decreases |items|
  {
    hide Pair, Set, ItemText, Plain, Texts;
    if items == [] {
      assert Texts(items) == "" by { NoTexts(); }
    } else {
      TextsFront(items);
      ItemTextLong(items[0]);
      var rest := items[1..];
      var t, u := ItemText(items[0]), Texts(rest);
      if rest == [] {
        NoTexts();
        assert t + u == t;
        PairReads(items[0], "");
      } else {
        TextsFront(rest);
        ItemTextLong(rest[0]);
        assert u != "";
        assert DropLast(t + u) == t + DropLast(u);
        PairReads(items[0], DropLast(u));
      }
      match Set(r, items[0].key, items[0].value)
      case None =>
      case Some(r1) => ParseTexts(r1, rest);
    }
  }

  lemma {:induction false} NoTexts()
    ensures Texts([]) == ""
  {
  }

  lemma {:induction false} ItemTextLong(i: Item)
    ensures |ItemText(i)| > 1
  {
  }

  lemma {:induction false} SetAllConcat(r: Rule, a: seq<Item>, b: seq<Item>)
    ensures SetAll(r, a + b) == match SetAll(r, a) case None => None case Some(r1) => SetAll(r1, b)
    decreases |a|
  {
    hide Set;
    if a == [] {
      assert a + b == b;
    } else {
      assert (a + b)[1..] == a[1..] + b;
      match Set(r, a[0].key, a[0].value)
      case None =>
      case Some(r1) => SetAllConcat(r1, a[1..], b);
    }
  }

  // ------------------------------------------------------- argument numbers

  /** A printed argument number is understood exactly up to 63. */
  lemma {:induction false} ArgKeyNumber(i: nat)
    ensures ArgNumber(ArgKey(i)) == if i <= 63 then Some(i) else None
  {
    DecimalLength(i);
    var key := ArgKey(i);
    assert key[..3] == "arg";
    if i < 10 {
      assert Decimal(i) == [('0' as int + i) as char];
      assert key[3] == Decimal(i)[0];
    } else if i < 100 {
      assert Decimal(i) == [('0' as int + i / 10) as char, ('0' as int + i % 10) as char];
      assert key[3] == Decimal(i)[0] && key[4] == Decimal(i)[1];
    }
  }

  lemma {:induction false} DecimalLength(i: nat)
    ensures i < 10 ==> |Decimal(i)| == 1
    ensures 10 <= i < 100 ==> |Decimal(i)| == 2
    ensures i >= 100 ==> |Decimal(i)| >= 3
  {
    if i >= 10 {
      DecimalLength(i / 10);
    }
  }

  lemma {:induction false} DecimalDigits(i: nat, k: nat)
    requires k < |Decimal(i)|
    ensures IsDigit(Decimal(i)[k])
  {
    if k < |Decimal(i)| - 1 {
      DecimalDigits(i / 10, k);
    }
  }

  /** No argument key is one of the other keys, and none contains an equals
      sign. */
  lemma {:induction false} ArgKeyPlain(i: nat)
    ensures '=' !in ArgKey(i)
    ensures ArgKey(i) !in {"type", "sender", "interface", "member", "path", "destination"}
  {
    var key := ArgKey(i);
    assert key[0] == 'a' && "type"[0] == 't' && "sender"[0] == 's' && "interface"[0] == 'i';
    assert "member"[0] == 'm' && "path"[0] == 'p' && "destination"[0] == 'd';
    forall k | 0 <= k < |key|
      ensures key[k] != '='
    {
      if k >= 3 {
        DecimalDigits(i, k - 3);
      }
    }
  }

  // ------------------------------------------------------------- round trip

  /** The arguments without trailing absent ones */
  function Trim(args: seq<Option<string>>): (r: seq<Option<string>>)
    ensures |r| <= |args|
  {
    if args == [] || args[|args| - 1].Some? then args else Trim(args[..|args| - 1])
  }

  function PrintedArgs(arguments: seq<Text>): (r: seq<Option<string>>)
    ensures |r| == |arguments|
  {
    seq(|arguments|, i requires 0 <= i < |arguments| => Printed(arguments[i]))
  }

  /** The rule that a match means: its type, its values as printed, and those of
      its first 64 arguments, as far as there are any */
  function Meaning(m: Match): Rule {
    var args := PrintedArgs(m.arguments);
    Rule(m.kind, Printed(m.sender), Printed(m.iface), Printed(m.member), Printed(m.path), Printed(m.destination),
         Trim(if |args| > 64 then args[..64] else args))
  }

  predicate NoQuote(t: Text) {
    t.value.Some? ==> '\'' !in t.value.value
  }

  predicate Quotable(m: Match) {
    && NoQuote(m.sender) && NoQuote(m.iface) && NoQuote(m.member) && NoQuote(m.path) && NoQuote(m.destination)
    && forall i :: 0 <= i < |m.arguments| ==> NoQuote(m.arguments[i])
  }

  lemma {:induction false} TrimFacts(args: seq<Option<string>>)
    ensures Trim(args) == args[..|Trim(args)|]
    ensures forall k :: |Trim(args)| <= k < |args| ==> args[k].None?
    ensures Trim(args) != [] ==> Trim(args)[|Trim(args)| - 1].Some?
  {
    if args != [] && args[|args| - 1].None? {
      TrimFacts(args[..|args| - 1]);
      assert forall k :: 0 <= k < |args| - 1 ==> args[k] == args[..|args| - 1][k];
    }
  }

  /** What is known of the arguments after the i-th */
  function Known(args: seq<Option<string>>, i: nat): seq<Option<string>>
    requires i <= |args|
  {
    Trim(args[..if i > 64 then 64 else i])
  }

  lemma {:induction false} KnownNext(args: seq<Option<string>>, i: nat)
    requires i < |args|
    ensures i > 63 || args[i].None? ==> Known(args, i + 1) == Known(args, i)
    ensures i <= 63 && args[i].Some? ==> Known(args, i + 1) == Grown(Known(args, i), i + 1)[i := args[i]]
  {
    if i <= 63 {
      assert args[..i + 1][..i] == args[..i];
      TrimFacts(args[..i]);
      if args[i].Some? {
        var t := Known(args, i);
        var g := Grown(t, i + 1)[i := args[i]];
        assert Known(args, i + 1) == args[..i + 1];
        forall k | 0 <= k < i + 1
          ensures g[k] == args[..i + 1][k]
        {
          if k < i && k >= |t| {
            assert args[..i][k].None?;
          }
        }
      }
    }
  }

  lemma {:induction false} SetOne(r: Rule, item: Item)
    ensures SetAll(r, [item]) == Set(r, item.key, item.value)
    ensures SetAll(r, []) == Some(r)
  {
    hide Set;
    assert [item][1..] == [];
  }

  lemma {:induction false} SetArg(r: Rule, i: nat, value: string)
    ensures Set(r, ArgKey(i), value)
            == Some(if i <= 63 then r.(arguments := Grown(r.arguments, i + 1)[i := Some(value)]) else r)
  {
    hide ArgKey, ArgNumber;
    ArgKeyNumber(i);
    ArgKeyPlain(i);
  }

  lemma {:induction false} SetArgs(r: Rule, arguments: seq<Text>, i: nat)
    requires i <= |arguments| && r.arguments == Known(PrintedArgs(arguments), i)
    ensures SetAll(r, ArgItems(arguments, i))
            == Some(r.(arguments := Known(PrintedArgs(arguments), |arguments|)))
    decreases |arguments| - i
  {
    hide Set, ArgKey, Known, Grown, Printed, SetAll;
    var args := PrintedArgs(arguments);
    if i == |arguments| {
      SetOne(r, Item("", ""));
    } else {
      var v := Printed(arguments[i]);
      assert args[i] == v;
      KnownNext(args, i);
      SetAllConcat(r, Optional(ArgKey(i), v), ArgItems(arguments, i + 1));
      SetOne(r, Item(ArgKey(i), if v.Some? then v.value else ""));
      if v.Some? {
        SetArg(r, i, v.value);
      }
      var r1 := r.(arguments := Known(args, i + 1));
      assert SetAll(r, Optional(ArgKey(i), v)) == Some(r1);
      SetArgs(r1, arguments, i + 1);
    }
  }

  /** The pairs before the arguments */
  function Head(m: Match): seq<Item> {
    (if m.kind == 0 then [] else [Item("type", TypeString(m.kind))])
    + Optional("sender", Printed(m.sender)) + Optional("interface", Printed(m.iface))
    + Optional("member", Printed(m.member)) + Optional("path", Printed(m.path))
    + Optional("destination", Printed(m.destination))
  }

  /** The rule without its arguments */
  function HeadRule(m: Match): Rule {
    Rule(m.kind, Printed(m.sender), Printed(m.iface), Printed(m.member), Printed(m.path), Printed(m.destination), [])
  }

  lemma {:induction false} KeysDiffer()
    ensures "type" != "sender" && "type" != "interface" && "type" != "member" && "type" != "path" && "type" != "destination"
    ensures "sender" != "interface" && "sender" != "member" && "sender" != "path" && "sender" != "destination"
    ensures "interface" != "member" && "interface" != "path" && "interface" != "destination"
    ensures "member" != "path" && "member" != "destination" && "path" != "destination"
  {
    assert "type"[0] == 't' && "sender"[0] == 's' && "interface"[0] == 'i';
    assert "member"[0] == 'm' && "path"[0] == 'p' && "destination"[0] == 'd';
  }

  lemma {:induction false} SetType(r: Rule, kind: nat)
    requires kind > 0
    ensures Set(r, "type", TypeString(kind)) == if kind <= 4 then Some(r.(kind := kind)) else None
  {
    assert "signal"[0] == 's' && "unknown"[0] == 'u' && "error"[0] == 'e' && "method_call"[0] == 'm';
    assert "method_call"[7] == 'c' && "method_return"[7] == 'r';
  }

  lemma {:induction false} SetOptional(r: Rule, key: string, v: Option<string>)
    ensures SetAll(r, Optional(key, v)) == if v.None? then Some(r) else Set(r, key, v.value)
  {
    hide Set, SetAll;
    SetOne(r, Item(key, if v.Some? then v.value else ""));
  }

  lemma {:induction false} SetHead(m: Match)
    ensures SetAll(BLANK, Head(m)) == if m.kind <= 4 then Some(HeadRule(m)) else None
  {
    hide Printed, TypeString, SetAll, Optional, ArgNumber;
    KeysDiffer();
    var t := if m.kind == 0 then [] else [Item("type", TypeString(m.kind))];
    var a, b, c, d, e :=
      Optional("sender", Printed(m.sender)), Optional("interface", Printed(m.iface)),
      Optional("member", Printed(m.member)), Optional("path", Printed(m.path)),
      Optional("destination", Printed(m.destination));
    SetOne(BLANK, Item("type", TypeString(m.kind)));
    if m.kind > 0 {
      SetType(BLANK, m.kind);
    }
    SetAllConcat(BLANK, t + a + b + c + d, e);
    SetAllConcat(BLANK, t + a + b + c, d);
    SetAllConcat(BLANK, t + a + b, c);
    SetAllConcat(BLANK, t + a, b);
    SetAllConcat(BLANK, t, a);
    if m.kind <= 4 {
      var r0 := BLANK.(kind := m.kind);
      SetOptional(r0, "sender", Printed(m.sender));
      var r1 := r0.(sender := Printed(m.sender));
      SetOptional(r1, "interface", Printed(m.iface));
      var r2 := r1.(iface := Printed(m.iface));
      SetOptional(r2, "member", Printed(m.member));
      var r3 := r2.(member := Printed(m.member));
      SetOptional(r3, "path", Printed(m.path));
      var r4 := r3.(path := Printed(m.path));
      SetOptional(r4, "destination", Printed(m.destination));
    }
  }

  lemma {:induction false} SetItems(m: Match)
    ensures SetAll(BLANK, Items(m)) == if m.kind <= 4 then Some(Meaning(m)) else None
  {
    hide SetAll, Head, Set, Optional, ArgItems, Trim, Printed;
    var args := PrintedArgs(m.arguments);
    assert Items(m) == Head(m) + ArgItems(m.arguments, 0) by { ItemsParts(m); }
    SetAllConcat(BLANK, Head(m), ArgItems(m.arguments, 0));
    SetHead(m);
    if m.kind <= 4 {
      assert Known(args, 0) == [] by { NothingKnown(args); }
      SetArgs(HeadRule(m), m.arguments, 0);
      assert Known(args, |args|) == Trim(if |args| > 64 then args[..64] else args) by {
        assert args[..|args|] == args;
      }
    }
  }

  lemma {:induction false} NothingKnown(args: seq<Option<string>>)
    ensures Known(args, 0) == []
  {
  }

  lemma {:induction false} ItemsParts(m: Match)
    ensures Items(m) == Head(m) + ArgItems(m.arguments, 0)
  {
  }

  lemma {:induction false} PrintedPlain(t: Text)
    requires NoQuote(t) && t.value.Some?
    ensures '\'' !in Printed(t).value
  {
    var p := Printed(t).value;
    var w := if t.size < 0 then |t.value.value| else t.size;
    forall k | 0 <= k < |p|
      ensures p[k] != '\''
    {
      if k >= |Spaces(w - |t.value.value|)| {
        assert p[k] in t.value.value;
      }
    }
  }

  lemma {:induction false} ArgsPlain(arguments: seq<Text>, i: nat)
    requires i <= |arguments| && forall k :: 0 <= k < |arguments| ==> NoQuote(arguments[k])
    ensures forall k :: 0 <= k < |ArgItems(arguments, i)| ==> Plain(ArgItems(arguments, i)[k])
    decreases |arguments| - i
  {
    hide ArgKey, Printed, NoQuote;
    if i < |arguments| {
      ArgsPlain(arguments, i + 1);
      ArgKeyPlain(i);
      if Printed(arguments[i]).Some? {
        PrintedIff(arguments[i]);
        PrintedPlain(arguments[i]);
      }
    }
  }

  lemma {:induction false} PrintedIff(t: Text)
    ensures Printed(t).Some? <==> t.value.Some?
  {
  }

  lemma {:induction false} OptionalPlain(key: string, t: Text)
    requires NoQuote(t) && '=' !in key
    ensures forall k :: 0 <= k < |Optional(key, Printed(t))| ==> Plain(Optional(key, Printed(t))[k])
  {
    if t.value.Some? {
      PrintedPlain(t);
    }
  }

  lemma {:induction false} ItemsPlain(m: Match)
    requires Quotable(m)
    ensures forall k :: 0 <= k < |Items(m)| ==> Plain(Items(m)[k])
  {
    hide Printed, NoQuote, Optional, ArgItems;
    OptionalPlain("sender", m.sender);
    OptionalPlain("interface", m.iface);
    OptionalPlain("member", m.member);
    OptionalPlain("path", m.path);
    OptionalPlain("destination", m.destination);
    ArgsPlain(m.arguments, 0);
  }

  /** The server understands the text of a match as the match's meaning, or rejects
      it when the type has no name. */
  lemma {:induction false} RoundTrip(m: Match)
    requires Quotable(m)
    ensures Parse(Print(m)) == if m.kind <= SIGNAL then Some(Meaning(m)) else None
  {
    hide Items, Texts, SetAll, ParseFrom, DropLast, Meaning, Plain;
    ItemsPlain(m);
    ParseTexts(BLANK, Items(m));
    SetItems(m);
  }

  /** The size lies within the string. */
  predicate Sized(t: Text) {
    t.value.Some? ==> t.size <= |t.value.value|
  }

  /** What the caller of a match means by a value: its first `size` characters */
  function Meant(t: Text): Option<string>
    requires Sized(t)
  {
    if t.value.None? then None
    else Some(if t.size < 0 then t.value.value else t.value.value[..t.size])
  }

  /** The size is that of the whole string, or says that it is. */
  predicate Exact(t: Text) {
    t.value.None? || t.size < 0 || t.size == |t.value.value|
  }

  /** The printed value is the value meant exactly when its size is that of the
      whole string, because %*s does not cut a string off. */
  lemma {:induction false} PrintedAsMeantIff(t: Text)
    requires Sized(t)
    ensures Printed(t) == Meant(t) <==> Exact(t)
  {
    if t.value.Some? {
      var v := t.value.value;
      assert Spaces(0) + v == v;
      assert v[..|v|] == v;
      if 0 <= t.size {
        assert |Printed(t).value| == |v|;
      }
    }
  }

  predicate AllSized(m: Match) {
    && Sized(m.sender) && Sized(m.iface) && Sized(m.member) && Sized(m.path) && Sized(m.destination)
    && forall i :: 0 <= i < |m.arguments| ==> Sized(m.arguments[i])
  }

  function MeantArgs(arguments: seq<Text>): (r: seq<Option<string>>)
    requires forall i :: 0 <= i < |arguments| ==> Sized(arguments[i])
    ensures |r| == |arguments|
  {
    seq(|arguments|, i requires 0 <= i < |arguments| && Sized(arguments[i]) => Meant(arguments[i]))
  }

  /** The rule that the caller means by a match */
  function MeantRule(m: Match): Rule
    requires AllSized(m)
  {
    Rule(m.kind, Meant(m.sender), Meant(m.iface), Meant(m.member), Meant(m.path), Meant(m.destination),
         Trim(MeantArgs(m.arguments)))
  }

  /** Every size is that of its string, and nothing is asked of an argument behind
      the 64th. */
  predicate Faithful(m: Match) {
    && Exact(m.sender) && Exact(m.iface) && Exact(m.member) && Exact(m.path) && Exact(m.destination)
    && forall i :: 0 <= i < |m.arguments| ==>
         if i < 64 then Exact(m.arguments[i]) else m.arguments[i].value.None?
  }

  lemma {:induction false} TrimUnique(x: seq<Option<string>>, n: nat)
    requires n <= |x| && (n > 0 ==> x[n - 1].Some?) && forall k :: n <= k < |x| ==> x[k].None?
    ensures Trim(x) == x[..n]
  {
    if n < |x| {
      TrimUnique(x[..|x| - 1], n);
      assert x[..|x| - 1][..n] == x[..n];
    } else {
      assert x[..n] == x;
    }
  }

  /** Two lists of arguments are the same up to trailing absent ones. */
  lemma {:induction false} TrimPrefix(a: seq<Option<string>>, b: seq<Option<string>>)
    requires |a| <= |b|
    ensures Trim(a) == Trim(b) <==> a == b[..|a|] && forall k :: |a| <= k < |b| ==> b[k].None?
  {
    TrimFacts(a);
    TrimFacts(b);
    if a == b[..|a|] && forall k :: |a| <= k < |b| ==> b[k].None? {
      var n := |Trim(a)|;
      assert forall k :: 0 <= k < |a| ==> a[k] == b[k];
      TrimUnique(b, n);
      assert b[..n] == a[..n];
    }
    if Trim(a) == Trim(b) {
      var t := Trim(a);
      forall k | 0 <= k < |a|
        ensures a[k] == b[k]
      {
        assert k < |t| ==> a[..|t|][k] == a[k] && b[..|t|][k] == b[k];
      }
    }
  }

  lemma {:induction false} ArgsAsMeantIff(arguments: seq<Text>)
    requires forall i :: 0 <= i < |arguments| ==> Sized(arguments[i])
    ensures var p := PrintedArgs(arguments);
            Trim(if |p| > 64 then p[..64] else p) == Trim(MeantArgs(arguments)) <==>
              forall i :: 0 <= i < |arguments| ==> if i < 64 then Exact(arguments[i]) else arguments[i].value.None?
  {
    hide Printed, Meant, Exact, Trim;
    var p, m := PrintedArgs(arguments), MeantArgs(arguments);
    var a := if |p| > 64 then p[..64] else p;
    TrimPrefix(a, m);
    forall i | 0 <= i < |arguments|
      ensures p[i] == m[i] <==> Exact(arguments[i])
      ensures m[i].None? <==> arguments[i].value.None?
    {
      PrintedAsMeantIff(arguments[i]);
      MeantIff(arguments[i]);
    }
    assert forall i :: 0 <= i < |a| ==> a[i] == p[i];
    assert forall i :: 0 <= i < |a| ==> m[..|a|][i] == m[i];
  }

  lemma {:induction false} MeantIff(t: Text)
    requires Sized(t)
    ensures Meant(t).None? <==> t.value.None?
  {
  }

  /** The server understands the printed rule as what the caller means if and only
      if the type has a name, every size is that of its string, and no argument is
      set behind the 64th. */
  lemma {:induction false} UnderstoodAsMeantIff(m: Match)
    requires Quotable(m) && AllSized(m)
    ensures Parse(Print(m)) == Some(MeantRule(m)) <==> m.kind <= SIGNAL && Faithful(m)
  {
    hide Parse, Print, Printed, Meant, Exact, Sized, Trim, NoQuote, PrintedArgs, MeantArgs;
    RoundTrip(m);
    PrintedAsMeantIff(m.sender);
    PrintedAsMeantIff(m.iface);
    PrintedAsMeantIff(m.member);
    PrintedAsMeantIff(m.path);
    PrintedAsMeantIff(m.destination);
    ArgsAsMeantIff(m.arguments);
  }

  /** A match for the signal whose name is the first four characters of "Hello" */
  const CUT: Match :=
    Match(SIGNAL, Text(None, 0), Text(None, 0), Text(Some("Hello"), 4), Text(None, 0), Text(None, 0), [])

  /** The server understands it as a match for "Hello". */
  lemma {:induction false} CutNotUnderstood()
    ensures Quotable(CUT) && AllSized(CUT) && Parse(Print(CUT)) != Some(MeantRule(CUT))
  {
    hide Parse, Print;
    assert NoQuote(CUT.member) by { assert "Hello"[0] == 'H' && '\'' !in "Hello"; }
    assert Sized(CUT.member) && !Exact(CUT.member);
    UnderstoodAsMeantIff(CUT);
  }

  // ------------------------------------------------- the source's procedures

  lemma {:induction false} TextsSnoc(items: seq<Item>, i: Item)
    ensures Texts(items + [i]) == Texts(items) + ItemText(i)
  {
    assert (items + [i])[..|items|] == items;
  }

  /** One call of Append */
  method Append(s: string, key: string, t: Text, ghost items: seq<Item>) returns (r: string)
    requires s == Texts(items)
    ensures r == Texts(items + Optional(key, Printed(t)))
  {
    hide Texts, ItemText;
    r := s;
    if t.value.Some? {
      var vsize := t.size;
      if vsize < 0 {
        vsize := |t.value.value|;
      }
      var value := Padded(t.value.value, vsize);
      TextsSnoc(items, Item(key, value));
      ItemTextParts(Item(key, value));
      r := r + (key + "='" + value + "',");
    } else {
      assert items + Optional(key, Printed(t)) == items;
    }
  }

  lemma {:induction false} ItemTextParts(i: Item)
    ensures ItemText(i) == i.key + "='" + i.value + "',"
  {
  }

  /** adbusI_matchString: what the server understands of the text is the meaning of
      the match. */
  method MatchString(m: Match) returns (s: string)
    ensures s == Print(m)
    ensures Quotable(m) ==> Parse(s) == if m.kind <= SIGNAL then Some(Meaning(m)) else None
  {
    hide Texts, Optional, ArgItems, Printed, Quotable, Meaning, Parse, ItemText;
    s := "";
    ghost var items: seq<Item> := [];
    assert s == Texts(items) by { NoTexts(); }
    if m.kind != 0 {
      var i := Item("type", TypeString(m.kind));
      TextsSnoc(items, i);
      ItemTextParts(i);
      s := s + ("type" + "='" + TypeString(m.kind) + "',");
      items := items + [i];
    }
    s := Append(s, "sender", m.sender, items);
    items := items + Optional("sender", Printed(m.sender));
    s := Append(s, "interface", m.iface, items);
    items := items + Optional("interface", Printed(m.iface));
    s := Append(s, "member", m.member, items);
    items := items + Optional("member", Printed(m.member));
    s := Append(s, "path", m.path, items);
    items := items + Optional("path", Printed(m.path));
    s := Append(s, "destination", m.destination, items);
    items := items + Optional("destination", Printed(m.destination));
    s := AppendArguments(s, m, items);
    if |s| > 0 {
      s := s[..|s| - 1];
    }
    if Quotable(m) {
      RoundTrip(m);
    }
  }

  method AppendArguments(start: string, m: Match, ghost items: seq<Item>) returns (s: string)
    requires start == Texts(items) && items == Head(m)
    ensures s == Texts(Items(m))
  {
    hide Texts, Optional, Printed, ArgKey, Head, ArgItems;
    s := start;
    ghost var done := items;
    ItemsParts(m);
    for i := 0 to |m.arguments|
      invariant s == Texts(done) && Items(m) == done + ArgItems(m.arguments, i)
    {
      s := Append(s, ArgKey(i), m.arguments[i], done);
      ArgItemsStep(m.arguments, i);
      done := done + Optional(ArgKey(i), Printed(m.arguments[i]));
    }
    ArgItemsStep(m.arguments, |m.arguments|);
    assert Items(m) == done;
  }

  lemma {:induction false} ArgItemsStep(arguments: seq<Text>, i: nat)
    requires i <= |arguments|
    ensures i == |arguments| ==> ArgItems(arguments, i) == []
    ensures i < |arguments| ==>
              ArgItems(arguments, i) == Optional(ArgKey(i), Printed(arguments[i])) + ArgItems(arguments, i + 1)
  {
  }

  /** memchr from a position on: the position found, or the length */
  function Find(s: string, c: char, from: nat): nat
    requires from <= |s|
  {
    from + Index(s[from..], c)
  }

  /** adbusI_serv_newmatch: ends on every input, and with the parse of the text. */
  method NewMatch(mstr: string) returns (r: Option<Rule>)
    ensures r == Parse(mstr)
  {
    hide Set, Pair, ParseFrom;
    var m := BLANK;
    var line := 0;
    assert mstr[0..] == mstr;
    while line < |mstr|
      invariant 0 <= line <= |mstr| + 1
      invariant Parse(mstr) == ParseFrom(if line < |mstr| then mstr[line..] else "", m)
    {
      ParseStep(mstr[line..], m);
      PairAt(mstr, line);
      var keye := Find(mstr, '=', line);
      if keye == |mstr| || keye + 1 >= |mstr| || mstr[keye + 1] != '\'' {
        return None;
      }
      var vale := Find(mstr, '\'', keye + 2);
      if vale == |mstr| || (vale + 1 != |mstr| && mstr[vale + 1] != ',') {
        return None;
      }
      var next := Set(m, mstr[line..keye], mstr[keye + 2..vale]);
      if next.None? {
        return None;
      }
      m := next.value;
      line := vale + 2;
    }
    EndOfText(m);
    return Some(m);
  }

  lemma {:induction false} EndOfText(r: Rule)
    ensures ParseFrom("", r) == Some(r)
  {
  }

  lemma {:induction false} ParseStep(s: string, r: Rule)
    requires s != ""
    ensures Pair(s).None? ==> ParseFrom(s, r).None?
    ensures Pair(s).Some? ==>
              var (item, rest) := Pair(s).value;
              ParseFrom(s, r) == match Set(r, item.key, item.value) case None => None case Some(u) => ParseFrom(rest, u)
  {
    hide Set, Pair;
  }

  /** The scan for a pair, by positions in the whole text */
  lemma {:induction false} PairAt(s: string, line: nat)
    requires line < |s|
    ensures var keye := Find(s, '=', line);
            && line <= keye <= |s|
            && (keye + 1 >= |s| || s[keye + 1] != '\'' ==> Pair(s[line..]).None?)
            && (keye + 1 < |s| && s[keye + 1] == '\'' ==>
                  && keye + 2 <= |s|
                  && var vale := Find(s, '\'', keye + 2);
                  && keye + 2 <= vale <= |s|
                  && (vale == |s| || (vale + 1 != |s| && s[vale + 1] != ',') ==> Pair(s[line..]).None?)
                  && (vale < |s| && (vale + 1 == |s| || s[vale + 1] == ',') ==>
                        Pair(s[line..]) == Some((Item(s[line..keye], s[keye + 2..vale]),
                                                 if vale + 2 < |s| then s[vale + 2..] else ""))))
  {
    hide Index, Find;
    FindAt(s, '=', line);
    var keye := Find(s, '=', line);
    if keye + 1 < |s| && s[keye + 1] == '\'' {
      FindAt(s, '\'', keye + 2);
    }
  }

  /** A character found from a position on, and the text around it */
  lemma {:induction false} FindAt(s: string, c: char, n: nat)
    requires n <= |s|
    ensures var (e, t) := (Find(s, c, n), s[n..]);
            var k := Index(t, c);
            && e == n + k <= |s| && t[..k] == s[n..e]
            && (e + 1 < |s| ==> t[k + 1] == s[e + 1])
            && (e + 2 <= |s| ==> t[k + 2..] == s[e + 2..])
  {
    hide Index;
  }
}
