/** The SASL exchange that precedes the message stream: the line automata of the
    client and of the server, and the hexadecimal arguments of their lines. A
    string stands for a sequence of bytes. */
module Auth {
  import opened Bytes
  import opened Sequences
  import opened Sha1
  import opened Scan

  // ------------------------------------------------------------ hexadecimal

  predicate IsBytes(s: string) {
    forall i :: 0 <= i < |s| ==> s[i] as int < 256
  }

  function HexDigit(n: nat): (c: char)
    requires n < 16
    ensures HexValue(c) == Some(n) && c != ' ' && c != '\r' && c != '\n'
  {
    if n < 10 then ('0' as int + n) as char else ('a' as int + n - 10) as char
  }

  function HexValue(c: char): (r: Option<nat>)
    ensures r.Some? ==> r.value < 16
  {
    if '0' <= c <= '9' then Some(c as int - '0' as int)
    else if 'a' <= c <= 'f' then Some(c as int - 'a' as int + 10)
    else if 'A' <= c <= 'F' then Some(c as int - 'A' as int + 10)
    else None
  }

  function HexEncode(s: string): (r: string)
    ensures |r| == 2 * |s|
  {
    if s == [] then []
    else [HexDigit(s[0] as int / 16 % 16), HexDigit(s[0] as int % 16)] + HexEncode(s[1..])
  }

  /** The bytes that pairs of digits spell, up to the first bad pair */
  function DecodePairs(s: string): (r: string)
  {
    if |s| < 2 || HexValue(s[0]).None? || HexValue(s[1]).None? then []
    else [(16 * HexValue(s[0]).value + HexValue(s[1]).value) as char] + DecodePairs(s[2..])
  }

  function HexDecode(s: string): (r: string)
  {
    if |s| % 2 != 0 then [] else DecodePairs(s)
  }

  lemma {:induction false} HexRoundTrip(s: string)
    requires IsBytes(s)
    ensures HexDecode(HexEncode(s)) == s
  {
    if s != [] {
      HexRoundTrip(s[1..]);
      assert HexEncode(s)[2..] == HexEncode(s[1..]);
    }
  }

  /** Encoded text has none of the characters that structure a line. */
  lemma {:induction false} HexPlain(s: string)
    ensures forall i :: 0 <= i < |HexEncode(s)| ==>
              HexEncode(s)[i] != ' ' && HexEncode(s)[i] != '\r' && HexEncode(s)[i] != '\n'
  {
    if s != [] {
      HexPlain(s[1..]);
    }
  }

  /** HexEncode */
  method EncodeHex(data: string) returns (out: string)
    ensures out == HexEncode(data)
  {
    hide HexEncode;
    out := [];
    assert data[0..] == data;
    for i := 0 to |data|
      invariant HexEncode(data) == out + HexEncode(data[i..])
    {
      var hi := data[i] as int / 16 % 16;
      var lo := data[i] as int % 16;
      EncodeAt(data, i);
      out := out + [if hi < 10 then (hi + '0' as int) as char else (hi + 'a' as int - 10) as char];
      out := out + [if lo < 10 then (lo + '0' as int) as char else (lo + 'a' as int - 10) as char];
    }
    EncodeEnd(data);
  }

  lemma {:induction false} EncodeAt(s: string, i: nat)
    requires i < |s|
    ensures HexEncode(s[i..]) == [HexDigit(s[i] as int / 16 % 16), HexDigit(s[i] as int % 16)] + HexEncode(s[i + 1..])
  {
    hide HexDigit;
    assert s[i..][1..] == s[i + 1..];
  }

  lemma {:induction false} EncodeEnd(s: string)
    ensures HexEncode(s[|s|..]) == []
  {
  }

  /** HexDecode */
  method DecodeHex(str: string) returns (out: string)
    ensures out == HexDecode(str)
  {
    hide PairsFrom, HexValue, DecodePairs;
    out := [];
    if |str| % 2 != 0 {
      return;
    }
    PairsEnds(str);
    for i := 0 to |str| / 2
      invariant HexDecode(str) == out + PairsFrom(str, i)
    {
      var hi, lo := HexValue(str[2 * i]), HexValue(str[2 * i + 1]);
      DecodeAt(str, i);
      if hi.None? {
        return;
      }
      if lo.None? {
        return;
      }
      out := out + [(16 * hi.value + lo.value) as char];
    }
  }

  /** What the pairs from the i-th on decode to */
  function PairsFrom(s: string, i: nat): string
    requires 2 * i <= |s|
  {
    DecodePairs(s[2 * i..])
  }

  lemma {:induction false} PairsEnds(s: string)
    requires |s| % 2 == 0
    ensures HexDecode(s) == PairsFrom(s, 0) && PairsFrom(s, |s| / 2) == []
  {
    assert s[2 * 0..] == s;
  }

  lemma {:induction false} DecodeAt(s: string, i: nat)
    requires 2 * i + 2 <= |s|
    ensures HexValue(s[2 * i]).None? || HexValue(s[2 * i + 1]).None? ==> PairsFrom(s, i) == []
    ensures HexValue(s[2 * i]).Some? && HexValue(s[2 * i + 1]).Some? ==>
              PairsFrom(s, i) == [(16 * HexValue(s[2 * i]).value + HexValue(s[2 * i + 1]).value) as char] + PairsFrom(s, i + 1)
  {
    hide HexValue;
    assert s[2 * i..][2..] == s[2 * (i + 1)..];
  }

  // ------------------------------------------------------------------- lines

  /** The text as a C function sees it: up to the first NUL */
  function CString(s: string): string {
    s[..Index(s, '\0')]
  }

  /** A line that adbus_auth_line can be given: it looks at the byte before a line
      feed. */
  predicate IsLine(line: string) {
    line != [] && line != "\n"
  }

  /** The line without the line feed and the carriage return */
  function Strip(line: string): string
    requires IsLine(line)
  {
    var l := if line[|line| - 1] == '\n' then line[..|line| - 1] else line;
    if l[|l| - 1] == '\r' then l[..|l| - 1] else l
  }

  function Command(l: string): string {
    l[..Index(l, ' ')]
  }

  /** The text after the first space */
  function Rest(l: string): (r: Option<string>)
    ensures r.Some? ==> |r.value| < |l|
  {
    var k := Index(l, ' ');
    if k < |l| then Some(l[k + 1..]) else None
  }

  // -------------------------------------------------------------- the automata

  datatype Mechanism = NotTried | NotSupported | Begin

  /** struct adbus_Auth; `onData` says whether a cookie challenge is expected. */
  datatype State = State(
    server: bool, cookie: Mechanism, external: Mechanism, onData: bool, id: string, okCmd: string, okSent: bool)

  /** What the application and the system supply: the external callback if there is
      one, whether a line can be sent, the cookie of a keyring and an id, and the
      random bytes of a challenge */
  datatype Env = Env(
    externalcb: Option<string -> bool>, sends: string -> bool,
    cookie: (string, string) -> Option<string>, random: string)

  predicate Accepts(env: Env, id: string) {
    env.externalcb.None? || env.externalcb.value(CString(id))
  }

  /** The outcome of one line: 1 on success, 0 on continue, -1 on error */
  datatype Turn = Turn(a: State, ret: int, sent: seq<string>)

  const REJECTED := "REJECTED EXTERNAL\r\n"
  const ERROR := "ERROR\r\n"
  const BEGIN := "BEGIN\r\n"

  /** adbus_sauth_new, adbus_sauth_external */
  const SERVER: State := State(true, NotTried, NotTried, false, "", "OK 1234deadbeef\r\n", false)

  /** adbus_cauth_new, adbus_cauth_external */
  function Client(id: string): State {
    State(false, NotTried, NotTried, false, id, "", false)
  }

  function Send(env: Env, a: State, line: string): Turn {
    Turn(a, if env.sends(line) then 0 else -1, [line])
  }

  function ServerReset(env: Env, a: State): Turn {
    Send(env, a.(okSent := false), REJECTED)
  }

  function ServerOk(env: Env, a: State): Turn {
    Send(env, a.(okSent := true), a.okCmd)
  }

  function ServerAuth(env: Env, a: State, mech: string, data: string): Turn {
    var a1 := a.(id := data);
    if a1.external == NotTried && mech == "EXTERNAL" then
      var a2 := a1.(external := Begin);
      if Accepts(env, a2.id) then ServerOk(env, a2) else ServerReset(env, a2)
    else ServerReset(env, a1)
  }

  function ClientReset(env: Env, a: State): Turn {
    if a.external == NotTried then
      Send(env, a.(onData := false, external := Begin), "AUTH EXTERNAL " + HexEncode(a.id) + "\r\n")
    else if a.cookie == NotTried then
      Send(env, a.(onData := true, cookie := Begin), "AUTH DBUS_COOKIE_SHA1 " + HexEncode(a.id) + "\r\n")
    else Turn(a, -1, [])
  }

  function ToBytes(s: string): seq<Byte> {
    seq(|s|, i requires 0 <= i < |s| => s[i] as int % 256)
  }

  function FromBytes(b: seq<Byte>): string {
    seq(|b|, i requires 0 <= i < |b| => (b[i] as int) as char)
  }

  /** The answer to a challenge: the client's own challenge, and the hash of both
      with the cookie */
  function CookieAnswer(challenge: string, own: string, cookie: string): string {
    HexEncode(own) + " " + HexEncode(FromBytes(SHA1(ToBytes(challenge + ":" + HexEncode(own) + ":" + cookie))))
  }

  /** ClientCookie: the challenge names a keyring, an id in it, and the server's
      part. */
  function ClientCookie(env: Env, a: State, data: string): Turn {
    var d := CString(data);
    match Rest(d)
    case None => Turn(a, -1, [])
    case Some(r) =>
      match Rest(r)
      case None => Turn(a, -1, [])
      case Some(challenge) =>
        match env.cookie(Command(d), Command(r))
        case None => Turn(a, -1, [])
        case Some(cookie) =>
          Send(env, a, "DATA " + HexEncode(CookieAnswer(challenge, env.random, cookie)) + "\r\n")
  }

  /** adbus_auth_line */
  function Line(env: Env, a: State, line: string): (t: Turn)
    requires IsLine(line)
  {
    var l := Strip(line);
    var cmd, rest := Command(l), Rest(l);
    if a.server && rest.Some? && cmd == "AUTH" then
      (match Rest(rest.value)
       case Some(arg) => ServerAuth(env, a, Command(rest.value), HexDecode(arg))
       case None => Turn(a, 0, [ERROR]))
    else if a.onData && cmd == "DATA" then
      ClientCookie(env, a, if rest.Some? then HexDecode(rest.value) else "")
    else if a.server && cmd == "CANCEL" then ServerReset(env, a)
    else if a.server && a.okSent && cmd == "BEGIN" then Turn(a, 1, [])
    else if !a.server && cmd == "OK" then Turn(a, 1, [BEGIN])
    else if !a.server && cmd == "REJECTED" then ClientReset(env, a)
    else if cmd == "ERROR" then Turn(a, -1, [])
    else Turn(a, 0, [ERROR])
  }

  // ------------------------------------------------------------ server safety

  /** The lines up to the first that ends the exchange */
  function Lines(env: Env, a: State, lines: seq<string>): (t: Turn)
    requires forall i :: 0 <= i < |lines| ==> IsLine(lines[i])
    decreases |lines|
  {
    if lines == [] then Turn(a, 0, [])
    else
      var t := Line(env, a, lines[0]);
      if t.ret != 0 then t
      else
        var u := Lines(env, t.a, lines[1..]);
        Turn(u.a, u.ret, t.sent + u.sent)
  }

  /** An OK that stands is for the identity that is stored. */
  predicate ServerInv(env: Env, a: State) {
    a.server && !a.onData && (a.okSent ==> a.external == Begin && Accepts(env, a.id))
  }

  lemma {:induction false} ServerLineKeeps(env: Env, a: State, line: string)
    requires ServerInv(env, a) && IsLine(line)
    ensures ServerInv(env, Line(env, a, line).a)
    ensures Line(env, a, line).ret == 1 <==> a.okSent && Command(Strip(line)) == "BEGIN"
    ensures Line(env, a, line).ret == 1 ==> Line(env, a, line).a == a
    ensures a.external != NotTried ==> Line(env, a, line).a.external == a.external
    ensures a.external != NotTried && !a.okSent ==> !Line(env, a, line).a.okSent
  {
    hide HexDecode, Strip, Command, Rest, Accepts, ClientCookie, ClientReset;
  }

  /** On any lines the server succeeds only for an identity that the callback
      accepted, or any identity when there is no callback. */
  lemma {:induction false} ServerSafe(env: Env, a: State, lines: seq<string>)
    requires ServerInv(env, a) && forall i :: 0 <= i < |lines| ==> IsLine(lines[i])
    ensures ServerInv(env, Lines(env, a, lines).a)
    ensures Lines(env, a, lines).ret == 1 ==>
              Lines(env, a, lines).a.okSent && Accepts(env, Lines(env, a, lines).a.id)
    decreases |lines|
  {
    hide Line, Accepts;
    if lines != [] {
      ServerLineKeeps(env, a, lines[0]);
      var t := Line(env, a, lines[0]);
      if t.ret == 0 {
        ServerSafe(env, t.a, lines[1..]);
      }
    }
  }

  /** The mechanism is tried once: a server that has turned an identity down, or
      has dropped its OK, never succeeds again. */
  lemma {:induction false} ServerTriesOnce(env: Env, a: State, lines: seq<string>)
    requires ServerInv(env, a) && a.external != NotTried && !a.okSent
    requires forall i :: 0 <= i < |lines| ==> IsLine(lines[i])
    ensures Lines(env, a, lines).ret != 1
    decreases |lines|
  {
    hide Line, Accepts;
    if lines != [] {
      ServerLineKeeps(env, a, lines[0]);
      var t := Line(env, a, lines[0]);
      if t.ret == 0 {
        ServerTriesOnce(env, t.a, lines[1..]);
      }
    }
  }

  // ------------------------------------------------------------------- client

  predicate Tries(line: string, mech: string) {
    var p := "AUTH " + mech + " ";
    |p| <= |line| && line[..|p|] == p
  }

  /** How many of the lines start a mechanism */
  function CountTries(sent: seq<string>, mech: string): (n: nat)
  {
    if sent == [] then 0 else (if Tries(sent[0], mech) then 1 else 0) + CountTries(sent[1..], mech)
  }

  lemma {:induction false} CountConcat(s: seq<string>, t: seq<string>, mech: string)
    ensures CountTries(s + t, mech) == CountTries(s, mech) + CountTries(t, mech)
  {
    if s == [] {
      assert s + t == t;
    } else {
      CountConcat(s[1..], t, mech);
      assert (s + t)[1..] == s[1..] + t;
    }
  }

  function Left(m: Mechanism): nat {
    if m == NotTried then 1 else 0
  }

  lemma {:induction false} CountOne(line: string, mech: string)
    ensures CountTries([line], mech) == if Tries(line, mech) then 1 else 0
    ensures CountTries([], mech) == 0
  {
  }

  lemma {:induction false} NotATry(line: string, mech: string)
    requires line != [] && line[0] != 'A'
    ensures CountTries([line], mech) == 0
  {
    CountOne(line, mech);
    var p := "AUTH " + mech + " ";
    assert p[0] == 'A';
  }

  lemma {:induction false} ResetTries(env: Env, a: State)
    ensures var t := ClientReset(env, a);
            && CountTries(t.sent, "EXTERNAL") + Left(t.a.external) == Left(a.external)
            && CountTries(t.sent, "DBUS_COOKIE_SHA1") + Left(t.a.cookie) == Left(a.cookie)
            && (t.a.server == a.server && t.a.id == a.id)
  {
    hide HexEncode, CountTries;
    var h := HexEncode(a.id) + "\r\n";
    var e: string := "AUTH EXTERNAL " + HexEncode(a.id) + "\r\n";
    var c: string := "AUTH DBUS_COOKIE_SHA1 " + HexEncode(a.id) + "\r\n";
    assert e[..14] == "AUTH EXTERNAL " && c[..22] == "AUTH DBUS_COOKIE_SHA1 ";
    assert "AUTH " + "EXTERNAL" + " " == "AUTH EXTERNAL ";
    assert "AUTH " + "DBUS_COOKIE_SHA1" + " " == "AUTH DBUS_COOKIE_SHA1 ";
    assert e[5] != c[5];
    assert c[..14][5] != "AUTH EXTERNAL "[5];
    CountOne(e, "EXTERNAL"); CountOne(e, "DBUS_COOKIE_SHA1");
    CountOne(c, "EXTERNAL"); CountOne(c, "DBUS_COOKIE_SHA1");
  }

  lemma {:induction false} ClientLineTries(env: Env, a: State, line: string)
    requires !a.server && IsLine(line)
    ensures var t := Line(env, a, line);
            && CountTries(t.sent, "EXTERNAL") + Left(t.a.external) <= Left(a.external)
            && CountTries(t.sent, "DBUS_COOKIE_SHA1") + Left(t.a.cookie) <= Left(a.cookie)
            && t.a.server == a.server
  {
    hide CountTries, HexDecode, HexEncode, CookieAnswer, Strip, Command, Rest, ClientReset;
    ResetTries(env, a);
    CountOne("", "EXTERNAL"); CountOne("", "DBUS_COOKIE_SHA1");
    NotATry(ERROR, "EXTERNAL"); NotATry(ERROR, "DBUS_COOKIE_SHA1");
    NotATry(BEGIN, "EXTERNAL"); NotATry(BEGIN, "DBUS_COOKIE_SHA1");
    CookieTries(env, a, if Rest(Strip(line)).Some? then HexDecode(Rest(Strip(line)).value) else "");
  }

  lemma {:induction false} CookieTries(env: Env, a: State, data: string)
    ensures var t := ClientCookie(env, a, data);
            CountTries(t.sent, "EXTERNAL") == 0 && CountTries(t.sent, "DBUS_COOKIE_SHA1") == 0 && t.a == a
  {
    hide CountTries, HexEncode, CookieAnswer, Command, Rest;
    CountOne("", "EXTERNAL"); CountOne("", "DBUS_COOKIE_SHA1");
    forall x: string
      ensures CountTries(["DATA " + x + "\r\n"], "EXTERNAL") == 0
      ensures CountTries(["DATA " + x + "\r\n"], "DBUS_COOKIE_SHA1") == 0
    {
      NotATry("DATA " + x + "\r\n", "EXTERNAL");
      NotATry("DATA " + x + "\r\n", "DBUS_COOKIE_SHA1");
    }
  }

  /** On any lines a client tries each mechanism at most once, and only those that
      were left when it started. */
  lemma {:induction false} ClientTriesOnce(env: Env, a: State, lines: seq<string>)
    requires !a.server && forall i :: 0 <= i < |lines| ==> IsLine(lines[i])
    ensures CountTries(Lines(env, a, lines).sent, "EXTERNAL") <= Left(a.external)
    ensures CountTries(Lines(env, a, lines).sent, "DBUS_COOKIE_SHA1") <= Left(a.cookie)
    decreases |lines|
  {
    hide Line, CountTries;
    if lines == [] {
      CountOne("", "EXTERNAL"); CountOne("", "DBUS_COOKIE_SHA1");
    } else {
      ClientLineTries(env, a, lines[0]);
      var t := Line(env, a, lines[0]);
      if t.ret == 0 {
        ClientTriesOnce(env, t.a, lines[1..]);
        var u := Lines(env, t.a, lines[1..]);
        CountConcat(t.sent, u.sent, "EXTERNAL");
        CountConcat(t.sent, u.sent, "DBUS_COOKIE_SHA1");
      }
    }
  }

  // --------------------------------------------------------- the joint exchange

  /** The state of an exchange: both ends, what each has returned, the line on its
      way to the server if any, and the number of rejections so far */
  datatype Talk = Talk(c: State, s: State, cret: int, sret: int, line: Option<string>, rejections: nat)

  /** The server answers the line and the client answers the server. */
  function Exchange(cenv: Env, senv: Env, t: Talk): Talk
  {
    if t.line.None? || t.sret != 0 || !IsLine(t.line.value) then t else
    var s := Line(senv, t.s, t.line.value);
    var t1 := t.(s := s.a, sret := s.ret, line := None);
    if s.sent == [] || t.cret != 0 || !IsLine(s.sent[0]) then t1 else
    var c := Line(cenv, t.c, s.sent[0]);
    t1.(c := c.a, cret := c.ret, line := if c.sent == [] then None else Some(c.sent[0]),
        rejections := t.rejections + if s.sent[0] == REJECTED then 1 else 0)
  }

  function Exchanges(cenv: Env, senv: Env, t: Talk, n: nat): Talk
  {
    if n == 0 then t else Exchange(cenv, senv, Exchanges(cenv, senv, t, n - 1))
  }

  /** adbus_cauth_start of a client against a fresh server that answers an accepted
      identity with OK and `uuid` */
  function Opening(cenv: Env, id: string, uuid: string): Talk
  {
    var c := ClientReset(cenv, Client(id));
    Talk(c.a, SERVER.(okCmd := "OK " + uuid + "\r\n"), 0, 0, Some(c.sent[0]), 0)
  }

  ghost predicate AlwaysSends(env: Env) {
    forall line :: env.sends(line)
  }

  lemma {:induction false} AuthLineParts(mech: string, h: string)
    requires forall i :: 0 <= i < |mech| ==> mech[i] != ' '
    requires forall i :: 0 <= i < |h| ==> h[i] != '\r' && h[i] != '\n'
    ensures var line: string := "AUTH " + mech + " " + h + "\r\n";
            && IsLine(line) && Command(Strip(line)) == "AUTH"
            && Rest(Strip(line)) == Some(mech + " " + h)
            && Command(mech + " " + h) == mech && Rest(mech + " " + h) == Some(h)
  {
    var body: string := "AUTH " + mech + " " + h;
    var line := body + "\r\n";
    assert line == "AUTH " + mech + " " + h + "\r\n";
    assert line[..|line| - 1] == body + "\r";
    assert (body + "\r")[..|body|] == body;
    assert Strip(line) == body;
    assert body[..5] == "AUTH ";
    assert body[4] == ' ' && body[..4] == "AUTH";
    IndexIs(body, ' ', 4);
    assert body[5..] == mech + " " + h;
    var r := mech + " " + h;
    assert r[..|mech|] == mech;
    IndexIs(r, ' ', |mech|);
    assert r[|mech| + 1..] == h;
  }

  lemma {:induction false} WordLine(word: string, tail: string)
    requires word != [] && (forall i :: 0 <= i < |word| ==> word[i] != ' ') && (tail == [] || tail[0] == ' ')
    ensures IsLine(word + tail + "\r\n") && Command(Strip(word + tail + "\r\n")) == word
  {
    var body: string := word + tail;
    var line := body + "\r\n";
    assert line[..|line| - 1] == body + "\r";
    assert (body + "\r")[..|body|] == body;
    assert body[..|word|] == word;
    IndexIs(body, ' ', |word|);
  }

  lemma {:induction false} ServerOnAuth(env: Env, a: State, mech: string, x: string)
    requires a.server && (forall i :: 0 <= i < |mech| ==> mech[i] != ' ') && IsBytes(x)
    ensures var line: string := "AUTH " + mech + " " + HexEncode(x) + "\r\n";
            IsLine(line) && Line(env, a, line) == ServerAuth(env, a, mech, x)
  {
    hide HexEncode, HexDecode, Strip, Command, Rest, ServerAuth, ClientCookie, ServerReset, ClientReset, IsBytes;
    HexPlain(x);
    HexRoundTrip(x);
    AuthLineParts(mech, HexEncode(x));
  }

  lemma {:induction false} ClientOnRejected(env: Env, a: State)
    requires !a.server
    ensures IsLine(REJECTED) && Line(env, a, REJECTED) == ClientReset(env, a)
  {
    hide HexDecode, Strip, Command, Rest, ClientCookie, ClientReset;
    WordLine("REJECTED", " EXTERNAL");
    assert "REJECTED" + " EXTERNAL" + "\r\n" == REJECTED;
    assert "REJECTED"[0] != "DATA"[0] && "REJECTED"[0] != "OK"[0];
  }

  lemma {:induction false} ClientOnOk(env: Env, a: State, uuid: string)
    requires !a.server
    ensures var line: string := "OK " + uuid + "\r\n";
            IsLine(line) && Line(env, a, line) == Turn(a, 1, [BEGIN]) && line != REJECTED
  {
    hide HexDecode, Strip, Command, Rest, ClientCookie, ClientReset;
    WordLine("OK", " " + uuid);
    var line: string := "OK " + uuid + "\r\n";
    assert "OK" + (" " + uuid) + "\r\n" == line;
    assert "OK"[0] != "DATA"[0] && line[0] != REJECTED[0];
  }

  lemma {:induction false} ServerOnBegin(env: Env, a: State)
    requires a.server && a.okSent && !a.onData
    ensures IsLine(BEGIN) && Line(env, a, BEGIN) == Turn(a, 1, [])
  {
    hide HexDecode, Strip, Command, Rest, ClientCookie, ServerReset;
    WordLine("BEGIN", "");
    assert "BEGIN" + "" + "\r\n" == BEGIN;
    assert "BEGIN"[0] != "AUTH"[0] && "BEGIN"[0] != "CANCEL"[0];
  }

  /** The end of an exchange */
  function Settled(id: string, uuid: string, accepted: bool): Talk
  {
    var c := Client(id).(external := Begin);
    var s := SERVER.(okCmd := "OK " + uuid + "\r\n", external := Begin, id := id);
    if accepted then Talk(c, s.(okSent := true), 1, 1, None, 0)
    else Talk(c.(cookie := Begin, onData := true), s, -1, 0, None, 2)
  }

  lemma {:induction false} OpeningLine(cenv: Env, id: string, uuid: string)
    ensures var t := Opening(cenv, id, uuid);
            && t.c == Client(id).(external := Begin) && t.s == SERVER.(okCmd := "OK " + uuid + "\r\n")
            && t.cret == 0 && t.sret == 0 && t.rejections == 0
            && t.line == Some("AUTH " + "EXTERNAL" + " " + HexEncode(id) + "\r\n")
  {
    hide HexEncode;
    assert "AUTH " + "EXTERNAL" + " " == "AUTH EXTERNAL ";
  }

  lemma {:induction false} Accepted(cenv: Env, senv: Env, id: string, uuid: string)
    requires AlwaysSends(cenv) && AlwaysSends(senv) && IsBytes(id) && Accepts(senv, id)
    ensures Exchanges(cenv, senv, Opening(cenv, id, uuid), 2) == Settled(id, uuid, true)
  {
    hide Line, IsLine, HexEncode, IsBytes, Accepts, Opening, Client;
    var t := Opening(cenv, id, uuid);
    OpeningLine(cenv, id, uuid);
    ClientServerFlags(id);
    ServerOnAuth(senv, t.s, "EXTERNAL", id);
    ClientOnOk(cenv, t.c, uuid);
    var t1 := Exchange(cenv, senv, t);
    ServerOnBegin(senv, t1.s);
    assert Exchanges(cenv, senv, t, 1) == Exchange(cenv, senv, Exchanges(cenv, senv, t, 0));
    assert Exchanges(cenv, senv, t, 2) == Exchange(cenv, senv, t1);
  }

  lemma {:induction false} CookieReset(env: Env, id: string)
    requires AlwaysSends(env)
    ensures ClientReset(env, Client(id).(external := Begin))
            == Turn(Client(id).(external := Begin, cookie := Begin, onData := true), 0,
                    ["AUTH " + "DBUS_COOKIE_SHA1" + " " + HexEncode(id) + "\r\n"])
    ensures ClientReset(env, Client(id).(external := Begin, cookie := Begin, onData := true))
            == Turn(Client(id).(external := Begin, cookie := Begin, onData := true), -1, [])
  {
    hide HexEncode;
    assert "AUTH " + "DBUS_COOKIE_SHA1" + " " == "AUTH DBUS_COOKIE_SHA1 ";
  }

  lemma {:induction false} Refused(cenv: Env, senv: Env, id: string, uuid: string)
    requires AlwaysSends(cenv) && AlwaysSends(senv) && IsBytes(id) && !Accepts(senv, id)
    ensures Exchanges(cenv, senv, Opening(cenv, id, uuid), 2) == Settled(id, uuid, false)
  {
    hide Line, IsLine, HexEncode, IsBytes, Accepts, Opening, Client, ClientReset;
    var t := Opening(cenv, id, uuid);
    OpeningLine(cenv, id, uuid);
    ClientServerFlags(id);
    ServerOnAuth(senv, t.s, "EXTERNAL", id);
    ClientOnRejected(cenv, t.c);
    CookieReset(cenv, id);
    var t1 := Exchange(cenv, senv, t);
    ServerOnAuth(senv, t1.s, "DBUS_COOKIE_SHA1", id);
    ClientOnRejected(cenv, t1.c);
    assert "DBUS_COOKIE_SHA1"[0] != "EXTERNAL"[0];
    assert Exchanges(cenv, senv, t, 1) == Exchange(cenv, senv, Exchanges(cenv, senv, t, 0));
    assert Exchanges(cenv, senv, t, 2) == Exchange(cenv, senv, t1);
  }

  lemma {:induction false} ClientServerFlags(id: string)
    ensures !Client(id).server && Client(id).id == id
  {
  }

  /** A client and a server that talk to each other agree: both succeed when the
      callback accepts the client's identity, with that identity stored; otherwise
      the client gives up after exactly two rejections and the server never
      succeeds. */
  lemma {:induction false} Agreement(cenv: Env, senv: Env, id: string, uuid: string, n: nat)
    requires AlwaysSends(cenv) && AlwaysSends(senv) && IsBytes(id) && n >= 2
    ensures Exchanges(cenv, senv, Opening(cenv, id, uuid), n) == Settled(id, uuid, Accepts(senv, id))
  {
    hide Opening, IsBytes, Accepts, AlwaysSends;
    if n == 2 {
      if Accepts(senv, id) { Accepted(cenv, senv, id, uuid); } else { Refused(cenv, senv, id, uuid); }
    } else {
      Agreement(cenv, senv, id, uuid, n - 1);
    }
  }

  // --------------------------------------------------------- the cookie's answer

  /** The answer that a client sends carries its own challenge and the SHA-1 hash
      of the server's challenge, its own in hexadecimal, and the cookie, joined by
      colons. */
  lemma {:induction false} CookieVerifies(env: Env, a: State, keyring: string, id: string, challenge: string, cookie: string)
    requires forall i :: 0 <= i < |keyring| ==> keyring[i] != ' ' && keyring[i] != '\0'
    requires forall i :: 0 <= i < |id| ==> id[i] != ' ' && id[i] != '\0'
    requires forall i :: 0 <= i < |challenge| ==> challenge[i] != '\0'
    requires env.cookie(keyring, id) == Some(cookie)
    ensures var t := ClientCookie(env, a, keyring + " " + id + " " + challenge);
            && |t.sent| == 1 && IsLine(t.sent[0]) && Command(Strip(t.sent[0])) == "DATA"
            && Rest(Strip(t.sent[0])).Some?
            && var answer := HexDecode(Rest(Strip(t.sent[0])).value);
            && (IsBytes(env.random) ==> HexDecode(Command(answer)) == env.random)
            && Rest(answer).Some?
            && HexDecode(Rest(answer).value)
               == FromBytes(SHA1(ToBytes(challenge + ":" + Command(answer) + ":" + cookie)))
  {
    hide HexDecode, HexEncode, Command, Rest, Strip, SHA1, ToBytes, FromBytes, IsBytes, CookieAnswer, CString, IsLine;
    var d: string := keyring + " " + id + " " + challenge;
    ChallengeParts(keyring, id, challenge);
    var answer := CookieAnswer(challenge, env.random, cookie);
    AnswerParts(challenge, env.random, cookie);
    DataLine(answer);
    assert ClientCookie(env, a, d).sent == ["DATA " + HexEncode(answer) + "\r\n"];
  }

  lemma {:induction false} ChallengeParts(keyring: string, id: string, challenge: string)
    requires forall i :: 0 <= i < |keyring| ==> keyring[i] != ' ' && keyring[i] != '\0'
    requires forall i :: 0 <= i < |id| ==> id[i] != ' ' && id[i] != '\0'
    requires forall i :: 0 <= i < |challenge| ==> challenge[i] != '\0'
    ensures var d: string := keyring + " " + id + " " + challenge;
            && CString(d) == d && Command(d) == keyring && Rest(d).Some?
            && Command(Rest(d).value) == id && Rest(Rest(d).value) == Some(challenge)
  {
    var d: string := keyring + " " + id + " " + challenge;
    IndexIs(d, '\0', |d|);
    Spaced(keyring, id + " " + challenge);
    assert d == keyring + " " + (id + " " + challenge);
    Spaced(id, challenge);
  }

  lemma {:induction false} Spaced(a: string, b: string)
    requires forall i :: 0 <= i < |a| ==> a[i] != ' '
    ensures Command(a + " " + b) == a && Rest(a + " " + b) == Some(b)
  {
    var s: string := a + " " + b;
    assert s[..|a|] == a;
    IndexIs(s, ' ', |a|);
    assert s[|a| + 1..] == b;
  }

  lemma {:induction false} AnswerParts(challenge: string, own: string, cookie: string)
    ensures var answer := CookieAnswer(challenge, own, cookie);
            && IsBytes(answer) && Command(answer) == HexEncode(own)
            && (IsBytes(own) ==> HexDecode(Command(answer)) == own)
            && Rest(answer).Some?
            && HexDecode(Rest(answer).value)
               == FromBytes(SHA1(ToBytes(challenge + ":" + Command(answer) + ":" + cookie)))
  {
    hide HexDecode, HexEncode, Command, Rest, SHA1, ToBytes, FromBytes;
    var hash := FromBytes(SHA1(ToBytes(challenge + ":" + HexEncode(own) + ":" + cookie)));
    HexPlain(own);
    HexPlain(hash);
    Spaced(HexEncode(own), HexEncode(hash));
    assert IsBytes(hash) by { FromBytesIsBytes(SHA1(ToBytes(challenge + ":" + HexEncode(own) + ":" + cookie))); }
    HexRoundTrip(hash);
    if IsBytes(own) {
      HexRoundTrip(own);
    }
    HexIsBytes(own);
    HexIsBytes(hash);
  }

  lemma {:induction false} FromBytesIsBytes(b: seq<Byte>)
    ensures IsBytes(FromBytes(b))
  {
  }

  lemma {:induction false} HexIsBytes(s: string)
    ensures IsBytes(HexEncode(s))
  {
    if s != [] {
      HexIsBytes(s[1..]);
    }
  }

  lemma {:induction false} DataLine(answer: string)
    requires IsBytes(answer)
    ensures var line: string := "DATA " + HexEncode(answer) + "\r\n";
            && IsLine(line) && Command(Strip(line)) == "DATA" && Rest(Strip(line)).Some?
            && HexDecode(Rest(Strip(line)).value) == answer
  {
    hide HexDecode, HexEncode, Command, Rest, IsBytes;
    HexPlain(answer);
    HexRoundTrip(answer);
    var body: string := "DATA" + " " + HexEncode(answer);
    var line: string := "DATA " + HexEncode(answer) + "\r\n";
    assert line == body + "\r\n";
    assert line[..|line| - 1] == body + "\r";
    assert (body + "\r")[..|body|] == body;
    Spaced("DATA", HexEncode(answer));
  }

  // ----------------------------------------------------------- line buffering

  /** The outcome of handling the lines of a buffer, and what stays in it. A buffer
      goes astray at a line of only a line feed: adbus_auth_line looks at the byte
      before it, which is not in the buffer, and nothing more is defined. */
  datatype Parsed = Parsed(turn: Turn, buf: string, astray: bool)
  {
    /** Another line may be handled. */
    predicate GoesOn() {
      turn.ret == 0 && !astray
    }
  }

  /** adbus_auth_parse */
  function ParseBuffer(env: Env, a: State, buf: string): (p: Parsed)
    decreases |buf|
  {
    var k := Index(buf, '\n');
    if k == |buf| then Parsed(Turn(a, 0, []), buf, false)
    else if k == 0 then Parsed(Turn(a, 0, []), buf, true)
    else
      var t := Line(env, a, buf[..k + 1]);
      if t.ret != 0 then Parsed(t, buf[k + 1..], false)
      else After(t, ParseBuffer(env, t.a, buf[k + 1..]))
  }

  /** What follows an outcome that lets the exchange go on */
  function After(t: Turn, p: Parsed): (r: Parsed)
    ensures t.sent == [] && t.ret == 0 ==> r == p
  {
    assert t.sent == [] ==> t.sent + p.turn.sent == p.turn.sent;
    Parsed(Turn(p.turn.a, p.turn.ret, t.sent + p.turn.sent), p.buf, p.astray)
  }

  /** The complete lines of a stream in front of the first that is only a line feed,
      and whether there is one */
  function SplitLines(buf: string): (r: (seq<string>, bool))
    ensures forall i :: 0 <= i < |r.0| ==> IsLine(r.0[i])
    decreases |buf|
  {
    var k := Index(buf, '\n');
    if k == |buf| then ([], false)
    else if k == 0 then ([], true)
    else
      var (lines, bare) := SplitLines(buf[k + 1..]);
      ([buf[..k + 1]] + lines, bare)
  }

  /** A buffer is handled line by line, and it goes astray if and only if it has a
      line of only a line feed and no line before that ends the exchange. */
  lemma {:induction false} ParseIsLines(env: Env, a: State, buf: string)
    ensures var (lines, bare) := SplitLines(buf);
            && ParseBuffer(env, a, buf).turn == Lines(env, a, lines)
            && (ParseBuffer(env, a, buf).astray <==> bare && Lines(env, a, lines).ret == 0)
    decreases |buf|
  {
    hide Line;
    var k := Index(buf, '\n');
    if 0 < k < |buf| {
      var t := Line(env, a, buf[..k + 1]);
      var lines := SplitLines(buf).0;
      assert lines[0] == buf[..k + 1] && lines[1..] == SplitLines(buf[k + 1..]).0;
      ParseIsLines(env, t.a, buf[k + 1..]);
    }
  }

  /** A server that has accepted its client is done at BEGIN, whatever the bytes
      behind it: they may be the messages that follow. */
  lemma {:induction false} BeginEnds(env: Env, a: State, rest: string)
    requires a.server && a.okSent && !a.onData
    ensures ParseBuffer(env, a, BEGIN + rest) == Parsed(Turn(a, 1, []), rest, false)
  {
    hide Line;
    ServerOnBegin(env, a);
    var buf := BEGIN + rest;
    assert buf[..7] == BEGIN && buf[6] == '\n' && buf[7..] == rest;
    assert '\n' !in BEGIN[..6];
    assert buf[..6] == BEGIN[..6];
    IndexIs(buf, '\n', 6);
  }

  /** An empty line goes astray where another line is waited for. */
  lemma {:induction false} EmptyLineStrays(env: Env, a: State, rest: string)
    ensures ParseBuffer(env, a, "\n" + rest).astray
    ensures SplitLines("\n" + rest) == ([], true)
  {
    IndexIs("\n" + rest, '\n', 0);
  }

  /** One line of adbus_auth_parse */
  lemma {:induction false} ParseStep(env: Env, a: State, buf: string)
    ensures var k := Index(buf, '\n');
            && (k == |buf| ==> ParseBuffer(env, a, buf) == Parsed(Turn(a, 0, []), buf, false))
            && (k == 0 < |buf| ==> ParseBuffer(env, a, buf) == Parsed(Turn(a, 0, []), buf, true))
            && (0 < k < |buf| ==>
                  && IsLine(buf[..k + 1])
                  && var t := Line(env, a, buf[..k + 1]);
                  && (t.ret != 0 ==> ParseBuffer(env, a, buf) == Parsed(t, buf[k + 1..], false))
                  && (t.ret == 0 ==> ParseBuffer(env, a, buf) == After(t, ParseBuffer(env, t.a, buf[k + 1..]))))
  {
    hide Line;
  }

  /** What is left over is the end of the stream: behind the line that completes the
      exchange, or without a line as long as it goes on. */
  lemma {:induction false} LeftOver(env: Env, a: State, buf: string)
    ensures var p := ParseBuffer(env, a, buf);
            && |p.buf| <= |buf| && p.buf == buf[|buf| - |p.buf|..]
            && (p.GoesOn() ==> '\n' !in p.buf)
            && (p.turn.ret != 0 ==> |p.buf| < |buf| && buf[|buf| - |p.buf| - 1] == '\n')
            && (p.astray ==> p.buf != [] && p.buf[0] == '\n')
    decreases |buf|
  {
    hide Line, ParseBuffer, IsLine, Index;
    var k := Index(buf, '\n');
    ParseStep(env, a, buf);
    if 0 < k < |buf| {
      var t := Line(env, a, buf[..k + 1]);
      if t.ret == 0 {
        LeftOver(env, t.a, buf[k + 1..]);
        SuffixOfRest(buf, k + 1, |ParseBuffer(env, t.a, buf[k + 1..]).buf|);
      }
    } else {
      assert buf[0..] == buf;
    }
  }

  lemma {:induction false} SuffixOfRest(buf: string, k: nat, n: nat)
    requires k <= |buf| && n <= |buf[k..]|
    ensures buf[k..][|buf[k..]| - n..] == buf[|buf| - n..]
    ensures n < |buf[k..]| ==> buf[k..][|buf[k..]| - n - 1] == buf[|buf| - n - 1]
  {
  }

  lemma {:induction false} AfterAssoc(t: Turn, u: Turn, p: Parsed, buf: string)
    ensures After(t, After(u, p)) == After(After(t, Parsed(u, buf, false)).turn, p)
  {
    assert t.sent + (u.sent + p.turn.sent) == (t.sent + u.sent) + p.turn.sent;
  }

  lemma {:induction false} FirstOfBoth(x: string, y: string)
    requires Index(x, '\n') < |x|
    ensures var k := Index(x, '\n');
            Index(x + y, '\n') == k && (x + y)[..k + 1] == x[..k + 1] && (x + y)[k + 1..] == x[k + 1..] + y
  {
    var k := Index(x, '\n');
    assert (x + y)[..k] == x[..k];
    IndexIs(x + y, '\n', k);
  }

  /** A buffer that grows while the exchange goes on */
  lemma {:induction false} ParseSplit(env: Env, a: State, x: string, y: string)
    ensures var p := ParseBuffer(env, a, x);
            && (!p.GoesOn() ==> ParseBuffer(env, a, x + y) == Parsed(p.turn, p.buf + y, p.astray))
            && (p.GoesOn() ==>
                  ParseBuffer(env, a, x + y) == After(p.turn, ParseBuffer(env, p.turn.a, p.buf + y)))
    decreases |x|
  {
    hide Line, ParseBuffer, IsLine;
    var k := Index(x, '\n');
    ParseStep(env, a, x);
    if k < |x| {
      FirstOfBoth(x, y);
      ParseStep(env, a, x + y);
      if k > 0 {
        var t := Line(env, a, x[..k + 1]);
        if t.ret == 0 {
          ParseSplit(env, t.a, x[k + 1..], y);
          var p := ParseBuffer(env, t.a, x[k + 1..]);
          if p.GoesOn() {
            AfterAssoc(t, p.turn, ParseBuffer(env, p.turn.a, p.buf + y), p.buf);
          }
        }
      }
    }
  }

  /** What the example loops do: receive, append, parse, until the exchange ends */
  function Feed(env: Env, a: State, buf: string, chunks: seq<string>): (p: Parsed)
    decreases |chunks|
  {
    if chunks == [] then Parsed(Turn(a, 0, []), buf, false)
    else
      var p := ParseBuffer(env, a, buf + chunks[0]);
      if p.GoesOn() then After(p.turn, Feed(env, p.turn.a, p.buf, chunks[1..]))
      else Parsed(p.turn, p.buf + Concat(chunks[1..]), p.astray)
  }

  /** However the bytes arrive, the same lines are handled in the same order with
      the same answers, what is left over is the same, and so is the place where
      the buffer goes astray. */
  lemma {:induction false} ChunkingIndependence(env: Env, a: State, buf: string, chunks: seq<string>)
    requires '\n' !in buf
    ensures Feed(env, a, buf, chunks) == ParseBuffer(env, a, buf + Concat(chunks))
    decreases |chunks|
  {
    hide ParseBuffer;
    if chunks == [] {
      assert buf + Concat(chunks) == buf;
      IndexIs(buf, '\n', |buf|);
      ParseStep(env, a, buf);
    } else {
      var x, y := buf + chunks[0], Concat(chunks[1..]);
      assert buf + Concat(chunks) == x + y;
      ParseSplit(env, a, x, y);
      LeftOver(env, a, x);
      var p := ParseBuffer(env, a, x);
      if p.GoesOn() {
        ChunkingIndependence(env, p.turn.a, p.buf, chunks[1..]);
      }
    }
  }

  /** The server on any byte stream, however it arrives */
  lemma {:induction false} ServerSafeOnStream(env: Env, okCmd: string, chunks: seq<string>)
    ensures var t := Feed(env, SERVER.(okCmd := okCmd), [], chunks).turn;
            t.ret == 1 ==> Accepts(env, t.a.id)
  {
    hide ParseBuffer, Feed, Lines, Accepts;
    var a := SERVER.(okCmd := okCmd);
    ChunkingIndependence(env, a, [], chunks);
    ParseIsLines(env, a, [] + Concat(chunks));
    ServerSafe(env, a, SplitLines([] + Concat(chunks)).0);
  }
}
