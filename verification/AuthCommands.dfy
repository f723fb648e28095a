/** What each line of the exchange does, command by command, and when a server
    returns 1, by the text of the lines that it was sent. */
module AuthCommands {
  import opened Bytes
  import opened Sequences
  import opened Scan
  import opened Auth

  // ------------------------------------------------------------ text of a line

  /** The command and the argument of a line: the text in front of the first space and
      behind it, whatever the line ends with */
  lemma {:induction false} LineParts(cmd: string, arg: Option<string>, eol: string)
    requires cmd != "" && ' ' !in cmd && eol in {"", "\r", "\n", "\r\n"}
    requires var body := if arg.None? then cmd else cmd + " " + arg.value;
             body[|body| - 1] != '\r' && body[|body| - 1] != '\n'
    ensures var body := if arg.None? then cmd else cmd + " " + arg.value;
            && IsLine(body + eol) && Strip(body + eol) == body
            && Command(body) == cmd && Rest(body) == arg
  {
    hide Index;
    var body := if arg.None? then cmd else cmd + " " + arg.value;
    var line := body + eol;
    assert line[..|body|] == body;
    if eol == "\r\n" {
      assert line[..|line| - 1] == body + "\r" && (body + "\r")[..|body|] == body;
    }
    assert body[..|cmd|] == cmd;
    IndexIs(body, ' ', |cmd|);
    if arg.Some? {
      assert body[|cmd| + 1..] == arg.value;
    }
  }

  /** The identity is handed to the callback up to its first NUL. */
  lemma {:induction false} CStringEnds(s: string, t: string)
    requires '\0' !in s
    ensures CString(s) == s && CString(s + "\0" + t) == s
  {
    var u := s + "\0" + t;
    assert u[..|s|] == s && s[..|s|] == s;
    IndexIs(u, '\0', |s|);
    IndexIs(s, '\0', |s|);
  }

  /** The digits of the encoding, and those that the decoder takes */
  lemma {:induction false} Digits(n: nat)
    requires n < 16
    ensures HexDigit(n) == "0123456789abcdef"[n]
    ensures HexValue("0123456789abcdef"[n]) == Some(n) && HexValue("0123456789ABCDEF"[n]) == Some(n)
  {
    var low, up := "0123456789abcdef", "0123456789ABCDEF";
    assert n < 10 ==> low[n] as int == '0' as int + n && up[n] == low[n];
    assert n >= 10 ==> low[n] as int == 'a' as int + n - 10 && up[n] as int == 'A' as int + n - 10;
  }

  lemma {:induction false} NoOtherDigits(c: char)
    requires HexValue(c).Some?
    ensures c in "0123456789abcdefABCDEF"
  {
    var all := "0123456789abcdefABCDEF";
    var v := HexValue(c).value;
    if '0' <= c <= '9' || 'a' <= c <= 'f' {
      assert all[v] == c;
    } else {
      assert all[v + 6] == c;
    }
  }

  /** Decoding stops at the first pair that is not two digits, and an odd number of
      characters decodes to nothing. */
  lemma {:induction false} DecodingStops(s: string, bad: string, rest: string)
    requires IsBytes(s) && |bad| == 2 && |rest| % 2 == 0 && (HexValue(bad[0]).None? || HexValue(bad[1]).None?)
    ensures HexDecode(HexEncode(s) + bad + rest) == s && HexDecode(HexEncode(s) + [bad[0]]) == ""
  {
    PairsStop(s, bad + rest);
    assert HexEncode(s) + bad + rest == HexEncode(s) + (bad + rest);
  }

  lemma {:induction false} PairsStop(s: string, t: string)
    requires IsBytes(s) && |t| >= 2 && (HexValue(t[0]).None? || HexValue(t[1]).None?)
    ensures DecodePairs(HexEncode(s) + t) == s
  {
    var u := HexEncode(s) + t;
    if s == [] {
      assert u == t;
    } else {
      PairsStop(s[1..], t);
      assert u[2..] == HexEncode(s[1..]) + t;
      assert u[0] == HexDigit(s[0] as int / 16 % 16) && u[1] == HexDigit(s[0] as int % 16);
    }
  }

  // ------------------------------------------------------------------- server

  /** The outcome of sending a line is that of the turn. */
  function Sent(env: Env, line: string): int {
    if env.sends(line) then 0 else -1
  }

  /** The arguments of AUTH: a mechanism and the text behind it */
  predicate HasData(rest: Option<string>) {
    rest.Some? && ' ' in rest.value
  }

  /** A server: what each command sends, returns and changes */
  lemma {:induction false} ServerCommands(env: Env, a: State, line: string)
    requires ServerInv(env, a) && IsLine(line)
    ensures var t, cmd, rest := Line(env, a, line), Command(Strip(line)), Rest(Strip(line));
            && (cmd == "CANCEL" ==>
                  t == Turn(a.(okSent := false), Sent(env, "REJECTED EXTERNAL\r\n"), ["REJECTED EXTERNAL\r\n"]))
            && (cmd == "BEGIN" && a.okSent ==> t == Turn(a, 1, []))
            && (cmd == "ERROR" ==> t == Turn(a, -1, []))
            && (cmd == "AUTH" && !HasData(rest) ==> t == Turn(a, 0, ["ERROR\r\n"]))
            && (cmd == "BEGIN" && !a.okSent ==> t == Turn(a, 0, ["ERROR\r\n"]))
            && (cmd !in {"CANCEL", "BEGIN", "ERROR", "AUTH"} ==> t == Turn(a, 0, ["ERROR\r\n"]))
  {
    hide HexDecode, Strip, Command, Accepts, ClientCookie, ClientReset, ServerAuth, Index;
    CommandsDiffer();
    var rest := Rest(Strip(line));
    if rest.Some? {
      SpaceFound(rest.value);
    }
  }

  lemma {:induction false} CommandsDiffer()
    ensures "AUTH"[0] != "CANCEL"[0] && "AUTH"[0] != "BEGIN"[0] && "AUTH"[0] != "ERROR"[0] && "AUTH"[0] != "DATA"[0]
    ensures "CANCEL"[0] != "BEGIN"[0] && "CANCEL"[0] != "ERROR"[0] && "BEGIN"[0] != "ERROR"[0]
    ensures "OK"[0] !in {"DATA"[0], "ERROR"[0], "REJECTED"[0]} && "REJECTED"[0] !in {"DATA"[0], "ERROR"[0]}
    ensures "DATA"[0] != "ERROR"[0]
  {
  }

  lemma {:induction false} SpaceFound(s: string)
    ensures Rest(s).Some? <==> ' ' in s
  {
    if ' ' in s {
      var k :| 0 <= k < |s| && s[k] == ' ';
    }
  }

  /** AUTH with a mechanism and data: the identity is stored in any case, and OK is sent
      exactly for an accepted identity and an EXTERNAL that is untried. */
  lemma {:induction false} ServerOnData(env: Env, a: State, line: string, mech: string, hex: string)
    requires ServerInv(env, a) && IsLine(line) && ' ' !in mech
    requires Command(Strip(line)) == "AUTH" && Rest(Strip(line)) == Some(mech + " " + hex)
    ensures var (t, tries) := (Line(env, a, line), mech == "EXTERNAL" && a.external == NotTried);
            && t.a == a.(id := HexDecode(hex), external := if tries then Begin else a.external, okSent := t.a.okSent)
            && (t.a.okSent <==> tries && Accepts(env, HexDecode(hex)))
            && t.sent == [if t.a.okSent then a.okCmd else "REJECTED EXTERNAL\r\n"]
            && t.ret == Sent(env, t.sent[0])
  {
    hide HexDecode, Strip, Accepts, ClientCookie, ClientReset, Index;
    Spaced(mech, hex);
  }

  /** A line that takes back the OK of a server or ends the exchange with an error:
      CANCEL, ERROR, and AUTH with a mechanism and data */
  predicate TakesBack(line: string)
    requires IsLine(line)
  {
    Command(Strip(line)) in {"CANCEL", "ERROR"} || (Command(Strip(line)) == "AUTH" && HasData(Rest(Strip(line))))
  }

  lemma {:induction false} ServerKeepsOk(env: Env, a: State, line: string)
    requires ServerInv(env, a) && IsLine(line) && a.okSent
    ensures var t := Line(env, a, line);
            && (TakesBack(line) ==> t.ret < 0 || !t.a.okSent)
            && (!TakesBack(line) ==> t.a == a && t.ret == if Command(Strip(line)) == "BEGIN" then 1 else 0)
            && (t.ret == 1 <==> Command(Strip(line)) == "BEGIN")
  {
    hide HexDecode, Strip, Command, Rest, Accepts, Line;
    ServerLineKeeps(env, a, line);
    ServerCommands(env, a, line);
    CommandsDiffer();
    if Command(Strip(line)) == "AUTH" && HasData(Rest(Strip(line))) {
      var s := Rest(Strip(line)).value;
      assert s == Command(s) + " " + Rest(s).value && ' ' !in Command(s) by { SplitAtSpace(s); }
      ServerOnData(env, a, line, Command(s), Rest(s).value);
    }
  }

  lemma {:induction false} SplitAtSpace(s: string)
    requires ' ' in s
    ensures Rest(s).Some? && s == Command(s) + " " + Rest(s).value && ' ' !in Command(s)
  {
    SpaceFound(s);
    var k := Index(s, ' ');
    assert s == s[..k] + [s[k]] + s[k + 1..];
  }

  /** The k-th line is the first BEGIN, and no line before it takes the OK back. */
  predicate BeginsAt(lines: seq<string>, k: nat)
    requires k < |lines| && forall i :: 0 <= i < |lines| ==> IsLine(lines[i])
  {
    && Command(Strip(lines[k])) == "BEGIN"
    && forall j :: 0 <= j < k ==> !TakesBack(lines[j]) && Command(Strip(lines[j])) != "BEGIN"
  }

  ghost predicate Begins(lines: seq<string>)
    requires forall i :: 0 <= i < |lines| ==> IsLine(lines[i])
  {
    exists k :: 0 <= k < |lines| && BeginsAt(lines, k)
  }

  /** A server that has sent its OK returns 1 on exactly the lines in which a BEGIN
      comes before any CANCEL, ERROR, or AUTH with a mechanism and data. */
  lemma {:induction false} OkStandsIff(env: Env, a: State, lines: seq<string>)
    requires ServerInv(env, a) && a.okSent && forall i :: 0 <= i < |lines| ==> IsLine(lines[i])
    ensures Lines(env, a, lines).ret == 1 <==> Begins(lines)
    decreases |lines|
  {
    hide Line, Accepts, TakesBack, Strip, Command, IsLine;
    if lines != [] {
      var t := Line(env, a, lines[0]);
      ServerLineKeeps(env, a, lines[0]);
      ServerKeepsOk(env, a, lines[0]);
      if Command(Strip(lines[0])) == "BEGIN" {
        CommandsDiffer();
        assert BeginsAt(lines, 0);
      } else if TakesBack(lines[0]) {
        if t.ret == 0 {
          ServerTriesOnce(env, t.a, lines[1..]);
        }
        assert forall k :: 0 <= k < |lines| && BeginsAt(lines, k) ==> k == 0;
      } else {
        OkStandsIff(env, a, lines[1..]);
        BeginsLater(lines);
      }
    }
  }

  lemma {:induction false} BeginsLater(lines: seq<string>)
    requires lines != [] && forall i :: 0 <= i < |lines| ==> IsLine(lines[i])
    requires !TakesBack(lines[0]) && Command(Strip(lines[0])) != "BEGIN"
    ensures Begins(lines) <==> Begins(lines[1..])
  {
    hide IsLine, TakesBack, Strip, Command;
    var rest := lines[1..];
    if k :| 0 <= k < |lines| && BeginsAt(lines, k) {
      assert BeginsAt(rest, k - 1);
    }
    if k :| 0 <= k < |rest| && BeginsAt(rest, k) {
      forall j | 0 <= j < k + 1
        ensures !TakesBack(lines[j]) && Command(Strip(lines[j])) != "BEGIN"
      {
        if j > 0 { assert lines[j] == rest[j - 1]; }
      }
      assert BeginsAt(lines, k + 1);
    }
  }

  /** The line is AUTH with the mechanism EXTERNAL and these digits. */
  predicate Offers(line: string, hex: string)
    requires IsLine(line)
  {
    Command(Strip(line)) == "AUTH" && Rest(Strip(line)) == Some("EXTERNAL " + hex)
  }

  ghost predicate OffersAny(line: string)
    requires IsLine(line)
  {
    exists hex: string :: Offers(line, hex)
  }

  /** The i-th line is the first to offer an identity, it is accepted and told so; no
      line before it is an error, and none before it is rejected in vain. */
  ghost predicate AcceptedAt(env: Env, okCmd: string, lines: seq<string>, i: nat)
    requires i < |lines| && forall i :: 0 <= i < |lines| ==> IsLine(lines[i])
  {
    && (exists hex :: Offers(lines[i], hex) && Accepts(env, HexDecode(hex))) && env.sends(okCmd)
    && forall j :: 0 <= j < i ==>
         && Command(Strip(lines[j])) != "ERROR" && !OffersAny(lines[j])
         && (TakesBack(lines[j]) ==> env.sends("REJECTED EXTERNAL\r\n"))
  }

  /** A line to a server whose EXTERNAL is untried */
  lemma {:induction false} FirstOffer(env: Env, a: State, line: string)
    requires ServerInv(env, a) && IsLine(line) && a.external == NotTried
    ensures var t := Line(env, a, line);
            && (forall hex: string :: Offers(line, hex) ==>
                  && t.a.external == Begin && (t.a.okSent <==> Accepts(env, HexDecode(hex)))
                  && (t.a.okSent ==> t.ret == Sent(env, a.okCmd)))
            && (!OffersAny(line) ==> t.a.external == NotTried && t.a.okCmd == a.okCmd)
            && (!OffersAny(line) && TakesBack(line) && Command(Strip(line)) != "ERROR" ==>
                  t.ret == Sent(env, "REJECTED EXTERNAL\r\n"))
            && (!OffersAny(line) && !TakesBack(line) ==> t.ret == 0)
            && (Command(Strip(line)) == "ERROR" ==> t.ret == -1)
            && t.ret != 1
  {
    hide HexDecode, Strip, Command, Rest, Accepts, Line;
    assert !a.okSent;
    ServerLineKeeps(env, a, line);
    ServerCommands(env, a, line);
    CommandsDiffer();
    if Command(Strip(line)) == "AUTH" && HasData(Rest(Strip(line))) {
      var s := Rest(Strip(line)).value;
      SplitAtSpace(s);
      ServerOnData(env, a, line, Command(s), Rest(s).value);
      OfferIs(line, s);
    }
    OfferHasData();
  }

  lemma {:induction false} OfferIs(line: string, s: string)
    requires IsLine(line) && Command(Strip(line)) == "AUTH" && Rest(Strip(line)) == Some(s)
    requires Rest(s).Some? && s == Command(s) + " " + Rest(s).value
    ensures OffersAny(line) <==> Command(s) == "EXTERNAL"
    ensures forall hex: string :: Offers(line, hex) ==> hex == Rest(s).value
  {
    hide Strip, Command, Rest;
    if Command(s) == "EXTERNAL" {
      assert "EXTERNAL" + " " == "EXTERNAL ";
      assert Offers(line, Rest(s).value);
    }
    forall hex: string | Offers(line, hex)
      ensures Command(s) == "EXTERNAL" && Rest(s) == Some(hex)
    {
      assert "EXTERNAL" + " " == "EXTERNAL ";
      Spaced("EXTERNAL", hex);
    }
  }

  lemma {:induction false} OfferHasData()
    ensures forall line: string, hex: string :: IsLine(line) && Offers(line, hex) ==>
              Command(Strip(line)) == "AUTH" && HasData(Rest(Strip(line)))
  {
    hide Strip, Command, Rest;
    forall hex: string
      ensures ' ' in "EXTERNAL " + hex
    {
      assert ("EXTERNAL " + hex)[8] == ' ';
    }
  }

  /** A new server returns 1 on exactly the lines in which the first identity that is
      offered is accepted, and a BEGIN comes before anything that takes that back. */
  lemma {:induction false} SucceedsIff(env: Env, a: State, lines: seq<string>)
    requires ServerInv(env, a) && a.external == NotTried && forall i :: 0 <= i < |lines| ==> IsLine(lines[i])
    ensures Lines(env, a, lines).ret == 1 <==>
              exists i :: 0 <= i < |lines| && AcceptedAt(env, a.okCmd, lines, i) && Begins(lines[i + 1..])
    decreases |lines|
  {
    hide Line, Accepts, TakesBack, Strip, Command, IsLine, Begins, Offers, AcceptedAt;
    if lines != [] {
      var t := Line(env, a, lines[0]);
      ServerLineKeeps(env, a, lines[0]);
      FirstOffer(env, a, lines[0]);
      if hex: string :| Offers(lines[0], hex) {
        OffersFirst(env, a, lines, hex);
      } else if t.ret == 0 {
        SucceedsIff(env, t.a, lines[1..]);
        AcceptedLater(env, a.okCmd, lines);
        LaterIff(env, a.okCmd, lines);
      } else {
        NoneAccepted(env, a.okCmd, lines);
      }
    }
  }

  lemma {:induction false} OffersFirst(env: Env, a: State, lines: seq<string>, hex: string)
    requires ServerInv(env, a) && a.external == NotTried && forall i :: 0 <= i < |lines| ==> IsLine(lines[i])
    requires lines != [] && Offers(lines[0], hex)
    ensures Lines(env, a, lines).ret == 1 <==>
              exists i :: 0 <= i < |lines| && AcceptedAt(env, a.okCmd, lines, i) && Begins(lines[i + 1..])
  {
    hide Line, Accepts, TakesBack, Strip, Command, IsLine, Begins, Offers, HexDecode;
    var t := Line(env, a, lines[0]);
    ServerLineKeeps(env, a, lines[0]);
    FirstOffer(env, a, lines[0]);
    assert forall i :: 0 <= i < |lines| && AcceptedAt(env, a.okCmd, lines, i) ==> i == 0;
    assert AcceptedAt(env, a.okCmd, lines, 0) <==> t.a.okSent && env.sends(a.okCmd);
    assert lines[0 + 1..] == lines[1..];
    if t.ret == 0 {
      if t.a.okSent {
        OkStandsIff(env, t.a, lines[1..]);
      } else {
        ServerTriesOnce(env, t.a, lines[1..]);
      }
    }
  }

  lemma {:induction false} AcceptedLater(env: Env, okCmd: string, lines: seq<string>)
    requires lines != [] && forall i :: 0 <= i < |lines| ==> IsLine(lines[i])
    requires !OffersAny(lines[0]) && Command(Strip(lines[0])) != "ERROR"
    requires TakesBack(lines[0]) ==> env.sends("REJECTED EXTERNAL\r\n")
    ensures forall i :: 0 <= i < |lines| ==>
              (AcceptedAt(env, okCmd, lines, i) <==> i > 0 && AcceptedAt(env, okCmd, lines[1..], i - 1))
    ensures forall i :: 0 < i < |lines| ==> lines[i + 1..] == lines[1..][i..]
  {
    hide Accepts, TakesBack, Strip, Command, IsLine, Offers, HexDecode;
    forall i | 0 <= i < |lines|
      ensures AcceptedAt(env, okCmd, lines, i) <==> i > 0 && AcceptedAt(env, okCmd, lines[1..], i - 1)
    {
      if i > 0 && AcceptedAt(env, okCmd, lines[1..], i - 1) {
        forall j | 0 < j < i
          ensures lines[j] == lines[1..][j - 1]
        {
        }
      }
    }
  }

  lemma {:induction false} LaterIff(env: Env, okCmd: string, lines: seq<string>)
    requires lines != [] && forall i :: 0 <= i < |lines| ==> IsLine(lines[i])
    requires forall i :: 0 <= i < |lines| ==>
               (AcceptedAt(env, okCmd, lines, i) <==> i > 0 && AcceptedAt(env, okCmd, lines[1..], i - 1))
    requires forall i :: 0 < i < |lines| ==> lines[i + 1..] == lines[1..][i..]
    ensures (exists i :: 0 <= i < |lines| && AcceptedAt(env, okCmd, lines, i) && Begins(lines[i + 1..])) <==>
              exists i :: 0 <= i < |lines[1..]| && AcceptedAt(env, okCmd, lines[1..], i) && Begins(lines[1..][i + 1..])
  {
    hide AcceptedAt, Begins, IsLine;
    var rest := lines[1..];
    if i :| 0 <= i < |lines| && AcceptedAt(env, okCmd, lines, i) && Begins(lines[i + 1..]) {
      assert AcceptedAt(env, okCmd, rest, i - 1) && rest[i - 1 + 1..] == lines[i + 1..];
    }
    if i :| 0 <= i < |rest| && AcceptedAt(env, okCmd, rest, i) && Begins(rest[i + 1..]) {
      assert AcceptedAt(env, okCmd, lines, i + 1) && lines[i + 1 + 1..] == rest[i + 1..];
    }
  }

  lemma {:induction false} NoneAccepted(env: Env, okCmd: string, lines: seq<string>)
    requires lines != [] && forall i :: 0 <= i < |lines| ==> IsLine(lines[i])
    requires !OffersAny(lines[0])
    requires Command(Strip(lines[0])) == "ERROR" || (TakesBack(lines[0]) && !env.sends("REJECTED EXTERNAL\r\n"))
    ensures forall i :: 0 <= i < |lines| ==> !AcceptedAt(env, okCmd, lines, i)
  {
    hide Accepts, TakesBack, Strip, Command, IsLine, Offers, HexDecode;
  }

  /** Once EXTERNAL is tried, a CANCEL is the end of it: no later lines make the server
      return 1. */
  lemma {:induction false} CancelEnds(env: Env, a: State, line: string, lines: seq<string>)
    requires ServerInv(env, a) && a.external != NotTried && IsLine(line) && Command(Strip(line)) == "CANCEL"
    requires forall i :: 0 <= i < |lines| ==> IsLine(lines[i])
    ensures forall i :: 0 <= i < |[line] + lines| ==> IsLine(([line] + lines)[i])
    ensures Lines(env, a, [line] + lines).ret != 1
  {
    hide Line, Accepts, Strip, Command, IsLine;
    ServerCommands(env, a, line);
    ServerLineKeeps(env, a, line);
    assert ([line] + lines)[1..] == lines;
    ServerTriesOnce(env, Line(env, a, line).a, lines);
  }

  // ------------------------------------------------------------------- client

  /** A client: what each command sends, returns and changes */
  lemma {:induction false} ClientCommands(env: Env, a: State, line: string)
    requires !a.server && IsLine(line)
    ensures var t, cmd := Line(env, a, line), Command(Strip(line));
            var external, cookie := "AUTH EXTERNAL " + HexEncode(a.id) + "\r\n",
                                    "AUTH DBUS_COOKIE_SHA1 " + HexEncode(a.id) + "\r\n";
            && (cmd == "OK" ==> t == Turn(a, 1, ["BEGIN\r\n"]))
            && (cmd == "REJECTED" && a.external == NotTried ==>
                  t == Turn(a.(external := Begin, onData := false), Sent(env, external), [external]))
            && (cmd == "REJECTED" && a.external != NotTried && a.cookie == NotTried ==>
                  t == Turn(a.(cookie := Begin, onData := true), Sent(env, cookie), [cookie]))
            && (cmd == "REJECTED" && a.external != NotTried && a.cookie != NotTried ==> t == Turn(a, -1, []))
            && (cmd == "ERROR" ==> t == Turn(a, -1, []))
            && (cmd == "DATA" && !a.onData ==> t == Turn(a, 0, ["ERROR\r\n"]))
            && (cmd !in {"OK", "REJECTED", "ERROR", "DATA"} ==> t == Turn(a, 0, ["ERROR\r\n"]))
  {
    hide HexDecode, HexEncode, Strip, Command, Rest, ClientCookie, Index;
    CommandsDiffer();
  }

  /** DATA to a client that does not expect it, or that cannot be a challenge, or whose
      cookie is unknown */
  lemma {:induction false} ChallengeRefused(env: Env, a: State, line: string)
    requires !a.server && a.onData && IsLine(line) && Command(Strip(line)) == "DATA"
    ensures var (t, rest) := (Line(env, a, line), Rest(Strip(line)));
            && (rest.None? || ' ' !in CString(HexDecode(rest.value)) ==> t == Turn(a, -1, []))
            && forall keyring, id, challenge: string ::
                 (rest.Some? && ' ' !in keyring && ' ' !in id
                  && CString(HexDecode(rest.value)) == keyring + " " + id + " " + challenge
                  && env.cookie(keyring, id).None?) ==> t == Turn(a, -1, [])
  {
    hide HexDecode, HexEncode, Strip, Index, CookieAnswer, CString;
    CommandsDiffer();
    var rest := Rest(Strip(line));
    NothingThere();
    if rest.Some? {
      var d := CString(HexDecode(rest.value));
      SpaceFound(d);
      forall keyring, id, challenge: string | ' ' !in keyring && ' ' !in id && d == keyring + " " + id + " " + challenge
        ensures Command(d) == keyring && Rest(d) == Some(id + " " + challenge)
        ensures Command(id + " " + challenge) == id && Rest(id + " " + challenge) == Some(challenge)
      {
        assert d == keyring + " " + (id + " " + challenge);
        Spaced(keyring, id + " " + challenge);
        Spaced(id, challenge);
      }
    }
  }

  lemma {:induction false} NothingThere()
    ensures CString("") == "" && Rest("").None?
  {
  }

  // ------------------------------------------------------------------ streams

  /** The lines of a buffer: each ends at its one line feed, and together they are what
      the buffer starts with. */
  lemma {:induction false} LinesAre(buf: string)
    ensures var (lines, bare) := SplitLines(buf);
            && (forall i :: 0 <= i < |lines| ==>
                  lines[i][|lines[i]| - 1] == '\n' && '\n' !in lines[i][..|lines[i]| - 1])
            && Concat(lines) <= buf
            && var left := buf[|Concat(lines)|..];
            (if bare then left != "" && left[0] == '\n' else '\n' !in left)
    decreases |buf|
  {
    hide IsLine, Index;
    var k := Index(buf, '\n');
    if 0 < k < |buf| {
      var rest := buf[k + 1..];
      LinesAre(rest);
      var (lines, bare) := SplitLines(rest);
      FirstLine(buf, k, lines);
      assert SplitLines(buf) == ([buf[..k + 1]] + lines, bare);
    } else {
      assert Concat<char>([]) == [] && buf[0..] == buf;
    }
  }

  lemma {:induction false} FirstLine(buf: string, k: nat, lines: seq<string>)
    requires k < |buf| && buf[k] == '\n' && '\n' !in buf[..k] && Concat(lines) <= buf[k + 1..]
    ensures var all := [buf[..k + 1]] + lines;
            && Concat(all) <= buf && buf[|Concat(all)|..] == buf[k + 1..][|Concat(lines)|..]
            && buf[..k + 1][|buf[..k + 1]| - 1] == '\n' && '\n' !in buf[..k + 1][..|buf[..k + 1]| - 1]
  {
    var all := [buf[..k + 1]] + lines;
    assert all[1..] == lines && Concat(all) == buf[..k + 1] + Concat(lines);
    assert buf[..k + 1][..k] == buf[..k];
  }
}
