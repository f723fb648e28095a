/** One end of the authentication exchange, updated in place line by line. */
module AuthPeer {
  import opened Bytes
  import opened Sequences
  import opened Auth
  import opened Scan
  import S = Sha1
  import Sha1State

  /** A cookie is read with a 4096 byte buffer and a challenge has 64 bytes. */
  ghost predicate SystemOk(env: Env) {
    && (forall k, i :: env.cookie(k, i).Some? ==> |env.cookie(k, i).value| < 4096)
    && |env.random| == 64
  }

  const MAX_LINE: nat := 0x1000_0000

  lemma {:induction false} DecodeShrinks(s: string)
    ensures |HexDecode(s)| <= |s| && |DecodePairs(s)| <= |s|
  {
    if |s| >= 2 {
      DecodeShrinks(s[2..]);
    }
  }

  lemma {:induction false} ConcatOne(b: seq<Byte>)
    ensures Concat([b]) == b
  {
    assert [b][1..] == [];
  }

  class Peer {
    var a: State
    var sent: seq<string>
    const env: Env

    /** adbus_sauth_new and adbus_sauth_external */
    constructor Server(env: Env)
      ensures a == SERVER && sent == [] && this.env == env
    {
      a, sent := SERVER, [];
      this.env := env;
    }

    /** adbus_cauth_new and adbus_cauth_external */
    constructor Client(env: Env, id: string)
      ensures a == Auth.Client(id) && sent == [] && this.env == env
    {
      a, sent := Auth.Client(id), [];
      this.env := env;
    }

    /** The object has taken this turn. */
    twostate predicate Took(t: Turn, ret: int)
      reads this
    {
      a == t.a && ret == t.ret && sent == old(sent) + t.sent
    }

    method Send(line: string) returns (ret: int)
      modifies this`sent
      ensures Took(Auth.Send(env, old(a), line), ret)
    {
      sent := sent + [line];
      ret := if env.sends(line) then 0 else -1;
    }

    method ServerReset() returns (ret: int)
      modifies this
      ensures Took(Auth.ServerReset(env, old(a)), ret)
    {
      a := a.(okSent := false);
      ret := Send(REJECTED);
    }

    method ServerOk() returns (ret: int)
      modifies this
      ensures Took(Auth.ServerOk(env, old(a)), ret)
    {
      a := a.(okSent := true);
      ret := Send(a.okCmd);
    }

    method ServerAuth(mech: string, data: string) returns (ret: int)
      modifies this
      ensures Took(Auth.ServerAuth(env, old(a), mech, data), ret)
      ensures ServerInv(env, old(a)) ==> ServerInv(env, a) && a.id == data
    {
      a := a.(id := data);
      if a.external == NotTried && mech == "EXTERNAL" {
        a := a.(external := Begin);
        if env.externalcb.None? || env.externalcb.value(CString(a.id)) {
          ret := ServerOk();
        } else {
          ret := ServerReset();
        }
      } else {
        ret := ServerReset();
      }
    }

    method ClientReset() returns (ret: int)
      modifies this
      ensures Took(Auth.ClientReset(env, old(a)), ret)
    {
      var msg: string;
      if a.external == NotTried {
        msg := "AUTH EXTERNAL ";
        a := a.(onData := false, external := Begin);
      } else if a.cookie == NotTried {
        msg := "AUTH DBUS_COOKIE_SHA1 ";
        a := a.(onData := true, cookie := Begin);
      } else {
        return -1;
      }
      var hex := EncodeHex(a.id);
      msg := msg + hex + "\r\n";
      ret := Send(msg);
    }

    /** The answer to a cookie challenge, hashed with the incremental SHA-1 */
    method Answer(challenge: string, cookie: string) returns (answer: string)
      requires |env.random| == 64 && |challenge| < MAX_LINE && |cookie| < 4096
      ensures answer == CookieAnswer(challenge, env.random, cookie)
    {
      hide S.SHA1, HexEncode, ToBytes, FromBytes, Sha1State.CodedDigest;
      var own := EncodeHex(env.random);
      var text := challenge + ":" + own + ":" + cookie;
      assert |ToBytes(text)| == |text| by { ToBytesLength(text); }
      ConcatOne(ToBytes(text));
      var digest := Sha1State.HashChunks([ToBytes(text)]);
      var hash := EncodeHex(FromBytes(digest));
      answer := own + " " + hash;
    }

    method ClientCookie(data: string) returns (ret: int)
      requires SystemOk(env) && |data| < MAX_LINE
      modifies this
      ensures Took(Auth.ClientCookie(env, old(a), data), ret)
    {
      hide HexEncode, CookieAnswer, Command;
      var d := CString(data);
      var idBegin := Rest(d);
      if idBegin.None? {
        return -1;
      }
      var challenge := Rest(idBegin.value);
      if challenge.None? {
        return -1;
      }
      var cookie := env.cookie(Command(d), Command(idBegin.value));
      if cookie.None? {
        return -1;
      }
      var answer := Answer(challenge.value, cookie.value);
      var hex := EncodeHex(answer);
      ret := Send("DATA " + hex + "\r\n");
    }

    /** adbus_auth_line: a server that succeeds has had its stored identity
        accepted. */
    method Line(line: string) returns (ret: int)
      requires IsLine(line) && |line| < MAX_LINE && SystemOk(env)
      modifies this
      ensures Took(Auth.Line(env, old(a), line), ret)
      ensures ServerInv(env, old(a)) ==> ServerInv(env, a) && (ret == 1 ==> Accepts(env, a.id))
    {
      hide HexDecode, Accepts, Index, CString, SystemOk, Auth.ServerAuth, Auth.ClientCookie, Auth.ClientReset;
      if ServerInv(env, a) {
        ServerLineKeeps(env, a, line);
      }
      ret := Dispatch(line);
    }

    method Dispatch(line: string) returns (ret: int)
      requires IsLine(line) && |line| < MAX_LINE && SystemOk(env)
      modifies this
      ensures Took(Auth.Line(env, old(a), line), ret)
    {
      hide HexDecode, Accepts, CString, Strip, Index, Auth.ServerAuth, Auth.ClientCookie, Auth.ClientReset, Auth.ServerReset, HexEncode;
      var len := |line|;
      if line[len - 1] == '\n' {
        len := len - 1;
      }
      if line[len - 1] == '\r' {
        len := len - 1;
      }
      var l := line[..len];
      assert l == Strip(line) by { StripIs(line, len); }
      var cmde := Index(l, ' ');
      var cmd := l[..cmde];
      if a.server && cmde != |l| && cmd == "AUTH" {
        var arg := l[cmde + 1..];
        var meche := Index(arg, ' ');
        if meche < |arg| {
          var data := DecodeHex(arg[meche + 1..]);
          ret := ServerAuth(arg[..meche], data);
        } else {
          var _ := Send(ERROR);
          return 0;
        }
      } else if a.onData && cmd == "DATA" {
        var data := "";
        if cmde != |l| {
          data := DecodeHex(l[cmde + 1..]);
          DecodeShrinks(l[cmde + 1..]);
        }
        ret := ClientCookie(data);
      } else if a.server && cmd == "CANCEL" {
        ret := ServerReset();
      } else if a.server && a.okSent && cmd == "BEGIN" {
        return 1;
      } else if !a.server && cmd == "OK" {
        var _ := Send(BEGIN);
        return 1;
      } else if !a.server && cmd == "REJECTED" {
        ret := ClientReset();
      } else if cmd == "ERROR" {
        return -1;
      } else {
        var _ := Send(ERROR);
        return 0;
      }
    }

    /** adbus_auth_parse: lines are taken off the buffer until one ends the
        exchange. The source has no test for `astray`: it looks at the byte before
        the buffer. */
    method Parse(buffer: string) returns (ret: int, rest: string, astray: bool)
      requires |buffer| < MAX_LINE && SystemOk(env)
      modifies this
      ensures Took(ParseBuffer(env, old(a), buffer).turn, ret)
      ensures rest == ParseBuffer(env, old(a), buffer).buf
      ensures astray == ParseBuffer(env, old(a), buffer).astray
    {
      hide IsLine, ParseBuffer, SystemOk, Auth.Line, ServerInv, Accepts;
      ret, rest, astray := 0, buffer, false;
      ghost var done := Turn(a, 0, []);
      var k := Index(rest, '\n');
      while k < |rest| && ret == 0
        invariant k == Index(rest, '\n') && |rest| <= |buffer|
        invariant done.a == a && done.ret == ret && sent == old(sent) + done.sent
        invariant ret != 0 ==> ParseBuffer(env, old(a), buffer) == Parsed(done, rest, false)
        invariant ret == 0 ==> ParseBuffer(env, old(a), buffer) == After(done, ParseBuffer(env, a, rest))
        decreases |rest|, ret == 0
      {
        ParseStep(env, a, rest);
        if k == 0 {
          return 0, rest, true;
        }
        ghost var t := Auth.Line(env, a, rest[..k + 1]);
        ghost var was := done;
        ret := Line(rest[..k + 1]);
        rest := rest[k + 1..];
        done := After(done, Parsed(t, rest, false)).turn;
        AfterAssoc(was, t, ParseBuffer(env, t.a, rest), rest);
        k := Index(rest, '\n');
      }
      if ret == 0 {
        ParseStep(env, a, rest);
      }
    }
  }

  lemma {:induction false} ToBytesLength(s: string)
    ensures |ToBytes(s)| == |s|
  {
  }

  lemma {:induction false} StripIs(line: string, len: nat)
    requires IsLine(line)
    requires var n := if line[|line| - 1] == '\n' then |line| - 1 else |line|;
             len == if line[n - 1] == '\r' then n - 1 else n
    ensures line[..len] == Strip(line)
  {
    var n := if line[|line| - 1] == '\n' then |line| - 1 else |line|;
    assert line[..n][..len] == line[..len];
  }
}
