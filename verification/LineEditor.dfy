/** The line editor of library/console/xprintf/xprintf.c: characters are pushed onto the
    line, a backspace pops one, and every effective key is echoed. */
module LineEditor {
  import opened Bits
  import opened Text
  import opened Format
  import opened Console

  /** What a session leaves: whether a line arrived, the line, and the keys echoed. */
  datatype Session = Session(arrived: bool, line: seq<byte>, echo: seq<byte>)

  /** Typing `keys` at a line that holds at most `len - 1` characters. The stream ends at
      a NUL or after the last key. */
  function Edit(keys: seq<byte>, len: int, line: seq<byte>): Session {
    if keys == [] || keys[0] == NUL then Session(false, line, [])
    else if keys[0] == CR then Session(true, line, [])
    else if keys[0] == BACKSPACE && line != [] then
      var s := Edit(keys[1..], len, line[..|line| - 1]);
      s.(echo := [BACKSPACE] + s.echo)
    else if keys[0] >= SPACE && |line| < len - 1 then
      var s := Edit(keys[1..], len, line + [keys[0]]);
      s.(echo := [keys[0]] + s.echo)
    else Edit(keys[1..], len, line)
  }

  /** A carriage return comes before the end of the stream. */
  ghost predicate ReturnFirst(keys: seq<byte>) {
    exists m | 0 <= m < |keys| :: keys[m] == CR && forall i | 0 <= i < m :: keys[i] != NUL
  }

  /** A line arrives exactly when Return is typed before the stream ends. */
  lemma {:induction false} ArrivesIffReturn(keys: seq<byte>, len: int, line: seq<byte>)
    ensures Edit(keys, len, line).arrived <==> ReturnFirst(keys)
  {
    if keys != [] && keys[0] != NUL && keys[0] != CR {
      var rest := keys[1..];
      if keys[0] == BACKSPACE && line != [] {
        ArrivesIffReturn(rest, len, line[..|line| - 1]);
      } else if keys[0] >= SPACE && |line| < len - 1 {
        ArrivesIffReturn(rest, len, line + [keys[0]]);
      } else {
        ArrivesIffReturn(rest, len, line);
      }
      if ReturnFirst(rest) {
        var m :| 0 <= m < |rest| && rest[m] == CR && forall i | 0 <= i < m :: rest[i] != NUL;
        assert keys[m + 1] == CR;
        forall i | 0 <= i < m + 1 ensures keys[i] != NUL { if i > 0 { assert keys[i] == rest[i - 1]; } }
      }
      if ReturnFirst(keys) {
        var m :| 0 <= m < |keys| && keys[m] == CR && forall i | 0 <= i < m :: keys[i] != NUL;
        assert rest[m - 1] == CR && forall i | 0 <= i < m - 1 :: rest[i] == keys[i + 1];
      }
    } else if keys != [] && keys[0] == CR {
      assert keys[0] == CR;
    }
  }

  predicate Visible(line: seq<byte>) {
    forall i | 0 <= i < |line| :: line[i] >= SPACE
  }

  /** The line never outgrows its buffer and holds visible characters only. */
  lemma {:induction false} LineFits(keys: seq<byte>, len: int, line: seq<byte>)
    requires (line == [] || |line| < len) && Visible(line)
    ensures var s := Edit(keys, len, line); (s.line == [] || |s.line| < len) && Visible(s.line)
  {
    if keys != [] && keys[0] != NUL && keys[0] != CR {
      if keys[0] == BACKSPACE && line != [] {
        LineFits(keys[1..], len, line[..|line| - 1]);
      } else if keys[0] >= SPACE && |line| < len - 1 {
        LineFits(keys[1..], len, line + [keys[0]]);
      } else {
        LineFits(keys[1..], len, line);
      }
    }
  }

  /** The echo is a faithful transcript: typed again, with Return, it rebuilds the line and
      echoes itself. */
  lemma {:induction false} Replay(keys: seq<byte>, len: int, line: seq<byte>)
    ensures var s := Edit(keys, len, line);
            Edit(s.echo + [CR], len, line) == Session(true, s.line, s.echo)
  {
    var s := Edit(keys, len, line);
    if keys == [] || keys[0] == NUL || keys[0] == CR {
      assert s.echo + [CR] == [CR];
    } else if keys[0] == BACKSPACE && line != [] {
      Replay(keys[1..], len, line[..|line| - 1]);
      assert (s.echo + [CR])[1..] == s.echo[1..] + [CR];
    } else if keys[0] >= SPACE && |line| < len - 1 {
      Replay(keys[1..], len, line + [keys[0]]);
      assert (s.echo + [CR])[1..] == s.echo[1..] + [CR];
    } else {
      Replay(keys[1..], len, line);
    }
  }

  // ------------------------------------------------------------------ the line, key by key

  /** What a key does to a line of at most `len - 1` characters: 8 takes the last one off,
      32 and above go to the end while there is room, and no other key does anything. */
  function Pressed(line: seq<byte>, key: byte, len: int): seq<byte> {
    if key == 8 then if line == [] then [] else line[..|line| - 1]
    else if key >= 32 && |line| + 1 < len then line + [key]
    else line
  }

  /** The line after keys that contain neither Return nor the end of the stream. */
  function Line(keys: seq<byte>, len: int): seq<byte> {
    if keys == [] then [] else Pressed(Line(keys[..|keys| - 1], len), keys[|keys| - 1], len)
  }

  lemma {:induction false} OneMoreKey(keys: seq<byte>, key: byte, len: int, line: seq<byte>)
    requires (forall i | 0 <= i < |keys| :: keys[i] != 0 && keys[i] != 13) && key != 0 && key != 13
    ensures Edit(keys + [key], len, line).line == Pressed(Edit(keys, len, line).line, key, len)
    ensures !Edit(keys + [key], len, line).arrived
  {
    if keys == [] {
      assert (keys + [key])[1..] == [];
    } else {
      assert (keys + [key])[1..] == keys[1..] + [key];
      if keys[0] == BACKSPACE && line != [] {
        OneMoreKey(keys[1..], key, len, line[..|line| - 1]);
      } else if keys[0] >= SPACE && |line| < len - 1 {
        OneMoreKey(keys[1..], key, len, line + [keys[0]]);
      } else {
        OneMoreKey(keys[1..], key, len, line);
      }
    }
  }

  lemma {:induction false} ReturnKeeps(keys: seq<byte>, len: int, line: seq<byte>)
    requires forall i | 0 <= i < |keys| :: keys[i] != 0 && keys[i] != 13
    ensures Edit(keys + [13], len, line) == Session(true, Edit(keys, len, line).line, Edit(keys, len, line).echo)
  {
    if keys == [] {
      assert (keys + [13])[0] == 13;
    } else {
      assert (keys + [13])[1..] == keys[1..] + [13];
      if keys[0] == BACKSPACE && line != [] {
        ReturnKeeps(keys[1..], len, line[..|line| - 1]);
      } else if keys[0] >= SPACE && |line| < len - 1 {
        ReturnKeeps(keys[1..], len, line + [keys[0]]);
      } else {
        ReturnKeeps(keys[1..], len, line);
      }
    }
  }

  /** The line that arrives is what the keys do to it one after another. */
  lemma {:induction false} LineOfKeys(keys: seq<byte>, len: int)
    requires forall i | 0 <= i < |keys| :: keys[i] != 0 && keys[i] != 13
    ensures Edit(keys, len, []).line == Line(keys, len)
    ensures Edit(keys + [13], len, []).arrived && Edit(keys + [13], len, []).line == Line(keys, len)
    decreases |keys|
  {
    if keys != [] {
      var front := keys[..|keys| - 1];
      LineOfKeys(front, len);
      OneMoreKey(front, keys[|keys| - 1], len, []);
      assert front + [keys[|keys| - 1]] == keys;
    }
    hide Edit, Pressed, Line;
    ReturnKeeps(keys, len, []);
  }

  /** Visible keys alone leave themselves, as far as they fit. */
  lemma {:induction false} VisibleKeys(keys: seq<byte>, len: nat)
    requires len >= 1 && forall i | 0 <= i < |keys| :: keys[i] >= 32
    ensures Line(keys, len) == if |keys| < len then keys else keys[..len - 1]
    decreases |keys|
  {
    if keys != [] {
      var front := keys[..|keys| - 1];
      VisibleKeys(front, len);
      assert front + [keys[|keys| - 1]] == keys;
      if |keys| >= len { assert keys[..len - 1] == front[..len - 1]; }
    }
  }

  /** xgets: `keys` is what the input function returns, then zeros. Outside xsprintf the
      echo goes to the device. */
  method XGets(con: Console, hasIn: bool, keys: seq<byte>, buff: array<byte>, len: nat) returns (ret: bool)
    requires con.Valid() && !con.toMem && 1 <= len <= buff.Length
    modifies con, buff
    ensures con.SameOutput()
    ensures ret <==> hasIn && Edit(keys, len, []).arrived
    ensures hasIn ==> var s := Edit(keys, len, []);
            && con.put == old(con.put) + Crlf(s.echo + if ret then [LF] else [])
            && |s.line| < len && buff[..|s.line|] == s.line && (ret ==> buff[|s.line|] == NUL)
    ensures !hasIn ==> con.put == old(con.put) && buff[..] == old(buff[..])
    ensures forall k | len <= k < buff.Length :: buff[k] == old(buff[k])
  {
    if !hasIn { return false; }
    hide Crlf;
    ghost var session := Edit(keys, len, []);
    ghost var goal := con.put + Crlf(session.echo);
    ghost var echo := session.echo;
    var i, n := 0, 0;
    while true
      invariant 0 <= n <= |keys| && 0 <= i < len
      invariant con.SameOutput() && con.put + Crlf(echo) == goal
      invariant Edit(keys[n..], len, buff[..i]) == session.(echo := echo)
      invariant forall k | len <= k < buff.Length :: buff[k] == old(buff[k])
      decreases |keys| - n
    {
      if n == |keys| || keys[n] == NUL {
        CrlfEnd(con.put, session.echo);
        assert echo == [];
        return false;
      }
      var c := keys[n];
      assert keys[n..][0] == c && keys[n..][1..] == keys[n + 1..];
      n := n + 1;
      if c == CR {
        break;
      }
      if c == BACKSPACE && i != 0 {
        i := i - 1;
        assert buff[..i + 1][..i] == buff[..i];
        echo := EchoKey(con, c, echo);
        continue;
      }
      if c >= SPACE && i < len - 1 {
        buff[i] := c;
        i := i + 1;
        assert buff[..i] == buff[..i - 1] + [c];
        echo := EchoKey(con, c, echo);
      }
    }
    buff[i] := NUL;
    CrlfEnd(con.put, session.echo);
    SendPiece(old(con.put), session.echo, [LF]);
    con.XPutc(LF);
    return true;
  }

  lemma CrlfEnd(put: seq<byte>, echo: seq<byte>)
    ensures put + Crlf([]) == put && echo + [] == echo
  {}

  /** The echo of one key. */
  method EchoKey(con: Console, c: byte, ghost echo: seq<byte>) returns (ghost rest: seq<byte>)
    requires con.Valid() && !con.toMem && echo != [] && echo[0] == c
    modifies con
    ensures con.SameOutput() && rest == echo[1..]
    ensures con.put + Crlf(rest) == old(con.put) + Crlf(echo)
  {
    rest := echo[1..];
    assert echo == [c] + rest;
    SendPiece(con.put, [c], rest);
    con.XPutc(c);
  }
}
