/** The console formatter of library/console/xprintf/xprintf.c, working on its output
    pointer and digit buffer in place. */
module Console {
  import opened Bits
  import opened Text
  import opened Format

  class Console {
    var hasOut: bool        // xfunc_out is set
    var sent: seq<byte>     // everything xfunc_out was called with
    var toMem: bool         // outptr is not null
    var mem: seq<byte>      // the memory it walks through
    var outPos: nat         // and how far it has gone

    ghost var put: seq<byte>   // every byte put since the destination was selected
    ghost var sent0: seq<byte> // `sent` and `mem` at that time
    ghost var mem0: seq<byte>

    constructor (hasOut: bool)
      ensures Valid() && this.hasOut == hasOut && sent == put == [] && !toMem
    {
      this.hasOut := hasOut;
      sent, toMem, mem, outPos := [], false, [], 0;
      put, sent0, mem0 := [], [], [];
    }

    /** What was put is in memory and nothing else changed, or it went to the device if
        there is one. */
    ghost predicate Valid()
      reads this
    {
      if toMem then
        && outPos == |put| && outPos <= |mem0| && sent == sent0
        && mem == put + mem0[outPos..]
      else
        mem == mem0 && sent == sent0 + (if hasOut then put else [])
    }

    /** Room for `n` more bytes, which a caller that prints into memory must leave. */
    ghost predicate Room(n: int)
      reads this
    {
      toMem ==> |put| + n <= |mem0|
    }

    /** The destination is the same. */
    twostate predicate SameOutput()
      reads this
    {
      Valid() && unchanged(this`toMem, this`hasOut, this`sent0, this`mem0)
    }

    /** outptr = buff */
    method SelectMemory(buff: seq<byte>)
      requires Valid()
      modifies this
      ensures Valid() && toMem && mem0 == buff && put == [] && sent0 == sent == old(sent)
      ensures hasOut == old(hasOut)
    {
      toMem, mem, outPos := true, buff, 0;
      put, sent0, mem0 := [], sent, buff;
    }

    /** *outptr = 0; outptr = 0 */
    method Terminate() returns (result: seq<byte>)
      requires Valid() && toMem && |put| < |mem0|
      modifies this
      ensures Valid() && !toMem && hasOut == old(hasOut) && sent == old(sent0)
      ensures result == old(put) + [NUL] + old(mem0)[|old(put)| + 1..]
    {
      mem := mem[outPos := NUL];
      result := mem;
      toMem := false;
      put, sent0, mem0 := [], sent, mem;
    }

    /** xputc */
    method XPutc(c: byte)
      requires Valid() && Room(|Crlf([c])|)
      modifies this
      ensures SameOutput() && put == old(put) + Crlf([c])
      decreases c == LF
    {
      OneCrlf(c);
      OneCrlf(CR);
      hide Crlf;
      ghost var p := put;
      if c == LF {
        XPutc(CR);
        assert (p + [CR]) + [LF] == p + [CR, LF];
      }
      if toMem {
        StoredNext(mem0, put, mem, c);
        mem := mem[outPos := c];
        outPos := outPos + 1;
        put := put + [c];
        return;
      }
      if hasOut {
        assert sent + [c] == sent0 + (put + [c]);
        sent := sent + [c];
      }
      put := put + [c];
    }

    /** xputs */
    method XPuts(z: CStr)
      requires Valid() && Room(|Crlf(z[..|z| - 1])|)
      modifies this
      ensures SameOutput() && put == old(put) + Crlf(z[..|z| - 1])
    {
      var str := 0;
      ghost var n, goal := |z| - 1, put + Crlf(z[..|z| - 1]);
      while z[str] != NUL
        invariant 0 <= str <= n && SameOutput() && put + Crlf(z[str..n]) == goal
        decreases n - str
      {
        assert z[str..n] == [z[str]] + z[str + 1..n];
        SendPiece(put, [z[str]], z[str + 1..n]);
        XPutc(z[str]);
        str := str + 1;
      }
    }

    /** `while (j++ < w) xputc(c)` */
    method Pad(c: byte, j0: u32, w: u32) returns (j: u32)
      requires Valid() && c != LF && (j0 < w ==> Room(w - j0))
      modifies this
      ensures SameOutput() && put == old(put) + Repeat(c, if j0 < w then w - j0 else 0)
      ensures j == Wrap(Max(j0, w) + 1)
    {
      j := j0;
      var more := j < w;
      j := Wrap(j + 1);
      ghost var n := 0;
      while more
        invariant n == (if more then j - 1 else Max(j0, w)) - j0
        invariant more ==> 0 <= n && 1 <= j <= w
        invariant !more ==> j == Wrap(Max(j0, w) + 1)
        invariant n >= 0 && SameOutput() && put == old(put) + Repeat(c, n)
        decreases w - n, more
      {
        assert Repeat(c, n + 1) == Repeat(c, n) + [c];
        assert Crlf([c]) == [c] by { assert [c][1..] == []; }
        XPutc(c);
        n := n + 1;
        more := j < w;
        j := Wrap(j + 1);
      }
    }
  }

  lemma OneCrlf(c: byte)
    ensures Crlf([c]) == if c == LF then [CR, LF] else [c]
  {
    assert [c][1..] == [];
  }

  /** A byte stored behind what was put before. */
  lemma StoredNext(mem0: seq<byte>, put: seq<byte>, mem: seq<byte>, c: byte)
    requires |put| < |mem0| && mem == put + mem0[|put|..]
    ensures mem[|put| := c] == (put + [c]) + mem0[|put| + 1..]
  {}

  /** Sending a text in two pieces is sending it whole. */
  lemma SendPiece(put: seq<byte>, piece: seq<byte>, rest: seq<byte>)
    ensures (put + Crlf(piece)) + Crlf(rest) == put + Crlf(piece + rest)
    ensures |Crlf(piece + rest)| == |Crlf(piece)| + |Crlf(rest)|
  {
    CrlfAppend(piece, rest);
    hide Crlf;
    var sent, left := Crlf(piece), Crlf(rest);
    assert (put + sent) + left == put + (sent + left);
  }

  // ------------------------------------------------------------------ numbers

  /** One digit split off, least significant first. */
  method SplitDigit(v: nat, r: nat, ghost tail: seq<nat>) returns (q: nat, d: byte)
    requires 2 <= r <= 16
    ensures d < 16 && q <= v
    ensures Digits(v, r) + tail == (if q == 0 then [] else Digits(q, r)) + ([d as nat] + tail)
  {
    q, d := v / r, v % r;
    if v < r {
      DivMod(v, r, 0, v);
    } else {
      Quotient(v, r);
      ghost var h, t := Digits(q, r), [d as nat];
      assert (h + t) + tail == h + (t + tail);
    }
  }

  lemma DigitCharIs(d: nat, lower: bool)
    requires d < 16
    ensures DigitChar(d, lower) == ZERO + d + if d > 9 then if lower then 0x27 else 0x07 else 0
  {}

  /** The first `|tail|` bytes of the buffer, read backwards, spell `tail`. */
  ghost predicate Spelled(s: seq<byte>, tail: seq<nat>, lower: bool) {
    |tail| <= |s| && forall k | 0 <= k < |tail| :: tail[k] < 16 && s[|tail| - 1 - k] == DigitChar(tail[k], lower)
  }

  lemma SpelledStart(s: seq<byte>, lower: bool)
    ensures Spelled(s, [], lower)
  {}

  lemma SpelledMore(s: seq<byte>, tail: seq<nat>, lower: bool, d: nat)
    requires Spelled(s, tail, lower) && |tail| < |s| && d < 16
    ensures Spelled(s[|tail| := DigitChar(d, lower)], [d] + tail, lower)
  {
    hide DigitChar;
  }

  lemma SpelledText(s: seq<byte>, tail: seq<nat>, lower: bool)
    requires Spelled(s, tail, lower)
    ensures Reverse(s[..|tail|]) == DigitChars(tail, lower)
  {
    hide DigitChar;
  }

  /** The digit loop: the low digits of `v0`, at most 16, least significant first. */
  method StoreDigits(v0: u32, r: nat, lower: bool, s: array<byte>) returns (i: nat)
    requires IsRadix(r) && s.Length == 16
    modifies s
    ensures 1 <= i <= 16 && Reverse(s[..i]) == DigitChars(Last(Digits(v0, r), 16), lower)
  {
    hide Digits, DigitChar, Spelled;
    SpelledStart(s[..], lower);
    var v: nat := v0;
    i := 0;
    ghost var tail: seq<nat> := [];
    var more := true;
    while more
      invariant 0 <= i == |tail| <= 16 && (i == 0 ==> more) && (more ==> i < 16)
      invariant Digits(v0, r) == (if more || v != 0 then Digits(v, r) else []) + tail
      invariant !more && v != 0 ==> i == 16
      invariant Spelled(s[..], tail, lower)
      decreases 16 - i, more
    {
      var d;
      v, d := SplitDigit(v, r, tail);
      SpelledMore(s[..], tail, lower, d);
      tail := [d as nat] + tail;
      DigitCharIs(d, lower);
      if d > 9 {
        d := d + (if lower then 0x27 else 0x07);
      }
      s[i] := d + ZERO;
      i := i + 1;
      more := v != 0 && i < 16;
    }
    assert Last(Digits(v0, r), 16) == tail;
    SpelledText(s[..], tail, lower);
    assert s[..][..i] == s[..i];
  }

  /** A number converted into the 16-byte buffer: digits, then the sign if it fits; read
      backwards it is the number's text. */
  method StoreNumber(conv: byte, arg: u32, s: array<byte>) returns (i: nat)
    requires KindOf(conv).NumberKind? && s.Length == 16
    modifies s
    ensures 1 <= i <= 16 && Reverse(s[..i]) == NumberText(conv, arg)
  {
    var v: u32, negative := arg, false;
    if UpperCase(conv) == 0x44 && IsNegative(v) {
      v := Wrap(0 - v);
      negative := true;
    }
    i := StoreDigits(v, KindOf(conv).radix, conv == 0x78, s);
    if negative && i < 16 {
      s[i] := MINUS;
      assert Reverse(s[..i + 1]) == [MINUS] + Reverse(s[..i]);
      i := i + 1;
    }
  }

  // ------------------------------------------------------------------ fields

  /** The padding before and after a field's text. */
  function PadBefore(n: nat, width: u32, left: bool): nat {
    if !left && n < width then width - n else 0
  }

  function PadAfter(n: nat, width: u32, left: bool): nat {
    var j := if left then n else Wrap(Max(n, width) + 1);
    if j < width then width - j else 0
  }

  /** What the three pieces of a field send, one after another. */
  lemma FieldPieces(text: seq<byte>, width: u32, left: bool, fill: byte, put: seq<byte>)
      returns (before: seq<byte>, sent: seq<byte>, after: seq<byte>, goal: seq<byte>)
    requires |text| < TWO32 - 1 && fill != LF
    ensures before == Repeat(fill, PadBefore(|text|, width, left)) && sent == Crlf(text)
    ensures after == Repeat(SPACE, PadAfter(|text|, width, left))
    ensures goal == put + Crlf(Padded(text, width, left, fill))
    ensures ((put + before) + sent) + after == goal
    ensures |Crlf(Padded(text, width, left, fill))| == |before| + |sent| + |after|
    ensures before == [] ==> put + before == put
  {
    hide Crlf;
    before := Repeat(fill, PadBefore(|text|, width, left));
    after := Repeat(SPACE, PadAfter(|text|, width, left));
    sent := Crlf(text);
    goal := put + Crlf(Padded(text, width, left, fill));
    var left' := before + text;
    CrlfAppend(left', after);
    CrlfAppend(before, text);
    CrlfIdentity(before);
    CrlfIdentity(after);
    assert left' + after == Padded(text, width, left, fill);
    assert ((put + before) + sent) + after == put + (before + sent + after);
  }

  /** A string field: padding, the string, padding. */
  method PutString(con: Console, d: Directive, p: CStr)
    requires con.Valid() && |p| < TWO32
    requires con.Room(|Crlf(Padded(p[..|p| - 1], d.width, d.left, SPACE))|)
    modifies con
    ensures con.SameOutput()
    ensures con.put == old(con.put) + Crlf(Padded(p[..|p| - 1], d.width, d.left, SPACE))
  {
    hide Crlf, Padded;
    ghost var before, sent, after, goal := FieldPieces(p[..|p| - 1], d.width, d.left, SPACE, con.put);
    var j: u32 := 0;
    while p[j] != NUL
      invariant 0 <= j < |p|
      decreases |p| - j
    {
      j := j + 1;
    }
    if !d.left {
      j := con.Pad(SPACE, j, d.width);
    }
    con.XPuts(p);
    j := con.Pad(SPACE, j, d.width);
  }

  /** `do xputc(s[--i]); while (i)` */
  method PutBackwards(con: Console, s: array<byte>, n: nat)
    requires 1 <= n <= s.Length && con.Valid()
    requires con.Room(|Crlf(Reverse(s[..n]))|)
    modifies con
    ensures con.SameOutput() && con.put == old(con.put) + Crlf(Reverse(s[..n]))
  {
    ghost var goal := con.put + Crlf(Reverse(s[..n]));
    var i := n;
    while i != 0
      invariant 0 <= i <= n && con.SameOutput() && con.put + Crlf(Reverse(s[..i])) == goal
    {
      i := i - 1;
      assert Reverse(s[..i + 1]) == [s[i]] + Reverse(s[..i]);
      SendPiece(con.put, [s[i]], Reverse(s[..i]));
      con.XPutc(s[i]);
    }
  }

  /** A number field: padding, the buffered characters backwards, padding. */
  method PutBuffered(con: Console, width: u32, left: bool, fill: byte, s: array<byte>, i: nat)
    requires 1 <= i <= s.Length == 16 && fill != LF && con.Valid()
    requires con.Room(|Crlf(Padded(Reverse(s[..i]), width, left, fill))|)
    modifies con
    ensures con.SameOutput()
    ensures con.put == old(con.put) + Crlf(Padded(Reverse(s[..i]), width, left, fill))
  {
    hide Crlf, Padded;
    ghost var before, sent, after, goal := FieldPieces(Reverse(s[..i]), width, left, fill, con.put);
    var j: u32 := i;
    if !left {
      j := con.Pad(fill, j, width);
    }
    PutBackwards(con, s, i);
    j := con.Pad(SPACE, j, width);
  }

  method PutNumber(con: Console, d: Directive, arg: u32)
    requires KindOf(d.conv).NumberKind? && con.Valid()
    requires con.Room(|Crlf(Rendered(d, Word(arg)).value)|)
    modifies con
    ensures con.SameOutput() && con.put == old(con.put) + Crlf(Rendered(d, Word(arg)).value)
  {
    var s := new byte[16];
    var i := StoreNumber(d.conv, arg, s);
    PutBuffered(con, d.width, d.left, if d.zero then ZERO else SPACE, s, i);
  }

  // ------------------------------------------------------------------ the format loop

  /** Reads a conversion specification step by step. */
  method ReadDirective(z: CStr, start: nat) returns (d: Directive)
    requires start < |z|
    ensures d == ScanDirective(z, start)
  {
    var zero, left := false, false;
    var c, fmt := z[start], start + 1;
    if c == ZERO {
      zero := true;
      c := z[fmt];
      fmt := fmt + 1;
    } else if c == MINUS {
      left := true;
      c := z[fmt];
      fmt := fmt + 1;
    }
    var w: u32 := 0;
    ghost var scan := ScanWidth(z, fmt - 1, 0);
    while IsDigit(c)
      invariant start < fmt <= |z| && c == z[fmt - 1] && ScanWidth(z, fmt - 1, w) == scan
      decreases |z| - fmt
    {
      w := Wrap(w * 10 + c - ZERO);
      c := z[fmt];
      fmt := fmt + 1;
    }
    if c == 0x6C || c == 0x4C {
      c := z[fmt];
      fmt := fmt + 1;
    }
    return Directive(zero, left, w, c, fmt);
  }

  /** Prints one argument under its specification. */
  method PutArgument(con: Console, d: Directive, arg: Arg)
    requires Rendered(d, arg).Some? && con.Valid() && con.Room(|Crlf(Rendered(d, arg).value)|)
    requires arg.Str? ==> |arg.z| < TWO32
    modifies con
    ensures con.SameOutput() && con.put == old(con.put) + Crlf(Rendered(d, arg).value)
  {
    match KindOf(d.conv)
    case StringKind => PutString(con, d, arg.z);
    case CharKind => con.XPutc(arg.v % 0x100);
    case NumberKind(_) => PutNumber(con, d, arg.v);
  }

  /** xvprintf: every format whose arguments fit it is printed as specified. Each read of
      the format is checked against the string's length, so nothing past the NUL is read. */
  method XVprintf(con: Console, z: CStr, args: seq<Arg>)
    requires Formatted(z, 0, args).Some?
    requires con.Valid() && con.Room(|Crlf(Formatted(z, 0, args).value)|)
    requires forall a | a in args && a.Str? :: |a.z| < TWO32
    modifies con
    ensures con.SameOutput() && con.put == old(con.put) + Crlf(Formatted(z, 0, args).value)
  {
    hide Crlf, ScanDirective, Rendered;
    ghost var rest := Formatted(z, 0, args).value;
    ghost var goal := con.put + Crlf(rest);
    var fmt, arp := 0, args;
    while true
      invariant 0 <= fmt < |z| && forall a | a in arp && a.Str? :: |a.z| < TWO32
      invariant Formatted(z, fmt, arp) == Some(rest)
      invariant con.SameOutput() && con.put + Crlf(rest) == goal
      decreases |z| - fmt
    {
      var c := z[fmt];
      CrlfIdentity([]);
      if c == NUL {
        break;
      }
      if c != PERCENT {
        fmt := fmt + 1;
        rest := Formatted(z, fmt, arp).value;
        SendPiece(con.put, [c], rest);
        con.XPutc(c);
        continue;
      }
      var d := ReadDirective(z, fmt + 1);
      if d.conv == NUL {
        break;
      }
      fmt := d.next;
      if KindOf(d.conv).UnknownKind? {
        rest := Formatted(z, fmt, arp).value;
        SendPiece(con.put, [d.conv], rest);
        con.XPutc(d.conv);
        continue;
      }
      var arg := arp[0];
      arp := arp[1..];
      rest := Formatted(z, fmt, arp).value;
      SendPiece(con.put, Rendered(d, arg).value, rest);
      PutArgument(con, d, arg);
    }
  }

  /** xsprintf: the same text in memory, terminated, with the rest of memory as it was; the
      device is selected again. */
  method XSprintf(con: Console, buff: seq<byte>, z: CStr, args: seq<Arg>) returns (result: seq<byte>)
    requires con.Valid() && Formatted(z, 0, args).Some?
    requires |Crlf(Formatted(z, 0, args).value)| < |buff|
    requires forall a | a in args && a.Str? :: |a.z| < TWO32
    modifies con
    ensures con.Valid() && !con.toMem && con.hasOut == old(con.hasOut) && con.sent == old(con.sent)
    ensures var text := Crlf(Formatted(z, 0, args).value);
            result == text + [NUL] + buff[|text| + 1..]
  {
    con.SelectMemory(buff);
    XVprintf(con, z, args);
    result := con.Terminate();
  }
}
