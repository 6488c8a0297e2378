/** JSON strings (section 7 of RFC 8259) as the code writes and reads them, byte by byte. */
module JsonString {
  import opened Bytes

  type Text = seq<byte>

  const QUOTE: byte := 34
  const BACKSLASH: byte := 92
  const SLASH: byte := 47
  const U: byte := 117   // u

  // ---------------------------------------------------------------- writing

  function HexDigit(n: nat): byte
    requires n < 16
  {
    if n < 10 then 48 + n else 87 + n
  }

  /** The letter after the backslash, for the control characters that have one in escape. */
  function Letter(c: byte): Option<byte> {
    if c == 8 then Some(98) else if c == 12 then Some(102) else if c == 10 then Some(110)
    else if c == 13 then Some(114) else if c == 9 then Some(116) else None
  }

  function EscapeByte(c: byte, slash: bool): (t: Text)
    ensures t != []
  {
    if c == QUOTE || c == BACKSLASH || (c == SLASH && slash) then [BACKSLASH, c]
    else match Letter(c)
      case Some(l) => [BACKSLASH, l]
      case None =>
        if c <= 0x1F then [BACKSLASH, U, 48, 48, HexDigit(c / 16), HexDigit(c % 16)] else [c]
  }

  function Escaped(s: seq<byte>, slash: bool): Text {
    if s == [] then [] else EscapeByte(s[0], slash) + Escaped(s[1..], slash)
  }

  /** escape. */
  method Escape(s: seq<byte>, slash: bool) returns (ret: Text)
    ensures ret == Escaped(s, slash)
  {
    ret := [];
    var i := 0;
    assert s[0..] == s;
    while i < |s|
      invariant i <= |s| && ret + Escaped(s[i..], slash) == Escaped(s, slash)
    {
      assert s[i..][1..] == s[i + 1..];
      Joined(ret, EscapeByte(s[i], slash), Escaped(s[i + 1..], slash));
      ret := ret + EscapeByte(s[i], slash);
      i := i + 1;
    }
    assert s[i..] == [] && ret + [] == ret;
  }

  lemma Joined(a: Text, b: Text, c: Text)
    ensures a + b + c == a + (b + c)
  {
  }

  // ---------------------------------------------------------------- reading

  function HexValue(c: byte): Option<nat> {
    if 48 <= c <= 57 then Some(c - 48)
    else if 97 <= c <= 102 then Some(c - 87)
    else if 65 <= c <= 70 then Some(c - 55)
    else None
  }

  /** Four hexadecimal digits, as the two bytes they write. */
  function Hex4(t: Text): Option<(byte, byte)> {
    if |t| < 4 then None
    else match (HexValue(t[0]), HexValue(t[1]), HexValue(t[2]), HexValue(t[3]))
      case (Some(a), Some(b), Some(c), Some(d)) => Some((16 * a + b, 16 * c + d))
      case _ => None
  }

  /** chU. */
  function Unit(first: byte, second: byte): seq<byte> {
    if first == 0 && second < 0x80 then [second]
    else if first < 0x08 then [0xC0 + first * 4 + second / 64, 0x80 + second % 64]
    else [0xE0 + first / 16, 0x80 + (first * 4 + second / 64) % 64, 0x80 + second % 64]
  }

  /** The UTF-8 encoding of a code point below 2^16 (section 3 of RFC 3629). */
  function Utf8(n: nat): seq<byte>
    requires n < 0x1_0000
  {
    if n < 0x80 then [n]
    else if n < 0x800 then [0xC0 + n / 64, 0x80 + n % 64]
    else [0xE0 + n / 4096, 0x80 + n / 64 % 64, 0x80 + n % 64]
  }

  /** What four hexadecimal digits are turned into is UTF-8. */
  lemma UnitIsUtf8(first: byte, second: byte)
    ensures Unit(first, second) == Utf8(256 * first + second)
  {
    var n: nat := 256 * first + second;
    assert n / 64 == first * 4 + second / 64 && n % 64 == second % 64 && n / 4096 == first / 16;
  }

  /** chE: the letters that stand for a control character. */
  function Control(c: byte): Option<byte> {
    if c == 98 then Some(8) else if c == 102 then Some(12) else if c == 110 then Some(10)
    else if c == 114 then Some(13) else if c == 116 then Some(9) else if c == 118 then Some(11) else None
  }

  /** What may follow a backslash; a `u` without four digits is a `u`. */
  function Unescaped(t: Text): (r: Option<(seq<byte>, Text)>)
    ensures r.Some? ==> |r.value.1| < |t|
  {
    if t == [] then None
    else if Control(t[0]).Some? then Some(([Control(t[0]).value], t[1..]))
    else if t[0] == U && Hex4(t[1..]).Some? then Some((Unit(Hex4(t[1..]).value.0, Hex4(t[1..]).value.1), t[5..]))
    else if t[0] != 120 && !(48 <= t[0] <= 57) then Some(([t[0]], t[1..]))
    else None
  }

  /** The inside of a string up to the quote that ends it, and what follows that; None if it does not end. */
  function Inside(t: Text, quote: byte): (r: Option<(seq<byte>, Text)>)
    ensures r.Some? ==> |r.value.1| < |t|
    decreases |t|
  {
    if t == [] then None
    else if t[0] == BACKSLASH then
      (match Unescaped(t[1..])
       case None => None
       case Some((x, rest)) => match Inside(rest, quote) case None => None case Some((s, after)) => Some((x + s, after)))
    else if t[0] == quote then Some(([], t[1..]))
    else if t[0] <= 0x1F then None
    else match Inside(t[1..], quote) case None => None case Some((s, after)) => Some(([t[0]] + s, after))
  }

  lemma ByteUnescaped(c: byte, slash: bool, rest: Text)
    ensures EscapeByte(c, slash) == [c] ==> c != BACKSLASH && c != QUOTE && c > 0x1F
    ensures EscapeByte(c, slash) != [c] ==>
      EscapeByte(c, slash)[0] == BACKSLASH && Unescaped(EscapeByte(c, slash)[1..] + rest) == Some(([c], rest))
  {
    if c <= 0x1F && Letter(c) == None {
      var t := EscapeByte(c, slash)[1..] + rest;
      HexBack(c / 16);
      HexBack(c % 16);
      assert t[1] == 48 && t[2] == 48 && t[3] == HexDigit(c / 16) && t[4] == HexDigit(c % 16);
      assert Hex4(t[1..]) == Some((0, 16 * (c / 16) + c % 16));
      assert t[5..] == rest;
    }
  }

  lemma HexBack(n: nat)
    requires n < 16
    ensures HexValue(HexDigit(n)) == Some(n)
  {
  }

  lemma {:induction false} InsideByte(c: byte, slash: bool, rest: Text)
    ensures Inside(EscapeByte(c, slash) + rest, QUOTE) ==
      match Inside(rest, QUOTE) case None => None case Some((s, after)) => Some(([c] + s, after))
  {
    ByteUnescaped(c, slash, rest);
    var e := EscapeByte(c, slash);
    assert (e + rest)[1..] == e[1..] + rest;
    if e == [c] {
      assert e[1..] + rest == rest;
    }
  }

  /** Reading a string back gives every byte of it, whatever the bytes. */
  lemma {:induction false} InsideEscaped(s: seq<byte>, slash: bool, rest: Text)
    ensures Inside(Escaped(s, slash) + ([QUOTE] + rest), QUOTE) == Some((s, rest))
  {
    if s == [] {
      assert [] + ([QUOTE] + rest) == [QUOTE] + rest && ([QUOTE] + rest)[1..] == rest;
    } else {
      InsideEscaped(s[1..], slash, rest);
      Joined(EscapeByte(s[0], slash), Escaped(s[1..], slash), [QUOTE] + rest);
      InsideByte(s[0], slash, Escaped(s[1..], slash) + ([QUOTE] + rest));
      assert s == [s[0]] + s[1..];
    }
  }
}
