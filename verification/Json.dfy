/** Documents as JSON text: jsonString, and the grammar rules that read what it prints. */
module Json {
  import opened Bytes
  import opened Bson
  import opened JsonString
  import opened WoCompare
  import LexNum

  const MINUS: byte := 45
  const COMMA: byte := 44
  const COLON: byte := 58
  const OPEN: byte := 123    // {
  const CLOSE: byte := 125   // }
  const OPEN_LIST: byte := 91
  const CLOSE_LIST: byte := 93
  const SPACE: byte := 32

  // ---------------------------------------------------------------- numbers

  function Decimal(n: nat): (d: Text)
    ensures d != [] && LexNum.Digits(d)
  {
    if n < 10 then [48 + n] else Decimal(n / 10) + [48 + n % 10]
  }

  function PrintInt(n: int): Text {
    if n < 0 then [MINUS] + Decimal(-n) else Decimal(n)
  }

  lemma {:induction false} DecimalValue(n: nat)
    ensures LexNum.Value(Decimal(n)) == n && (n > 0 ==> Decimal(n)[0] != 48)
  {
    if n >= 10 {
      DecimalValue(n / 10);
      assert Decimal(n)[..|Decimal(n)| - 1] == Decimal(n / 10);
    } else {
      assert Decimal(n)[..0] == [];
    }
  }

  lemma Pow19()
    ensures LexNum.Pow10(19) == 1_0000_0000_0000_0000_000
  {
    assert LexNum.Pow10(5) == 10_0000;
    assert LexNum.Pow10(10) == 100_0000_0000;
    assert LexNum.Pow10(15) == 1000_0000_0000_0000;
  }

  lemma {:induction false} DecimalLength(n: nat)
    requires n < 1_0000_0000_0000_0000_000
    ensures |Decimal(n)| <= 19
  {
    DecimalValue(n);
    LexNum.ValueBounds(Decimal(n));
    if |Decimal(n)| > 19 && n > 0 {
      Pow19();
      LexNum.PowGrows(19, |Decimal(n)| - 1);
    }
  }

  /** The words of an int and of a long, as append stores them. */
  function IntRaw(n: int): (raw: seq<byte>)
    requires -0x8000_0000 <= n < 0x8000_0000
    ensures |raw| == 4 && I32(raw) == n
  {
    LE32(if n < 0 then n + 0x1_0000_0000 else n)
  }

  lemma IntBack(raw: seq<byte>)
    requires |raw| == 4
    ensures -0x8000_0000 <= I32(raw) < 0x8000_0000 && IntRaw(I32(raw)) == raw
  {
    WordBytes(U32(raw, 0));
  }

  predicate FitsLong(n: int) { -0x8000_0000_0000_0000 <= n < 0x8000_0000_0000_0000 }

  function Unsigned(n: int): nat
    requires FitsLong(n)
  {
    if n < 0 then n + 0x1_0000_0000_0000_0000 else n
  }

  function LongRaw(n: int): (raw: seq<byte>)
    requires FitsLong(n)
    ensures |raw| == 8
  {
    LE32(Unsigned(n) % 0x1_0000_0000) + LE32(Unsigned(n) / 0x1_0000_0000)
  }

  lemma LongBack(raw: seq<byte>)
    requires |raw| == 8
    ensures FitsLong(I64(raw)) && LongRaw(I64(raw)) == raw
  {
    var low, high := raw[..4], raw[4..];
    SameWord(raw, 0, low, 0);
    SameWord(raw, 4, high, 0);
    WordBytes(U32(low, 0));
    WordBytes(U32(high, 0));
    Words(U32(low, 0), U32(high, 0), Unsigned(I64(raw)));
    assert raw == low + high;
  }

  lemma Words(low: u32, high: u32, m: nat)
    requires m == low as int + 0x1_0000_0000 * high
    ensures m % 0x1_0000_0000 == low && m / 0x1_0000_0000 == high
  {
  }

  // ---------------------------------------------------------------- printing

  /** What the model prints: strings and symbols, ints and longs, booleans, null, objects and arrays. */
  predicate Printable(v: Value)
    decreases v, 0
  {
    match v
    case Raw(tag, raw) => (tag == INT && |raw| == 4) || (tag == LONG && |raw| == 8) || (tag == BOOL && |raw| == 1) || (tag == NULL && raw == [])
    case Str(tag, _) => tag == STRING || tag == SYMBOL
    case Doc(tag, fields) => if tag == OBJECT then PrintableDoc(fields) else tag == ARRAY && PrintableList(fields)
    case _ => false
  }

  /** Names have no NUL and do not start with a dollar sign. */
  predicate PrintableDoc(fs: seq<Field>)
    decreases fs, 1
  {
    fs == [] || (NulFree(fs[0].name) && !Dollar(fs[0].name) && Printable(fs[0].value) && PrintableDoc(fs[1..]))
  }

  predicate PrintableList(fs: seq<Field>)
    decreases fs, 1
  {
    fs == [] || (Printable(fs[0].value) && PrintableList(fs[1..]))
  }

  predicate Dollar(name: seq<byte>) { name != [] && name[0] == 36 }

  const TRUE: Text := [116, 114, 117, 101]
  const FALSE: Text := [102, 97, 108, 115, 101]
  const NULLS: Text := [110, 117, 108, 108]

  function Spaces(n: nat): (t: Text)
    ensures forall i :: 0 <= i < |t| ==> t[i] == SPACE
  {
    if n == 0 then [] else [SPACE] + Spaces(n - 1)
  }

  function Deeper(pretty: nat): nat { if pretty == 0 then 0 else pretty + 1 }

  /** A line break and its indent, if pretty. */
  function Break(pretty: nat): Text {
    if pretty == 0 then [] else [10] + Spaces(2 * pretty)
  }

  function Quoted(s: seq<byte>): Text { [QUOTE] + Escaped(s, false) + [QUOTE] }

  /** BSONElement::jsonString without the name. */
  function PrintValue(v: Value, pretty: nat): Text
    requires Printable(v)
    decreases v, 0
  {
    match v
    case Raw(tag, raw) =>
      if tag == INT then PrintInt(I32(raw))
      else if tag == LONG then PrintInt(I64(raw))
      else if tag == BOOL then (if raw[0] != 0 then TRUE else FALSE)
      else NULLS
    case Str(_, s) => Quoted(s)
    case Doc(tag, fields) => if tag == OBJECT then PrintDoc(fields, pretty) else PrintList(fields, pretty)
  }

  /** BSONObj::jsonString. */
  function PrintDoc(fs: seq<Field>, pretty: nat): Text
    requires PrintableDoc(fs)
    decreases fs, 2
  {
    if fs == [] then [OPEN, CLOSE] else [OPEN, SPACE] + PrintMembers(fs, pretty) + [SPACE, CLOSE]
  }

  function PrintMembers(fs: seq<Field>, pretty: nat): Text
    requires PrintableDoc(fs) && fs != []
    decreases fs, 1
  {
    PrintMember(fs[0], pretty) + if |fs| == 1 then [] else [COMMA] + Gap(pretty) + PrintMembers(fs[1..], pretty)
  }

  function Gap(pretty: nat): Text { if pretty == 0 then [SPACE] else Break(pretty) }

  function PrintMember(f: Field, pretty: nat): Text
    requires NulFree(f.name) && !Dollar(f.name) && Printable(f.value)
    decreases f, 1
  {
    Quoted(f.name) + [SPACE, COLON, SPACE] + PrintValue(f.value, Deeper(pretty))
  }

  function PrintList(fs: seq<Field>, pretty: nat): Text
    requires PrintableList(fs)
    decreases fs, 2
  {
    if fs == [] then [OPEN_LIST, CLOSE_LIST] else [OPEN_LIST, SPACE] + PrintElements(fs, pretty) + [SPACE, CLOSE_LIST]
  }

  function PrintElements(fs: seq<Field>, pretty: nat): Text
    requires PrintableList(fs) && fs != []
    decreases fs, 1
  {
    Break(pretty) + PrintValue(fs[0].value, Deeper(pretty)) +
    if |fs| == 1 then [] else [COMMA, SPACE] + PrintElements(fs[1..], pretty)
  }

  // ---------------------------------------------------------------- reading

  predicate IsSpace(c: byte) { c == SPACE || 9 <= c <= 13 }

  function Skip(t: Text): (r: Text)
    ensures |r| <= |t| && (r != [] ==> !IsSpace(r[0]))
  {
    if t != [] && IsSpace(t[0]) then Skip(t[1..]) else t
  }

  /** A token of one character, after space. */
  predicate Starts(t: Text, c: byte) { t != [] && t[0] == c }

  /** long_long_p: a sign, at most 19 digits, within a long long. */
  function ParseInteger(t: Text): (r: Option<(int, Text)>)
    ensures r.Some? ==> |r.value.1| < |t| && FitsLong(r.value.0)
  {
    if Starts(t, MINUS) then
      match ParseDigits(t[1..])
      case None => None
      case Some((n, rest)) => var m: int := 0 - n; if FitsLong(m) then Some((m, rest)) else None
    else if Starts(t, 43) then
      match ParseDigits(t[1..]) case None => None case Some((n, rest)) => if FitsLong(n) then Some((n, rest)) else None
    else match ParseDigits(t) case None => None case Some((n, rest)) => if FitsLong(n) then Some((n, rest)) else None
  }

  function ParseDigits(t: Text): (r: Option<(nat, Text)>)
    ensures r.Some? ==> |r.value.1| < |t|
  {
    var k := if LexNum.DigitRun(t) > 19 then 19 else LexNum.DigitRun(t);
    if k == 0 then None else Some((LexNum.Value(t[..k]), t[k..]))
  }

  /** The value of a number; one that goes on with a point or an exponent is left out. */
  function ParseNumber(t: Text): (r: Option<(Value, Text)>)
    ensures r.Some? ==> |r.value.1| < |t|
  {
    match ParseInteger(t)
    case None => None
    case Some((n, rest)) =>
      if Starts(rest, 46) || Starts(rest, 101) || Starts(rest, 69) then None
      else if -0x8000_0000 <= n < 0x8000_0000 then Some((Raw(INT, IntRaw(n)), rest))
      else Some((Raw(LONG, LongRaw(n)), rest))
  }

  predicate Reserved(name: seq<byte>) {
    name == [36, 111, 105, 100] || name == [36, 98, 105, 110, 97, 114, 121] || name == [36, 116, 121, 112, 101] ||
    name == [36, 100, 97, 116, 101] || name == [36, 114, 101, 103, 101, 120] || name == [36, 111, 112, 116, 105, 111, 110, 115]
  }

  /** An object whose first name starts with a dollar sign may be one of the extensions, which are left out. */
  predicate Extension(t: Text) {
    Starts(t, OPEN) && var u := Skip(t[1..]); Starts(u, QUOTE) && Starts(u[1..], 36)
  }

  predicate NameStart(c: byte) { 65 <= c <= 90 || 97 <= c <= 122 || c == 36 || c == 95 }

  function NameRun(t: Text): (n: nat)
    ensures n <= |t|
  {
    if t == [] || !(NameStart(t[0]) || 48 <= t[0] <= 57) then 0 else 1 + NameRun(t[1..])
  }

  function ParseName(t: Text): (r: Option<(seq<byte>, Text)>)
    ensures r.Some? ==> |r.value.1| < |t|
  {
    if Starts(t, QUOTE) || Starts(t, 39) then
      match Inside(t[1..], t[0])
      case None => None
      case Some((name, rest)) => if Reserved(name) then None else Some((Cut(name), rest))
    else if t != [] && NameStart(t[0]) then Some((t[..NameRun(t)], t[NameRun(t)..]))
    else None
  }

  function ParseValue(s: Text): (r: Option<(Value, Text)>)
    ensures r.Some? ==> |r.value.1| < |s|
    decreases |s|, 3
  {
    ValueAt(Skip(s))
  }

  function ValueAt(t: Text): (r: Option<(Value, Text)>)
    ensures r.Some? ==> |r.value.1| < |t|
    decreases |t|, 2
  {
    if t == [] then None
    else if t[0] == QUOTE || t[0] == 39 then
      match Inside(t[1..], t[0]) case None => None case Some((s, rest)) => Some((Str(STRING, s), rest))
    else if t[0] == MINUS || t[0] == 43 || LexNum.IsNumber(t[0]) then ParseNumber(t)
    else if t[0] == OPEN_LIST then
      match ParseList(t[1..]) case None => None case Some((fs, rest)) => Some((Doc(ARRAY, fs), rest))
    else if TRUE <= t then Some((Raw(BOOL, [1]), t[4..]))
    else if FALSE <= t then Some((Raw(BOOL, [0]), t[5..]))
    else if NULLS <= t then Some((Raw(NULL, []), t[4..]))
    else if t[0] == OPEN && !Extension(t) then
      match ParseDoc(t[1..]) case None => None case Some((fs, rest)) => Some((Doc(OBJECT, fs), rest))
    else None
  }

  /** The rest of an object after its brace. */
  function ParseDoc(s: Text): (r: Option<(seq<Field>, Text)>)
    ensures r.Some? ==> |r.value.1| < |s|
    decreases |s|, 4
  {
    if Starts(Skip(s), CLOSE) then Some(([], Skip(s)[1..]))
    else
      match ParseMembers(s)
      case None => None
      case Some((fs, rest)) => if Starts(rest, CLOSE) then Some((fs, rest[1..])) else None
  }

  /** Members, and what follows them after space. */
  function ParseMembers(s: Text): (r: Option<(seq<Field>, Text)>)
    ensures r.Some? ==> |r.value.1| < |s|
    decreases |s|, 3
  {
    match ParseName(Skip(s))
    case None => None
    case Some((name, rest)) =>
      var u := Skip(rest);
      if !Starts(u, COLON) then None
      else
        match ParseValue(u[1..])
        case None => None
        case Some((v, more)) => MoreMembers(Field(name, v), Skip(more))
  }

  function MoreMembers(f: Field, u: Text): (r: Option<(seq<Field>, Text)>)
    ensures r.Some? ==> |r.value.1| <= |u|
    decreases |u|, 4
  {
    if !Starts(u, COMMA) then Some(([f], u))
    else match ParseMembers(u[1..]) case None => None case Some((fs, rest)) => Some(([f] + fs, rest))
  }

  function ParseList(s: Text): (r: Option<(seq<Field>, Text)>)
    ensures r.Some? ==> |r.value.1| < |s|
    decreases |s|, 5
  {
    if Starts(Skip(s), CLOSE_LIST) then Some(([], Skip(s)[1..]))
    else
      match ParseElements(s, 0)
      case None => None
      case Some((fs, rest)) => if Starts(rest, CLOSE_LIST) then Some((fs, rest[1..])) else None
  }

  /** Elements are named by their index. */
  function ParseElements(s: Text, index: nat): (r: Option<(seq<Field>, Text)>)
    ensures r.Some? ==> |r.value.1| < |s|
    decreases |s|, 4
  {
    match ParseValue(s)
    case None => None
    case Some((v, more)) =>
      var u := Skip(more);
      if !Starts(u, COMMA) then Some(([Field(Decimal(index), v)], u))
      else
        match ParseElements(u[1..], index + 1)
        case None => None
        case Some((fs, rest)) => Some(([Field(Decimal(index), v)] + fs, rest))
  }

  /** fromjson; None where it throws. */
  function FromJson(text: Text): Option<seq<Field>> {
    if text == [] then Some([])
    else if !Starts(Skip(text), OPEN) then None
    else
      match ParseDoc(Skip(text)[1..])
      case None => None
      case Some((fs, rest)) => if Skip(rest) == [] then Some(fs) else None
  }

  // ---------------------------------------------------------------- what comes back

  /** Symbols come back as strings, longs as ints if they fit one, true as 1; elements are named by index. */
  function Read(v: Value): Value
    requires Printable(v)
    decreases v, 0
  {
    match v
    case Raw(tag, raw) =>
      if tag == LONG && -0x8000_0000 <= I64(raw) < 0x8000_0000 then Raw(INT, IntRaw(I64(raw)))
      else if tag == BOOL then Raw(BOOL, [if raw[0] != 0 then 1 else 0])
      else v
    case Str(_, s) => Str(STRING, s)
    case Doc(tag, fields) => if tag == OBJECT then Doc(OBJECT, ReadDoc(fields)) else Doc(ARRAY, ReadList(fields, 0))
  }

  function ReadDoc(fs: seq<Field>): (r: seq<Field>)
    requires PrintableDoc(fs)
    ensures |r| == |fs|
    decreases fs, 1
  {
    if fs == [] then [] else [Field(fs[0].name, Read(fs[0].value))] + ReadDoc(fs[1..])
  }

  function ReadList(fs: seq<Field>, index: nat): (r: seq<Field>)
    requires PrintableList(fs)
    ensures |r| == |fs|
    decreases fs, 1
  {
    if fs == [] then [] else [Field(Decimal(index), Read(fs[0].value))] + ReadList(fs[1..], index + 1)
  }

  // ---------------------------------------------------------------- numbers back

  lemma {:induction false} DigitsEnd(d: Text, rest: Text)
    requires LexNum.Digits(d) && (rest != [] ==> !LexNum.IsNumber(rest[0]))
    ensures LexNum.DigitRun(d + rest) == |d|
  {
    LexNum.RunIs(d + rest, |d|);
  }

  lemma {:induction false} ParsesDecimal(n: nat, rest: Text)
    requires n < 1_0000_0000_0000_0000_000 && rest != [] && !LexNum.IsNumber(rest[0])
    ensures ParseDigits(Decimal(n) + rest) == Some((n, rest))
  {
    var d := Decimal(n);
    DecimalLength(n);
    DecimalValue(n);
    DigitsEnd(d, rest);
    assert (d + rest)[..|d|] == d && (d + rest)[|d|..] == rest;
  }

  /** What follows a printed value. */
  predicate Delimited(rest: Text) { rest != [] && (rest[0] == COMMA || rest[0] == SPACE) }

  lemma {:induction false} ParsesMinus(n: int, rest: Text)
    requires FitsLong(n) && n < 0 && Delimited(rest)
    ensures ParseInteger([MINUS] + Decimal(-n) + rest) == Some((n, rest))
  {
    ParsesDecimal(-n, rest);
    var t := [MINUS] + Decimal(-n) + rest;
    assert t[1..] == Decimal(-n) + rest && t[0] == MINUS;
  }

  lemma {:induction false} ParsesPlus(n: nat, rest: Text)
    requires n < 0x8000_0000_0000_0000 && Delimited(rest)
    ensures ParseInteger(Decimal(n) + rest) == Some((n, rest))
  {
    ParsesDecimal(n, rest);
    assert (Decimal(n) + rest)[0] == Decimal(n)[0] && Decimal(n)[0] in Decimal(n);
  }

  lemma {:induction false} ParsesInt(n: int, rest: Text)
    requires FitsLong(n) && Delimited(rest)
    ensures ParseInteger(PrintInt(n) + rest) == Some((n, rest))
  {
    if n < 0 {
      ParsesMinus(n, rest);
    } else {
      ParsesPlus(n, rest);
    }
  }

  lemma {:induction false} FirstOfInt(n: int, rest: Text)
    ensures PrintInt(n) != [] && (PrintInt(n)[0] == MINUS || LexNum.IsNumber(PrintInt(n)[0]))
    ensures (PrintInt(n) + rest)[0] == PrintInt(n)[0]
  {
  }

  lemma {:induction false} ParsesNumber(v: Value, n: int, rest: Text)
    requires Printable(v) && v.Raw? && (v.tag == INT || v.tag == LONG) && n == Integer(v.tag, v.raw) && Delimited(rest)
    ensures FitsLong(n) && ParseNumber(PrintInt(n) + rest) == Some((Read(v), rest))
  {
    if v.tag == INT {
      IntBack(v.raw);
    } else {
      LongBack(v.raw);
    }
    ParsesInt(n, rest);
  }

  // ---------------------------------------------------------------- space

  lemma {:induction false} Skips(gap: Text, t: Text)
    requires forall i :: 0 <= i < |gap| ==> IsSpace(gap[i])
    ensures Skip(gap + t) == Skip(t)
  {
    if gap == [] {
      assert gap + t == t;
    } else {
      Skips(gap[1..], t);
      assert (gap + t)[1..] == gap[1..] + t;
    }
  }

  lemma BreakIsSpace(pretty: nat)
    ensures forall i :: 0 <= i < |Break(pretty)| ==> IsSpace(Break(pretty)[i])
    ensures forall i :: 0 <= i < |Gap(pretty)| ==> IsSpace(Gap(pretty)[i])
  {
  }

  // ---------------------------------------------------------------- strings and names back

  lemma {:induction false} ParsesQuoted(s: seq<byte>, rest: Text)
    ensures Quoted(s) + rest == [QUOTE] + (Escaped(s, false) + ([QUOTE] + rest))
    ensures Inside((Quoted(s) + rest)[1..], QUOTE) == Some((s, rest))
  {
    assert Quoted(s) + rest == [QUOTE] + (Escaped(s, false) + ([QUOTE] + rest));
    InsideEscaped(s, false, rest);
    assert (Quoted(s) + rest)[1..] == Escaped(s, false) + ([QUOTE] + rest);
  }

  lemma {:induction false} CutWhole(s: seq<byte>)
    requires NulFree(s)
    ensures Cut(s) == s
  {
    NoEnd(s);
  }

  lemma {:induction false} NoEnd(s: seq<byte>)
    requires NulFree(s)
    ensures StrLen(s) == None
  {
    if s != [] {
      NoEnd(s[1..]);
    }
  }

  lemma {:induction false} ParsesName(name: seq<byte>, rest: Text)
    requires NulFree(name) && !Dollar(name)
    ensures ParseName(Quoted(name) + rest) == Some((name, rest))
  {
    ParsesQuoted(name, rest);
    CutWhole(name);
    assert (Quoted(name) + rest)[0] == QUOTE;
  }

  lemma {:induction false} NoDollar(name: seq<byte>, rest: Text)
    requires !Dollar(name)
    ensures !Starts((Quoted(name) + rest)[1..], 36)
  {
    ParsesQuoted(name, rest);
    if name == [] {
      assert Escaped(name, false) + ([QUOTE] + rest) == [QUOTE] + rest;
    } else {
      var e := EscapeByte(name[0], false);
      assert Escaped(name, false)[0] == e[0];
      assert e[0] != 36;
    }
  }

  // ---------------------------------------------------------------- one value, member, element

  /** The text reads as the value, whatever delimits it. */
  ghost predicate ReadsAs(t: Text, v: Value) {
    && t != [] && !IsSpace(t[0])
    && forall rest: Text {:trigger ValueAt(t + rest)} :: Delimited(rest) ==> ValueAt(t + rest) == Some((v, rest))
  }

  lemma {:induction false} ReadsAfter(gap: Text, t: Text, v: Value, rest: Text)
    requires ReadsAs(t, v) && Delimited(rest) && forall i :: 0 <= i < |gap| ==> IsSpace(gap[i])
    ensures ParseValue(gap + (t + rest)) == Some((v, rest))
  {
    Skips(gap, t + rest);
    assert (t + rest)[0] == t[0];
    assert Skip(t + rest) == t + rest;
  }

  lemma {:induction false} MemberReads(gap: Text, name: seq<byte>, t: Text, v: Value, more: Text)
    requires NulFree(name) && !Dollar(name) && ReadsAs(t, v) && Delimited(more)
    requires forall i :: 0 <= i < |gap| ==> IsSpace(gap[i])
    ensures ParseMembers(gap + (Quoted(name) + ([SPACE, COLON, SPACE] + (t + more)))) == MoreMembers(Field(name, v), Skip(more))
  {
    var after := [SPACE, COLON, SPACE] + (t + more);
    Skips(gap, Quoted(name) + after);
    assert (Quoted(name) + after)[0] == QUOTE;
    assert Skip(Quoted(name) + after) == Quoted(name) + after;
    ParsesName(name, after);
    AfterName(after, t + more);
    ReadsAfter([SPACE], t, v, more);
  }

  lemma {:induction false} AfterName(after: Text, t: Text)
    requires after == [SPACE, COLON, SPACE] + t
    ensures Starts(Skip(after), COLON) && Skip(after)[1..] == [SPACE] + t
  {
    assert after[0] == SPACE && after[1..][0] == COLON;
    assert Skip(after) == Skip(after[1..]) == after[1..];
  }

  lemma {:induction false} LastOfAll(close: byte, rest: Text)
    requires !IsSpace(close)
    ensures Skip([SPACE, close] + rest) == [close] + rest && Delimited([SPACE, close] + rest)
  {
    var t := [SPACE, close] + rest;
    assert t[1..] == [close] + rest && t[0] == SPACE;
    assert Skip(t) == Skip(t[1..]);
  }

  lemma {:induction false} NotLast(t: Text)
    ensures Skip([COMMA] + t) == [COMMA] + t && Delimited([COMMA] + t) && ([COMMA] + t)[1..] == t
  {
  }

  // ---------------------------------------------------------------- reading inverts printing

  lemma {:induction false} RawReads(v: Value, pretty: nat)
    requires Printable(v) && v.Raw?
    ensures ReadsAs(PrintValue(v, pretty), Read(v))
  {
    var t := PrintValue(v, pretty);
    if v.tag == INT || v.tag == LONG {
      NumberReads(v, Integer(v.tag, v.raw), t);
    } else if v.tag == BOOL && v.raw[0] == 0 {
      FalseReads();
    } else if v.tag == BOOL {
      TrueReads();
    } else {
      NullReads();
    }
  }

  lemma {:induction false} NumberReads(v: Value, n: int, t: Text)
    requires Printable(v) && v.Raw? && (v.tag == INT || v.tag == LONG) && n == Integer(v.tag, v.raw) && t == PrintInt(n)
    ensures ReadsAs(t, Read(v))
  {
    forall rest: Text | Delimited(rest)
      ensures ValueAt(t + rest) == Some((Read(v), rest))
    {
      FirstOfInt(n, rest);
      ParsesNumber(v, n, rest);
    }
    FirstOfInt(n, []);
  }

  lemma {:induction false} TrueReads()
    ensures ReadsAs(TRUE, Raw(BOOL, [1]))
  {
    forall rest: Text
      ensures ValueAt(TRUE + rest) == Some((Raw(BOOL, [1]), rest))
    {
      assert (TRUE + rest)[..4] == TRUE && (TRUE + rest)[4..] == rest && (TRUE + rest)[0] == 116;
    }
  }

  lemma {:induction false} FalseReads()
    ensures ReadsAs(FALSE, Raw(BOOL, [0]))
  {
    forall rest: Text
      ensures ValueAt(FALSE + rest) == Some((Raw(BOOL, [0]), rest))
    {
      assert (FALSE + rest)[..5] == FALSE && (FALSE + rest)[5..] == rest && (FALSE + rest)[0] == 102;
    }
  }

  lemma {:induction false} NullReads()
    ensures ReadsAs(NULLS, Raw(NULL, []))
  {
    forall rest: Text
      ensures ValueAt(NULLS + rest) == Some((Raw(NULL, []), rest))
    {
      assert (NULLS + rest)[..4] == NULLS && (NULLS + rest)[4..] == rest && (NULLS + rest)[0] == 110;
    }
  }

  lemma {:induction false} StringReads(s: seq<byte>)
    ensures ReadsAs(Quoted(s), Str(STRING, s))
  {
    forall rest: Text
      ensures ValueAt(Quoted(s) + rest) == Some((Str(STRING, s), rest))
    {
      ParsesQuoted(s, rest);
      assert (Quoted(s) + rest)[0] == QUOTE;
    }
  }

  /** The text is an object, or a list, of these fields, whatever follows it. */
  ghost predicate ReadsDoc(t: Text, fs: seq<Field>) {
    && Starts(t, OPEN)
    && forall rest: Text {:trigger t + rest} :: ParseDoc((t + rest)[1..]) == Some((fs, rest)) && !Extension(t + rest)
  }

  ghost predicate ReadsList(t: Text, fs: seq<Field>) {
    && Starts(t, OPEN_LIST)
    && forall rest: Text {:trigger t + rest} :: ParseList((t + rest)[1..]) == Some((fs, rest))
  }

  lemma {:induction false} DocReads(t: Text, fs: seq<Field>)
    requires ReadsDoc(t, fs)
    ensures ReadsAs(t, Doc(OBJECT, fs))
  {
    forall rest: Text
      ensures ValueAt(t + rest) == Some((Doc(OBJECT, fs), rest))
    {
      assert (t + rest)[0] == OPEN;
      assert TRUE[0] != OPEN && FALSE[0] != OPEN && NULLS[0] != OPEN;
    }
  }

  lemma {:induction false} ListReads(t: Text, fs: seq<Field>)
    requires ReadsList(t, fs)
    ensures ReadsAs(t, Doc(ARRAY, fs))
  {
    forall rest: Text
      ensures ValueAt(t + rest) == Some((Doc(ARRAY, fs), rest))
    {
      assert (t + rest)[0] == OPEN_LIST;
    }
  }

  lemma {:induction false} ValueReads(v: Value, pretty: nat)
    requires Printable(v)
    ensures ReadsAs(PrintValue(v, pretty), Read(v))
    decreases v, 0
  {
    match v
    case Raw(_, _) => RawReads(v, pretty);
    case Str(_, s) => StringReads(s);
    case Doc(tag, fields) =>
      if tag == OBJECT {
        PrintedDoc(fields, pretty);
        DocReads(PrintDoc(fields, pretty), ReadDoc(fields));
      } else {
        PrintedList(fields, pretty);
        ListReads(PrintList(fields, pretty), ReadList(fields, 0));
      }
  }

  lemma {:induction false} PrintedDoc(fs: seq<Field>, pretty: nat)
    requires PrintableDoc(fs)
    ensures ReadsDoc(PrintDoc(fs, pretty), ReadDoc(fs))
    decreases fs, 2
  {
    var t := PrintDoc(fs, pretty);
    forall rest: Text
      ensures ParseDoc((t + rest)[1..]) == Some((ReadDoc(fs), rest)) && !Extension(t + rest)
    {
      if fs == [] {
        EmptyBraces(t, rest);
      } else {
        Members(fs, pretty, [SPACE], rest);
        InBraces(PrintMembers(fs, pretty), ReadDoc(fs), t, rest);
      }
    }
  }

  lemma {:induction false} EmptyBraces(t: Text, rest: Text)
    requires t == [OPEN, CLOSE]
    ensures ParseDoc((t + rest)[1..]) == Some(([], rest)) && !Extension(t + rest)
  {
    var s := (t + rest)[1..];
    assert s == [CLOSE] + rest && Skip(s) == s && s[1..] == rest;
  }

  lemma {:induction false} InBraces(inner: Text, fs: seq<Field>, t: Text, rest: Text)
    requires t == [OPEN, SPACE] + inner + [SPACE, CLOSE] && Starts(inner, QUOTE) && !Starts(inner[1..], 36) && |inner| > 1
    requires ParseMembers([SPACE] + (inner + ([SPACE, CLOSE] + rest))) == Some((fs, [CLOSE] + rest))
    ensures ParseDoc((t + rest)[1..]) == Some((fs, rest)) && !Extension(t + rest)
  {
    var u := inner + ([SPACE, CLOSE] + rest);
    Braced(inner, t, rest, u);
    StartsInside([SPACE] + u, u);
    assert ([CLOSE] + rest)[1..] == rest;
    assert u[1..][0] == inner[1..][0];
  }

  lemma Braced(inner: Text, t: Text, rest: Text, u: Text)
    requires t == [OPEN, SPACE] + inner + [SPACE, CLOSE] && u == inner + ([SPACE, CLOSE] + rest)
    ensures (t + rest)[1..] == [SPACE] + u && (t + rest)[0] == OPEN
  {
  }

  lemma {:induction false} StartsInside(s: Text, u: Text)
    requires s == [SPACE] + u && Starts(u, QUOTE)
    ensures Skip(s) == u
  {
    Skips([SPACE], u);
  }

  /** The members printed start with a quoted name without dollar sign. */
  lemma {:induction false} MembersStart(fs: seq<Field>, pretty: nat)
    requires PrintableDoc(fs) && fs != []
    ensures Starts(PrintMembers(fs, pretty), QUOTE) && |PrintMembers(fs, pretty)| > 1 && !Starts(PrintMembers(fs, pretty)[1..], 36)
  {
    var name, value := Quoted(fs[0].name), PrintValue(fs[0].value, Deeper(pretty));
    var more := if |fs| == 1 then [] else [COMMA] + Gap(pretty) + PrintMembers(fs[1..], pretty);
    assert PrintMembers(fs, pretty) == name + [SPACE, COLON, SPACE] + value + more;
    assert name + [SPACE, COLON, SPACE] + value + more == name + ([SPACE, COLON, SPACE] + value + more);
    NoDollar(fs[0].name, [SPACE, COLON, SPACE] + value + more);
  }

  lemma {:induction false} Members(fs: seq<Field>, pretty: nat, gap: Text, rest: Text)
    requires PrintableDoc(fs) && fs != [] && forall i :: 0 <= i < |gap| ==> IsSpace(gap[i])
    ensures ParseMembers(gap + (PrintMembers(fs, pretty) + ([SPACE, CLOSE] + rest))) == Some((ReadDoc(fs), [CLOSE] + rest))
    ensures Starts(PrintMembers(fs, pretty), QUOTE) && |PrintMembers(fs, pretty)| > 1 && !Starts(PrintMembers(fs, pretty)[1..], 36)
    decreases fs, 1
  {
    var f, tail := fs[0], [SPACE, CLOSE] + rest;
    var t := PrintValue(f.value, Deeper(pretty));
    MembersStart(fs, pretty);
    ValueReads(f.value, Deeper(pretty));
    LastOfAll(CLOSE, rest);
    if |fs| == 1 {
      MemberReads(gap, f.name, t, Read(f.value), tail);
      OnlyMember(Quoted(f.name), t, PrintMembers(fs, pretty), tail);
      assert ReadDoc(fs[1..]) == [] && ReadDoc(fs) == [Field(f.name, Read(f.value))];
    } else {
      var next := PrintMembers(fs[1..], pretty) + tail;
      BreakIsSpace(pretty);
      Members(fs[1..], pretty, Gap(pretty), rest);
      NotLast(Gap(pretty) + next);
      MemberReads(gap, f.name, t, Read(f.value), [COMMA] + (Gap(pretty) + next));
      FirstMember(Quoted(f.name), t, Gap(pretty), PrintMembers(fs[1..], pretty), PrintMembers(fs, pretty), tail);
    }
  }

  lemma OnlyMember(name: Text, t: Text, all: Text, tail: Text)
    requires all == name + [SPACE, COLON, SPACE] + t + []
    ensures all + tail == name + ([SPACE, COLON, SPACE] + (t + tail))
  {
  }

  lemma FirstMember(name: Text, t: Text, gap: Text, more: Text, all: Text, tail: Text)
    requires all == name + [SPACE, COLON, SPACE] + t + ([COMMA] + gap + more)
    ensures all + tail == name + ([SPACE, COLON, SPACE] + (t + ([COMMA] + (gap + (more + tail)))))
  {
  }

  // ---------------------------------------------------------------- lists

  lemma {:induction false} PrintedList(fs: seq<Field>, pretty: nat)
    requires PrintableList(fs)
    ensures ReadsList(PrintList(fs, pretty), ReadList(fs, 0))
    decreases fs, 2
  {
    var t := PrintList(fs, pretty);
    forall rest: Text
      ensures ParseList((t + rest)[1..]) == Some((ReadList(fs, 0), rest))
    {
      if fs == [] {
        EmptyBrackets(t, rest);
      } else {
        Elements(fs, 0, pretty, [SPACE], rest);
        InBrackets(PrintElements(fs, pretty), ReadList(fs, 0), t, rest);
      }
    }
  }

  lemma {:induction false} EmptyBrackets(t: Text, rest: Text)
    requires t == [OPEN_LIST, CLOSE_LIST]
    ensures ParseList((t + rest)[1..]) == Some(([], rest))
  {
    var s := (t + rest)[1..];
    assert s == [CLOSE_LIST] + rest && Skip(s) == s && s[1..] == rest;
  }

  lemma {:induction false} InBrackets(inner: Text, fs: seq<Field>, t: Text, rest: Text)
    requires t == [OPEN_LIST, SPACE] + inner + [SPACE, CLOSE_LIST]
    requires ParseElements([SPACE] + (inner + ([SPACE, CLOSE_LIST] + rest)), 0) == Some((fs, [CLOSE_LIST] + rest))
    ensures ParseList((t + rest)[1..]) == Some((fs, rest))
  {
    var s := (t + rest)[1..];
    assert s == [SPACE] + (inner + ([SPACE, CLOSE_LIST] + rest));
    if Starts(Skip(s), CLOSE_LIST) {
      NoElement(s);
    }
    assert ([CLOSE_LIST] + rest)[1..] == rest;
  }

  lemma {:induction false} NoElement(s: Text)
    requires Starts(Skip(s), CLOSE_LIST)
    ensures ParseElements(s, 0) == None
  {
    var t := Skip(s);
    assert TRUE[0] != t[0] && FALSE[0] != t[0] && NULLS[0] != t[0];
    assert ValueAt(t) == None;
  }

  lemma {:induction false} Elements(fs: seq<Field>, index: nat, pretty: nat, gap: Text, rest: Text)
    requires PrintableList(fs) && fs != [] && forall i :: 0 <= i < |gap| ==> IsSpace(gap[i])
    ensures ParseElements(gap + (PrintElements(fs, pretty) + ([SPACE, CLOSE_LIST] + rest)), index)
         == Some((ReadList(fs, index), [CLOSE_LIST] + rest))
    decreases fs, 1
  {
    var v, tail := fs[0].value, [SPACE, CLOSE_LIST] + rest;
    var t := PrintValue(v, Deeper(pretty));
    ValueReads(v, Deeper(pretty));
    LastOfAll(CLOSE_LIST, rest);
    BreakIsSpace(pretty);
    if |fs| == 1 {
      ReadsAfter(gap + Break(pretty), t, Read(v), tail);
      OnlyElement(gap, Break(pretty), t, PrintElements(fs, pretty), tail);
      assert ReadList(fs[1..], index + 1) == [] && ReadList(fs, index) == [Field(Decimal(index), Read(v))];
    } else {
      var next := PrintElements(fs[1..], pretty) + tail;
      Elements(fs[1..], index + 1, pretty, [SPACE], rest);
      NotLast([SPACE] + next);
      ReadsAfter(gap + Break(pretty), t, Read(v), [COMMA] + ([SPACE] + next));
      FirstElement(gap, Break(pretty), t, PrintElements(fs[1..], pretty), PrintElements(fs, pretty), tail);
    }
  }

  lemma OnlyElement(gap: Text, line: Text, t: Text, all: Text, tail: Text)
    requires all == line + t + []
    ensures gap + (all + tail) == gap + line + (t + tail)
  {
  }

  lemma FirstElement(gap: Text, line: Text, t: Text, more: Text, all: Text, tail: Text)
    requires all == line + t + ([COMMA, SPACE] + more)
    ensures gap + (all + tail) == gap + line + (t + ([COMMA] + ([SPACE] + (more + tail))))
  {
  }

  /** For every printable document and every indentation, reading what was printed gives what Read says. */
  lemma {:induction false} FromJsonPrint(fs: seq<Field>, pretty: nat)
    requires PrintableDoc(fs)
    ensures FromJson(PrintDoc(fs, pretty)) == Some(ReadDoc(fs))
  {
    var t := PrintDoc(fs, pretty);
    PrintedDoc(fs, pretty);
    assert t + [] == t;
    assert Skip(t) == t;
  }

  // ---------------------------------------------------------------- exactly what comes back unchanged

  predicate Plain(v: Value)
    requires Printable(v)
    decreases v, 0
  {
    match v
    case Raw(tag, raw) =>
      (tag == LONG ==> !(-0x8000_0000 <= I64(raw) < 0x8000_0000)) && (tag == BOOL ==> raw[0] <= 1)
    case Str(tag, _) => tag == STRING
    case Doc(tag, fields) => if tag == OBJECT then PlainDoc(fields) else PlainList(fields, 0)
  }

  predicate PlainDoc(fs: seq<Field>)
    requires PrintableDoc(fs)
    decreases fs, 1
  {
    fs == [] || (Plain(fs[0].value) && PlainDoc(fs[1..]))
  }

  /** Elements are named by their index. */
  predicate PlainList(fs: seq<Field>, index: nat)
    requires PrintableList(fs)
    decreases fs, 1
  {
    fs == [] || (fs[0].name == Decimal(index) && Plain(fs[0].value) && PlainList(fs[1..], index + 1))
  }

  lemma {:induction false} ReadIff(v: Value)
    requires Printable(v)
    ensures Read(v) == v <==> Plain(v)
    decreases v, 0
  {
    match v
    case Raw(_, _) =>
    case Str(_, _) =>
    case Doc(tag, fields) => if tag == OBJECT { ReadDocIff(fields); } else { ReadListIff(fields, 0); }
  }

  lemma {:induction false} ReadDocIff(fs: seq<Field>)
    requires PrintableDoc(fs)
    ensures ReadDoc(fs) == fs <==> PlainDoc(fs)
    decreases fs, 1
  {
    if fs != [] {
      ReadIff(fs[0].value);
      ReadDocIff(fs[1..]);
      assert fs == [fs[0]] + fs[1..] && ReadDoc(fs)[1..] == ReadDoc(fs[1..]);
    }
  }

  lemma {:induction false} ReadListIff(fs: seq<Field>, index: nat)
    requires PrintableList(fs)
    ensures ReadList(fs, index) == fs <==> PlainList(fs, index)
    decreases fs, 1
  {
    if fs != [] {
      ReadIff(fs[0].value);
      ReadListIff(fs[1..], index + 1);
      assert fs == [fs[0]] + fs[1..] && ReadList(fs, index)[1..] == ReadList(fs[1..], index + 1);
    }
  }

  /**
   Printing then parsing is the identity exactly on documents without symbols, without longs that fit
   an int, with booleans of 0 or 1, and with array elements named by their index.
   */
  lemma {:induction false} RoundTripIff(fs: seq<Field>, pretty: nat)
    requires PrintableDoc(fs)
    ensures FromJson(PrintDoc(fs, pretty)) == Some(fs) <==> PlainDoc(fs)
  {
    FromJsonPrint(fs, pretty);
    ReadDocIff(fs);
  }
}
