/** Ordering: the directions of a key pattern as a bit mask, against reading them off the pattern. */
module Ordering {
  import opened Bytes
  import opened Bson
  import opened Order
  import opened WoCompare
  import opened TypeOrder

  // ---------------------------------------------------------------- bits

  /** `1 << n`, and the mask after `n` shifts: zero once the bit has left the word. */
  function Bit(n: nat): bv32 {
    if n == 0 then 1 else Bit(n - 1) << 1
  }

  function Shifted(x: bv32, n: nat): bv32
    decreases n
  {
    if n == 0 then x else Shifted(x << 1, n - 1)
  }

  lemma ShiftedOnce(x: bv32, n: nat)
    requires 0 < n
    ensures Shifted(x, n) == Shifted(x << 1, n - 1)
  {
  }

  lemma NextBit(i: nat, j: nat)
    requires j == i + 1
    ensures Bit(j) == Bit(i) << 1
  {
  }

  lemma {:induction false} ShiftedBit(i: nat, n: nat, k: nat)
    requires k == i + n
    ensures Shifted(Bit(i), n) == Bit(k)
    decreases n
  {
    if n > 0 {
      ShiftedOnce(Bit(i), n);
      NextBit(i, i + 1);
      ShiftedBit(i + 1, n - 1, k);
    }
  }

  lemma {:induction false} ShiftedZero(n: nat)
    ensures Shifted(0, n) == 0
  {
    if n > 0 {
      ShiftedZero(n - 1);
    }
  }

  lemma TopBit()
    ensures Bit(31) == 0x8000_0000 && Bit(32) == 0
  {
    assert Bit(8) == 0x100;
    assert Bit(16) == 0x1_0000;
    assert Bit(24) == 0x100_0000;
  }

  lemma {:induction false} BitSet(i: nat)
    requires i < 32
    ensures Bit(i) != 0
  {
    TopBit();
    ShiftedBit(i, 31 - i, 31);
    ShiftedZero(31 - i);
  }

  lemma {:induction false} BitGone(i: nat)
    requires 32 <= i
    ensures Bit(i) == 0
  {
    TopBit();
    ShiftedBit(32, i - 32, i);
    ShiftedZero(i - 32);
  }

  lemma {:induction false} BitsDiffer(i: nat, j: nat)
    requires i < j < 32
    ensures Bit(i) & Bit(j) == 0
  {
    if i == 0 {
      Even(Bit(j - 1));
    } else {
      BitsDiffer(i - 1, j - 1);
      TopOut(Bit(i - 1), Bit(j - 1));
    }
  }

  lemma Even(x: bv32)
    ensures 1 & (x << 1) == 0
  {
  }

  lemma TopOut(x: bv32, y: bv32)
    requires x & y == 0
    ensures (x << 1) & (y << 1) == 0
  {
  }

  // ---------------------------------------------------------------- words

  /** A machine word: zero, or, whether the and of two words is not zero, one shifted `n` times, one shift more. */
  datatype Word<!W> = Word(zero: W, or_: (W, W) -> W, meets: (W, W) -> bool, bit: nat -> W, shift: W -> W)

  ghost predicate Lawful<W(!new)>(t: Word<W>) {
    && (forall m: W :: !t.meets(t.zero, m))
    && (forall b: W, x: W, m: W :: t.meets(t.or_(b, x), m) <==> t.meets(b, m) || t.meets(x, m))
    && (forall n: nat, i: nat :: n < 32 ==> (t.meets(t.bit(n), t.bit(i)) <==> n == i))
    && (forall b: W, i: nat :: 32 <= i ==> !t.meets(b, t.bit(i)))
    && (forall n: nat :: t.bit(n + 1) == t.shift(t.bit(n)))
  }

  function Or(b: bv32, x: bv32): bv32 { b | x }

  predicate Meets(b: bv32, m: bv32) { b & m != 0 }

  function Shift(x: bv32): bv32 { x << 1 }

  const BITS: Word<bv32> := Word(0, Or, Meets, Bit, Shift)

  lemma AndSpreads(b: bv32, x: bv32, m: bv32)
    ensures (b | x) & m == (b & m) | (x & m)
  {
  }

  lemma OrIsZero(y: bv32, z: bv32)
    requires y | z == 0
    ensures y == 0 && z == 0
  {
  }

  lemma OrApart(b: bv32, x: bv32, m: bv32, w: bv32)
    requires w == (b & m) | (x & m) && w == 0
    ensures b & m == 0 && x & m == 0
  {
    OrIsZero(b & m, x & m);
  }

  lemma OrOfNone(b: bv32, x: bv32, m: bv32)
    requires (b | x) & m == 0
    ensures b & m == 0 && x & m == 0
  {
    AndSpreads(b, x, m);
    OrApart(b, x, m, (b | x) & m);
  }

  lemma OrMisses(b: bv32, x: bv32, m: bv32)
    requires !Meets(Or(b, x), m)
    ensures !Meets(b, m) && !Meets(x, m)
  {
    OrOfNone(b, x, m);
  }

  lemma MissesOr(b: bv32, x: bv32, m: bv32)
    requires !Meets(b, m) && !Meets(x, m)
    ensures !Meets(Or(b, x), m)
  {
    AndSpreads(b, x, m);
  }

  lemma OrMeets(b: bv32, x: bv32, m: bv32)
    ensures Meets(Or(b, x), m) <==> Meets(b, m) || Meets(x, m)
  {
    if !Meets(Or(b, x), m) {
      OrMisses(b, x, m);
    } else if !Meets(b, m) && !Meets(x, m) {
      MissesOr(b, x, m);
    }
  }

  lemma {:induction false} GoneMeets(x: bv32, i: nat)
    requires 32 <= i
    ensures !Meets(x, Bit(i))
  {
    BitGone(i);
    AndZero(x);
  }

  lemma AndZero(x: bv32)
    ensures x & 0 == 0
  {
  }

  lemma {:induction false} MeetsItself(i: nat)
    requires i < 32
    ensures Meets(Bit(i), Bit(i))
  {
    BitSet(i);
    SelfAnd(Bit(i));
  }

  lemma MeetsSwaps(x: bv32, y: bv32)
    ensures Meets(x, y) == Meets(y, x)
  {
  }

  lemma {:induction false} MeetsNoOther(i: nat, j: nat)
    requires i < j < 32
    ensures !Meets(Bit(i), Bit(j))
  {
    BitsDiffer(i, j);
  }

  lemma {:induction false} BitsMeet(n: nat, i: nat)
    requires n < 32
    ensures Meets(Bit(n), Bit(i)) <==> n == i
  {
    if i >= 32 {
      GoneMeets(Bit(n), i);
    } else if i < n {
      MeetsNoOther(i, n);
      MeetsSwaps(Bit(i), Bit(n));
    } else if n < i {
      MeetsNoOther(n, i);
    } else {
      MeetsItself(i);
    }
  }

  lemma SelfAnd(x: bv32)
    ensures x & x == x
  {
  }

  /** A 32-bit unsigned int is such a word. */
  lemma BitsLawful()
    ensures Lawful(BITS)
  {
    forall b: bv32, x: bv32, m: bv32
      ensures BITS.meets(BITS.or_(b, x), m) <==> BITS.meets(b, m) || BITS.meets(x, m)
    {
      OrMeets(b, x, m);
    }
    forall n: nat, i: nat | n < 32
      ensures BITS.meets(BITS.bit(n), BITS.bit(i)) <==> n == i
    {
      BitsMeet(n, i);
    }
    forall b: bv32, i: nat | 32 <= i
      ensures !BITS.meets(b, BITS.bit(i))
    {
      GoneMeets(b, i);
    }
    forall n: nat
      ensures BITS.bit(n + 1) == BITS.shift(BITS.bit(n))
    {
      NextBit(n, n + 1);
    }
  }

  // ---------------------------------------------------------------- making a mask

  /** number() < 0; of a double, by its bits: negative, not a negative zero, not a NaN. */
  predicate Negative(v: Value)
    requires ValueOk(v)
  {
    v.Raw? &&
    if v.tag == INT || v.tag == LONG then Integer(v.tag, v.raw) < 0
    else v.tag == DOUBLE && 0x8000_0000_0000_0000 < U64(v.raw) <= 0xFFF0_0000_0000_0000
  }

  /**
   A double below zero (IEEE 754): its sign is set, and it is neither a zero, with exponent and fraction
   zero, nor not a number, with exponent 2047 and the fraction not zero.
   */
  predicate BelowZero(raw: seq<byte>)
    requires |raw| == 8
  {
    var sign: int, shared: int := raw[7] / 128, raw[6];
    var exponent := raw[7] as int % 128 * 16 + shared / 16;
    var fraction := shared % 16 != 0 || exists i :: 0 <= i < 6 && raw[i] != 0;
    sign == 1 && (exponent != 0 || fraction) && (exponent != 2047 || !fraction)
  }

  /** An int (16) or a long (18) below zero in two's complement, or a double (1) below zero. */
  predicate Descends(v: Value) {
    && v.Raw?
    && ((v.tag == 16 && |v.raw| == 4 && TwosComplement(v.raw) < 0)
        || (v.tag == 18 && |v.raw| == 8 && TwosComplement(v.raw) < 0)
        || (v.tag == 1 && |v.raw| == 8 && BelowZero(v.raw)))
  }

  lemma {:induction false} NumZero(b: seq<byte>)
    ensures Num(b) == 0 <==> forall i :: 0 <= i < |b| ==> b[i] == 0
  {
    if b != [] {
      NumZero(b[1..]);
      assert forall i :: 0 < i < |b| ==> b[i] == b[1..][i - 1];
    }
  }

  /** A double in three parts: six bytes, the one that exponent and fraction share, and the top one. */
  lemma {:induction false} DoubleParts(raw: seq<byte>)
    requires |raw| == 8
    ensures U64(raw) == Num(raw[..6]) + 0x1_0000_0000_0000 * raw[6] as int + 0x100_0000_0000_0000 * raw[7] as int
    ensures Num(raw[..6]) < 0x1_0000_0000_0000
    ensures Num(raw[..6]) == 0 <==> !exists i :: 0 <= i < 6 && raw[i] != 0
  {
    Halves(raw);
    Top(raw);
    Top(raw[..7]);
    assert raw[..7][..6] == raw[..6];
    NumBound(raw[..6]);
    assert Pow256(6) == 0x1_0000_0000_0000 && Pow256(7) == 0x100_0000_0000_0000 by { Pow4(); assert Pow256(5) == 0x100_0000_0000; }
    NumZero(raw[..6]);
  }

  lemma {:induction false} DoubleDescends(raw: seq<byte>)
    requires |raw| == 8
    ensures 0x8000_0000_0000_0000 < U64(raw) <= 0xFFF0_0000_0000_0000 <==> BelowZero(raw)
  {
    DoubleParts(raw);
  }

  /** What the code tests is the sign. */
  lemma {:induction false} NegativeIs(v: Value)
    requires ValueOk(v)
    ensures Negative(v) <==> Descends(v)
  {
    if v.Raw? {
      if v.tag == DOUBLE {
        DoubleDescends(v.raw);
      } else if v.tag == INT || v.tag == LONG {
        IntegerIs(v);
      }
    }
  }

  /** The directions of a key pattern: negative numbers descend. */
  function Directions(k: seq<Field>): Pattern {
    (i: nat) => i < |k| && Descends(k[i].value)
  }

  lemma {:induction false} FieldAt(k: seq<Field>, i: nat)
    requires FieldsOk(k) && i < |k|
    ensures ValueOk(k[i].value)
  {
    if i > 0 {
      FieldAt(k[1..], i - 1);
    }
  }

  /** The bits below `n` say which of the first fields descend; the others are clear. */
  ghost predicate Marks<W>(t: Word<W>, b: W, k: seq<Field>, n: nat) {
    forall i: nat :: t.meets(b, t.bit(i)) == (i < n && Directions(k)(i))
  }

  /** Ordering::make: None where it asserts, on a pattern of more than 32 fields. */
  method Make<W(!new)>(t: Word<W>, k: seq<Field>) returns (bits: Option<W>)
    requires Lawful(t) && FieldsOk(k)
    ensures bits.Some? <==> |k| <= 32
    ensures bits.Some? ==> forall i: nat :: t.meets(bits.value, t.bit(i)) <==> i < |k| && Descends(k[i].value)
  {
    var b := t.zero;
    var n := 0;
    while n < |k|
      invariant n <= |k| && n <= 32 && Marks(t, b, k, n)
    {
      if n > 31 {
        return None;
      }
      FieldAt(k, n);
      NegativeIs(k[n].value);
      if Negative(k[n].value) {
        b := t.or_(b, t.bit(n));
      }
      n := n + 1;
    }
    bits := Some(b);
  }

  // ---------------------------------------------------------------- comparing by the mask and by the pattern

  /** The directions a mask stands for. */
  function ByMask<W>(t: Word<W>, bits: W): Pattern { (i: nat) => t.meets(bits, t.bit(i)) }

  /** woCompare with an Ordering: the mask moves along with the elements. */
  method CompareByMask<W(!new)>(t: Word<W>, l: seq<Field>, r: seq<Field>, bits: W, names: bool, d: Rounding) returns (x: int)
    requires Lawful(t) && FieldsOk(l) && FieldsOk(r) && NoDoubles(l) && NoDoubles(r)
    ensures x == CompareFields(l, r, ByMask(t, bits), 0, names, d)
  {
    var i, j, mask := l, r, t.bit(0);
    ghost var pos := 0;
    while i != [] && j != []
      invariant FieldsOk(i) && FieldsOk(j) && NoDoubles(i) && NoDoubles(j) && mask == t.bit(pos)
      invariant CompareFields(i, j, ByMask(t, bits), pos, names, d) == CompareFields(l, r, ByMask(t, bits), 0, names, d)
      decreases |i|
    {
      x := Directed(i[0], j[0], t.meets(bits, mask), names, d);
      TurnIs(i, j, ByMask(t, bits), pos, names, d, x);
      if x != 0 {
        return;
      }
      i, j, mask := i[1..], j[1..], t.shift(mask);
      pos := pos + 1;
    }
    return if i == [] then (if j == [] then 0 else -1) else 1;
  }

  method Directed(l: Field, r: Field, descending: bool, names: bool, d: Rounding) returns (x: int)
    requires ValueOk(l.value) && ValueOk(r.value) && NoDouble(l.value) && NoDouble(r.value)
    ensures x == if descending then -CompareElements(l, r, names, d) else CompareElements(l, r, names, d)
  {
    x := CompareElements(l, r, names, d);
    if descending {
      x := -x;
    }
  }

  lemma {:induction false} TurnIs(l: seq<Field>, r: seq<Field>, p: Pattern, pos: nat, names: bool, d: Rounding, x: int)
    requires FieldsOk(l) && FieldsOk(r) && NoDoubles(l) && NoDoubles(r) && l != [] && r != []
    requires x == if p(pos) then -CompareElements(l[0], r[0], names, d) else CompareElements(l[0], r[0], names, d)
    ensures CompareFields(l, r, p, pos, names, d) == if x != 0 then x else CompareFields(l[1..], r[1..], p, pos + 1, names, d)
  {
  }

  /** woCompare with a key pattern, which is read one element further each time; None where it asserts. */
  function CompareByKey(l: seq<Field>, r: seq<Field>, k: seq<Field>, pos: nat, names: bool, d: Rounding): Option<int>
    requires FieldsOk(l) && FieldsOk(r) && FieldsOk(k) && NoDoubles(l) && NoDoubles(r)
    decreases l
  {
    if k != [] && pos > |k| then None
    else if l == [] then Some(if r == [] then 0 else -1)
    else if r == [] then Some(1)
    else
      var x := CompareElements(l[0], r[0], names, d);
      var y := if Directions(k)(pos) then -x else x;
      if y != 0 then Some(y) else CompareByKey(l[1..], r[1..], k, pos + 1, names, d)
  }

  lemma {:induction false} KeyTurnIs(l: seq<Field>, r: seq<Field>, k: seq<Field>, pos: nat, down: bool, names: bool, d: Rounding, y: int)
    requires FieldsOk(l) && FieldsOk(r) && FieldsOk(k) && NoDoubles(l) && NoDoubles(r)
    requires l != [] && r != [] && (k == [] || pos <= |k|)
    requires pos < |k| ==> ValueOk(k[pos].value)
    requires down == (pos < |k| && Negative(k[pos].value))
    requires y == if down then -CompareElements(l[0], r[0], names, d) else CompareElements(l[0], r[0], names, d)
    ensures CompareByKey(l, r, k, pos, names, d) == if y != 0 then Some(y) else CompareByKey(l[1..], r[1..], k, pos + 1, names, d)
  {
    if pos < |k| {
      NegativeIs(k[pos].value);
    }
    assert Directions(k)(pos) == down;
  }

  /** The loop itself. */
  method CompareByPattern(l: seq<Field>, r: seq<Field>, k: seq<Field>, names: bool, d: Rounding) returns (x: Option<int>)
    requires FieldsOk(l) && FieldsOk(r) && FieldsOk(k) && NoDoubles(l) && NoDoubles(r)
    ensures x == CompareByKey(l, r, k, 0, names, d)
  {
    var i, j, pos := l, r, 0;
    while true
      invariant FieldsOk(i) && FieldsOk(j) && NoDoubles(i) && NoDoubles(j)
      invariant CompareByKey(i, j, k, pos, names, d) == CompareByKey(l, r, k, 0, names, d)
      decreases |i|
    {
      if k != [] && pos > |k| {
        return None;
      }
      if i == [] {
        return Some(if j == [] then 0 else -1);
      }
      if j == [] {
        return Some(1);
      }
      if pos < |k| {
        FieldAt(k, pos);
      }
      var down := pos < |k| && Negative(k[pos].value);
      var y := Directed(i[0], j[0], down, names, d);
      KeyTurnIs(i, j, k, pos, down, names, d, y);
      if y != 0 {
        return Some(y);
      }
      i, j, pos := i[1..], j[1..], pos + 1;
    }
  }

  /** The first `n` elements of both compare equal. */
  predicate EqualUpTo(l: seq<Field>, r: seq<Field>, n: nat, names: bool, d: Rounding)
    requires FieldsOk(l) && FieldsOk(r) && NoDoubles(l) && NoDoubles(r)
    decreases n
  {
    n == 0 || (l != [] && r != [] && CompareElements(l[0], r[0], names, d) == 0 && EqualUpTo(l[1..], r[1..], n - 1, names, d))
  }

  /** The comparison by the pattern is that in its directions, unless it runs off the pattern. */
  lemma {:induction false} ByKeyIs(l: seq<Field>, r: seq<Field>, k: seq<Field>, pos: nat, names: bool, d: Rounding)
    requires FieldsOk(l) && FieldsOk(r) && FieldsOk(k) && NoDoubles(l) && NoDoubles(r)
    requires k != [] ==> pos <= |k| + 1
    ensures CompareByKey(l, r, k, pos, names, d) ==
      if k != [] && EqualUpTo(l, r, |k| + 1 - pos, names, d) then None
      else Some(CompareFields(l, r, Directions(k), pos, names, d))
    decreases l
  {
    if l != [] && r != [] && !(k != [] && pos > |k|) && CompareElements(l[0], r[0], names, d) == 0 {
      ByKeyIs(l[1..], r[1..], k, pos + 1, names, d);
    }
  }

  lemma {:induction false} SameDirections(l: seq<Field>, r: seq<Field>, p: Pattern, q: Pattern, pos: nat, names: bool, d: Rounding)
    requires FieldsOk(l) && FieldsOk(r) && NoDoubles(l) && NoDoubles(r) && forall i: nat :: p(i) == q(i)
    ensures CompareFields(l, r, p, pos, names, d) == CompareFields(l, r, q, pos, names, d)
    decreases l
  {
    if l != [] && r != [] {
      SameDirections(l[1..], r[1..], p, q, pos + 1, names, d);
    }
  }

  /**
   For every pattern of at most 32 fields the mask gives the result the pattern gives, for all objects;
   except that the pattern gives none, but asserts, exactly when both objects have more fields than it
   and agree on one more than it has.
   */
  lemma {:induction false} MaskIsKey<W(!new)>(t: Word<W>, l: seq<Field>, r: seq<Field>, k: seq<Field>, bits: W, names: bool, d: Rounding)
    requires Lawful(t) && FieldsOk(l) && FieldsOk(r) && FieldsOk(k) && NoDoubles(l) && NoDoubles(r)
    requires |k| <= 32 && Marks(t, bits, k, |k|)
    ensures CompareByKey(l, r, k, 0, names, d) ==
      if k != [] && EqualUpTo(l, r, |k| + 1, names, d) then None
      else Some(CompareFields(l, r, ByMask(t, bits), 0, names, d))
  {
    ByKeyIs(l, r, k, 0, names, d);
    SameDirections(l, r, ByMask(t, bits), Directions(k), 0, names, d);
  }

  lemma {:induction false} NoMoreFields(l: seq<Field>, r: seq<Field>, n: nat, names: bool, d: Rounding)
    requires FieldsOk(l) && FieldsOk(r) && NoDoubles(l) && NoDoubles(r) && (|l| < n || |r| < n)
    ensures !EqualUpTo(l, r, n, names, d)
  {
    if l != [] && r != [] {
      NoMoreFields(l[1..], r[1..], n - 1, names, d);
    }
  }

  /** In particular the two agree on all objects with no more fields than the pattern. */
  lemma {:induction false} MaskAgrees<W(!new)>(t: Word<W>, l: seq<Field>, r: seq<Field>, k: seq<Field>, bits: W, names: bool, d: Rounding)
    requires Lawful(t) && FieldsOk(l) && FieldsOk(r) && FieldsOk(k) && NoDoubles(l) && NoDoubles(r)
    requires |k| <= 32 && Marks(t, bits, k, |k|) && (|l| <= |k| || |r| <= |k|)
    ensures CompareByKey(l, r, k, 0, names, d) == Some(CompareFields(l, r, ByMask(t, bits), 0, names, d))
  {
    MaskIsKey(t, l, r, k, bits, names, d);
    NoMoreFields(l, r, |k| + 1, names, d);
  }

  /** The same of the 32-bit words of the code. */
  lemma {:induction false} WordMaskIsKey(l: seq<Field>, r: seq<Field>, k: seq<Field>, bits: bv32, names: bool, d: Rounding)
    requires FieldsOk(l) && FieldsOk(r) && FieldsOk(k) && NoDoubles(l) && NoDoubles(r)
    requires |k| <= 32 && Marks(BITS, bits, k, |k|)
    ensures CompareByKey(l, r, k, 0, names, d) ==
      if k != [] && EqualUpTo(l, r, |k| + 1, names, d) then None
      else Some(CompareFields(l, r, ByMask(BITS, bits), 0, names, d))
  {
    BitsLawful();
    MaskIsKey(BITS, l, r, k, bits, names, d);
  }

  // ---------------------------------------------------------------- one field

  /**
   On one field each: for a pattern that gives the integer `m`, an int (16) or a long (18), both ways
   compare the fields, and turn the result round exactly if `m` is negative.
   */
  lemma {:induction false} OneField<W(!new)>(t: Word<W>, l: Field, r: Field, k: Field, m: int, bits: W, names: bool, d: Rounding)
    requires Lawful(t) && FieldsOk([l]) && FieldsOk([r]) && FieldsOk([k]) && NoDoubles([l]) && NoDoubles([r])
    requires k.value.Raw? && k.value.tag in {16, 18} && TwosComplement(k.value.raw) == m && Marks(t, bits, [k], 1)
    ensures ValueOk(l.value) && ValueOk(r.value) && NoDouble(l.value) && NoDouble(r.value)
    ensures var x := CompareElements(l, r, names, d);
      CompareByKey([l], [r], [k], 0, names, d) == Some(if m < 0 then -x else x)
      && CompareFields([l], [r], ByMask(t, bits), 0, names, d) == if m < 0 then -x else x
  {
    assert [l][1..] == [] && [r][1..] == [];
    assert ValueOk([k][0].value);
    assert Directions([k])(0) == (m < 0);
    MaskAgrees(t, [l], [r], [k], bits, names, d);
  }
}
