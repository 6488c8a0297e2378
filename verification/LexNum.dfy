/**
 Natural-order comparison of names: runs of digits compare as numbers, everything else as
 characters; and the comparison of dotted names segment by segment.
 */
module LexNum {
  import opened Bytes
  import opened Order

  predicate IsNumber(c: byte) { 48 <= c <= 57 }

  /** A plain char is signed. */
  function Signed(c: byte): int {
    if c < 128 then c else c - 256
  }

  // ---------------------------------------------------------------- what is compared

  /** One token: characters below numbers below the character 255, and within a class by value. */
  function Token(class_: nat, value: int): Key { L([I(class_), I(value)]) }

  lemma TokenCmp(c: nat, v: int, d: nat, w: int)
    ensures Cmp(Token(c, v), Token(d, w)) == if c != d then Sign(c - d) else Sign(v - w)
  {
    Pairs(I(c), I(v), I(d), I(w));
  }

  /** How many digits the string starts with. */
  function DigitRun(s: seq<byte>): (n: nat)
    ensures n <= |s| && (forall i :: 0 <= i < n ==> IsNumber(s[i])) && (n < |s| ==> !IsNumber(s[n]))
  {
    if s == [] || !IsNumber(s[0]) then 0 else 1 + DigitRun(s[1..])
  }

  predicate Digits(d: seq<byte>) {
    forall i :: 0 <= i < |d| ==> IsNumber(d[i])
  }

  /** The number a string of digits writes, however long. */
  function Value(d: seq<byte>): nat
    requires Digits(d)
  {
    if d == [] then 0 else 10 * Value(d[..|d| - 1]) + (d[|d| - 1] - 48)
  }

  function ClassOf(c: byte): nat { if IsNumber(c) then 1 else if c == 255 then 2 else 0 }

  function ValueOf(s: seq<byte>): int
    requires s != []
  {
    if IsNumber(s[0]) then Value(s[..DigitRun(s)]) else if s[0] == 255 then 0 else Signed(s[0])
  }

  /** The token a string starts with, and its length. */
  function FirstKey(s: seq<byte>): Key
    requires s != []
  {
    Token(ClassOf(s[0]), ValueOf(s))
  }

  function Width(s: seq<byte>): (n: nat)
    requires s != []
    ensures 0 < n <= |s|
  {
    if IsNumber(s[0]) then DigitRun(s) else 1
  }

  function Keys(s: seq<byte>): seq<Key> {
    if s == [] then [] else [FirstKey(s)] + Keys(s[Width(s)..])
  }

  // ---------------------------------------------------------------- numbers

  function Pow10(n: nat): nat {
    if n == 0 then 1 else 10 * Pow10(n - 1)
  }

  lemma {:induction false} ValueBounds(d: seq<byte>)
    requires Digits(d)
    ensures Value(d) < Pow10(|d|)
    ensures d != [] && d[0] != 48 ==> Pow10(|d| - 1) <= Value(d)
  {
    if |d| > 0 {
      ValueBounds(d[..|d| - 1]);
    }
  }

  lemma {:induction false} PowGrows(m: nat, n: nat)
    requires m <= n
    ensures 0 < Pow10(m) <= Pow10(n)
  {
    if m < n {
      PowGrows(m, n - 1);
    } else if 0 < m {
      PowGrows(m - 1, m - 1);
    }
  }

  /** The longer of two numbers without leading zeros is the greater. */
  lemma {:induction false} LongerIsGreater(a: seq<byte>, b: seq<byte>)
    requires Digits(a) && Digits(b) && |b| < |a| && a[0] != 48
    ensures Value(b) < Value(a)
  {
    ValueBounds(a);
    ValueBounds(b);
    PowGrows(|b|, |a| - 1);
  }

  lemma {:induction false} LeadingZero(d: seq<byte>)
    requires Digits(d) && d != [] && d[0] == 48
    ensures Value(d) == Value(d[1..])
  {
    if |d| > 1 {
      var init := d[..|d| - 1];
      LeadingZero(init);
      assert init[1..] == d[1..][..|d[1..]| - 1];
    }
  }

  /** strncmp of equally many digits: the first difference decides. */
  function StrCmp(a: seq<byte>, b: seq<byte>): int
    requires |a| == |b|
  {
    if a == [] then 0
    else if a[0] != b[0] then Sign(a[0] as int - b[0])
    else StrCmp(a[1..], b[1..])
  }

  lemma {:induction false} StrCmpLast(a: seq<byte>, b: seq<byte>)
    requires |a| == |b| > 0
    ensures var n := |a| - 1;
      StrCmp(a, b) == if StrCmp(a[..n], b[..n]) != 0 then StrCmp(a[..n], b[..n]) else Sign(a[n] as int - b[n])
  {
    var n := |a| - 1;
    if n > 0 && a[0] == b[0] {
      StrCmpLast(a[1..], b[1..]);
      assert a[1..][..n - 1] == a[..n][1..] && b[1..][..n - 1] == b[..n][1..];
    }
  }

  lemma {:induction false} StrCmpIsValue(a: seq<byte>, b: seq<byte>)
    requires |a| == |b| && Digits(a) && Digits(b)
    ensures StrCmp(a, b) == Sign(Value(a) - Value(b))
  {
    if |a| > 0 {
      StrCmpIsValue(a[..|a| - 1], b[..|b| - 1]);
      StrCmpLast(a, b);
    }
  }

  // ---------------------------------------------------------------- the cursor loop

  lemma {:induction false} ZerosSkip(d: seq<byte>, z: nat)
    requires Digits(d) && z <= |d| && forall i :: 0 <= i < z ==> d[i] == 48
    ensures Value(d) == Value(d[z..])
  {
    if z > 0 {
      LeadingZero(d);
      ZerosSkip(d[1..], z - 1);
      assert d[1..][z - 1..] == d[z..];
    } else {
      assert d[0..] == d;
    }
  }

  /** Comparing by length and then by strncmp, once zeros are skipped, compares the numbers. */
  lemma {:induction false} NumberCmp(a: seq<byte>, b: seq<byte>)
    requires Digits(a) && Digits(b) && (a != [] ==> a[0] != 48) && (b != [] ==> b[0] != 48)
    ensures Sign(Value(a) - Value(b)) ==
      if |a| > |b| then 1 else if |b| > |a| then -1 else StrCmp(a, b)
  {
    if |a| > |b| {
      LongerIsGreater(a, b);
    } else if |b| > |a| {
      LongerIsGreater(b, a);
    } else {
      StrCmpIsValue(a, b);
    }
  }

  lemma {:induction false} RunIs(s: seq<byte>, n: nat)
    requires n <= |s| && (forall i :: 0 <= i < n ==> IsNumber(s[i])) && (n < |s| ==> !IsNumber(s[n]))
    ensures DigitRun(s) == n
  {
    if n > 0 {
      RunIs(s[1..], n - 1);
    }
  }

  /** From `i`: past the zeros, then past the other digits. */
  method ScanNumber(s: seq<byte>, i: nat) returns (start: nat, end: nat)
    requires i < |s| && IsNumber(s[i])
    ensures i <= start <= end <= |s| && i < end && Digits(s[start..end]) && (start < end ==> s[start] != 48)
    ensures Keys(s[i..]) == [Token(1, Value(s[start..end]))] + Keys(s[end..])
  {
    start := i;
    while start < |s| && s[start] == 48
      invariant i <= start <= |s| && forall k :: i <= k < start ==> s[k] == 48
    {
      start := start + 1;
    }
    end := start;
    while end < |s| && IsNumber(s[end])
      invariant start <= end <= |s| && forall k :: i <= k < end ==> IsNumber(s[k])
    {
      end := end + 1;
    }
    NumberKeys(s, i, start, end);
  }

  lemma {:induction false} NumberKeys(s: seq<byte>, i: nat, start: nat, end: nat)
    requires i < |s| && i <= start <= end <= |s| && i < end && (end < |s| ==> !IsNumber(s[end]))
    requires (forall k :: i <= k < end ==> IsNumber(s[k])) && forall k :: i <= k < start ==> s[k] == 48
    ensures Digits(s[start..end]) && Keys(s[i..]) == [Token(1, Value(s[start..end]))] + Keys(s[end..])
  {
    Slices(s, i, start, end);
    NumberFirst(s[i..], end - i, start - i);
  }

  lemma {:induction false} NumberFirst(s: seq<byte>, n: nat, zeros: nat)
    requires 0 < n <= |s| && zeros <= n && Digits(s[..n]) && (n < |s| ==> !IsNumber(s[n]))
    requires forall k :: 0 <= k < zeros ==> s[k] == 48
    ensures Digits(s[..n][zeros..]) && Keys(s) == [Token(1, Value(s[..n][zeros..]))] + Keys(s[n..])
  {
    assert forall k :: 0 <= k < n ==> s[k] == s[..n][k];
    RunIs(s, n);
    ZerosSkip(s[..n], zeros);
  }

  lemma Slices(s: seq<byte>, i: nat, start: nat, end: nat)
    requires i <= start <= end <= |s|
    ensures s[i..][..end - i][start - i..] == s[start..end] && s[i..][end - i..] == s[end..]
  {
  }

  lemma {:induction false} HeadDecides(k: Key, a: seq<Key>, m: Key, b: seq<Key>)
    ensures CmpList([k] + a, [m] + b) == if Cmp(k, m) != 0 then Cmp(k, m) else CmpList(a, b)
  {
    assert ([k] + a)[1..] == a && ([m] + b)[1..] == b;
  }

  /** The branch for two numbers: the sign if they differ, and where both end. */
  method NumbersAt(s1: seq<byte>, i: nat, s2: seq<byte>, j: nat) returns (result: int, e1: nat, e2: nat)
    requires i < |s1| && IsNumber(s1[i]) && j < |s2| && IsNumber(s2[j])
    ensures i < e1 <= |s1| && j < e2 <= |s2|
    ensures CmpList(Keys(s1[i..]), Keys(s2[j..])) == if result != 0 then result else CmpList(Keys(s1[e1..]), Keys(s2[e2..]))
  {
    var a, b;
    a, e1 := ScanNumber(s1, i);
    b, e2 := ScanNumber(s2, j);
    NumberCmp(s1[a..e1], s2[b..e2]);
    HeadDecides(Token(1, Value(s1[a..e1])), Keys(s1[e1..]), Token(1, Value(s2[b..e2])), Keys(s2[e2..]));
    TokenCmp(1, Value(s1[a..e1]), 1, Value(s2[b..e2]));
    var len1, len2 := e1 - a, e2 - b;
    if len1 > len2 {
      result := 1;
    } else if len2 > len1 {
      result := -1;
    } else {
      result := StrCmp(s1[a..e1], s2[b..e2]);
    }
  }

  lemma {:induction false} CharsAt(s: seq<byte>, t: seq<byte>)
    requires s != [] && t != [] && !(IsNumber(s[0]) && IsNumber(t[0]))
    ensures var c := Cmp(FirstKey(s), FirstKey(t));
      CmpList(Keys(s), Keys(t)) == if c != 0 then c else CmpList(Keys(s[1..]), Keys(t[1..]))
  {
    HeadDecides(FirstKey(s), Keys(s[Width(s)..]), FirstKey(t), Keys(t[Width(t)..]));
    TokenCmp(ClassOf(s[0]), ValueOf(s), ClassOf(t[0]), ValueOf(t));
  }

  /** The other branches, on the two characters under the cursors; 0 to go on. */
  function CharCmp(c: byte, d: byte): int {
    if c == 255 && d != 255 then 1
    else if d == 255 && c != 255 then -1
    else if IsNumber(c) then 1
    else if IsNumber(d) then -1
    else Sign(Signed(c) - Signed(d))
  }

  lemma CharCmpIs(s: seq<byte>, t: seq<byte>)
    requires s != [] && t != [] && !(IsNumber(s[0]) && IsNumber(t[0]))
    ensures Cmp(FirstKey(s), FirstKey(t)) == CharCmp(s[0], t[0])
  {
    TokenCmp(ClassOf(s[0]), ValueOf(s), ClassOf(t[0]), ValueOf(t));
  }

  lemma {:induction false} CharStep(s1: seq<byte>, i: nat, s2: seq<byte>, j: nat)
    requires i < |s1| && j < |s2| && !(IsNumber(s1[i]) && IsNumber(s2[j]))
    ensures CmpList(Keys(s1[i..]), Keys(s2[j..])) ==
      if CharCmp(s1[i], s2[j]) != 0 then CharCmp(s1[i], s2[j]) else CmpList(Keys(s1[i + 1..]), Keys(s2[j + 1..]))
  {
    CharsAt(s1[i..], s2[j..]);
    CharCmpIs(s1[i..], s2[j..]);
    assert s1[i..][1..] == s1[i + 1..] && s2[j..][1..] == s2[j + 1..];
  }

  lemma EndDecides(a: seq<byte>, b: seq<byte>)
    requires a == [] || b == []
    ensures CmpList(Keys(a), Keys(b)) == if a != [] then 1 else if b != [] then -1 else 0
  {
  }

  /** The order of names: that of their tokens, lexicographically. */
  function LexCmp(s: seq<byte>, t: seq<byte>): int { CmpList(Keys(s), Keys(t)) }

  /** lexNumCmp on the contents of two C strings; of strncmp's result only the sign is kept. */
  method LexNumCmp(s1: seq<byte>, s2: seq<byte>) returns (r: int)
    ensures r == LexCmp(s1, s2)
  {
    var i, j := 0, 0;
    assert s1[0..] == s1 && s2[0..] == s2;
    while i < |s1| && j < |s2|
      invariant i <= |s1| && j <= |s2| && CmpList(Keys(s1[i..]), Keys(s2[j..])) == CmpList(Keys(s1), Keys(s2))
      decreases |s1| - i
    {
      if IsNumber(s1[i]) && IsNumber(s2[j]) {
        var result, e1, e2 := NumbersAt(s1, i, s2, j);
        if result != 0 {
          return result;
        }
        i, j := e1, e2;
        continue;
      }
      CharStep(s1, i, s2, j);
      if CharCmp(s1[i], s2[j]) != 0 {
        return CharCmp(s1[i], s2[j]);
      }
      i, j := i + 1, j + 1;
    }
    EndDecides(s1[i..], s2[j..]);
    if i < |s1| {
      return 1;
    }
    if j < |s2| {
      return -1;
    }
    return 0;
  }

  /** lexNumCmp is a total preorder on names, equal exactly where all tokens are. */
  lemma {:induction false} NamesPreorder(a: seq<byte>, b: seq<byte>, c: seq<byte>)
    ensures LexCmp(b, a) == -LexCmp(a, b)
    ensures LexCmp(a, b) == 0 <==> Keys(a) == Keys(b)
    ensures LexCmp(a, b) <= 0 && LexCmp(b, c) <= 0 ==> LexCmp(a, c) <= 0
  {
    MirrorList(Keys(a), Keys(b));
    if CmpList(Keys(a), Keys(b)) <= 0 && CmpList(Keys(b), Keys(c)) <= 0 {
      TransitiveList(Keys(a), Keys(b), Keys(c));
    }
  }

  // ---------------------------------------------------------------- dotted names

  datatype FieldCompareResult = LeftSubfield | LeftBefore | Same | RightBefore | RightSubfield

  /** The position of the first `c` from `from` on; the length if there is none. */
  function Index(s: seq<byte>, c: byte, from: nat): (n: nat)
    requires from <= |s|
    ensures from <= n <= |s| && (n < |s| ==> s[n] == c) && forall i :: from <= i < n ==> s[i] != c
    decreases |s| - from
  {
    if from == |s| || s[from] == c then from else Index(s, c, from + 1)
  }

  /** What c_str() shows of a piece: all up to the first NUL. */
  function CStr(s: seq<byte>): seq<byte> {
    s[..Index(s, 0, 0)]
  }

  /** The keys of the pieces between dots; an empty piece after a final dot is not one. */
  function Segments(s: seq<byte>, from: nat): seq<seq<Key>>
    decreases |s| - from
  {
    if from >= |s| then [] else [Segment(s, from)] + Segments(s, Index(s, DOT, from) + 1)
  }

  function Segment(s: seq<byte>, from: nat): seq<Key>
    requires from < |s|
  {
    Keys(CStr(s[from..Index(s, DOT, from)]))
  }

  /** The comparison by pieces, for at most `loops` of them; None where the code asserts. */
  function CompareFields(l: seq<seq<Key>>, r: seq<seq<Key>>, loops: nat): Option<FieldCompareResult>
    decreases loops
  {
    if loops == 0 then None
    else if l == [] then Some(if r == [] then Same else RightSubfield)
    else if r == [] then Some(LeftSubfield)
    else if CmpList(l[0], r[0]) < 0 then Some(LeftBefore)
    else if CmpList(l[0], r[0]) > 0 then Some(RightBefore)
    else CompareFields(l[1..], r[1..], loops - 1)
  }

  lemma {:induction false} FieldsHead(x: seq<Key>, l: seq<seq<Key>>, y: seq<Key>, r: seq<seq<Key>>, loops: nat)
    requires 0 < loops
    ensures CompareFields([x] + l, [y] + r, loops) ==
      if CmpList(x, y) < 0 then Some(LeftBefore)
      else if CmpList(x, y) > 0 then Some(RightBefore)
      else CompareFields(l, r, loops - 1)
  {
    assert ([x] + l)[1..] == l && ([y] + r)[1..] == r;
  }

  /** The piece at `from`, once its end is found, and the pieces behind it. */
  lemma SegmentIs(s: seq<byte>, from: nat, end: nat, c: seq<byte>)
    requires from < |s| && end == Index(s, DOT, from) && c == CStr(s[from..end])
    ensures Segments(s, from) == [Keys(c)] + Segments(s, end + 1)
  {
  }

  lemma {:induction false} PiecesStep(l: seq<seq<Key>>, k: seq<Key>, lrest: seq<seq<Key>>, r: seq<seq<Key>>, m: seq<Key>, rrest: seq<seq<Key>>, loops: nat)
    requires 0 < loops && l == [k] + lrest && r == [m] + rrest
    ensures CompareFields(l, r, loops) ==
      if CmpList(k, m) < 0 then Some(LeftBefore) else if CmpList(k, m) > 0 then Some(RightBefore)
      else CompareFields(lrest, rrest, loops - 1)
  {
    FieldsHead(k, lrest, m, rrest, loops);
  }

  lemma FieldsEnd(l: seq<byte>, i: nat, r: seq<byte>, j: nat, loops: nat)
    requires 0 < loops && (i >= |l| || j >= |r|)
    ensures CompareFields(Segments(l, i), Segments(r, j), loops) ==
      Some(if i < |l| then LeftSubfield else if j < |r| then RightSubfield else Same)
  {
  }

  const MAX_LOOPS: nat := 1048576

  function Compare(l: seq<byte>, r: seq<byte>): Option<FieldCompareResult> {
    CompareFields(Segments(l, 0), Segments(r, 0), MAX_LOOPS)
  }

  /** Two pieces: a result, unless they compare equal. */
  method ComparePiece(c: seq<byte>, d: seq<byte>, ghost l: seq<seq<Key>>, ghost lrest: seq<seq<Key>>,
      ghost r: seq<seq<Key>>, ghost rrest: seq<seq<Key>>, ghost loops: nat) returns (result: Option<FieldCompareResult>)
    requires 0 < loops && l == [Keys(c)] + lrest && r == [Keys(d)] + rrest
    ensures CompareFields(l, r, loops) == if result.Some? then result else CompareFields(lrest, rrest, loops - 1)
  {
    var x := LexNumCmp(c, d);
    PiecesStep(l, Keys(c), lrest, r, Keys(d), rrest, loops);
    result := if x < 0 then Some(LeftBefore) else if x > 0 then Some(RightBefore) else None;
  }

  /** The body of the loop: a result, or where the next pieces start. */
  method ComparePieces(l: seq<byte>, i: nat, r: seq<byte>, j: nat, ghost loops: nat)
    returns (result: Option<FieldCompareResult>, lnext: nat, rnext: nat)
    requires 0 < loops
    ensures CompareFields(Segments(l, i), Segments(r, j), loops) ==
      if result.Some? then result else CompareFields(Segments(l, lnext), Segments(r, rnext), loops - 1)
  {
    if i >= |l| || j >= |r| {
      FieldsEnd(l, i, r, j, loops);
      return Some(if i < |l| then LeftSubfield else if j < |r| then RightSubfield else Same), i, j;
    }
    result, lnext, rnext := NextPieces(l, i, r, j, loops);
  }

  method NextPieces(l: seq<byte>, i: nat, r: seq<byte>, j: nat, ghost loops: nat)
    returns (result: Option<FieldCompareResult>, lnext: nat, rnext: nat)
    requires 0 < loops && i < |l| && j < |r|
    ensures CompareFields(Segments(l, i), Segments(r, j), loops) ==
      if result.Some? then result else CompareFields(Segments(l, lnext), Segments(r, rnext), loops - 1)
  {
    var lend := Index(l, DOT, i);
    var rend := Index(r, DOT, j);
    var c, d := CStr(l[i..lend]), CStr(r[j..rend]);
    SegmentIs(l, i, lend, c);
    SegmentIs(r, j, rend, d);
    lnext, rnext := lend + 1, rend + 1;
    result := ComparePiece(c, d, Segments(l, i), Segments(l, lnext), Segments(r, j), Segments(r, rnext), loops);
  }

  /** compareDottedFieldNames, with its static maxLoops as a parameter. */
  method CompareDottedFieldNames(l: seq<byte>, r: seq<byte>, maxLoops: nat) returns (result: Option<FieldCompareResult>)
    ensures result == CompareFields(Segments(l, 0), Segments(r, 0), maxLoops)
  {
    var lstart, rstart := 0, 0;
    var i := 0;
    while i < maxLoops
      invariant i <= maxLoops
      invariant CompareFields(Segments(l, lstart), Segments(r, rstart), maxLoops - i)
             == CompareFields(Segments(l, 0), Segments(r, 0), maxLoops)
    {
      result, lstart, rstart := ComparePieces(l, lstart, r, rstart, maxLoops - i);
      if result.Some? {
        return;
      }
      i := i + 1;
    }
    return None;
  }

  function Mirror(x: FieldCompareResult): FieldCompareResult {
    match x
    case LeftSubfield => RightSubfield
    case LeftBefore => RightBefore
    case Same => Same
    case RightBefore => LeftBefore
    case RightSubfield => LeftSubfield
  }

  lemma {:induction false} FieldsMirror(l: seq<seq<Key>>, r: seq<seq<Key>>, loops: nat)
    ensures CompareFields(r, l, loops) ==
      match CompareFields(l, r, loops) case None => None case Some(x) => Some(Mirror(x))
    decreases loops
  {
    if loops > 0 && l != [] && r != [] {
      MirrorList(l[0], r[0]);
      FieldsMirror(l[1..], r[1..], loops - 1);
    }
  }

  /** Which result, from where the two lists of pieces part. */
  lemma {:induction false} FieldsMeaning(l: seq<seq<Key>>, r: seq<seq<Key>>, loops: nat)
    ensures CompareFields(l, r, loops) == None <==> loops <= |l| && loops <= |r| && l[..loops] == r[..loops]
    ensures var c := CompareFields(l, r, loops);
      c.Some? ==>
        && (c.value == Same <==> l == r)
        && (c.value == LeftSubfield <==> r < l)
        && (c.value == RightSubfield <==> l < r)
    decreases loops
  {
    if loops > 0 && l != [] && r != [] {
      MirrorList(l[0], r[0]);
      if CmpList(l[0], r[0]) == 0 {
        FieldsMeaning(l[1..], r[1..], loops - 1);
        TailPrefix(l, r, loops);
        TailPrefix(r, l, loops);
      }
    }
  }

  lemma {:induction false} TailPrefix(l: seq<seq<Key>>, r: seq<seq<Key>>, n: nat)
    requires l != [] && r != [] && l[0] == r[0] && 0 < n
    ensures l < r <==> l[1..] < r[1..]
    ensures l == r <==> l[1..] == r[1..]
    ensures n <= |l| && n <= |r| ==> (l[..n] == r[..n] <==> l[1..][..n - 1] == r[1..][..n - 1])
  {
    assert l == [l[0]] + l[1..] && r == [r[0]] + r[1..];
    if n <= |l| && n <= |r| {
      assert l[..n] == [l[0]] + l[1..][..n - 1] && r[..n] == [r[0]] + r[1..][..n - 1];
    }
  }

  /**
   Swapping the names mirrors the result; a result of SUBFIELD says exactly that the pieces of one are
   a proper prefix of those of the other, numbers compared by value; and the code asserts exactly
   when the first 2^20 pieces of both agree.
   */
  lemma {:induction false} CompareMeaning(l: seq<byte>, r: seq<byte>)
    ensures Compare(r, l) == match Compare(l, r) case None => None case Some(x) => Some(Mirror(x))
    ensures var a, b, n := Segments(l, 0), Segments(r, 0), MAX_LOOPS;
      match Compare(l, r)
      case None => n <= |a| && n <= |b| && a[..n] == b[..n]
      case Some(c) =>
        && !(n <= |a| && n <= |b| && a[..n] == b[..n])
        && (c == Same <==> a == b) && (c == LeftSubfield <==> b < a) && (c == RightSubfield <==> a < b)
  {
    FieldsMirror(Segments(l, 0), Segments(r, 0), MAX_LOOPS);
    FieldsMeaning(Segments(l, 0), Segments(r, 0), MAX_LOOPS);
  }
}
