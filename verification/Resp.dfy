/** The wire format of Redis replies: line ends, decimal integers, reply objects. */
module Resp {

  type Byte = b: int | 0 <= b < 256

  const CR: Byte := 13
  const LF: Byte := 10
  const CRLF: seq<Byte> := [CR, LF]

  datatype Option<+T> = None | Some(value: T)

  // ------------------------------------------------------------- line ends

  predicate CrlfAt(s: seq<Byte>, i: int) {
    0 <= i < |s| - 1 && s[i] == CR && s[i + 1] == LF
  }

  /** The first line end in `s`, or -1. */
  function FindCrlf(s: seq<Byte>): (r: int)
    ensures -1 <= r < |s|
    ensures r >= 0 ==> CrlfAt(s, r) && forall j :: 0 <= j < r ==> !CrlfAt(s, j)
    ensures r < 0 ==> forall j :: 0 <= j < |s| ==> !CrlfAt(s, j)
  {
    if |s| < 2 then -1
    else if s[0] == CR && s[1] == LF then 0
    else
      var r := FindCrlf(s[1..]);
      assert forall j :: 0 < j < |s| ==> (CrlfAt(s, j) <==> CrlfAt(s[1..], j - 1));
      if r < 0 then -1 else r + 1
  }

  predicate CrlfFree(s: seq<Byte>) {
    FindCrlf(s) < 0
  }

  /** A line end that is found is still found, at the same place, when more bytes follow. */
  lemma FindCrlfExtend(s: seq<Byte>, v: seq<Byte>)
    requires FindCrlf(s) >= 0
    ensures FindCrlf(s + v) == FindCrlf(s)
  {
    var i, j := FindCrlf(s), FindCrlf(s + v);
    assert CrlfAt(s + v, i);
    assert forall k :: 0 <= k < i ==> (CrlfAt(s + v, k) <==> CrlfAt(s, k));
  }

  /** A text is found as a line of its own exactly if it contains no line end. */
  lemma LineFound(t: seq<Byte>, v: seq<Byte>)
    ensures FindCrlf(t + CRLF + v) == |t| <==> CrlfFree(t)
  {
    var s := t + CRLF + v;
    assert CrlfAt(s, |t|);
    assert forall j :: 0 <= j < |t| - 1 ==> (CrlfAt(s, j) <==> CrlfAt(t, j));
    assert !CrlfAt(s, |t| - 1);
  }

  // ------------------------------------------------------------- integers

  predicate IsDigit(b: Byte) {
    48 <= b <= 57
  }

  /** The digits up to the first carriage return, added to `v`; nothing on any other byte. */
  function ReadDigits(s: seq<Byte>, v: int): Option<int> {
    if s == [] || s[0] == CR then Some(v)
    else if IsDigit(s[0]) then ReadDigits(s[1..], v * 10 + (s[0] - 48))
    else None
  }

  /** readLongLong: an optional sign and digits; -1 for unexpected input. */
  function ReadInt(s: seq<Byte>): int {
    var neg := s != [] && s[0] == 45;
    var t := if s != [] && (s[0] == 45 || s[0] == 43) then s[1..] else s;
    match ReadDigits(t, 0)
    case Some(v) => if neg then -v else v
    case None => -1
  }

  /** Decimal digits, as printf("%d") writes them. */
  function Digits(n: nat): (r: seq<Byte>)
    ensures |r| > 0 && forall i :: 0 <= i < |r| ==> IsDigit(r[i])
  {
    if n < 10 then [48 + n] else Digits(n / 10) + [48 + n % 10]
  }

  function Decimal(n: int): seq<Byte> {
    if n < 0 then [45] + Digits(-n) else Digits(n)
  }

  lemma {:induction false} ReadDigitsOf(n: nat, tail: seq<Byte>)
    ensures ReadDigits(Digits(n) + tail, 0) == ReadDigits(tail, n)
  {
    if n >= 10 {
      ReadDigitsOf(n / 10, [48 + n % 10] + tail);
      assert Digits(n) + tail == Digits(n / 10) + ([48 + n % 10] + tail);
      assert ([48 + n % 10] + tail)[1..] == tail;
    } else {
      assert (Digits(n) + tail)[1..] == tail;
    }
  }

  /** Reading what was written. */
  lemma ReadDecimal(n: int, tail: seq<Byte>)
    requires tail != [] && tail[0] == CR
    ensures ReadInt(Decimal(n) + tail) == n
  {
    var m := if n < 0 then -n else n;
    ReadDigitsOf(m, tail);
    ReadSigned(Digits(m) + tail, m);
    Assoc([45], Digits(m), tail);
  }

  lemma ReadSigned(t: seq<Byte>, v: int)
    requires t != [] && IsDigit(t[0]) && ReadDigits(t, 0) == Some(v)
    ensures ReadInt(t) == v && ReadInt([45] + t) == -v
  {
    assert ([45] + t)[1..] == t;
  }

  /** The number that a line stands for: an optional sign and digits up to a carriage return, -1 for anything else. */
  function ValueOf(text: seq<Byte>): int {
    var t := UpToCr(text);
    var d := if t != [] && (t[0] == 43 || t[0] == 45) then t[1..] else t;
    if !AllDigits(d) then -1
    else if t != [] && t[0] == 45 then -Horner(d)
    else Horner(d)
  }

  predicate AllDigits(s: seq<Byte>) {
    forall i :: 0 <= i < |s| ==> IsDigit(s[i])
  }

  function UpToCr(s: seq<Byte>): (r: seq<Byte>)
    ensures r <= s && CR !in r && (|r| < |s| ==> s[|r|] == CR)
  {
    if s == [] || s[0] == CR then [] else [s[0]] + UpToCr(s[1..])
  }

  /** The value of a row of digits. */
  function Horner(d: seq<Byte>): int
    requires AllDigits(d)
  {
    if d == [] then 0 else 10 * Horner(d[..|d| - 1]) + d[|d| - 1] - 48
  }

  lemma {:induction false} ReadDigitsAll(d: seq<Byte>, u: seq<Byte>)
    requires AllDigits(d)
    ensures ReadDigits(d + u, 0) == ReadDigits(u, Horner(d))
  {
    if d == [] {
      assert d + u == u;
    } else {
      var front, x := d[..|d| - 1], d[|d| - 1];
      ReadDigitsAll(front, [x] + u);
      assert d + u == front + ([x] + u);
      assert ([x] + u)[1..] == u;
    }
  }

  /** A byte that is neither a digit nor a carriage return spoils the number. */
  lemma ReadDigitsSpoilt(d: seq<Byte>, i: nat, u: seq<Byte>)
    requires i < |d| && !IsDigit(d[i]) && d[i] != CR && forall j :: 0 <= j < i ==> IsDigit(d[j])
    ensures ReadDigits(d + u, 0) == None
  {
    ReadDigitsAll(d[..i], d[i..] + u);
    assert d + u == d[..i] + (d[i..] + u);
  }

  lemma ReadDigitsTo(d: seq<Byte>, u: seq<Byte>)
    requires CR !in d && u != [] && u[0] == CR
    ensures ReadDigits(d + u, 0) ==
              if AllDigits(d) then Some(Horner(d)) else None
  {
    if !AllDigits(d) {
      var i := FirstNotDigit(d);
      ReadDigitsSpoilt(d, i, u);
    } else {
      ReadDigitsAll(d, u);
    }
  }

  lemma {:induction false} FirstNotDigit(d: seq<Byte>) returns (i: nat)
    requires !AllDigits(d)
    ensures i < |d| && !IsDigit(d[i]) && forall j :: 0 <= j < i ==> IsDigit(d[j])
  {
    if !IsDigit(d[0]) {
      i := 0;
    } else {
      var k :| 0 <= k < |d| && !IsDigit(d[k]);
      assert d[1..][k - 1] == d[k];
      i := FirstNotDigit(d[1..]);
      i := i + 1;
    }
  }

  /** Reading any line. */
  lemma ReadsValue(text: seq<Byte>, tail: seq<Byte>)
    requires tail != [] && tail[0] == CR
    ensures ReadInt(text + tail) == ValueOf(text)
  {
    var t, s := UpToCr(text), text + tail;
    var u := text[|t|..] + tail;
    assert s == t + u && u[0] == CR;
    assert t != [] ==> s[0] == t[0];
    assert t == [] ==> s[0] == CR;
    if t != [] && (t[0] == 43 || t[0] == 45) {
      assert s[1..] == t[1..] + u;
      ReadDigitsTo(t[1..], u);
    } else {
      ReadDigitsTo(t, u);
    }
  }

  lemma {:induction false} ReadDigitsLine(s: seq<Byte>, v: int, w: seq<Byte>)
    requires CR in s
    ensures ReadDigits(s + w, v) == ReadDigits(s, v)
  {
    if s[0] != CR && IsDigit(s[0]) {
      assert (s + w)[1..] == s[1..] + w;
      ReadDigitsLine(s[1..], v * 10 + (s[0] - 48), w);
    }
  }

  /** Bytes after the line do not matter. */
  lemma ReadIntExtend(s: seq<Byte>, w: seq<Byte>)
    requires FindCrlf(s) >= 0
    ensures ReadInt(s + w) == ReadInt(s)
  {
    assert s[FindCrlf(s)] == CR;
    if s[0] == 45 || s[0] == 43 {
      assert s[1..][FindCrlf(s) - 1] == CR;
      assert (s + w)[1..] == s[1..] + w;
      ReadDigitsLine(s[1..], 0, w);
    } else {
      ReadDigitsLine(s, 0, w);
    }
  }

  lemma DecimalCrlfFree(n: int)
    ensures CrlfFree(Decimal(n))
  {
    assert forall i :: 0 <= i < |Decimal(n)| ==> Decimal(n)[i] != CR;
  }

  lemma Assoc<T>(a: seq<T>, b: seq<T>, c: seq<T>)
    ensures (a + b) + c == a + (b + c)
  {
  }

  /** The bytes before the first zero byte. */
  function CString(s: seq<Byte>): seq<Byte> {
    if s == [] || s[0] == 0 then [] else [s[0]] + CString(s[1..])
  }
}
