/** The Base64 encoder and decoder of Common.cpp, with lines of 76 characters. */
module Base64 {
  import opened Resp

  const PAD: Byte := 61
  const LINE: nat := 76

  // ----- The two tables -----

  function Alphabet(v: int): Byte
    requires 0 <= v < 64
  {
    if v < 26 then 65 + v else if v < 52 then 71 + v else if v < 62 then v - 4 else if v == 62 then 43 else 47
  }

  /** The value of a character, its top bit ignored; -1 outside the alphabet. */
  function Value(c: Byte): int {
    var d: int := if c >= 128 then c - 128 else c;
    if 65 <= d <= 90 then d - 65
    else if 97 <= d <= 122 then d - 71
    else if 48 <= d <= 57 then d + 4
    else if d == 43 then 62
    else if d == 47 then 63
    else -1
  }

  /** The decode table is the inverse of the encode table. */
  lemma TablesInverse(v: int, c: Byte)
    requires 0 <= v < 64
    ensures Value(c) == v <==> c == Alphabet(v) || c == Alphabet(v) + 128
    ensures Alphabet(v) != PAD && Alphabet(v) != CR && Alphabet(v) != LF
  {
  }

  /** initBase64. */
  method InitBase64(table: array<int>)
    requires table.Length == 256
    modifies table
    ensures forall c: Byte :: table[c] == Value(c)
  {
    for i := 0 to 256
      invariant forall j :: 0 <= j < i ==> table[j] == -1
    {
      table[i] := -1;
    }
    for i := 0 to 64
      invariant forall c: Byte :: table[c] == if Value(c) < i then Value(c) else -1
    {
      forall c: Byte
        ensures Value(c) == i <==> c == Alphabet(i) || c == Alphabet(i) + 128
      {
        TablesInverse(i, c);
      }
      table[Alphabet(i)] := i;
      table[Alphabet(i) + 128] := i;
      table[PAD] := -1;
      table[PAD + 128] := -1;
    }
  }

  // ----- Encoding -----

  function Encode1(a: Byte): seq<Byte> {
    [Alphabet(a / 4), Alphabet(a % 4 * 16), PAD, PAD]
  }

  function Encode2(a: Byte, b: Byte): seq<Byte> {
    [Alphabet(a / 4), Alphabet(a % 4 * 16 + b / 16), Alphabet(b % 16 * 4), PAD]
  }

  function Encode3(a: Byte, b: Byte, c: Byte): seq<Byte> {
    [Alphabet(a / 4), Alphabet((a * 16 + b / 16) % 64), Alphabet((b * 4 + c / 64) % 64), Alphabet(c % 64)]
  }

  /** The line break after a group that fills its line, and the length of the line after it. */
  function Break(line: nat): seq<Byte> {
    if line + 4 == LINE then CRLF else []
  }

  function After(line: nat): nat {
    if line + 4 == LINE then 0 else line + 4
  }

  /** The encoding of `x` with `line` characters already on the current line. */
  function EncodeFrom(x: seq<Byte>, line: nat): seq<Byte> {
    if |x| >= 3 then Encode3(x[0], x[1], x[2]) + (Break(line) + EncodeFrom(x[3..], After(line)))
    else if |x| == 1 then Encode1(x[0])
    else if |x| == 2 then Encode2(x[0], x[1])
    else []
  }

  /** Encode. */
  method Encode(data: seq<Byte>) returns (r: seq<Byte>)
    ensures r == EncodeFrom(data, 0)
  {
    r := [];
    var line, p := 0, 0;
    assert data[0..] == data && [] + EncodeFrom(data, 0) == EncodeFrom(data, 0);
    for i := 0 to |data| / 3
      invariant p == 3 * i && p <= |data| && r + EncodeFrom(data[p..], line) == EncodeFrom(data, 0)
    {
      ghost var g := Encode3(data[p], data[p + 1], data[p + 2]);
      Whole(data, p, line);
      Append(r, g, Break(line), EncodeFrom(data[p + 3..], After(line)));
      r := r + Encode3(data[p], data[p + 1], data[p + 2]);
      p := p + 3;
      line := line + 4;
      if line == LINE {
        r := r + CRLF;
        line := 0;
      }
    }
    if |data| % 3 == 1 {
      r := r + Encode1(data[p]);
    } else if |data| % 3 == 2 {
      r := r + Encode2(data[p], data[p + 1]);
    }
  }

  lemma Whole(data: seq<Byte>, p: nat, line: nat)
    requires p + 3 <= |data|
    ensures EncodeFrom(data[p..], line)
         == Encode3(data[p], data[p + 1], data[p + 2]) + (Break(line) + EncodeFrom(data[p + 3..], After(line)))
  {
    assert data[p..][3..] == data[p + 3..];
  }

  lemma Append(r: seq<Byte>, g: seq<Byte>, br: seq<Byte>, rest: seq<Byte>)
    ensures r + (g + (br + rest)) == ((r + g) + br) + rest
    ensures br == [] ==> (r + g) + br == r + g
  {
  }

  // ----- Decoding -----

  /** A byte of the input; past its end the model reads zero. */
  function At(data: seq<Byte>, p: nat): Byte {
    if p < |data| then data[p] else 0
  }

  // A byte of a number, also of a negative one in two's complement.
  function High(n: int): Byte {
    n / 65536 % 256
  }

  function Middle(n: int): Byte {
    n / 256 % 256
  }

  function Low(n: int): Byte {
    n % 256
  }

  /** The bytes decoded from a group at `p`, and where the pointer ends up: it stops at padding. */
  function Group(data: seq<Byte>, p: nat): (seq<Byte>, nat) {
    var n2 := Value(At(data, p)) * 262144 + Value(At(data, p + 1)) * 4096;
    if At(data, p + 2) == PAD then ([High(n2)], p + 2)
    else
      var n3 := n2 + Value(At(data, p + 2)) * 64;
      if At(data, p + 3) == PAD then ([High(n2), Middle(n3)], p + 3)
      else
        var n4 := n3 + Value(At(data, p + 3));
        ([High(n2), Middle(n3), Low(n4)], p + 4)
  }

  /** Decoding with the pointer at `p` and the count at `i`. */
  function DecodeFrom(data: seq<Byte>, p: nat, i: nat): seq<Byte>
    decreases |data| - i
  {
    if i >= |data| then []
    else if At(data, p) == CR || At(data, p) == LF then DecodeFrom(data, p + 1, i + 1)
    else
      var (bytes, q) := Group(data, p);
      bytes + DecodeFrom(data, q, i + 4)
  }

  /** One group of Decode. */
  method DecodeGroup(table: array<int>, data: seq<Byte>, p: nat, count: nat) returns (bytes: seq<Byte>, q: nat, count': nat)
    requires table.Length == 256 && forall c: Byte :: table[c] == Value(c)
    ensures (bytes, q) == Group(data, p) && count' == count + |bytes|
  {
    var value := table[At(data, p)] * 262144;
    value := value + table[At(data, p + 1)] * 4096;
    q := p + 2;
    bytes := [High(value)];
    count' := count + 1;
    if At(data, q) != PAD {
      value := value + table[At(data, q)] * 64;
      q := q + 1;
      bytes := [bytes[0], Middle(value)];
      count' := count' + 1;
      if At(data, q) != PAD {
        value := value + table[At(data, q)];
        q := q + 1;
        bytes := [bytes[0], bytes[1], Low(value)];
        count' := count' + 1;
      }
    }
  }

  /** Decode, and the number of bytes it reports. */
  method Decode(table: array<int>, data: seq<Byte>) returns (r: seq<Byte>, count: nat)
    requires table.Length == 256 && forall c: Byte :: table[c] == Value(c)
    ensures r == DecodeFrom(data, 0, 0) && count == |r|
  {
    r, count := [], 0;
    var p, i := 0, 0;
    while i < |data|
      invariant r + DecodeFrom(data, p, i) == DecodeFrom(data, 0, 0) && count == |r|
      decreases |data| - i
    {
      if At(data, p) != CR && At(data, p) != LF {
        var bytes, q, count' := DecodeGroup(table, data, p, count);
        Assoc(r, bytes, DecodeFrom(data, q, i + 4));
        r, p, count := r + bytes, q, count';
        i := i + 4;
      } else {
        p, i := p + 1, i + 1;
      }
    }
  }

  // ----- Round trip -----

  /** A whole group decodes to the bytes it encodes. */
  lemma GroupOf3(data: seq<Byte>, p: nat, a: Byte, b: Byte, c: Byte)
    requires p + 4 <= |data| && data[p..p + 4] == Encode3(a, b, c)
    ensures Group(data, p) == ([a, b, c], p + 4)
  {
    var g := data[p..p + 4];
    Sextets(a, b, c);
    TablesInverse(a / 4, g[0]);
    TablesInverse((a * 16 + b / 16) % 64, g[1]);
    TablesInverse((b * 4 + c / 64) % 64, g[2]);
    TablesInverse(c % 64, g[3]);
    assert data[p] == g[0] && data[p + 1] == g[1] && data[p + 2] == g[2] && data[p + 3] == g[3];
    Bytes(a, b, c);
  }

  lemma Sextets(a: Byte, b: Byte, c: Byte)
    ensures (a * 16 + b / 16) % 64 == a % 4 * 16 + b / 16
    ensures (b * 4 + c / 64) % 64 == b % 16 * 4 + c / 64
  {
  }

  lemma Bytes(a: Byte, b: Byte, c: Byte)
    ensures var n2 := a / 4 * 262144 + (a % 4 * 16 + b / 16) * 4096;
            var n3 := n2 + (b % 16 * 4 + c / 64) * 64;
            High(n2) == a && Middle(n3) == b && Low(n3 + c % 64) == c
  {
    FirstByte(a, b / 16 * 4096);
    SecondByte(a, b, c / 64 * 64);
    ThirdByte(a, b, c);
  }

  lemma FirstByte(a: Byte, rest: int)
    requires 0 <= rest < 65536
    ensures High(a * 65536 + rest) == a
  {
  }

  lemma SecondByte(a: Byte, b: Byte, rest: int)
    requires 0 <= rest < 256
    ensures Middle(a * 65536 + b * 256 + rest) == b
  {
    assert (a * 65536 + b * 256 + rest) / 256 == a * 256 + b;
  }

  lemma ThirdByte(a: Byte, b: Byte, c: Byte)
    ensures Low(a * 65536 + b * 256 + c) == c
  {
  }

  lemma GroupOf2(data: seq<Byte>, p: nat, a: Byte, b: Byte)
    requires p + 4 <= |data| && data[p..p + 4] == Encode2(a, b)
    ensures Group(data, p) == ([a, b], p + 3)
  {
    var g := data[p..p + 4];
    TablesInverse(a / 4, g[0]);
    TablesInverse(a % 4 * 16 + b / 16, g[1]);
    TablesInverse(b % 16 * 4, g[2]);
    assert data[p] == g[0] && data[p + 1] == g[1] && data[p + 2] == g[2] && data[p + 3] == g[3];
    Bytes(a, b, 0);
  }

  lemma GroupOf1(data: seq<Byte>, p: nat, a: Byte)
    requires p + 4 <= |data| && data[p..p + 4] == Encode1(a)
    ensures Group(data, p) == ([a], p + 2)
  {
    var g := data[p..p + 4];
    TablesInverse(a / 4, g[0]);
    TablesInverse(a % 4 * 16, g[1]);
    assert data[p] == g[0] && data[p + 1] == g[1] && data[p + 2] == g[2] && data[p + 3] == g[3];
    Bytes(a, 0, 0);
  }

  lemma SkipBreak(data: seq<Byte>, p: nat, line: nat, rest: seq<Byte>)
    requires p <= |data| && data[p..] == Break(line) + rest
    ensures p + |Break(line)| <= |data| && data[p + |Break(line)|..] == rest
    ensures DecodeFrom(data, p, p) == DecodeFrom(data, p + |Break(line)|, p + |Break(line)|)
  {
    var s := data[p..];
    if line + 4 == LINE {
      assert s[0] == data[p] == CR && s[1] == data[p + 1] == LF && s[2..] == data[p + 2..] == rest;
      assert DecodeFrom(data, p, p) == DecodeFrom(data, p + 1, p + 1) == DecodeFrom(data, p + 2, p + 2);
    } else {
      assert [] + rest == rest;
    }
  }

  lemma DecodeGroupOf3(data: seq<Byte>, p: nat, a: Byte, b: Byte, c: Byte, rest: seq<Byte>)
    requires p <= |data| && data[p..] == Encode3(a, b, c) + rest
    ensures p + 4 <= |data| && data[p + 4..] == rest
    ensures DecodeFrom(data, p, p) == [a, b, c] + DecodeFrom(data, p + 4, p + 4)
  {
    var s := data[p..];
    assert data[p + 4..] == s[4..] == rest && data[p..p + 4] == s[..4] == Encode3(a, b, c);
    assert data[p] == s[0];
    TablesInverse(a / 4, s[0]);
    GroupOf3(data, p, a, b, c);
  }

  lemma DecodeLast(data: seq<Byte>, p: nat, x: seq<Byte>)
    requires p <= |data| && 1 <= |x| <= 2 && data[p..] == EncodeFrom(x, 0)
    ensures DecodeFrom(data, p, p) == x
  {
    var s := data[p..];
    assert data[p..p + 4] == s[..4] == s && data[p] == s[0];
    TablesInverse(x[0] / 4, s[0]);
    if |x| == 2 {
      GroupOf2(data, p, x[0], x[1]);
      assert [x[0], x[1]] + [] == x;
    } else {
      GroupOf1(data, p, x[0]);
      assert [x[0]] + [] == x;
    }
  }

  /** Decoding undoes encoding, wherever on a line it starts. */
  lemma {:induction false} DecodeEncoded(data: seq<Byte>, p: nat, x: seq<Byte>, line: nat)
    requires p <= |data| && data[p..] == EncodeFrom(x, line)
    ensures DecodeFrom(data, p, p) == x
    decreases |x|
  {
    if |x| >= 3 {
      var rest := EncodeFrom(x[3..], After(line));
      DecodeGroupOf3(data, p, x[0], x[1], x[2], Break(line) + rest);
      SkipBreak(data, p + 4, line, rest);
      DecodeEncoded(data, p + 4 + |Break(line)|, x[3..], After(line));
      assert x == [x[0], x[1], x[2]] + x[3..];
    } else if |x| > 0 {
      DecodeLast(data, p, x);
    }
  }

  /** Decode(Encode(x)) == x, and the byte count is the length of x. */
  method RoundTrip(x: seq<Byte>) returns (r: seq<Byte>, count: nat)
    ensures r == x && count == |x|
  {
    var table := new int[256];
    InitBase64(table);
    var e := Encode(x);
    assert e[0..] == e;
    DecodeEncoded(e, 0, x, 0);
    r, count := Decode(table, e);
  }

  // ----- Lines -----

  predicate IsBreak(b: Byte) {
    b == CR || b == LF
  }

  /** No line is longer than 76 characters, the first having `n` already. */
  predicate LinesFit(s: seq<Byte>, n: nat) {
    n <= LINE && (s != [] ==> LinesFit(s[1..], if IsBreak(s[0]) then 0 else n + 1))
  }

  /** Said without counting: a stretch without a line break has at most 76 characters. */
  lemma {:induction false} StretchesFit(s: seq<Byte>, n: nat, i: nat, j: nat)
    requires LinesFit(s, n) && i <= j <= |s| && forall k :: i <= k < j ==> !IsBreak(s[k])
    ensures j - i <= LINE && (i == 0 ==> n + j <= LINE)
    decreases |s|
  {
    if s != [] && j > 0 {
      var n' := if IsBreak(s[0]) then 0 else n + 1;
      StretchesFit(s[1..], n', if i == 0 then 0 else i - 1, j - 1);
    }
  }

  lemma OneFits(b: Byte, s: seq<Byte>, n: nat)
    requires !IsBreak(b) && n < LINE && LinesFit(s, n + 1)
    ensures LinesFit([b] + s, n)
  {
    assert ([b] + s)[1..] == s;
  }

  lemma FourFit(g: seq<Byte>, s: seq<Byte>, n: nat)
    requires |g| == 4 && forall k :: 0 <= k < 4 ==> !IsBreak(g[k])
    requires n + 4 <= LINE && LinesFit(s, n + 4)
    ensures LinesFit(g + s, n)
  {
    var s3 := [g[3]] + s;
    var s2 := [g[2]] + s3;
    var s1 := [g[1]] + s2;
    OneFits(g[3], s, n + 3);
    OneFits(g[2], s3, n + 2);
    OneFits(g[1], s2, n + 1);
    OneFits(g[0], s1, n);
    assert g + s == [g[0]] + s1;
  }

  lemma BreakFits(s: seq<Byte>, line: nat)
    requires LinesFit(s, After(line))
    ensures LinesFit(Break(line) + s, line + 4)
  {
    if line + 4 == LINE {
      assert (CRLF + s)[1..] == [LF] + s && ([LF] + s)[1..] == s;
    } else {
      assert [] + s == s;
    }
  }

  lemma NoBreaks(a: Byte, b: Byte, c: Byte)
    ensures forall k :: 0 <= k < 4 ==>
              !IsBreak(Encode1(a)[k]) && !IsBreak(Encode2(a, b)[k]) && !IsBreak(Encode3(a, b, c)[k])
  {
    forall v | 0 <= v < 64
      ensures !IsBreak(Alphabet(v))
    {
      TablesInverse(v, 0);
    }
  }

  lemma {:induction false} EncodedLines(x: seq<Byte>, line: nat)
    requires line + 4 <= LINE && line % 4 == 0
    ensures LinesFit(EncodeFrom(x, line), line)
    decreases |x|
  {
    if |x| >= 3 {
      var rest := EncodeFrom(x[3..], After(line));
      EncodedLines(x[3..], After(line));
      BreakFits(rest, line);
      NoBreaks(x[0], x[1], x[2]);
      FourFit(Encode3(x[0], x[1], x[2]), Break(line) + rest, line);
    } else if |x| > 0 {
      NoBreaks(x[0], x[|x| - 1], 0);
      FourFit(EncodeFrom(x, line), [], line);
      assert EncodeFrom(x, line) + [] == EncodeFrom(x, line);
    }
  }

  /** Every stretch of the encoding without a line break has at most 76 characters. */
  lemma LinesAtMost76(x: seq<Byte>, i: nat, j: nat)
    requires i <= j <= |EncodeFrom(x, 0)| && forall k :: i <= k < j ==> !IsBreak(EncodeFrom(x, 0)[k])
    ensures j - i <= 76
  {
    EncodedLines(x, 0);
    StretchesFit(EncodeFrom(x, 0), 0, i, j);
  }
}
