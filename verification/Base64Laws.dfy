/** The text of a Base64 encoding, character by character and line by line. */
module Base64Laws {
  import opened Resp
  import opened Base64

  const UPPER: seq<Byte> :=
    [65, 66, 67, 68, 69, 70, 71, 72, 73, 74, 75, 76, 77, 78, 79, 80, 81, 82, 83, 84, 85, 86, 87, 88, 89, 90]
  const LOWER: seq<Byte> :=
    [97, 98, 99, 100, 101, 102, 103, 104, 105, 106, 107, 108, 109, 110, 111, 112, 113, 114, 115, 116, 117, 118, 119, 120,
     121, 122]
  const REST: seq<Byte> := [48, 49, 50, 51, 52, 53, 54, 55, 56, 57, 43, 47]

  /** A-Z, a-z, 0-9, + and /. */
  const TABLE: seq<Byte> := UPPER + LOWER + REST

  lemma UpperIs(v: nat)
    requires v < 26
    ensures |UPPER| == 26 && UPPER[v] == 65 + v
  {
  }

  lemma LowerIs(v: nat)
    requires v < 26
    ensures |LOWER| == 26 && LOWER[v] == 97 + v
  {
  }

  lemma RestIs(v: nat)
    requires v < 12
    ensures |REST| == 12 && REST[v] == if v < 10 then 48 + v else if v == 10 then 43 else 47
  {
  }

  lemma AlphabetIs(v: nat)
    requires v < 64
    ensures |TABLE| == 64 && Alphabet(v) == TABLE[v]
  {
    if v < 26 {
      UpperIs(v);
    } else if v < 52 {
      LowerIs(v - 26);
    } else {
      RestIs(v - 52);
    }
  }

  type Table = t: seq<Byte> | |t| == 64 witness seq(64, _ => 0)

  /** The characters are those of the encode table. */
  ghost predicate IsAlphabet(t: Table) {
    forall v {:trigger t[v]} :: 0 <= v < 64 ==> t[v] == Alphabet(v)
  }

  lemma TableIs()
    ensures |TABLE| == 64 && IsAlphabet(TABLE)
  {
    AlphabetIs(0);
    forall v | 0 <= v < 64
      ensures TABLE[v] == Alphabet(v)
    {
      AlphabetIs(v);
    }
  }

  /** The 24 bits of group `k`, zeros past the end of the data. */
  function Bits(x: seq<Byte>, k: nat): nat {
    At(x, 3 * k) * 65536 + At(x, 3 * k + 1) * 256 + At(x, 3 * k + 2)
  }

  /** Six bits, the most significant first. */
  function Sextet(x: seq<Byte>, i: nat): (v: nat)
    ensures v < 64
  {
    var n := Bits(x, i / 4);
    if i % 4 == 0 then n / 262144 % 64
    else if i % 4 == 1 then n / 4096 % 64
    else if i % 4 == 2 then n / 64 % 64
    else n % 64
  }

  /** Character `i`: a letter as long as there are bits left, then the padding. */
  function Char(t: Table, x: seq<Byte>, i: nat): Byte {
    if 6 * i < 8 * |x| then t[Sextet(x, i)] else 61
  }

  /** The encoding without line breaks: four characters for every three bytes or part of three. */
  function Plain(t: Table, x: seq<Byte>): seq<Byte> {
    seq((|x| + 2) / 3 * 4, i requires 0 <= i => Char(t, x, i))
  }

  /** `n` lines of 76 characters with a line break after each, and the rest. */
  function Lines(p: seq<Byte>, n: nat): seq<Byte>
    requires 76 * n <= |p|
    decreases n
  {
    if n == 0 then p else p[..76] + [13, 10] + Lines(p[76..], n - 1)
  }

  // ----- Characters -----

  lemma Digits(a: Byte, b: Byte, c: Byte)
    ensures var n := a * 65536 + b * 256 + c;
            && n / 262144 % 64 == a / 4 && n / 4096 % 64 == a % 4 * 16 + b / 16
            && n / 64 % 64 == b % 16 * 4 + c / 64 && n % 64 == c % 64
  {
    var n := a * 65536 + b * 256 + c;
    assert n / 262144 == a / 4;
    assert n / 4096 == a * 16 + b / 16;
    assert n / 64 == a * 1024 + b * 4 + c / 64;
  }

  lemma Chars(t: Table, a: Byte, b: Byte, c: Byte, x: seq<Byte>)
    requires IsAlphabet(t) && x != [] && At(x, 0) == a && At(x, 1) == b && At(x, 2) == c
    ensures Char(t, x, 0) == Alphabet(a / 4) && Char(t, x, 1) == Alphabet(a % 4 * 16 + b / 16)
    ensures Char(t, x, 2) == if |x| >= 2 then Alphabet(b % 16 * 4 + c / 64) else PAD
    ensures Char(t, x, 3) == if |x| >= 3 then Alphabet(c % 64) else PAD
  {
    assert Bits(x, 0) == a * 65536 + b * 256 + c;
    Digits(a, b, c);
  }

  lemma CharNext(t: Table, x: seq<Byte>, i: nat)
    requires |x| >= 3
    ensures Char(t, x, i + 4) == Char(t, x[3..], i)
  {
    var k := i / 4;
    assert (i + 4) / 4 == k + 1 && (i + 4) % 4 == i % 4;
    assert At(x, 3 * k + 3) == At(x[3..], 3 * k);
    assert At(x, 3 * k + 4) == At(x[3..], 3 * k + 1);
    assert At(x, 3 * k + 5) == At(x[3..], 3 * k + 2);
  }

  lemma PlainHead(t: Table, x: seq<Byte>)
    requires IsAlphabet(t) && |x| >= 3
    ensures [Char(t, x, 0), Char(t, x, 1), Char(t, x, 2), Char(t, x, 3)] == Encode3(x[0], x[1], x[2])
  {
    Chars(t, x[0], x[1], x[2], x);
    Sextets(x[0], x[1], x[2]);
  }

  lemma PlainStep(t: Table, x: seq<Byte>)
    requires IsAlphabet(t) && |x| >= 3
    ensures Plain(t, x) == Encode3(x[0], x[1], x[2]) + Plain(t, x[3..])
  {
    var p, q := Plain(t, x), Plain(t, x[3..]);
    assert |p| == |q| + 4;
    forall i | 4 <= i < |p|
      ensures p[i] == q[i - 4]
    {
      CharNext(t, x, i - 4);
    }
    assert p[..4] == [Char(t, x, 0), Char(t, x, 1), Char(t, x, 2), Char(t, x, 3)];
    assert p[4..] == q;
    assert p == p[..4] + p[4..];
    PlainHead(t, x);
  }

  lemma PlainLast(t: Table, x: seq<Byte>, line: nat)
    requires IsAlphabet(t) && |x| < 3
    ensures Plain(t, x) == EncodeFrom(x, line)
  {
    if x != [] {
      Chars(t, x[0], At(x, 1), At(x, 2), x);
    }
  }

  // ----- Lines -----

  /** `k` groups of four with the breaks that fall between them, and the rest. */
  function Grouped(p: seq<Byte>, k: nat, line: nat): seq<Byte>
    requires 4 * k <= |p|
    decreases k
  {
    if k == 0 then p else p[..4] + (Break(line) + Grouped(p[4..], k - 1, After(line)))
  }

  lemma GroupedStep(g: seq<Byte>, q: seq<Byte>, k: nat, line: nat)
    requires |g| == 4 && 4 * k <= |q|
    ensures Grouped(g + q, k + 1, line) == g + (Break(line) + Grouped(q, k, After(line)))
  {
    assert (g + q)[..4] == g && (g + q)[4..] == q;
  }

  lemma {:induction false} EncodedGrouped(t: Table, x: seq<Byte>, line: nat)
    requires IsAlphabet(t)
    ensures EncodeFrom(x, line) == Grouped(Plain(t, x), |x| / 3, line)
    decreases |x|
  {
    if |x| < 3 {
      PlainLast(t, x, line);
    } else {
      PlainStep(t, x);
      EncodedGrouped(t, x[3..], After(line));
      GroupedStep(Encode3(x[0], x[1], x[2]), Plain(t, x[3..]), |x[3..]| / 3, line);
      assert |x| / 3 == |x[3..]| / 3 + 1;
    }
  }

  lemma {:induction false} NoFullLine(p: seq<Byte>, k: nat, line: nat)
    requires 4 * k <= |p| && line + 4 * k < 76
    ensures Grouped(p, k, line) == p
    decreases k
  {
    if k > 0 {
      NoFullLine(p[4..], k - 1, line + 4);
      assert p == p[..4] + ([] + p[4..]);
    }
  }

  lemma Longer(p: seq<Byte>, m: nat, rest: seq<Byte>)
    requires 4 <= m <= |p|
    ensures p[4..][m - 4..] == p[m..] && p[..4] + ([] + (p[4..][..m - 4] + rest)) == p[..m] + rest
  {
    assert p[..4] + p[4..][..m - 4] == p[..m];
    Assoc(p[..4], p[4..][..m - 4], rest);
  }

  /** Groups up to the end of a line, which has room for `n` more. */
  lemma {:induction false} FullLine(p: seq<Byte>, k: nat, line: nat, n: nat)
    requires 4 * k <= |p| && line + 4 * n == 76 && 0 < n <= k
    ensures Grouped(p, k, line) == p[..4 * n] + ([13, 10] + Grouped(p[4 * n..], k - n, 0))
    decreases k
  {
    if n > 1 {
      FullLine(p[4..], k - 1, line + 4, n - 1);
      Longer(p, 4 * n, [13, 10] + Grouped(p[4 * n..], k - n, 0));
    }
  }

  lemma {:induction false} LaidOut(p: seq<Byte>, k: nat)
    requires 4 * k <= |p|
    ensures 76 * (k / 19) <= |p| && Grouped(p, k, 0) == Lines(p, k / 19)
    decreases k
  {
    if k < 19 {
      NoFullLine(p, k, 0);
    } else {
      FullLine(p, k, 0, 19);
      LaidOut(p[76..], k - 19);
      assert k / 19 == (k - 19) / 19 + 1;
      Assoc(p[..76], [13, 10], Lines(p[76..], k / 19 - 1));
    }
  }

  /** The encoding is the padded letters of the sextets, in lines of 76: one full line for every 57 bytes. */
  lemma EncodedText(x: seq<Byte>)
    ensures |TABLE| == 64 && 76 * (|x| / 57) <= |Plain(TABLE, x)| && EncodeFrom(x, 0) == Lines(Plain(TABLE, x), |x| / 57)
  {
    TableIs();
    EncodedGrouped(TABLE, x, 0);
    LaidOut(Plain(TABLE, x), |x| / 3);
    assert |x| / 3 / 19 == |x| / 57;
  }

  lemma Shifted(h: seq<Byte>, q: seq<Byte>, a: nat, b: nat)
    requires a <= b <= |q|
    ensures (h + q)[|h| + a..|h| + b] == q[a..b] && (h + q)[|h| + a..] == q[a..]
  {
  }

  lemma LinesStep(p: seq<Byte>, n: nat)
    requires n > 0 && 76 * n <= |p|
    ensures Lines(p, n) == (p[..76] + [13, 10]) + Lines(p[76..], n - 1)
  {
  }

  lemma {:induction false} LinesLength(p: seq<Byte>, n: nat)
    requires 76 * n <= |p|
    ensures |Lines(p, n)| == |p| + 2 * n
  {
    if n > 0 {
      LinesLength(p[76..], n - 1);
    }
  }

  /** The line that starts with character `c` of the unbroken text and at offset `a` of the broken one. */
  ghost predicate LineHere(s: seq<Byte>, a: nat, p: seq<Byte>, c: nat, last: bool) {
    if last then a <= |s| && c <= |p| && s[a..] == p[c..]
    else a + 78 <= |s| && c + 76 <= |p| && s[a..a + 76] == p[c..c + 76] && s[a + 76..a + 78] == [13, 10]
  }

  lemma LineShifted(q: seq<Byte>, a: nat, p: seq<Byte>, c: nat, last: bool)
    requires |p| >= 76 && LineHere(q, a, p[76..], c, last)
    ensures LineHere(p[..76] + [13, 10] + q, a + 78, p, c + 76, last)
  {
    var h := p[..76] + [13, 10];
    assert p == p[..76] + p[76..];
    if last {
      Shifted(h, q, a, a);
      Shifted(p[..76], p[76..], c, c);
    } else {
      Shifted(h, q, a, a + 76);
      Shifted(h, q, a + 76, a + 78);
      Shifted(p[..76], p[76..], c, c + 76);
    }
  }

  lemma {:induction false} LineAt(p: seq<Byte>, n: nat, j: nat)
    requires 76 * n <= |p| && j <= n
    ensures LineHere(Lines(p, n), 78 * j, p, 76 * j, j == n)
    decreases n
  {
    if n > 0 {
      LinesStep(p, n);
      if j > 0 {
        LineAt(p[76..], n - 1, j - 1);
        LineShifted(Lines(p[76..], n - 1), 78 * (j - 1), p, 76 * (j - 1), j == n);
      }
    }
  }

  /** Every line before the last has exactly 76 characters, the characters being those of the unbroken encoding, and the
      last line has the others. */
  lemma EncodedLine(x: seq<Byte>, j: nat)
    requires j <= |x| / 57
    ensures |TABLE| == 64 &&
            var s, p, n := EncodeFrom(x, 0), Plain(TABLE, x), |x| / 57;
            && 76 * n <= |p| && |s| == |p| + 2 * n
            && LineHere(s, 78 * j, p, 76 * j, j == n) && (j == n ==> |s[78 * j..]| <= 76)
  {
    EncodedText(x);
    LinesLength(Plain(TABLE, x), |x| / 57);
    LineAt(Plain(TABLE, x), |x| / 57, j);
  }
}
