/** The printf conversions that redisvFormatCommand recognises in a format. */
module Conversions {
  import opened Resp

  const PERCENT: Byte := 37

  /** # 0 - space + */
  const FLAGS: seq<Byte> := [35, 48, 45, 32, 43]

  predicate IsModifier(b: Byte) {
    b == 104 || b == 108
  }

  /** d i o u x X e E f F g G a A */
  predicate IsConversion(b: Byte) {
    || b == 100 || b == 105 || b == 111 || b == 117 || b == 120 || b == 88 || b == 101 || b == 69
    || b == 102 || b == 70 || b == 103 || b == 71 || b == 97 || b == 65
  }

  /** What a conversion is made of: which flags, width, precision, modifier and letter. */
  datatype Conversion = Conversion(flags: seq<bool>, width: seq<Byte>, precision: Option<seq<Byte>>, modifier: seq<Byte>,
                                   letter: Byte)

  ghost predicate Digits(s: seq<Byte>) {
    forall i :: 0 <= i < |s| ==> IsDigit(s[i])
  }

  /** One h or l, two of the same, or none. */
  ghost predicate Modifies(s: seq<Byte>) {
    s == [] || (|s| <= 2 && IsModifier(s[0]) && s[|s| - 1] == s[0])
  }

  ghost predicate ProperTail(c: Conversion) {
    (c.precision.Some? ==> Digits(c.precision.value)) && Modifies(c.modifier) && IsConversion(c.letter)
  }

  ghost predicate Proper(c: Conversion) {
    |c.flags| == |FLAGS| && Digits(c.width) && ProperTail(c)
  }

  ghost function Flags(on: seq<bool>, letters: seq<Byte>): seq<Byte>
    requires |on| == |letters|
  {
    if on == [] then [] else (if on[0] then [letters[0]] else []) + Flags(on[1..], letters[1..])
  }

  ghost function Precision(p: Option<seq<Byte>>): seq<Byte> {
    if p.Some? then [46] + p.value else []
  }

  ghost function Tail(c: Conversion): seq<Byte> {
    Precision(c.precision) + (c.modifier + [c.letter])
  }

  /** The conversion as it is written. */
  ghost function Spell(c: Conversion): seq<Byte>
    requires Proper(c)
  {
    [PERCENT] + (Flags(c.flags, FLAGS) + (c.width + Tail(c)))
  }

  /** Past the flags that stand at `i`, each at most once and in this order. */
  function SkipFlags(f: seq<Byte>, i: nat, letters: seq<Byte>): (j: nat)
    requires i <= |f|
    ensures i <= j <= |f|
    decreases |letters|
  {
    if letters == [] then i else SkipFlags(f, if i < |f| && f[i] == letters[0] then i + 1 else i, letters[1..])
  }

  function SkipDigits(f: seq<Byte>, i: nat): (j: nat)
    requires i <= |f|
    ensures i <= j <= |f|
    decreases |f| - i
  {
    if i < |f| && IsDigit(f[i]) then SkipDigits(f, i + 1) else i
  }

  function SkipPrecision(f: seq<Byte>, i: nat): (j: nat)
    requires i <= |f|
    ensures i <= j <= |f|
  {
    if i < |f| && f[i] == 46 then SkipDigits(f, i + 1) else i
  }

  function SkipModifier(f: seq<Byte>, i: nat): (j: nat)
    requires i <= |f|
    ensures i <= j <= |f|
  {
    if i == |f| || !IsModifier(f[i]) then i
    else if i + 1 < |f| && f[i + 1] == f[i] then i + 2
    else i + 1
  }

  /** Where a conversion would end whose precision would begin at `i`, or 0. The buffer for it has 16 bytes. */
  function TailEnd(f: seq<Byte>, i: nat): (n: nat)
    requires i <= |f|
    ensures n == 0 || i < n <= |f|
  {
    var l := SkipModifier(f, SkipPrecision(f, i));
    if l < |f| && IsConversion(f[l]) && l + 1 < 14 then l + 1 else 0
  }

  function AfterFlags(f: seq<Byte>): (i: nat)
    requires f != []
    ensures 1 <= i <= |f|
  {
    SkipFlags(f, 1, FLAGS)
  }

  /** The length of the conversion at the start of `f`, or 0 where none is recognised. */
  function ConversionLen(f: seq<Byte>): (n: nat)
    requires f != []
    ensures n == 0 || 2 <= n <= |f|
  {
    TailEnd(f, SkipDigits(f, AfterFlags(f)))
  }

  // ----- Spelled conversions are read -----

  /** `t` stands at `i`. */
  ghost predicate At(f: seq<Byte>, i: nat, t: seq<Byte>) {
    i + |t| <= |f| && forall k {:trigger t[k]} :: 0 <= k < |t| ==> f[i + k] == t[k]
  }

  lemma AtParts(f: seq<Byte>, i: nat, a: seq<Byte>, b: seq<Byte>)
    requires At(f, i, a + b)
    ensures At(f, i, a) && At(f, i + |a|, b)
  {
    assert forall k :: 0 <= k < |a| ==> a[k] == (a + b)[k];
    assert forall k :: 0 <= k < |b| ==> b[k] == (a + b)[|a| + k];
  }

  /** Digits are skipped as far as they go. */
  lemma {:induction false} DigitsSkipped(f: seq<Byte>, i: nat, t: seq<Byte>)
    requires At(f, i, t) && Digits(t) && i + |t| < |f| && !IsDigit(f[i + |t|])
    ensures SkipDigits(f, i) == i + |t|
    decreases |t|
  {
    if t != [] {
      assert t == [t[0]] + t[1..];
      AtParts(f, i, [t[0]], t[1..]);
      assert f[i] == t[0];
      DigitsSkipped(f, i + 1, t[1..]);
    }
  }

  lemma {:induction false} NoFlag(f: seq<Byte>, i: nat, letters: seq<Byte>)
    requires i < |f| && f[i] !in letters
    ensures SkipFlags(f, i, letters) == i
    decreases |letters|
  {
    if letters != [] {
      NoFlag(f, i, letters[1..]);
    }
  }

  lemma {:induction false} FlagsAmong(on: seq<bool>, letters: seq<Byte>)
    requires |on| == |letters|
    ensures Flags(on, letters) != [] ==> Flags(on, letters)[0] in letters
  {
    if on != [] {
      FlagsAmong(on[1..], letters[1..]);
    }
  }

  /** What may follow flags: no flag, or the zero of a width. */
  ghost predicate Follows(f: seq<Byte>, j: nat, letters: seq<Byte>) {
    j < |f| && (f[j] in letters ==> f[j] == 48 && j + 1 < |f| && (f[j + 1] in letters ==> f[j + 1] == 48))
  }

  ghost predicate Distinct(s: seq<Byte>) {
    forall a, b :: 0 <= a < b < |s| ==> s[a] != s[b]
  }

  /** The first flag is off: nothing is skipped for it, or a zero that is not a flag but the start of a width. */
  lemma FlagOff(f: seq<Byte>, i: nat, text: seq<Byte>, letters: seq<Byte>)
    requires letters != [] && Distinct(letters) && At(f, i, text)
    requires text != [] ==> text[0] in letters[1..]
    requires Follows(f, i + |text|, letters)
    ensures f[i] != letters[0] || (text == [] && f[i] == 48 && SkipFlags(f, i, letters) == i + 1)
  {
    if text != [] {
      assert f[i] == text[0];
    } else if f[i] == letters[0] {
      NoFlag(f, i + 1, letters[1..]);
    }
  }

  /** Flags are skipped, and with them a zero that the width begins with. */
  lemma {:induction false} FlagsSkipped(f: seq<Byte>, i: nat, on: seq<bool>, letters: seq<Byte>, text: seq<Byte>)
    requires |on| == |letters| && Distinct(letters) && text == Flags(on, letters)
    requires At(f, i, text) && Follows(f, i + |text|, letters)
    ensures var j := i + |text|; SkipFlags(f, i, letters) == j || (f[j] == 48 && SkipFlags(f, i, letters) == j + 1)
    decreases |letters|
  {
    if letters != [] {
      var rest := Flags(on[1..], letters[1..]);
      if on[0] {
        AtParts(f, i, [letters[0]], rest);
        assert f[i] == [letters[0]][0];
        FlagsSkipped(f, i + 1, on[1..], letters[1..], rest);
      } else {
        assert text == rest;
        FlagsAmong(on[1..], letters[1..]);
        FlagOff(f, i, text, letters);
        FlagsSkipped(f, i, on[1..], letters[1..], rest);
      }
    }
  }

  /** A width can look like a flag only by a zero. */
  lemma WidthStarts(f: seq<Byte>, n: nat, width: seq<Byte>, letters: seq<Byte>)
    requires At(f, n, width) && Digits(width) && n + |width| < |f| && f[n + |width|] !in letters
    requires forall b :: b in letters && IsDigit(b) ==> b == 48
    ensures Follows(f, n, letters)
  {
    assert |width| > 0 ==> f[n] == width[0];
    assert |width| > 1 ==> f[n + 1] == width[1];
  }

  /** Wherever the flags are found to end, the digits are read up to the same place. */
  lemma DigitsEither(f: seq<Byte>, n: nat, width: seq<Byte>, i: nat)
    requires At(f, n, width) && Digits(width) && n + |width| < |f| && !IsDigit(f[n + |width|])
    requires i == n || (i == n + 1 && f[n] == 48)
    ensures SkipDigits(f, i) == n + |width|
  {
    DigitsSkipped(f, n, width);
  }

  lemma FlagsRead(f: seq<Byte>, on: seq<bool>, letters: seq<Byte>, flags: seq<Byte>, width: seq<Byte>)
    requires |on| == |letters| && Distinct(letters) && flags == Flags(on, letters) && Digits(width)
    requires forall b :: b in letters && IsDigit(b) ==> b == 48
    requires At(f, 1, flags) && At(f, 1 + |flags|, width) && 1 + |flags| + |width| < |f|
    requires f[1 + |flags| + |width|] !in letters
    ensures var n, i := 1 + |flags|, SkipFlags(f, 1, letters); i == n || (i == n + 1 && f[n] == 48)
  {
    WidthStarts(f, 1 + |flags|, width, letters);
    FlagsSkipped(f, 1, on, letters, flags);
  }

  /** Flags and width are read up to the rest. */
  lemma WidthRead(f: seq<Byte>, on: seq<bool>, letters: seq<Byte>, flags: seq<Byte>, width: seq<Byte>)
    requires |on| == |letters| && Distinct(letters) && flags == Flags(on, letters) && Digits(width)
    requires forall b :: b in letters && IsDigit(b) ==> b == 48
    requires At(f, 1, flags) && At(f, 1 + |flags|, width) && 1 + |flags| + |width| < |f|
    requires var b := f[1 + |flags| + |width|]; !IsDigit(b) && b !in letters
    ensures SkipDigits(f, SkipFlags(f, 1, letters)) == 1 + |flags| + |width|
  {
    FlagsRead(f, on, letters, flags, width);
    DigitsEither(f, 1 + |flags|, width, SkipFlags(f, 1, letters));
  }

  lemma ModifierRead(f: seq<Byte>, i: nat, m: seq<Byte>, letter: Byte)
    requires Modifies(m) && IsConversion(letter) && At(f, i, m) && i + |m| < |f| && f[i + |m|] == letter
    ensures SkipModifier(f, i) == i + |m|
  {
    if m != [] {
      assert f[i] == m[0] && f[i + (|m| - 1)] == m[|m| - 1];
    }
  }

  lemma PrecisionRead(f: seq<Byte>, i: nat, precision: Option<seq<Byte>>)
    requires precision.Some? ==> Digits(precision.value)
    requires At(f, i, Precision(precision)) && i + |Precision(precision)| < |f|
    requires var b := f[i + |Precision(precision)|]; !IsDigit(b) && b != 46
    ensures SkipPrecision(f, i) == i + |Precision(precision)|
  {
    if precision.Some? {
      AtParts(f, i, [46], precision.value);
      assert f[i] == [46][0];
      DigitsSkipped(f, i + 1, precision.value);
    }
  }

  /** From the precision on, a conversion is read to its letter. */
  lemma TailRead(f: seq<Byte>, i: nat, c: Conversion)
    requires ProperTail(c) && At(f, i, Tail(c))
    ensures TailEnd(f, i) == if i + |Tail(c)| < 14 then i + |Tail(c)| else 0
  {
    var p, m := |Precision(c.precision)|, c.modifier;
    AtParts(f, i, Precision(c.precision), m + [c.letter]);
    AtParts(f, i + p, m, [c.letter]);
    assert f[i + p + |m|] == [c.letter][0];
    assert m != [] ==> f[i + p] == m[0];
    PrecisionRead(f, i, c.precision);
    ModifierRead(f, i + p, m, c.letter);
  }

  lemma TailStarts(c: Conversion)
    requires Proper(c)
    ensures var b := Tail(c)[0]; !IsDigit(b) && b !in FLAGS
  {
    var m := c.modifier + [c.letter];
    assert Tail(c)[0] == if c.precision.Some? then 46 else m[0];
    assert m[0] == if c.modifier == [] then c.letter else c.modifier[0];
  }

  lemma PartsRead(f: seq<Byte>, c: Conversion, letters: seq<Byte>, flags: seq<Byte>, tail: seq<Byte>)
    requires |c.flags| == |letters| && Distinct(letters) && flags == Flags(c.flags, letters) && Digits(c.width)
    requires tail != [] && tail[0] !in letters && !IsDigit(tail[0])
    requires forall b :: b in letters && IsDigit(b) ==> b == 48
    requires At(f, 0, [PERCENT] + (flags + (c.width + tail)))
    ensures SkipDigits(f, SkipFlags(f, 1, letters)) == 1 + |flags| + |c.width|
    ensures At(f, 1 + |flags| + |c.width|, tail)
  {
    AtParts(f, 0, [PERCENT], flags + (c.width + tail));
    AtParts(f, 1, flags, c.width + tail);
    AtParts(f, 1 + |flags|, c.width, tail);
    assert f[1 + |flags| + |c.width|] == tail[0];
    WidthRead(f, c.flags, letters, flags, c.width);
  }

  lemma LettersRead(f: seq<Byte>, c: Conversion, letters: seq<Byte>, flags: seq<Byte>, tail: seq<Byte>)
    requires |c.flags| == |letters| && Distinct(letters) && flags == Flags(c.flags, letters) && Digits(c.width)
    requires ProperTail(c) && tail == Tail(c) && tail[0] !in letters && !IsDigit(tail[0])
    requires forall b :: b in letters && IsDigit(b) ==> b == 48
    requires At(f, 0, [PERCENT] + (flags + (c.width + tail)))
    ensures var n := 1 + |flags| + |c.width| + |tail|;
            TailEnd(f, SkipDigits(f, SkipFlags(f, 1, letters))) == if n < 14 then n else 0
  {
    PartsRead(f, c, letters, flags, tail);
    TailRead(f, 1 + |flags| + |c.width|, c);
  }

  lemma FlagsAre()
    ensures Distinct(FLAGS) && forall b :: b in FLAGS && IsDigit(b) ==> b == 48
  {
  }

  /** A conversion is recognised, whatever follows it, unless it is too long. */
  lemma SpelledRead(f: seq<Byte>, c: Conversion)
    requires Proper(c) && Spell(c) <= f
    ensures ConversionLen(f) == if |Spell(c)| < 14 then |Spell(c)| else 0
  {
    TailStarts(c);
    FlagsAre();
    LettersRead(f, c, FLAGS, Flags(c.flags, FLAGS), Tail(c));
  }

  // ----- What is read is spelled -----

  /** The flags that were skipped. */
  lemma {:induction false} FlagsFound(f: seq<Byte>, i: nat, letters: seq<Byte>) returns (on: seq<bool>)
    requires i <= |f|
    ensures |on| == |letters| && f[i..SkipFlags(f, i, letters)] == Flags(on, letters)
    decreases |letters|
  {
    if letters == [] {
      on := [];
    } else {
      var here := i < |f| && f[i] == letters[0];
      var k := if here then i + 1 else i;
      on := FlagsFound(f, k, letters[1..]);
      on := [here] + on;
      assert on[1..] == on[1..] && f[i..SkipFlags(f, i, letters)] == f[i..k] + f[k..SkipFlags(f, i, letters)];
    }
  }

  lemma {:induction false} DigitsFound(f: seq<Byte>, i: nat)
    requires i <= |f|
    ensures Digits(f[i..SkipDigits(f, i)])
    decreases |f| - i
  {
    if i < |f| && IsDigit(f[i]) {
      DigitsFound(f, i + 1);
      assert f[i..SkipDigits(f, i)] == [f[i]] + f[i + 1..SkipDigits(f, i)];
    }
  }

  lemma PrecisionFound(f: seq<Byte>, i: nat) returns (precision: Option<seq<Byte>>)
    requires i <= |f|
    ensures precision.Some? ==> Digits(precision.value)
    ensures Precision(precision) == f[i..SkipPrecision(f, i)]
  {
    precision := None;
    if i < |f| && f[i] == 46 {
      DigitsFound(f, i + 1);
      precision := Some(f[i + 1..SkipPrecision(f, i)]);
    }
  }

  lemma TailFound(f: seq<Byte>, i: nat) returns (precision: Option<seq<Byte>>, modifier: seq<Byte>, letter: Byte)
    requires i <= |f| && TailEnd(f, i) > 0
    ensures (precision.Some? ==> Digits(precision.value)) && Modifies(modifier) && IsConversion(letter)
    ensures Precision(precision) + (modifier + [letter]) == f[i..TailEnd(f, i)]
  {
    precision := PrecisionFound(f, i);
    var k := SkipPrecision(f, i);
    modifier, letter := f[k..SkipModifier(f, k)], f[SkipModifier(f, k)];
    TailJoined(f, i, k, SkipModifier(f, k));
  }

  lemma TailJoined(f: seq<Byte>, i: nat, k: nat, l: nat)
    requires i <= k <= l < |f|
    ensures f[i..k] + (f[k..l] + [f[l]]) == f[i..l + 1]
  {
  }

  /** The parts of a conversion that was recognised. */
  lemma ReadSpelled(f: seq<Byte>) returns (c: Conversion)
    requires f != [] && f[0] == PERCENT && ConversionLen(f) > 0
    ensures Proper(c) && Spell(c) == f[..ConversionLen(f)]
  {
    var i := AfterFlags(f);
    var on := FlagsFound(f, 1, FLAGS);
    DigitsFound(f, i);
    var precision, modifier, letter := TailFound(f, SkipDigits(f, i));
    c := Conversion(on, f[i..SkipDigits(f, i)], precision, modifier, letter);
    Joined(f, 1, i, SkipDigits(f, i), ConversionLen(f));
  }

  lemma Joined(f: seq<Byte>, i: nat, j: nat, k: nat, n: nat)
    requires i <= j <= k <= n <= |f|
    ensures f[..n] == f[..i] + (f[i..j] + (f[j..k] + f[k..n]))
  {
  }

  /** Exactly the conversions of the grammar that fit the buffer are recognised. */
  lemma ConversionIff(f: seq<Byte>, n: nat)
    requires f != [] && f[0] == PERCENT && 0 < n <= |f|
    ensures ConversionLen(f) == n <==> n < 14 && exists c :: Proper(c) && Spell(c) == f[..n]
  {
    if ConversionLen(f) == n {
      var c := ReadSpelled(f);
    }
    if n < 14 && exists c :: Proper(c) && Spell(c) == f[..n] {
      var c :| Proper(c) && Spell(c) == f[..n];
      SpelledRead(f, c);
    }
  }

  method FindFlags(p: seq<Byte>) returns (i: nat)
    requires p != []
    ensures i == AfterFlags(p)
  {
    i := 1;
    var k := 0;
    assert FLAGS[0..] == FLAGS;
    while k < |FLAGS|
      invariant k <= |FLAGS| && i <= |p| && SkipFlags(p, i, FLAGS[k..]) == AfterFlags(p)
    {
      assert FLAGS[k..][1..] == FLAGS[k + 1..];
      if i < |p| && p[i] == FLAGS[k] {
        i := i + 1;
      }
      k := k + 1;
    }
  }

  method FindDigits(p: seq<Byte>, from: nat) returns (i: nat)
    requires from <= |p|
    ensures i == SkipDigits(p, from)
  {
    i := from;
    while i < |p| && IsDigit(p[i])
      invariant i <= |p| && SkipDigits(p, i) == SkipDigits(p, from)
    {
      i := i + 1;
    }
  }

  /** Precision, modifier and letter. */
  method FindTail(p: seq<Byte>, from: nat) returns (n: nat)
    requires from <= |p|
    ensures n == TailEnd(p, from)
  {
    var i := from;
    if i < |p| && p[i] == 46 {
      i := FindDigits(p, i + 1);
    }
    if i < |p| && IsModifier(p[i]) {
      if i + 1 < |p| && p[i] == p[i + 1] {
        i := i + 1;
      }
      i := i + 1;
    }
    n := if i < |p| && IsConversion(p[i]) && i + 1 < 14 then i + 1 else 0;
  }

  /** The scan of redisvFormatCommand for a conversion, from the percent sign at `p[0]`. */
  method FindConversion(p: seq<Byte>) returns (n: nat)
    requires p != []
    ensures n == ConversionLen(p)
  {
    var i := FindFlags(p);
    i := FindDigits(p, i);
    n := FindTail(p, i);
  }
}
