/** What a format means, from the side of the arguments that it spells. */
module FormatLaws {
  import opened Resp
  import opened Reply
  import opened ReplyCodec
  import opened Command
  import opened Conversions
  import opened FormatString

  type ZeroFree = s: seq<Byte> | 0 !in s witness []

  /** A piece of an argument: literal text, %%, a C string with what may follow its zero byte, a buffer, a printf
      conversion of a value, or a letter that makes no directive. */
  datatype Part =
    | Literal(text: seq<Byte>)
    | PercentSign
    | Str(str: ZeroFree, after: Option<seq<Byte>>)
    | Buffer(bytes: seq<Byte>)
    | Converted(conversion: Conversion, arg: seq<Byte>)
    | Ignored(letter: Byte, arg: seq<Byte>)

  predicate IsLiteral(b: Byte) {
    b != 0 && b != 32 && b != 37
  }

  /** Neither a flag, a digit, a point, a modifier nor the letter of a directive. */
  predicate IsIgnored(b: Byte) {
    && b != 0 && b != 37 && b != 115 && b != 98 && b != 46 && !IsDigit(b) && !IsModifier(b) && !IsConversion(b)
    && b != 35 && b != 45 && b != 32 && b != 43
  }

  ghost predicate PartOk(p: Part) {
    match p
    case Literal(text) => text != [] && forall i :: 0 <= i < |text| ==> IsLiteral(text[i])
    case Converted(c, _) => Proper(c) && |Spell(c)| < 14
    case Ignored(letter, _) => IsIgnored(letter)
    case _ => true
  }

  ghost function SpellPart(p: Part): seq<Byte>
    requires PartOk(p)
  {
    match p
    case Literal(text) => text
    case PercentSign => [37, 37]
    case Str(_, _) => [37, 115]
    case Buffer(_) => [37, 98]
    case Converted(c, _) => Spell(c)
    case Ignored(letter, _) => [37, letter]
  }

  /** The value that goes with a part, if it takes one. */
  ghost function ValueOfPart(p: Part): seq<seq<Byte>> {
    match p
    case Literal(_) => []
    case PercentSign => []
    case Str(str, after) => [if after.Some? then str + [0] + after.value else str]
    case Buffer(bytes) => [bytes]
    case Converted(_, arg) => [arg]
    case Ignored(_, arg) => [arg]
  }

  /** The text that a part contributes, with a C library that makes `text` of a conversion and an argument. */
  ghost function Contribution(p: Part, text: (seq<Byte>, seq<Byte>) -> seq<Byte>): seq<Byte>
    requires PartOk(p)
  {
    match p
    case Literal(t) => t
    case PercentSign => [37]
    case Str(str, _) => str
    case Buffer(bytes) => bytes
    case Converted(c, arg) => text(Spell(c), arg)
    case Ignored(_, _) => []
  }

  /** Arguments with the number of spaces before each. */
  datatype Spaced = Spaced(gap: nat, parts: seq<Part>)

  ghost predicate ArgOk(a: Spaced) {
    a.parts != [] && forall i :: 0 <= i < |a.parts| ==> PartOk(a.parts[i])
  }

  ghost predicate FormatOk(args: seq<Spaced>) {
    forall i :: 0 <= i < |args| ==> ArgOk(args[i]) && (i > 0 ==> args[i].gap > 0)
  }

  function Spaces(n: nat): seq<Byte> {
    seq(n, _ => 32)
  }

  ghost function SpellParts(ps: seq<Part>): seq<Byte>
    requires forall i :: 0 <= i < |ps| ==> PartOk(ps[i])
  {
    if ps == [] then [] else SpellPart(ps[0]) + SpellParts(ps[1..])
  }

  ghost function ValuesOf(ps: seq<Part>): seq<seq<Byte>> {
    if ps == [] then [] else ValueOfPart(ps[0]) + ValuesOf(ps[1..])
  }

  ghost function TextOf(ps: seq<Part>, text: (seq<Byte>, seq<Byte>) -> seq<Byte>): seq<Byte>
    requires forall i :: 0 <= i < |ps| ==> PartOk(ps[i])
  {
    if ps == [] then [] else Contribution(ps[0], text) + TextOf(ps[1..], text)
  }

  /** The format that spells `args` and ends with `end`. */
  ghost function SpellAll(args: seq<Spaced>, end: seq<Byte>): seq<Byte>
    requires FormatOk(args)
  {
    if args == [] then end else Spaces(args[0].gap) + (SpellParts(args[0].parts) + SpellAll(args[1..], end))
  }

  ghost function AllValues(args: seq<Spaced>, more: seq<seq<Byte>>): seq<seq<Byte>> {
    if args == [] then more else ValuesOf(args[0].parts) + AllValues(args[1..], more)
  }

  ghost function Texts(args: seq<Spaced>, text: (seq<Byte>, seq<Byte>) -> seq<Byte>): seq<seq<Byte>>
    requires FormatOk(args)
  {
    if args == [] then [] else [TextOf(args[0].parts, text)] + Texts(args[1..], text)
  }

  /** What is left to come out when `cur` has been collected. */
  ghost function Coming(cur: seq<Byte>, touched: bool, f: seq<Byte>, values: seq<seq<Byte>>, printf: Printf): seq<seq<Byte>>
    requires Fits(f, values, printf)
  {
    Continue(cur, touched, Pieces(f, values, printf))
  }

  // ----- One part -----

  lemma StepByte(b: Byte, cur: seq<Byte>, touched: bool, g: seq<Byte>, w: seq<seq<Byte>>, printf: Printf)
    requires IsLiteral(b) && Fits(g, w, printf) && (!touched ==> cur == [])
    ensures Fits([b] + g, w, printf)
    ensures Coming(cur, touched, [b] + g, w, printf) == Coming(cur + [b], true, g, w, printf)
  {
    assert ([b] + g)[1..] == g;
    ContinueText(cur, touched, [b], Pieces(g, w, printf));
  }

  lemma {:induction false} StepLiteral(text: seq<Byte>, cur: seq<Byte>, touched: bool, g: seq<Byte>, w: seq<seq<Byte>>,
                                       printf: Printf)
    requires (forall i :: 0 <= i < |text| ==> IsLiteral(text[i])) && Fits(g, w, printf) && (!touched ==> cur == [])
    ensures Fits(text + g, w, printf)
    ensures Coming(cur, touched, text + g, w, printf) == Coming(cur + text, touched || text != [], g, w, printf)
    decreases |text|
  {
    if text == [] {
      assert text + g == g && cur + text == cur;
    } else {
      assert text + g == [text[0]] + (text[1..] + g);
      assert cur + text == cur + [text[0]] + text[1..];
      StepLiteral(text[1..], cur + [text[0]], true, g, w, printf);
      StepByte(text[0], cur, touched, text[1..] + g, w, printf);
    }
  }

  /** A directive with a value: `f` is the format from it on, and `n` its length. */
  lemma StepDirective(f: seq<Byte>, n: nat, v: seq<Byte>, cur: seq<Byte>, touched: bool, g: seq<Byte>, w: seq<seq<Byte>>,
                      printf: Printf)
    requires IsDirective(f) && f[1] != PERCENT && n == DirectiveLen(f, printf) && f[n..] == g
    requires Fits(g, w, printf) && (!touched ==> cur == [])
    ensures Fits(f, [v] + w, printf)
    ensures Coming(cur, touched, f, [v] + w, printf) == Coming(cur + DirectiveText(f, v, printf), true, g, w, printf)
  {
    assert ([v] + w)[1..] == w;
    ContinueText(cur, touched, DirectiveText(f, v, printf), Pieces(g, w, printf));
  }

  lemma StepPercent(cur: seq<Byte>, touched: bool, g: seq<Byte>, w: seq<seq<Byte>>, printf: Printf)
    requires Fits(g, w, printf) && (!touched ==> cur == [])
    ensures Fits([37, 37] + g, w, printf)
    ensures Coming(cur, touched, [37, 37] + g, w, printf) == Coming(cur + [37], true, g, w, printf)
  {
    assert ([37, 37] + g)[2..] == g;
    ContinueText(cur, touched, [37], Pieces(g, w, printf));
  }

  lemma {:induction false} CStringIs(str: seq<Byte>, after: seq<Byte>)
    requires 0 !in str
    ensures CString(str) == str && CString(str + [0] + after) == str
  {
    if str != [] {
      assert (str + [0] + after)[1..] == str[1..] + [0] + after;
      CStringIs(str[1..], after);
    }
  }

  lemma IgnoredIs(letter: Byte, g: seq<Byte>)
    requires IsIgnored(letter)
    ensures ConversionLen([37, letter] + g) == 0
  {
    var f := [37, letter] + g;
    assert f[1] == letter;
    NoFlag(f, 1, FLAGS);
  }

  lemma StartsDirective(c: Conversion, g: seq<Byte>)
    requires Proper(c) && |Spell(c)| < 14
    ensures var f := Spell(c) + g;
            && IsDirective(f) && f[1] != 115 && f[1] != 98 && f[1] != PERCENT && ConversionLen(f) == |Spell(c)|
            && f[..|Spell(c)|] == Spell(c) && f[|Spell(c)|..] == g
  {
    var f := Spell(c) + g;
    assert Spell(c) <= f;
    SpelledRead(f, c);
    SecondByte(c);
    assert f[1] == Spell(c)[1];
  }

  /** The byte after the percent sign is a flag, a digit, a point, a modifier or the letter. */
  lemma SecondByte(c: Conversion)
    requires Proper(c)
    ensures |Spell(c)| >= 2
    ensures var b := Spell(c)[1];
            b in FLAGS || IsDigit(b) || b == 46 || IsModifier(b) || IsConversion(b)
  {
    var flags, rest := Flags(c.flags, FLAGS), c.width + Tail(c);
    FlagsAmong(c.flags, FLAGS);
    assert Spell(c)[1] == (flags + rest)[0];
    if flags == [] {
      assert (flags + rest)[0] == rest[0];
      TailBegins(c);
    }
  }

  lemma TailBegins(c: Conversion)
    requires Proper(c)
    ensures c.width + Tail(c) != []
    ensures var b := (c.width + Tail(c))[0]; IsDigit(b) || b == 46 || IsModifier(b) || IsConversion(b)
  {
    var m := c.modifier + [c.letter];
    assert m[0] == if c.modifier == [] then c.letter else c.modifier[0];
    assert Tail(c)[0] == if c.precision.Some? then 46 else m[0];
  }

  /** A directive that takes two characters and contributes `t`. */
  lemma StepTwo(letter: Byte, v: seq<Byte>, t: seq<Byte>, cur: seq<Byte>, touched: bool, g: seq<Byte>, w: seq<seq<Byte>>,
                printf: Printf)
    requires letter != 0 && letter != 37 && Fits(g, w, printf) && (!touched ==> cur == [])
    requires DirectiveLen([37, letter] + g, printf) == 2 && DirectiveText([37, letter] + g, v, printf) == t
    ensures Fits([37, letter] + g, [v] + w, printf)
    ensures Coming(cur, touched, [37, letter] + g, [v] + w, printf) == Coming(cur + t, true, g, w, printf)
  {
    assert ([37, letter] + g)[2..] == g;
    StepDirective([37, letter] + g, 2, v, cur, touched, g, w, printf);
  }

  lemma StepConverted(c: Conversion, v: seq<Byte>, cur: seq<Byte>, touched: bool, g: seq<Byte>, w: seq<seq<Byte>>,
                      text: (seq<Byte>, seq<Byte>) -> seq<Byte>)
    requires Proper(c) && |Spell(c)| < 14 && Fits(g, w, Printf(LenOf, text)) && (!touched ==> cur == [])
    ensures Fits(Spell(c) + g, [v] + w, Printf(LenOf, text))
    ensures Coming(cur, touched, Spell(c) + g, [v] + w, Printf(LenOf, text))
         == Coming(cur + text(Spell(c), v), true, g, w, Printf(LenOf, text))
  {
    StartsDirective(c, g);
    ConvertedIs(Spell(c) + g, |Spell(c)|, v, text);
    StepDirective(Spell(c) + g, |Spell(c)|, v, cur, touched, g, w, Printf(LenOf, text));
  }

  lemma ConvertedIs(f: seq<Byte>, n: nat, v: seq<Byte>, text: (seq<Byte>, seq<Byte>) -> seq<Byte>)
    requires IsDirective(f) && f[1] != 115 && f[1] != 98 && f[1] != PERCENT && 2 <= n <= |f| && ConversionLen(f) == n
    ensures DirectiveLen(f, Printf(LenOf, text)) == n && DirectiveText(f, v, Printf(LenOf, text)) == text(f[..n], v)
  {
  }

  /** Every part contributes its text and makes an argument. */
  lemma StepPart(p: Part, cur: seq<Byte>, touched: bool, g: seq<Byte>, w: seq<seq<Byte>>,
                 text: (seq<Byte>, seq<Byte>) -> seq<Byte>)
    requires PartOk(p) && Fits(g, w, Printf(LenOf, text)) && (!touched ==> cur == [])
    ensures Fits(SpellPart(p) + g, ValueOfPart(p) + w, Printf(LenOf, text))
    ensures Coming(cur, touched, SpellPart(p) + g, ValueOfPart(p) + w, Printf(LenOf, text))
         == Coming(cur + Contribution(p, text), true, g, w, Printf(LenOf, text))
  {
    var printf := Printf(LenOf, text);
    assert [] + w == w;
    match p
    case Literal(t) =>
      StepLiteral(t, cur, touched, g, w, printf);
    case PercentSign =>
      StepPercent(cur, touched, g, w, printf);
    case Str(str, after) =>
      CStringIs(str, if after.Some? then after.value else []);
      StepTwo(115, ValueOfPart(p)[0], str, cur, touched, g, w, printf);
    case Buffer(bytes) =>
      StepTwo(98, bytes, bytes, cur, touched, g, w, printf);
    case Converted(c, arg) =>
      StepConverted(c, arg, cur, touched, g, w, text);
    case Ignored(letter, arg) =>
      IgnoredIs(letter, g);
      StepTwo(letter, arg, [], cur, touched, g, w, printf);
  }

  // ----- A whole format -----

  lemma {:induction false} StepParts(ps: seq<Part>, cur: seq<Byte>, touched: bool, g: seq<Byte>, w: seq<seq<Byte>>,
                                     text: (seq<Byte>, seq<Byte>) -> seq<Byte>)
    requires (forall i :: 0 <= i < |ps| ==> PartOk(ps[i])) && Fits(g, w, Printf(LenOf, text)) && (!touched ==> cur == [])
    ensures Fits(SpellParts(ps) + g, ValuesOf(ps) + w, Printf(LenOf, text))
    ensures Coming(cur, touched, SpellParts(ps) + g, ValuesOf(ps) + w, Printf(LenOf, text))
         == Coming(cur + TextOf(ps, text), touched || ps != [], g, w, Printf(LenOf, text))
    decreases |ps|
  {
    if ps == [] {
      assert [] + g == g && [] + w == w && cur + [] == cur;
    } else {
      var p, qs := ps[0], ps[1..];
      var g', w', cur' := SpellParts(qs) + g, ValuesOf(qs) + w, cur + Contribution(p, text);
      assert SpellParts(ps) + g == SpellPart(p) + g';
      assert ValuesOf(ps) + w == ValueOfPart(p) + w';
      assert cur + TextOf(ps, text) == cur' + TextOf(qs, text);
      StepParts(qs, cur', true, g, w, text);
      StepPart(p, cur, touched, g', w', text);
    }
  }

  function Gaps(n: nat): seq<Piece> {
    seq(n, _ => Gap)
  }

  lemma {:induction false} SpacesAre(n: nat, g: seq<Byte>, w: seq<seq<Byte>>, printf: Printf)
    requires Fits(g, w, printf)
    ensures Fits(Spaces(n) + g, w, printf) && Pieces(Spaces(n) + g, w, printf) == Gaps(n) + Pieces(g, w, printf)
  {
    var rest := Pieces(g, w, printf);
    if n == 0 {
      assert Spaces(0) + g == g && Gaps(0) + rest == rest;
    } else {
      SpacesAre(n - 1, g, w, printf);
      var f := Spaces(n) + g;
      assert f[0] == 32 && f[1..] == Spaces(n - 1) + g;
      assert Gaps(n) + rest == [Gap] + (Gaps(n - 1) + rest);
    }
  }

  lemma {:induction false} ContinueGaps(n: nat, cur: seq<Byte>, touched: bool, ps: seq<Piece>)
    requires touched ==> n > 0
    ensures Continue(cur, touched, Gaps(n) + ps) == (if touched then [cur] else []) + Continue([], false, ps)
  {
    if n == 0 {
      assert Gaps(0) + ps == ps;
    } else {
      assert Gaps(n) + ps == [Gap] + (Gaps(n - 1) + ps);
      ContinueGap([], cur, touched, Gaps(n - 1) + ps);
      ContinueGaps(n - 1, [], false, ps);
      assert [] + Continue(cur, touched, Gaps(n) + ps) == Continue(cur, touched, Gaps(n) + ps);
      assert [] + [cur] == [cur];
    }
  }

  /** Spaces end an argument, however many they are. */
  lemma StepSpaces(n: nat, cur: seq<Byte>, touched: bool, g: seq<Byte>, w: seq<seq<Byte>>, printf: Printf)
    requires Fits(g, w, printf) && (touched ==> n > 0)
    ensures Fits(Spaces(n) + g, w, printf)
    ensures Coming(cur, touched, Spaces(n) + g, w, printf) == (if touched then [cur] else []) + Coming([], false, g, w, printf)
  {
    SpacesAre(n, g, w, printf);
    ContinueGaps(n, cur, touched, Pieces(g, w, printf));
  }

  lemma NothingMore(z: seq<Byte>, cur: seq<Byte>, touched: bool, w: seq<seq<Byte>>, printf: Printf)
    requires Ended(z)
    ensures Fits(z, w, printf) && Coming(cur, touched, z, w, printf) == if touched then [cur] else []
  {
    ContinueEnd([], cur, touched);
    assert [] + Continue(cur, touched, []) == Continue(cur, touched, []);
    assert [] + [cur] == [cur];
  }

  /** The end of the format: spaces, and a zero byte with anything after it. */
  lemma StepEnd(n: nat, z: seq<Byte>, cur: seq<Byte>, touched: bool, w: seq<seq<Byte>>, printf: Printf)
    requires Ended(z)
    ensures Fits(Spaces(n) + z, w, printf)
    ensures Coming(cur, touched, Spaces(n) + z, w, printf) == if touched then [cur] else []
  {
    if n == 0 {
      assert Spaces(0) + z == z;
      NothingMore(z, cur, touched, w, printf);
    } else {
      NothingMore(z, [], false, w, printf);
      StepSpaces(n, cur, touched, z, w, printf);
    }
  }

  /** A percent sign at the end of the format stands for itself. */
  lemma LonePercent(z: seq<Byte>, cur: seq<Byte>, touched: bool, w: seq<seq<Byte>>, printf: Printf)
    requires Ended(z) && (!touched ==> cur == [])
    ensures Fits([37] + z, w, printf) && Coming(cur, touched, [37] + z, w, printf) == [cur + [37]]
  {
    assert ([37] + z)[1..] == z;
    assert Pieces([37] + z, w, printf) == [Text([37])] + [];
    ContinueText(cur, touched, [37], []);
    NothingMore([], cur + [37], true, w, printf);
  }

  lemma {:induction false} StepAll(args: seq<Spaced>, n: nat, z: seq<Byte>, more: seq<seq<Byte>>, cur: seq<Byte>,
                                   touched: bool, text: (seq<Byte>, seq<Byte>) -> seq<Byte>)
    requires FormatOk(args) && Ended(z) && (touched && args != [] ==> args[0].gap > 0) && (!touched ==> cur == [])
    ensures Fits(SpellAll(args, Spaces(n) + z), AllValues(args, more), Printf(LenOf, text))
    ensures Coming(cur, touched, SpellAll(args, Spaces(n) + z), AllValues(args, more), Printf(LenOf, text))
         == (if touched then [cur] else []) + Texts(args, text)
    decreases |args|
  {
    var printf := Printf(LenOf, text);
    if args == [] {
      StepEnd(n, z, cur, touched, more, printf);
    } else {
      var g, w := SpellAll(args[1..], Spaces(n) + z), AllValues(args[1..], more);
      var t := TextOf(args[0].parts, text);
      assert [] + t == t;
      StepAll(args[1..], n, z, more, t, true, text);
      StepParts(args[0].parts, [], false, g, w, text);
      StepSpaces(args[0].gap, cur, touched, SpellParts(args[0].parts) + g, ValuesOf(args[0].parts) + w, printf);
    }
  }

  /** The arguments of a format are the ones it spells, with the text of each part and nothing else. */
  lemma FormatMeans(args: seq<Spaced>, n: nat, z: seq<Byte>, more: seq<seq<Byte>>,
                    text: (seq<Byte>, seq<Byte>) -> seq<Byte>)
    requires FormatOk(args) && Ended(z)
    ensures var f, values := SpellAll(args, Spaces(n) + z), AllValues(args, more);
            && Fits(f, values, Printf(LenOf, text))
            && Arguments(Pieces(f, values, Printf(LenOf, text))) == Texts(args, text)
  {
    StepAll(args, n, z, more, [], false, text);
    assert [] + Texts(args, text) == Texts(args, text);
  }

  /** A server that reads the formatted command finds the arguments that the format spells. */
  lemma ServerReads(args: seq<Spaced>, n: nat, z: seq<Byte>, more: seq<seq<Byte>>,
                    text: (seq<Byte>, seq<Byte>) -> seq<Byte>, i: nat)
    requires FormatOk(args) && Ended(z) && i < |args|
    ensures var f, values := SpellAll(args, Spaces(n) + z), AllValues(args, more);
            && Fits(f, values, Printf(LenOf, text))
            && var (st, replies) := Drain(Feed(INITIAL, Format(Arguments(Pieces(f, values, Printf(LenOf, text))))));
            && st == INITIAL && |replies| == 1 && replies[0].ArrObj? && |replies[0].element| == |args|
            && replies[0].element[i] == Full(StrObj(StringReply, TextOf(args[i].parts, text)))
  {
    FormatMeans(args, n, z, more, text);
    ReaderReads(Texts(args, text));
    TextsAt(args, text, i);
  }

  lemma {:induction false} TextsAt(args: seq<Spaced>, text: (seq<Byte>, seq<Byte>) -> seq<Byte>, i: nat)
    requires FormatOk(args) && i < |args|
    ensures |Texts(args, text)| == |args| && Texts(args, text)[i] == TextOf(args[i].parts, text)
  {
    if |args| > 1 {
      TextsAt(args[1..], text, if i == 0 then 0 else i - 1);
    }
  }
}
