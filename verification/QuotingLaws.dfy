/** The lines that sdssplitargs splits, from the side of the arguments that they spell. */
module QuotingLaws {
  import opened Resp
  import opened Arguments
  import opened Quoting

  /** Inside quotes: a byte that stands for itself, or a byte after a backslash. */
  datatype Item = Plain(byte: Byte) | Escaped(byte: Byte)

  /** An argument in a line: a word, or quotes with perhaps the beginning of a word before them. */
  datatype Tok = Word(text: seq<Byte>) | InQuotes(prefix: seq<Byte>, items: seq<Item>)

  /** An argument and the white space before it. */
  datatype Spaced = Spaced(gap: seq<Byte>, tok: Tok)

  predicate ItemOk(i: Item) {
    i.byte != 0 && (i.Plain? ==> i.byte != 34 && i.byte != 92)
  }

  predicate ItemsOk(items: seq<Item>) {
    forall k :: 0 <= k < |items| ==> ItemOk(items[k])
  }

  /** No quote, no zero byte, and none of the four separators; a vertical tab or a form feed only after the first byte. */
  predicate WordOk(w: seq<Byte>) {
    && (forall k :: 0 <= k < |w| ==> w[k] !in [0, 34, 32, 10, 13, 9])
    && (w != [] ==> w[0] != 11 && w[0] != 12)
  }

  predicate TokOk(t: Tok) {
    match t
    case Word(text) => text != [] && WordOk(text)
    case InQuotes(prefix, items) => WordOk(prefix) && ItemsOk(items)
  }

  predicate White(b: Byte) {
    b in [32, 9, 10, 11, 12, 13]
  }

  predicate AllSpace(gap: seq<Byte>) {
    forall k :: 0 <= k < |gap| ==> White(gap[k])
  }

  function Raw(items: seq<Item>): seq<Byte> {
    if items == [] then []
    else (if items[0].Plain? then [items[0].byte] else [92, items[0].byte]) + Raw(items[1..])
  }

  function Means(i: Item): Byte {
    if i.Plain? then i.byte
    else match i.byte
      case 110 => 10
      case 114 => 13
      case 116 => 9
      case 98 => 8
      case 97 => 7
      case b => b
  }

  function MeansAll(items: seq<Item>): seq<Byte> {
    seq(|items|, k requires 0 <= k < |items| => Means(items[k]))
  }

  function RawTok(t: Tok): seq<Byte> {
    match t
    case Word(text) => text
    case InQuotes(prefix, items) => prefix + [34] + Raw(items) + [34]
  }

  function TextOf(t: Tok): seq<Byte> {
    match t
    case Word(text) => text
    case InQuotes(prefix, items) => prefix + MeansAll(items)
  }

  /** What may stand after an argument: the end, or a separator; after quotes, any white space. */
  predicate Follows(t: Tok, s: seq<Byte>) {
    AtEnd(s) || s[0] in [32, 10, 13, 9] || (t.InQuotes? && White(s[0]))
  }

  /** The line that spells arguments and goes on with `end`. */
  function SpellLine(ts: seq<Spaced>, end: seq<Byte>): seq<Byte> {
    if ts == [] then end else ts[0].gap + (RawTok(ts[0].tok) + SpellLine(ts[1..], end))
  }

  predicate LineOk(ts: seq<Spaced>, end: seq<Byte>) {
    ts != [] ==>
      && AllSpace(ts[0].gap) && TokOk(ts[0].tok)
      && Follows(ts[0].tok, SpellLine(ts[1..], end)) && LineOk(ts[1..], end)
  }

  function Texts(ts: seq<Spaced>): seq<seq<Byte>> {
    seq(|ts|, i requires 0 <= i < |ts| => TextOf(ts[i].tok))
  }

  /** White space and the end of the string. */
  ghost predicate Ends(end: seq<Byte>) {
    exists n | 0 <= n <= |end| :: AllSpace(end[..n]) && AtEnd(end[n..])
  }

  /** A quote is opened. Then the string ends, perhaps after a backslash, or the quote is closed with something else than
      white space or the end after it. */
  ghost predicate Breaks(end: seq<Byte>) {
    exists gap, prefix, items, bad :: BreaksWith(end, gap, prefix, items, bad)
  }

  predicate BreaksWith(end: seq<Byte>, gap: seq<Byte>, prefix: seq<Byte>, items: seq<Item>, bad: seq<Byte>) {
    && AllSpace(gap) && WordOk(prefix) && ItemsOk(items) && BadClose(bad)
    && end == gap + (prefix + [34] + Raw(items) + bad)
  }

  predicate BadClose(bad: seq<Byte>) {
    || AtEnd(bad)
    || (bad[0] == 92 && AtEnd(bad[1..]))
    || (bad[0] == 34 && !AtEnd(bad[1..]) && !White(bad[1]))
  }

  // ----- One argument -----

  lemma {:induction false} TokenWord(w: seq<Byte>, s: seq<Byte>, cur: seq<Byte>)
    requires forall k :: 0 <= k < |w| ==> w[k] !in [0, 34, 32, 10, 13, 9]
    ensures Token(w + s, false, cur) == Token(s, false, cur + w)
    decreases |w|
  {
    if w == [] {
      assert w + s == s && cur + w == cur;
    } else {
      assert w[0] !in [0, 34, 32, 10, 13, 9];
      assert (w + s)[1..] == w[1..] + s;
      assert cur + w == cur + [w[0]] + w[1..];
      TokenWord(w[1..], s, cur + [w[0]]);
    }
  }

  lemma TokenItem(i: Item, s: seq<Byte>, cur: seq<Byte>)
    requires ItemOk(i)
    ensures Token((if i.Plain? then [i.byte] else [92, i.byte]) + s, true, cur) == Token(s, true, cur + [Means(i)])
  {
    if i.Plain? {
      assert ([i.byte] + s)[1..] == s;
    } else {
      var t := [92, i.byte] + s;
      assert t[2..] == s && t[1..][0] == i.byte;
    }
  }

  lemma {:induction false} TokenItems(items: seq<Item>, s: seq<Byte>, cur: seq<Byte>)
    requires ItemsOk(items)
    ensures Token(Raw(items) + s, true, cur) == Token(s, true, cur + MeansAll(items))
    decreases |items|
  {
    if items == [] {
      assert Raw(items) + s == s && cur + MeansAll(items) == cur;
    } else {
      var i, more := items[0], items[1..];
      assert Raw(items) + s == (if i.Plain? then [i.byte] else [92, i.byte]) + (Raw(more) + s);
      assert cur + MeansAll(items) == cur + [Means(i)] + MeansAll(more);
      assert ItemOk(items[0]);
      TokenItem(i, Raw(more) + s, cur);
      TokenItems(more, s, cur + [Means(i)]);
    }
  }

  lemma TokenOpens(prefix: seq<Byte>, items: seq<Item>, s: seq<Byte>)
    requires WordOk(prefix) && ItemsOk(items)
    ensures Token(prefix + [34] + Raw(items) + s, false, []) == Token(s, true, prefix + MeansAll(items))
  {
    var t := Raw(items) + s;
    assert prefix + [34] + Raw(items) + s == prefix + ([34] + t);
    TokenWord(prefix, [34] + t, []);
    assert [] + prefix == prefix && ([34] + t)[1..] == t;
    TokenItems(items, s, prefix);
  }

  lemma TokenSpelled(t: Tok, s: seq<Byte>)
    requires TokOk(t) && Follows(t, s)
    ensures Token(RawTok(t) + s, false, []) == Some((TextOf(t), if t.Word? && !AtEnd(s) then s[1..] else s))
  {
    match t
    case Word(text) =>
      TokenWord(text, s, []);
      assert [] + text == text;
    case InQuotes(prefix, items) =>
      assert RawTok(t) + s == prefix + [34] + Raw(items) + ([34] + s);
      TokenOpens(prefix, items, [34] + s);
      assert ([34] + s)[1..] == s;
  }

  lemma TokenBreaks(prefix: seq<Byte>, items: seq<Item>, bad: seq<Byte>)
    requires WordOk(prefix) && ItemsOk(items) && BadClose(bad)
    ensures Token(prefix + [34] + Raw(items) + bad, false, []) == None
  {
    TokenOpens(prefix, items, bad);
  }

  // ----- A line -----

  lemma {:induction false} SplitSkips(gap: seq<Byte>, s: seq<Byte>)
    requires AllSpace(gap)
    ensures SkipBlanks(gap + s) == SkipBlanks(s) && Split(gap + s) == Split(s)
  {
    if gap == [] {
      assert gap + s == s;
    } else {
      assert (gap + s)[1..] == gap[1..] + s;
      SplitSkips(gap[1..], s);
    }
  }

  lemma SplitTok(t: Tok, s: seq<Byte>)
    requires TokOk(t) && Follows(t, s)
    ensures Split(RawTok(t) + s) == Onto([TextOf(t)], Split(s))
  {
    var line := RawTok(t) + s;
    assert !AtEnd(line) && !IsSpace(line[0]) by {
      assert RawTok(t)[0] == line[0];
    }
    TokenSpelled(t, s);
    SplitStep(line);
    if t.Word? && !AtEnd(s) {
      assert s == [s[0]] + s[1..];
      SplitSkips([s[0]], s[1..]);
    }
  }

  lemma SplitEnd(end: seq<Byte>)
    ensures Ends(end) ==> Split(end) == Some([])
    ensures Breaks(end) ==> Split(end) == None
  {
    if Ends(end) {
      var n :| 0 <= n <= |end| && AllSpace(end[..n]) && AtEnd(end[n..]);
      assert end == end[..n] + end[n..];
      SplitSkips(end[..n], end[n..]);
    }
    if Breaks(end) {
      var gap, prefix, items, bad :| BreaksWith(end, gap, prefix, items, bad);
      var s := prefix + [34] + Raw(items) + bad;
      SplitSkips(gap, s);
      TokenBreaks(prefix, items, bad);
      assert s[0] == if prefix == [] then 34 else prefix[0];
      SplitStep(s);
    }
  }

  lemma SplitNext(t: Spaced, rest: seq<Byte>)
    requires AllSpace(t.gap) && TokOk(t.tok) && Follows(t.tok, rest)
    ensures Split(t.gap + (RawTok(t.tok) + rest)) == Onto([TextOf(t.tok)], Split(rest))
  {
    SplitSkips(t.gap, RawTok(t.tok) + rest);
    SplitTok(t.tok, rest);
  }

  lemma {:induction false} SplitPast(ts: seq<Spaced>, end: seq<Byte>)
    requires LineOk(ts, end)
    ensures Split(SpellLine(ts, end)) == Onto(Texts(ts), Split(end))
    decreases |ts|
  {
    if ts == [] {
      OntoNone(Split(end));
      assert Texts(ts) == [];
    } else {
      SplitPast(ts[1..], end);
      SplitNext(ts[0], SpellLine(ts[1..], end));
      TextsNext(ts, Split(end));
    }
  }

  lemma TextsNext(ts: seq<Spaced>, r: Option<seq<seq<Byte>>>)
    requires ts != []
    ensures Onto([TextOf(ts[0].tok)], Onto(Texts(ts[1..]), r)) == Onto(Texts(ts), r)
  {
    assert Texts(ts) == [TextOf(ts[0].tok)] + Texts(ts[1..]);
    if r.Some? {
      Assoc([TextOf(ts[0].tok)], Texts(ts[1..]), r.value);
    }
  }

  /** Splitting a line gives the arguments that it spells, or nothing if it breaks off. */
  lemma SplitSpelled(ts: seq<Spaced>, end: seq<Byte>)
    requires LineOk(ts, end)
    ensures Ends(end) ==> Split(SpellLine(ts, end)) == Some(Texts(ts))
    ensures Breaks(end) ==> Split(SpellLine(ts, end)) == None
  {
    SplitEnd(end);
    SplitPast(ts, end);
    assert Texts(ts) + [] == Texts(ts);
  }

  // ----- Every line -----

  lemma {:induction false} ReadGap(s: seq<Byte>) returns (gap: seq<Byte>, rest: seq<Byte>)
    ensures s == gap + rest && AllSpace(gap) && (AtEnd(rest) || !IsSpace(rest[0]))
  {
    if AtEnd(s) || !IsSpace(s[0]) {
      gap, rest := [], s;
    } else {
      gap, rest := ReadGap(s[1..]);
      gap := [s[0]] + gap;
    }
  }

  lemma {:induction false} ReadWord(s: seq<Byte>) returns (w: seq<Byte>, rest: seq<Byte>)
    ensures s == w + rest && (forall k :: 0 <= k < |w| ==> w[k] !in [0, 34, 32, 10, 13, 9])
    ensures rest == [] || rest[0] in [0, 34, 32, 10, 13, 9]
  {
    if s == [] || s[0] in [0, 34, 32, 10, 13, 9] {
      w, rest := [], s;
    } else {
      w, rest := ReadWord(s[1..]);
      w := [s[0]] + w;
    }
  }

  lemma {:induction false} ReadItems(s: seq<Byte>) returns (items: seq<Item>, rest: seq<Byte>)
    ensures s == Raw(items) + rest && ItemsOk(items)
    ensures AtEnd(rest) || rest[0] == 34 || (rest[0] == 92 && AtEnd(rest[1..]))
    decreases |s|
  {
    if AtEnd(s) || s[0] == 34 || (s[0] == 92 && AtEnd(s[1..])) {
      items, rest := [], s;
    } else {
      var n, i := 1, Plain(s[0]);
      if s[0] == 92 {
        assert s[1..][0] == s[1];
        n, i := 2, Escaped(s[1]);
      }
      var more;
      more, rest := ReadItems(s[n..]);
      items := [i] + more;
      assert items[1..] == more;
      assert s == s[..n] + s[n..];
    }
  }

  lemma Closed(w: seq<Byte>, items: seq<Item>, close: seq<Byte>)
    requires WordOk(w) && ItemsOk(items)
    requires !AtEnd(close) && close[0] == 34 && !BadClose(close)
    ensures w + [34] + Raw(items) + close == RawTok(InQuotes(w, items)) + close[1..]
    ensures Follows(InQuotes(w, items), close[1..])
  {
    assert close == [34] + close[1..];
    Assoc(w + [34] + Raw(items), [34], close[1..]);
  }

  lemma ReadQuotes(w: seq<Byte>, after: seq<Byte>) returns (t: Tok, rest: seq<Byte>, ok: bool)
    requires WordOk(w) && after != [] && after[0] == 34
    ensures ok ==> TokOk(t) && w + after == RawTok(t) + rest && Follows(t, rest)
    ensures !ok ==> Breaks(w + after)
  {
    var items, close := ReadItems(after[1..]);
    assert after == [34] + (Raw(items) + close);
    assert w + after == w + [34] + Raw(items) + close;
    if BadClose(close) {
      assert [] + (w + after) == w + after;
      assert BreaksWith(w + after, [], w, items, close);
      t, rest, ok := Word([]), [], false;
    } else {
      t, rest, ok := InQuotes(w, items), close[1..], true;
      Closed(w, items, close);
    }
  }

  /** The next argument, unless there is none. */
  lemma ReadTok(s: seq<Byte>) returns (t: Tok, rest: seq<Byte>, ok: bool)
    requires !AtEnd(s) && !IsSpace(s[0])
    ensures ok ==> TokOk(t) && s == RawTok(t) + rest && Follows(t, rest)
    ensures !ok ==> Breaks(s)
  {
    var w, after := ReadWord(s);
    assert w != [] ==> w[0] == s[0];
    if after == [] || after[0] != 34 {
      t, rest, ok := Word(w), after, true;
    } else {
      t, rest, ok := ReadQuotes(w, after);
    }
  }

  /** Every line spells arguments and then ends or breaks off. */
  lemma {:induction false} ReadLine(line: seq<Byte>) returns (ts: seq<Spaced>, end: seq<Byte>)
    ensures LineOk(ts, end) && line == SpellLine(ts, end) && (Ends(end) || Breaks(end))
    decreases |line|
  {
    var gap, s := ReadGap(line);
    if AtEnd(s) {
      ts, end := [], line;
      assert line[..|gap|] == gap && line[|gap|..] == s;
    } else {
      var t, rest, ok := ReadTok(s);
      if ok {
        var more;
        assert |RawTok(t)| > 0;
        more, end := ReadLine(rest);
        ts := [Spaced(gap, t)] + more;
        assert ts[1..] == more;
      } else {
        ts, end := [], line;
        WiderBreak(gap, s);
      }
    }
  }

  lemma WiderBreak(gap: seq<Byte>, s: seq<Byte>)
    requires AllSpace(gap) && Breaks(s)
    ensures Breaks(gap + s)
  {
    var g, prefix, items, bad :| BreaksWith(s, g, prefix, items, bad);
    assert gap + s == gap + g + (prefix + [34] + Raw(items) + bad);
    assert BreaksWith(gap + s, gap + g, prefix, items, bad);
  }

  /** Splitting fails exactly when a quote is never closed or is closed in front of something else than white space, after
      any number of arguments. */
  lemma SplitFailsIff(line: seq<Byte>)
    ensures Split(line) == None <==> exists ts, end :: LineOk(ts, end) && Breaks(end) && line == SpellLine(ts, end)
    ensures Split(line) != None <==> exists ts, end :: LineOk(ts, end) && Ends(end) && line == SpellLine(ts, end)
  {
    var ts, end := ReadLine(line);
    SplitSpelled(ts, end);
    forall ts, end | LineOk(ts, end) && line == SpellLine(ts, end)
      ensures Breaks(end) ==> Split(line) == None
      ensures Ends(end) ==> Split(line) != None
    {
      SplitSpelled(ts, end);
    }
  }

  // ----- Arguments that sdscatrepr has printed -----

  /** The sixteen digits. */
  const HEX: seq<Byte> := [48, 49, 50, 51, 52, 53, 54, 55, 56, 57, 97, 98, 99, 100, 101, 102]

  function ItemsOf(b: Byte): seq<Item> {
    match b
    case 92 => [Escaped(92)]
    case 34 => [Escaped(34)]
    case 10 => [Escaped(110)]
    case 13 => [Escaped(114)]
    case 9 => [Escaped(116)]
    case 7 => [Escaped(97)]
    case 8 => [Escaped(98)]
    case _ => if 32 <= b <= 126 then [Plain(b)] else [Escaped(120), Plain(HEX[b / 16]), Plain(HEX[b % 16])]
  }

  function AllItemsOf(arg: seq<Byte>): seq<Item> {
    if arg == [] then [] else ItemsOf(arg[0]) + AllItemsOf(arg[1..])
  }

  lemma {:induction false} RawConcat(a: seq<Item>, b: seq<Item>)
    ensures Raw(a + b) == Raw(a) + Raw(b)
  {
    if a == [] {
      assert a + b == b;
    } else {
      assert (a + b)[1..] == a[1..] + b;
      RawConcat(a[1..], b);
    }
  }

  lemma HexDigitIs(n: nat)
    requires n < 16
    ensures HexDigit(n) == HEX[n] && HEX[n] != 0 && HEX[n] != 34 && HEX[n] != 92
  {
  }

  lemma RawOne(i: Item)
    ensures Raw([i]) == (if i.Plain? then [i.byte] else [92, i.byte])
  {
    assert [i][1..] == [];
    assert Raw([]) == [];
  }

  lemma RawHex(h: Byte, l: Byte)
    requires ItemOk(Plain(h)) && ItemOk(Plain(l))
    ensures var items := [Escaped(120), Plain(h), Plain(l)];
            ItemsOk(items) && Raw(items) == [92, 120, h, l] && MeansAll(items) == [120, h, l]
  {
    var x, y, z := [Escaped(120)], [Plain(h)], [Plain(l)];
    RawConcat(x, y + z);
    RawConcat(y, z);
    RawOne(x[0]);
    RawOne(y[0]);
    RawOne(z[0]);
    assert x + (y + z) == [Escaped(120), Plain(h), Plain(l)];
  }

  lemma ItemsOfByte(b: Byte)
    ensures ItemsOk(ItemsOf(b)) && Raw(ItemsOf(b)) == Escape(b) && MeansAll(ItemsOf(b)) == Survives(b)
  {
    if Letter(b).Some? || IsPrint(b) {
      assert |ItemsOf(b)| == 1 && ItemsOf(b)[1..] == [];
    } else {
      HexDigitIs(b / 16);
      HexDigitIs(b % 16);
      RawHex(HEX[b / 16], HEX[b % 16]);
    }
  }

  /** What sdscatrepr prints is an argument in quotes. It means the printable bytes and those with a letter as they are,
      and x and two digits for any other. */
  lemma QuoteSpells(arg: seq<Byte>)
    ensures TokOk(InQuotes([], AllItemsOf(arg)))
    ensures RawTok(InQuotes([], AllItemsOf(arg))) == Quote(arg) && TextOf(InQuotes([], AllItemsOf(arg))) == SurvivesAll(arg)
  {
    ItemsOfAll(arg);
    assert [] + [34] + EscapeAll(arg) + [34] == Quote(arg);
    assert [] + SurvivesAll(arg) == SurvivesAll(arg);
  }

  lemma MeansConcat(a: seq<Item>, b: seq<Item>)
    ensures MeansAll(a + b) == MeansAll(a) + MeansAll(b) && (ItemsOk(a) && ItemsOk(b) ==> ItemsOk(a + b))
  {
  }

  lemma {:induction false} ItemsOfAll(arg: seq<Byte>)
    ensures ItemsOk(AllItemsOf(arg)) && Raw(AllItemsOf(arg)) == EscapeAll(arg) && MeansAll(AllItemsOf(arg)) == SurvivesAll(arg)
  {
    if arg != [] {
      ItemsOfByte(arg[0]);
      ItemsOfAll(arg[1..]);
      RawConcat(ItemsOf(arg[0]), AllItemsOf(arg[1..]));
      MeansConcat(ItemsOf(arg[0]), AllItemsOf(arg[1..]));
    }
  }
}
