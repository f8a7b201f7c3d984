/** sdscatrepr and sdssplitargs: printing an argument in quotes and splitting a line into arguments. */
module Quoting {
  import opened Resp
  import opened Arguments
  import Sds

  const QUOTE: Byte := 34
  const BACKSLASH: Byte := 92

  // ----- Printing -----

  /** The letter that stands for a byte after a backslash, if there is one. */
  function Letter(b: Byte): Option<Byte> {
    if b == BACKSLASH || b == QUOTE then Some(b)
    else if b == 10 then Some(110)
    else if b == 13 then Some(114)
    else if b == 9 then Some(116)
    else if b == 7 then Some(97)
    else if b == 8 then Some(98)
    else None
  }

  predicate IsPrint(b: Byte) {
    32 <= b <= 126
  }

  function HexDigit(n: int): Byte
    requires 0 <= n < 16
  {
    if n < 10 then 48 + n else 87 + n
  }

  function Escape(b: Byte): seq<Byte> {
    if Letter(b).Some? then [BACKSLASH, Letter(b).value]
    else if IsPrint(b) then [b]
    else [BACKSLASH, 120, HexDigit(b / 16), HexDigit(b % 16)]
  }

  function EscapeAll(arg: seq<Byte>): seq<Byte> {
    if arg == [] then [] else Escape(arg[0]) + EscapeAll(arg[1..])
  }

  function Quote(arg: seq<Byte>): seq<Byte> {
    [QUOTE] + EscapeAll(arg) + [QUOTE]
  }

  lemma {:induction false} EscapeAllAppend(a: seq<Byte>, b: Byte)
    ensures EscapeAll(a + [b]) == EscapeAll(a) + Escape(b)
  {
    if a == [] {
      assert a + [b] == [b] && [b][1..] == [];
      assert Escape(b) + [] == [] + Escape(b);
    } else {
      assert (a + [b])[1..] == a[1..] + [b];
      EscapeAllAppend(a[1..], b);
      assert Escape(a[0]) + (EscapeAll(a[1..]) + Escape(b)) == (Escape(a[0]) + EscapeAll(a[1..])) + Escape(b);
    }
  }

  /** One byte of sdscatrepr. */
  method CatEscape(s: Sds.Str, c: Byte)
    requires s.Valid()
    modifies s, s.buf
    ensures s.Valid() && s.Contents() == old(s.Contents()) + Escape(c)
    ensures s.buf == old(s.buf) || fresh(s.buf)
  {
    match c {
      case 92 => s.CatLen([BACKSLASH, c]);
      case 34 => s.CatLen([BACKSLASH, c]);
      case 10 => s.CatLen([BACKSLASH, 110]);
      case 13 => s.CatLen([BACKSLASH, 114]);
      case 9 => s.CatLen([BACKSLASH, 116]);
      case 7 => s.CatLen([BACKSLASH, 97]);
      case 8 => s.CatLen([BACKSLASH, 98]);
      case _ =>
        if IsPrint(c) {
          s.CatLen([c]);
        } else {
          s.CatLen([BACKSLASH, 120, HexDigit(c / 16), HexDigit(c % 16)]);
        }
    }
  }

  /** sdscatrepr. */
  method CatRepr(s: Sds.Str, p: seq<Byte>)
    requires s.Valid()
    modifies s, s.buf
    ensures s.Valid() && s.Contents() == old(s.Contents()) + Quote(p)
    ensures s.buf == old(s.buf) || fresh(s.buf)
  {
    s.CatLen([QUOTE]);
    var i := 0;
    ghost var was := old(s.Contents()) + [QUOTE];
    assert was + EscapeAll(p[..0]) == was;
    while i < |p|
      invariant 0 <= i <= |p| && s.Valid() && s.Contents() == was + EscapeAll(p[..i])
      invariant s.buf == old(s.buf) || fresh(s.buf)
    {
      EscapeAllAppend(p[..i], p[i]);
      assert p[..i + 1] == p[..i] + [p[i]];
      Assoc(was, EscapeAll(p[..i]), Escape(p[i]));
      CatEscape(s, p[i]);
      i := i + 1;
    }
    assert p[..|p|] == p;
    Quoted(old(s.Contents()), EscapeAll(p));
    s.CatLen([QUOTE]);
  }

  lemma Quoted(a: seq<Byte>, b: seq<Byte>)
    ensures a + [QUOTE] + b + [QUOTE] == a + ([QUOTE] + b + [QUOTE])
  {
  }

  // ----- Splitting -----

  /** The byte that a letter after a backslash stands for. */
  function Unescape(b: Byte): Byte {
    if b == 110 then 10
    else if b == 114 then 13
    else if b == 116 then 9
    else if b == 98 then 8
    else if b == 97 then 7
    else b
  }

  /** The end of a terminated string. */
  predicate AtEnd(s: seq<Byte>) {
    s == [] || s[0] == 0
  }

  predicate IsBlank(b: Byte) {
    b == 32 || b == 10 || b == 13 || b == 9
  }

  function SkipBlanks(s: seq<Byte>): (r: seq<Byte>)
    ensures |r| <= |s| && (AtEnd(r) || !IsSpace(r[0]))
  {
    if !AtEnd(s) && IsSpace(s[0]) then SkipBlanks(s[1..]) else s
  }

  /** One argument from the start of `s`, with `cur` collected and in or out of quotes, and what follows it. */
  function Token(s: seq<Byte>, inq: bool, cur: seq<Byte>): (r: Option<(seq<Byte>, seq<Byte>)>)
    ensures r.Some? ==> |r.value.1| <= |s| && (!AtEnd(s) ==> |r.value.1| < |s|)
    decreases |s|
  {
    if AtEnd(s) then (if inq then None else Some((cur, s)))
    else if !inq then
      if IsBlank(s[0]) then Some((cur, s[1..]))
      else if s[0] == QUOTE then Token(s[1..], true, cur)
      else Token(s[1..], false, cur + [s[0]])
    else if s[0] == BACKSLASH && !AtEnd(s[1..]) then Token(s[2..], true, cur + [Unescape(s[1])])
    else if s[0] == QUOTE then (if !AtEnd(s[1..]) && !IsSpace(s[1]) then None else Some((cur, s[1..])))
    else Token(s[1..], true, cur + [s[0]])
  }

  /** The arguments of a line; None where sdssplitargs gives up. */
  function Split(line: seq<Byte>): Option<seq<seq<Byte>>>
    decreases |line|
  {
    var s := SkipBlanks(line);
    if AtEnd(s) then Some([])
    else match Token(s, false, [])
      case None => None
      case Some((arg, rest)) =>
        match Split(rest)
        case None => None
        case Some(args) => Some([arg] + args)
  }

  /** The inner loop of sdssplitargs. */
  method GetToken(line: seq<Byte>, start: nat) returns (ok: bool, current: seq<Byte>, p: nat)
    requires start <= |line|
    ensures start <= p <= |line|
    ensures ok <==> Token(line[start..], false, []).Some?
    ensures ok ==> Token(line[start..], false, []) == Some((current, line[p..]))
  {
    var inq, done := false, false;
    ok, current, p := true, [], start;
    ghost var all := Token(line[start..], false, []);
    while !done
      invariant start <= p <= |line|
      invariant if done then all == Some((current, line[p..])) else all == Token(line[p..], inq, current)
      decreases |line| - p, !done
    {
      assert p < |line| ==> line[p..][0] == line[p] && line[p..][1..] == line[p + 1..];
      assert p + 1 < |line| ==> line[p..][1] == line[p + 1] && line[p..][2..] == line[p + 2..];
      if inq {
        if AtEnd(line[p..]) {
          return false, current, p;
        } else if line[p] == BACKSLASH && !AtEnd(line[p + 1..]) {
          p := p + 1;
          current := current + [Unescape(line[p])];
        } else if line[p] == QUOTE {
          if !AtEnd(line[p + 1..]) && !IsSpace(line[p + 1]) {
            return false, current, p;
          }
          done := true;
        } else {
          current := current + [line[p]];
        }
      } else {
        if AtEnd(line[p..]) || IsBlank(line[p]) {
          done := true;
        } else if line[p] == QUOTE {
          inq := true;
        } else {
          current := current + [line[p]];
        }
      }
      if !AtEnd(line[p..]) {
        p := p + 1;
      }
    }
  }

  /** Arguments in front of those still to be found. */
  ghost function Onto(vector: seq<seq<Byte>>, r: Option<seq<seq<Byte>>>): Option<seq<seq<Byte>>> {
    if r.None? then None else Some(vector + r.value)
  }

  lemma OntoNone(r: Option<seq<seq<Byte>>>)
    ensures Onto([], r) == r
  {
    assert r.Some? ==> [] + r.value == r.value;
  }

  lemma OntoTwice(vector: seq<seq<Byte>>, arg: seq<Byte>, r: Option<seq<seq<Byte>>>)
    ensures Onto(vector, Onto([arg], r)) == Onto(vector + [arg], r)
  {
    assert r.Some? ==> vector + ([arg] + r.value) == vector + [arg] + r.value;
  }

  lemma SplitStep(s: seq<Byte>)
    ensures AtEnd(SkipBlanks(s)) ==> forall v :: Onto(v, Split(s)) == Some(v)
    ensures !AtEnd(SkipBlanks(s)) ==>
              Split(s) == match Token(SkipBlanks(s), false, []) case None => None case Some((arg, rest)) => Onto([arg], Split(rest))
  {
    assert forall v: seq<seq<Byte>> :: v + [] == v;
  }

  /** sdssplitargs. */
  method SplitArgs(line: seq<Byte>) returns (r: Option<seq<seq<Byte>>>)
    ensures r == Split(line)
  {
    var p := 0;
    var vector: seq<seq<Byte>> := [];
    assert line[0..] == line;
    OntoNone(Split(line));
    while true
      invariant 0 <= p <= |line| && Split(line) == Onto(vector, Split(line[p..]))
      decreases |line| - p
    {
      SplitStep(line[p..]);
      p := Blanks(line, p);
      if AtEnd(line[p..]) {
        return Some(vector);
      }
      var ok, current, q := GetToken(line, p);
      if !ok {
        return None;
      }
      OntoTwice(vector, current, Split(line[q..]));
      vector := vector + [current];
      p := q;
    }
  }

  /** Skipping blanks. */
  method Blanks(line: seq<Byte>, start: nat) returns (p: nat)
    requires start <= |line|
    ensures start <= p <= |line| && line[p..] == SkipBlanks(line[start..])
  {
    p := start;
    while p < |line| && line[p] != 0 && IsSpace(line[p])
      invariant start <= p <= |line| && SkipBlanks(line[p..]) == SkipBlanks(line[start..])
    {
      assert line[p..][1..] == line[p + 1..];
      p := p + 1;
    }
  }

  // ----- Round trip -----

  /** The bytes that survive: printable ones and those with a letter of their own. */
  predicate Representable(b: Byte) {
    IsPrint(b) || Letter(b).Some?
  }

  /** What comes back for a byte: a hexadecimal escape is not decoded, only its backslash is dropped. */
  function Survives(b: Byte): seq<Byte> {
    if Representable(b) then [b] else [120, HexDigit(b / 16), HexDigit(b % 16)]
  }

  function SurvivesAll(arg: seq<Byte>): seq<Byte> {
    if arg == [] then [] else Survives(arg[0]) + SurvivesAll(arg[1..])
  }

  /** The quoted arguments, separated by spaces. */
  function Line(args: seq<seq<Byte>>): seq<Byte> {
    if args == [] then []
    else if |args| == 1 then Quote(args[0])
    else Quote(args[0]) + [32] + Line(args[1..])
  }

  function Survivors(args: seq<seq<Byte>>): seq<seq<Byte>> {
    if args == [] then [] else [SurvivesAll(args[0])] + Survivors(args[1..])
  }

  lemma TokenEscape(b: Byte, t: seq<Byte>, cur: seq<Byte>)
    requires !AtEnd(t)
    ensures Token(Escape(b) + t, true, cur) == Token(t, true, cur + Survives(b))
  {
    var s := Escape(b) + t;
    if Letter(b).Some? {
      assert s[2..] == t && Unescape(s[1]) == b;
    } else if IsPrint(b) {
      assert s[1..] == t;
    } else {
      var h, l := HexDigit(b / 16), HexDigit(b % 16);
      assert s[2..] == [h, l] + t && ([h, l] + t)[1..] == [l] + t && ([l] + t)[1..] == t;
      assert Token(s, true, cur) == Token([h, l] + t, true, cur + [120]);
      assert Token([h, l] + t, true, cur + [120]) == Token([l] + t, true, cur + [120] + [h]);
      assert cur + [120] + [h] + [l] == cur + [120, h, l];
    }
  }

  lemma {:induction false} TokenQuoted(arg: seq<Byte>, rest: seq<Byte>, cur: seq<Byte>)
    requires rest == [] || rest[0] == 32
    ensures Token(EscapeAll(arg) + [QUOTE] + rest, true, cur) == Some((cur + SurvivesAll(arg), rest))
    decreases |arg|
  {
    var t := [QUOTE] + rest;
    if arg == [] {
      assert EscapeAll(arg) + [QUOTE] + rest == t && t[1..] == rest;
      assert cur + [] == cur;
    } else {
      var u := EscapeAll(arg[1..]) + [QUOTE] + rest;
      assert EscapeAll(arg) + [QUOTE] + rest == Escape(arg[0]) + u;
      FirstByte(arg[1..], rest);
      TokenEscape(arg[0], u, cur);
      TokenQuoted(arg[1..], rest, cur + Survives(arg[0]));
      Assoc(cur, Survives(arg[0]), SurvivesAll(arg[1..]));
    }
  }

  lemma FirstByte(arg: seq<Byte>, rest: seq<Byte>)
    ensures !AtEnd(EscapeAll(arg) + [QUOTE] + rest)
  {
    if arg != [] {
      assert EscapeAll(arg)[0] == Escape(arg[0])[0];
    }
  }

  /** Quoting, joining and splitting, exactly. */
  lemma {:induction false} SplitLine(args: seq<seq<Byte>>)
    ensures Split(Line(args)) == Some(Survivors(args))
    decreases |args|
  {
    if args != [] {
      var rest := if |args| == 1 then [] else [32] + Line(args[1..]);
      assert Line(args) == Quote(args[0]) + rest;
      FirstToken(args[0], rest);
      SplitStep(Line(args));
      SplitLine(args[1..]);
      if |args| > 1 {
        LeadingSpace(Line(args[1..]));
      }
    }
  }

  lemma FirstToken(arg: seq<Byte>, rest: seq<Byte>)
    requires rest == [] || rest[0] == 32
    ensures !AtEnd(Quote(arg) + rest) && SkipBlanks(Quote(arg) + rest) == Quote(arg) + rest
    ensures Token(Quote(arg) + rest, false, []) == Some((SurvivesAll(arg), rest))
  {
    QuoteTail(EscapeAll(arg), rest);
    TokenQuoted(arg, rest, []);
    assert [] + SurvivesAll(arg) == SurvivesAll(arg);
  }

  lemma QuoteTail(e: seq<Byte>, rest: seq<Byte>)
    ensures ([QUOTE] + e + [QUOTE] + rest)[1..] == e + [QUOTE] + rest
  {
  }

  lemma LeadingSpace(s: seq<Byte>)
    ensures Split([32] + s) == Split(s)
  {
    assert ([32] + s)[1..] == s;
  }

  lemma {:induction false} SurvivesLength(arg: seq<Byte>)
    ensures |SurvivesAll(arg)| >= |arg|
    ensures |SurvivesAll(arg)| == |arg| <==> forall i :: 0 <= i < |arg| ==> Representable(arg[i])
    ensures |SurvivesAll(arg)| == |arg| ==> SurvivesAll(arg) == arg
  {
    if arg != [] {
      SurvivesLength(arg[1..]);
      assert arg == [arg[0]] + arg[1..];
    }
  }

  lemma {:induction false} SurvivorsSame(args: seq<seq<Byte>>)
    ensures |Survivors(args)| == |args|
    ensures forall i :: 0 <= i < |args| ==> Survivors(args)[i] == SurvivesAll(args[i])
  {
    if args != [] {
      SurvivorsSame(args[1..]);
    }
  }

  /** The round trip gives back the same arguments exactly when every byte is printable or has a letter. */
  lemma RoundTrip(args: seq<seq<Byte>>)
    ensures Split(Line(args)) == Some(args) <==>
            forall i, j :: 0 <= i < |args| && 0 <= j < |args[i]| ==> Representable(args[i][j])
  {
    SplitLine(args);
    SurvivorsSame(args);
    forall i | 0 <= i < |args|
      ensures Survivors(args)[i] == args[i] <==> forall j :: 0 <= j < |args[i]| ==> Representable(args[i][j])
    {
      SurvivesLength(args[i]);
    }
    if forall i, j :: 0 <= i < |args| && 0 <= j < |args[i]| ==> Representable(args[i][j]) {
      assert Survivors(args) == args;
    }
  }

  /** A byte above 127 comes back as three characters. */
  lemma HexNotDecoded(args: seq<seq<Byte>>)
    requires args == [[255]]
    ensures Split(Line(args)) == Some([[120, 102, 102]])
  {
    SplitLine(args);
    SurvivorsSame(args);
    assert HexDigit(255 / 16) == 102 && HexDigit(255 % 16) == 102;
    assert args[0][1..] == [];
    assert SurvivesAll(args[0]) == [120, 102, 102];
    assert Survivors(args) == [[120, 102, 102]];
  }
}
