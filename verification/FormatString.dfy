/** redisvFormatCommand: from a format string and values to the arguments of a command. */
module FormatString {
  import opened Resp
  import opened ReplyCodec
  import opened Command
  import opened Conversions

  const SPACE: Byte := 32

  /** What the format means: separators, and pieces of argument text. */
  datatype Piece = Gap | Text(bytes: seq<Byte>)

  /** The end of the format, a C string. */
  predicate Ended(f: seq<Byte>) {
    f == [] || f[0] == 0
  }

  predicate IsDirective(f: seq<Byte>) {
    |f| >= 2 && f[0] == PERCENT && f[1] != 0
  }

  /** What a format may hold besides %s, %b and %%: the length of the printf conversion at its start, if any, and the text
      that the C library makes of such a conversion and an argument. */
  datatype Printf = Printf(len: seq<Byte> -> nat, text: (seq<Byte>, seq<Byte>) -> seq<Byte>)

  function LenOf(f: seq<Byte>): nat {
    if f == [] then 0 else ConversionLen(f)
  }

  /** The conversions are those that are recognised. */
  ghost predicate Scans(printf: Printf) {
    forall f {:trigger ConversionLen(f)} :: f != [] ==> printf.len(f) == ConversionLen(f)
  }

  predicate Converts(f: seq<Byte>, printf: Printf) {
    2 <= printf.len(f) <= |f|
  }

  /** %s, %b and %% have two characters. So has, in effect, what is not recognised. */
  function DirectiveLen(f: seq<Byte>, printf: Printf): (n: nat)
    requires IsDirective(f)
    ensures 2 <= n <= |f|
  {
    if f[1] == 115 || f[1] == 98 || f[1] == PERCENT || !Converts(f, printf) then 2 else printf.len(f)
  }

  /** The text of a directive: a C string, a buffer, what printf makes of the value, or nothing. */
  function DirectiveText(f: seq<Byte>, value: seq<Byte>, printf: Printf): seq<Byte>
    requires IsDirective(f)
  {
    if f[1] == 115 then CString(value)
    else if f[1] == 98 then value
    else if Converts(f, printf) then printf.text(f[..printf.len(f)], value)
    else []
  }

  /** There is a value for each directive other than %%. */
  predicate Fits(f: seq<Byte>, values: seq<seq<Byte>>, printf: Printf)
    decreases |f|
  {
    if Ended(f) then true
    else if !IsDirective(f) then Fits(f[1..], values, printf)
    else if f[1] == PERCENT then Fits(f[2..], values, printf)
    else values != [] && Fits(f[DirectiveLen(f, printf)..], values[1..], printf)
  }

  function Pieces(f: seq<Byte>, values: seq<seq<Byte>>, printf: Printf): seq<Piece>
    requires Fits(f, values, printf)
    decreases |f|
  {
    if Ended(f) then []
    else if !IsDirective(f) then [if f[0] == SPACE then Gap else Text([f[0]])] + Pieces(f[1..], values, printf)
    else if f[1] == PERCENT then [Text([PERCENT])] + Pieces(f[2..], values, printf)
    else [Text(DirectiveText(f, values[0], printf))] + Pieces(f[DirectiveLen(f, printf)..], values[1..], printf)
  }

  /** How many pieces of text stand before the first gap. */
  function TextRun(ps: seq<Piece>): (n: nat)
    ensures n <= |ps| && (forall i :: 0 <= i < n ==> ps[i].Text?) && (n < |ps| ==> ps[n].Gap?)
  {
    if ps == [] || ps[0].Gap? then 0 else 1 + TextRun(ps[1..])
  }

  function Join(ps: seq<Piece>): seq<Byte>
    requires forall i :: 0 <= i < |ps| ==> ps[i].Text?
  {
    if ps == [] then [] else ps[0].bytes + Join(ps[1..])
  }

  /** The arguments are the runs of text between gaps, each joined. */
  function Arguments(ps: seq<Piece>): seq<seq<Byte>>
    decreases |ps|
  {
    if ps == [] then []
    else if ps[0].Gap? then Arguments(ps[1..])
    else [Join(ps[..TextRun(ps)])] + Arguments(ps[TextRun(ps)..])
  }

  /** The arguments when `cur` has already been collected for the current one. */
  function Continue(cur: seq<Byte>, touched: bool, ps: seq<Piece>): seq<seq<Byte>> {
    if touched then [cur + Join(ps[..TextRun(ps)])] + Arguments(ps[TextRun(ps)..]) else Arguments(ps)
  }

  lemma ContinueText(cur: seq<Byte>, touched: bool, b: seq<Byte>, ps: seq<Piece>)
    requires !touched ==> cur == []
    ensures Continue(cur, touched, [Text(b)] + ps) == Continue(cur + b, true, ps)
  {
    var all, n := [Text(b)] + ps, TextRun(ps);
    assert all[1..] == ps;
    assert all[..n + 1] == [Text(b)] + ps[..n];
    assert all[n + 1..] == ps[n..];
    assert (all[..n + 1])[1..] == ps[..n];
    assert cur + (b + Join(ps[..n])) == (cur + b) + Join(ps[..n]);
    assert !touched ==> cur + b == b;
  }

  /** A gap ends the current argument, if there is one. */
  lemma ContinueGap(argv: seq<seq<Byte>>, cur: seq<Byte>, touched: bool, ps: seq<Piece>)
    ensures argv + Continue(cur, touched, [Gap] + ps)
         == (if touched then argv + [cur] else argv) + Continue([], false, ps)
  {
    assert ([Gap] + ps)[1..] == ps;
    assert ([Gap] + ps)[..0] == [];
    assert ([Gap] + ps)[0..] == [Gap] + ps;
    assert cur + [] == cur;
    assert (argv + [cur]) + Arguments(ps) == argv + ([cur] + Arguments(ps));
  }

  lemma ContinueEnd(argv: seq<seq<Byte>>, cur: seq<Byte>, touched: bool)
    ensures argv + Continue(cur, touched, []) == if touched then argv + [cur] else argv
  {
    assert cur + [] == cur;
    assert [cur] + [] == [cur];
  }

  // ----- The scan -----

  /** The local variables of redisvFormatCommand. */
  datatype Scanner = Scanner(argv: seq<seq<Byte>>, total: nat, curarg: seq<Byte>, touched: bool)

  /** The running total is the length of the arguments so far, and an untouched argument is empty. */
  ghost predicate Consistent(s: Scanner) {
    s.total == |Bulks(s.argv)| && (!s.touched ==> s.curarg == [])
  }

  /** All arguments, when `ps` is still to come. */
  ghost function Outcome(s: Scanner, ps: seq<Piece>): seq<seq<Byte>> {
    s.argv + Continue(s.curarg, s.touched, ps)
  }

  /** The current argument is complete. */
  method Push(s: Scanner) returns (s': Scanner)
    requires Consistent(s)
    ensures Consistent(s') && s' == Scanner(s.argv + [s.curarg], s'.total, [], false)
  {
    BulksConcat(s.argv, s.curarg);
    var len := BulkLen(|s.curarg|);
    s' := Scanner(s.argv + [s.curarg], s.total + len, [], false);
  }

  /** Text for the current argument. */
  method Append(s: Scanner, text: seq<Byte>, ghost ps: seq<Piece>) returns (s': Scanner)
    requires Consistent(s)
    ensures Consistent(s') && Outcome(s', ps) == Outcome(s, [Text(text)] + ps)
  {
    ContinueText(s.curarg, s.touched, text, ps);
    s' := s.(curarg := s.curarg + text, touched := true);
  }

  /** A space ends the current argument, if there is one. */
  method Separate(s: Scanner, ghost ps: seq<Piece>) returns (s': Scanner)
    requires Consistent(s)
    ensures Consistent(s') && Outcome(s', ps) == Outcome(s, [Gap] + ps)
  {
    ContinueGap(s.argv, s.curarg, s.touched, ps);
    s' := s;
    if s.touched {
      s' := Push(s);
    }
  }

  /** A directive at `p[0]` other than %%: its text, and how many characters of the format it takes. */
  method Interpolate(p: seq<Byte>, value: seq<Byte>, printf: Printf) returns (text: seq<Byte>, n: nat)
    requires IsDirective(p) && p[1] != PERCENT && Scans(printf)
    ensures text == DirectiveText(p, value, printf) && n == DirectiveLen(p, printf)
  {
    n := 2;
    if p[1] == 115 {
      text := CString(value);
    } else if p[1] == 98 {
      text := value;
    } else {
      text := [];
      var len := FindConversion(p);
      if len > 0 {
        text, n := printf.text(p[..len], value), len;
      }
    }
  }

  /** One round of the scanning loop: `n` characters of the format and `used` values are dealt with. */
  method Round(s: Scanner, p: seq<Byte>, values: seq<seq<Byte>>, printf: Printf) returns (s': Scanner, n: nat, used: nat)
    requires Consistent(s) && Scans(printf) && !Ended(p) && Fits(p, values, printf)
    ensures Consistent(s') && 0 < n <= |p| && used <= |values| && Fits(p[n..], values[used..], printf)
    ensures Outcome(s', Pieces(p[n..], values[used..], printf)) == Outcome(s, Pieces(p, values, printf))
  {
    n, used := 1, 0;
    assert values[0..] == values;
    if p[0] != PERCENT || |p| == 1 || p[1] == 0 {
      if p[0] == SPACE {
        s' := Separate(s, Pieces(p[1..], values, printf));
      } else {
        s' := Append(s, [p[0]], Pieces(p[1..], values, printf));
      }
    } else if p[1] == PERCENT {
      n := 2;
      s' := Append(s, [PERCENT], Pieces(p[2..], values, printf));
    } else {
      var text;
      text, n := Interpolate(p, values[0], printf);
      used := 1;
      s' := Append(s, text, Pieces(p[n..], values[1..], printf));
    }
  }

  lemma Onward<T>(s: seq<T>, c: nat, n: nat)
    requires c + n <= |s|
    ensures s[c..][n..] == s[c + n..]
  {
  }

  /** The scanning loop of redisvFormatCommand, with its running total of bulk lengths. */
  method Scan(format: seq<Byte>, values: seq<seq<Byte>>, printf: Printf) returns (argv: seq<seq<Byte>>, total: nat)
    requires Scans(printf) && Fits(format, values, printf)
    ensures argv == Arguments(Pieces(format, values, printf)) && total == |Bulks(argv)|
  {
    var c, v, s := 0, 0, Scanner([], 0, [], false);
    ghost var all := Arguments(Pieces(format, values, printf));
    assert format[0..] == format && values[0..] == values && [] + all == all;
    while !Ended(format[c..])
      invariant 0 <= c <= |format| && 0 <= v <= |values| && Fits(format[c..], values[v..], printf)
      invariant Consistent(s) && all == Outcome(s, Pieces(format[c..], values[v..], printf))
      decreases |format| - c
    {
      var n, used;
      s, n, used := Round(s, format[c..], values[v..], printf);
      Onward(format, c, n);
      Onward(values, v, used);
      c, v := c + n, v + used;
    }
    ContinueEnd(s.argv, s.curarg, s.touched);
    if s.touched {
      s := Push(s);
    }
    argv, total := s.argv, s.total;
  }

  /** redisFormatCommand with a C library whose printf makes `text` of a conversion and an argument. */
  method FormatCommand(format: seq<Byte>, values: seq<seq<Byte>>, text: (seq<Byte>, seq<Byte>) -> seq<Byte>)
    returns (cmd: array<Byte>, totlen: nat)
    requires Fits(format, values, Printf(LenOf, text))
    ensures (var argv := Arguments(Pieces(format, values, Printf(LenOf, text)));
             cmd.Length == totlen + 1 && cmd[..totlen] == Format(argv) && cmd[totlen] == 0)
  {
    var argv;
    argv, totlen := Scan(format, values, Printf(LenOf, text));
    var n := IntLen(|argv|);
    totlen := totlen + (1 + n + 2);
    cmd := Build(argv, totlen);
  }

  /** Where the arguments begin and end depends on the format only: interpolated text never splits
      an argument, and interpolating nothing still makes one. */
  lemma {:induction false} ValuesNeverSplit(ps: seq<Piece>, qs: seq<Piece>)
    requires |ps| == |qs| && forall i :: 0 <= i < |ps| ==> (ps[i].Gap? <==> qs[i].Gap?)
    ensures TextRun(ps) == TextRun(qs) && |Arguments(ps)| == |Arguments(qs)|
    decreases |ps|
  {
    if ps != [] {
      ValuesNeverSplit(ps[1..], qs[1..]);
      if ps[0].Text? {
        ValuesNeverSplit(ps[TextRun(ps)..], qs[TextRun(qs)..]);
      }
    }
  }

  lemma {:induction false} PiecesSameKind(f: seq<Byte>, values: seq<seq<Byte>>, values': seq<seq<Byte>>,
                                          printf: Printf, printf': Printf)
    requires Fits(f, values, printf) && |values| == |values'| && printf.len == printf'.len
    ensures Fits(f, values', printf')
    ensures var ps, qs := Pieces(f, values, printf), Pieces(f, values', printf');
            |ps| == |qs| && forall i :: 0 <= i < |ps| ==> (ps[i].Gap? <==> qs[i].Gap?)
    decreases |f|
  {
    if !Ended(f) {
      if !IsDirective(f) {
        PiecesSameKind(f[1..], values, values', printf, printf');
      } else if f[1] == PERCENT {
        PiecesSameKind(f[2..], values, values', printf, printf');
      } else {
        PiecesSameKind(f[DirectiveLen(f, printf)..], values[1..], values'[1..], printf, printf');
      }
    }
  }

  /** The number of arguments depends neither on the interpolated values nor on what printf makes of them. */
  lemma CountByFormat(f: seq<Byte>, values: seq<seq<Byte>>, values': seq<seq<Byte>>, printf: Printf, printf': Printf)
    requires Fits(f, values, printf) && |values| == |values'| && printf.len == printf'.len
    ensures Fits(f, values', printf')
    ensures |Arguments(Pieces(f, values, printf))| == |Arguments(Pieces(f, values', printf'))|
  {
    PiecesSameKind(f, values, values', printf, printf');
    ValuesNeverSplit(Pieces(f, values, printf), Pieces(f, values', printf'));
  }
}
