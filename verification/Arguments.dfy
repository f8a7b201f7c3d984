/** nextArgument of async.c: the decoder that the asynchronous API uses on commands it has formatted. */
module Arguments {
  import opened Resp
  import opened ReplyCodec
  import opened Command

  /** strchr on a terminated string: the suffix that starts with `b`, unless a zero byte or the end comes first. */
  function StrChr(s: seq<Byte>, b: Byte): (r: Option<seq<Byte>>)
    ensures r.Some? ==> 0 < |r.value| <= |s| && r.value[0] == b
  {
    if s == [] then None
    else if s[0] == b then Some(s)
    else if s[0] == 0 then None
    else StrChr(s[1..], b)
  }

  /** The leading decimal digits, added to `v`. */
  function LeadingDigits(s: seq<Byte>, v: int): int {
    if s == [] || !IsDigit(s[0]) then v else LeadingDigits(s[1..], v * 10 + (s[0] - 48))
  }

  predicate IsSpace(b: Byte) {
    b == 32 || 9 <= b <= 13
  }

  /** strtol in base ten. */
  function StrToL(s: seq<Byte>): int {
    if s != [] && IsSpace(s[0]) then StrToL(s[1..])
    else if s != [] && s[0] == 45 then -LeadingDigits(s[1..], 0)
    else if s != [] && s[0] == 43 then LeadingDigits(s[1..], 0)
    else LeadingDigits(s, 0)
  }

  /** The argument and the place where the next one starts; Malformed where the C code would
      fail its assertion or leave the buffer. */
  datatype Found = NoArgument | Malformed | Argument(str: seq<Byte>, next: seq<Byte>)

  /** nextArgument on the bytes from `start` on. */
  function NextArgument(start: seq<Byte>): Found {
    match (if start != [] && start[0] == 36 then Some(start) else StrChr(start, 36))
    case None => NoArgument
    case Some(p) =>
      var len := StrToL(p[1..]);
      match StrChr(p, CR)
      case None => Malformed
      case Some(q) =>
        if len < 0 || 2 + len + 2 > |q| then Malformed
        else Argument(q[2..2 + len], q[2 + len + 2..])
  }

  lemma {:induction false} StrChrSkips(a: seq<Byte>, b: Byte, s: seq<Byte>)
    requires forall i :: 0 <= i < |a| ==> a[i] != b && a[i] != 0
    ensures StrChr(a + s, b) == StrChr(s, b)
    decreases |a|
  {
    if a == [] {
      assert a + s == s;
    } else {
      assert (a + s)[1..] == a[1..] + s;
      StrChrSkips(a[1..], b, s);
    }
  }

  lemma {:induction false} LeadingDigitsOf(n: nat, tail: seq<Byte>)
    ensures LeadingDigits(Digits(n) + tail, 0) == LeadingDigits(tail, n)
  {
    if n >= 10 {
      LeadingDigitsOf(n / 10, [48 + n % 10] + tail);
      assert Digits(n) + tail == Digits(n / 10) + ([48 + n % 10] + tail);
      assert ([48 + n % 10] + tail)[1..] == tail;
    } else {
      assert (Digits(n) + tail)[1..] == tail;
    }
  }

  /** At the start of an encoded argument. */
  lemma NextOfBulk(a: seq<Byte>, rest: seq<Byte>)
    ensures NextArgument(Encode(Bulk(a)) + rest) == Argument(a, rest)
  {
    var s, d, body := Encode(Bulk(a)) + rest, Decimal(|a|), a + CRLF + rest;
    assert s == ([36] + d) + (CRLF + body);
    StrChrSkips([36] + d, CR, CRLF + body);
    assert s[1..] == Digits(|a|) + (CRLF + body);
    LeadingDigitsOf(|a|, CRLF + body);
    var q := CRLF + body;
    assert q[2..] == body;
    assert q[2..2 + |a|] == body[..|a|] == a;
    assert q[2 + |a| + 2..] == body[|a| + 2..] == rest;
  }

  /** Calling nextArgument until it finds none, as the subscribe loop does. */
  function AllArguments(s: seq<Byte>): Option<seq<seq<Byte>>>
    decreases |s|
  {
    match NextArgument(s)
    case NoArgument => Some([])
    case Malformed => None
    case Argument(str, next) =>
      if |next| >= |s| then None
      else match AllArguments(next)
        case None => None
        case Some(args) => Some([str] + args)
  }

  lemma {:induction false} ArgumentsOfBulks(args: seq<seq<Byte>>)
    ensures AllArguments(Bulks(args)) == Some(args)
    decreases |args|
  {
    if args != [] {
      NextOfBulk(args[0], Bulks(args[1..]));
      ArgumentsOfBulks(args[1..]);
      assert args == [args[0]] + args[1..];
    }
  }

  /** nextArgument skips the header of a command. */
  lemma NextOfFormat(args: seq<seq<Byte>>)
    ensures NextArgument(Format(args)) == NextArgument(Bulks(args))
  {
    StrChrSkips(Header(|args|), 36, Bulks(args));
  }

  /** Repeated nextArgument recovers exactly the arguments of any formatted command. */
  lemma ArgumentsOfFormat(args: seq<seq<Byte>>)
    ensures AllArguments(Format(args)) == Some(args)
  {
    NextOfFormat(args);
    ArgumentsOfBulks(args);
    if args != [] {
      NextOfBulk(args[0], Bulks(args[1..]));
      ArgumentsOfBulks(args[1..]);
    }
  }
}
