/** Formatting commands for the wire, and the two decoders of what was formatted:
    the reply reader and nextArgument. */
module Command {
  import opened Resp
  import opened Reply
  import opened ReplyCodec

  /** A command is an array of bulk strings. */
  function AsValue(args: seq<seq<Byte>>): Value {
    Array(seq(|args|, i requires 0 <= i < |args| => Bulk(args[i])))
  }

  function Bulks(args: seq<seq<Byte>>): seq<Byte> {
    if args == [] then [] else Encode(Bulk(args[0])) + Bulks(args[1..])
  }

  function Header(argc: nat): seq<Byte> {
    [42] + Decimal(argc) + CRLF
  }

  /** The bytes of a command. */
  function Format(args: seq<seq<Byte>>): seq<Byte> {
    Header(|args|) + Bulks(args)
  }

  lemma {:induction false} BulksEncode(args: seq<seq<Byte>>)
    ensures EncodeAll(AsValue(args).elems) == Bulks(args)
    decreases |args|
  {
    if args != [] {
      BulksEncode(args[1..]);
      assert AsValue(args).elems[1..] == AsValue(args[1..]).elems;
    }
  }

  lemma FormatEncodes(args: seq<seq<Byte>>)
    ensures Format(args) == Encode(AsValue(args))
  {
    BulksEncode(args);
  }

  /** The reply reader gets exactly the arguments back, with nothing left over. */
  lemma ReaderReads(args: seq<seq<Byte>>)
    ensures Drain(Feed(INITIAL, Format(args))) == (INITIAL, [ToObj(AsValue(args))])
    ensures ToObj(AsValue(args)).elements == |args|
    ensures forall i :: 0 <= i < |args| ==> ToObj(AsValue(args)).element[i] == Full(StrObj(StringReply, args[i]))
  {
    var v := AsValue(args);
    FormatEncodes(args);
    RoundTrip([v]);
    assert EncodeAll([v]) == Encode(v) && ToObjs([v]) == [ToObj(v)];
    assert Ok(v, 2);
  }

  // ------------------------------------------------------------- lengths

  lemma {:induction false} BulksConcat(args: seq<seq<Byte>>, a: seq<Byte>)
    ensures Bulks(args + [a]) == Bulks(args) + Encode(Bulk(a))
    decreases |args|
  {
    if args == [] {
      assert args + [a] == [a] && [a][1..] == [];
      assert Encode(Bulk(a)) + [] == [] + Encode(Bulk(a));
    } else {
      BulksConcat(args[1..], a);
      assert (args + [a])[1..] == args[1..] + [a];
      Assoc(Encode(Bulk(args[0])), Bulks(args[1..]), Encode(Bulk(a)));
    }
  }

  /** intlen. */
  method IntLen(n: int) returns (len: nat)
    ensures len == |Decimal(n)|
  {
    len := 0;
    var i := n;
    if i < 0 {
      len := len + 1;
      i := -i;
    }
    len := len + 1;
    i := i / 10;
    while i != 0
      invariant i >= 0
      invariant |Decimal(n)| == len + if i == 0 then 0 else |Digits(i)|
    {
      len := len + 1;
      i := i / 10;
    }
  }

  /** bulklen. */
  method BulkLen(len: nat) returns (r: nat)
    ensures forall b: seq<Byte> :: |b| == len ==> |Encode(Bulk(b))| == r
  {
    var n := IntLen(len);
    r := 1 + n + 2 + len + 2;
  }

  // ------------------------------------------------------------- filling the buffer

  /** memcpy and sprintf into the command buffer. */
  method Write(cmd: array<Byte>, pos: nat, bytes: seq<Byte>) returns (next: nat)
    requires pos + |bytes| <= cmd.Length
    modifies cmd
    ensures next == pos + |bytes| && cmd[..next] == old(cmd[..pos]) + bytes
  {
    forall i | 0 <= i < |bytes| {
      cmd[pos + i] := bytes[i];
    }
    next := pos + |bytes|;
  }

  /** One argument: its length, its bytes and a line end. */
  method WriteArg(cmd: array<Byte>, pos: nat, arg: seq<Byte>) returns (next: nat)
    requires pos + |Encode(Bulk(arg))| <= cmd.Length
    modifies cmd
    ensures next == pos + |Encode(Bulk(arg))| && cmd[..next] == old(cmd[..pos]) + Encode(Bulk(arg))
  {
    ghost var head := [36] + Decimal(|arg|) + CRLF;
    next := Write(cmd, pos, [36] + Decimal(|arg|) + CRLF);
    next := Write(cmd, next, arg);
    next := Write(cmd, next, CRLF);
    assert cmd[..next] == ((old(cmd[..pos]) + head) + arg) + CRLF;
  }

  /** The length computation of redisFormatCommandArgv. */
  method TotalLength(argv: seq<seq<Byte>>) returns (totlen: nat)
    ensures totlen == |Format(argv)|
  {
    var n := IntLen(|argv|);
    totlen := 1 + n + 2;
    for j := 0 to |argv|
      invariant totlen == |Header(|argv|)| + |Bulks(argv[..j])|
    {
      var len := BulkLen(|argv[j]|);
      BulksConcat(argv[..j], argv[j]);
      assert argv[..j + 1] == argv[..j] + [argv[j]];
      totlen := totlen + len;
    }
    assert argv[..|argv|] == argv;
  }

  /** The second half of both formatters: the command is built into a buffer of the length
      computed before, and fills it exactly. */
  method Build(argv: seq<seq<Byte>>, totlen: nat) returns (cmd: array<Byte>)
    requires totlen == |Format(argv)|
    ensures fresh(cmd) && cmd.Length == totlen + 1 && cmd[..totlen] == Format(argv) && cmd[totlen] == 0
  {
    cmd := new Byte[totlen + 1];
    var pos: nat := Write(cmd, 0, Header(|argv|));
    ghost var done := Header(|argv|);
    Built(argv, 0);
    for j := 0 to |argv|
      invariant 0 <= pos <= totlen && cmd[..pos] == done == Header(|argv|) + Bulks(argv[..j])
    {
      Built(argv, j);
      pos := WriteArg(cmd, pos, argv[j]);
      done := done + Encode(Bulk(argv[j]));
    }
    assert argv[..|argv|] == argv;
    assert pos == totlen;
    cmd[pos] := 0;
  }

  /** What has been written after `j` arguments, and that there is room for the next. */
  lemma Built(argv: seq<seq<Byte>>, j: nat)
    requires j <= |argv|
    ensures j == 0 ==> Header(|argv|) + Bulks(argv[..0]) == Header(|argv|)
    ensures j < |argv| ==>
              && Header(|argv|) + Bulks(argv[..j]) + Encode(Bulk(argv[j])) == Header(|argv|) + Bulks(argv[..j + 1])
              && |Header(|argv|) + Bulks(argv[..j + 1])| <= |Format(argv)|
  {
    if j < |argv| {
      BulksConcat(argv[..j], argv[j]);
      assert argv[..j + 1] == argv[..j] + [argv[j]];
      Assoc(Header(|argv|), Bulks(argv[..j]), Encode(Bulk(argv[j])));
      BulksPrefix(argv, j + 1);
    }
  }

  lemma {:induction false} BulksPrefix(args: seq<seq<Byte>>, k: nat)
    requires k <= |args|
    ensures |Bulks(args[..k])| <= |Bulks(args)|
    decreases |args| - k
  {
    if k == |args| {
      assert args[..k] == args;
    } else {
      BulksConcat(args[..k], args[k]);
      assert args[..k + 1] == args[..k] + [args[k]];
      BulksPrefix(args, k + 1);
    }
  }

  /** redisFormatCommandArgv. */
  method FormatCommandArgv(argv: seq<seq<Byte>>) returns (cmd: array<Byte>, totlen: nat)
    ensures cmd.Length == totlen + 1 && cmd[..totlen] == Format(argv) && cmd[totlen] == 0
  {
    totlen := TotalLength(argv);
    cmd := Build(argv, totlen);
  }
}
