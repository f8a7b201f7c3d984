/** How async.c reads subscribe commands and pub/sub messages, and what its two tables should hold. */
module PubSub {
  import opened Resp
  import opened Reply
  import opened Command
  import opened Arguments
  import opened ReplyCodec
  import opened CallbackList

  // ----- Case-insensitive comparison -----

  function ToLower(b: Byte): Byte {
    if 65 <= b <= 90 then b + 32 else b
  }

  predicate SameFold(a: seq<Byte>, b: seq<Byte>) {
    |a| == |b| && forall i :: 0 <= i < |a| ==> ToLower(a[i]) == ToLower(b[i])
  }

  const SUBSCRIBE: seq<Byte> := [115, 117, 98, 115, 99, 114, 105, 98, 101]
  const UNSUBSCRIBE: seq<Byte> := [117, 110] + SUBSCRIBE

  /** A leading p, in either case, makes the pattern variant. */
  predicate IsPattern(s: seq<Byte>) {
    s != [] && ToLower(s[0]) == 112
  }

  function SkipP(s: seq<Byte>): seq<Byte> {
    if IsPattern(s) then s[1..] else s
  }

  /** strncasecmp against a word and the line end after it. */
  predicate Starts(s: seq<Byte>, word: seq<Byte>) {
    |s| >= |word| + 2 && SameFold(s[..|word| + 2], word + CRLF)
  }

  // ----- Messages -----

  /** What __redisGetSubscribeCallback makes of a reply. Unexpected fails one of its assertions; so
      does an unsubscribe message for a known name when `count` is missing. */
  datatype Message =
    | Unexpected
    | NotMessage
    | Push(pattern: bool, name: seq<Byte>, unsubscribe: bool, count: Option<int>)

  function ReadMessage(reply: Obj): Message {
    if !reply.ArrObj? then NotMessage
    else
      var e := reply.element;
      if |e| < 2 || !IsString(e[0]) || !IsString(e[1]) then Unexpected
      else
        var stype := e[0].obj.str;
        Push(IsPattern(stype), e[1].obj.str, SameFold(CString(SkipP(stype)), UNSUBSCRIBE),
             if |e| >= 3 && e[2].Full? && e[2].obj.IntObj? then Some(e[2].obj.integer) else None)
  }

  predicate IsString(s: Slot) {
    s.Full? && s.obj.StrObj? && s.obj.kind == StringReply
  }

  // ----- What the tables hold -----

  type Table = map<seq<Byte>, Callback>

  datatype Sub = Subscribed(pattern: bool, name: seq<Byte>, cb: Callback) | Unsubscribed(pattern: bool, name: seq<Byte>)

  /** The callback of the latest subscribe for a name, unless it has been unsubscribed since. */
  ghost function Latest(history: seq<Sub>, pattern: bool, name: seq<Byte>): Option<Callback>
    decreases |history|
  {
    if history == [] then None
    else
      var last := history[|history| - 1];
      if last.pattern != pattern || last.name != name then Latest(history[..|history| - 1], pattern, name)
      else if last.Subscribed? then Some(last.cb) else None
  }

  /** The table of channels or of patterns agrees with the history. */
  ghost predicate Tracks(table: Table, history: seq<Sub>, pattern: bool) {
    forall n {:trigger Latest(history, pattern, n)} ::
      Latest(history, pattern, n) == if n in table then Some(table[n]) else None
  }

  ghost function Subs(pattern: bool, names: seq<seq<Byte>>, cb: Callback): seq<Sub> {
    seq(|names|, i requires 0 <= i < |names| => Subscribed(pattern, names[i], cb))
  }

  lemma TracksStep(table: Table, history: seq<Sub>, pattern: bool, sub: Sub)
    requires Tracks(table, history, pattern)
    ensures Tracks(Enter(table, pattern, sub), history + [sub], pattern)
  {
    var h' := history + [sub];
    assert h'[..|h'| - 1] == history;
    assert forall n :: Latest(h', pattern, n) == LatestStep(history, pattern, n, sub);
  }

  ghost function LatestStep(history: seq<Sub>, pattern: bool, n: seq<Byte>, sub: Sub): Option<Callback> {
    if sub.pattern != pattern || sub.name != n then Latest(history, pattern, n)
    else if sub.Subscribed? then Some(sub.cb) else None
  }

  /** A subscribe or an unsubscribe, applied to the table it is for. */
  function Enter(table: Table, pattern: bool, sub: Sub): Table {
    if sub.pattern != pattern then table
    else if sub.Subscribed? then table[sub.name := sub.cb] else table - {sub.name}
  }

  /** The table after every name has been subscribed. */
  function EnterAll(table: Table, names: seq<seq<Byte>>, cb: Callback): Table
    decreases |names|
  {
    if names == [] then table else EnterAll(table[names[0] := cb], names[1..], cb)
  }

  lemma {:induction false} EnterAllAt(table: Table, names: seq<seq<Byte>>, cb: Callback, n: seq<Byte>)
    ensures n in EnterAll(table, names, cb) <==> n in table || n in names
    ensures n in EnterAll(table, names, cb) ==> EnterAll(table, names, cb)[n] == if n in names then cb else table[n]
    decreases |names|
  {
    if names != [] {
      EnterAllAt(table[names[0] := cb], names[1..], cb, n);
    }
  }

  lemma {:induction false} TracksAll(table: Table, history: seq<Sub>, pattern: bool, p: bool, names: seq<seq<Byte>>,
                                     cb: Callback)
    requires Tracks(table, history, pattern)
    ensures Tracks(if p == pattern then EnterAll(table, names, cb) else table, history + Subs(p, names, cb), pattern)
    decreases |names|
  {
    if names == [] {
      assert history + Subs(p, names, cb) == history;
    } else {
      var sub := Subscribed(p, names[0], cb);
      TracksStep(table, history, pattern, sub);
      TracksAll(Enter(table, pattern, sub), history + [sub], pattern, p, names[1..], cb);
      assert history + Subs(p, names, cb) == history + [sub] + Subs(p, names[1..], cb);
    }
  }

  /** dictReplace for every name after the first argument, as the loop in __redisAsyncCommand does. */
  method SubscribeAll(table: Table, p: seq<Byte>, cb: Callback, ghost names: seq<seq<Byte>>) returns (table': Table)
    requires p == Bulks(names)
    ensures table' == EnterAll(table, names, cb)
  {
    table' := table;
    var q := p;
    ghost var todo := names;
    Unread(todo);
    while NextArgument(q).Argument?
      invariant q == Bulks(todo) && (NextArgument(q).Argument? <==> todo != [])
      invariant EnterAll(table', todo, cb) == EnterAll(table, names, cb)
      decreases |todo|
    {
      NextOfBulk(todo[0], Bulks(todo[1..]));
      table' := table'[NextArgument(q).str := cb];
      q := NextArgument(q).next;
      todo := todo[1..];
      Unread(todo);
    }
  }

  lemma Unread(names: seq<seq<Byte>>)
    ensures NextArgument(Bulks(names)).Argument? <==> names != []
  {
    if names != [] {
      NextOfBulk(names[0], Bulks(names[1..]));
    }
  }

  // ----- Commands -----

  /** What __redisAsyncCommand takes a command for. */
  datatype Class = Subscribe(pattern: bool, names: seq<seq<Byte>>) | Unsubscribe | Regular

  /** The text that the first argument and what follows it make in the formatted command. */
  function CommandText(argv: seq<seq<Byte>>): seq<Byte>
    requires argv != []
  {
    argv[0] + CRLF + Bulks(argv[1..])
  }

  function Classify(argv: seq<seq<Byte>>): Class
    requires argv != []
  {
    var word := SkipP(CommandText(argv));
    if |argv| > 1 && Starts(word, SUBSCRIBE) then Subscribe(IsPattern(CommandText(argv)), argv[1..])
    else if Starts(word, UNSUBSCRIBE) then Unsubscribe
    else Regular
  }

  /** For a command name without a line end the classes are what the names say. */
  lemma ClassifyByName(argv: seq<seq<Byte>>)
    requires argv != [] && argv[0] != [] && CR !in argv[0]
    ensures Classify(argv).Subscribe? <==> |argv| > 1 && SameFold(SkipP(argv[0]), SUBSCRIBE)
    ensures Classify(argv).Unsubscribe? <==> SameFold(SkipP(argv[0]), UNSUBSCRIBE)
    ensures Classify(argv).Subscribe? ==> Classify(argv) == Subscribe(IsPattern(argv[0]), argv[1..])
  {
    var name, rest := SkipP(argv[0]), Bulks(argv[1..]);
    SkipPText(argv[0], rest);
    WordsAre();
    StartsByName(name, rest, SUBSCRIBE);
    StartsByName(name, rest, UNSUBSCRIBE);
  }

  lemma SkipPText(name: seq<Byte>, rest: seq<Byte>)
    requires name != [] && CR !in name
    ensures SkipP(name + CRLF + rest) == SkipP(name) + CRLF + rest && CR !in SkipP(name)
    ensures IsPattern(name + CRLF + rest) <==> IsPattern(name)
  {
  }

  lemma WordsAre()
    ensures forall i :: 0 <= i < |SUBSCRIBE| ==> ToLower(SUBSCRIBE[i]) != CR
    ensures forall i :: 0 <= i < |UNSUBSCRIBE| ==> ToLower(UNSUBSCRIBE[i]) != CR
  {
  }

  lemma StartsByName(name: seq<Byte>, rest: seq<Byte>, word: seq<Byte>)
    requires CR !in name && forall i :: 0 <= i < |word| ==> ToLower(word[i]) != CR
    ensures Starts(name + CRLF + rest, word) <==> SameFold(name, word)
  {
    var s, t := name + CRLF + rest, word + CRLF;
    assert s[|name|] == CR && t[|word|] == CR;
    if Starts(s, word) {
      var u := s[..|word| + 2];
      assert forall i :: 0 <= i < |u| ==> u[i] == s[i] && ToLower(s[i]) == ToLower(t[i]);
    }
    if |name| == |word| {
      assert s[..|word| + 2] == name + CRLF;
      assert forall i :: 0 <= i < |word| ==> name[i] == s[i] && word[i] == t[i];
    }
  }
}