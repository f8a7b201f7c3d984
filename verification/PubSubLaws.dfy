/** The commands that subscribe and the messages that a server sends, by their letters. */
module PubSubLaws {
  import opened Resp
  import opened Reply
  import opened Command
  import opened CallbackList
  import opened PubSub

  // ----- Words in any case -----

  const SUBSCRIBE_WORD: seq<Byte> := [115, 117, 98, 115, 99, 114, 105, 98, 101]
  const PSUBSCRIBE_WORD: seq<Byte> := [112, 115, 117, 98, 115, 99, 114, 105, 98, 101]
  const UNSUBSCRIBE_WORD: seq<Byte> := [117, 110, 115, 117, 98, 115, 99, 114, 105, 98, 101]
  const PUNSUBSCRIBE_WORD: seq<Byte> := [112, 117, 110, 115, 117, 98, 115, 99, 114, 105, 98, 101]
  const MESSAGE_WORD: seq<Byte> := [109, 101, 115, 115, 97, 103, 101]
  const PMESSAGE_WORD: seq<Byte> := [112, 109, 101, 115, 115, 97, 103, 101]

  predicate IsWord(word: seq<Byte>) {
    forall i :: 0 <= i < |word| ==> 97 <= word[i] <= 122
  }

  /** A small letter or its capital. */
  predicate IsLetter(b: int, small: int) {
    b == small || b == small - 32
  }

  /** The word, each of its letters small or capital. */
  predicate Says(s: seq<Byte>, word: seq<Byte>) {
    |s| == |word| && forall i :: 0 <= i < |s| ==> IsLetter(s[i], word[i])
  }

  lemma FoldIs(s: seq<Byte>, word: seq<Byte>)
    requires IsWord(word)
    ensures SameFold(s, word) <==> Says(s, word)
  {
  }

  // ----- Commands -----

  /** The name of a command is the word, or goes on with a line end after it. */
  predicate Named(name: seq<Byte>, word: seq<Byte>) {
    && |name| >= |word| && Says(name[..|word|], word)
    && (|name| == |word| || (|name| >= |word| + 2 && name[|word|] == 13 && name[|word| + 1] == 10))
  }

  lemma StartsNamed(name: seq<Byte>, rest: seq<Byte>, word: seq<Byte>)
    requires IsWord(word)
    ensures Starts(name + CRLF + rest, word) <==> Named(name, word)
  {
    var s, n := name + CRLF + rest, |word|;
    if n <= |name| {
      assert s[..n] == name[..n];
      assert |s| >= n + 2 && s[..n + 2][..n] == s[..n];
      assert (word + CRLF)[n] == 13 && (word + CRLF)[n + 1] == 10 && (word + CRLF)[..n] == word;
      FoldIs(name[..n], word);
      SplitFold(s[..n + 2], word);
      assert s[n] == (if n < |name| then name[n] else 13);
    } else if |s| >= n + 2 {
      assert s[..n + 2][|name|] == s[|name|] == 13 && (word + CRLF)[|name|] == word[|name|];
    }
  }

  lemma SplitFold(t: seq<Byte>, word: seq<Byte>)
    requires |t| == |word| + 2
    ensures SameFold(t, word + CRLF) <==> SameFold(t[..|word|], word) && t[|word|] == 13 && t[|word| + 1] == 10
  {
    var u, n := word + CRLF, |word|;
    assert u[n] == 13 && u[n + 1] == 10 && forall i :: 0 <= i < n ==> u[i] == word[i] && t[..n][i] == t[i];
  }

  lemma TailText(name: seq<Byte>, rest: seq<Byte>)
    requires name != []
    ensures (name + CRLF + rest)[1..] == name[1..] + CRLF + rest
  {
  }

  lemma SaysTail(s: seq<Byte>, word: seq<Byte>)
    requires s != [] && word != []
    ensures Says(s, word) <==> IsLetter(s[0], word[0]) && Says(s[1..], word[1..])
  {
    if Says(s[1..], word[1..]) && IsLetter(s[0], word[0]) {
      forall i | 0 <= i < |s|
        ensures IsLetter(s[i], word[i])
      {
        if i > 0 {
          assert s[1..][i - 1] == s[i] && word[1..][i - 1] == word[i];
        }
      }
    }
  }

  /** A name is p and a word exactly if it starts with p and the rest is the word. */
  lemma NamedP(name: seq<Byte>, word: seq<Byte>)
    ensures Named(name, [112] + word) <==> name != [] && name[0] in [80, 112] && Named(name[1..], word)
  {
    var pw, n := [112] + word, |word|;
    if name != [] {
      assert pw[1..] == word;
      if |name| >= n + 1 {
        assert name[..n + 1][1..] == name[1..][..n];
        SaysTail(name[..n + 1], pw);
      }
    }
  }

  /** What a command is taken for, whatever its arguments. */
  ghost function ClassByWord(argv: seq<seq<Byte>>): Class
    requires argv != []
  {
    if |argv| > 1 && Named(argv[0], SUBSCRIBE_WORD) then Subscribe(false, argv[1..])
    else if |argv| > 1 && Named(argv[0], PSUBSCRIBE_WORD) then Subscribe(true, argv[1..])
    else if Named(argv[0], UNSUBSCRIBE_WORD) || Named(argv[0], PUNSUBSCRIBE_WORD) then Unsubscribe
    else Regular
  }

  lemma NotP(name: seq<Byte>, word: seq<Byte>)
    requires IsWord(word) && word != [] && word[0] != 112 && name != [] && name[0] in [80, 112]
    ensures !Named(name, word) && !SaysC(name, word)
  {
    if |name| >= |word| {
      assert name[..|word|][0] == name[0] && !IsLetter(name[0], word[0]);
    }
  }

  lemma PatternText(name: seq<Byte>, rest: seq<Byte>)
    ensures IsPattern(name + CRLF + rest) <==> name != [] && name[0] in [80, 112]
  {
    var s := name + CRLF + rest;
    assert s[0] == if name == [] then 13 else name[0];
  }

  lemma WordsAre()
    ensures IsWord(SUBSCRIBE_WORD) && IsWord(UNSUBSCRIBE_WORD)
    ensures SUBSCRIBE == SUBSCRIBE_WORD && UNSUBSCRIBE == UNSUBSCRIBE_WORD
    ensures PSUBSCRIBE_WORD == [112] + SUBSCRIBE_WORD && PUNSUBSCRIBE_WORD == [112] + UNSUBSCRIBE_WORD
  {
  }

  lemma ClassIs(argv: seq<seq<Byte>>)
    requires argv != []
    ensures Classify(argv) == ClassByWord(argv)
  {
    var name, rest := argv[0], Bulks(argv[1..]);
    WordsAre();
    PatternText(name, rest);
    NamedP(name, SUBSCRIBE_WORD);
    NamedP(name, UNSUBSCRIBE_WORD);
    if name != [] && name[0] in [80, 112] {
      TailText(name, rest);
      StartsNamed(name[1..], rest, SUBSCRIBE_WORD);
      StartsNamed(name[1..], rest, UNSUBSCRIBE_WORD);
      NotP(name, SUBSCRIBE_WORD);
      NotP(name, UNSUBSCRIBE_WORD);
    } else {
      StartsNamed(name, rest, SUBSCRIBE_WORD);
      StartsNamed(name, rest, UNSUBSCRIBE_WORD);
    }
  }

  // ----- Messages -----

  /** The text of an element, if it is a string. */
  function Text(e: Slot): Option<seq<Byte>> {
    match e
    case Full(StrObj(StringReply, str)) => Some(str)
    case _ => None
  }

  function Number(e: Slot): Option<int> {
    match e
    case Full(IntObj(n)) => Some(n)
    case _ => None
  }

  /** A C string that is the word. */
  predicate SaysC(s: seq<Byte>, word: seq<Byte>) {
    |s| >= |word| && Says(s[..|word|], word) && (|s| == |word| || s[|word|] == 0)
  }

  lemma {:induction false} CStringSays(s: seq<Byte>, word: seq<Byte>)
    requires IsWord(word)
    ensures SameFold(CString(s), word) <==> SaysC(s, word)
    decreases |s|
  {
    if s == [] || s[0] == 0 {
      if word != [] && s != [] && |s| >= |word| {
        assert s[..|word|][0] == 0;
      }
    } else if word == [] {
    } else {
      var t, w := s[1..], word[1..];
      assert IsWord(w);
      CStringSays(t, w);
      FoldIs(CString(s), word);
      FoldIs(CString(t), w);
      SaysTail(CString(s), word);
      assert CString(s)[1..] == CString(t);
      if |s| >= |word| {
        SaysTail(s[..|word|], word);
        assert s[..|word|][1..] == t[..|w|];
      }
    }
  }

  /** What a reply is, element by element. */
  ghost predicate MessageIs(reply: Obj, m: Message) {
    if !reply.ArrObj? then m == NotMessage
    else if |reply.element| < 2 || Text(reply.element[0]).None? || Text(reply.element[1]).None? then m == Unexpected
    else
      var word, name := Text(reply.element[0]).value, Text(reply.element[1]).value;
      && m.Push? && m.name == name
      && (m.pattern <==> word != [] && word[0] in [80, 112])
      && (m.unsubscribe <==> SaysC(word, UNSUBSCRIBE_WORD) || SaysC(word, PUNSUBSCRIBE_WORD))
      && m.count == if |reply.element| >= 3 then Number(reply.element[2]) else None
  }

  /** A word is p and another exactly if it starts with p and the rest is that. */
  lemma SaysCP(s: seq<Byte>, word: seq<Byte>)
    ensures SaysC(s, [112] + word) <==> s != [] && s[0] in [80, 112] && SaysC(s[1..], word)
  {
    var pw, n := [112] + word, |word|;
    if s != [] {
      assert pw[1..] == word;
      if |s| >= n + 1 {
        assert s[..n + 1][1..] == s[1..][..n];
        SaysTail(s[..n + 1], pw);
      }
    }
  }

  lemma UnsubscribeIs(word: seq<Byte>)
    ensures SameFold(CString(SkipP(word)), UNSUBSCRIBE) <==> SaysC(word, UNSUBSCRIBE_WORD) || SaysC(word, PUNSUBSCRIBE_WORD)
  {
    WordsAre();
    CStringSays(SkipP(word), UNSUBSCRIBE_WORD);
    SaysCP(word, UNSUBSCRIBE_WORD);
    if IsPattern(word) {
      NotP(word, UNSUBSCRIBE_WORD);
    }
  }

  /** Every reply is read as its elements say. */
  lemma ReadMessageIs(reply: Obj)
    ensures MessageIs(reply, ReadMessage(reply))
  {
    if ReadMessage(reply).Push? {
      UnsubscribeIs(reply.element[0].obj.str);
    }
  }

  /** What a server sends to a subscriber. */
  datatype Notice =
    | Published(channel: seq<Byte>, payload: seq<Byte>)
    | Matched(pattern: seq<Byte>, channel: seq<Byte>, payload: seq<Byte>)
    | Confirmed(patterns: bool, leaving: bool, name: seq<Byte>, count: int)

  function WordOf(n: Notice): seq<Byte> {
    match n
    case Published(_, _) => MESSAGE_WORD
    case Matched(_, _, _) => PMESSAGE_WORD
    case Confirmed(patterns, leaving, _, _) =>
      if leaving then (if patterns then PUNSUBSCRIBE_WORD else UNSUBSCRIBE_WORD)
      else (if patterns then PSUBSCRIBE_WORD else SUBSCRIBE_WORD)
  }

  function Str(s: seq<Byte>): Slot {
    Full(StrObj(StringReply, s))
  }

  /** The reply, with its word in any spelling. */
  function ReplyOf(n: Notice, word: seq<Byte>): Obj {
    match n
    case Published(channel, payload) => ArrObj(3, [Str(word), Str(channel), Str(payload)])
    case Matched(pattern, channel, payload) => ArrObj(4, [Str(word), Str(pattern), Str(channel), Str(payload)])
    case Confirmed(_, _, name, count) => ArrObj(3, [Str(word), Str(name), Full(IntObj(count))])
  }

  function MessageOf(n: Notice): Message {
    match n
    case Published(channel, _) => Push(false, channel, false, None)
    case Matched(pattern, _, _) => Push(true, pattern, false, None)
    case Confirmed(patterns, leaving, name, count) => Push(patterns, name, leaving, Some(count))
  }

  lemma WordApart(word: seq<Byte>, w: seq<Byte>, v: seq<Byte>)
    requires Says(word, w) && IsWord(w) && IsWord(v) && (|w| != |v| || exists i :: 0 <= i < |w| && w[i] != v[i])
    ensures !SaysC(word, v)
  {
    if |v| == |word| {
      assert word[..|v|] == word;
    }
  }

  lemma SaysWhole(word: seq<Byte>, w: seq<Byte>)
    requires Says(word, w)
    ensures SaysC(word, w)
  {
    assert word[..|w|] == word;
  }

  /** The words of what is no unsubscription. */
  lemma NotLeaving(word: seq<Byte>, w: seq<Byte>)
    requires Says(word, w) && w in [MESSAGE_WORD, PMESSAGE_WORD, SUBSCRIBE_WORD, PSUBSCRIBE_WORD]
    ensures !SaysC(word, UNSUBSCRIBE_WORD) && !SaysC(word, PUNSUBSCRIBE_WORD)
  {
    WordApart(word, w, UNSUBSCRIBE_WORD);
    WordApart(word, w, PUNSUBSCRIBE_WORD);
  }

  /** A notice is read as what it is: its table, its name, whether a subscription ends, and the count. */
  lemma NoticeRead(n: Notice, word: seq<Byte>)
    requires Says(word, WordOf(n))
    ensures ReadMessage(ReplyOf(n, word)) == MessageOf(n)
  {
    ReadMessageIs(ReplyOf(n, word));
    if n.Confirmed? && n.leaving {
      SaysWhole(word, WordOf(n));
    } else {
      NotLeaving(word, WordOf(n));
    }
  }
}
