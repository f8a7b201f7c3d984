/** What the messages of a server do to a run of the asynchronous connection. */
module AsyncMessages {
  import opened Resp
  import opened Reply
  import opened Command
  import opened CallbackList
  import opened PubSub
  import opened PubSubLaws
  import opened AsyncSpec
  import opened AsyncTrace
  import opened AsyncRuns
  import AsyncEnds

  /** A notice on a run that goes on, with no regular command waiting and a subscriber for its table and name. */
  ghost predicate Expected(s: Conn, n: Notice, word: seq<Byte>, cb: Callback) {
    && Says(word, WordOf(n)) && Regulars(s.log.trace) <= 0 && SubscribedIn(s.log.trace)
    && Latest(HistoryOf(s.log.trace), MessageOf(n).pattern, MessageOf(n).name) == Some(cb)
  }

  /** What the trace gains: the reply, for a subscription. */
  ghost function With(trace: seq<Item>, reply: Obj): seq<Item> {
    trace + [Arrival(Got(reply, ForMessage))]
  }

  lemma NoticeTaken(s: Conn, env: Env, n: Notice, word: seq<Byte>, cb: Callback)
    requires Alive(s, env) && Expected(s, n, word, cb)
    ensures var reply := ReplyOf(n, word);
            && FateOf(s, reply) == Taken(cb, ForMessage) && Dispatched(s, reply).log.trace == With(s.log.trace, reply)
            && Dispatched(s, reply).log.ran == s.log.ran
  {
    var reply := ReplyOf(n, word);
    NoticeRead(n, word);
    AsyncEnds.RegularsAre(s, env);
    TakenIff(s, reply);
    var r := Receiving(s, reply, ForMessage);
    AsyncEnds.MessagedCalm(r, MessageOf(n));
    TakenByMessage(s, MessageOf(n));
  }

  /** The callback runs first, and whatever happens next comes after. */
  lemma CalledFirst(u: Conn, env: Env, cb: Callback, reply: Obj, why: Why)
    requires Iterates(env)
    ensures var t := Called(u, env, cb, reply, why);
            && u.log.trace <= t.log.trace
            && (cb.fn.Some? ==> u.log.ran + [Ran(Answer(cb, Some(reply)), why)] <= t.log.ran)
  {
    if cb.fn.Some? {
      var r := Starting(u, cb, Some(reply), why);
      var t := DoingAll(r, u.calls, env.react(u.calls));
      AsyncEnds.DoingAllInside(r, u.calls, env.react(u.calls));
      if !t.aborted && t.freeing {
        AsyncEnds.TornDownRuns(t, env);
      }
    }
  }

  lemma RestOfRead(p: Conn, env: Env, inbox: seq<Obj>, failed: bool, cb: Callback)
    requires Iterates(env) && (Over(p) || Alive(p, env))
    ensures var t := ProcessedAll(p, env, inbox, failed, cb); p.log.trace <= t.log.trace && p.log.ran <= t.log.ran
  {
    if !Over(p) {
      AsyncEnds.AliveAfterReplies(p, env, inbox, cb);
      Going(p, env);
      var x := AsyncEnds.ReadHad(p, env, inbox, failed, cb);
    }
  }

  lemma ReadFirst(s: Conn, env: Env, reply: Obj, inbox: seq<Obj>, failed: bool, cb: Callback)
    requires Iterates(env) && !Over(s)
    ensures ProcessedAll(s, env, [reply] + inbox, failed, cb)
         == ProcessedAll(Processed(s, env, reply, cb), env, inbox, failed, Target(FateOf(s, reply), cb))
  {
    assert ([reply] + inbox)[1..] == inbox;
  }

  lemma ProcessedAlive(s: Conn, env: Env, reply: Obj, cb: Callback)
    requires Iterates(env) && Alive(s, env)
    ensures var p := Processed(s, env, reply, cb); Over(p) || Alive(p, env)
  {
    ProcessedLives(s, env, reply, cb);
  }

  /** The trace gains a reply for a subscription, and the callback of the subscription runs first. */
  ghost predicate RunsFirst(log: Log, log': Log, cb: Callback, reply: Obj) {
    && With(log.trace, reply) <= log'.trace
    && (cb.fn.Some? ==> log.ran + [Ran(Answer(cb, Some(reply)), ForMessage)] <= log'.ran)
  }

  lemma NoticeProcessed(s: Conn, env: Env, n: Notice, word: seq<Byte>, cb: Callback, garbage: Callback)
    requires Iterates(env) && Alive(s, env) && Expected(s, n, word, cb)
    ensures RunsFirst(s.log, Processed(s, env, ReplyOf(n, word), garbage).log, cb, ReplyOf(n, word))
  {
    NoticeTaken(s, env, n, word, cb);
    CalledFirst(Dispatched(s, ReplyOf(n, word)), env, cb, ReplyOf(n, word), ForMessage);
  }

  /** A notice runs the latest subscriber for its table and name, whatever else the read event holds. */
  lemma NoticeRuns(s: Conn, env: Env, n: Notice, word: seq<Byte>, cb: Callback, inbox: seq<Obj>, failed: bool, garbage: Callback)
    requires Iterates(env) && Alive(s, env) && Expected(s, n, word, cb)
    ensures var reply := ReplyOf(n, word);
            RunsFirst(s.log, Handled(s, env, Readable([reply] + inbox, failed, garbage)).log, cb, reply)
  {
    var reply := ReplyOf(n, word);
    NoticeProcessed(s, env, n, word, cb, garbage);
    ProcessedAlive(s, env, reply, garbage);
    ReadFirst(s, env, reply, inbox, failed, garbage);
    RestOfRead(Processed(s, env, reply, garbage), env, inbox, failed, Target(FateOf(s, reply), garbage));
  }

  /** What a notice leaves of the subscriptions: an unsubscription ends that one, in that table, and nothing else; the
      last one, counted zero, ends the subscribed mode. */
  lemma NoticeLeaves(trace: seq<Item>, n: Notice, word: seq<Byte>, pattern: bool, name: seq<Byte>)
    requires Says(word, WordOf(n)) && SubscribedIn(trace)
    ensures var u, leaving := With(trace, ReplyOf(n, word)), n.Confirmed? && n.leaving;
            && Latest(HistoryOf(u), pattern, name) ==
                 (if leaving && n.patterns == pattern && n.name == name then None else Latest(HistoryOf(trace), pattern, name))
            && (SubscribedIn(u) <==> !(leaving && n.count == 0))
  {
    var reply, m, h := ReplyOf(n, word), MessageOf(n), HistoryOf(trace);
    NoticeRead(n, word);
    ArrivalOne(trace, Got(reply, ForMessage), m);
    if m.unsubscribe {
      LastOf(h, Unsubscribed(m.pattern, m.name));
    } else {
      assert h + [] == h;
    }
  }

  /** A message, a pattern message or a confirmation on any run that goes on. */
  lemma NoticeOnRun(env: Env, events: seq<Event>, n: Notice, word: seq<Byte>, cb: Callback, inbox: seq<Obj>, failed: bool,
                    garbage: Callback)
    requires Iterates(env) && !Over(HandledAll(INITIAL_CONN, env, events))
    requires Expected(HandledAll(INITIAL_CONN, env, events), n, word, cb)
    ensures var reply := ReplyOf(n, word);
            var s := HandledAll(INITIAL_CONN, env, events);
            var t := HandledAll(INITIAL_CONN, env, events + [Readable([reply] + inbox, failed, garbage)]);
            RunsFirst(s.log, t.log, cb, reply)
  {
    AsyncEnds.RunFollows(env, events);
    AsyncEnds.HandledAllOne(INITIAL_CONN, env, events, Readable([ReplyOf(n, word)] + inbox, failed, garbage));
    NoticeRuns(HandledAll(INITIAL_CONN, env, events), env, n, word, cb, inbox, failed, garbage);
  }

  // ----- On a new connection -----

  lemma SubscribeClass(command: seq<Byte>, name: seq<Byte>, pattern: bool)
    requires Says(command, if pattern then PSUBSCRIBE_WORD else SUBSCRIBE_WORD)
    ensures ClassOf([command, name]) == Some(Subscribe(pattern, [name]))
  {
    assert command[..|command|] == command && [command, name][1..] == [name];
    ClassIs([command, name]);
  }

  /** A run that has only subscribed so far. */
  ghost predicate Quiet(s: Conn, env: Env, history: seq<Sub>) {
    && Alive(s, env) && !Closing(s) && s.replies == [] && s.log.ran == [] && HistoryOf(s.log.trace) == history
    && (history != [] ==> SubscribedIn(s.log.trace))
  }

  lemma SubscribedState(s: Conn, action: Action, cls: Option<Class>, cmd: seq<Byte>)
    requires action.Send? && cls.Some? && cls.value.Subscribe? && !Closing(s)
    ensures Verdict(s, cls) == Registered
    ensures var t := NoteMade(s, None, action, Registered);
            var u := Submitted(t, action.cb, cls, cmd);
            && u.log.trace == s.log.trace + [Call(Made(None, action, Registered))]
            && u.log.ran == s.log.ran && Over(u) == Over(s) && !Closing(u) && u.replies == s.replies
  {
  }

  /** A subscribe, in either table. */
  lemma Subscribes(s: Conn, env: Env, cb: Callback, argv: seq<seq<Byte>>, cls: Option<Class>)
    requires Iterates(env) && !Closing(s) && cls == ClassOf(argv) && cls.Some? && cls.value.Subscribe?
    ensures var t := Handled(s, env, Act(Send(cb, argv)));
            && t.log.ran == s.log.ran && Over(t) == Over(s) && !Closing(t) && t.replies == s.replies
            && SubscribedIn(t.log.trace)
            && HistoryOf(t.log.trace) == HistoryOf(s.log.trace) + Subs(cls.value.pattern, cls.value.names, cb)
  {
    SubscribedState(s, Send(cb, argv), cls, Format(argv));
    CallOne(s.log.trace, Made(None, Send(cb, argv), Registered), cls);
  }

  lemma SentAlive(s: Conn, env: Env, cb: Callback, argv: seq<seq<Byte>>)
    requires Iterates(env) && Alive(s, env)
    ensures var t := Sent(s, None, cb, argv); !Over(t) ==> Alive(t, env)
  {
    SendLives(s, env, cb, argv);
  }

  lemma QuietFrom(s: Conn, t: Conn, env: Env, history: seq<Sub>, cb: Callback, cls: Class)
    requires cls.Subscribe? && |cls.names| == 1 && Quiet(s, env, history) && Alive(t, env)
    requires t.log.ran == s.log.ran && !Closing(t) && t.replies == s.replies && SubscribedIn(t.log.trace)
    requires HistoryOf(t.log.trace) == HistoryOf(s.log.trace) + Subs(cls.pattern, cls.names, cb)
    ensures Quiet(t, env, history + [Subscribed(cls.pattern, cls.names[0], cb)])
  {
    assert Subs(cls.pattern, cls.names, cb) == [Subscribed(cls.pattern, cls.names[0], cb)];
  }

  lemma QuietStep(s: Conn, env: Env, history: seq<Sub>, cb: Callback, argv: seq<seq<Byte>>, cls: Option<Class>)
    requires Iterates(env) && cls == ClassOf(argv) && cls.Some? && cls.value.Subscribe? && |cls.value.names| == 1
    requires Quiet(s, env, history)
    ensures Quiet(Handled(s, env, Act(Send(cb, argv))), env, history + [Subscribed(cls.value.pattern, cls.value.names[0], cb)])
  {
    Subscribes(s, env, cb, argv, cls);
    SentAlive(s, env, cb, argv);
    QuietFrom(s, Handled(s, env, Act(Send(cb, argv))), env, history, cb, cls.value);
  }

  lemma QuietNew(env: Env)
    ensures Quiet(INITIAL_CONN, env, [])
  {
    InitialGood(env);
  }

  lemma QuietNotice(s: Conn, env: Env, history: seq<Sub>, n: Notice, word: seq<Byte>, cb: Callback, inbox: seq<Obj>,
                    failed: bool, garbage: Callback)
    requires Iterates(env) && Quiet(s, env, history) && history != [] && cb.fn.Some?
    requires Says(word, WordOf(n)) && Latest(history, MessageOf(n).pattern, MessageOf(n).name) == Some(cb)
    ensures var reply := ReplyOf(n, word);
            var t := Handled(s, env, Readable([reply] + inbox, failed, garbage));
            && [Ran(Answer(cb, Some(reply)), ForMessage)] <= t.log.ran && With(s.log.trace, reply) <= t.log.trace
  {
    var ran := [Ran(Answer(cb, Some(ReplyOf(n, word))), ForMessage)];
    AsyncEnds.RegularsAre(s, env);
    NoticeRuns(s, env, n, word, cb, inbox, failed, garbage);
    assert [] + ran == ran;
  }

  lemma TwoEvents(s: Conn, env: Env, e: Event, e': Event)
    requires Iterates(env) && !Over(s) && !Over(Handled(s, env, e))
    ensures HandledAll(s, env, [e, e']) == Handled(Handled(s, env, e), env, e')
  {
    AsyncEnds.HandledAllOne(s, env, [e], e');
    AsyncEnds.HandledAllOne(s, env, [], e);
    assert [e] + [e'] == [e, e'] && [] + [e] == [e];
  }

  lemma ThreeEvents(s: Conn, env: Env, e: Event, e': Event, e'': Event)
    requires Iterates(env) && !Over(s) && !Over(Handled(s, env, e)) && !Over(Handled(Handled(s, env, e), env, e'))
    ensures HandledAll(s, env, [e, e', e'']) == Handled(Handled(Handled(s, env, e), env, e'), env, e'')
  {
    TwoEvents(s, env, e, e');
    AsyncEnds.HandledAllOne(s, env, [e, e'], e'');
    assert [e, e'] + [e''] == [e, e', e''];
  }

  lemma QuietOnce(s: Conn, env: Env, cb: Callback, argv: seq<seq<Byte>>, cls: Option<Class>)
    requires Iterates(env) && cls == ClassOf(argv) && cls.Some? && cls.value.Subscribe? && |cls.value.names| == 1
    requires Quiet(s, env, [])
    ensures Quiet(Handled(s, env, Act(Send(cb, argv))), env, [Subscribed(cls.value.pattern, cls.value.names[0], cb)])
  {
    var sub := Subscribed(cls.value.pattern, cls.value.names[0], cb);
    QuietStep(s, env, [], cb, argv, cls);
    assert [] + [sub] == [sub];
  }

  /** A notice on a run that one event has made quiet. */
  lemma NoticeAfter(s: Conn, env: Env, e: Event, sub: Sub, n: Notice, word: seq<Byte>, inbox: seq<Obj>, failed: bool,
                    garbage: Callback)
    requires Iterates(env) && !Over(s) && Quiet(Handled(s, env, e), env, [sub]) && sub.Subscribed? && sub.cb.fn.Some?
    requires Says(word, WordOf(n)) && sub.pattern == MessageOf(n).pattern && sub.name == MessageOf(n).name
    ensures var reply := ReplyOf(n, word);
            var t := HandledAll(s, env, [e, Readable([reply] + inbox, failed, garbage)]);
            [Ran(Answer(sub.cb, Some(reply)), ForMessage)] <= t.log.ran
  {
    QuietNotice(Handled(s, env, e), env, [sub], n, word, sub.cb, inbox, failed, garbage);
    TwoEvents(s, env, e, Readable([ReplyOf(n, word)] + inbox, failed, garbage));
  }

  /** PSUBSCRIBE and a pattern message: the subscriber of the pattern runs, and runs first. */
  lemma PatternMessage(env: Env, cb: Callback, command: seq<Byte>, pattern: seq<Byte>, channel: seq<Byte>, payload: seq<Byte>,
                       word: seq<Byte>, inbox: seq<Obj>, failed: bool, garbage: Callback)
    requires Iterates(env) && cb.fn.Some? && Says(command, PSUBSCRIBE_WORD) && Says(word, PMESSAGE_WORD)
    ensures var reply := ArrObj(4, [Str(word), Str(pattern), Str(channel), Str(payload)]);
            var t := HandledAll(INITIAL_CONN, env, [Act(Send(cb, [command, pattern])), Readable([reply] + inbox, failed, garbage)]);
            [Ran(Answer(cb, Some(reply)), ForMessage)] <= t.log.ran
  {
    SubscribeClass(command, pattern, true);
    QuietNew(env);
    QuietOnce(INITIAL_CONN, env, cb, [command, pattern], Some(Subscribe(true, [pattern])));
    NoticeAfter(INITIAL_CONN, env, Act(Send(cb, [command, pattern])), Subscribed(true, pattern, cb),
                Matched(pattern, channel, payload), word, inbox, failed, garbage);
  }

  lemma TwoLatest(name: seq<Byte>, cb: Callback, cb': Callback)
    ensures var h := [Subscribed(true, name, cb), Subscribed(false, name, cb')];
            Latest(h, true, name) == Some(cb) && Latest(h, false, name) == Some(cb')
  {
    var h := [Subscribed(true, name, cb), Subscribed(false, name, cb')];
    assert h[..1] == [Subscribed(true, name, cb)];
  }

  /** The subscriber of the pattern runs, the pattern is gone and the channel stays. */
  ghost predicate Leaves(s: Conn, t: Conn, cb: Callback, cb': Callback, reply: Obj, name: seq<Byte>, count: int) {
    var u := With(s.log.trace, reply);
    && [Ran(Answer(cb, Some(reply)), ForMessage)] <= t.log.ran && u <= t.log.trace
    && Latest(HistoryOf(u), true, name) == None && Latest(HistoryOf(u), false, name) == Some(cb')
    && (SubscribedIn(u) <==> count != 0)
  }

  lemma LeavesFrom(s: Conn, env: Env, cb: Callback, cb': Callback, n: Notice, word: seq<Byte>, inbox: seq<Obj>, failed: bool,
                   garbage: Callback)
    requires Iterates(env) && cb.fn.Some? && Says(word, WordOf(n)) && n.Confirmed? && n.patterns && n.leaving
    requires Quiet(s, env, [Subscribed(true, n.name, cb), Subscribed(false, n.name, cb')])
    ensures var reply := ReplyOf(n, word);
            Leaves(s, Handled(s, env, Readable([reply] + inbox, failed, garbage)), cb, cb', reply, n.name, n.count)
  {
    TwoLatest(n.name, cb, cb');
    QuietNotice(s, env, HistoryOf(s.log.trace), n, word, cb, inbox, failed, garbage);
    NoticeLeaves(s.log.trace, n, word, true, n.name);
    NoticeLeaves(s.log.trace, n, word, false, n.name);
  }

  /** A punsubscribe message on a run that two events have made quiet. */
  lemma LeavesAfter(s: Conn, env: Env, e: Event, e': Event, cb: Callback, cb': Callback, n: Notice, word: seq<Byte>,
                    inbox: seq<Obj>, failed: bool, garbage: Callback)
    requires Iterates(env) && cb.fn.Some? && Says(word, WordOf(n)) && n.Confirmed? && n.patterns && n.leaving
    requires !Over(s) && !Over(Handled(s, env, e))
    requires Quiet(Handled(Handled(s, env, e), env, e'), env, [Subscribed(true, n.name, cb), Subscribed(false, n.name, cb')])
    ensures var reply := ReplyOf(n, word);
            var r := Readable([reply] + inbox, failed, garbage);
            Leaves(HandledAll(s, env, [e, e']), HandledAll(s, env, [e, e', r]), cb, cb', reply, n.name, n.count)
  {
    LeavesFrom(Handled(Handled(s, env, e), env, e'), env, cb, cb', n, word, inbox, failed, garbage);
    TwoEvents(s, env, e, e');
    ThreeEvents(s, env, e, e', Readable([ReplyOf(n, word)] + inbox, failed, garbage));
  }

  /** The second of two subscribes. */
  lemma QuietTwice(s: Conn, env: Env, e: Event, sub: Sub, cb: Callback, argv: seq<seq<Byte>>, cls: Option<Class>)
    requires Iterates(env) && cls == ClassOf(argv) && cls.Some? && cls.value.Subscribe? && |cls.value.names| == 1
    requires Quiet(Handled(s, env, e), env, [sub])
    ensures Quiet(Handled(Handled(s, env, e), env, Act(Send(cb, argv))), env,
                  [sub, Subscribed(cls.value.pattern, cls.value.names[0], cb)])
  {
    var sub' := Subscribed(cls.value.pattern, cls.value.names[0], cb);
    assert [sub] + [sub'] == [sub, sub'];
    QuietStep(Handled(s, env, e), env, [sub], cb, argv, cls);
  }

  lemma LeavesRun(s: Conn, env: Env, cb: Callback, argv: seq<seq<Byte>>, cb': Callback, argv': seq<seq<Byte>>, n: Notice,
                  word: seq<Byte>, inbox: seq<Obj>, failed: bool, garbage: Callback)
    requires Iterates(env) && cb.fn.Some? && Says(word, WordOf(n)) && n.Confirmed? && n.patterns && n.leaving
    requires ClassOf(argv) == Some(Subscribe(true, [n.name])) && ClassOf(argv') == Some(Subscribe(false, [n.name]))
    requires Quiet(s, env, [])
    ensures var reply, e, e' := ReplyOf(n, word), Act(Send(cb, argv)), Act(Send(cb', argv'));
            var r := Readable([reply] + inbox, failed, garbage);
            Leaves(HandledAll(s, env, [e, e']), HandledAll(s, env, [e, e', r]), cb, cb', reply, n.name, n.count)
  {
    var e, e' := Act(Send(cb, argv)), Act(Send(cb', argv'));
    QuietOnce(s, env, cb, argv, Some(Subscribe(true, [n.name])));
    QuietTwice(s, env, e, Subscribed(true, n.name, cb), cb', argv', Some(Subscribe(false, [n.name])));
    LeavesAfter(s, env, e, e', cb, cb', n, word, inbox, failed, garbage);
  }

  /** PSUBSCRIBE and SUBSCRIBE for one name and then a punsubscribe message. */
  lemma PatternLeaves(env: Env, cb: Callback, psubscribe: seq<Byte>, cb': Callback, subscribe: seq<Byte>, name: seq<Byte>,
                      word: seq<Byte>, count: int, inbox: seq<Obj>, failed: bool, garbage: Callback)
    requires Iterates(env) && cb.fn.Some? && Says(psubscribe, PSUBSCRIBE_WORD) && Says(subscribe, SUBSCRIBE_WORD)
    requires Says(word, PUNSUBSCRIBE_WORD)
    ensures var reply := ArrObj(3, [Str(word), Str(name), Full(IntObj(count))]);
            var e, e' := Act(Send(cb, [psubscribe, name])), Act(Send(cb', [subscribe, name]));
            var r := Readable([reply] + inbox, failed, garbage);
            Leaves(HandledAll(INITIAL_CONN, env, [e, e']), HandledAll(INITIAL_CONN, env, [e, e', r]), cb, cb', reply, name, count)
  {
    SubscribeClass(psubscribe, name, true);
    SubscribeClass(subscribe, name, false);
    QuietNew(env);
    LeavesRun(INITIAL_CONN, env, cb, [psubscribe, name], cb', [subscribe, name], Confirmed(true, true, name, count), word,
              inbox, failed, garbage);
  }
}
