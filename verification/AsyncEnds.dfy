/** How a run of the asynchronous connection follows its events, and what each event that ends it does. */
module AsyncEnds {
  import opened Resp
  import opened Reply
  import opened Command
  import opened CallbackList
  import opened PubSub
  import opened AsyncSpec
  import opened AsyncTrace
  import opened AsyncRuns

  // ----- The events of a run, in its trace -----

  /** What comes from outside: calls that no callback makes, replies, ends of read events, writes, a broken socket. */
  datatype Stimulus = Asks(action: Action) | Replies(reply: Obj) | EndsRead(failed: bool) | Breaks | Writes(n: nat)

  ghost function Outside(item: Item): seq<Stimulus> {
    match item
    case Call(m) => if m.who.None? then [Asks(m.action)] else []
    case Arrival(g) => [Replies(g.reply)]
    case Stray(reply) => [Replies(reply)]
    case ReadEnd(failed) => [EndsRead(failed)]
    case Broken => [Breaks]
    case Wrote(n) => [Writes(n)]
  }

  ghost function External(trace: seq<Item>): seq<Stimulus> {
    if trace == [] then [] else External(trace[..|trace| - 1]) + Outside(trace[|trace| - 1])
  }

  ghost function InboxStimuli(inbox: seq<Obj>): seq<Stimulus> {
    seq(|inbox|, i requires 0 <= i < |inbox| => Replies(inbox[i]))
  }

  ghost function StimuliOf(event: Event): seq<Stimulus> {
    match event
    case Act(action) => [Asks(action)]
    case Readable(inbox, failed, _) => InboxStimuli(inbox) + [EndsRead(failed)]
    case Writable(n) => [Writes(n)]
    case SocketError => [Breaks]
  }

  ghost function Stimuli(events: seq<Event>): seq<Stimulus> {
    if events == [] then [] else StimuliOf(events[0]) + Stimuli(events[1..])
  }

  /** `t` comes after `s` and has had `x` from outside since. */
  ghost predicate Had(s: Conn, t: Conn, x: seq<Stimulus>) {
    && External(t.log.trace) == External(s.log.trace) + x
    && s.log.trace <= t.log.trace && s.log.ran <= t.log.ran
  }

  lemma HadNothing(s: Conn, t: Conn)
    requires t.log.trace == s.log.trace && s.log.ran <= t.log.ran
    ensures Had(s, t, [])
  {
    assert External(s.log.trace) + [] == External(s.log.trace);
  }

  lemma HadOne(s: Conn, t: Conn, item: Item)
    requires t.log.trace == s.log.trace + [item] && s.log.ran <= t.log.ran
    ensures Had(s, t, Outside(item))
  {
    LastOf(s.log.trace, item);
  }

  lemma HadTwice(s: Conn, t: Conn, u: Conn, x: seq<Stimulus>, y: seq<Stimulus>)
    requires Had(s, t, x) && Had(t, u, y)
    ensures Had(s, u, x + y)
  {
    Assoc(External(s.log.trace), x, y);
  }

  /** Nothing and then something. */
  lemma HadNone(s: Conn, t: Conn, u: Conn, x: seq<Stimulus>)
    requires Had(s, t, []) && Had(t, u, x)
    ensures Had(s, u, x)
  {
    assert External(s.log.trace) + [] == External(s.log.trace);
  }

  /** Something and then nothing. */
  lemma HadAll(s: Conn, t: Conn, u: Conn, x: seq<Stimulus>)
    requires Had(s, t, x) && Had(t, u, [])
    ensures Had(s, u, x)
  {
    assert External(t.log.trace) + [] == External(t.log.trace);
  }

  lemma SentHad(s: Conn, who: Option<nat>, cb: Callback, argv: seq<seq<Byte>>)
    ensures Had(s, Sent(s, who, cb, argv), if who.None? then [Asks(Send(cb, argv))] else [])
  {
    var m := Made(who, Send(cb, argv), Verdict(s, ClassOf(argv)));
    var t := NoteMade(s, who, m.action, m.effect);
    if argv != [] {
      FiledSame(t, cb, Classify(argv));
    }
    HadOne(s, Sent(s, who, cb, argv), Call(m));
  }

  /** The same, and no callback has run. */
  ghost predicate Inside(s: Conn, t: Conn) {
    Had(s, t, []) && t.log.ran == s.log.ran
  }

  lemma DoingInside(s: Conn, n: nat, action: Action)
    ensures Inside(s, Doing(s, n, action))
  {
    match action
    case Send(cb, argv) =>
      SentHad(s, Some(n), cb, argv);
      SubmittedSame(NoteMade(s, Some(n), action, Verdict(s, ClassOf(argv))), cb, ClassOf(argv), Format(argv));
    case Disconnect => HadOne(s, Doing(s, n, action), Call(Made(Some(n), action, Noted)));
    case Free => HadOne(s, Doing(s, n, action), Call(Made(Some(n), action, Noted)));
  }

  lemma InsideTwice(s: Conn, t: Conn, u: Conn)
    requires Inside(s, t) && Inside(t, u)
    ensures Inside(s, u)
  {
    HadNone(s, t, u, []);
  }

  lemma {:induction false} DoingAllInside(s: Conn, n: nat, actions: seq<Action>)
    ensures Inside(s, DoingAll(s, n, actions))
    decreases |actions|
  {
    if actions == [] || s.aborted {
      HadNothing(s, s);
    } else {
      var t := Doing(s, n, actions[0]);
      DoingInside(s, n, actions[0]);
      DoingAllInside(t, n, actions[1..]);
      InsideTwice(s, t, DoingAll(t, n, actions[1..]));
    }
  }

  lemma RunningHad(s: Conn, env: Env, cb: Callback, reply: Option<Obj>, why: Why)
    ensures Had(s, Running(s, env, cb, reply, why), [])
  {
    if cb.fn.None? {
      HadNothing(s, s);
    } else {
      DoingAllInside(Starting(s, cb, reply, why), s.calls, env.react(s.calls));
    }
  }

  // ----- What teardown does -----

  /** The callbacks of a queue or a table run with no reply, in order. */
  ghost function NullRans(q: seq<Callback>, why: Why): seq<Ran> {
    if q == [] then [] else (if q[0].fn.Some? then [Ran(Answer(q[0], None), why)] else []) + NullRans(q[1..], why)
  }

  ghost function Nulls(q: seq<Callback>): seq<Answer> {
    seq(|q|, i requires 0 <= i < |q| => Answer(q[i], None))
  }

  lemma NullRansFirst(r: seq<Ran>, r': seq<Ran>, q: seq<Callback>, why: Why)
    requires q != [] && r' == r + if q[0].fn.Some? then [Ran(Answer(q[0], None), why)] else []
    ensures r' + NullRans(q[1..], why) == r + NullRans(q, why)
  {
    Assoc(r, if q[0].fn.Some? then [Ran(Answer(q[0], None), why)] else [], NullRans(q[1..], why));
  }

  lemma NullsFirst(a: seq<Answer>, q: seq<Callback>)
    requires q != []
    ensures a + [Answer(q[0], None)] + Nulls(q[1..]) == a + Nulls(q)
  {
    assert Nulls(q) == [Answer(q[0], None)] + Nulls(q[1..]);
  }

  /** A callback that runs with no reply on a closing connection: only its run is new. */
  lemma NullRun(s: Conn, env: Env, cb: Callback, why: Why)
    requires Closing(s)
    ensures var t := Running(s, env, cb, None, why);
            && Still(s, t) && Had(s, t, [])
            && t.log.ran == s.log.ran + if cb.fn.Some? then [Ran(Answer(cb, None), why)] else []
  {
    RunningStill(s, env, cb, None, why);
    RunningHad(s, env, cb, None, why);
    if cb.fn.Some? {
      DoingAllInside(Starting(s, cb, None, why), s.calls, env.react(s.calls));
    }
  }

  lemma {:induction false} DrainingRepliesRuns(s: Conn, env: Env)
    requires Closing(s)
    ensures var t := DrainingReplies(s, env);
            && Had(s, t, []) && t.log.ran == s.log.ran + NullRans(s.replies, ForRegular)
            && t.log.answered == s.log.answered + Nulls(s.replies)
    decreases |s.replies|
  {
    if s.replies == [] {
      HadNothing(s, s);
    } else {
      var u := ShiftingReply(s, None);
      var t := Running(u, env, s.replies[0], None, ForRegular);
      NullRun(u, env, s.replies[0], ForRegular);
      DrainingRepliesRuns(t, env);
      NullRansFirst(s.log.ran, t.log.ran, s.replies, ForRegular);
      NullsFirst(s.log.answered, s.replies);
    }
  }

  lemma {:induction false} DrainingAsideRuns(s: Conn, env: Env)
    requires Closing(s)
    ensures var t := DrainingAside(s, env);
            && Had(s, t, []) && t.log.ran == s.log.ran + NullRans(s.invalid, ForAside)
            && t.log.answeredAside == s.log.answeredAside + Nulls(s.invalid)
    decreases |s.invalid|
  {
    if s.invalid == [] {
      HadNothing(s, s);
    } else {
      var u := ShiftingAside(s, None);
      var t := Running(u, env, s.invalid[0], None, ForAside);
      NullRun(u, env, s.invalid[0], ForAside);
      DrainingAsideRuns(t, env);
      NullRansFirst(s.log.ran, t.log.ran, s.invalid, ForAside);
      NullsFirst(s.log.answeredAside, s.invalid);
    }
  }

  lemma {:induction false} DrainingTableRuns(s: Conn, env: Env, q: seq<Callback>)
    requires Closing(s)
    ensures var t := DrainingTable(s, env, q);
            Had(s, t, []) && t.log.ran == s.log.ran + NullRans(q, ForTable)
    decreases |q|
  {
    if q == [] {
      HadNothing(s, s);
    } else {
      var t := Running(s, env, q[0], None, ForTable);
      NullRun(s, env, q[0], ForTable);
      DrainingTableRuns(t, env, q[1..]);
      NullRansFirst(s.log.ran, t.log.ran, q, ForTable);
    }
  }

  /** The connection is freed. Every pending record has been answered with null, and the callbacks of the regular
      commands, of those sent while subscribed, of the channels and of the patterns have run in this order. */
  ghost predicate FreedFrom(s: Conn, t: Conn, env: Env)
    requires Iterates(env)
  {
    && t.freed && !t.aborted && t.replies == [] && t.invalid == []
    && t.log.answered == s.log.answered + Nulls(s.replies)
    && t.log.answeredAside == s.log.answeredAside + Nulls(s.invalid)
    && t.log.ran == s.log.ran + NullRans(s.replies, ForRegular) + NullRans(s.invalid, ForAside)
                  + NullRans(Subscribers(s, env, false), ForTable) + NullRans(Subscribers(s, env, true), ForTable)
  }

  lemma DrainedRuns(s: Conn, env: Env)
    requires Closing(s)
    ensures var t := Drained(s, env);
            && Had(s, t, []) && t.channels == s.channels && t.patterns == s.patterns && Closing(t)
            && t.replies == [] && t.invalid == [] && t.aborted == s.aborted
            && t.log.answered == s.log.answered + Nulls(s.replies)
            && t.log.answeredAside == s.log.answeredAside + Nulls(s.invalid)
            && t.log.ran == s.log.ran + NullRans(s.replies, ForRegular) + NullRans(s.invalid, ForAside)
  {
    DrainedReplies(s, env);
    DrainingRepliesRuns(s, env);
    DrainedAside(DrainingReplies(s, env), env);
    DrainingAsideRuns(DrainingReplies(s, env), env);
  }

  lemma TablesRun(s: Conn, env: Env)
    requires Iterates(env) && Closing(s)
    ensures var t := TablesDrained(s, env);
            && Had(s, t, []) && Still(s, t)
            && t.log.ran == s.log.ran + NullRans(Subscribers(s, env, false), ForTable)
                          + NullRans(Subscribers(s, env, true), ForTable)
  {
    var q, q' := Subscribers(s, env, false), Subscribers(s, env, true);
    var u := DrainingTable(s, env, q);
    DrainedTable(s, env, q);
    DrainingTableRuns(s, env, q);
    DrainedTable(u, env, q');
    DrainingTableRuns(u, env, q');
    StillTwice(s, u, DrainingTable(u, env, q'));
  }

  lemma TornDownRuns(s: Conn, env: Env)
    requires Iterates(env) && Closing(s) && !s.aborted
    ensures FreedFrom(s, TornDown(s, env), env) && Had(s, TornDown(s, env), [])
  {
    var u := Drained(Tearing(s), env);
    DrainedRuns(Tearing(s), env);
    TablesRun(u, env);
    assert Subscribers(u, env, false) == Subscribers(s, env, false);
    assert Subscribers(u, env, true) == Subscribers(s, env, true);
  }

  lemma DisconnectedRuns(s: Conn, env: Env)
    requires Iterates(env) && (s.err || Closing(s)) && !s.aborted && !s.freed
    ensures var t := Disconnected(s, env);
            && Had(s, t, [])
            && (if s.err || s.replies == [] then FreedFrom(s, t, env) else t.aborted && !t.freed)
  {
    if s.err {
      TornDownRuns(s.(disconnecting := true), env);
    } else if s.replies != [] {
      HadNothing(s, Disconnected(s, env));
    } else {
      TornDownRuns(s, env);
    }
  }

  // ----- One reply -----

  /** What a reply on its way to a callback leaves alone. */
  ghost predicate Calm(s: Conn, u: Conn) {
    && u.freeing == s.freeing && u.disconnecting == s.disconnecting && u.freed == s.freed && u.calls == s.calls
    && u.log.ran == s.log.ran
  }

  lemma MessagedCalm(s: Conn, m: Message)
    requires m.Push?
    ensures var u := Messaged(s, m);
            Calm(s, u) && u.log.trace == s.log.trace && (u.aborted <==> s.aborted || (m.unsubscribe && m.count.None?))
  {
    if m.unsubscribe {
      var t := Unregistering(s, m.pattern, m.name);
      assert Calm(s, t) && t.log.trace == s.log.trace && t.aborted == s.aborted;
    }
  }

  /** A reply on its way, which may fail an assertion. */
  ghost predicate Passes(s: Conn, u: Conn, reply: Obj, fatal: bool) {
    Had(s, u, [Replies(reply)]) && Calm(s, u) && u.aborted == fatal
  }

  lemma MarkedCalm(s: Conn, r: Conn, reply: Obj, m: Message, item: Item)
    requires m.Push? && Calm(s, r) && !r.aborted && Outside(item) == [Replies(reply)] && r.log.trace == s.log.trace + [item]
    ensures var u := Messaged(r, m);
            Passes(s, u, reply, m.unsubscribe && m.count.None?)
  {
    MessagedCalm(r, m);
    HadOne(s, Messaged(r, m), item);
  }

  lemma UnknownCalm(s: Conn, reply: Obj)
    requires !Over(s)
    ensures Passes(s, Receiving(s, reply, Stale), reply, false)
  {
    HadOne(s, Receiving(s, reply, Stale), Arrival(Got(reply, Stale)));
  }

  lemma KnownCalm(s: Conn, reply: Obj, m: Message)
    requires m.Push? && !Over(s)
    ensures Passes(s, Messaged(Receiving(s, reply, ForMessage), m), reply, m.unsubscribe && m.count.None?)
    ensures Passes(s, Messaged(Marked(s, Stray(reply)), m), reply, m.unsubscribe && m.count.None?)
  {
    MarkedCalm(s, Marked(s, Stray(reply)), reply, m, Stray(reply));
    MarkedCalm(s, Receiving(s, reply, ForMessage), reply, m, Arrival(Got(reply, ForMessage)));
  }

  lemma PushCalm(s: Conn, reply: Obj, m: Message)
    requires m.Push? && !Over(s)
    ensures Passes(s, MessageDispatched(s, reply, m), reply, MessageFate(s, m).Fatal?)
  {
    UnknownCalm(s, reply);
    KnownCalm(s, reply, m);
    var u := MessageDispatched(s, reply, m);
    if m.name !in TableOf(s, m.pattern) {
      assert u == Receiving(s, reply, Stale);
    } else if m.unsubscribe && m.count.None? {
      assert u == Messaged(Marked(s, Stray(reply)), m);
    } else {
      assert u == Messaged(Receiving(s, reply, ForMessage), m);
    }
  }

  lemma AsideCalm(s: Conn, reply: Obj)
    requires !Over(s)
    ensures Passes(s, MessageDispatched(s, reply, NotMessage), reply, false)
  {
    HadOne(s, MessageDispatched(s, reply, NotMessage), Arrival(Got(reply, if s.invalid == [] then Stale else ForAside)));
  }

  lemma MessageCalm(s: Conn, reply: Obj, m: Message)
    requires !Over(s)
    ensures Passes(s, MessageDispatched(s, reply, m), reply, MessageFate(s, m).Fatal?)
  {
    match m
    case Unexpected => HadOne(s, MessageDispatched(s, reply, m), Stray(reply));
    case NotMessage => AsideCalm(s, reply);
    case Push(_, _, _, _) => PushCalm(s, reply, m);
  }

  lemma DispatchedCalm(s: Conn, reply: Obj)
    requires !Over(s)
    ensures var u := Dispatched(s, reply);
            && Passes(s, u, reply, FateOf(s, reply).Fatal?)
            && (FateOf(s, reply).Rejected? ==> u == Marked(s, Stray(reply)))
  {
    if s.replies != [] {
      HadOne(s, Dispatched(s, reply), Arrival(Got(reply, ForRegular)));
    } else if !s.subscribed {
      HadOne(s, Dispatched(s, reply), Stray(reply));
    } else {
      MessageCalm(s, reply, ReadMessage(reply));
    }
  }

  /** What the calls of one callback come to: the first free, or a command without arguments before the end has been
      asked for, is what counts. */
  ghost function CallsEnd(actions: seq<Action>, closed: bool): Ending
    decreases |actions|
  {
    if actions == [] then Goes
    else match actions[0]
      case Free => Frees
      case Disconnect => CallsEnd(actions[1..], true)
      case Send(_, argv) => if argv == [] && !closed then Aborts else CallsEnd(actions[1..], closed)
  }

  lemma SentFlags(s: Conn, who: Option<nat>, cb: Callback, argv: seq<seq<Byte>>)
    ensures var t := Sent(s, who, cb, argv);
            && t.freeing == s.freeing && t.disconnecting == s.disconnecting && t.freed == s.freed
            && t.aborted == (s.aborted || (argv == [] && !Closing(s)))
  {
    if argv != [] && !Closing(s) {
      FiledFlags(NoteMade(s, who, Send(cb, argv), Verdict(s, ClassOf(argv))), cb, Classify(argv));
    }
  }

  lemma FiledFlags(s: Conn, cb: Callback, cls: Class)
    ensures var t := Filed(s, cb, cls);
            && t.freeing == s.freeing && t.disconnecting == s.disconnecting && t.freed == s.freed && t.aborted == s.aborted
  {
  }

  lemma DoingFlags(s: Conn, n: nat, action: Action)
    ensures var t := Doing(s, n, action);
            && t.freed == s.freed && (t.freeing <==> s.freeing || action.Free?)
            && (t.disconnecting <==> s.disconnecting || action.Disconnect?)
            && (t.aborted <==> s.aborted || (action.Send? && action.argv == [] && !Closing(s)))
  {
    if action.Send? {
      SentFlags(s, Some(n), action.cb, action.argv);
    }
  }

  lemma {:induction false} DoingAllEnds(s: Conn, n: nat, actions: seq<Action>)
    requires !s.aborted && !s.freeing
    ensures var t := DoingAll(s, n, actions);
            && t.freed == s.freed && (t.aborted <==> CallsEnd(actions, Closing(s)) == Aborts)
            && (t.freeing <==> CallsEnd(actions, Closing(s)) == Frees)
    decreases |actions|
  {
    if actions != [] {
      var t := Doing(s, n, actions[0]);
      DoingFlags(s, n, actions[0]);
      if t.freeing {
        DoingAllStill(t, n, actions[1..]);
        DoingAllFreeing(t, n, actions[1..]);
      } else if !t.aborted {
        DoingAllEnds(t, n, actions[1..]);
      }
    }
  }

  lemma {:induction false} DoingAllFreeing(s: Conn, n: nat, actions: seq<Action>)
    requires s.freeing
    ensures DoingAll(s, n, actions).freeing
    decreases |actions|
  {
    if actions != [] && !s.aborted {
      DoingFlags(s, n, actions[0]);
      DoingAllFreeing(Doing(s, n, actions[0]), n, actions[1..]);
    }
  }

  /** What a callback comes to, if there is a function. */
  ghost function CallbackEnds(cb: Callback, env: Env, calls: nat, closed: bool): Ending {
    if cb.fn.None? then Goes else CallsEnd(env.react(calls), closed)
  }

  lemma CalledEnds(s: Conn, env: Env, cb: Callback, reply: Obj, why: Why)
    requires Iterates(env) && !Over(s) && !s.freeing
    ensures var t, end := Called(s, env, cb, reply, why), CallbackEnds(cb, env, s.calls, Closing(s));
            (t.freed <==> end == Frees) && (t.aborted <==> end == Aborts) && Had(s, t, [])
  {
    var t := Running(s, env, cb, Some(reply), why);
    RunningHad(s, env, cb, Some(reply), why);
    if cb.fn.Some? {
      DoingAllEnds(Starting(s, cb, Some(reply), why), s.calls, env.react(s.calls));
      if !t.aborted && t.freeing {
        TornDownRuns(t, env);
        HadAll(s, t, TornDown(t, env), []);
      }
    }
  }

  /** Exactly when a reply ends the connection: it is an error that nothing waits for, it fails an assertion, or the
      callback that runs for it asks for a free or makes a command without arguments. */
  lemma ReplyEnds(s: Conn, env: Env, reply: Obj, cb: Callback)
    requires Iterates(env) && !Over(s) && !s.freeing
    ensures var t, fate := Processed(s, env, reply, cb), FateOf(s, reply);
            var end := if fate.Rejected? then Frees else if fate.Fatal? then Aborts
                       else CallbackEnds(Target(fate, cb), env, s.calls, Closing(s));
            && (t.freed <==> end == Frees) && (t.aborted <==> end == Aborts)
            && (fate.Rejected? ==> FreedFrom(s, t, env)) && Had(s, t, [Replies(reply)])
  {
    var u, fate := Dispatched(s, reply), FateOf(s, reply);
    DispatchedCalm(s, reply);
    match fate
    case Rejected =>
      DisconnectedRuns(u.(err := true), env);
      HadAll(s, u, Disconnected(u.(err := true), env), [Replies(reply)]);
      assert Subscribers(u, env, false) == Subscribers(s, env, false);
      assert Subscribers(u, env, true) == Subscribers(s, env, true);
    case Fatal =>
    case Taken(cb', why) =>
      CalledEnds(u, env, cb', reply, why);
      HadAll(s, u, Called(u, env, cb', reply, why), [Replies(reply)]);
    case Untaken =>
      CalledEnds(u, env, cb, reply, Stale);
      HadAll(s, u, Called(u, env, cb, reply, Stale), [Replies(reply)]);
  }

  // ----- Whole runs -----

  lemma {:induction false} RepliedHad(s: Conn, env: Env, inbox: seq<Obj>, cb: Callback) returns (k: nat)
    requires Iterates(env) && !Over(s) && !s.freeing
    ensures var t := Replied(s, env, inbox, cb);
            && k <= |inbox| && Had(s, t, InboxStimuli(inbox[..k])) && (!Over(t) ==> k == |inbox| && !t.freeing)
    decreases |inbox|, 1
  {
    if inbox == [] {
      k := 0;
      HadNothing(s, s);
    } else {
      ReplyEnds(s, env, inbox[0], cb);
      ReplyGoes(s, env, inbox[0], cb);
      k := RestHad(s, Processed(s, env, inbox[0], cb), env, inbox, Target(FateOf(s, inbox[0]), cb));
    }
  }

  lemma {:induction false} RestHad(s: Conn, t: Conn, env: Env, inbox: seq<Obj>, cb: Callback) returns (k: nat)
    requires Iterates(env) && inbox != [] && Had(s, t, [Replies(inbox[0])]) && (!Over(t) ==> !t.freeing)
    ensures var u := Replied(t, env, inbox[1..], cb);
            && k <= |inbox| && Had(s, u, InboxStimuli(inbox[..k])) && (!Over(u) ==> k == |inbox| && !u.freeing)
    decreases |inbox|, 0
  {
    k := 1;
    assert InboxStimuli(inbox[..1]) == [Replies(inbox[0])];
    if !Over(t) {
      var j := RepliedHad(t, env, inbox[1..], cb);
      k := j + 1;
      HadTwice(s, t, Replied(t, env, inbox[1..], cb), [Replies(inbox[0])], InboxStimuli(inbox[1..][..j]));
      InboxNext(inbox, j);
    }
  }

  lemma InboxNext(inbox: seq<Obj>, j: nat)
    requires j < |inbox|
    ensures [Replies(inbox[0])] + InboxStimuli(inbox[1..][..j]) == InboxStimuli(inbox[..j + 1])
  {
  }

  /** A connection that outlives a reply has not been asked to free itself. */
  lemma ReplyGoes(s: Conn, env: Env, reply: Obj, cb: Callback)
    requires Iterates(env) && !Over(s) && !s.freeing
    ensures var t := Processed(s, env, reply, cb); !Over(t) ==> !t.freeing
  {
    var u, fate := Dispatched(s, reply), FateOf(s, reply);
    DispatchedCalm(s, reply);
    if fate.Rejected? {
      DisconnectedEnds(u.(err := true), env);
    } else if !fate.Fatal? {
      CalledGoes(u, env, Target(fate, cb), reply, if fate.Taken? then fate.why else Stale);
    }
  }

  lemma CalledGoes(s: Conn, env: Env, cb: Callback, reply: Obj, why: Why)
    requires Iterates(env) && !Over(s) && !s.freeing
    ensures var t := Called(s, env, cb, reply, why); !Over(t) ==> !t.freeing
  {
    var t := Running(s, env, cb, Some(reply), why);
    if cb.fn.Some? && !t.aborted && t.freeing {
      TornDownEnds(t, env);
    }
  }

  /** How a read event ends, once its replies are dealt with. */
  lemma ReadOutHad(s: Conn, env: Env, failed: bool)
    requires Iterates(env) && !Over(s) && !s.freeing && !s.err
    ensures var t := ReadOut(s, env, failed);
            && Had(s, t, [EndsRead(failed)])
            && (if failed then FreedFrom(s, t, env)
                else if !s.disconnecting || s.obuf != [] then t == Marked(s, ReadEnd(false))
                else if s.replies != [] then t.aborted && !t.freed
                else FreedFrom(s, t, env))
  {
    var u, t := Marked(s, ReadEnd(failed)), ReadOut(s, env, failed);
    HadOne(s, u, ReadEnd(failed));
    assert Subscribers(u, env, false) == Subscribers(s, env, false);
    assert Subscribers(u, env, true) == Subscribers(s, env, true);
    if failed {
      DisconnectedRuns(u.(err := true), env);
      HadAll(s, u, t, [EndsRead(failed)]);
    } else if s.disconnecting && s.obuf == [] {
      DisconnectedRuns(u, env);
      HadAll(s, u, t, [EndsRead(failed)]);
    }
  }

  lemma ReadHad(s: Conn, env: Env, inbox: seq<Obj>, failed: bool, cb: Callback) returns (x: seq<Stimulus>)
    requires Iterates(env) && !Over(s) && !s.freeing
    requires !Over(Replied(s, env, inbox, cb)) ==> !Replied(s, env, inbox, cb).err
    ensures var t := ProcessedAll(s, env, inbox, failed, cb);
            && Had(s, t, x) && x <= InboxStimuli(inbox) + [EndsRead(failed)]
            && (!Over(t) ==> x == InboxStimuli(inbox) + [EndsRead(failed)])
  {
    var k := RepliedHad(s, env, inbox, cb);
    var r := Replied(s, env, inbox, cb);
    x := InboxStimuli(inbox[..k]);
    assert x == InboxStimuli(inbox)[..k];
    if !Over(r) {
      ReadOutHad(r, env, failed);
      HadTwice(s, r, ReadOut(r, env, failed), x, [EndsRead(failed)]);
      x := x + [EndsRead(failed)];
    }
  }

  lemma ActedHad(s: Conn, env: Env, action: Action)
    requires Iterates(env) && !Over(s) && !s.err
    ensures var t := Acted(s, env, action);
            && Had(s, t, [Asks(action)])
            && match action
               case Send(_, argv) => !t.freed && (t.aborted <==> argv == [] && !Closing(s))
               case Disconnect => if s.replies == [] then FreedFrom(s, t, env) else !Over(t)
               case Free => FreedFrom(s, t, env)
  {
    match action
    case Send(cb, argv) =>
      SentHad(s, None, cb, argv);
      SentFlags(s, None, cb, argv);
    case Disconnect =>
      var u := NoteMade(s.(disconnecting := true), None, Disconnect, Noted);
      HadOne(s, u, Call(Made(None, Disconnect, Noted)));
      assert Subscribers(u, env, false) == Subscribers(s, env, false);
      assert Subscribers(u, env, true) == Subscribers(s, env, true);
      if s.replies == [] {
        DisconnectedRuns(u, env);
        HadAll(s, u, Disconnected(u, env), [Asks(action)]);
      }
    case Free =>
      var u := NoteMade(s.(freeing := true), None, Free, Noted);
      HadOne(s, u, Call(Made(None, Free, Noted)));
      assert Subscribers(u, env, false) == Subscribers(s, env, false);
      assert Subscribers(u, env, true) == Subscribers(s, env, true);
      TornDownRuns(u, env);
      HadAll(s, u, TornDown(u, env), [Asks(action)]);
  }

  lemma BrokenHad(s: Conn, env: Env)
    requires Iterates(env) && !Over(s)
    ensures var t := Handled(s, env, SocketError); Had(s, t, [Breaks]) && FreedFrom(s, t, env)
  {
    var u := Marked(s, Broken).(err := true);
    HadOne(s, u, Broken);
    DisconnectedRuns(u, env);
    HadAll(s, u, Disconnected(u, env), [Breaks]);
    assert Subscribers(u, env, false) == Subscribers(s, env, false);
    assert Subscribers(u, env, true) == Subscribers(s, env, true);
  }

  lemma AliveAfterReplies(s: Conn, env: Env, inbox: seq<Obj>, cb: Callback)
    requires Iterates(env) && Alive(s, env)
    ensures var r := Replied(s, env, inbox, cb); !Over(r) ==> Alive(r, env)
  {
    var k := RepliedLives(s, env, inbox, cb);
  }

  lemma WrittenHad(s: Conn, n: nat)
    ensures Had(s, Written(s, n), [Writes(n)])
  {
    HadOne(s, Written(s, n), Wrote(n));
  }

  lemma HandledHad(s: Conn, env: Env, event: Event) returns (x: seq<Stimulus>)
    requires Iterates(env) && Alive(s, env)
    ensures var t := Handled(s, env, event);
            Had(s, t, x) && x <= StimuliOf(event) && (!Over(t) ==> x == StimuliOf(event))
  {
    x := StimuliOf(event);
    match event
    case Act(action) => ActedHad(s, env, action);
    case Readable(inbox, failed, garbage) =>
      AliveAfterReplies(s, env, inbox, garbage);
      x := ReadHad(s, env, inbox, failed, garbage);
    case Writable(n) => WrittenHad(s, n);
    case SocketError => BrokenHad(s, env);
  }

  lemma HandledAlive(s: Conn, env: Env, event: Event)
    requires Iterates(env) && Alive(s, env)
    ensures var t := Handled(s, env, event); !Over(t) ==> Alive(t, env)
  {
    var k := HandledLives(s, env, event);
  }

  lemma {:induction false} HandledAllHad(s: Conn, env: Env, events: seq<Event>) returns (x: seq<Stimulus>)
    requires Iterates(env) && (Over(s) || Alive(s, env))
    ensures var t := HandledAll(s, env, events);
            Had(s, t, x) && x <= Stimuli(events) && (!Over(t) ==> x == Stimuli(events) && Alive(t, env))
    decreases |events|
  {
    x := [];
    if events == [] || Over(s) {
      HadNothing(s, s);
    } else {
      var t := Handled(s, env, events[0]);
      HandledAlive(s, env, events[0]);
      var y := HandledHad(s, env, events[0]);
      var z := HandledAllHad(t, env, events[1..]);
      x := y + z;
      HadTwice(s, t, HandledAll(t, env, events[1..]), y, z);
      if Over(t) {
        HadNothing(t, t);
        assert z == [];
      }
    }
  }

  /** What a run has had from outside is what its events bring, in their order, and all of it while it goes on. */
  ghost predicate Follows(s: Conn, events: seq<Event>) {
    External(s.log.trace) <= Stimuli(events) && (!Over(s) ==> External(s.log.trace) == Stimuli(events))
  }

  lemma RunFollows(env: Env, events: seq<Event>)
    requires Iterates(env)
    ensures var s := HandledAll(INITIAL_CONN, env, events); Follows(s, events) && (!Over(s) ==> Alive(s, env))
  {
    InitialGood(env);
    var x := HandledAllHad(INITIAL_CONN, env, events);
    assert [] + x == x;
  }

  // ----- When a run ends -----

  /** A free from outside, a failed read and a broken socket end the connection whatever came before. */
  ghost predicate Ends(x: Stimulus) {
    x == Asks(Free) || x == Breaks || x == EndsRead(true)
  }

  lemma {:induction false} EndsInTrace(trace: seq<Item>, tornAt: Option<nat>, x: Stimulus)
    requires Lawful(trace, tornAt) && x in External(trace) && Ends(x)
    ensures EndOf(trace) == Frees
  {
    var front, last := trace[..|trace| - 1], trace[|trace| - 1];
    if x in External(front) {
      EndsInTrace(front, tornAt, x);
    } else {
      assert x in Outside(last);
    }
  }

  /** Such a thing from outside has freed the connection, with its last callback run. */
  lemma RunEnds(env: Env, events: seq<Event>, x: Stimulus)
    requires Iterates(env) && Ends(x) && x in External(HandledAll(INITIAL_CONN, env, events).log.trace)
    ensures HandledAll(INITIAL_CONN, env, events).freed
  {
    var s := HandledAll(INITIAL_CONN, env, events);
    RunPromised(env, events);
    EndsInTrace(s.log.trace, s.log.tornAt, x);
  }

  lemma {:induction false} StimuliHave(events: seq<Event>, i: nat, x: Stimulus)
    requires i < |events| && x in StimuliOf(events[i])
    ensures x in Stimuli(events)
    decreases |events|
  {
    if i > 0 {
      StimuliHave(events[1..], i - 1, x);
    }
  }

  /** A run that goes on has had no such event. */
  lemma RunGoesOn(env: Env, events: seq<Event>, i: nat)
    requires Iterates(env) && i < |events| && !Over(HandledAll(INITIAL_CONN, env, events))
    ensures events[i] != Act(Free) && events[i] != SocketError && !(events[i].Readable? && events[i].failed)
  {
    RunFollows(env, events);
    var x := EndingOf(events[i]);
    if Ends(x) {
      StimuliHave(events, i, x);
      RunEnds(env, events, x);
    }
  }

  /** The last thing that an event brings. */
  ghost function EndingOf(e: Event): (x: Stimulus)
    ensures x in StimuliOf(e)
    ensures Ends(x) <==> e == Act(Free) || e == SocketError || (e.Readable? && e.failed)
  {
    var s := StimuliOf(e);
    assert s[|s| - 1] in s;
    s[|s| - 1]
  }

  /** A connection that is over was ended by one item, which came while it still went on. */
  lemma {:induction false} EndedBy(trace: seq<Item>) returns (k: nat)
    requires EndOf(trace) != Goes
    ensures k < |trace| && EndOf(trace[..k]) == Goes && EndsAt(trace[..k], trace[k]) == EndOf(trace)
  {
    var n := |trace| - 1;
    if EndOf(trace[..n]) == Goes {
      k := n;
    } else {
      k := EndedBy(trace[..n]);
      assert trace[..n][..k] == trace[..k];
    }
  }

  /** Freed only so: by a free, a disconnect from outside with no regular command waiting, an error reply that nothing
      waits for, a failed read, a read that ends with a disconnect asked for, nothing unsent and nothing waiting, or a
      broken socket. */
  lemma FreedOnlyBy(env: Env, events: seq<Event>) returns (k: nat)
    requires Iterates(env) && HandledAll(INITIAL_CONN, env, events).freed
    ensures var trace := HandledAll(INITIAL_CONN, env, events).log.trace;
            && k < |trace| && EndOf(trace[..k]) == Goes
            && var front := trace[..k];
               match trace[k]
               case Call(m) => m.action.Free? || (m.action.Disconnect? && m.who.None? && Regulars(front) <= 0)
               case Arrival(_) => false
               case Stray(reply) => !SubscribedIn(front) && IsError(reply)
               case ReadEnd(failed) => failed || (Leaving(CallsIn(front)) && Unsent(front) == 0 && Regulars(front) <= 0)
               case Broken => true
               case Wrote(_) => false
  {
    RunPromised(env, events);
    k := EndedBy(HandledAll(INITIAL_CONN, env, events).log.trace);
  }

  // ----- One more event -----

  lemma {:induction false} HandledAllOne(s: Conn, env: Env, events: seq<Event>, e: Event)
    requires Iterates(env)
    ensures var t := HandledAll(s, env, events);
            HandledAll(s, env, events + [e]) == if Over(t) then t else Handled(t, env, e)
    decreases |events|
  {
    if events == [] {
      assert [] + [e] == [e] && [e][1..] == [];
    } else {
      assert (events + [e])[0] == events[0] && (events + [e])[1..] == events[1..] + [e];
      if !Over(s) {
        HandledAllOne(Handled(s, env, events[0]), env, events[1..], e);
      }
    }
  }

  /** How a read event turns out, once its replies are dealt with and the connection has outlived them. */
  ghost predicate ReadResult(r: Conn, t: Conn, env: Env, failed: bool)
    requires Iterates(env)
  {
    if failed then FreedFrom(r, t, env)
    else if !Leaving(r.log.made) || Unsent(r.log.trace) > 0 then !Over(t)
    else if Regulars(r.log.trace) > 0 then t.aborted && !t.freed
    else FreedFrom(r, t, env)
  }

  /** What an event does to a connection that lives. */
  ghost predicate EventResult(s: Conn, t: Conn, env: Env, e: Event)
    requires Iterates(env)
  {
    match e
    case Act(Free) => FreedFrom(s, t, env)
    case Act(Disconnect) => if Regulars(s.log.trace) <= 0 then FreedFrom(s, t, env) else !Over(t)
    case Act(Send(_, argv)) => !t.freed && (t.aborted <==> argv == [] && !Closed(s.log.made))
    case Readable(inbox, failed, garbage) =>
      var r := Replied(s, env, inbox, garbage);
      if Over(r) then t == r else ReadResult(r, t, env, failed)
    case Writable(_) => !Over(t)
    case SocketError => FreedFrom(s, t, env)
  }

  lemma RegularsAre(s: Conn, env: Env)
    requires Alive(s, env)
    ensures Regulars(s.log.trace) == |s.replies| && Unsent(s.log.trace) == |s.obuf|
    ensures (s.disconnecting <==> Leaving(s.log.made)) && (Closing(s) <==> Closed(s.log.made))
  {
    WaitingIs(s);
  }

  lemma ReadResults(s: Conn, env: Env, inbox: seq<Obj>, failed: bool, garbage: Callback)
    requires Iterates(env) && Alive(s, env)
    ensures EventResult(s, Handled(s, env, Readable(inbox, failed, garbage)), env, Readable(inbox, failed, garbage))
  {
    var r := Replied(s, env, inbox, garbage);
    AliveAfterReplies(s, env, inbox, garbage);
    if !Over(r) {
      Going(r, env);
      RegularsAre(r, env);
      ReadOutHad(r, env, failed);
    }
  }

  lemma HandledResult(s: Conn, env: Env, e: Event)
    requires Iterates(env) && Alive(s, env)
    ensures EventResult(s, Handled(s, env, e), env, e)
  {
    RegularsAre(s, env);
    match e
    case Act(action) => ActedHad(s, env, action);
    case Readable(inbox, failed, garbage) => ReadResults(s, env, inbox, failed, garbage);
    case Writable(n) =>
    case SocketError => BrokenHad(s, env);
  }

  /** One more event on any run that goes on: exactly when it frees the connection or fails an assertion, and that then
      every record is answered with null and every subscriber runs. */
  lemma NextEvent(env: Env, events: seq<Event>, e: Event)
    requires Iterates(env) && !Over(HandledAll(INITIAL_CONN, env, events))
    ensures EventResult(HandledAll(INITIAL_CONN, env, events), HandledAll(INITIAL_CONN, env, events + [e]), env, e)
  {
    RunFollows(env, events);
    HandledAllOne(INITIAL_CONN, env, events, e);
    HandledResult(HandledAll(INITIAL_CONN, env, events), env, e);
  }
}
