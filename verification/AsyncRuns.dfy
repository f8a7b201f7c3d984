/** What the asynchronous connection of async.c owes its user over every run. */
module AsyncRuns {
  import opened Resp
  import opened Reply
  import opened Command
  import opened CallbackList
  import opened PubSub
  import opened AsyncSpec
  import opened AsyncTrace

  // ----- The invariant of every run -----

  /** Records leave a queue in the order they were issued, each once. */
  ghost predicate InOrder(issued: seq<Callback>, answered: seq<Answer>) {
    |answered| <= |issued| && forall i :: 0 <= i < |answered| ==> answered[i].cb == issued[i]
  }

  /** The i-th record answered got the i-th reply for such a record, or none once teardown had begun. */
  ghost predicate Paired(answered: seq<Answer>, replies: seq<Obj>, torn: bool) {
    && |replies| <= |answered| && (!torn ==> |replies| == |answered|)
    && forall i :: 0 <= i < |answered| ==> answered[i].reply == if i < |replies| then Some(replies[i]) else None
  }

  /** A queue holds exactly what was accepted and not answered yet. */
  ghost predicate Holds(queue: seq<Callback>, issued: seq<Callback>, answered: seq<Answer>) {
    InOrder(issued, answered) && queue == issued[|answered|..]
  }

  /** Queues and tables against the calls and messages so far. An aborted connection may have lost a record. */
  ghost predicate Queues(s: Conn, torn: bool) {
    && InOrder(Cbs(s.log.made, Queued), s.log.answered)
    && (!s.aborted ==> Holds(s.replies, Cbs(s.log.made, Queued), s.log.answered))
    && Holds(s.invalid, Cbs(s.log.made, QueuedAside), s.log.answeredAside)
    && Tracks(s.channels, s.log.history, false) && Tracks(s.patterns, s.log.history, true)
    && (s.subscribed ==> s.log.history != [])
    && (Closed(s.log.made) ==> Closing(s)) && (!torn && Closing(s) ==> Closed(s.log.made))
    && (torn <==> s.log.tornAt.Some?) && (torn ==> s.log.tornAt.value <= s.calls && Closing(s))
  }

  /** The state against the one order of calls and replies, which obeys the law; and the output against the calls. */
  ghost predicate Traced(s: Conn) {
    && s.log.made == CallsIn(s.log.trace) && s.log.received == GotIn(s.log.trace)
    && (!s.aborted ==> s.log.history == HistoryOf(s.log.trace) && (s.subscribed <==> SubscribedIn(s.log.trace)))
    && Lawful(s.log.trace, s.log.tornAt)
    && s.log.written + s.obuf == Output(s.log.made) && |s.obuf| == Unsent(s.log.trace)
    && (s.log.tornAt.None? ==> (s.disconnecting <==> Leaving(s.log.made)))
  }

  /** The connection is as its trace says that it ends. A callback that has asked for a free may still go on. */
  ghost predicate Fair(s: Conn) {
    EndOf(s.log.trace) == if s.aborted then Aborts else if s.freeing || s.log.tornAt.Some? then Frees else Goes
  }

  /** Between events: it is freed, or has failed an assertion, exactly when its trace says so. */
  ghost predicate Ended(s: Conn) {
    (s.freed <==> EndOf(s.log.trace) == Frees) && (s.aborted <==> EndOf(s.log.trace) == Aborts) && (s.err ==> Over(s))
  }

  /** Answers against replies, and callbacks run against answers. */
  ghost predicate Settled(received: seq<Got>, ran: seq<Ran>, answered: seq<Answer>, why: Why, torn: bool) {
    Paired(answered, Picked(received, why), torn) && Runs(ran, why) == WithFn(answered)
  }

  /** Both kinds of commands are settled. A message for a known name has run the callback of the latest subscribe for
      it. Without a subscription every reply was for a regular command. */
  ghost predicate Accounts(log: Log, calls: nat, torn: bool) {
    && Settled(log.received, log.ran, log.answered, ForRegular, torn)
    && Settled(log.received, log.ran, log.answeredAside, ForAside, torn)
    && Runs(log.ran, ForMessage) == WithFn(Deliveries(log.trace))
    && |log.ran| == calls && (!torn ==> Runs(log.ran, ForTable) == [])
    && (log.history == [] ==> forall i :: 0 <= i < |log.received| ==> log.received[i].why == ForRegular)
  }

  ghost predicate Kept(s: Conn, torn: bool) {
    Queues(s, torn) && Accounts(s.log, s.calls, torn)
  }

  // ----- Calls -----

  ghost function NotedLog(log: Log, m: Made): Log {
    log.(trace := log.trace + [Call(m)], made := log.made + [m])
  }

  /** A call that changes nothing but the log, or asks for the end. */
  lemma NotedQueues(s: Conn, t: Conn, m: Made, torn: bool)
    requires Queues(s, torn) && t.log == NotedLog(s.log, m) && t.calls == s.calls
    requires m.effect != Queued && m.effect != QueuedAside
    requires t.replies == s.replies && t.invalid == s.invalid && t.channels == s.channels && t.patterns == s.patterns
    requires t.subscribed == s.subscribed && (t.aborted == s.aborted || t.aborted)
    requires Closing(t) <==> Closing(s) || !m.action.Send?
    ensures Queues(t, torn)
  {
    MadeOne(s.log.made, m, Queued, m.who);
    MadeOne(s.log.made, m, QueuedAside, m.who);
  }

  lemma HoldsPush(queue: seq<Callback>, issued: seq<Callback>, answered: seq<Answer>, cb: Callback)
    requires Holds(queue, issued, answered)
    ensures Holds(queue + [cb], issued + [cb], answered) && issued + [] == issued
  {
  }

  lemma QueuedQueues(s: Conn, t: Conn, m: Made, torn: bool)
    requires Queues(s, torn) && !Closing(s) && !s.aborted && m.action.Send?
    requires m.effect == if s.subscribed then QueuedAside else Queued
    requires t == s.(log := NotedLog(s.log, m), obuf := t.obuf, replies := t.replies, invalid := t.invalid)
    requires t.replies == (if s.subscribed then s.replies else s.replies + [m.action.cb])
    requires t.invalid == (if s.subscribed then s.invalid + [m.action.cb] else s.invalid)
    ensures Queues(t, torn)
  {
    MadeOne(s.log.made, m, Queued, m.who);
    MadeOne(s.log.made, m, QueuedAside, m.who);
    HoldsPush(s.replies, Cbs(s.log.made, Queued), s.log.answered, m.action.cb);
    HoldsPush(s.invalid, Cbs(s.log.made, QueuedAside), s.log.answeredAside, m.action.cb);
  }

  lemma RegisteredQueues(s: Conn, m: Made, pattern: bool, names: seq<seq<Byte>>, obuf: seq<Byte>, torn: bool)
    requires Queues(s, torn) && !Closing(s) && m.action.Send? && m.effect == Registered && names != []
    ensures Queues(Registering(s.(log := NotedLog(s.log, m)), m.action.cb, pattern, names).(obuf := obuf), torn)
  {
    MadeOne(s.log.made, m, Queued, m.who);
    MadeOne(s.log.made, m, QueuedAside, m.who);
    TracksAll(s.channels, s.log.history, false, pattern, names, m.action.cb);
    TracksAll(s.patterns, s.log.history, true, pattern, names, m.action.cb);
  }

  lemma FiledQueues(s: Conn, who: Option<nat>, action: Action, cls: Option<Class>, cmd: seq<Byte>, torn: bool)
    requires Queues(s, torn) && !s.aborted && action.Send?
    requires cls.Some? && cls.value.Subscribe? ==> cls.value.names != []
    ensures var t := NoteMade(s, who, action, Verdict(s, cls));
            Queues(if Closing(s) then t else Submitted(t, action.cb, cls, cmd), torn)
  {
    var m := Made(who, action, Verdict(s, cls));
    var t := NoteMade(s, who, action, m.effect);
    if m.effect == Queued || m.effect == QueuedAside {
      QueuedQueues(s, Submitted(t, action.cb, cls, cmd), m, torn);
    } else if m.effect == Registered {
      RegisteredQueues(s, m, cls.value.pattern, cls.value.names, s.obuf + cmd, torn);
    } else {
      NotedQueues(s, if Closing(s) then t else Submitted(t, action.cb, cls, cmd), m, torn);
    }
  }

  /** What a call cannot touch. */
  ghost predicate Same(s: Conn, t: Conn) {
    && t.calls == s.calls && t.freed == s.freed && t.err == s.err && t.log.received == s.log.received
    && t.log.answered == s.log.answered && t.log.answeredAside == s.log.answeredAside && t.log.ran == s.log.ran
    && s.log.history <= t.log.history && t.log.tornAt == s.log.tornAt
    && Deliveries(t.log.trace) == Deliveries(s.log.trace)
  }

  lemma FiledSame(s: Conn, cb: Callback, cls: Class)
    ensures Same(s, Filed(s, cb, cls)) && Filed(s, cb, cls).log.made == s.log.made
    ensures Filed(s, cb, cls).log.trace == s.log.trace && Filed(s, cb, cls).log.written == s.log.written
  {
    match cls
    case Subscribe(_, _) => assert s.log.history <= Filed(s, cb, cls).log.history;
    case Unsubscribe =>
    case Regular =>
  }

  lemma SubmittedSame(s: Conn, cb: Callback, cls: Option<Class>, cmd: seq<Byte>)
    ensures Same(s, Submitted(s, cb, cls, cmd)) && Submitted(s, cb, cls, cmd).log.made == s.log.made
  {
    if cls.Some? {
      FiledSame(s, cb, cls.value);
    }
  }

  /** `t` is `s` after a call that is logged as `m`. */
  ghost predicate Step(s: Conn, t: Conn, m: Made, torn: bool) {
    Queues(t, torn) && Traced(t) && Same(s, t) && t.log.made == s.log.made + [m]
  }

  /** Calls by callbacks that teardown runs. */
  ghost predicate Placed(who: Option<nat>, tornAt: Option<nat>) {
    tornAt.Some? ==> who.Some? && who.value >= tornAt.value
  }

  /** A command is judged as the connection stands. */
  lemma VerdictLaw(s: Conn, m: Made, cls: Option<Class>, torn: bool)
    requires Queues(s, torn) && Traced(s) && !s.aborted && m.action.Send? && m.effect == Verdict(s, cls)
    requires Placed(m.who, s.log.tornAt)
    ensures CallLaw(m, cls, Closed(CallsIn(s.log.trace)), SubscribedIn(s.log.trace), s.log.tornAt)
  {
  }

  /** What a command does to the state is what its effect means for the trace and the output. */
  lemma FiledTraced(s: Conn, u: Conn, m: Made, cls: Option<Class>)
    requires Traced(s) && !s.aborted && m.action.Send? && cls == CallClass(m)
    requires CallLaw(m, cls, Closed(CallsIn(s.log.trace)), SubscribedIn(s.log.trace), s.log.tornAt)
    requires EndLaw(EndOf(s.log.trace), Call(m)) && u.disconnecting == s.disconnecting
    requires u.log.trace == s.log.trace + [Call(m)] && u.log.made == s.log.made + [m] && u.log.received == s.log.received
    requires !u.aborted ==> u.log.history == s.log.history + CallChange(m, cls)
    requires !u.aborted ==> (u.subscribed <==> m.effect == Registered || s.subscribed)
    requires u.log.tornAt == s.log.tornAt && u.log.written == s.log.written && u.obuf == s.obuf + Bytes(m)
    ensures Traced(u) && Deliveries(u.log.trace) == Deliveries(s.log.trace)
  {
    CallOne(s.log.trace, m, cls);
    LawfulOne(s.log.trace, Call(m), s.log.tornAt);
    OutputOne(s.log.made, m);
    LeavingOne(s.log.made, m);
    Assoc(s.log.written, s.obuf, Bytes(m));
  }

  /** A command, as the state has it. */
  lemma SubmittedEffect(s: Conn, m: Made, cls: Option<Class>, cmd: seq<Byte>)
    requires !s.aborted && m.action.Send? && m.effect == Verdict(s, cls)
    ensures var t := s.(log := NotedLog(s.log, m));
            var u := if Closing(s) then t else Submitted(t, m.action.cb, cls, cmd);
            && u.log.trace == s.log.trace + [Call(m)] && u.log.made == s.log.made + [m]
            && u.log.received == s.log.received && u.log.tornAt == s.log.tornAt && u.log.written == s.log.written
            && (!u.aborted ==> u.log.history == s.log.history + CallChange(m, cls))
            && (!u.aborted ==> (u.subscribed <==> m.effect == Registered || s.subscribed))
            && u.disconnecting == s.disconnecting && u.freeing == s.freeing
            && (u.aborted <==> !Closing(s) && cls.None?)
            && u.obuf == if m.effect.Refused? then s.obuf else s.obuf + cmd
  {
    assert s.log.history + [] == s.log.history;
  }

  /** A call by a callback, or by anyone while the connection goes on. */
  ghost predicate May(s: Conn, who: Option<nat>) {
    Placed(who, s.log.tornAt) && Fair(s) && (who.None? ==> EndOf(s.log.trace) == Goes)
  }

  /** A command without arguments ends the connection when it is not refused, and no other command does. */
  lemma SentFair(s: Conn, u: Conn, m: Made, torn: bool)
    requires Queues(s, torn) && Traced(s) && Fair(s) && !s.aborted && m.action.Send?
    requires u.log.trace == s.log.trace + [Call(m)] && u.freeing == s.freeing && u.log.tornAt == s.log.tornAt
    requires u.aborted <==> !Closing(s) && m.action.argv == []
    ensures Fair(u)
  {
    EndOne(s.log.trace, Call(m));
  }

  /** A command keeps the trace. */
  lemma SentTraced(s: Conn, who: Option<nat>, cb: Callback, argv: seq<seq<Byte>>, torn: bool)
    requires Queues(s, torn) && Traced(s) && !s.aborted && May(s, who)
    ensures var u := Sent(s, who, cb, argv); Traced(u) && Fair(u) && Deliveries(u.log.trace) == Deliveries(s.log.trace)
  {
    var cls := ClassOf(argv);
    var m := Made(who, Send(cb, argv), Verdict(s, cls));
    VerdictLaw(s, m, cls, torn);
    SubmittedEffect(s, m, cls, Format(argv));
    assert s.obuf + [] == s.obuf;
    FiledTraced(s, Sent(s, who, cb, argv), m, cls);
    SentFair(s, Sent(s, who, cb, argv), m, torn);
  }

  /** A command keeps the queues, the tables and the trace. */
  lemma SentKept(s: Conn, who: Option<nat>, cb: Callback, argv: seq<seq<Byte>>, torn: bool)
    requires Queues(s, torn) && Traced(s) && !s.aborted && May(s, who)
    ensures Step(s, Sent(s, who, cb, argv), Made(who, Send(cb, argv), Verdict(s, ClassOf(argv))), torn)
    ensures Fair(Sent(s, who, cb, argv))
  {
    FiledQueues(s, who, Send(cb, argv), ClassOf(argv), Format(argv), torn);
    SentTraced(s, who, cb, argv, torn);
    SubmittedSame(NoteMade(s, who, Send(cb, argv), Verdict(s, ClassOf(argv))), cb, ClassOf(argv), Format(argv));
  }

  lemma NotedTraced(s: Conn, u: Conn, m: Made)
    requires Traced(s) && !m.action.Send? && m.effect == Noted && u.log == NotedLog(s.log, m)
    requires u.aborted == s.aborted && u.subscribed == s.subscribed && u.obuf == s.obuf
    requires EndLaw(EndOf(s.log.trace), Call(m)) && (u.disconnecting <==> s.disconnecting || m.action.Disconnect?)
    ensures Traced(u) && Deliveries(u.log.trace) == Deliveries(s.log.trace)
  {
    LeavingOne(s.log.made, m);
    CallOne(s.log.trace, m, None);
    LawfulOne(s.log.trace, Call(m), s.log.tornAt);
    OutputOne(s.log.made, m);
    assert Output(s.log.made) + [] == Output(s.log.made);
    assert HistoryOf(s.log.trace) + [] == HistoryOf(s.log.trace);
  }

  /** Asking for the end keeps them too. */
  lemma NotedKept(s: Conn, who: Option<nat>, action: Action, torn: bool)
    requires Queues(s, torn) && Traced(s) && !s.aborted && May(s, who)
    ensures action.Disconnect? ==> Step(s, NoteMade(s.(disconnecting := true), who, action, Noted), Made(who, action, Noted), torn)
    ensures action.Free? ==> Step(s, NoteMade(s.(freeing := true), who, action, Noted), Made(who, action, Noted), torn)
  {
    var m := Made(who, action, Noted);
    if action.Disconnect? {
      var u := NoteMade(s.(disconnecting := true), who, action, Noted);
      NotedQueues(s, u, m, torn);
      NotedTraced(s, u, m);
    } else if action.Free? {
      var u := NoteMade(s.(freeing := true), who, action, Noted);
      NotedQueues(s, u, m, torn);
      NotedTraced(s, u, m);
    }
  }

  /** What asking for the end does to the trace. */
  lemma NotedEnds(s: Conn, m: Made)
    requires !m.action.Send?
    ensures EndOf(s.log.trace + [Call(m)]) ==
              if EndOf(s.log.trace) != Goes then EndOf(s.log.trace)
              else if m.action.Free? || (m.who.None? && Regulars(s.log.trace) <= 0) then Frees else Goes
  {
    EndOne(s.log.trace, Call(m));
  }

  // ----- Callbacks -----

  ghost function DoneEffect(s: Conn, action: Action): Effect {
    if action.Send? then Verdict(s, ClassOf(action.argv)) else Noted
  }

  lemma DoingKept(s: Conn, n: nat, action: Action, torn: bool)
    requires Queues(s, torn) && Traced(s) && !s.aborted && May(s, Some(n))
    ensures Step(s, Doing(s, n, action), Made(Some(n), action, DoneEffect(s, action)), torn)
    ensures Fair(Doing(s, n, action))
  {
    match action
    case Send(cb, argv) => SentKept(s, Some(n), cb, argv, torn);
    case Disconnect =>
      NotedKept(s, Some(n), action, torn);
      NotedEnds(s, Made(Some(n), action, Noted));
    case Free =>
      NotedKept(s, Some(n), action, torn);
      NotedEnds(s, Made(Some(n), action, Noted));
  }

  /** The log of calls gains `actions`, all by one callback. */
  ghost predicate Added(made: seq<Made>, made': seq<Made>, who: Option<nat>, actions: seq<Action>) {
    && By(made', who) == By(made, who) + actions
    && (forall w :: w != who ==> By(made', w) == By(made, w))
  }

  lemma AddedOne(made: seq<Made>, m: Made)
    ensures Added(made, made + [m], m.who, [m.action])
  {
    forall w
      ensures By(made + [m], w) == By(made, w) + if w == m.who then [m.action] else []
    {
      MadeOne(made, m, Noted, w);
    }
    assert forall w :: w != m.who ==> By(made + [m], w) == By(made, w) + [];
  }

  lemma AddedTwice(a: seq<Made>, b: seq<Made>, c: seq<Made>, who: Option<nat>, x: seq<Action>, y: seq<Action>)
    requires Added(a, b, who, x) && Added(b, c, who, y)
    ensures Added(a, c, who, x + y)
  {
    Assoc(By(a, who), x, y);
  }

  /** A callback makes its calls in order, all of them unless one aborts. */
  lemma {:induction false} DoingAllKept(s: Conn, n: nat, actions: seq<Action>, torn: bool) returns (k: nat)
    requires Queues(s, torn) && Traced(s) && May(s, Some(n))
    ensures var t := DoingAll(s, n, actions);
            && Queues(t, torn) && Traced(t) && Fair(t) && Same(s, t) && k <= |actions| && (!t.aborted ==> k == |actions|)
            && Added(s.log.made, t.log.made, Some(n), actions[..k])
    decreases |actions|, 1
  {
    k := 0;
    assert By(s.log.made, Some(n)) + [] == By(s.log.made, Some(n));
    if actions != [] && !s.aborted {
      DoingKept(s, n, actions[0], torn);
      k := DoingRestKept(s, Doing(s, n, actions[0]), n, actions, torn);
    }
  }

  lemma {:induction false} DoingRestKept(s: Conn, u: Conn, n: nat, actions: seq<Action>, torn: bool) returns (k: nat)
    requires actions != [] && Step(s, u, Made(Some(n), actions[0], DoneEffect(s, actions[0])), torn) && May(u, Some(n))
    ensures var t := DoingAll(u, n, actions[1..]);
            && Queues(t, torn) && Traced(t) && Fair(t) && Same(s, t) && k <= |actions| && (!t.aborted ==> k == |actions|)
            && Added(s.log.made, t.log.made, Some(n), actions[..k])
    decreases |actions|, 0
  {
    var j := DoingAllKept(u, n, actions[1..], torn);
    var t := DoingAll(u, n, actions[1..]);
    k := j + 1;
    SameTwice(s, u, t);
    AddedFirst(s.log.made, u.log.made, t.log.made, n, actions, DoneEffect(s, actions[0]), j);
  }

  lemma SameTwice(s: Conn, t: Conn, u: Conn)
    requires Same(s, t) && Same(t, u)
    ensures Same(s, u)
  {
  }

  lemma AddedFirst(a: seq<Made>, b: seq<Made>, c: seq<Made>, n: nat, actions: seq<Action>, effect: Effect, j: nat)
    requires actions != [] && j < |actions| && b == a + [Made(Some(n), actions[0], effect)]
    requires Added(b, c, Some(n), actions[1..][..j])
    ensures Added(a, c, Some(n), actions[..j + 1])
  {
    AddedOne(a, Made(Some(n), actions[0], effect));
    AddedTwice(a, b, c, Some(n), [actions[0]], actions[1..][..j]);
    assert [actions[0]] + actions[1..][..j] == actions[..j + 1];
  }

  /** Every callback has made the calls it makes; one that aborts makes no more. */
  ghost predicate Told(made: seq<Made>, calls: nat, aborted: bool, env: Env) {
    && (forall n: nat :: n < calls ==> By(made, Some(n)) <= env.react(n))
    && (forall n: nat :: n < calls && !aborted ==> By(made, Some(n)) == env.react(n))
    && (forall n: nat :: n >= calls ==> By(made, Some(n)) == [])
  }

  lemma ToldNext(made: seq<Made>, made': seq<Made>, n: nat, k: nat, aborted: bool, env: Env)
    requires Told(made, n, false, env) && k <= |env.react(n)| && (!aborted ==> k == |env.react(n)|)
    requires Added(made, made', Some(n), env.react(n)[..k])
    ensures Told(made', n + 1, aborted, env)
  {
    var r := env.react(n);
    assert r[..|r|] == r && [] + r[..k] == r[..k];
    assert By(made', Some(n)) == r[..k];
  }

  /** What running a callback leaves alone, and that its run is logged. */
  ghost predicate RanOnly(s: Conn, t: Conn, cb: Callback, reply: Option<Obj>, why: Why) {
    && t.freed == s.freed && t.err == s.err && t.log.received == s.log.received && s.log.history <= t.log.history
    && t.log.answered == s.log.answered && t.log.answeredAside == s.log.answeredAside
    && t.log.tornAt == s.log.tornAt && Deliveries(t.log.trace) == Deliveries(s.log.trace)
    && By(t.log.made, None) == By(s.log.made, None)
    && t.log.ran == (if cb.fn.Some? then s.log.ran + [Ran(Answer(cb, reply), why)] else s.log.ran)
    && t.calls == (if cb.fn.Some? then s.calls + 1 else s.calls)
  }

  /** Running a callback keeps queues and tables, and logs its run and its calls. */
  lemma RunningKept(s: Conn, env: Env, cb: Callback, reply: Option<Obj>, why: Why, torn: bool)
    requires Queues(s, torn) && Traced(s) && Fair(s) && Told(s.log.made, s.calls, false, env) && !s.aborted
    ensures var t := Running(s, env, cb, reply, why);
            Queues(t, torn) && Traced(t) && Fair(t) && Told(t.log.made, t.calls, t.aborted, env) && RanOnly(s, t, cb, reply, why)
  {
    if cb.fn.Some? {
      var n, u := s.calls, Starting(s, cb, reply, why);
      StartingQueues(s, cb, reply, why, torn);
      var k := DoingAllKept(u, n, env.react(n), torn);
      RanKept(s, u, DoingAll(u, n, env.react(n)), env, cb, reply, why, k);
    }
  }

  lemma RanKept(s: Conn, u: Conn, t: Conn, env: Env, cb: Callback, reply: Option<Obj>, why: Why, k: nat)
    requires Told(s.log.made, s.calls, false, env) && cb.fn.Some? && u == Starting(s, cb, reply, why) && Same(u, t)
    requires k <= |env.react(s.calls)| && (!t.aborted ==> k == |env.react(s.calls)|)
    requires Added(u.log.made, t.log.made, Some(s.calls), env.react(s.calls)[..k])
    ensures Told(t.log.made, t.calls, t.aborted, env) && RanOnly(s, t, cb, reply, why)
  {
    ToldNext(s.log.made, t.log.made, s.calls, k, t.aborted, env);
  }

  lemma StartingQueues(s: Conn, cb: Callback, reply: Option<Obj>, why: Why, torn: bool)
    requires Queues(s, torn) && Traced(s) && Fair(s)
    ensures var t := Starting(s, cb, reply, why); Queues(t, torn) && Traced(t) && Fair(t)
  {
  }

  // ----- Answers -----

  ghost function ReceivedNext(received: seq<Got>, reply: Option<Obj>, why: Why): seq<Got> {
    if reply.Some? then received + [Got(reply.value, why)] else received
  }

  ghost function RanNext(ran: seq<Ran>, cb: Callback, reply: Option<Obj>, why: Why): seq<Ran> {
    if cb.fn.Some? then ran + [Ran(Answer(cb, reply), why)] else ran
  }

  ghost function AnsweredNext(answered: seq<Answer>, cb: Callback, reply: Option<Obj>, mine: bool): seq<Answer> {
    if mine then answered + [Answer(cb, reply)] else answered
  }

  /** One more reply, or a null reply at teardown, with its callback. */
  lemma SettledOne(received: seq<Got>, ran: seq<Ran>, answered: seq<Answer>, kind: Why, cb: Callback,
                   reply: Option<Obj>, why: Why, torn: bool)
    requires Settled(received, ran, answered, kind, torn) && (reply.None? <==> torn)
    ensures Settled(ReceivedNext(received, reply, why), RanNext(ran, cb, reply, why),
                    AnsweredNext(answered, cb, reply, why == kind), kind, torn)
  {
    PairedNext(received, answered, kind, cb, reply, why, torn);
    RunsNext(ran, answered, kind, cb, reply, why);
  }

  lemma PairedNext(received: seq<Got>, answered: seq<Answer>, kind: Why, cb: Callback, reply: Option<Obj>, why: Why, torn: bool)
    requires Paired(answered, Picked(received, kind), torn) && (reply.None? <==> torn)
    ensures Paired(AnsweredNext(answered, cb, reply, why == kind), Picked(ReceivedNext(received, reply, why), kind), torn)
  {
    if reply.Some? {
      GotOne(received, Got(reply.value, why), kind);
    }
    PairedOne(answered, Picked(received, kind), cb, reply, torn);
  }

  lemma PairedOne(answered: seq<Answer>, replies: seq<Obj>, cb: Callback, reply: Option<Obj>, torn: bool)
    requires Paired(answered, replies, torn) && (reply.None? <==> torn)
    ensures Paired(answered + [Answer(cb, reply)], if reply.Some? then replies + [reply.value] else replies, torn)
  {
  }

  lemma RunsNext(ran: seq<Ran>, answered: seq<Answer>, kind: Why, cb: Callback, reply: Option<Obj>, why: Why)
    requires Runs(ran, kind) == WithFn(answered)
    ensures Runs(RanNext(ran, cb, reply, why), kind) == WithFn(AnsweredNext(answered, cb, reply, why == kind))
  {
    RanOne(ran, Ran(Answer(cb, reply), why), kind);
    AnswerOne(answered, Answer(cb, reply));
  }

  /** The log after a callback has had its reply, or none. */
  ghost predicate Logged(log: Log, log': Log, cb: Callback, reply: Option<Obj>, why: Why) {
    && log'.received == ReceivedNext(log.received, reply, why) && log'.ran == RanNext(log.ran, cb, reply, why)
    && log'.answered == AnsweredNext(log.answered, cb, reply, why == ForRegular)
    && log'.answeredAside == AnsweredNext(log.answeredAside, cb, reply, why == ForAside)
    && log.history <= log'.history
    && Deliveries(log'.trace) == AnsweredNext(Deliveries(log.trace), cb, reply, why == ForMessage)
  }

  lemma LoggedAccounts(log: Log, log': Log, calls: nat, cb: Callback, reply: Option<Obj>, why: Why, torn: bool)
    requires Accounts(log, calls, torn) && Logged(log, log', cb, reply, why) && (reply.None? <==> torn)
    requires (why != ForRegular && reply.Some? ==> log'.history != []) && (why == ForTable ==> torn)
    ensures Accounts(log', if cb.fn.Some? then calls + 1 else calls, torn)
  {
    LoggedRuns(log, log', cb, reply, why);
    SettledOne(log.received, log.ran, log.answered, ForRegular, cb, reply, why, torn);
    SettledOne(log.received, log.ran, log.answeredAside, ForAside, cb, reply, why, torn);
  }

  lemma LoggedRuns(log: Log, log': Log, cb: Callback, reply: Option<Obj>, why: Why)
    requires Logged(log, log', cb, reply, why) && Runs(log.ran, ForMessage) == WithFn(Deliveries(log.trace))
    ensures Runs(log'.ran, ForMessage) == WithFn(Deliveries(log'.trace))
    ensures |log'.ran| == |log.ran| + if cb.fn.Some? then 1 else 0
    ensures why != ForTable ==> Runs(log'.ran, ForTable) == Runs(log.ran, ForTable)
  {
    RanOne(log.ran, Ran(Answer(cb, reply), why), ForTable);
    RunsNext(log.ran, Deliveries(log.trace), ForMessage, cb, reply, why);
  }

  /** The invariant of a run, with the calls that callbacks have made; but the end may still be to come. */
  ghost predicate Sound(s: Conn, env: Env, torn: bool) {
    Kept(s, torn) && Traced(s) && Told(s.log.made, s.calls, s.aborted, env)
  }

  /** The invariant of a run. */
  ghost predicate Good(s: Conn, env: Env, torn: bool) {
    Sound(s, env, torn) && Fair(s)
  }

  /** From a state `s`, through `u` with the record taken, to `t` with the callback run. */
  lemma AnsweredGood(s: Conn, u: Conn, env: Env, cb: Callback, reply: Option<Obj>, why: Why, torn: bool)
    requires Good(s, env, torn) && !s.aborted && Queues(u, torn) && Traced(u) && Fair(u) && !u.aborted
    requires u.calls == s.calls && u.log.made == s.log.made && s.log.history <= u.log.history && u.log.ran == s.log.ran
    requires u.log.received == (if reply.Some? then s.log.received + [Got(reply.value, why)] else s.log.received)
    requires u.log.answered == (if why == ForRegular then s.log.answered + [Answer(cb, reply)] else s.log.answered)
    requires u.log.answeredAside == (if why == ForAside then s.log.answeredAside + [Answer(cb, reply)] else s.log.answeredAside)
    requires Deliveries(u.log.trace) == AnsweredNext(Deliveries(s.log.trace), cb, reply, why == ForMessage)
    requires (reply.None? <==> torn) && (why != ForRegular && reply.Some? ==> u.log.history != []) && (why == ForTable ==> torn)
    ensures var t := Running(u, env, cb, reply, why);
            Good(t, env, torn) && RanOnly(u, t, cb, reply, why)
  {
    RunningKept(u, env, cb, reply, why, torn);
    LoggedAccounts(s.log, Running(u, env, cb, reply, why).log, s.calls, cb, reply, why, torn);
  }

  // ----- Teardown -----

  lemma ShiftedReply(s: Conn, reply: Option<Obj>, torn: bool)
    requires Queues(s, torn) && !s.aborted && s.replies != []
    ensures Queues(ShiftingReply(s, reply), torn) && (Traced(s) ==> Traced(ShiftingReply(s, reply)))
  {
  }

  lemma ShiftedAside(s: Conn, reply: Option<Obj>, torn: bool)
    requires Queues(s, torn) && s.invalid != []
    ensures Queues(ShiftingAside(s, reply), torn) && (Traced(s) ==> Traced(ShiftingAside(s, reply)))
  {
  }

  /** What teardown keeps: the calls from outside and the replies are as they were. */
  ghost predicate Drains(s: Conn, t: Conn, env: Env) {
    && Good(t, env, true) && !t.aborted && By(t.log.made, None) == By(s.log.made, None) && t.log.received == s.log.received
    && Runs(t.log.ran, Stale) == Runs(s.log.ran, Stale)
  }

  lemma {:induction false} DrainingRepliesGood(s: Conn, env: Env)
    requires Good(s, env, true) && !s.aborted && Closing(s)
    ensures var t := DrainingReplies(s, env);
            Drains(s, t, env) && Runs(t.log.ran, ForTable) == Runs(s.log.ran, ForTable)
    decreases |s.replies|
  {
    if s.replies != [] {
      var u, cb := ShiftingReply(s, None), s.replies[0];
      ShiftedReply(s, None, true);
      AnsweredGood(s, u, env, cb, None, ForRegular, true);
      RanOne(s.log.ran, Ran(Answer(cb, None), ForRegular), ForTable);
      RanOne(s.log.ran, Ran(Answer(cb, None), ForRegular), Stale);
      RunningStill(u, env, cb, None, ForRegular);
      DrainingRepliesGood(Running(u, env, cb, None, ForRegular), env);
    }
  }

  lemma {:induction false} DrainingAsideGood(s: Conn, env: Env)
    requires Good(s, env, true) && !s.aborted && Closing(s)
    ensures var t := DrainingAside(s, env);
            Drains(s, t, env) && Runs(t.log.ran, ForTable) == Runs(s.log.ran, ForTable)
    decreases |s.invalid|
  {
    if s.invalid != [] {
      var u, cb := ShiftingAside(s, None), s.invalid[0];
      ShiftedAside(s, None, true);
      AnsweredGood(s, u, env, cb, None, ForAside, true);
      RanOne(s.log.ran, Ran(Answer(cb, None), ForAside), ForTable);
      RanOne(s.log.ran, Ran(Answer(cb, None), ForAside), Stale);
      RunningStill(u, env, cb, None, ForAside);
      DrainingAsideGood(Running(u, env, cb, None, ForAside), env);
    }
  }

  /** The callbacks of a table that have a function, each with no reply. */
  ghost function NullRuns(q: seq<Callback>): seq<Answer> {
    if q == [] then [] else (if q[0].fn.Some? then [Answer(q[0], None)] else []) + NullRuns(q[1..])
  }

  lemma {:induction false} DrainingTableGood(s: Conn, env: Env, q: seq<Callback>)
    requires Good(s, env, true) && !s.aborted && Closing(s)
    ensures var t := DrainingTable(s, env, q);
            Drains(s, t, env) && Runs(t.log.ran, ForTable) == Runs(s.log.ran, ForTable) + NullRuns(q)
    decreases |q|
  {
    if q == [] {
      assert Runs(s.log.ran, ForTable) + [] == Runs(s.log.ran, ForTable);
    } else {
      var cb, u := q[0], Running(s, env, q[0], None, ForTable);
      AnsweredGood(s, s, env, cb, None, ForTable, true);
      RanOne(s.log.ran, Ran(Answer(cb, None), ForTable), ForTable);
      RanOne(s.log.ran, Ran(Answer(cb, None), ForTable), Stale);
      RunningStill(s, env, cb, None, ForTable);
      DrainingTableGood(u, env, q[1..]);
      NullRunsFirst(Runs(s.log.ran, ForTable), Runs(u.log.ran, ForTable), q);
    }
  }

  lemma NullRunsFirst(r: seq<Answer>, r': seq<Answer>, q: seq<Callback>)
    requires q != [] && r' == if q[0].fn.Some? then r + [Answer(q[0], None)] else r
    ensures r' + NullRuns(q[1..]) == r + NullRuns(q)
  {
    if q[0].fn.Some? {
      Assoc(r, [Answer(q[0], None)], NullRuns(q[1..]));
    } else {
      assert [] + NullRuns(q[1..]) == NullRuns(q[1..]);
    }
  }

  /** A freed connection has nothing queued, and has told every subscriber once. */
  ghost predicate Finished(s: Conn, env: Env)
    requires Iterates(env)
  {
    s.freed && !s.aborted ==>
      && s.replies == [] && s.invalid == []
      && Runs(s.log.ran, ForTable) == NullRuns(Subscribers(s, env, false)) + NullRuns(Subscribers(s, env, true))
  }

  lemma TornQueues(s: Conn, env: Env)
    requires Sound(s, env, false) && Closing(s) && !s.aborted && EndOf(s.log.trace) == Frees
    ensures Good(Tearing(s), env, true)
  {
    LawfulTorn(s.log.trace, Some(s.calls));
  }

  lemma DrainedGood(s: Conn, env: Env)
    requires Good(s, env, true) && !s.aborted && Closing(s)
    ensures Drains(s, Drained(s, env), env) && Runs(Drained(s, env).log.ran, ForTable) == Runs(s.log.ran, ForTable)
  {
    DrainedReplies(s, env);
    DrainingRepliesGood(s, env);
    DrainingAsideGood(DrainingReplies(s, env), env);
  }

  lemma TablesGood(s: Conn, env: Env)
    requires Iterates(env) && Good(s, env, true) && !s.aborted && Closing(s) && Runs(s.log.ran, ForTable) == []
    ensures var t := TablesDrained(s, env);
            && Drains(s, t, env)
            && Runs(t.log.ran, ForTable) == NullRuns(Subscribers(s, env, false)) + NullRuns(Subscribers(s, env, true))
  {
    var q, q' := Subscribers(s, env, false), Subscribers(s, env, true);
    DrainingTableGood(s, env, q);
    DrainedTable(s, env, q);
    DrainingTableGood(DrainingTable(s, env, q), env, q');
    assert [] + NullRuns(q) == NullRuns(q);
  }

  lemma TablesSame(s: Conn, env: Env)
    requires Iterates(env) && Closing(s)
    ensures var t := TablesDrained(s, env);
            && t.channels == s.channels && t.patterns == s.patterns
            && t.replies == s.replies && t.invalid == s.invalid && t.aborted == s.aborted
  {
    var q, q' := Subscribers(s, env, false), Subscribers(s, env, true);
    DrainedTable(s, env, q);
    DrainedTable(DrainingTable(s, env, q), env, q');
  }

  /** From the start of teardown to its end. */
  lemma TornGood(s: Conn, env: Env)
    requires Iterates(env) && Good(s, env, true) && !s.aborted && Closing(s) && Runs(s.log.ran, ForTable) == []
    ensures var t := TablesDrained(Drained(s, env), env).(freed := true);
            Drains(s, t, env) && Finished(t, env) && t.channels == s.channels && t.patterns == s.patterns
  {
    var u := Drained(s, env);
    DrainedGood(s, env);
    DrainedKin(s, env);
    TablesGood(u, env);
    TablesSame(u, env);
    FreedGood(TablesDrained(u, env), env);
  }

  /** Teardown answers every pending record with null, in order, and runs every subscriber once with null. */
  lemma TornDownGood(s: Conn, env: Env)
    requires Iterates(env) && Sound(s, env, false) && !s.aborted && Closing(s) && EndOf(s.log.trace) == Frees
    ensures var t := TornDown(s, env);
            && Drains(s, t, env) && Finished(t, env) && t.freed && Ended(t)
            && t.channels == s.channels && t.patterns == s.patterns
  {
    TornQueues(s, env);
    TornGood(Tearing(s), env);
  }

  lemma FreedGood(s: Conn, env: Env)
    requires Good(s, env, true)
    ensures Good(s.(freed := true), env, true)
  {
  }

  /** A disconnect keeps the invariant, or fails its assertion. */
  lemma DisconnectedGood(s: Conn, env: Env)
    requires Iterates(env) && Sound(s, env, false) && !s.aborted && !s.freed && (s.err || Closing(s))
    requires EndOf(s.log.trace) == if !s.err && s.replies != [] then Aborts else Frees
    ensures var t := Disconnected(s, env);
            && Over(t) && Good(t, env, t.freed) && Ended(t) && Finished(t, env)
            && Runs(t.log.ran, Stale) == Runs(s.log.ran, Stale)
            && By(t.log.made, None) == By(s.log.made, None) && t.log.received == s.log.received
  {
    if s.err {
      BrokenGood(s, env);
      TornGood(Tearing(s.(disconnecting := true)), env);
    } else if s.replies == [] {
      TornDownGood(s, env);
    }
  }

  lemma BrokenGood(s: Conn, env: Env)
    requires Sound(s, env, false) && !s.aborted && EndOf(s.log.trace) == Frees
    ensures Good(Tearing(s.(disconnecting := true)), env, true)
  {
    LawfulTorn(s.log.trace, Some(s.calls));
  }

  // ----- Replies -----

  lemma UnregisteredQueues(s: Conn, pattern: bool, name: seq<Byte>, torn: bool)
    requires Queues(s, torn)
    ensures Queues(Unregistering(s, pattern, name), torn)
  {
    TracksStep(s.channels, s.log.history, false, Unsubscribed(pattern, name));
    TracksStep(s.patterns, s.log.history, true, Unsubscribed(pattern, name));
  }

  lemma FlaggedQueues(s: Conn, torn: bool)
    requires Queues(s, torn)
    ensures Queues(s.(aborted := true), torn) && Queues(s.(subscribed := false), torn)
  {
  }

  lemma MessagedQueues(s: Conn, m: Message, torn: bool)
    requires Queues(s, torn) && m.Push?
    ensures Queues(Messaged(s, m), torn)
  {
    UnregisteredQueues(s, m.pattern, m.name, torn);
    FlaggedQueues(Unregistering(s, m.pattern, m.name), torn);
  }

  lemma ReceivedQueues(s: Conn, reply: Obj, why: Why, torn: bool)
    requires Queues(s, torn)
    ensures Queues(Receiving(s, reply, why), torn)
  {
  }

  /** What dispatching a reply does before its callback runs. */
  ghost predicate Taking(s: Conn, u: Conn, fate: Fate, reply: Obj) {
    && u.calls == s.calls && u.log.made == s.log.made && s.log.history <= u.log.history && u.log.ran == s.log.ran
    && u.freed == s.freed && u.err == s.err && u.freeing == s.freeing && (u.aborted <==> fate.Fatal?)
    && var why := if fate.Taken? then fate.why else Stale;
       var cb := if fate.Taken? then fate.cb else Callback(None, 0);
       && (why != ForRegular && !fate.Rejected? && !fate.Fatal? ==> u.log.history != [])
       && u.log.received == (if fate.Taken? || fate.Untaken? then s.log.received + [Got(reply, why)] else s.log.received)
       && u.log.answered == (if why == ForRegular then s.log.answered + [Answer(cb, Some(reply))] else s.log.answered)
       && u.log.answeredAside == (if why == ForAside then s.log.answeredAside + [Answer(cb, Some(reply))] else s.log.answeredAside)
  }

  lemma AsideTaking(s: Conn, reply: Obj)
    requires Queues(s, false) && !s.aborted && s.subscribed
    ensures var u := MessageDispatched(s, reply, NotMessage);
            Queues(u, false) && Taking(s, u, MessageFate(s, NotMessage), reply)
  {
    ReceivedQueues(s, reply, Stale, false);
    ReceivedQueues(s, reply, ForAside, false);
    if s.invalid != [] {
      ShiftedAside(Receiving(s, reply, ForAside), Some(reply), false);
    }
  }

  lemma MessagedSame(s: Conn, m: Message)
    requires m.Push? && !s.aborted
    ensures var u := Messaged(s, m);
            && Same(s, u) && u.log.made == s.log.made && u.freeing == s.freeing
            && (u.aborted <==> m.unsubscribe && m.count.None?)
  {
    UnregisteredSame(s, m.pattern, m.name);
  }

  lemma UnregisteredSame(s: Conn, pattern: bool, name: seq<Byte>)
    ensures var u := Unregistering(s, pattern, name);
            && Same(s, u) && u.log.made == s.log.made && u.aborted == s.aborted && u.freeing == s.freeing
            && Same(s, u.(aborted := true)) && Same(s, u.(subscribed := false)) && Same(s, s)
  {
  }

  lemma KnownTaking(s: Conn, u: Conn, reply: Obj, fate: Fate)
    requires Same(Receiving(s, reply, ForMessage), u) && fate.Taken? && fate.why == ForMessage && s.log.history != []
    requires u.log.made == s.log.made && u.freeing == s.freeing && !u.aborted
    ensures Taking(s, u, fate, reply)
  {
  }

  lemma UnknownTaking(s: Conn, reply: Obj)
    requires Queues(s, false) && !s.aborted && s.subscribed
    ensures Queues(Receiving(s, reply, Stale), false) && Taking(s, Receiving(s, reply, Stale), Untaken, reply)
  {
    ReceivedQueues(s, reply, Stale, false);
  }

  lemma FatalTaking(s: Conn, reply: Obj, m: Message)
    requires Queues(s, false) && !s.aborted && m.Push? && m.unsubscribe && m.count.None?
    ensures var u := Messaged(Marked(s, Stray(reply)), m); Queues(u, false) && Taking(s, u, Fatal, reply)
  {
    MessagedQueues(Marked(s, Stray(reply)), m, false);
    MessagedSame(Marked(s, Stray(reply)), m);
  }

  lemma KnownMessage(s: Conn, reply: Obj, m: Message, fate: Fate)
    requires Queues(s, false) && !s.aborted && s.subscribed && m.Push? && !(m.unsubscribe && m.count.None?)
    requires fate.Taken? && fate.why == ForMessage
    ensures var u := Messaged(Receiving(s, reply, ForMessage), m); Queues(u, false) && Taking(s, u, fate, reply)
  {
    var r := Receiving(s, reply, ForMessage);
    ReceivedQueues(s, reply, ForMessage, false);
    MessagedQueues(r, m, false);
    MessagedSame(r, m);
    KnownTaking(s, Messaged(r, m), reply, fate);
  }

  lemma PushTaking(s: Conn, reply: Obj, m: Message)
    requires Queues(s, false) && !s.aborted && s.subscribed && m.Push?
    ensures var u := MessageDispatched(s, reply, m);
            Queues(u, false) && Taking(s, u, MessageFate(s, m), reply)
  {
    if m.name !in TableOf(s, m.pattern) {
      UnknownTaking(s, reply);
    } else if m.unsubscribe && m.count.None? {
      FatalTaking(s, reply, m);
    } else {
      KnownMessage(s, reply, m, MessageFate(s, m));
    }
  }

  lemma MessageTaking(s: Conn, reply: Obj, m: Message)
    requires Queues(s, false) && !s.aborted && s.subscribed
    ensures var u := MessageDispatched(s, reply, m);
            Queues(u, false) && Taking(s, u, MessageFate(s, m), reply) && MessageFate(s, m) != Rejected
  {
    match m
    case Unexpected => FlaggedQueues(s, false);
    case NotMessage => AsideTaking(s, reply);
    case Push(_, _, _, _) => PushTaking(s, reply, m);
  }

  lemma RegularTaking(s: Conn, reply: Obj)
    requires Queues(s, false) && !s.aborted && s.replies != []
    ensures var u := ShiftingReply(Receiving(s, reply, ForRegular), Some(reply));
            Queues(u, false) && Taking(s, u, Taken(s.replies[0], ForRegular), reply)
  {
    ReceivedQueues(s, reply, ForRegular, false);
    ShiftedReply(Receiving(s, reply, ForRegular), Some(reply), false);
  }

  /** What a queue holds is what waits for a reply. */
  lemma WaitingIs(s: Conn)
    requires Kept(s, false) && !s.aborted
    ensures Waiting(s.log.made, s.log.received, Queued, ForRegular) == |s.replies|
    ensures Waiting(s.log.made, s.log.received, QueuedAside, ForAside) == |s.invalid|
  {
  }

  /** What a fate means for the connection. */
  ghost function FateEnds(fate: Fate): Ending {
    if fate.Rejected? then Frees else if fate.Fatal? then Aborts else Goes
  }

  /** The trace gains the reply, and the answer to a message. */
  ghost predicate Arriving(s: Conn, u: Conn, fate: Fate, reply: Obj) {
    && Traced(u) && EndOf(u.log.trace) == FateEnds(fate)
    && Deliveries(u.log.trace) == if fate.Taken? && fate.why == ForMessage
                                  then Deliveries(s.log.trace) + [Answer(fate.cb, Some(reply))]
                                  else Deliveries(s.log.trace)
  }

  /** A reply that obeys the law. */
  lemma ArrivedTraced(s: Conn, u: Conn, g: Got, m: Message)
    requires Kept(s, false) && Traced(s) && !s.aborted && m == ReadMessage(g.reply) && EndOf(s.log.trace) == Goes
    requires ArrivalLaw(g.why, m, |s.replies|, |s.invalid|, s.log.history, s.subscribed)
    requires u.log.trace == s.log.trace + [Arrival(g)] && u.log.made == s.log.made && u.log.received == s.log.received + [g]
    requires !u.aborted ==> u.log.history == s.log.history + ReplyChange(g.why, m)
    requires !u.aborted ==> (u.subscribed <==> SubscribedNext(s.subscribed, g.why, m))
    requires u.log.tornAt == s.log.tornAt && u.log.written == s.log.written && u.obuf == s.obuf
    requires u.disconnecting == s.disconnecting
    ensures Traced(u) && EndOf(u.log.trace) == Goes
    ensures Deliveries(u.log.trace) ==
              Deliveries(s.log.trace) + if g.why == ForMessage then DeliveryOf(s.log.history, g.reply, m) else []
  {
    WaitingIs(s);
    ArrivalOne(s.log.trace, g, m);
    EndOne(s.log.trace, Arrival(g));
    LawfulOne(s.log.trace, Arrival(g), s.log.tornAt);
  }

  /** A stray reply. */
  lemma StrayTraced(s: Conn, u: Conn, reply: Obj, m: Message)
    requires Kept(s, false) && Traced(s) && !s.aborted && m == ReadMessage(reply) && EndOf(s.log.trace) == Goes
    requires StrayLaw(m, |s.replies|, s.log.history, s.subscribed)
    requires u.log == s.log.(trace := s.log.trace + [Stray(reply)], history := u.log.history)
    requires u.aborted || (u.log.history == s.log.history && u.subscribed == s.subscribed)
    requires u.obuf == s.obuf && u.disconnecting == s.disconnecting
    ensures Traced(u) && EndOf(u.log.trace) == StrayEnds(reply, s.subscribed)
    ensures Deliveries(u.log.trace) == Deliveries(s.log.trace)
  {
    WaitingIs(s);
    OtherOne(s.log.trace, Stray(reply));
    EndOne(s.log.trace, Stray(reply));
    LawfulOne(s.log.trace, Stray(reply), s.log.tornAt);
  }

  /** A reply that changes no subscription. */
  lemma PlainArriving(s: Conn, u: Conn, reply: Obj, why: Why, fate: Fate)
    requires Kept(s, false) && Traced(s) && !s.aborted && why != ForMessage && EndOf(s.log.trace) == Goes
    requires ArrivalLaw(why, ReadMessage(reply), |s.replies|, |s.invalid|, s.log.history, s.subscribed)
    requires (fate.Taken? && fate.why == why) || fate.Untaken?
    requires var r := Receiving(s, reply, why);
             && u.log == r.log.(answered := u.log.answered, answeredAside := u.log.answeredAside)
             && u.subscribed == s.subscribed && u.obuf == s.obuf && u.aborted == s.aborted
             && u.disconnecting == s.disconnecting
    ensures Arriving(s, u, fate, reply)
  {
    assert s.log.history + [] == s.log.history;
    assert Deliveries(s.log.trace) + [] == Deliveries(s.log.trace);
    ArrivedTraced(s, u, Got(reply, why), ReadMessage(reply));
  }

  /** What a message for a known name does to the state is what it means for the trace. */
  lemma MessagedEffect(s: Conn, reply: Obj, m: Message)
    requires m.Push? && !(m.unsubscribe && m.count.None?) && !s.aborted && s.subscribed
    ensures var u := Messaged(Receiving(s, reply, ForMessage), m);
            && u.log == Receiving(s, reply, ForMessage).log.(history := s.log.history + ReplyChange(ForMessage, m))
            && (u.subscribed <==> SubscribedNext(s.subscribed, ForMessage, m)) && u.obuf == s.obuf && !u.aborted
            && u.disconnecting == s.disconnecting
  {
    assert s.log.history + [] == s.log.history;
  }

  lemma KnownArriving(s: Conn, reply: Obj, m: Message)
    requires Kept(s, false) && Traced(s) && !s.aborted && s.subscribed && s.replies == [] && m == ReadMessage(reply)
    requires EndOf(s.log.trace) == Goes
    requires m.Push? && !(m.unsubscribe && m.count.None?) && m.name in TableOf(s, m.pattern)
    ensures Arriving(s, Messaged(Receiving(s, reply, ForMessage), m), Taken(TableOf(s, m.pattern)[m.name], ForMessage), reply)
  {
    assert Latest(s.log.history, m.pattern, m.name) == Some(TableOf(s, m.pattern)[m.name]);
    MessagedEffect(s, reply, m);
    ArrivedTraced(s, Messaged(Receiving(s, reply, ForMessage), m), Got(reply, ForMessage), m);
  }

  lemma UnknownArriving(s: Conn, reply: Obj, m: Message)
    requires Kept(s, false) && Traced(s) && !s.aborted && s.subscribed && s.replies == [] && m == ReadMessage(reply)
    requires EndOf(s.log.trace) == Goes
    requires m.Push? && m.name !in TableOf(s, m.pattern)
    ensures Arriving(s, Receiving(s, reply, Stale), Untaken, reply)
  {
    assert Latest(s.log.history, m.pattern, m.name) == None;
    PlainArriving(s, Receiving(s, reply, Stale), reply, Stale, Untaken);
  }

  lemma UncountedArriving(s: Conn, reply: Obj, m: Message)
    requires Kept(s, false) && Traced(s) && !s.aborted && s.subscribed && s.replies == [] && m == ReadMessage(reply)
    requires EndOf(s.log.trace) == Goes && m.Push? && m.name in TableOf(s, m.pattern) && m.unsubscribe && m.count.None?
    ensures Arriving(s, Messaged(Marked(s, Stray(reply)), m), Fatal, reply)
  {
    assert Latest(s.log.history, m.pattern, m.name) == Some(TableOf(s, m.pattern)[m.name]);
    StrayTraced(s, Messaged(Marked(s, Stray(reply)), m), reply, m);
  }

  lemma PushArriving(s: Conn, reply: Obj, m: Message)
    requires Kept(s, false) && Traced(s) && !s.aborted && s.subscribed && s.replies == [] && m == ReadMessage(reply)
    requires EndOf(s.log.trace) == Goes
    requires m.Push?
    ensures Arriving(s, MessageDispatched(s, reply, m), MessageFate(s, m), reply)
  {
    if m.name !in TableOf(s, m.pattern) {
      UnknownArriving(s, reply, m);
    } else if m.unsubscribe && m.count.None? {
      UncountedArriving(s, reply, m);
    } else {
      KnownArriving(s, reply, m);
    }
  }

  lemma MessageArriving(s: Conn, reply: Obj, m: Message)
    requires Kept(s, false) && Traced(s) && !s.aborted && s.subscribed && s.replies == [] && m == ReadMessage(reply)
    requires EndOf(s.log.trace) == Goes
    ensures Arriving(s, MessageDispatched(s, reply, m), MessageFate(s, m), reply)
  {
    match m
    case Unexpected => StrayTraced(s, Marked(s, Stray(reply)).(aborted := true), reply, m);
    case NotMessage => AsideArriving(s, reply);
    case Push(_, _, _, _) => PushArriving(s, reply, m);
  }

  lemma AsideArriving(s: Conn, reply: Obj)
    requires Kept(s, false) && Traced(s) && !s.aborted && s.subscribed && s.replies == [] && ReadMessage(reply) == NotMessage
    requires EndOf(s.log.trace) == Goes
    ensures Arriving(s, MessageDispatched(s, reply, NotMessage), MessageFate(s, NotMessage), reply)
  {
    if s.invalid == [] {
      PlainArriving(s, Receiving(s, reply, Stale), reply, Stale, Untaken);
    } else {
      PlainArriving(s, ShiftingAside(Receiving(s, reply, ForAside), Some(reply)), reply, ForAside, Taken(s.invalid[0], ForAside));
    }
  }

  lemma DispatchedArriving(s: Conn, reply: Obj)
    requires Kept(s, false) && Traced(s) && !s.aborted && EndOf(s.log.trace) == Goes
    ensures Arriving(s, Dispatched(s, reply), FateOf(s, reply), reply)
  {
    if s.replies != [] {
      PlainArriving(s, Dispatched(s, reply), reply, ForRegular, FateOf(s, reply));
    } else if s.subscribed {
      MessageArriving(s, reply, ReadMessage(reply));
    } else {
      StrayTraced(s, Dispatched(s, reply), reply, ReadMessage(reply));
    }
  }

  /** Dispatching a reply keeps queues, tables and trace, and answers at most the record it takes. */
  lemma DispatchedTaking(s: Conn, reply: Obj)
    requires Kept(s, false) && Traced(s) && !s.aborted && EndOf(s.log.trace) == Goes
    ensures var u, fate := Dispatched(s, reply), FateOf(s, reply);
            Queues(u, false) && Arriving(s, u, fate, reply) && Taking(s, u, fate, reply)
  {
    DispatchedArriving(s, reply);
    if s.replies != [] {
      RegularTaking(s, reply);
    } else if s.subscribed {
      MessageTaking(s, reply, ReadMessage(reply));
    } else {
      FlaggedQueues(s, false);
    }
  }

  /** The log gains calls from outside, and replies. */
  ghost predicate Gains(log: Log, log': Log, acts: seq<Action>, replies: seq<Obj>) {
    && By(log'.made, None) == By(log.made, None) + acts
    && Replies(log'.received) == Replies(log.received) + replies
  }

  lemma GainsNothing(log: Log, log': Log)
    requires By(log'.made, None) == By(log.made, None) && log'.received == log.received
    ensures Gains(log, log', [], [])
  {
    assert By(log.made, None) + [] == By(log.made, None);
    assert Replies(log.received) + [] == Replies(log.received);
  }

  lemma GainsTwice(a: Log, b: Log, c: Log, x: seq<Action>, r: seq<Obj>, x': seq<Action>, r': seq<Obj>)
    requires Gains(a, b, x, r) && Gains(b, c, x', r')
    ensures Gains(a, c, x + x', r + r')
  {
    Assoc(By(a.made, None), x, x');
    Assoc(Replies(a.received), r, r');
  }

  /** One step of a run: the invariant, the calls from outside so far, and the replies so far. */
  ghost predicate Lives(s: Conn, t: Conn, env: Env, acts: seq<Action>, replies: seq<Obj>)
    requires Iterates(env)
  {
    Good(t, env, t.freed) && Ended(t) && Finished(t, env) && Gains(s.log, t.log, acts, replies)
  }

  lemma LivesNothing(s: Conn, t: Conn, env: Env)
    requires Iterates(env) && Good(t, env, t.freed) && Ended(t) && Finished(t, env)
    requires By(t.log.made, None) == By(s.log.made, None) && t.log.received == s.log.received
    ensures Lives(s, t, env, [], [])
  {
    GainsNothing(s.log, t.log);
  }

  /** A connection that lives, between events and replies. */
  ghost predicate Alive(s: Conn, env: Env) {
    Good(s, env, false) && Ended(s) && !Over(s)
  }

  lemma Going(s: Conn, env: Env)
    requires Alive(s, env)
    ensures EndOf(s.log.trace) == Goes && !s.freeing
  {
  }

  /** The callback for a reply that was dispatched. */
  lemma CalledLives(s: Conn, u: Conn, env: Env, fate: Fate, cb: Callback, reply: Obj)
    requires Iterates(env) && Alive(s, env) && Queues(u, false) && Arriving(s, u, fate, reply) && Taking(s, u, fate, reply)
    requires fate.Taken? ==> fate.cb == cb && fate.why != ForTable
    requires fate.Taken? || fate.Untaken?
    ensures var why := if fate.Taken? then fate.why else Stale;
            Lives(s, Called(u, env, cb, reply, why), env, [], [reply])
  {
    var why := if fate.Taken? then fate.why else Stale;
    var t := Running(u, env, cb, Some(reply), why);
    AnsweredGood(s, u, env, cb, Some(reply), why, false);
    GotOne(s.log.received, Got(reply, why), why);
    assert By(s.log.made, None) + [] == By(s.log.made, None);
    if cb.fn.Some? && !t.aborted && t.freeing {
      TornDownGood(t, env);
    }
  }

  lemma FateCases(s: Conn, reply: Obj)
    ensures FateOf(s, reply).Taken? ==> FateOf(s, reply).why != ForTable && FateOf(s, reply).why != Stale
  {
  }

  /** One reply: the run goes on with it, or is over. */
  lemma ProcessedLives(s: Conn, env: Env, reply: Obj, cb: Callback)
    requires Iterates(env) && Alive(s, env)
    ensures var t, fate := Processed(s, env, reply, cb), FateOf(s, reply);
            && Lives(s, t, env, [], if fate.Taken? || fate.Untaken? then [reply] else [])
            && (fate.Rejected? || fate.Fatal? ==> Over(t))
  {
    var u, fate := Dispatched(s, reply), FateOf(s, reply);
    DispatchedTaking(s, reply);
    FateCases(s, reply);
    ConcludedLives(s, u, env, fate, Target(fate, cb), reply);
  }

  lemma ConcludedLives(s: Conn, u: Conn, env: Env, fate: Fate, cb: Callback, reply: Obj)
    requires Iterates(env) && Alive(s, env) && Queues(u, false) && Arriving(s, u, fate, reply) && Taking(s, u, fate, reply)
    requires fate.Taken? ==> fate.cb == cb && fate.why != ForTable
    ensures var t := Concluded(u, env, fate, reply, cb);
            && Lives(s, t, env, [], if fate.Taken? || fate.Untaken? then [reply] else [])
            && (fate.Rejected? || fate.Fatal? ==> Over(t))
  {
    match fate
    case Rejected =>
      BrokenErr(s, u, env);
      DisconnectedGood(u.(err := true), env);
      LivesNothing(s, Disconnected(u.(err := true), env), env);
    case Fatal =>
      AbortedGood(s, u, env);
      LivesNothing(s, u, env);
    case Taken(_, why) =>
      CalledLives(s, u, env, fate, cb, reply);
    case Untaken =>
      CalledLives(s, u, env, fate, cb, reply);
  }

  lemma BrokenErr(s: Conn, u: Conn, env: Env)
    requires Alive(s, env) && Queues(u, false) && Arriving(s, u, Rejected, NilObj) && Taking(s, u, Rejected, NilObj)
    ensures Sound(u.(err := true), env, false) && !u.aborted && !u.freed && EndOf(u.log.trace) == Frees
  {
  }

  lemma AbortedGood(s: Conn, u: Conn, env: Env)
    requires Alive(s, env) && Queues(u, false) && Arriving(s, u, Fatal, NilObj) && Taking(s, u, Fatal, NilObj)
    ensures Good(u, env, u.freed) && Ended(u)
  {
  }

  /** The replies that one round takes from its inbox. */
  ghost function Took(fate: Fate): nat {
    if fate.Taken? || fate.Untaken? then 1 else 0
  }

  /** The replies of an inbox are taken in order; all of them while the connection lives. */
  lemma {:induction false} RepliedLives(s: Conn, env: Env, inbox: seq<Obj>, cb: Callback) returns (k: nat)
    requires Iterates(env) && Alive(s, env)
    ensures var t := Replied(s, env, inbox, cb);
            k <= |inbox| && Lives(s, t, env, [], inbox[..k]) && (!Over(t) ==> k == |inbox|)
    decreases |inbox|
  {
    if inbox == [] {
      k := 0;
      LivesNothing(s, s, env);
    } else {
      var fate, t := FateOf(s, inbox[0]), Processed(s, env, inbox[0], cb);
      FirstLives(s, env, inbox, cb);
      k := RestLives(s, t, env, inbox, Took(fate), Target(fate, cb));
    }
  }

  lemma FirstLives(s: Conn, env: Env, inbox: seq<Obj>, cb: Callback)
    requires Iterates(env) && Alive(s, env) && inbox != []
    ensures var fate, t := FateOf(s, inbox[0]), Processed(s, env, inbox[0], cb);
            Lives(s, t, env, [], inbox[..Took(fate)]) && (!Over(t) ==> Took(fate) == 1)
  {
    ProcessedLives(s, env, inbox[0], cb);
    assert inbox[..1] == [inbox[0]] && inbox[..0] == [];
  }

  lemma {:induction false} RestLives(s: Conn, t: Conn, env: Env, inbox: seq<Obj>, took: nat, cb: Callback) returns (k: nat)
    requires Iterates(env) && inbox != [] && took <= 1 && Lives(s, t, env, [], inbox[..took]) && (!Over(t) ==> took == 1)
    ensures var u := Replied(t, env, inbox[1..], cb);
            k <= |inbox| && Lives(s, u, env, [], inbox[..k]) && (!Over(u) ==> k == |inbox|)
    decreases |inbox|, 0
  {
    if Over(t) {
      k := took;
    } else {
      var j := RepliedLives(t, env, inbox[1..], cb);
      k := j + 1;
      GainsOn(s.log, t.log, Replied(t, env, inbox[1..], cb).log, inbox, j);
    }
  }

  lemma GainsOn(a: Log, b: Log, c: Log, inbox: seq<Obj>, j: nat)
    requires j < |inbox| && Gains(a, b, [], inbox[..1]) && Gains(b, c, [], inbox[1..][..j])
    ensures Gains(a, c, [], inbox[..j + 1])
  {
    GainsTwice(a, b, c, [], inbox[..1], [], inbox[1..][..j]);
    assert inbox[..1] + inbox[1..][..j] == inbox[..j + 1];
  }

  /** What only goes to the trace. */
  lemma MarkedSound(s: Conn, env: Env, item: Item)
    requires Alive(s, env) && (item.ReadEnd? || item.Broken?)
    ensures var t := Marked(s, item);
            Sound(t, env, false) && EndOf(t.log.trace) == EndsAt(s.log.trace, item) && Sound(t.(err := true), env, false)
  {
    OtherOne(s.log.trace, item);
    EndOne(s.log.trace, item);
    LawfulOne(s.log.trace, item, s.log.tornAt);
  }

  /** The end of a read, as the state has it. */
  lemma ReadEndIs(s: Conn, env: Env, failed: bool)
    requires Alive(s, env)
    ensures EndsAt(s.log.trace, ReadEnd(failed)) == ReadEnds(failed, s.disconnecting, |s.obuf|, |s.replies|)
  {
    WaitingIs(s);
  }

  lemma ReadOutLives(s: Conn, env: Env, failed: bool)
    requires Iterates(env) && Alive(s, env)
    ensures Lives(s, ReadOut(s, env, failed), env, [], [])
  {
    var t := Marked(s, ReadEnd(failed));
    MarkedSound(s, env, ReadEnd(failed));
    ReadEndIs(s, env, failed);
    ReadOutEnds(s, t, env, failed);
  }

  lemma ReadOutEnds(s: Conn, t: Conn, env: Env, failed: bool)
    requires Iterates(env) && Sound(t, env, false) && !Over(t) && !t.err && !t.freeing
    requires failed ==> Sound(t.(err := true), env, false)
    requires EndOf(t.log.trace) == ReadEnds(failed, t.disconnecting, |t.obuf|, |t.replies|)
    requires By(t.log.made, None) == By(s.log.made, None) && t.log.received == s.log.received
    ensures Lives(s, if failed then Disconnected(t.(err := true), env)
                     else if t.disconnecting && t.obuf == [] then Disconnected(t, env)
                     else t, env, [], [])
  {
    if failed {
      DisconnectedGood(t.(err := true), env);
      LivesNothing(s, Disconnected(t.(err := true), env), env);
    } else if t.disconnecting && t.obuf == [] {
      DisconnectedGood(t, env);
      LivesNothing(s, Disconnected(t, env), env);
    } else {
      LivesNothing(s, t, env);
    }
  }

  lemma ProcessedAllLives(s: Conn, env: Env, inbox: seq<Obj>, failed: bool, cb: Callback) returns (k: nat)
    requires Iterates(env) && Alive(s, env)
    ensures var t := ProcessedAll(s, env, inbox, failed, cb);
            k <= |inbox| && Lives(s, t, env, [], inbox[..k]) && (!Over(t) ==> k == |inbox|)
  {
    k := RepliedLives(s, env, inbox, cb);
    var t := Replied(s, env, inbox, cb);
    if !Over(t) {
      ReadOutLives(t, env, failed);
      GainsTwice(s.log, t.log, ReadOut(t, env, failed).log, [], inbox[..k], [], []);
      assert inbox[..k] + [] == inbox[..k];
    }
  }

  // ----- Runs -----

  lemma ToldOutside(made: seq<Made>, m: Made, calls: nat, env: Env)
    requires Told(made, calls, false, env) && m.who == None
    ensures Told(made + [m], calls, false, env) && By(made + [m], None) == By(made, None) + [m.action]
  {
    AddedOne(made, m);
  }

  /** A call settles nothing. */
  lemma AccountsSame(log: Log, log': Log, calls: nat)
    requires Accounts(log, calls, false) && log'.received == log.received && log'.answered == log.answered
    requires log'.answeredAside == log.answeredAside && log'.ran == log.ran && log.history <= log'.history
    requires Deliveries(log'.trace) == Deliveries(log.trace)
    ensures Accounts(log', calls, false)
  {
  }

  /** A call from outside leaves the callbacks' calls as they were. */
  lemma StepSound(s: Conn, t: Conn, env: Env, m: Made)
    requires Sound(s, env, false) && !s.freed && !s.aborted && Step(s, t, m, false) && m.who == None
    ensures Sound(t, env, false) && !t.freed && Gains(s.log, t.log, [m.action], [])
  {
    ToldOutside(s.log.made, m, s.calls, env);
    AccountsSame(s.log, t.log, s.calls);
    assert Replies(s.log.received) + [] == Replies(s.log.received);
  }

  lemma SendLives(s: Conn, env: Env, cb: Callback, argv: seq<seq<Byte>>)
    requires Iterates(env) && Alive(s, env)
    ensures Lives(s, Sent(s, None, cb, argv), env, [Send(cb, argv)], [])
  {
    var m := Made(None, Send(cb, argv), Verdict(s, ClassOf(argv)));
    SentKept(s, None, cb, argv, false);
    StepSound(s, Sent(s, None, cb, argv), env, m);
    SubmittedEffect(s, m, ClassOf(argv), Format(argv));
  }

  lemma EndLives(s: Conn, t: Conn, u: Conn, env: Env, action: Action)
    requires Iterates(env) && Gains(s.log, t.log, [action], []) && Good(u, env, u.freed) && Ended(u) && Finished(u, env)
    requires By(u.log.made, None) == By(t.log.made, None) && u.log.received == t.log.received
    ensures Lives(s, u, env, [action], [])
  {
  }

  /** A disconnect ends the connection exactly if no regular command waits. */
  lemma DisconnectLives(s: Conn, t: Conn, env: Env)
    requires Iterates(env) && Sound(t, env, false) && !Over(t) && Closing(t) && !t.err && !t.freeing
    requires Gains(s.log, t.log, [Disconnect], []) && EndOf(t.log.trace) == if t.replies == [] then Frees else Goes
    ensures Lives(s, if t.replies == [] then Disconnected(t, env) else t, env, [Disconnect], [])
  {
    if t.replies == [] {
      DisconnectedGood(t, env);
      EndLives(s, t, Disconnected(t, env), env, Disconnect);
    }
  }

  lemma FreeLives(s: Conn, t: Conn, env: Env)
    requires Iterates(env) && Sound(t, env, false) && !Over(t) && Closing(t)
    requires Gains(s.log, t.log, [Free], []) && EndOf(t.log.trace) == Frees
    ensures Lives(s, TornDown(t, env), env, [Free], [])
  {
    TornDownGood(t, env);
    EndLives(s, t, TornDown(t, env), env, Free);
  }

  lemma DisconnectActs(s: Conn, env: Env)
    requires Iterates(env) && Alive(s, env)
    ensures Lives(s, Acted(s, env, Disconnect), env, [Disconnect], [])
  {
    DisconnectNoted(s, env);
    DisconnectLives(s, NoteMade(s.(disconnecting := true), None, Disconnect, Noted), env);
  }

  lemma DisconnectNoted(s: Conn, env: Env)
    requires Alive(s, env)
    ensures var t := NoteMade(s.(disconnecting := true), None, Disconnect, Noted);
            && Sound(t, env, false) && Gains(s.log, t.log, [Disconnect], []) && !t.freeing && !t.err
            && EndOf(t.log.trace) == if t.replies == [] then Frees else Goes
  {
    var m := Made(None, Disconnect, Noted);
    NotedKept(s, None, Disconnect, false);
    StepSound(s, NoteMade(s.(disconnecting := true), None, Disconnect, Noted), env, m);
    NotedEnds(s, m);
    WaitingIs(s);
  }

  lemma FreeActs(s: Conn, env: Env)
    requires Iterates(env) && Alive(s, env)
    ensures Lives(s, Acted(s, env, Free), env, [Free], [])
  {
    var m, t := Made(None, Free, Noted), NoteMade(s.(freeing := true), None, Free, Noted);
    NotedKept(s, None, Free, false);
    StepSound(s, t, env, m);
    NotedEnds(s, m);
    FreeLives(s, t, env);
  }

  lemma ActedLives(s: Conn, env: Env, action: Action)
    requires Iterates(env) && Alive(s, env)
    ensures Lives(s, Acted(s, env, action), env, [action], [])
  {
    match action
    case Send(cb, argv) =>
      SendLives(s, env, cb, argv);
    case Disconnect =>
      DisconnectActs(s, env);
    case Free =>
      FreeActs(s, env);
  }

  /** What an event brings: calls from outside, and replies. */
  ghost function ActsOf(event: Event): seq<Action> {
    if event.Act? then [event.action] else []
  }

  ghost function InboxOf(event: Event): seq<Obj> {
    if event.Readable? then event.inbox else []
  }

  lemma HandledLives(s: Conn, env: Env, event: Event) returns (k: nat)
    requires Iterates(env) && Alive(s, env)
    ensures var t := Handled(s, env, event);
            k <= |InboxOf(event)| && Lives(s, t, env, ActsOf(event), InboxOf(event)[..k]) && (!Over(t) ==> k == |InboxOf(event)|)
  {
    k := 0;
    match event
    case Act(action) => ActedLives(s, env, action);
    case Readable(inbox, failed, garbage) => k := ProcessedAllLives(s, env, inbox, failed, garbage);
    case Writable(n) =>
      WrittenTraced(s, n);
      WrittenGood(s, Written(s, n), env);
      LivesNothing(s, Written(s, n), env);
    case SocketError =>
      MarkedSound(s, env, Broken);
      DisconnectedGood(Marked(s, Broken).(err := true), env);
      LivesNothing(s, Handled(s, env, event), env);
  }

  lemma WrittenTraced(s: Conn, n: nat)
    requires Traced(s) && EndOf(s.log.trace) == Goes
    ensures var t := Written(s, n);
            Traced(t) && EndOf(t.log.trace) == Goes && Deliveries(t.log.trace) == Deliveries(s.log.trace)
  {
    var k := if n <= |s.obuf| then n else |s.obuf|;
    assert s.obuf[..k] + s.obuf[k..] == s.obuf;
    Assoc(s.log.written, s.obuf[..k], s.obuf[k..]);
    OtherOne(s.log.trace, Wrote(n));
    EndOne(s.log.trace, Wrote(n));
    LawfulOne(s.log.trace, Wrote(n), s.log.tornAt);
  }

  lemma WrittenGood(s: Conn, t: Conn, env: Env)
    requires Alive(s, env) && t == s.(obuf := t.obuf, log := s.log.(trace := t.log.trace, written := t.log.written))
    requires Traced(t) && EndOf(t.log.trace) == Goes && Deliveries(t.log.trace) == Deliveries(s.log.trace)
    ensures Alive(t, env)
  {
    WrittenQueues(s, t);
    AccountsSame(s.log, t.log, s.calls);
  }

  lemma WrittenQueues(s: Conn, t: Conn)
    requires Queues(s, false) && t == s.(obuf := t.obuf, log := s.log.(trace := t.log.trace, written := t.log.written))
    ensures Queues(t, false)
  {
  }

  /** All calls from outside, and all replies, of a run. */
  ghost function Acts(events: seq<Event>): seq<Action> {
    if events == [] then [] else ActsOf(events[0]) + Acts(events[1..])
  }

  ghost function Inboxes(events: seq<Event>): seq<Obj> {
    if events == [] then [] else InboxOf(events[0]) + Inboxes(events[1..])
  }

  lemma {:induction false} HandledAllLives(s: Conn, env: Env, events: seq<Event>) returns (a: seq<Action>, r: seq<Obj>)
    requires Iterates(env) && Good(s, env, s.freed) && Ended(s) && Finished(s, env)
    ensures var t := HandledAll(s, env, events);
            && Lives(s, t, env, a, r) && a <= Acts(events) && r <= Inboxes(events)
            && (!Over(t) ==> a == Acts(events) && r == Inboxes(events))
    decreases |events|
  {
    a, r := [], [];
    if events == [] || Over(s) {
      LivesNothing(s, s, env);
    } else {
      var t := Handled(s, env, events[0]);
      var k := HandledLives(s, env, events[0]);
      var a', r' := HandledAllLives(t, env, events[1..]);
      a, r := ActsOf(events[0]) + a', InboxOf(events[0])[..k] + r';
      GainsTwice(s.log, t.log, HandledAll(t, env, events[1..]).log, ActsOf(events[0]), InboxOf(events[0])[..k], a', r');
      Prefixes(t, env, events, k, a', r');
    }
  }

  lemma Prefixes(t: Conn, env: Env, events: seq<Event>, k: nat, a: seq<Action>, r: seq<Obj>)
    requires Iterates(env) && events != [] && k <= |InboxOf(events[0])| && a <= Acts(events[1..]) && r <= Inboxes(events[1..])
    requires !Over(t) ==> k == |InboxOf(events[0])|
    requires Over(t) ==> r == []
    ensures ActsOf(events[0]) + a <= Acts(events) && InboxOf(events[0])[..k] + r <= Inboxes(events)
    ensures a == Acts(events[1..]) && r == Inboxes(events[1..]) && !Over(t) ==>
              ActsOf(events[0]) + a == Acts(events) && InboxOf(events[0])[..k] + r == Inboxes(events)
  {
    var i := InboxOf(events[0]);
    assert i[..|i|] == i;
    if Over(t) {
      assert i[..k] + r == i[..k];
    }
  }

  /** What every run promises: the invariant; it is over exactly when the trace says so; the calls from outside and the replies are those of the events, in
      order, and all of them while the connection lives; a freed connection has answered every command and told every
      subscriber. */
  ghost predicate Promised(s: Conn, env: Env, events: seq<Event>)
    requires Iterates(env)
  {
    && Good(s, env, s.freed) && Ended(s) && Finished(s, env)
    && By(s.log.made, None) <= Acts(events) && Replies(s.log.received) <= Inboxes(events)
    && (!Over(s) ==> By(s.log.made, None) == Acts(events) && Replies(s.log.received) == Inboxes(events))
    && (s.freed && !s.aborted ==>
          && |s.log.answered| == |Cbs(s.log.made, Queued)|
          && |s.log.answeredAside| == |Cbs(s.log.made, QueuedAside)|)
  }

  /** Every run, whatever the callbacks do, keeps the promise. */
  lemma RunPromised(env: Env, events: seq<Event>)
    requires Iterates(env)
    ensures Promised(HandledAll(INITIAL_CONN, env, events), env, events)
  {
    var s, t := INITIAL_CONN, HandledAll(INITIAL_CONN, env, events);
    InitialGood(env);
    var a, r := HandledAllLives(s, env, events);
    assert By(s.log.made, None) + a == a && Replies(s.log.received) + r == r;
  }

  lemma InitialGood(env: Env)
    ensures Alive(INITIAL_CONN, env)
  {
    assert Tracks(map[], [], false) && Tracks(map[], [], true);
  }

  // ----- Replies that take no record -----

  /** Exactly when a reply takes a record, and which one a message takes: that of the latest subscribe among the calls
      and messages so far. */
  lemma TakenIff(s: Conn, reply: Obj)
    requires Queues(s, false) && Traced(s) && !s.aborted
    ensures FateOf(s, reply).Taken? <==>
              || s.replies != []
              || (s.subscribed && match ReadMessage(reply)
                                  case Unexpected => false
                                  case NotMessage => s.invalid != []
                                  case Push(pattern, name, unsubscribe, count) =>
                                    && Latest(HistoryOf(s.log.trace), pattern, name).Some?
                                    && !(unsubscribe && count.None?))
    ensures FateOf(s, reply).Untaken? <==>
              s.replies == [] && s.subscribed && match ReadMessage(reply)
                                                 case Unexpected => false
                                                 case NotMessage => s.invalid == []
                                                 case Push(pattern, name, _, _) =>
                                                   Latest(HistoryOf(s.log.trace), pattern, name).None?
    ensures FateOf(s, reply).Taken? && FateOf(s, reply).why == ForMessage ==>
              var m := ReadMessage(reply);
              m.Push? && Latest(HistoryOf(s.log.trace), m.pattern, m.name) == Some(FateOf(s, reply).cb)
  {
    if ReadMessage(reply).Push? {
      TakenByMessage(s, ReadMessage(reply));
    }
  }

  lemma TakenByMessage(s: Conn, m: Message)
    requires Queues(s, false) && Traced(s) && !s.aborted && m.Push?
    ensures Latest(HistoryOf(s.log.trace), m.pattern, m.name) ==
              if m.name in TableOf(s, m.pattern) then Some(TableOf(s, m.pattern)[m.name]) else None
  {
    assert Latest(s.log.history, m.pattern, m.name) ==
           if m.name in TableOf(s, m.pattern) then Some(TableOf(s, m.pattern)[m.name]) else None;
  }

  /** The callback of an earlier reply runs again if and only if a reply takes no record and there is a function. */
  lemma StaleIff(s: Conn, env: Env, reply: Obj, cb: Callback)
    requires Iterates(env) && Alive(s, env)
    ensures Runs(Processed(s, env, reply, cb).log.ran, Stale) ==
              if FateOf(s, reply).Untaken? && cb.fn.Some? then Runs(s.log.ran, Stale) + [Answer(cb, Some(reply))]
              else Runs(s.log.ran, Stale)
  {
    DispatchedTaking(s, reply);
    FateCases(s, reply);
    ConcludedStale(s, Dispatched(s, reply), env, FateOf(s, reply), Target(FateOf(s, reply), cb), reply);
  }

  lemma ConcludedStale(s: Conn, u: Conn, env: Env, fate: Fate, cb: Callback, reply: Obj)
    requires Iterates(env) && Alive(s, env) && Queues(u, false) && Arriving(s, u, fate, reply) && Taking(s, u, fate, reply)
    requires fate.Taken? ==> fate.cb == cb && fate.why != ForTable && fate.why != Stale
    ensures Runs(Concluded(u, env, fate, reply, cb).log.ran, Stale) ==
              if fate.Untaken? && cb.fn.Some? then Runs(s.log.ran, Stale) + [Answer(cb, Some(reply))]
              else Runs(s.log.ran, Stale)
  {
    if fate.Rejected? {
      BrokenErr(s, u, env);
      DisconnectedGood(u.(err := true), env);
    } else if !fate.Fatal? {
      var why := if fate.Taken? then fate.why else Stale;
      var t := Running(u, env, cb, Some(reply), why);
      AnsweredGood(s, u, env, cb, Some(reply), why, false);
      RanOne(s.log.ran, Ran(Answer(cb, Some(reply)), why), Stale);
      if cb.fn.Some? && !t.aborted && t.freeing {
        TornDownGood(t, env);
      }
    }
  }
}
