/** Runs of the asynchronous connection that break what its comments promise, and that such runs exist. */
module AsyncFailures {
  import opened Resp
  import opened Reply
  import opened Command
  import opened CallbackList
  import opened PubSub
  import opened AsyncSpec

  // ----- A pending callback at a clean disconnect -----

  lemma First(s: Conn, env: Env, events: seq<Event>)
    requires Iterates(env) && events != [] && !Over(s)
    ensures HandledAll(s, env, events) == HandledAll(Handled(s, env, events[0]), env, events[1..])
  {
  }

  /** A regular command on a new connection. */
  lemma SentFirst(env: Env, cb: Callback, argv: seq<seq<Byte>>)
    requires Iterates(env) && argv != [] && Classify(argv).Regular?
    ensures var t := Handled(INITIAL_CONN, env, Act(Send(cb, argv)));
            t == INITIAL_CONN.(replies := [cb], obuf := Format(argv), log := t.log) && t.log.ran == []
  {
    FiledRegular(INITIAL_CONN, Send(cb, argv), ClassOf(argv), Format(argv));
  }

  lemma FiledRegular(s: Conn, action: Action, cls: Option<Class>, cmd: seq<Byte>)
    requires action.Send? && cls == Some(Regular) && !Closing(s) && !s.subscribed
    ensures var t := NoteMade(s, None, action, Verdict(s, cls));
            Submitted(t, action.cb, cls, cmd) == t.(replies := s.replies + [action.cb], obuf := s.obuf + cmd)
  {
  }

  /** The guard of redisProcessCallbacks does not look at the queue: a command that has been sent, a disconnect
      and a read event with no reply yet fail the assertion that the queue is empty. */
  lemma PendingDisconnectAborts(env: Env, cb: Callback, argv: seq<seq<Byte>>, garbage: Callback)
    requires Iterates(env) && argv != [] && Classify(argv).Regular?
    ensures HandledAll(INITIAL_CONN, env,
              [Act(Send(cb, argv)), Writable(|Format(argv)|), Act(Disconnect), Readable([], false, garbage)]).aborted
  {
    var events := [Act(Send(cb, argv)), Writable(|Format(argv)|), Act(Disconnect), Readable([], false, garbage)];
    var s1 := Handled(INITIAL_CONN, env, events[0]);
    SentFirst(env, cb, argv);
    First(INITIAL_CONN, env, events);
    var s2 := Handled(s1, env, events[1]);
    assert s2 == Written(s1, |Format(argv)|) && s2.obuf == [];
    First(s1, env, events[1..]);
    assert events[1..][1..] == events[2..];
    var s3 := Handled(s2, env, events[2]);
    assert s3.replies == [cb] && s3.disconnecting && s3.obuf == [] && !s3.err && !Over(s3);
    First(s2, env, events[2..]);
    assert events[2..][1..] == events[3..];
    First(s3, env, events[3..]);
    assert Handled(s3, env, events[3]) == Disconnected(Marked(s3, ReadEnd(false)), env);
    DisconnectedEnds(Marked(s3, ReadEnd(false)), env);
  }

  // ----- A callback that runs for the reply of another -----

  /** A callback that makes no calls. */
  lemma IdleRunning(s: Conn, env: Env, cb: Callback, reply: Option<Obj>, why: Why)
    requires env.react(s.calls) == [] && cb.fn.Some?
    ensures Running(s, env, cb, reply, why) == Starting(s, cb, reply, why)
  {
  }

  /** A message for a name nobody subscribed to runs the callback of the reply before it once more. */
  lemma StaleCallbackRuns(s: Conn, env: Env, cb: Callback, reply: Obj, message: Obj, garbage: Callback)
    requires Iterates(env) && env.react(s.calls) == [] && env.react(s.calls + 1) == []
    requires !Over(s) && !Closing(s) && s.subscribed && s.replies == [cb] && cb.fn.Some?
    requires ReadMessage(message).Push? && ReadMessage(message).name !in TableOf(s, ReadMessage(message).pattern)
    ensures HandledAll(s, env, [Readable([reply, message], false, garbage)]).log.ran ==
              s.log.ran + [Ran(Answer(cb, Some(reply)), ForRegular), Ran(Answer(cb, Some(message)), Stale)]
  {
    var inbox := [reply, message];
    var u1 := ShiftingReply(Receiving(s, reply, ForRegular), Some(reply));
    var s1 := Processed(s, env, reply, garbage);
    IdleRunning(u1, env, cb, Some(reply), ForRegular);
    assert s1 == Starting(u1, cb, Some(reply), ForRegular);
    var u2 := Receiving(s1, message, Stale);
    var s2 := Processed(s1, env, message, cb);
    IdleRunning(u2, env, cb, Some(message), Stale);
    assert s2 == Starting(u2, cb, Some(message), Stale);
    assert inbox[1..] == [message] && inbox[1..][1..] == [];
    assert Replied(s, env, inbox, garbage) == Replied(s1, env, inbox[1..], cb) == Replied(s2, env, [], cb) == s2;
    First(s, env, [Readable(inbox, false, garbage)]);
  }

  /** A subscribe on an open connection. */
  lemma FiledSubscribe(s: Conn, action: Action, cls: Option<Class>, cmd: seq<Byte>)
    requires action.Send? && cls.Some? && cls.value.Subscribe? && !Closing(s)
    ensures var t := NoteMade(s, None, action, Verdict(s, cls));
            Submitted(t, action.cb, cls, cmd) ==
              Registering(t, action.cb, cls.value.pattern, cls.value.names).(obuf := s.obuf + cmd)
  {
  }

  /** Such a message exists on a new connection: a regular command, a subscribe to other names, the reply to the first
      and the message. The callback of the first command runs twice, and the subscriber never. */
  lemma StaleRun(env: Env, cb: Callback, argv: seq<seq<Byte>>, sub: Callback, subscribe: seq<seq<Byte>>,
                 reply: Obj, message: Obj, garbage: Callback)
    requires Iterates(env) && env.react(0) == [] && env.react(1) == [] && cb.fn.Some?
    requires argv != [] && Classify(argv).Regular? && subscribe != [] && Classify(subscribe).Subscribe?
    requires ReadMessage(message).Push? && ReadMessage(message).pattern == Classify(subscribe).pattern
    requires ReadMessage(message).name !in Classify(subscribe).names
    ensures HandledAll(INITIAL_CONN, env, [Act(Send(cb, argv)), Act(Send(sub, subscribe)),
                                           Readable([reply, message], false, garbage)]).log.ran ==
              [Ran(Answer(cb, Some(reply)), ForRegular), Ran(Answer(cb, Some(message)), Stale)]
  {
    var events := [Act(Send(cb, argv)), Act(Send(sub, subscribe)), Readable([reply, message], false, garbage)];
    var s1 := Handled(INITIAL_CONN, env, events[0]);
    SentFirst(env, cb, argv);
    First(INITIAL_CONN, env, events);
    var s2 := Handled(s1, env, events[1]);
    FiledSubscribe(s1, Send(sub, subscribe), ClassOf(subscribe), Format(subscribe));
    EnterAllAt(map[], Classify(subscribe).names, sub, ReadMessage(message).name);
    First(s1, env, events[1..]);
    assert events[1..][1..] == [events[2]];
    StaleCallbackRuns(s2, env, cb, reply, message, garbage);
  }

  // ----- There are such runs -----

  /** The names of a table in some order. */
  ghost function Listing(names: set<seq<Byte>>): seq<seq<Byte>> {
    if names == {} then []
    else
      var n :| n in names;
      [n] + Listing(names - {n})
  }

  lemma {:induction false} ListingAll(names: set<seq<Byte>>)
    ensures forall n :: n in names <==> n in Listing(names)
    ensures forall i, j :: 0 <= i < j < |Listing(names)| ==> Listing(names)[i] != Listing(names)[j]
  {
    if names != {} {
      var s := Listing(names);
      assert s[0] in names && s[1..] == Listing(names - {s[0]});
      ListingAll(names - {s[0]});
      forall n
        ensures n in names <==> n in s
      {
        assert n in s <==> n == s[0] || n in s[1..];
      }
    }
  }

  /** Whatever the callbacks do, some order of iteration goes with it. */
  ghost function WithListing(react: nat -> seq<Action>): Env {
    Env(react, (pattern: bool, table: Table) => Listing(table.Keys))
  }

  lemma EnvExists(react: nat -> seq<Action>)
    ensures Iterates(WithListing(react))
  {
    forall p, t
      ensures Enumerates(t, WithListing(react).order(p, t))
    {
      ListingAll(t.Keys);
    }
  }

  const GET_X: seq<seq<Byte>> := [[71, 69, 84], [120]]
  const SUBSCRIBE_A: seq<seq<Byte>> := [[83, 85, 66, 83, 67, 82, 73, 66, 69], [97]]

  /** The message "hi" on a channel. */
  function MessageOn(name: seq<Byte>): Obj {
    var text := s => Full(StrObj(StringReply, s));
    ArrObj(3, [text([109, 101, 115, 115, 97, 103, 101]), text(name), text([104, 105])])
  }

  lemma GetClass()
    ensures Classify(GET_X) == Regular
  {
    ClassifyByName(GET_X);
  }

  lemma SubscribeClass()
    ensures Classify(SUBSCRIBE_A) == Subscribe(false, [[97]])
  {
    var name := SUBSCRIBE_A[0];
    assert !IsPattern(name) && SkipP(name) == name && SameFold(name, SUBSCRIBE);
    ClassifyByName(SUBSCRIBE_A);
    assert SUBSCRIBE_A[1..] == [[97]];
  }

  lemma {:induction false} CStringShort(s: seq<Byte>)
    ensures |CString(s)| <= |s|
  {
    if s != [] && s[0] != 0 {
      CStringShort(s[1..]);
    }
  }

  lemma MessageClass(name: seq<Byte>)
    ensures ReadMessage(MessageOn(name)) == Push(false, name, false, None)
  {
    CStringShort([109, 101, 115, 115, 97, 103, 101]);
  }

  /** GET x and SUBSCRIBE a; the value of x, and a message on b. */
  lemma StaleInstance(value: Obj, garbage: Callback)
    ensures var env, get, sub := WithListing(n => []), Callback(Some(1), 0), Callback(Some(2), 0);
            Iterates(env)
            && HandledAll(INITIAL_CONN, env, [Act(Send(get, GET_X)), Act(Send(sub, SUBSCRIBE_A)),
                                              Readable([value, MessageOn([98])], false, garbage)]).log.ran ==
                 [Ran(Answer(get, Some(value)), ForRegular), Ran(Answer(get, Some(MessageOn([98]))), Stale)]
  {
    var env, get, sub := WithListing(n => []), Callback(Some(1), 0), Callback(Some(2), 0);
    EnvExists(n => []);
    GetClass();
    SubscribeClass();
    MessageClass([98]);
    StaleRun(env, get, GET_X, sub, SUBSCRIBE_A, value, MessageOn([98]), garbage);
  }
}
