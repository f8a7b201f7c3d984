/** The asynchronous connection of async.c: linked queues of callbacks, callbacks that re-enter the API,
    deferred disconnect and teardown. */
module Async {
  import opened Resp
  import opened Reply
  import opened ReplyCodec
  import opened Command
  import opened Arguments
  import opened CallbackList
  import opened PubSub
  import opened AsyncSpec
  import AsyncRuns
  import AsyncEnds

  // ----- Reading commands -----

  /** The first nextArgument on a formatted command. */
  lemma FirstArgument(argv: seq<seq<Byte>>)
    ensures argv == [] ==> !NextArgument(Format(argv)).Argument?
    ensures argv != [] ==> NextArgument(Format(argv)) == Argument(argv[0], Bulks(argv[1..]))
    ensures argv != [] ==> (|argv| > 1 <==> Bulks(argv[1..]) != [] && Bulks(argv[1..])[0] == 36)
  {
    NextOfFormat(argv);
    Unread(argv);
    if argv != [] {
      NextOfBulk(argv[0], Bulks(argv[1..]));
    }
  }

  datatype CommandKind = Missing | IsSubscribe | IsUnsubscribe | Other

  /** What was found in the formatted bytes, against what the command is taken for. */
  ghost predicate Reads(kind: CommandKind, pattern: bool, p: seq<Byte>, cls: Option<Class>) {
    match cls
    case None => kind == Missing
    case Some(Subscribe(pat, names)) => kind == IsSubscribe && pattern == pat && p == Bulks(names)
    case Some(Unsubscribe) => kind == IsUnsubscribe
    case Some(Regular) => kind == Other
  }

  /** Which command is about to be sent, from its formatted bytes. */
  method FindCommand(cmd: seq<Byte>, ghost argv: seq<seq<Byte>>) returns (kind: CommandKind, pattern: bool, p: seq<Byte>)
    requires cmd == Format(argv)
    ensures Reads(kind, pattern, p, ClassOf(argv))
  {
    FirstArgument(argv);
    var first := NextArgument(cmd);
    if !first.Argument? {
      return Missing, false, [];
    }
    p := first.next;
    var cstr := first.str + CRLF + p;
    pattern := IsPattern(cstr);
    kind := if p != [] && p[0] == 36 && Starts(SkipP(cstr), SUBSCRIBE) then IsSubscribe
            else if Starts(SkipP(cstr), UNSUBSCRIBE) then IsUnsubscribe
            else Other;
  }

  // ----- The connection -----

  class Context {
    const env: Env
    const replies: List
    const invalid: List
    var calls: nat
    var subscribed: bool
    var disconnecting: bool
    var freeing: bool
    var inCallback: bool
    var err: bool
    var obuf: seq<Byte>
    var channels: Table
    var patterns: Table
    var freed: bool
    var aborted: bool
    ghost var log: Log

    ghost predicate Valid()
      reads replies, replies.repr, invalid, invalid.repr
    {
      && replies.Valid() && invalid.Valid() && replies != invalid && replies.repr !! invalid.repr
      && Iterates(env)
    }

    /** Only new cells have been added to the queues. */
    twostate predicate Grown()
      reads replies, invalid
    {
      fresh(replies.repr - old(replies.repr)) && fresh(invalid.repr - old(invalid.repr))
    }

    ghost function Abs(): Conn
      reads this, replies, invalid
    {
      Conn(calls, subscribed, disconnecting, freeing, err, obuf, replies.queue, invalid.queue,
           channels, patterns, freed, aborted, log)
    }

    /** redisAsyncInitialize. */
    constructor (env: Env)
      requires Iterates(env)
      ensures Valid() && fresh(replies) && fresh(invalid) && replies.repr == {} && invalid.repr == {}
      ensures Abs() == INITIAL_CONN && !inCallback && this.env == env
    {
      this.env := env;
      replies := new List();
      invalid := new List();
      calls, subscribed, disconnecting, freeing, inCallback, err := 0, false, false, false, false, false;
      obuf, channels, patterns := [], map[], map[];
      freed, aborted, log := false, false, EMPTY_LOG;
    }

    ghost method Note(who: Option<nat>, action: Action, effect: Effect)
      modifies `log
      ensures Abs() == NoteMade(old(Abs()), who, action, effect)
    {
      var m := Made(who, action, effect);
      log := log.(trace := log.trace + [Call(m)], made := log.made + [m]);
    }

    ghost method Mark(item: Item)
      modifies `log
      ensures Abs() == Marked(old(Abs()), item)
    {
      log := log.(trace := log.trace + [item]);
    }

    // ----- Commands -----

    /** The command goes to the queue for its kind. */
    method Enqueue(cb: Callback)
      requires Valid()
      modifies replies, replies.repr, invalid, invalid.repr
      ensures Valid() && Grown()
      ensures Abs() == if subscribed then old(Abs()).(invalid := old(Abs()).invalid + [cb])
                       else old(Abs()).(replies := old(Abs()).replies + [cb])
    {
      if subscribed {
        invalid.Push(cb);
      } else {
        replies.Push(cb);
      }
    }

    /** The names are entered in the table for their kind. */
    method Register(cb: Callback, pattern: bool, p: seq<Byte>, ghost names: seq<seq<Byte>>)
      requires p == Bulks(names)
      modifies `subscribed, `channels, `patterns, `log
      ensures Abs() == Registering(old(Abs()), cb, pattern, names)
    {
      subscribed := true;
      if pattern {
        patterns := SubscribeAll(patterns, p, cb, names);
      } else {
        channels := SubscribeAll(channels, p, cb, names);
      }
      log := log.(history := log.history + Subs(pattern, names, cb));
    }

    /** The middle part of __redisAsyncCommand. */
    method File(kind: CommandKind, pattern: bool, p: seq<Byte>, cb: Callback, ghost cls: Class) returns (ok: bool)
      requires Valid() && Reads(kind, pattern, p, Some(cls))
      modifies `subscribed, `channels, `patterns, `log, replies, replies.repr, invalid, invalid.repr
      ensures Valid() && Grown()
      ensures ok == !(cls.Unsubscribe? && !old(subscribed)) && Abs() == Filed(old(Abs()), cb, cls)
    {
      ok := true;
      if kind == IsSubscribe {
        Register(cb, pattern, p, cls.names);
      } else if kind == IsUnsubscribe {
        ok := subscribed;
      } else {
        Enqueue(cb);
      }
    }

    /** __redisAsyncCommand once the command has been read. */
    method Submit(kind: CommandKind, pattern: bool, p: seq<Byte>, cb: Callback, cmd: seq<Byte>, ghost cls: Option<Class>)
      returns (ok: bool)
      requires Valid() && Reads(kind, pattern, p, cls) && !Closing(Abs())
      modifies `subscribed, `obuf, `channels, `patterns, `aborted, `log, replies, replies.repr, invalid, invalid.repr
      ensures Valid() && Grown() && Abs() == Submitted(old(Abs()), cb, cls, cmd)
      ensures ok == !Verdict(old(Abs()), cls).Refused?
    {
      if kind == Missing {
        aborted := true;
        return false;
      }
      ok := File(kind, pattern, p, cb, cls.value);
      if ok {
        obuf := obuf + cmd;
      }
    }

    /** __redisAsyncCommand on a formatted command. */
    method Command(cb: Callback, cmd: seq<Byte>, ghost argv: seq<seq<Byte>>, ghost who: Option<nat>) returns (ok: bool)
      requires Valid() && cmd == Format(argv)
      modifies `subscribed, `obuf, `channels, `patterns, `aborted, `log, replies, replies.repr, invalid, invalid.repr
      ensures Valid() && Grown() && Abs() == Sent(old(Abs()), who, cb, argv)
      ensures ok == !Verdict(old(Abs()), ClassOf(argv)).Refused?
    {
      Note(who, Send(cb, argv), Verdict(Abs(), ClassOf(argv)));
      if disconnecting || freeing {
        return false;
      }
      var kind, pattern, p := FindCommand(cmd, argv);
      ok := Submit(kind, pattern, p, cb, cmd, ClassOf(argv));
    }

    // ----- Callbacks -----

    /** The callback flag is set, and the callback gets its number. */
    method Enter(ghost cb: Callback, ghost reply: Option<Obj>, ghost why: Why) returns (n: nat)
      modifies `inCallback, `calls, `log
      ensures inCallback && n == old(calls) && Abs() == Starting(old(Abs()), cb, reply, why)
    {
      inCallback := true;
      log := log.(ran := log.ran + [Ran(Answer(cb, reply), why)]);
      n := calls;
      calls := calls + 1;
    }

    method Leave()
      modifies `inCallback
      ensures !inCallback && Abs() == old(Abs())
    {
      inCallback := false;
    }

    /** The body of callback `n`. */
    method Do(actions: seq<Action>, ghost n: nat)
      requires Valid() && inCallback
      modifies this, replies, replies.repr, invalid, invalid.repr
      ensures Valid() && Grown() && inCallback
      ensures Abs() == DoingAll(old(Abs()), n, actions)
      decreases !inCallback, 5
    {
      var i := 0;
      assert actions[0..] == actions;
      while i < |actions| && !aborted
        invariant 0 <= i <= |actions| && Valid() && Grown() && inCallback
        invariant DoingAll(Abs(), n, actions[i..]) == DoingAll(old(Abs()), n, actions)
      {
        assert actions[i..][1..] == actions[i + 1..];
        DoOne(actions[i], n);
        i := i + 1;
      }
    }

    method DoOne(action: Action, ghost n: nat)
      requires Valid() && inCallback
      modifies this, replies, replies.repr, invalid, invalid.repr
      ensures Valid() && Grown() && inCallback
      ensures Abs() == Doing(old(Abs()), n, action)
      decreases !inCallback, 4
    {
      match action
      case Send(cb, argv) =>
        var ok := Command(cb, Format(argv), argv, Some(n));
      case Disconnect =>
        AsyncDisconnect(Some(n));
      case Free =>
        AsyncFree(Some(n));
    }

    /** __redisRunCallback. */
    method RunCallback(cb: Callback, reply: Option<Obj>, ghost why: Why)
      requires Valid() && !inCallback
      modifies this, replies, replies.repr, invalid, invalid.repr
      ensures Valid() && Grown() && !inCallback
      ensures Abs() == Running(old(Abs()), env, cb, reply, why)
      decreases !inCallback, 0
    {
      if cb.fn.Some? {
        var n := Enter(cb, reply, why);
        Do(env.react(n), n);
        Leave();
      }
    }

    // ----- Teardown -----

    /** The next regular record, if there is one. */
    method ShiftReply(ghost reply: Option<Obj>) returns (cb: Option<Callback>)
      requires Valid()
      modifies replies, `log
      ensures Valid() && replies.repr == old(replies.repr) && invalid.repr == old(invalid.repr)
      ensures cb.None? <==> old(Abs()).replies == []
      ensures cb.None? ==> Abs() == old(Abs())
      ensures cb.Some? ==> cb.value == old(Abs()).replies[0] && Abs() == ShiftingReply(old(Abs()), reply)
    {
      cb := replies.Shift();
      if cb.Some? {
        log := log.(answered := log.answered + [Answer(cb.value, reply)]);
      }
    }

    /** The next record of a command sent while subscribed, if there is one. */
    method ShiftAside(ghost reply: Option<Obj>) returns (cb: Option<Callback>)
      requires Valid()
      modifies invalid, `log
      ensures Valid() && replies.repr == old(replies.repr) && invalid.repr == old(invalid.repr)
      ensures cb.None? <==> old(Abs()).invalid == []
      ensures cb.None? ==> Abs() == old(Abs())
      ensures cb.Some? ==> cb.value == old(Abs()).invalid[0] && Abs() == ShiftingAside(old(Abs()), reply)
    {
      cb := invalid.Shift();
      if cb.Some? {
        log := log.(answeredAside := log.answeredAside + [Answer(cb.value, reply)]);
      }
    }

    /** The oldest regular record is answered by null. */
    method DrainReply() returns (more: bool)
      requires Valid() && !inCallback && Closing(Abs())
      modifies this, replies, replies.repr, invalid, invalid.repr
      ensures Valid() && Grown() && !inCallback && Closing(Abs()) && (more <==> old(Abs()).replies != [])
      ensures DrainingReplies(Abs(), env) == DrainingReplies(old(Abs()), env)
      ensures !more ==> Abs() == old(Abs())
      ensures more ==> |Abs().replies| < |old(Abs()).replies|
      decreases !inCallback, 1, 0
    {
      var cb := ShiftReply(None);
      more := cb.Some?;
      if more {
        RunningStill(Abs(), env, cb.value, None, ForRegular);
        RunCallback(cb.value, None, ForRegular);
      }
    }

    /** Teardown of the queue of regular callbacks: it ends because callbacks can add nothing. */
    method DrainReplies()
      requires Valid() && !inCallback && Closing(Abs())
      modifies this, replies, replies.repr, invalid, invalid.repr
      ensures Valid() && Grown() && !inCallback
      ensures Abs() == DrainingReplies(old(Abs()), env)
      decreases !inCallback, 1, 1
    {
      while true
        invariant Valid() && Grown() && !inCallback && Closing(Abs())
        invariant DrainingReplies(Abs(), env) == DrainingReplies(old(Abs()), env)
        decreases |Abs().replies|
      {
        var more := DrainReply();
        if !more {
          return;
        }
      }
    }

    /** The oldest record of a command sent while subscribed is answered by null. */
    method DrainOneAside() returns (more: bool)
      requires Valid() && !inCallback && Closing(Abs())
      modifies this, replies, replies.repr, invalid, invalid.repr
      ensures Valid() && Grown() && !inCallback && Closing(Abs()) && (more <==> old(Abs()).invalid != [])
      ensures DrainingAside(Abs(), env) == DrainingAside(old(Abs()), env)
      ensures !more ==> Abs() == old(Abs())
      ensures more ==> |Abs().invalid| < |old(Abs()).invalid|
      decreases !inCallback, 1, 0
    {
      var cb := ShiftAside(None);
      more := cb.Some?;
      if more {
        RunningStill(Abs(), env, cb.value, None, ForAside);
        RunCallback(cb.value, None, ForAside);
      }
    }

    /** Teardown of the queue of commands sent while subscribed. */
    method DrainAside()
      requires Valid() && !inCallback && Closing(Abs())
      modifies this, replies, replies.repr, invalid, invalid.repr
      ensures Valid() && Grown() && !inCallback
      ensures Abs() == DrainingAside(old(Abs()), env)
      decreases !inCallback, 1, 1
    {
      while true
        invariant Valid() && Grown() && !inCallback && Closing(Abs())
        invariant DrainingAside(Abs(), env) == DrainingAside(old(Abs()), env)
        decreases |Abs().invalid|
      {
        var more := DrainOneAside();
        if !more {
          return;
        }
      }
    }

    /** Teardown of one table. */
    method DrainTable(table: Table, names: seq<seq<Byte>>)
      requires Valid() && !inCallback && Closing(Abs())
      requires forall i :: 0 <= i < |names| ==> names[i] in table
      modifies this, replies, replies.repr, invalid, invalid.repr
      ensures Valid() && Grown() && !inCallback
      ensures Abs() == DrainingTable(old(Abs()), env, Listed(table, names))
      decreases !inCallback, 1
    {
      var i := 0;
      ghost var q := Listed(table, names);
      assert q[0..] == q;
      while i < |names|
        invariant 0 <= i <= |names| && Valid() && Grown() && !inCallback && Closing(Abs())
        invariant DrainingTable(Abs(), env, q[i..]) == DrainingTable(old(Abs()), env, q)
      {
        assert q[i..][1..] == q[i + 1..];
        RunningStill(Abs(), env, q[i], None, ForTable);
        RunCallback(table[names[i]], None, ForTable);
        i := i + 1;
      }
    }

    /** The first half of __redisAsyncFree. */
    method DrainQueues()
      requires Valid() && !inCallback && Closing(Abs())
      modifies this, replies, replies.repr, invalid, invalid.repr
      ensures Valid() && Grown() && !inCallback
      ensures Abs() == Drained(old(Abs()), env)
      decreases !inCallback, 2, 0
    {
      DrainedReplies(Abs(), env);
      DrainReplies();
      DrainAside();
    }

    /** The second half of __redisAsyncFree. */
    method DrainTables()
      requires Valid() && !inCallback && Closing(Abs())
      modifies this, replies, replies.repr, invalid, invalid.repr
      ensures Valid() && Grown() && !inCallback
      ensures Abs() == TablesDrained(old(Abs()), env)
      decreases !inCallback, 2, 0
    {
      var names, names' := env.order(false, channels), env.order(true, patterns);
      assert Enumerates(channels, names) && Enumerates(patterns, names');
      DrainedTable(Abs(), env, Listed(channels, names));
      DrainTable(channels, names);
      DrainTable(patterns, names');
    }

    /** All pending callbacks. */
    method DrainAll()
      requires Valid() && !inCallback && Closing(Abs())
      modifies this, replies, replies.repr, invalid, invalid.repr
      ensures Valid() && Grown() && !inCallback
      ensures Abs() == TablesDrained(Drained(old(Abs()), env), env)
      decreases !inCallback, 2, 1
    {
      DrainedKin(Abs(), env);
      DrainQueues();
      DrainTables();
    }

    ghost method Tear()
      modifies `log
      ensures Abs() == Tearing(old(Abs()))
    {
      log := log.(tornAt := Some(calls));
    }

    method Release()
      modifies `freed
      ensures Abs() == old(Abs()).(freed := true)
    {
      freed := true;
    }

    /** __redisAsyncFree. */
    method Teardown()
      requires Valid() && !inCallback && Closing(Abs())
      modifies this, replies, replies.repr, invalid, invalid.repr
      ensures Valid() && Grown() && !inCallback
      ensures Abs() == TornDown(old(Abs()), env)
      decreases !inCallback, 2, 2
    {
      Tear();
      DrainAll();
      Release();
    }

    /** redisAsyncFree. */
    method AsyncFree(ghost who: Option<nat>)
      requires Valid() && (inCallback <==> who.Some?) && (!inCallback ==> !Over(Abs()))
      modifies this, replies, replies.repr, invalid, invalid.repr
      ensures Valid() && Grown() && inCallback == old(inCallback)
      ensures Abs() == if who.Some? then Doing(old(Abs()), who.value, Free) else Acted(old(Abs()), env, Free)
      decreases !inCallback, 3
    {
      freeing := true;
      Note(who, Free, Noted);
      if !inCallback {
        Teardown();
      }
    }

    /** __redisAsyncDisconnect. */
    method InternalDisconnect()
      requires Valid() && !inCallback && (err || Closing(Abs())) && !aborted
      modifies this, replies, replies.repr, invalid, invalid.repr
      ensures Valid() && Grown() && !inCallback
      ensures Abs() == Disconnected(old(Abs()), env)
      decreases !inCallback, 3, 0
    {
      if !err {
        var cb := replies.Shift();
        if cb.Some? {
          aborted := true;
          return;
        }
      } else {
        disconnecting := true;
      }
      Teardown();
    }

    /** An error ends the connection. */
    method Fail()
      requires Valid() && !inCallback && !aborted
      modifies this, replies, replies.repr, invalid, invalid.repr
      ensures Valid() && Grown() && !inCallback
      ensures Abs() == Disconnected(old(Abs()).(err := true), env)
      decreases !inCallback, 3, 1
    {
      err := true;
      InternalDisconnect();
    }

    /** redisAsyncDisconnect. */
    method AsyncDisconnect(ghost who: Option<nat>)
      requires Valid() && (inCallback <==> who.Some?) && (!inCallback ==> !Over(Abs()))
      modifies this, replies, replies.repr, invalid, invalid.repr
      ensures Valid() && Grown() && inCallback == old(inCallback)
      ensures Abs() == if who.Some? then Doing(old(Abs()), who.value, Disconnect)
                       else Acted(old(Abs()), env, Disconnect)
      decreases !inCallback, 3, 1
    {
      disconnecting := true;
      Note(who, Disconnect, Noted);
      if !inCallback && replies.head == null {
        InternalDisconnect();
      }
    }

    // ----- Replies -----

    /** An unsubscribe message removes its name from its table and from no other. */
    method Unregister(pattern: bool, name: seq<Byte>)
      modifies `channels, `patterns, `log
      ensures Abs() == Unregistering(old(Abs()), pattern, name)
    {
      if pattern {
        patterns := patterns - {name};
      } else {
        channels := channels - {name};
      }
      log := log.(history := log.history + [Unsubscribed(pattern, name)]);
    }

    /** What a message for a known name changes. */
    method Message(m: Message)
      requires m.Push?
      modifies `subscribed, `channels, `patterns, `aborted, `log
      ensures Abs() == Messaged(old(Abs()), m)
    {
      if m.unsubscribe {
        Unregister(m.pattern, m.name);
        if m.count.None? {
          aborted := true;
        } else if m.count.value == 0 {
          subscribed := false;
        }
      }
    }

    /** A reply is logged with what it is for. */
    ghost method Receive(reply: Obj, why: Why)
      modifies `log
      ensures Abs() == Receiving(old(Abs()), reply, why)
    {
      var g := Got(reply, why);
      log := log.(trace := log.trace + [Arrival(g)], received := log.received + [g]);
    }

    /** A message for a known name; one assertion may still fail. */
    method Follow(reply: Obj, m: Message) returns (ok: bool)
      requires m.Push? && !aborted
      modifies `subscribed, `channels, `patterns, `aborted, `log
      ensures ok == !(m.unsubscribe && m.count.None?) && aborted == !ok
      ensures Abs() == Messaged(if ok then Receiving(old(Abs()), reply, ForMessage) else Marked(old(Abs()), Stray(reply)), m)
    {
      ok := !(m.unsubscribe && m.count.None?);
      if ok {
        Receive(reply, ForMessage);
      } else {
        Mark(Stray(reply));
      }
      Message(m);
    }

    /** A message is for the subscriber of its name. */
    method TakeMessage(reply: Obj, m: Message, cb: Callback) returns (cb': Callback, taken: bool)
      requires m.Push? && !aborted
      modifies `subscribed, `channels, `patterns, `aborted, `log
      ensures Abs() == MessageDispatched(old(Abs()), reply, m)
      ensures var fate := MessageFate(old(Abs()), m);
              (fate.Fatal? <==> aborted) && taken == fate.Taken? && cb' == Target(fate, cb)
    {
      cb', taken := cb, false;
      var table := if m.pattern then patterns else channels;
      if m.name in table {
        taken := Follow(reply, m);
        if taken {
          cb' := table[m.name];
        }
      } else {
        Receive(reply, Stale);
      }
    }

    /** A reply that is not a message is for the oldest command sent while subscribed. */
    method TakeAside(reply: Obj, cb: Callback) returns (cb': Callback, taken: bool)
      requires Valid()
      modifies `log, invalid
      ensures Valid() && Grown()
      ensures taken == (old(Abs()).invalid != []) && cb' == if taken then old(Abs()).invalid[0] else cb
      ensures Abs() == if taken then ShiftingAside(Receiving(old(Abs()), reply, ForAside), Some(reply))
                       else Receiving(old(Abs()), reply, Stale)
    {
      cb', taken := cb, false;
      Receive(reply, if Abs().invalid == [] then Stale else ForAside);
      var target := ShiftAside(Some(reply));
      if target.Some? {
        cb', taken := target.value, true;
      }
    }

    /** __redisGetSubscribeCallback. It tells whether it has set its target. */
    method GetSubscribeCallback(reply: Obj, m: Message, cb: Callback) returns (cb': Callback, taken: bool)
      requires Valid() && !aborted
      modifies `subscribed, `channels, `patterns, `aborted, `log, invalid
      ensures Valid() && Grown() && Abs() == MessageDispatched(old(Abs()), reply, m)
      ensures var fate := MessageFate(old(Abs()), m);
              (fate.Fatal? <==> aborted) && taken == fate.Taken? && cb' == Target(fate, cb)
    {
      cb', taken := cb, false;
      match m
      case Unexpected =>
        Mark(Stray(reply));
        aborted := true;
      case NotMessage =>
        cb', taken := TakeAside(reply, cb);
      case Push(_, _, _, _) =>
        cb', taken := TakeMessage(reply, m, cb);
    }

    /** The oldest regular record is answered. */
    method TakeReply(reply: Obj) returns (cb: Callback)
      requires Valid() && Abs().replies != []
      modifies `log, replies
      ensures Valid() && Grown() && cb == old(Abs()).replies[0]
      ensures Abs() == ShiftingReply(Receiving(old(Abs()), reply, ForRegular), Some(reply))
    {
      Receive(reply, ForRegular);
      var target := ShiftReply(Some(reply));
      cb := target.value;
    }

    /** Whose reply this is. The record is that of the oldest regular command, else of a subscription; when
        none is taken, `cb` stays as it was. */
    method Dispatch(reply: Obj, cb: Callback) returns (cb': Callback, rejected: bool, taken: bool)
      requires Valid() && !aborted
      modifies `subscribed, `channels, `patterns, `aborted, `log, replies, invalid
      ensures Valid() && Grown() && Abs() == Dispatched(old(Abs()), reply)
      ensures var fate := FateOf(old(Abs()), reply);
              rejected == fate.Rejected? && (fate.Fatal? <==> aborted) && taken == fate.Taken? && cb' == Target(fate, cb)
    {
      cb', rejected, taken := cb, false, false;
      if replies.head != null {
        cb' := TakeReply(reply);
        taken := true;
      } else if !subscribed {
        Mark(Stray(reply));
        rejected := IsError(reply);
        aborted := !rejected;
      } else {
        cb', taken := GetSubscribeCallback(reply, ReadMessage(reply), cb);
      }
    }

    /** The end of a round: the callback runs, and a free it asks for is carried out. */
    method Serve(cb: Callback, reply: Obj, ghost why: Why)
      requires Valid() && !inCallback
      modifies this, replies, replies.repr, invalid, invalid.repr
      ensures Valid() && Grown() && !inCallback
      ensures Abs() == Called(old(Abs()), env, cb, reply, why)
    {
      if cb.fn.Some? {
        RunCallback(cb, Some(reply), why);
        if !aborted && freeing {
          Teardown();
        }
      }
    }

    /** The rest of a round, once the reply has met its fate. */
    method Conclude(reply: Obj, cb: Callback, rejected: bool, ghost fate: Fate)
      requires Valid() && !inCallback && rejected == fate.Rejected? && (fate.Fatal? <==> aborted)
      modifies this, replies, replies.repr, invalid, invalid.repr
      ensures Valid() && Grown() && !inCallback
      ensures Abs() == Concluded(old(Abs()), env, fate, reply, cb)
    {
      if rejected {
        Fail();
      } else if !aborted {
        Serve(cb, reply, if fate.Taken? then fate.why else Stale);
      }
    }

    /** One round of the loop in redisProcessCallbacks. */
    method Process(reply: Obj, cb: Callback) returns (cb': Callback)
      requires Valid() && !inCallback && !aborted
      modifies this, replies, replies.repr, invalid, invalid.repr
      ensures Valid() && Grown() && !inCallback && Abs() == Processed(old(Abs()), env, reply, cb)
      ensures cb' == Target(FateOf(old(Abs()), reply), cb)
    {
      ghost var fate := FateOf(Abs(), reply);
      var rejected, taken;
      cb', rejected, taken := Dispatch(reply, cb);
      Conclude(reply, cb', rejected, fate);
    }

    /** The end of redisProcessCallbacks. */
    method EndRead(failed: bool)
      requires Valid() && !inCallback && !aborted
      modifies this, replies, replies.repr, invalid, invalid.repr
      ensures Valid() && Grown() && !inCallback && Abs() == ReadOut(old(Abs()), env, failed)
    {
      Mark(ReadEnd(failed));
      if failed {
        Fail();
      } else if disconnecting && obuf == [] {
        InternalDisconnect();
      }
    }

    /** The loop of redisProcessCallbacks over the replies there are. */
    method Reply(inbox: seq<Obj>, cb: Callback)
      requires Valid() && !inCallback
      modifies this, replies, replies.repr, invalid, invalid.repr
      ensures Valid() && Grown() && !inCallback && Abs() == Replied(old(Abs()), env, inbox, cb)
    {
      var i, cb' := 0, cb;
      assert inbox[0..] == inbox;
      while i < |inbox| && !freed && !aborted
        invariant 0 <= i <= |inbox| && Valid() && Grown() && !inCallback
        invariant Replied(Abs(), env, inbox[i..], cb') == Replied(old(Abs()), env, inbox, cb)
      {
        assert inbox[i..][1..] == inbox[i + 1..];
        cb' := Process(inbox[i], cb');
        i := i + 1;
      }
    }

    /** redisProcessCallbacks on the replies the reader holds, and whether it then reports an error.
        `cb` is what the uninitialised local holds on entry. */
    method ProcessCallbacks(inbox: seq<Obj>, failed: bool, cb: Callback)
      requires Valid() && !inCallback
      modifies this, replies, replies.repr, invalid, invalid.repr
      ensures Valid() && Grown() && !inCallback
      ensures Abs() == ProcessedAll(old(Abs()), env, inbox, failed, cb)
    {
      Reply(inbox, cb);
      if !freed && !aborted {
        EndRead(failed);
      }
    }

    // ----- Events -----

    /** A call by the user, outside any callback. */
    method Perform(action: Action)
      requires Valid() && !inCallback && !Over(Abs())
      modifies this, replies, replies.repr, invalid, invalid.repr
      ensures Valid() && Grown() && !inCallback && Abs() == Acted(old(Abs()), env, action)
    {
      match action
      case Send(cb, argv) =>
        var ok := Command(cb, Format(argv), argv, None);
      case Disconnect =>
        AsyncDisconnect(None);
      case Free =>
        AsyncFree(None);
    }

    /** The first bytes of the output leave. */
    method Write(n: nat)
      requires Valid() && !inCallback
      modifies `obuf, `log
      ensures Valid() && Grown() && !inCallback && Abs() == Written(old(Abs()), n)
    {
      var k := if n <= |obuf| then n else |obuf|;
      log := log.(written := log.written + obuf[..k]);
      obuf := obuf[k..];
      Mark(Wrote(n));
    }

    /** One event of the loop: a call by the user, or an event on the socket. */
    method Handle(event: Event)
      requires Valid() && !inCallback && !Over(Abs())
      modifies this, replies, replies.repr, invalid, invalid.repr
      ensures Valid() && Grown() && !inCallback && Abs() == Handled(old(Abs()), env, event)
    {
      match event
      case Act(action) =>
        Perform(action);
      case Readable(inbox, failed, garbage) =>
        ProcessCallbacks(inbox, failed, garbage);
      case Writable(n) =>
        Write(n);
      case SocketError =>
        Mark(Broken);
        Fail();
    }
  }

  /** Every run, whatever the user's callbacks do, is the run of the specification and keeps its promise. */
  method Run(env: Env, events: seq<Event>) returns (ctx: Context)
    requires Iterates(env)
    ensures ctx.Valid() && ctx.Abs() == HandledAll(INITIAL_CONN, env, events)
    ensures AsyncRuns.Promised(ctx.Abs(), env, events) && AsyncEnds.Follows(ctx.Abs(), events)
  {
    ctx := new Context(env);
    var i := 0;
    assert events[0..] == events;
    while i < |events| && !ctx.freed && !ctx.aborted
      invariant 0 <= i <= |events| && ctx.Valid() && !ctx.inCallback && ctx.env == env
      invariant fresh(ctx) && fresh(ctx.replies) && fresh(ctx.invalid)
      invariant fresh(ctx.replies.repr) && fresh(ctx.invalid.repr)
      invariant HandledAll(ctx.Abs(), env, events[i..]) == HandledAll(INITIAL_CONN, env, events)
    {
      assert events[i..][1..] == events[i + 1..];
      ctx.Handle(events[i]);
      i := i + 1;
    }
    AsyncRuns.RunPromised(env, events);
    AsyncEnds.RunFollows(env, events);
  }
}
