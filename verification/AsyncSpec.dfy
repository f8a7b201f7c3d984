/** What the asynchronous connection of async.c does, as a function on its state, the events that
    happen to it and what its user's callbacks do. */
module AsyncSpec {
  import opened Resp
  import opened Reply
  import opened Command
  import opened CallbackList
  import opened PubSub

  // ----- Users and events -----

  /** What a user does with the connection, inside a callback or outside. */
  datatype Action = Send(cb: Callback, argv: seq<seq<Byte>>) | Disconnect | Free

  /** What happens to a connection: calls by its user, replies arriving, output leaving, failures.
      `garbage` is what the uninitialised local of redisProcessCallbacks holds on entry. */
  datatype Event =
    | Act(action: Action)
    | Readable(inbox: seq<Obj>, failed: bool, garbage: Callback)
    | Writable(n: nat)
    | SocketError

  /** The n-th callback to run makes the calls react(n); order(pattern, table) is the order in which
      the table of channels or of patterns is iterated. */
  datatype Env = Env(react: nat -> seq<Action>, order: (bool, Table) -> seq<seq<Byte>>)

  /** Every name of a table, each once. */
  ghost predicate Enumerates(table: Table, names: seq<seq<Byte>>) {
    && (forall n :: n in table <==> n in names)
    && (forall i, j :: 0 <= i < j < |names| ==> names[i] != names[j])
  }

  ghost predicate Iterates(env: Env) {
    forall p, t :: Enumerates(t, env.order(p, t))
  }

  // ----- The log -----

  /** What became of a call. */
  datatype Effect = Refused | Queued | QueuedAside | Registered | Passed | Noted

  /** A call on the connection, by the callback of that number or from outside. */
  datatype Made = Made(who: Option<nat>, action: Action, effect: Effect)

  /** Whose record a reply or a callback is for: a regular command, a command sent while subscribed,
      a subscription; or no record was taken and the callback of an earlier reply is used again. */
  datatype Why = ForRegular | ForAside | ForMessage | Stale | ForTable

  datatype Got = Got(reply: Obj, why: Why)

  /** A callback record taken from a queue, with its reply or with none. */
  datatype Answer = Answer(cb: Callback, reply: Option<Obj>)

  /** A callback that has run. */
  datatype Ran = Ran(answer: Answer, why: Why)

  /** Everything in one order: calls, replies for something, replies that nothing waits for, read events that end or
      fail, a broken socket, and writes of so many bytes. */
  datatype Item =
    | Call(made: Made)
    | Arrival(got: Got)
    | Stray(reply: Obj)
    | ReadEnd(failed: bool)
    | Broken
    | Wrote(n: nat)

  /** `trace` is everything in one order, `written` the output that has left, and `tornAt` the number of callbacks
      that had run when teardown began. */
  datatype Log = Log(trace: seq<Item>, made: seq<Made>, received: seq<Got>, answered: seq<Answer>,
                     answeredAside: seq<Answer>, history: seq<Sub>, ran: seq<Ran>, written: seq<Byte>, tornAt: Option<nat>)

  const EMPTY_LOG := Log([], [], [], [], [], [], [], [], None)

  // ----- The state -----

  datatype Conn = Conn(calls: nat, subscribed: bool, disconnecting: bool, freeing: bool, err: bool, obuf: seq<Byte>,
                       replies: seq<Callback>, invalid: seq<Callback>, channels: Table, patterns: Table,
                       freed: bool, aborted: bool, log: Log)

  const INITIAL_CONN := Conn(0, false, false, false, false, [], [], [], map[], map[], false, false, EMPTY_LOG)

  ghost predicate Closing(s: Conn) {
    s.disconnecting || s.freeing
  }

  ghost predicate Over(s: Conn) {
    s.freed || s.aborted
  }

  ghost function TableOf(s: Conn, pattern: bool): Table {
    if pattern then s.patterns else s.channels
  }

  ghost function NoteMade(s: Conn, who: Option<nat>, action: Action, effect: Effect): Conn {
    var m := Made(who, action, effect);
    s.(log := s.log.(trace := s.log.trace + [Call(m)], made := s.log.made + [m]))
  }

  /** What is neither a call nor a reply for something is only logged. */
  ghost function Marked(s: Conn, item: Item): Conn {
    s.(log := s.log.(trace := s.log.trace + [item]))
  }

  // ----- Commands -----

  /** What a command is taken for; there is none without any argument. */
  ghost function ClassOf(argv: seq<seq<Byte>>): Option<Class> {
    if argv == [] then None else Some(Classify(argv))
  }

  /** What becomes of a command. */
  ghost function Verdict(s: Conn, cls: Option<Class>): Effect {
    if Closing(s) || cls.None? then Refused
    else match cls.value
      case Subscribe(_, _) => Registered
      case Unsubscribe => if s.subscribed then Passed else Refused
      case Regular => if s.subscribed then QueuedAside else Queued
  }

  /** The names are entered in the table for their kind. */
  ghost function Registering(s: Conn, cb: Callback, pattern: bool, names: seq<seq<Byte>>): Conn {
    s.(subscribed := true,
       channels := if pattern then s.channels else EnterAll(s.channels, names, cb),
       patterns := if pattern then EnterAll(s.patterns, names, cb) else s.patterns,
       log := s.log.(history := s.log.history + Subs(pattern, names, cb)))
  }

  /** An accepted command finds its table or its queue. */
  ghost function Filed(s: Conn, cb: Callback, cls: Class): Conn {
    match cls
    case Subscribe(pattern, names) => Registering(s, cb, pattern, names)
    case Unsubscribe => s
    case Regular => if s.subscribed then s.(invalid := s.invalid + [cb]) else s.(replies := s.replies + [cb])
  }

  /** __redisAsyncCommand on a connection that is not closing. A command without any argument fails
      its assertion. */
  ghost function Submitted(s: Conn, cb: Callback, cls: Option<Class>, cmd: seq<Byte>): Conn {
    if cls.None? then s.(aborted := true)
    else if Verdict(s, cls).Refused? then s
    else Filed(s, cb, cls.value).(obuf := s.obuf + cmd)
  }

  /** __redisAsyncCommand. */
  ghost function Sent(s: Conn, who: Option<nat>, cb: Callback, argv: seq<seq<Byte>>): Conn {
    var cls := ClassOf(argv);
    var t := NoteMade(s, who, Send(cb, argv), Verdict(s, cls));
    if Closing(s) then t else Submitted(t, cb, cls, Format(argv))
  }

  // ----- Callbacks -----

  /** What user code run from a callback leaves alone: everything but the flags, once the connection is closing. */
  ghost predicate Still(s: Conn, t: Conn) {
    && t.subscribed == s.subscribed && t.obuf == s.obuf && t.replies == s.replies && t.invalid == s.invalid
    && t.channels == s.channels && t.patterns == s.patterns && t.aborted == s.aborted && t.err == s.err
    && t.freed == s.freed && t.log.received == s.log.received && t.log.answered == s.log.answered
    && t.log.answeredAside == s.log.answeredAside && t.log.history == s.log.history && Closing(t)
    && t.log.tornAt == s.log.tornAt
  }

  /** One call made inside callback `n`, where disconnecting and freeing are only noted. */
  ghost function Doing(s: Conn, n: nat, action: Action): Conn {
    match action
    case Send(cb, argv) => Sent(s, Some(n), cb, argv)
    case Disconnect => NoteMade(s.(disconnecting := true), Some(n), action, Noted)
    case Free => NoteMade(s.(freeing := true), Some(n), action, Noted)
  }

  ghost function DoingAll(s: Conn, n: nat, actions: seq<Action>): Conn
    decreases |actions|
  {
    if actions == [] || s.aborted then s else DoingAll(Doing(s, n, actions[0]), n, actions[1..])
  }

  lemma DoingStill(s: Conn, n: nat, action: Action)
    requires Closing(s)
    ensures Still(s, Doing(s, n, action))
  {
    match action
    case Send(cb, argv) => assert Doing(s, n, action) == NoteMade(s, Some(n), action, Refused);
    case Disconnect =>
    case Free =>
  }

  lemma StillTwice(s: Conn, t: Conn, u: Conn)
    requires Still(s, t) && Still(t, u)
    ensures Still(s, u)
  {
  }

  lemma {:induction false} DoingAllStill(s: Conn, n: nat, actions: seq<Action>)
    requires Closing(s)
    ensures Still(s, DoingAll(s, n, actions))
    decreases |actions|
  {
    if actions != [] && !s.aborted {
      var t := Doing(s, n, actions[0]);
      DoingStill(s, n, actions[0]);
      DoingAllStill(t, n, actions[1..]);
      StillTwice(s, t, DoingAll(t, n, actions[1..]));
    }
  }

  /** __redisRunCallback. */
  ghost function Running(s: Conn, env: Env, cb: Callback, reply: Option<Obj>, why: Why): Conn {
    if cb.fn.None? then s else DoingAll(Starting(s, cb, reply, why), s.calls, env.react(s.calls))
  }

  ghost function Starting(s: Conn, cb: Callback, reply: Option<Obj>, why: Why): Conn {
    s.(calls := s.calls + 1, log := s.log.(ran := s.log.ran + [Ran(Answer(cb, reply), why)]))
  }

  /** Callbacks cannot enqueue new work on a closing connection. */
  lemma RunningStill(s: Conn, env: Env, cb: Callback, reply: Option<Obj>, why: Why)
    requires Closing(s)
    ensures Still(s, Running(s, env, cb, reply, why))
  {
    if cb.fn.Some? {
      DoingAllStill(Starting(s, cb, reply, why), s.calls, env.react(s.calls));
    }
  }

  // ----- Teardown -----

  ghost function ShiftingReply(s: Conn, reply: Option<Obj>): Conn
    requires s.replies != []
  {
    s.(replies := s.replies[1..], log := s.log.(answered := s.log.answered + [Answer(s.replies[0], reply)]))
  }

  ghost function ShiftingAside(s: Conn, reply: Option<Obj>): Conn
    requires s.invalid != []
  {
    s.(invalid := s.invalid[1..], log := s.log.(answeredAside := s.log.answeredAside + [Answer(s.invalid[0], reply)]))
  }

  /** The first draining loop of __redisAsyncFree. It ends because nothing is added to the queue. */
  ghost function DrainingReplies(s: Conn, env: Env): Conn
    requires Closing(s)
    decreases |s.replies|
  {
    if s.replies == [] then s
    else
      var t := ShiftingReply(s, None);
      RunningStill(t, env, s.replies[0], None, ForRegular);
      DrainingReplies(Running(t, env, s.replies[0], None, ForRegular), env)
  }

  /** The second draining loop. */
  ghost function DrainingAside(s: Conn, env: Env): Conn
    requires Closing(s)
    decreases |s.invalid|
  {
    if s.invalid == [] then s
    else
      var t := ShiftingAside(s, None);
      RunningStill(t, env, s.invalid[0], None, ForAside);
      DrainingAside(Running(t, env, s.invalid[0], None, ForAside), env)
  }

  /** What a drained queue leaves alone. */
  ghost predicate Kin(s: Conn, t: Conn) {
    && Closing(t) && t.aborted == s.aborted && t.freed == s.freed && t.err == s.err && t.subscribed == s.subscribed
    && t.channels == s.channels && t.patterns == s.patterns && t.log.history == s.log.history
    && t.log.received == s.log.received
  }

  lemma {:induction false} DrainedReplies(s: Conn, env: Env)
    requires Closing(s)
    ensures var t := DrainingReplies(s, env);
            Kin(s, t) && t.replies == [] && t.invalid == s.invalid && t.log.answeredAside == s.log.answeredAside
    decreases |s.replies|
  {
    if s.replies != [] {
      var t := ShiftingReply(s, None);
      RunningStill(t, env, s.replies[0], None, ForRegular);
      DrainedReplies(Running(t, env, s.replies[0], None, ForRegular), env);
    }
  }

  lemma {:induction false} DrainedAside(s: Conn, env: Env)
    requires Closing(s)
    ensures var t := DrainingAside(s, env);
            Kin(s, t) && t.invalid == [] && t.replies == s.replies && t.log.answered == s.log.answered
    decreases |s.invalid|
  {
    if s.invalid != [] {
      var t := ShiftingAside(s, None);
      RunningStill(t, env, s.invalid[0], None, ForAside);
      DrainedAside(Running(t, env, s.invalid[0], None, ForAside), env);
    }
  }

  /** The callbacks of a table, in the order of iteration. */
  ghost function Listed(table: Table, names: seq<seq<Byte>>): seq<Callback>
    requires forall i :: 0 <= i < |names| ==> names[i] in table
  {
    seq(|names|, i requires 0 <= i < |names| => table[names[i]])
  }

  /** The loop over one table. */
  ghost function DrainingTable(s: Conn, env: Env, q: seq<Callback>): Conn
    decreases |q|
  {
    if q == [] then s else DrainingTable(Running(s, env, q[0], None, ForTable), env, q[1..])
  }

  lemma {:induction false} DrainedTable(s: Conn, env: Env, q: seq<Callback>)
    requires Closing(s)
    ensures Still(s, DrainingTable(s, env, q))
    decreases |q|
  {
    if q != [] {
      RunningStill(s, env, q[0], None, ForTable);
      DrainedTable(Running(s, env, q[0], None, ForTable), env, q[1..]);
    }
  }

  /** The callbacks of both tables. */
  ghost function Subscribers(s: Conn, env: Env, pattern: bool): seq<Callback>
    requires Iterates(env)
  {
    var names := env.order(pattern, TableOf(s, pattern));
    assert Enumerates(TableOf(s, pattern), names);
    Listed(TableOf(s, pattern), names)
  }

  /** Both queues drained. */
  ghost function Drained(s: Conn, env: Env): Conn
    requires Closing(s)
  {
    DrainedReplies(s, env);
    DrainingAside(DrainingReplies(s, env), env)
  }

  /** The callbacks of both tables run. */
  ghost function TablesDrained(s: Conn, env: Env): Conn
    requires Iterates(env)
  {
    DrainingTable(DrainingTable(s, env, Subscribers(s, env, false)), env, Subscribers(s, env, true))
  }

  lemma DrainedKin(s: Conn, env: Env)
    requires Closing(s)
    ensures var t := Drained(s, env); Kin(s, t) && t.replies == [] && t.invalid == []
  {
    DrainedReplies(s, env);
    DrainedAside(DrainingReplies(s, env), env);
  }

  /** Teardown begins. */
  ghost function Tearing(s: Conn): Conn {
    s.(log := s.log.(tornAt := Some(s.calls)))
  }

  /** __redisAsyncFree. */
  ghost function TornDown(s: Conn, env: Env): Conn
    requires Iterates(env) && Closing(s)
  {
    TablesDrained(Drained(Tearing(s), env), env).(freed := true)
  }

  /** Teardown answers everything and frees the connection. */
  lemma TornDownEnds(s: Conn, env: Env)
    requires Iterates(env) && Closing(s)
    ensures var t := TornDown(s, env); t.freed && t.aborted == s.aborted && t.replies == [] && t.invalid == []
  {
    DrainedKin(Tearing(s), env);
    var t := Drained(Tearing(s), env);
    DrainedTable(t, env, Subscribers(t, env, false));
    DrainedTable(DrainingTable(t, env, Subscribers(t, env, false)), env, Subscribers(t, env, true));
  }

  /** __redisAsyncDisconnect, with the queue shifted inside its assertion. */
  ghost function Disconnected(s: Conn, env: Env): Conn
    requires Iterates(env) && (s.err || Closing(s))
  {
    if s.err then TornDown(s.(disconnecting := true), env)
    else if s.replies != [] then s.(aborted := true, replies := s.replies[1..])
    else TornDown(s, env)
  }

  /** Its assertion fails exactly on a clean disconnect with callbacks pending. */
  lemma DisconnectedEnds(s: Conn, env: Env)
    requires Iterates(env) && (s.err || Closing(s)) && !s.aborted
    ensures var t := Disconnected(s, env);
            && (t.aborted <==> !s.err && s.replies != [])
            && (!t.aborted ==> t.freed && t.replies == [] && t.invalid == [])
  {
    if s.err {
      TornDownEnds(s.(disconnecting := true), env);
    } else if s.replies == [] {
      TornDownEnds(s, env);
    }
  }

  // ----- Replies -----

  predicate IsError(reply: Obj) {
    reply.StrObj? && reply.kind == ErrorReply
  }

  /** What a reply meets: an error reply that nothing waits for ends the connection; some replies
      fail an assertion; others take a record, or take none. */
  datatype Fate = Rejected | Fatal | Taken(cb: Callback, why: Why) | Untaken

  /** The fate of a reply on a subscribed connection with no regular record left. */
  ghost function MessageFate(s: Conn, m: Message): Fate {
    match m
    case Unexpected => Fatal
    case NotMessage => if s.invalid == [] then Untaken else Taken(s.invalid[0], ForAside)
    case Push(pattern, name, unsubscribe, count) =>
      if name !in TableOf(s, pattern) then Untaken
      else if unsubscribe && count.None? then Fatal
      else Taken(TableOf(s, pattern)[name], ForMessage)
  }

  ghost function FateOf(s: Conn, reply: Obj): Fate {
    if s.replies != [] then Taken(s.replies[0], ForRegular)
    else if !s.subscribed then (if IsError(reply) then Rejected else Fatal)
    else MessageFate(s, ReadMessage(reply))
  }

  /** An unsubscribe message removes its name from its table and from no other. */
  ghost function Unregistering(s: Conn, pattern: bool, name: seq<Byte>): Conn {
    s.(channels := if pattern then s.channels else s.channels - {name},
       patterns := if pattern then s.patterns - {name} else s.patterns,
       log := s.log.(history := s.log.history + [Unsubscribed(pattern, name)]))
  }

  /** A reply is logged with what it is for. */
  ghost function Receiving(s: Conn, reply: Obj, why: Why): Conn {
    var g := Got(reply, why);
    s.(log := s.log.(trace := s.log.trace + [Arrival(g)], received := s.log.received + [g]))
  }

  /** What a message for a known name changes. */
  ghost function Messaged(s: Conn, m: Message): Conn
    requires m.Push?
  {
    if !m.unsubscribe then s
    else
      var t := Unregistering(s, m.pattern, m.name);
      if m.count.None? then t.(aborted := true)
      else if m.count.value == 0 then t.(subscribed := false)
      else t
  }

  /** The state after a reply has met its fate, before its callback runs. */
  ghost function MessageDispatched(s: Conn, reply: Obj, m: Message): Conn {
    match m
    case Unexpected => Marked(s, Stray(reply)).(aborted := true)
    case NotMessage =>
      if s.invalid == [] then Receiving(s, reply, Stale)
      else ShiftingAside(Receiving(s, reply, ForAside), Some(reply))
    case Push(pattern, name, unsubscribe, count) =>
      if name !in TableOf(s, pattern) then Receiving(s, reply, Stale)
      else if unsubscribe && count.None? then Messaged(Marked(s, Stray(reply)), m)
      else Messaged(Receiving(s, reply, ForMessage), m)
  }

  ghost function Dispatched(s: Conn, reply: Obj): Conn {
    if s.replies != [] then ShiftingReply(Receiving(s, reply, ForRegular), Some(reply))
    else if !s.subscribed then Marked(s, Stray(reply)).(aborted := !IsError(reply))
    else MessageDispatched(s, reply, ReadMessage(reply))
  }

  /** Running the callback for a reply, and the teardown it may ask for. */
  ghost function Called(s: Conn, env: Env, cb: Callback, reply: Obj, why: Why): Conn
    requires Iterates(env)
  {
    var t := Running(s, env, cb, Some(reply), why);
    if cb.fn.Some? && !t.aborted && t.freeing then TornDown(t, env) else t
  }

  /** The rest of a round, once the reply has met its fate; `cb` is the local variable of the loop. */
  ghost function Concluded(s: Conn, env: Env, fate: Fate, reply: Obj, cb: Callback): Conn
    requires Iterates(env)
  {
    match fate
    case Rejected => Disconnected(s.(err := true), env)
    case Fatal => s
    case Taken(_, why) => Called(s, env, cb, reply, why)
    case Untaken => Called(s, env, cb, reply, Stale)
  }

  /** The local variable of the loop after a reply: the record taken for it, else what it was. */
  ghost function Target(fate: Fate, cb: Callback): Callback {
    if fate.Taken? then fate.cb else cb
  }

  /** One round of the loop in redisProcessCallbacks. */
  ghost function Processed(s: Conn, env: Env, reply: Obj, cb: Callback): Conn
    requires Iterates(env)
  {
    var fate := FateOf(s, reply);
    Concluded(Dispatched(s, reply), env, fate, reply, Target(fate, cb))
  }

  /** The end of redisProcessCallbacks, when the reader has no reply left or reports an error. */
  ghost function ReadOut(s: Conn, env: Env, failed: bool): Conn
    requires Iterates(env)
  {
    var t := Marked(s, ReadEnd(failed));
    if failed then Disconnected(t.(err := true), env)
    else if t.disconnecting && t.obuf == [] then Disconnected(t, env)
    else t
  }

  /** The loop of redisProcessCallbacks over the replies there are. */
  ghost function Replied(s: Conn, env: Env, inbox: seq<Obj>, cb: Callback): Conn
    requires Iterates(env)
    decreases |inbox|
  {
    if inbox == [] || Over(s) then s
    else Replied(Processed(s, env, inbox[0], cb), env, inbox[1..], Target(FateOf(s, inbox[0]), cb))
  }

  /** redisProcessCallbacks. */
  ghost function ProcessedAll(s: Conn, env: Env, inbox: seq<Obj>, failed: bool, cb: Callback): Conn
    requires Iterates(env)
  {
    var t := Replied(s, env, inbox, cb);
    if Over(t) then t else ReadOut(t, env, failed)
  }

  // ----- Runs -----

  /** A call from outside any callback: redisAsyncCommand, redisAsyncDisconnect or redisAsyncFree. */
  ghost function Acted(s: Conn, env: Env, action: Action): Conn
    requires Iterates(env)
  {
    match action
    case Send(cb, argv) => Sent(s, None, cb, argv)
    case Disconnect =>
      var t := NoteMade(s.(disconnecting := true), None, Disconnect, Noted);
      if t.replies == [] then Disconnected(t, env) else t
    case Free => TornDown(NoteMade(s.(freeing := true), None, Free, Noted), env)
  }

  /** The first bytes of the output leave. */
  ghost function Written(s: Conn, n: nat): Conn {
    var k := if n <= |s.obuf| then n else |s.obuf|;
    Marked(s.(obuf := s.obuf[k..], log := s.log.(written := s.log.written + s.obuf[..k])), Wrote(n))
  }

  ghost function Handled(s: Conn, env: Env, event: Event): Conn
    requires Iterates(env)
  {
    match event
    case Act(action) => Acted(s, env, action)
    case Readable(inbox, failed, garbage) => ProcessedAll(s, env, inbox, failed, garbage)
    case Writable(n) => Written(s, n)
    case SocketError => Disconnected(Marked(s, Broken).(err := true), env)
  }

  /** A run ends with the events, or with the connection. */
  ghost function HandledAll(s: Conn, env: Env, events: seq<Event>): Conn
    requires Iterates(env)
    decreases |events|
  {
    if events == [] || Over(s) then s else HandledAll(Handled(s, env, events[0]), env, events[1..])
  }
}
