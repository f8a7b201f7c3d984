/** What the log of an asynchronous connection says, and what its one order of calls and replies demands. */
module AsyncTrace {
  import opened Resp
  import opened Reply
  import opened Command
  import opened CallbackList
  import opened PubSub
  import opened AsyncSpec

  // ----- Reading the log -----

  /** The callbacks of the commands that had an effect, in the order of the calls. */
  ghost function Cbs(made: seq<Made>, effect: Effect): seq<Callback> {
    if made == [] then []
    else
      var last := made[|made| - 1];
      Cbs(made[..|made| - 1], effect) + if last.effect == effect && last.action.Send? then [last.action.cb] else []
  }

  /** The calls made by one callback, or from outside. */
  ghost function By(made: seq<Made>, who: Option<nat>): seq<Action> {
    if made == [] then []
    else
      var last := made[|made| - 1];
      By(made[..|made| - 1], who) + if last.who == who then [last.action] else []
  }

  /** A disconnect or a free has been asked for. */
  ghost predicate Closed(made: seq<Made>) {
    exists i :: 0 <= i < |made| && !made[i].action.Send?
  }

  /** The replies that were for something. */
  ghost function Picked(received: seq<Got>, why: Why): seq<Obj> {
    if received == [] then []
    else
      var last := received[|received| - 1];
      Picked(received[..|received| - 1], why) + if last.why == why then [last.reply] else []
  }

  /** All replies, in order. */
  ghost function Replies(received: seq<Got>): seq<Obj> {
    seq(|received|, i requires 0 <= i < |received| => received[i].reply)
  }

  /** The callbacks that have run for something. */
  ghost function Runs(ran: seq<Ran>, why: Why): seq<Answer> {
    if ran == [] then []
    else
      var last := ran[|ran| - 1];
      Runs(ran[..|ran| - 1], why) + if last.why == why then [last.answer] else []
  }

  /** The answers that go to a function. */
  ghost function WithFn(answers: seq<Answer>): seq<Answer> {
    if answers == [] then []
    else
      var last := answers[|answers| - 1];
      WithFn(answers[..|answers| - 1]) + if last.cb.fn.Some? then [last] else []
  }

  lemma MadeOne(made: seq<Made>, m: Made, effect: Effect, who: Option<nat>)
    ensures Cbs(made + [m], effect) == Cbs(made, effect) + if m.effect == effect && m.action.Send? then [m.action.cb] else []
    ensures By(made + [m], who) == By(made, who) + if m.who == who then [m.action] else []
    ensures Closed(made + [m]) <==> Closed(made) || !m.action.Send?
  {
    assert (made + [m])[..|made|] == made;
    if Closed(made) {
      var i :| 0 <= i < |made| && !made[i].action.Send?;
      assert (made + [m])[i] == made[i];
    }
    assert (made + [m])[|made|] == m;
  }

  lemma GotOne(received: seq<Got>, g: Got, why: Why)
    ensures Picked(received + [g], why) == if g.why == why then Picked(received, why) + [g.reply] else Picked(received, why)
    ensures Replies(received + [g]) == Replies(received) + [g.reply]
  {
    assert (received + [g])[..|received|] == received;
    assert Picked(received, why) + [] == Picked(received, why);
  }

  lemma RanOne(ran: seq<Ran>, r: Ran, why: Why)
    ensures Runs(ran + [r], why) == if r.why == why then Runs(ran, why) + [r.answer] else Runs(ran, why)
  {
    assert (ran + [r])[..|ran|] == ran;
    assert Runs(ran, why) + [] == Runs(ran, why);
  }

  lemma AnswerOne(answers: seq<Answer>, a: Answer)
    ensures WithFn(answers + [a]) == if a.cb.fn.Some? then WithFn(answers) + [a] else WithFn(answers)
  {
    assert (answers + [a])[..|answers|] == answers;
    assert WithFn(answers) + [] == WithFn(answers);
  }

  // ----- Calls and replies in one order -----

  ghost function CallsIn(trace: seq<Item>): seq<Made> {
    if trace == [] then []
    else
      var last := trace[|trace| - 1];
      CallsIn(trace[..|trace| - 1]) + if last.Call? then [last.made] else []
  }

  ghost function GotIn(trace: seq<Item>): seq<Got> {
    if trace == [] then []
    else
      var last := trace[|trace| - 1];
      GotIn(trace[..|trace| - 1]) + if last.Arrival? then [last.got] else []
  }

  /** What the command of a call is taken for, if it is one. */
  ghost function CallClass(m: Made): Option<Class> {
    if m.action.Send? then ClassOf(m.action.argv) else None
  }

  /** What an item does to the subscriptions: an accepted subscribe enters its names, and an unsubscribe message for a
      known name takes that name away. */
  ghost function CallChange(m: Made, cls: Option<Class>): seq<Sub> {
    if m.effect == Registered && m.action.Send? && cls.Some? && cls.value.Subscribe?
    then Subs(cls.value.pattern, cls.value.names, m.action.cb) else []
  }

  ghost function ReplyChange(why: Why, m: Message): seq<Sub> {
    if why == ForMessage && m.Push? && m.unsubscribe then [Unsubscribed(m.pattern, m.name)] else []
  }

  /** The subscribes and unsubscribes so far. */
  ghost function HistoryOf(trace: seq<Item>): seq<Sub> {
    if trace == [] then []
    else HistoryOf(trace[..|trace| - 1]) + match trace[|trace| - 1]
                                           case Call(m) => CallChange(m, CallClass(m))
                                           case Arrival(g) => ReplyChange(g.why, ReadMessage(g.reply))
                                           case _ => []
  }

  ghost predicate SubscribedNext(subscribed: bool, why: Why, m: Message) {
    subscribed && !(why == ForMessage && m.Push? && m.unsubscribe && m.count == Some(0))
  }

  /** A subscribe has been accepted, and no unsubscribe message since has counted down to zero. */
  ghost predicate SubscribedIn(trace: seq<Item>) {
    trace != []
    && match trace[|trace| - 1]
       case Call(m) => m.effect == Registered || SubscribedIn(trace[..|trace| - 1])
       case Arrival(g) => SubscribedNext(SubscribedIn(trace[..|trace| - 1]), g.why, ReadMessage(g.reply))
       case _ => SubscribedIn(trace[..|trace| - 1])
  }

  /** What a message is answered with: the callback of the latest subscribe for its name. */
  ghost function DeliveryOf(history: seq<Sub>, reply: Obj, m: Message): seq<Answer> {
    if m.Push? && Latest(history, m.pattern, m.name).Some?
    then [Answer(Latest(history, m.pattern, m.name).value, Some(reply))] else []
  }

  /** The answers to all messages for a known name, in order. */
  ghost function Deliveries(trace: seq<Item>): seq<Answer> {
    if trace == [] then []
    else
      var front, last := trace[..|trace| - 1], trace[|trace| - 1];
      Deliveries(front) + if last.Arrival? && last.got.why == ForMessage
                          then DeliveryOf(HistoryOf(front), last.got.reply, ReadMessage(last.got.reply)) else []
  }

  /** How many bytes of accepted commands have not left yet. */
  ghost function Unsent(trace: seq<Item>): nat {
    if trace == [] then 0
    else
      var n, last := Unsent(trace[..|trace| - 1]), trace[|trace| - 1];
      match last
      case Call(m) => n + |Bytes(m)|
      case Wrote(k) => if k <= n then n - k else 0
      case _ => n
  }

  /** A disconnect has been asked for. */
  ghost predicate Leaving(made: seq<Made>) {
    exists i :: 0 <= i < |made| && made[i].action.Disconnect?
  }

  /** How many commands of a kind wait for their reply. */
  ghost function Waiting(made: seq<Made>, received: seq<Got>, effect: Effect, why: Why): int {
    |Cbs(made, effect)| - |Picked(received, why)|
  }

  ghost function Regulars(trace: seq<Item>): int {
    Waiting(CallsIn(trace), GotIn(trace), Queued, ForRegular)
  }

  // ----- When a connection ends -----

  /** A connection goes on, is freed, or fails an assertion. */
  datatype Ending = Goes | Frees | Aborts

  /** A free ends the connection. So does a disconnect from outside with no regular command waiting. A command without
      arguments, unless it is refused, fails an assertion. */
  ghost function CallEnds(m: Made, closed: bool, regular: int): Ending {
    match m.action
    case Send(_, argv) => if argv == [] && !closed then Aborts else Goes
    case Disconnect => if m.who.None? && regular <= 0 then Frees else Goes
    case Free => Frees
  }

  /** An error reply that nothing waits for ends a connection that is not subscribed. Other strays fail an assertion. */
  ghost function StrayEnds(reply: Obj, subscribed: bool): Ending {
    if !subscribed && IsError(reply) then Frees else Aborts
  }

  /** A failed read ends the connection. A read that ends once a disconnect was asked for and all output has left does
      too, or fails an assertion if a regular command waits. */
  ghost function ReadEnds(failed: bool, leaving: bool, unsent: nat, regular: int): Ending {
    if failed then Frees
    else if !leaving || unsent > 0 then Goes
    else if regular > 0 then Aborts else Frees
  }

  ghost function EndsAt(front: seq<Item>, item: Item): Ending {
    match item
    case Call(m) => CallEnds(m, Closed(CallsIn(front)), Regulars(front))
    case Arrival(_) => Goes
    case Stray(reply) => StrayEnds(reply, SubscribedIn(front))
    case ReadEnd(failed) => ReadEnds(failed, Leaving(CallsIn(front)), Unsent(front), Regulars(front))
    case Broken => Frees
    case Wrote(_) => Goes
  }

  /** What the first item that ends the connection makes of it. */
  ghost function EndOf(trace: seq<Item>): Ending {
    if trace == [] then Goes
    else
      var front := trace[..|trace| - 1];
      if EndOf(front) != Goes then EndOf(front) else EndsAt(front, trace[|trace| - 1])
  }

  // ----- What each item must be, given those before it -----

  /** What becomes of a command: nothing is accepted once the end has been asked for. */
  ghost function EffectIn(closed: bool, subscribed: bool, cls: Option<Class>): Effect {
    if closed || cls.None? then Refused
    else match cls.value
      case Subscribe(_, _) => Registered
      case Unsubscribe => if subscribed then Passed else Refused
      case Regular => if subscribed then QueuedAside else Queued
  }

  /** A call has the effect it must have. Only the callbacks that teardown runs may be refused more. */
  ghost predicate CallLaw(m: Made, cls: Option<Class>, closed: bool, subscribed: bool, tornAt: Option<nat>) {
    if !m.action.Send? then m.effect == Noted
    else
      || m.effect == EffectIn(closed, subscribed, cls)
      || (m.effect == Refused && tornAt.Some? && m.who.Some? && m.who.value >= tornAt.value)
  }

  /** What a reply is for: the oldest regular command, else the subscriber of its name or, when it is no message,
      the oldest command sent while subscribed, else nothing. */
  ghost predicate ArrivalLaw(why: Why, m: Message, regular: int, aside: int, history: seq<Sub>, subscribed: bool) {
    if regular > 0 then why == ForRegular
    else
      && !StrayLaw(m, regular, history, subscribed)
      && why == if m.NotMessage? then (if aside > 0 then ForAside else Stale)
                else if Latest(history, m.pattern, m.name).Some? then ForMessage else Stale
  }

  /** A reply is stray when no regular command waits and there is no subscription, or when it is no proper message: an
      array that starts with no two strings, or an unsubscribe message for a known name without a count. */
  ghost predicate StrayLaw(m: Message, regular: int, history: seq<Sub>, subscribed: bool) {
    && regular <= 0
    && (!subscribed || m.Unexpected?
        || (m.Push? && Latest(history, m.pattern, m.name).Some? && m.unsubscribe && m.count.None?))
  }

  /** After the end there are only calls by callbacks, and after a failed assertion nothing. */
  ghost predicate EndLaw(end: Ending, item: Item) {
    if item.Call? && item.made.who.Some? then end != Aborts else end == Goes
  }

  ghost predicate Law(front: seq<Item>, item: Item, tornAt: Option<nat>) {
    && EndLaw(EndOf(front), item)
    && match item
       case Call(m) => CallLaw(m, CallClass(m), Closed(CallsIn(front)), SubscribedIn(front), tornAt)
       case Arrival(g) =>
         ArrivalLaw(g.why, ReadMessage(g.reply), Regulars(front),
                    Waiting(CallsIn(front), GotIn(front), QueuedAside, ForAside), HistoryOf(front), SubscribedIn(front))
       case Stray(reply) => StrayLaw(ReadMessage(reply), Regulars(front), HistoryOf(front), SubscribedIn(front))
       case _ => true
  }

  /** Everything that happens is what came before it makes it. */
  ghost predicate Lawful(trace: seq<Item>, tornAt: Option<nat>) {
    trace == [] || (Lawful(trace[..|trace| - 1], tornAt) && Law(trace[..|trace| - 1], trace[|trace| - 1], tornAt))
  }

  lemma LastOf<T>(s: seq<T>, x: T)
    ensures (s + [x])[..|s + [x]| - 1] == s && (s + [x])[|s + [x]| - 1] == x
  {
  }

  lemma CallOne(trace: seq<Item>, m: Made, cls: Option<Class>)
    requires cls == CallClass(m)
    ensures CallsIn(trace + [Call(m)]) == CallsIn(trace) + [m] && GotIn(trace + [Call(m)]) == GotIn(trace)
    ensures HistoryOf(trace + [Call(m)]) == HistoryOf(trace) + CallChange(m, cls)
    ensures SubscribedIn(trace + [Call(m)]) <==> m.effect == Registered || SubscribedIn(trace)
    ensures Deliveries(trace + [Call(m)]) == Deliveries(trace) && Unsent(trace + [Call(m)]) == Unsent(trace) + |Bytes(m)|
  {
    LastOf(trace, Call(m));
    assert GotIn(trace) + [] == GotIn(trace) && Deliveries(trace) + [] == Deliveries(trace);
  }

  lemma ArrivalOne(trace: seq<Item>, g: Got, m: Message)
    requires m == ReadMessage(g.reply)
    ensures CallsIn(trace + [Arrival(g)]) == CallsIn(trace) && GotIn(trace + [Arrival(g)]) == GotIn(trace) + [g]
    ensures HistoryOf(trace + [Arrival(g)]) == HistoryOf(trace) + ReplyChange(g.why, m)
    ensures SubscribedIn(trace + [Arrival(g)]) <==> SubscribedNext(SubscribedIn(trace), g.why, m)
    ensures Deliveries(trace + [Arrival(g)]) ==
              Deliveries(trace) + if g.why == ForMessage then DeliveryOf(HistoryOf(trace), g.reply, m) else []
    ensures Unsent(trace + [Arrival(g)]) == Unsent(trace)
  {
    LastOf(trace, Arrival(g));
    assert CallsIn(trace) + [] == CallsIn(trace);
  }

  lemma OtherOne(trace: seq<Item>, item: Item)
    requires !item.Call? && !item.Arrival?
    ensures CallsIn(trace + [item]) == CallsIn(trace) && GotIn(trace + [item]) == GotIn(trace)
    ensures HistoryOf(trace + [item]) == HistoryOf(trace) && Deliveries(trace + [item]) == Deliveries(trace)
    ensures SubscribedIn(trace + [item]) <==> SubscribedIn(trace)
    ensures Unsent(trace + [item]) ==
              if item.Wrote? then (if item.n <= Unsent(trace) then Unsent(trace) - item.n else 0) else Unsent(trace)
  {
    LastOf(trace, item);
    assert CallsIn(trace) + [] == CallsIn(trace) && GotIn(trace) + [] == GotIn(trace);
    assert HistoryOf(trace) + [] == HistoryOf(trace) && Deliveries(trace) + [] == Deliveries(trace);
  }

  lemma EndOne(trace: seq<Item>, item: Item)
    ensures EndOf(trace + [item]) == if EndOf(trace) != Goes then EndOf(trace) else EndsAt(trace, item)
  {
    LastOf(trace, item);
  }

  lemma LeavingOne(made: seq<Made>, m: Made)
    ensures Leaving(made + [m]) <==> Leaving(made) || m.action.Disconnect?
  {
    if Leaving(made) {
      var i :| 0 <= i < |made| && made[i].action.Disconnect?;
      assert (made + [m])[i] == made[i];
    }
    assert (made + [m])[|made|] == m;
  }

  lemma LawfulOne(trace: seq<Item>, item: Item, tornAt: Option<nat>)
    requires Lawful(trace, tornAt) && Law(trace, item, tornAt)
    ensures Lawful(trace + [item], tornAt)
  {
    LastOf(trace, item);
  }

  /** Teardown, when it begins, has run no callback yet. */
  lemma {:induction false} LawfulTorn(trace: seq<Item>, tornAt: Option<nat>)
    requires Lawful(trace, None)
    ensures Lawful(trace, tornAt)
  {
    if trace != [] {
      LawfulTorn(trace[..|trace| - 1], tornAt);
    }
  }

  // ----- The output -----

  /** The bytes of the commands that were accepted, in order. */
  ghost function Output(made: seq<Made>): seq<Byte> {
    if made == [] then []
    else Output(made[..|made| - 1]) + Bytes(made[|made| - 1])
  }

  ghost function Bytes(m: Made): seq<Byte> {
    if m.action.Send? && !m.effect.Refused? then Format(m.action.argv) else []
  }

  lemma OutputOne(made: seq<Made>, m: Made)
    ensures Output(made + [m]) == Output(made) + Bytes(m)
  {
    LastOf(made, m);
  }
}
