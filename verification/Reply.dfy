/** What the incremental reply reader of hiredis.c does, as a function on its
    unread bytes, task stack and partly built reply. */
module Reply {
  import opened Resp

  /** The reply types that a type byte selects. */
  datatype Kind = ErrorReply | StatusReply | IntegerReply | StringReply | ArrayReply

  /** A reply object; an element pointer that is not yet set is Empty. */
  datatype Obj =
    | StrObj(kind: Kind, str: seq<Byte>)
    | IntObj(integer: int)
    | NilObj
    | ArrObj(elements: int, element: seq<Slot>)

  datatype Slot = Empty | Full(obj: Obj)

  /** redisReadTask; its object and its parent are determined by the stack below it. */
  datatype Task = Task(kind: Option<Kind>, elements: int, idx: int)

  datatype State = State(rest: seq<Byte>, stack: seq<Task>, reply: Option<Obj>, err: bool)

  const ROOT_TASK := Task(None, -1, -1)
  const INITIAL := State([], [ROOT_TASK], None, false)
  const FAILED := State([], [ROOT_TASK], None, true)

  function KindOf(b: Byte): Option<Kind> {
    if b == 45 then Some(ErrorReply)
    else if b == 43 then Some(StatusReply)
    else if b == 58 then Some(IntegerReply)
    else if b == 36 then Some(StringReply)
    else if b == 42 then Some(ArrayReply)
    else None
  }

  // ------------------------------------------------------------- task stack

  /** moveToNextTask. */
  function Next(stack: seq<Task>): (r: seq<Task>)
    ensures |r| <= |stack| && (r != [] ==> r[|r| - 1].kind.None?)
  {
    if |stack| <= 1 then []
    else
      var cur, prv := stack[|stack| - 1], stack[|stack| - 2];
      if cur.idx == prv.elements - 1 then Next(stack[..|stack| - 1])
      else stack[..|stack| - 1] + [Task(None, -1, cur.idx + 1)]
  }

  /** The element indices that lead from the root object to the current task's place. */
  function Path(stack: seq<Task>): seq<int>
    requires stack != []
  {
    seq(|stack| - 1, i requires 0 <= i < |stack| - 1 => stack[i + 1].idx)
  }

  /** parent->element[idx] = v, followed down a path of element indices. */
  function PutAt(o: Obj, path: seq<int>, v: Obj): Obj {
    if path == [] then v
    else if !o.ArrObj? || !(0 <= path[0] < |o.element|) then o
    else if |path| == 1 then o.(element := o.element[path[0] := Full(v)])
    else match o.element[path[0]]
      case Empty => o
      case Full(child) => o.(element := o.element[path[0] := Full(PutAt(child, path[1..], v))])
  }

  /** The object created for the current task is stored in its parent, or becomes the reply. */
  function Put(reply: Option<Obj>, stack: seq<Task>, v: Obj): Option<Obj>
    requires stack != []
  {
    if |stack| == 1 then Some(v)
    else match reply
      case None => None
      case Some(r) => Some(PutAt(r, Path(stack), v))
  }

  // ------------------------------------------------------------- items

  /** One processItem call: an item is complete, more input is needed, or the input is wrong. */
  datatype Outcome = Done(state: State) | Wait(state: State) | Fail

  /** The current task has produced `v` and consumed `n` bytes. */
  function Store(st: State, n: nat, v: Obj): State
    requires st.stack != [] && n <= |st.rest|
  {
    State(st.rest[n..], Next(st.stack), Put(st.reply, st.stack, v), st.err)
  }

  function Retag(stack: seq<Task>, k: Kind): seq<Task>
    requires stack != []
  {
    stack[|stack| - 1 := stack[|stack| - 1].(kind := Some(k))]
  }

  /** processLineItem. */
  function LineItem(st: State, k: Kind): Outcome
    requires st.stack != []
  {
    var i := FindCrlf(st.rest);
    if i < 0 then Wait(st)
    else if k == IntegerReply then Done(Store(st, i + 2, IntObj(ReadInt(st.rest))))
    else Done(Store(st, i + 2, StrObj(k, st.rest[..i])))
  }

  /** processBulkItem. */
  function BulkItem(st: State): Outcome
    requires st.stack != []
  {
    var i := FindCrlf(st.rest);
    if i < 0 then Wait(st)
    else
      var len := ReadInt(st.rest);
      if len < 0 then Done(Store(st, i + 2, NilObj))
      else if i + 2 + len + 2 <= |st.rest| then
        Done(Store(st, i + 2 + len + 2, StrObj(StringReply, st.rest[i + 2..i + 2 + len])))
      else Wait(st)
  }

  /** createArrayObject: no element vector for a count that is not positive. */
  function NewArray(elements: int): Obj {
    ArrObj(elements, seq(if elements > 0 then elements else 0, _ => Empty))
  }

  /** processMultiBulkItem. */
  function MultiItem(st: State): Outcome
    requires st.stack != []
  {
    if |st.stack| == 3 then Fail
    else
      var i := FindCrlf(st.rest);
      if i < 0 then Wait(st)
      else
        var n := ReadInt(st.rest);
        if n == -1 then Done(Store(st, i + 2, NilObj))
        else if n <= 0 then Done(Store(st, i + 2, NewArray(n)))
        else
          var top := |st.stack| - 1;
          Done(State(st.rest[i + 2..],
                     st.stack[top := st.stack[top].(elements := n)] + [Task(None, -1, 0)],
                     Put(st.reply, st.stack, NewArray(n)), st.err))
  }

  /** The switch over the type of the current task. */
  function TypedItem(st: State, k: Kind): Outcome
    requires st.stack != []
  {
    match k
    case ErrorReply => LineItem(st, k)
    case StatusReply => LineItem(st, k)
    case IntegerReply => LineItem(st, k)
    case StringReply => BulkItem(st)
    case ArrayReply => MultiItem(st)
  }

  /** processItem: the type byte is read once and remembered. */
  function Item(st: State): Outcome
    requires st.stack != []
  {
    match st.stack[|st.stack| - 1].kind
    case Some(k) => TypedItem(st, k)
    case None =>
      if st.rest == [] then Wait(st)
      else match KindOf(st.rest[0])
        case None => Fail
        case Some(k) => TypedItem(st.(rest := st.rest[1..], stack := Retag(st.stack, k)), k)
  }

  /** Every completed item consumes bytes, so the item loop ends. */
  lemma ItemShrinks(st: State)
    requires st.stack != [] && Item(st).Done?
    ensures |Item(st).state.rest| < |st.rest| && Item(st).state.err == st.err
  {
    var kind := st.stack[|st.stack| - 1].kind;
    if kind.Some? {
      TypedShrinks(st, kind.value);
    } else {
      var k := KindOf(st.rest[0]).value;
      TypedShrinks(st.(rest := st.rest[1..], stack := Retag(st.stack, k)), k);
    }
  }

  lemma TypedShrinks(st: State, k: Kind)
    requires st.stack != [] && TypedItem(st, k).Done?
    ensures |TypedItem(st, k).state.rest| < |st.rest| && TypedItem(st, k).state.err == st.err
  {
  }

  // ------------------------------------------------------------- replies

  /** The item loop of redisReaderGetReply. */
  function Run(st: State): State
    decreases |st.rest|
  {
    if st.stack == [] then st
    else match Item(st)
      case Wait(s) => s
      case Fail => FAILED
      case Done(s) => ItemShrinks(st); Run(s)
  }

  lemma {:induction false} RunShrinks(st: State)
    ensures |Run(st).rest| <= |st.rest|
    ensures st.stack != [] && Run(st).stack == [] ==> |Run(st).rest| < |st.rest|
    ensures Run(st).err ==> st.err || Run(st) == FAILED
    decreases |st.rest|
  {
    if st.stack != [] && Item(st).Done? {
      ItemShrinks(st);
      RunShrinks(Item(st).state);
    }
  }

  /** redisReaderGetReply. */
  function Get(st: State): (State, Option<Obj>) {
    if st.err then (st, None)
    else
      var s := Run(st);
      if s.stack == [] then (s.(stack := [ROOT_TASK], reply := None), s.reply) else (s, None)
  }

  /** Taking replies until there is none. */
  function Drain(st: State): (State, seq<Obj>)
    decreases |st.rest|
  {
    var (s, r) := Get(st);
    if r.None? || st.stack == [] then (s, [])
    else
      RunShrinks(st);
      var (s', rs) := Drain(s);
      (s', [r.value] + rs)
  }

  /** redisReaderFeed. */
  function Feed(st: State, bytes: seq<Byte>): State {
    if st.err then st else st.(rest := st.rest + bytes)
  }

  /** Feeding chunk by chunk and draining after each. */
  function FeedChunks(st: State, chunks: seq<seq<Byte>>): (State, seq<Obj>)
    decreases |chunks|
  {
    if chunks == [] then (st, [])
    else
      var (s, rs) := Drain(Feed(st, chunks[0]));
      var (s', rs') := FeedChunks(s, chunks[1..]);
      (s', rs + rs')
  }

  function Flatten(chunks: seq<seq<Byte>>): seq<Byte> {
    if chunks == [] then [] else chunks[0] + Flatten(chunks[1..])
  }
}
