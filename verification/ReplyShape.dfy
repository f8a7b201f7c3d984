/** What every reachable reader state looks like: how the task stack and the
    partly built reply fit together. */
module ReplyShape {
  import opened Resp
  import opened Reply

  /** A finished reply: line texts contain no line end, arrays are nested at most
      `d` deep, and every element is there. */
  ghost predicate Good(o: Obj, d: nat) {
    match o
    case StrObj(k, s) => (k == StatusReply || k == ErrorReply ==> CrlfFree(s)) && k != IntegerReply && k != ArrayReply
    case IntObj(_) => true
    case NilObj => true
    case ArrObj(n, es) =>
      && d > 0 && n != -1 && |es| == (if n > 0 then n else 0)
      && forall i :: 0 <= i < |es| ==> es[i].Full? && Good(es[i].obj, d - 1)
  }

  /** `o` is the array being filled by the first of `tasks`: the elements before the current
      path are finished, those after it are not there yet. */
  ghost predicate Filling(o: Obj, tasks: seq<Task>, d: nat)
    requires |tasks| >= 2
    decreases |tasks|
  {
    && d > 0 && o.ArrObj? && o.elements == tasks[0].elements == |o.element| && tasks[0].kind == Some(ArrayReply)
    && 0 <= tasks[1].idx < |o.element|
    && (forall i :: 0 <= i < tasks[1].idx ==> o.element[i].Full? && Good(o.element[i].obj, d - 1))
    && (forall i :: tasks[1].idx < i < |o.element| ==> o.element[i].Empty?)
    && (if |tasks| == 2 then o.element[tasks[1].idx].Empty?
        else o.element[tasks[1].idx].Full? && Filling(o.element[tasks[1].idx].obj, tasks[1..], d - 1))
  }

  /** The invariant of the reader. */
  ghost predicate Inv(st: State) {
    if st.err then st == FAILED
    else
      && 1 <= |st.stack| <= 3
      && (|st.stack| == 3 ==> st.stack[2].kind != Some(ArrayReply))
      && (if |st.stack| == 1 then st.reply.None? else st.reply.Some? && Filling(st.reply.value, st.stack, 2))
  }

  // ------------------------------------------------------------- the stack, seen from the root

  /** Next works on the innermost task; this is its effect seen from the outermost. */
  lemma {:induction false} NextFromRoot(tasks: seq<Task>)
    requires |tasks| >= 3
    ensures Next(tasks) == (var r := Next(tasks[1..]); if r != [] then [tasks[0]] + r else Next(tasks[..2]))
    decreases |tasks|
  {
    var n := |tasks|;
    var inner := tasks[1..];
    assert inner[..n - 2] == tasks[..n - 1][1..];
    if inner[n - 2].idx == inner[n - 3].elements - 1 {
      if n == 3 {
        assert tasks[..n - 1] == tasks[..2];
      } else {
        NextFromRoot(tasks[..n - 1]);
        assert tasks[..n - 1][..2] == tasks[..2];
      }
    } else {
      assert tasks[..n - 1] == [tasks[0]] + inner[..n - 2];
    }
  }

  lemma PathFromRoot(tasks: seq<Task>)
    requires |tasks| >= 2
    ensures Path(tasks) == [tasks[1].idx] + Path(tasks[1..])
  {
  }

  /** Storing a finished element and moving on keeps the filling order. */
  lemma {:induction false} Advance(o: Obj, tasks: seq<Task>, d: nat, v: Obj)
    requires |tasks| >= 2 && Filling(o, tasks, d) && d + 1 >= |tasks| && Good(v, d + 1 - |tasks|)
    ensures (var o' := PutAt(o, Path(tasks), v);
             if Next(tasks) == [] then Good(o', d)
             else |Next(tasks)| >= 2 && Filling(o', Next(tasks), d))
    decreases |tasks|
  {
    if |tasks| == 2 {
      AdvanceInnermost(o, tasks, d, v);
    } else {
      var child := o.element[tasks[1].idx].obj;
      Advance(child, tasks[1..], d - 1, v);
      AdvanceOuter(o, tasks, d, v, PutAt(child, Path(tasks[1..]), v));
    }
  }

  lemma AdvanceInnermost(o: Obj, tasks: seq<Task>, d: nat, v: Obj)
    requires |tasks| == 2 && Filling(o, tasks, d) && d + 1 >= |tasks| && Good(v, d + 1 - |tasks|)
    ensures (var o' := PutAt(o, Path(tasks), v);
             if Next(tasks) == [] then Good(o', d)
             else |Next(tasks)| >= 2 && Filling(o', Next(tasks), d))
  {
    PathFromRoot(tasks);
    assert Path(tasks[1..]) == [];
    assert tasks[..1] == [tasks[0]];
  }

  /** The element `child'` that has been moved on inside takes its place again. */
  lemma AdvanceOuter(o: Obj, tasks: seq<Task>, d: nat, v: Obj, child': Obj)
    requires |tasks| >= 3 && Filling(o, tasks, d) && d + 1 >= |tasks|
    requires child' == PutAt(o.element[tasks[1].idx].obj, Path(tasks[1..]), v)
    requires if Next(tasks[1..]) == [] then Good(child', d - 1)
             else |Next(tasks[1..])| >= 2 && Filling(child', Next(tasks[1..]), d - 1)
    ensures (var o' := PutAt(o, Path(tasks), v);
             if Next(tasks) == [] then Good(o', d)
             else |Next(tasks)| >= 2 && Filling(o', Next(tasks), d))
  {
    PathFromRoot(tasks);
    assert Path(tasks)[1..] == Path(tasks[1..]);
    NextFromRoot(tasks);
    assert tasks[..2][..1] == [tasks[0]];
    if Next(tasks[1..]) != [] {
      NextKeepsHead(tasks[1..]);
    }
  }

  /** The outermost task of a stack that does not empty changes only its child index. */
  lemma {:induction false} NextKeepsHead(tasks: seq<Task>)
    requires |tasks| >= 2 && Next(tasks) != []
    ensures Next(tasks)[0] == tasks[0]
    decreases |tasks|
  {
    if tasks[|tasks| - 1].idx == tasks[|tasks| - 2].elements - 1 {
      NextKeepsHead(tasks[..|tasks| - 1]);
    }
  }

  /** Of the innermost task only the index matters. */
  lemma {:induction false} FillingLast(o: Obj, tasks: seq<Task>, d: nat, t: Task)
    requires |tasks| >= 2 && Filling(o, tasks, d) && t.idx == tasks[|tasks| - 1].idx
    ensures Filling(o, tasks[|tasks| - 1 := t], d)
    decreases |tasks|
  {
    if |tasks| > 2 {
      FillingLast(o.element[tasks[1].idx].obj, tasks[1..], d - 1, t);
      assert tasks[|tasks| - 1 := t][1..] == tasks[1..][|tasks| - 2 := t];
    }
  }

  /** The stack after an array header of `n` elements. */
  ghost function Pushed(tasks: seq<Task>, n: int): seq<Task>
    requires tasks != []
  {
    tasks[|tasks| - 1 := tasks[|tasks| - 1].(elements := n)] + [Task(None, -1, 0)]
  }

  lemma PushedFromRoot(tasks: seq<Task>, n: int)
    requires |tasks| >= 2
    ensures Pushed(tasks, n)[1..] == Pushed(tasks[1..], n) && Pushed(tasks, n)[0] == tasks[0]
  {
  }

  /** Storing an array without elements yet and descending into it. */
  lemma {:induction false} Descend(o: Obj, tasks: seq<Task>, d: nat, n: int)
    requires |tasks| >= 2 && Filling(o, tasks, d) && d >= |tasks| && n > 0
    requires tasks[|tasks| - 1].kind == Some(ArrayReply)
    ensures Filling(PutAt(o, Path(tasks), NewArray(n)), Pushed(tasks, n), d)
    decreases |tasks|
  {
    PathFromRoot(tasks);
    PushedFromRoot(tasks, n);
    if |tasks| == 2 {
      assert Path(tasks[1..]) == [];
      assert Filling(NewArray(n), Pushed(tasks[1..], n), d - 1);
    } else {
      Descend(o.element[tasks[1].idx].obj, tasks[1..], d - 1, n);
      assert Path(tasks)[1..] == Path(tasks[1..]);
    }
  }

  // ------------------------------------------------------------- every step keeps the invariant

  /** Completed root, or a state that satisfies the invariant. */
  ghost predicate StepInv(s: State) {
    if s.stack == [] then !s.err && s.reply.Some? && Good(s.reply.value, 2) else Inv(s)
  }

  lemma StoreInv(st: State, n: nat, v: Obj)
    requires !st.err && 1 <= |st.stack| <= 3 && n <= |st.rest| && Good(v, 3 - |st.stack|)
    requires |st.stack| > 1 ==> st.reply.Some? && Filling(st.reply.value, st.stack, 2)
    ensures StepInv(Store(st, n, v))
  {
    if |st.stack| > 1 {
      Advance(st.reply.value, st.stack, 2, v);
    }
  }

  lemma LineInv(st: State, k: Kind)
    requires !st.err && 1 <= |st.stack| <= 3 && (k == ErrorReply || k == StatusReply || k == IntegerReply)
    requires |st.stack| > 1 ==> st.reply.Some? && Filling(st.reply.value, st.stack, 2)
    ensures LineItem(st, k).Done? ==> StepInv(LineItem(st, k).state)
  {
    var i := FindCrlf(st.rest);
    if i >= 0 {
      assert forall j :: 0 <= j < i ==> (CrlfAt(st.rest[..i], j) ==> CrlfAt(st.rest, j));
      StoreInv(st, i + 2, if k == IntegerReply then IntObj(ReadInt(st.rest)) else StrObj(k, st.rest[..i]));
    }
  }

  lemma BulkInv(st: State)
    requires !st.err && 1 <= |st.stack| <= 3
    requires |st.stack| > 1 ==> st.reply.Some? && Filling(st.reply.value, st.stack, 2)
    ensures BulkItem(st).Done? ==> StepInv(BulkItem(st).state)
  {
    var i := FindCrlf(st.rest);
    if i >= 0 {
      var len := ReadInt(st.rest);
      if len < 0 {
        StoreInv(st, i + 2, NilObj);
      } else if i + 2 + len + 2 <= |st.rest| {
        StoreInv(st, i + 2 + len + 2, StrObj(StringReply, st.rest[i + 2..i + 2 + len]));
      }
    }
  }

  lemma MultiInv(st: State)
    requires !st.err && 1 <= |st.stack| <= 3 && st.stack[|st.stack| - 1].kind == Some(ArrayReply)
    requires |st.stack| > 1 ==> st.reply.Some? && Filling(st.reply.value, st.stack, 2)
    ensures MultiItem(st).Done? ==> StepInv(MultiItem(st).state)
  {
    var i := FindCrlf(st.rest);
    if |st.stack| < 3 && i >= 0 {
      var n := ReadInt(st.rest);
      if n == -1 {
        StoreInv(st, i + 2, NilObj);
      } else if n <= 0 {
        StoreInv(st, i + 2, NewArray(n));
      } else if |st.stack| == 2 {
        Descend(st.reply.value, st.stack, 2, n);
      }
    }
  }

  ghost predicate OutcomeInv(out: Outcome) {
    match out
    case Fail => true
    case Wait(s) => Inv(s) && !s.err
    case Done(s) => StepInv(s)
  }

  lemma TypedInv(st: State, k: Kind)
    requires !st.err && 1 <= |st.stack| <= 3 && st.stack[|st.stack| - 1].kind == Some(k)
    requires if |st.stack| > 1 then st.reply.Some? && Filling(st.reply.value, st.stack, 2) else st.reply.None?
    ensures OutcomeInv(TypedItem(st, k))
  {
    match k
    case ErrorReply => LineInv(st, k);
    case StatusReply => LineInv(st, k);
    case IntegerReply => LineInv(st, k);
    case StringReply => BulkInv(st);
    case ArrayReply => MultiInv(st);
  }

  /** Reading the type byte of a fresh task. */
  lemma FreshInv(st: State, st': State, k: Kind)
    requires Inv(st) && !st.err && st' == st.(rest := st'.rest, stack := Retag(st.stack, k))
    ensures OutcomeInv(TypedItem(st', k))
  {
    if |st.stack| > 1 {
      FillingLast(st.reply.value, st.stack, 2, st.stack[|st.stack| - 1].(kind := Some(k)));
    }
    TypedInv(st', k);
  }

  /** An item whose type byte is read now. */
  lemma NewItemInv(st: State)
    requires Inv(st) && !st.err && st.stack[|st.stack| - 1].kind.None? && st.rest != []
    ensures OutcomeInv(Item(st))
  {
    var k := KindOf(st.rest[0]);
    if k.None? {
      assert Item(st) == Fail;
    } else {
      var st' := st.(rest := st.rest[1..], stack := Retag(st.stack, k.value));
      FreshInv(st, st', k.value);
      assert Item(st) == TypedItem(st', k.value);
    }
  }

  /** processItem keeps the invariant, and a wait leaves a state that satisfies it. */
  lemma ItemInv(st: State)
    requires Inv(st) && !st.err
    ensures OutcomeInv(Item(st))
  {
    var kind := st.stack[|st.stack| - 1].kind;
    if kind.Some? {
      TypedInv(st, kind.value);
      assert Item(st) == TypedItem(st, kind.value);
    } else if st.rest == [] {
      assert Item(st) == Wait(st);
    } else {
      NewItemInv(st);
    }
  }

  lemma {:induction false} RunInv(st: State)
    requires Inv(st) && !st.err
    ensures StepInv(Run(st))
    decreases |st.rest|
  {
    ItemInv(st);
    if Item(st).Done? {
      ItemShrinks(st);
      if Item(st).state.stack != [] {
        RunInv(Item(st).state);
      }
    }
  }

  /** redisReaderGetReply keeps the invariant and emits only finished replies. */
  lemma GetInv(st: State)
    requires Inv(st)
    ensures Inv(Get(st).0) && (Get(st).1.Some? ==> Good(Get(st).1.value, 2))
  {
    if !st.err {
      RunInv(st);
    }
  }

  lemma FeedInv(st: State, bytes: seq<Byte>)
    requires Inv(st)
    ensures Inv(Feed(st, bytes))
  {
  }

  lemma {:induction false} DrainInv(st: State)
    requires Inv(st)
    ensures Inv(Drain(st).0) && forall i :: 0 <= i < |Drain(st).1| ==> Good(Drain(st).1[i], 2)
    decreases |st.rest|
  {
    GetInv(st);
    if Get(st).1.Some? {
      RunShrinks(st);
      DrainInv(Get(st).0);
    }
  }

  /** Over every session, the invariant holds and every emitted reply is finished. */
  lemma {:induction false} SessionInv(st: State, chunks: seq<seq<Byte>>)
    requires Inv(st)
    ensures Inv(FeedChunks(st, chunks).0)
    ensures forall i :: 0 <= i < |FeedChunks(st, chunks).1| ==> Good(FeedChunks(st, chunks).1[i], 2)
    decreases |chunks|
  {
    if chunks != [] {
      FeedInv(st, chunks[0]);
      DrainInv(Feed(st, chunks[0]));
      SessionInv(Drain(Feed(st, chunks[0])).0, chunks[1..]);
    }
  }
}
