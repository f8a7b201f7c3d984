/** The replies do not depend on how the stream is cut into chunks. */
module ReplyChunks {
  import opened Resp
  import opened Reply

  ghost function More(st: State, v: seq<Byte>): State {
    st.(rest := st.rest + v)
  }

  /** How an outcome relates to the outcome on a longer input. */
  ghost predicate Extends(out: Outcome, longer: Outcome, retried: Outcome, v: seq<Byte>) {
    match out
    case Fail => longer.Fail?
    case Done(s) => longer == Done(More(s, v))
    case Wait(s) => longer == retried
  }

  lemma LineExtends(st: State, k: Kind, v: seq<Byte>)
    requires st.stack != []
    ensures Extends(LineItem(st, k), LineItem(More(st, v), k), LineItem(More(st, v), k), v)
  {
    var i := FindCrlf(st.rest);
    if i >= 0 {
      FindCrlfExtend(st.rest, v);
      ReadIntExtend(st.rest, v);
      assert (st.rest + v)[i + 2..] == st.rest[i + 2..] + v;
      assert (st.rest + v)[..i] == st.rest[..i];
    }
  }

  lemma BulkExtends(st: State, v: seq<Byte>)
    requires st.stack != []
    ensures Extends(BulkItem(st), BulkItem(More(st, v)), BulkItem(More(st, v)), v)
  {
    var i := FindCrlf(st.rest);
    if i >= 0 {
      FindCrlfExtend(st.rest, v);
      ReadIntExtend(st.rest, v);
      var len := ReadInt(st.rest);
      if len < 0 {
        assert (st.rest + v)[i + 2..] == st.rest[i + 2..] + v;
      } else if i + 2 + len + 2 <= |st.rest| {
        assert (st.rest + v)[i + 2 + len + 2..] == st.rest[i + 2 + len + 2..] + v;
        assert (st.rest + v)[i + 2..i + 2 + len] == st.rest[i + 2..i + 2 + len];
      }
    }
  }

  lemma MultiExtends(st: State, v: seq<Byte>)
    requires st.stack != []
    ensures Extends(MultiItem(st), MultiItem(More(st, v)), MultiItem(More(st, v)), v)
  {
    var i := FindCrlf(st.rest);
    if i >= 0 {
      FindCrlfExtend(st.rest, v);
      ReadIntExtend(st.rest, v);
      assert (st.rest + v)[i + 2..] == st.rest[i + 2..] + v;
    }
  }

  lemma TypedExtends(st: State, k: Kind, v: seq<Byte>)
    requires st.stack != []
    ensures Extends(TypedItem(st, k), TypedItem(More(st, v), k), TypedItem(More(st, v), k), v)
    ensures TypedItem(st, k).Wait? ==> TypedItem(st, k).state == st
  {
    match k
    case ErrorReply => LineExtends(st, k, v);
    case StatusReply => LineExtends(st, k, v);
    case IntegerReply => LineExtends(st, k, v);
    case StringReply => BulkExtends(st, v);
    case ArrayReply => MultiExtends(st, v);
  }

  /** An item that could not be completed is completed later as if all bytes had been there. */
  lemma ItemExtends(st: State, v: seq<Byte>)
    requires st.stack != []
    ensures Item(st).Wait? ==> Item(st).state.stack != [] && Item(st).state.err == st.err
    ensures Extends(Item(st), Item(More(st, v)), if Item(st).Wait? then Item(More(Item(st).state, v)) else Fail, v)
  {
    var top := |st.stack| - 1;
    match st.stack[top].kind
    case Some(k) =>
      TypedExtends(st, k, v);
    case None =>
      if st.rest != [] && KindOf(st.rest[0]).Some? {
        var k := KindOf(st.rest[0]).value;
        var st' := st.(rest := st.rest[1..], stack := Retag(st.stack, k));
        TypedExtends(st', k, v);
        assert (st.rest + v)[1..] == st.rest[1..] + v;
      }
  }

  /** Running on a longer input: the same failure, the same reply with more bytes left,
      or a continuation from where the shorter run stopped. */
  lemma {:induction false} RunExtends(st: State, v: seq<Byte>)
    requires st.stack != [] && !st.err
    ensures (var s := Run(st);
             if s.err then Run(More(st, v)) == s
             else if s.stack == [] then Run(More(st, v)) == More(s, v)
             else Run(More(st, v)) == Run(More(s, v)))
    decreases |st.rest|
  {
    ItemExtends(st, v);
    if Item(st).Done? {
      ItemShrinks(st);
      var s := Item(st).state;
      if s.stack != [] {
        RunExtends(s, v);
      }
    }
  }

  /** Below the root task there is always a root object. */
  ghost predicate Rooted(st: State) {
    st.stack != [] && (|st.stack| > 1 ==> st.reply.Some?)
  }

  ghost predicate OutcomeRooted(out: Outcome) {
    match out
    case Fail => true
    case Wait(s) => Rooted(s)
    case Done(s) => if s.stack == [] then s.reply.Some? else Rooted(s)
  }

  lemma StoreRooted(st: State, n: nat, v: Obj)
    requires Rooted(st) && n <= |st.rest|
    ensures OutcomeRooted(Done(Store(st, n, v)))
  {
  }

  lemma TypedRooted(st: State, k: Kind)
    requires Rooted(st)
    ensures OutcomeRooted(TypedItem(st, k))
  {
    var i := FindCrlf(st.rest);
    if i >= 0 {
      var n := ReadInt(st.rest);
      StoreRooted(st, i + 2, IntObj(n));
      StoreRooted(st, i + 2, StrObj(k, st.rest[..i]));
      StoreRooted(st, i + 2, NilObj);
      StoreRooted(st, i + 2, NewArray(n));
      if k == StringReply && n >= 0 && i + 2 + n + 2 <= |st.rest| {
        StoreRooted(st, i + 2 + n + 2, StrObj(StringReply, st.rest[i + 2..i + 2 + n]));
      }
    }
  }

  lemma ItemRooted(st: State)
    requires Rooted(st)
    ensures OutcomeRooted(Item(st))
  {
    match st.stack[|st.stack| - 1].kind
    case Some(k) => TypedRooted(st, k);
    case None =>
      if st.rest != [] && KindOf(st.rest[0]).Some? {
        var k := KindOf(st.rest[0]).value;
        TypedRooted(st.(rest := st.rest[1..], stack := Retag(st.stack, k)), k);
      }
  }

  /** A run that completes the root task has a reply to emit. */
  lemma {:induction false} RunRooted(st: State)
    requires Rooted(st)
    ensures (var s := Run(st); if s.stack == [] then s.reply.Some? else Rooted(s))
    decreases |st.rest|
  {
    ItemRooted(st);
    if Item(st).Done? {
      ItemShrinks(st);
      if Item(st).state.stack != [] {
        RunRooted(Item(st).state);
      }
    }
  }

  /** Get on a longer input, in the three cases of RunExtends. */
  lemma GetExtends(st: State, v: seq<Byte>)
    requires Rooted(st) && !st.err
    ensures Rooted(Get(st).0)
    ensures (var (s, r) := Get(st);
             if s.err then r.None? && Get(More(st, v)) == (s, None)
             else if r.Some? then |s.rest| < |st.rest| && Get(More(st, v)) == (More(s, v), r)
             else Get(More(st, v)) == Get(More(s, v)))
  {
    RunExtends(st, v);
    RunShrinks(st);
    RunRooted(st);
  }

  /** The replies `rs` come first. */
  ghost function Prepend(rs: seq<Obj>, d: (State, seq<Obj>)): (State, seq<Obj>) {
    (d.0, rs + d.1)
  }

  lemma PrependTwice(a: seq<Obj>, b: seq<Obj>, d: (State, seq<Obj>))
    ensures Prepend(a, Prepend(b, d)) == Prepend(a + b, d) && Prepend([], d) == d
  {
    assert a + (b + d.1) == (a + b) + d.1;
    assert [] + d.1 == d.1;
  }

  /** One step of Drain. */
  lemma DrainStep(st: State)
    requires Rooted(st)
    ensures (var (s, r) := Get(st);
             Drain(st) == if r.None? then (s, []) else Prepend([r.value], Drain(s)))
  {
  }

  /** Two states with the same next reply drain alike. */
  lemma DrainSame(st: State, st': State)
    requires Rooted(st) && Rooted(st') && Get(st) == Get(st')
    ensures Drain(st) == Drain(st')
  {
    DrainStep(st);
    DrainStep(st');
  }

  lemma DrainStuck(st: State, v: seq<Byte>)
    requires Rooted(st) && Get(st).1.None?
    ensures (var s := Get(st).0; Rooted(s) && Drain(st) == (s, []) && Drain(Feed(st, v)) == Drain(Feed(s, v)))
  {
    DrainStep(st);
    if !st.err {
      GetExtends(st, v);
      DrainSame(More(st, v), if Get(st).0.err then Get(st).0 else More(Get(st).0, v));
    }
  }

  /** Draining, then draining again after more bytes, is draining everything at once. */
  lemma {:induction false} DrainExtends(st: State, v: seq<Byte>)
    requires Rooted(st)
    ensures Rooted(Drain(st).0)
    ensures Drain(Feed(st, v)) == Prepend(Drain(st).1, Drain(Feed(Drain(st).0, v)))
    decreases |st.rest|
  {
    var (s, r) := Get(st);
    if r.None? {
      DrainStuck(st, v);
      PrependTwice([], [], Drain(Feed(s, v)));
    } else {
      GetExtends(st, v);
      DrainStep(st);
      DrainStep(More(st, v));
      DrainExtends(s, v);
      PrependTwice([r.value], Drain(s).1, Drain(Feed(Drain(s).0, v)));
    }
  }

  /** After draining there is nothing left to drain. */
  lemma DrainedTwice(st: State)
    requires Rooted(st)
    ensures Rooted(Drain(st).0) && Drain(Drain(st).0) == (Drain(st).0, [])
    decreases |st.rest|
  {
    DrainStep(st);
    var (s, r) := Get(st);
    if r.None? {
      DrainStuck(st, []);
      assert st.rest + [] == st.rest && s.rest + [] == s.rest;
    } else {
      GetExtends(st, []);
      DrainedTwice(s);
    }
  }

  lemma FeedTwice(st: State, a: seq<Byte>, b: seq<Byte>)
    ensures Feed(Feed(st, a), b) == Feed(st, a + b)
  {
    assert st.rest + (a + b) == (st.rest + a) + b;
  }

  /** For every stream and every way of cutting it, the emitted replies, the error status,
      the unread bytes and the partly built reply are those of feeding it whole. */
  lemma {:induction false} ChunksDoNotMatter(st: State, chunks: seq<seq<Byte>>)
    requires Rooted(st) && Drain(st) == (st, [])
    ensures FeedChunks(st, chunks) == Drain(Feed(st, Flatten(chunks)))
    decreases |chunks|
  {
    if chunks == [] {
      assert st.rest + [] == st.rest;
    } else {
      var fed := Feed(st, chunks[0]);
      FeedTwice(st, chunks[0], Flatten(chunks[1..]));
      DrainExtends(fed, Flatten(chunks[1..]));
      DrainedTwice(fed);
      ChunksDoNotMatter(Drain(fed).0, chunks[1..]);
    }
  }
}
