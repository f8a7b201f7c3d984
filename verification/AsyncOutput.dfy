/** What the server reads from an asynchronous connection. */
module AsyncOutput {
  import opened Resp
  import opened Reply
  import opened ReplyCodec
  import opened Command
  import opened AsyncSpec
  import opened AsyncTrace
  import opened AsyncRuns

  /** The commands that were accepted, in order. */
  ghost function Accepted(made: seq<Made>): seq<Value> {
    if made == [] then []
    else
      var last := made[|made| - 1];
      Accepted(made[..|made| - 1]) +
      if last.action.Send? && !last.effect.Refused? then [AsValue(last.action.argv)] else []
  }

  lemma {:induction false} EncodeOneMore(vs: seq<Value>, v: Value)
    ensures EncodeAll(vs + [v]) == EncodeAll(vs) + Encode(v)
    decreases |vs|
  {
    if vs == [] {
      assert vs + [v] == [v] && EncodeAll([v]) == Encode(v) + EncodeAll([]);
    } else {
      assert (vs + [v])[1..] == vs[1..] + [v];
      EncodeOneMore(vs[1..], v);
    }
  }

  lemma {:induction false} OutputEncodes(made: seq<Made>)
    ensures Output(made) == EncodeAll(Accepted(made))
    ensures forall i :: 0 <= i < |Accepted(made)| ==> Ok(Accepted(made)[i], 2)
  {
    if made != [] {
      var front, last := made[..|made| - 1], made[|made| - 1];
      OutputEncodes(front);
      if last.action.Send? && !last.effect.Refused? {
        FormatEncodes(last.action.argv);
        EncodeOneMore(Accepted(front), AsValue(last.action.argv));
      } else {
        assert Accepted(made) == Accepted(front) && Output(made) == Output(front);
      }
    }
  }

  /** Whatever the run, the bytes written and those still to be written are read as exactly the accepted commands, in
      order and with nothing left over. */
  lemma ServerReads(env: Env, events: seq<Event>)
    requires Iterates(env)
    ensures var log, obuf := HandledAll(INITIAL_CONN, env, events).log, HandledAll(INITIAL_CONN, env, events).obuf;
            Drain(Feed(INITIAL, log.written + obuf)) == (INITIAL, ToObjs(Accepted(log.made)))
  {
    var s := HandledAll(INITIAL_CONN, env, events);
    RunPromised(env, events);
    assert s.log.written + s.obuf == Output(s.log.made);
    OutputEncodes(s.log.made);
    RoundTrip(Accepted(s.log.made));
  }
}
