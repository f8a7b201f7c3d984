/** Reading back what was written: the reader inverts the RESP encoding of replies. */
module ReplyCodec {
  import opened Resp
  import opened Reply
  import opened ReplyShape
  import opened ReplyChunks

  /** Lines, some of them for what they are worth as numbers, and bytes that begin no reply. */
  type Line = t: seq<Byte> | CrlfFree(t) witness []
  type Negative = t: seq<Byte> | CrlfFree(t) && ValueOf(t) < 0 witness [120]
  type NotPositive = t: seq<Byte> | CrlfFree(t) && ValueOf(t) <= 0 witness [48]
  type Unknown = b: Byte | b != 43 && b != 45 && b != 58 && b != 36 && b != 42 witness 0

  /** Replies as a server means them; then integers in any spelling, bulk strings of any negative length and arrays of
      any length that is not positive; and what is no reply at all. */
  datatype Value =
    | Status(text: seq<Byte>)
    | Error(text: seq<Byte>)
    | Integer(n: int)
    | Bulk(bytes: seq<Byte>)
    | Nil
    | Array(elems: seq<Value>)
    | Number(line: Line)
    | NoBulk(length: Negative)
    | NoArray(count: NotPositive)
    | Garbage(byte: Unknown)

  function Encode(v: Value): seq<Byte>
    decreases v, 1
  {
    match v
    case Status(text) => [43] + text + CRLF
    case Error(text) => [45] + text + CRLF
    case Integer(n) => [58] + Decimal(n) + CRLF
    case Bulk(b) => [36] + Decimal(|b|) + CRLF + b + CRLF
    case Nil => [36] + Decimal(-1) + CRLF
    case Array(es) => [42] + Decimal(|es|) + CRLF + EncodeAll(es)
    case Number(line) => [58] + line + CRLF
    case NoBulk(length) => [36] + length + CRLF
    case NoArray(count) => [42] + count + CRLF
    case Garbage(byte) => [byte]
  }

  function EncodeAll(vs: seq<Value>): seq<Byte>
    decreases vs, 0
  {
    if vs == [] then [] else Encode(vs[0]) + EncodeAll(vs[1..])
  }

  /** The reply object that stands for a value. */
  function ToObj(v: Value): Obj {
    match v
    case Status(text) => StrObj(StatusReply, text)
    case Error(text) => StrObj(ErrorReply, text)
    case Integer(n) => IntObj(n)
    case Bulk(b) => StrObj(StringReply, b)
    case Nil => NilObj
    case Array(es) => ArrObj(|es|, seq(|es|, i requires 0 <= i < |es| => Full(ToObj(es[i]))))
    case Number(line) => IntObj(ValueOf(line))
    case NoBulk(_) => NilObj
    case NoArray(count) => if ValueOf(count) == -1 then NilObj else ArrObj(ValueOf(count), [])
    case Garbage(_) => NilObj
  }

  function ToObjs(vs: seq<Value>): seq<Obj> {
    seq(|vs|, i requires 0 <= i < |vs| => ToObj(vs[i]))
  }

  /** Line texts without line ends. */
  ghost predicate LinesOk(v: Value) {
    match v
    case Status(text) => CrlfFree(text)
    case Error(text) => CrlfFree(text)
    case Array(es) => forall i :: 0 <= i < |es| ==> LinesOk(es[i])
    case _ => true
  }

  /** Line texts without line ends, arrays of any kind nested at most `d` deep, and no garbage. */
  ghost predicate Ok(v: Value, d: nat) {
    match v
    case Status(text) => CrlfFree(text)
    case Error(text) => CrlfFree(text)
    case Array(es) => d > 0 && forall i :: 0 <= i < |es| ==> Ok(es[i], d - 1)
    case NoArray(_) => d > 0
    case Garbage(_) => false
    case _ => true
  }

  /** The state after the current task has produced `v`. */
  ghost function Stored(st: State, v: Value, tail: seq<Byte>): State
    requires st.stack != []
  {
    State(tail, Next(st.stack), Put(st.reply, st.stack, ToObj(v)), st.err)
  }

  // ------------------------------------------------------------- scalars

  lemma HeaderLine(k: Byte, text: seq<Byte>, tail: seq<Byte>)
    requires CrlfFree(text)
    ensures (var s := [k] + text + CRLF + tail;
             && s[0] == k && FindCrlf(s[1..]) == |text| && s[1..][..|text|] == text && s[1..][|text| + 2..] == tail
             && s[1..] == text + CRLF + tail)
  {
    var s := [k] + text + CRLF + tail;
    assert s[1..] == text + CRLF + tail;
    LineFound(text, tail);
  }

  lemma HeaderInt(k: Byte, n: int, tail: seq<Byte>)
    ensures (var s := [k] + Decimal(n) + CRLF + tail;
             && s[0] == k && FindCrlf(s[1..]) == |Decimal(n)| && s[1..][|Decimal(n)| + 2..] == tail
             && ReadInt(s[1..]) == n)
  {
    DecimalCrlfFree(n);
    HeaderLine(k, Decimal(n), tail);
    assert Decimal(n) + CRLF + tail == Decimal(n) + (CRLF + tail);
    ReadDecimal(n, CRLF + tail);
  }

  lemma HeaderNumber(k: Byte, line: seq<Byte>, tail: seq<Byte>)
    requires CrlfFree(line)
    ensures (var s := [k] + line + CRLF + tail;
             && s[0] == k && FindCrlf(s[1..]) == |line| && s[1..][|line| + 2..] == tail
             && ReadInt(s[1..]) == ValueOf(line))
  {
    HeaderLine(k, line, tail);
    assert line + CRLF + tail == line + (CRLF + tail);
    ReadsValue(line, CRLF + tail);
  }

  lemma SameIndex(st: State, k: Kind, v: Obj)
    requires st.stack != []
    ensures Next(Retag(st.stack, k)) == Next(st.stack)
    ensures Put(st.reply, Retag(st.stack, k), v) == Put(st.reply, st.stack, v)
  {
    SameNext(st.stack, Retag(st.stack, k));
    assert Path(Retag(st.stack, k)) == Path(st.stack);
  }

  /** Of the innermost task, moving on looks only at the index. */
  lemma SameNext(a: seq<Task>, b: seq<Task>)
    requires |a| == |b| > 0 && a[..|a| - 1] == b[..|a| - 1] && a[|a| - 1].idx == b[|a| - 1].idx
    ensures Next(a) == Next(b)
  {
    if |a| > 1 {
      assert a[|a| - 2] == a[..|a| - 1][|a| - 2] == b[..|a| - 1][|a| - 2] == b[|a| - 2];
    }
  }

  ghost predicate Ready(st: State, bytes: seq<Byte>) {
    1 <= |st.stack| <= 3 && st.stack[|st.stack| - 1].kind.None? && !st.err && st.rest == bytes
  }

  /** After the type byte. */
  ghost function Opened(st: State, k: Kind): State
    requires st.stack != [] && st.rest != []
  {
    st.(rest := st.rest[1..], stack := Retag(st.stack, k))
  }

  lemma OpenItem(st: State, k: Kind)
    requires st.stack != [] && st.rest != [] && st.stack[|st.stack| - 1].kind.None? && KindOf(st.rest[0]) == Some(k)
    ensures Item(st) == TypedItem(Opened(st, k), k)
  {
  }

  lemma DecodeText(st: State, v: Value, tail: seq<Byte>)
    requires v.Status? || v.Error?
    requires Ready(st, Encode(v) + tail) && CrlfFree(v.text)
    ensures Item(st) == Done(Stored(st, v, tail))
  {
    var k := if v.Status? then StatusReply else ErrorReply;
    HeaderLine(if v.Status? then 43 else 45, v.text, tail);
    OpenItem(st, k);
    SameIndex(st, k, ToObj(v));
  }

  lemma DecodeInteger(st: State, n: int, tail: seq<Byte>)
    requires Ready(st, Encode(Integer(n)) + tail)
    ensures Item(st) == Done(Stored(st, Integer(n), tail))
  {
    HeaderInt(58, n, tail);
    OpenItem(st, IntegerReply);
    SameIndex(st, IntegerReply, IntObj(n));
  }

  lemma DecodeNil(st: State, tail: seq<Byte>)
    requires Ready(st, Encode(Nil) + tail)
    ensures Item(st) == Done(Stored(st, Nil, tail))
  {
    HeaderInt(36, -1, tail);
    OpenItem(st, StringReply);
    SameIndex(st, StringReply, NilObj);
  }

  lemma DecodeNumber(st: State, line: Line, tail: seq<Byte>)
    requires Ready(st, Encode(Number(line)) + tail)
    ensures Item(st) == Done(Stored(st, Number(line), tail))
  {
    HeaderNumber(58, line, tail);
    OpenItem(st, IntegerReply);
    SameIndex(st, IntegerReply, IntObj(ValueOf(line)));
  }

  lemma DecodeNoBulk(st: State, length: Negative, tail: seq<Byte>)
    requires Ready(st, Encode(NoBulk(length)) + tail)
    ensures Item(st) == Done(Stored(st, NoBulk(length), tail))
  {
    HeaderNumber(36, length, tail);
    OpenItem(st, StringReply);
    SameIndex(st, StringReply, NilObj);
    LengthRead(Opened(st, StringReply), length);
  }

  lemma LengthRead(st: State, length: seq<Byte>)
    requires st.stack != [] && FindCrlf(st.rest) == |length| && ReadInt(st.rest) == ValueOf(length) < 0
    ensures BulkItem(st) == Done(Store(st, |length| + 2, NilObj))
  {
  }

  lemma DecodeNoArray(st: State, count: NotPositive, tail: seq<Byte>)
    requires Ready(st, Encode(NoArray(count)) + tail) && |st.stack| < 3
    ensures Item(st) == Done(Stored(st, NoArray(count), tail))
  {
    HeaderNumber(42, count, tail);
    OpenItem(st, ArrayReply);
    SameIndex(st, ArrayReply, ToObj(NoArray(count)));
    NoElements(ValueOf(count));
    CountRead(Opened(st, ArrayReply), count);
  }

  lemma NoElements(n: int)
    requires n <= 0
    ensures NewArray(n) == ArrObj(n, [])
  {
  }

  lemma CountRead(st: State, count: seq<Byte>)
    requires 1 <= |st.stack| < 3 && FindCrlf(st.rest) == |count| && ReadInt(st.rest) == ValueOf(count) <= 0
    ensures var n := ValueOf(count);
            MultiItem(st) == Done(Store(st, |count| + 2, if n == -1 then NilObj else NewArray(n)))
  {
  }

  lemma Slices(a: seq<Byte>, b: seq<Byte>, e: seq<Byte>, tail: seq<Byte>)
    requires |e| == 2
    ensures (var s := a + (b + e + tail);
             s[|a|..|a| + |b|] == b && s[|a| + |b| + 2..] == tail)
  {
  }

  lemma BulkParts(b: seq<Byte>, tail: seq<Byte>)
    ensures (var s, i := (Encode(Bulk(b)) + tail), |Decimal(|b|)|;
             && s[0] == 36 && FindCrlf(s[1..]) == i && ReadInt(s[1..]) == |b|
             && i + 2 + |b| + 2 <= |s| - 1
             && s[1..][i + 2..i + 2 + |b|] == b && s[1..][i + 2 + |b| + 2..] == tail)
  {
    var h, body := Decimal(|b|) + CRLF, b + CRLF + tail;
    assert Encode(Bulk(b)) + tail == [36] + Decimal(|b|) + CRLF + body;
    HeaderInt(36, |b|, body);
    assert ([36] + Decimal(|b|) + CRLF + body)[1..] == h + body;
    Slices(h, b, CRLF, tail);
  }

  lemma DecodeBulk(st: State, b: seq<Byte>, tail: seq<Byte>)
    requires Ready(st, Encode(Bulk(b)) + tail)
    ensures Item(st) == Done(Stored(st, Bulk(b), tail))
  {
    BulkParts(b, tail);
    OpenItem(st, StringReply);
    SameIndex(st, StringReply, StrObj(StringReply, b));
  }

  // ------------------------------------------------------------- arrays

  /** Writing below a place that has just been written. */
  lemma {:induction false} PutBelow(o: Obj, path: seq<int>, arr: Obj, k: int, v: Obj)
    requires arr.ArrObj? && 0 <= k < |arr.element|
    ensures PutAt(PutAt(o, path, arr), path + [k], v) == PutAt(o, path, arr.(element := arr.element[k := Full(v)]))
    decreases |path|
  {
    if path == [] {
      assert path + [k] == [k];
    } else if o.ArrObj? && 0 <= path[0] < |o.element| {
      assert (path + [k])[1..] == path[1..] + [k];
      if |path| == 1 {
        assert path[1..] + [k] == [k];
        var o1 := PutAt(o, path, arr);
        assert PutAt(arr, [k], v) == arr.(element := arr.element[k := Full(v)]);
        assert PutAt(o1, path + [k], v).element == o.element[path[0] := Full(arr.(element := arr.element[k := Full(v)]))];
      } else if o.element[path[0]].Full? {
        PutBelow(o.element[path[0]].obj, path[1..], arr, k, v);
        var o1 := PutAt(o, path, arr);
        assert PutAt(o1, path + [k], v).element == PutAt(o, path, arr.(element := arr.element[k := Full(v)])).element;
      }
    }
  }

  /** An array object of which the first `k` elements are there. */
  ghost function Partial(es: seq<Value>, k: nat): Obj
    requires k <= |es|
  {
    ArrObj(|es|, seq(|es|, i requires 0 <= i < |es| => if i < k then Full(ToObj(es[i])) else Empty))
  }

  ghost function ArrayTask(t: Task, n: int): Task {
    Task(Some(ArrayReply), n, t.idx)
  }

  /** The state before element `k` of the array that the current task of `st` reads. */
  ghost function InArray(st: State, es: seq<Value>, k: nat, tail: seq<Byte>): State
    requires st.stack != [] && k < |es|
  {
    var top := |st.stack| - 1;
    State(EncodeAll(es[k..]) + tail,
          st.stack[top := ArrayTask(st.stack[top], |es|)] + [Task(None, -1, k)],
          Put(st.reply, st.stack, Partial(es, k)), st.err)
  }

  lemma PutElement(st: State, es: seq<Value>, k: nat, tail: seq<Byte>)
    requires st.stack != [] && k < |es|
    ensures (var s := InArray(st, es, k, tail);
             Put(s.reply, s.stack, ToObj(es[k])) == Put(st.reply, st.stack, Partial(es, k + 1)))
  {
    var s := InArray(st, es, k, tail);
    var arr := Partial(es, k);
    assert arr.(element := arr.element[k := Full(ToObj(es[k]))]) == Partial(es, k + 1);
    assert Path(s.stack) == Path(st.stack) + [k];
    if |st.stack| == 1 {
      PutBelow(arr, [], arr, k, ToObj(es[k]));
      assert Path(s.stack) == [k];
    } else if st.reply.Some? {
      PutBelow(st.reply.value, Path(st.stack), arr, k, ToObj(es[k]));
    }
  }

  lemma NextElement(st: State, es: seq<Value>, k: nat, tail: seq<Byte>)
    requires st.stack != [] && k < |es|
    ensures (var s := InArray(st, es, k, tail);
             Next(s.stack) == if k == |es| - 1 then Next(st.stack) else InArray(st, es, k + 1, tail).stack)
  {
    var s, top := InArray(st, es, k, tail), |st.stack| - 1;
    var below := st.stack[top := ArrayTask(st.stack[top], |es|)];
    assert s.stack[..|s.stack| - 1] == below;
    SameNext(below, st.stack);
  }

  lemma OpenArray(st: State, es: seq<Value>, tail: seq<Byte>)
    requires Ready(st, Encode(Array(es)) + tail) && |st.stack| < 3
    ensures Item(st) == Done(if es == [] then Stored(st, Array(es), tail) else InArray(st, es, 0, tail))
  {
    var n, top := |es|, |st.stack| - 1;
    assert Encode(Array(es)) + tail == [42] + Decimal(n) + CRLF + (EncodeAll(es) + tail);
    HeaderInt(42, n, EncodeAll(es) + tail);
    OpenItem(st, ArrayReply);
    SameIndex(st, ArrayReply, NewArray(n));
    if es == [] {
      assert EncodeAll(es) + tail == tail;
      assert NewArray(0) == ToObj(Array(es));
    } else {
      assert NewArray(n) == Partial(es, 0);
      assert es[0..] == es;
      var s := Opened(st, ArrayReply);
      assert s.stack[top := s.stack[top].(elements := n)] == st.stack[top := ArrayTask(st.stack[top], n)];
    }
  }

  /** From the type byte of a value to the task after it. */
  lemma {:induction false} Decode(st: State, v: Value, tail: seq<Byte>)
    requires Ready(st, Encode(v) + tail) && Ok(v, 3 - |st.stack|)
    ensures Run(st) == Run(Stored(st, v, tail))
    decreases v, 1, 0
  {
    match v
    case Status(_) => DecodeText(st, v, tail);
    case Error(_) => DecodeText(st, v, tail);
    case Integer(n) => DecodeInteger(st, n, tail);
    case Bulk(b) => DecodeBulk(st, b, tail);
    case Nil => DecodeNil(st, tail);
    case Number(line) => DecodeNumber(st, line, tail);
    case NoBulk(length) => DecodeNoBulk(st, length, tail);
    case NoArray(count) => DecodeNoArray(st, count, tail);
    case Garbage(_) =>
    case Array(es) =>
      OpenArray(st, es, tail);
      if es != [] {
        DecodeElements(st, v, 0, tail);
      }
  }

  lemma {:induction false} DecodeElements(st: State, v: Value, k: nat, tail: seq<Byte>)
    requires v.Array? && k < |v.elems| && 1 <= |st.stack| <= 2 && !st.err && Ok(v, 3 - |st.stack|)
    ensures Run(InArray(st, v.elems, k, tail)) == Run(Stored(st, v, tail))
    decreases v, 0, |v.elems| - k
  {
    var es := v.elems;
    var s, after := InArray(st, es, k, tail), EncodeAll(es[k + 1..]) + tail;
    assert es[k..][1..] == es[k + 1..];
    assert EncodeAll(es[k..]) + tail == Encode(es[k]) + after;
    Decode(s, es[k], after);
    PutElement(st, es, k, tail);
    NextElement(st, es, k, tail);
    if k == |es| - 1 {
      assert after == tail;
      assert Partial(es, |es|) == ToObj(v);
    } else {
      DecodeElements(st, v, k + 1, tail);
    }
  }

  // ------------------------------------------------------------- protocol errors

  /** An array of any kind below two others, or an unknown type byte. */
  lemma Rejected(st: State, v: Value, tail: seq<Byte>)
    requires Ready(st, Encode(v) + tail) && (v.Garbage? || (|st.stack| == 3 && (v.Array? || v.NoArray?)))
    ensures Run(st) == FAILED
  {
    assert st.rest[0] == Encode(v)[0];
    if !v.Garbage? {
      assert st.rest[0] == 42;
      OpenItem(st, ArrayReply);
    }
  }

  lemma EncodedFrom(es: seq<Value>, k: nat, tail: seq<Byte>)
    requires k < |es|
    ensures EncodeAll(es[k..]) + tail == Encode(es[k]) + (EncodeAll(es[k + 1..]) + tail)
  {
    assert es[k..][1..] == es[k + 1..];
  }

  /** The elements of an array are read one by one as long as nothing is wrong. */
  lemma {:induction false} ReachElement(st: State, es: seq<Value>, k: nat, tail: seq<Byte>)
    requires k < |es| && 1 <= |st.stack| <= 2 && !st.err && forall i :: 0 <= i < k ==> Ok(es[i], 2 - |st.stack|)
    ensures Run(InArray(st, es, 0, tail)) == Run(InArray(st, es, k, tail))
    decreases k
  {
    if k > 0 {
      var j := k - 1;
      ReachElement(st, es, j, tail);
      var s, after := InArray(st, es, j, tail), EncodeAll(es[k..]) + tail;
      assert es[j..][1..] == es[k..];
      assert EncodeAll(es[j..]) + tail == Encode(es[j]) + after;
      Decode(s, es[j], after);
      PutElement(st, es, j, tail);
      NextElement(st, es, j, tail);
    }
  }

  lemma {:induction false} FirstWrong(es: seq<Value>, d: nat) returns (k: nat)
    requires exists i :: 0 <= i < |es| && !Ok(es[i], d)
    ensures k < |es| && !Ok(es[k], d) && forall i :: 0 <= i < k ==> Ok(es[i], d)
  {
    if !Ok(es[0], d) {
      k := 0;
    } else {
      var i :| 0 <= i < |es| && !Ok(es[i], d);
      assert es[1..][i - 1] == es[i];
      k := FirstWrong(es[1..], d);
      k := k + 1;
    }
  }

  /** The first wrong element of an array is reached. */
  lemma ReachWrong(st: State, es: seq<Value>, k: nat, tail: seq<Byte>)
    requires Ready(st, Encode(Array(es)) + tail) && |st.stack| < 3 && k < |es|
    requires forall i :: 0 <= i < k ==> Ok(es[i], 2 - |st.stack|)
    ensures var s := InArray(st, es, k, tail);
            Run(st) == Run(s) && Ready(s, Encode(es[k]) + (EncodeAll(es[k + 1..]) + tail)) && |s.stack| == |st.stack| + 1
  {
    OpenArray(st, es, tail);
    ReachElement(st, es, k, tail);
    EncodedFrom(es, k, tail);
  }

  /** What is nested too deep, or has an unknown type byte in it, is an error as soon as it is reached. */
  lemma {:induction false} DecodeWrong(st: State, v: Value, tail: seq<Byte>)
    requires Ready(st, Encode(v) + tail) && LinesOk(v) && !Ok(v, 3 - |st.stack|)
    ensures Run(st) == FAILED
    decreases v
  {
    if v.Garbage? || |st.stack| == 3 {
      Rejected(st, v, tail);
    } else {
      var k := FirstWrong(v.elems, 2 - |st.stack|);
      ReachWrong(st, v.elems, k, tail);
      DecodeWrong(InArray(st, v.elems, k, tail), v.elems[k], EncodeAll(v.elems[k + 1..]) + tail);
    }
  }

  // ------------------------------------------------------------- streams

  lemma GetOne(v: Value, tail: seq<Byte>)
    requires Ok(v, 2)
    ensures Get(Feed(INITIAL, Encode(v) + tail)) == (Feed(INITIAL, tail), Some(ToObj(v)))
  {
    var st := Feed(INITIAL, Encode(v) + tail);
    assert st.rest == Encode(v) + tail && Feed(INITIAL, tail).rest == tail;
    Decode(st, v, tail);
    assert Stored(st, v, tail).stack == [];
  }

  lemma {:induction false} DrainEncoded(vs: seq<Value>)
    requires forall i :: 0 <= i < |vs| ==> Ok(vs[i], 2)
    ensures Drain(Feed(INITIAL, EncodeAll(vs))) == (INITIAL, ToObjs(vs))
    decreases |vs|
  {
    if vs == [] {
      DrainStep(INITIAL);
      assert Feed(INITIAL, []) == INITIAL;
    } else {
      var tail := EncodeAll(vs[1..]);
      GetOne(vs[0], tail);
      DrainStep(Feed(INITIAL, EncodeAll(vs)));
      DrainEncoded(vs[1..]);
      assert ToObjs(vs) == [ToObj(vs[0])] + ToObjs(vs[1..]);
    }
  }

  lemma {:induction false} GoodLines(v: Value, d: nat)
    requires Good(ToObj(v), d)
    ensures LinesOk(v)
    decreases v
  {
    if v.Array? {
      forall i | 0 <= i < |v.elems|
        ensures LinesOk(v.elems[i])
      {
        assert ToObj(v).element[i].obj == ToObj(v.elems[i]);
        GoodLines(v.elems[i], d - 1);
      }
    }
  }

  lemma DrainWrong(v: Value, tail: seq<Byte>)
    requires LinesOk(v) && !Ok(v, 2)
    ensures Drain(Feed(INITIAL, Encode(v) + tail)) == (FAILED, [])
  {
    var st := Feed(INITIAL, Encode(v) + tail);
    assert st.rest == Encode(v) + tail;
    DrainStep(st);
    DecodeWrong(st, v, tail);
  }

  lemma DrainNext(v: Value, tail: seq<Byte>)
    requires Ok(v, 2)
    ensures var d := Drain(Feed(INITIAL, tail)); Drain(Feed(INITIAL, Encode(v) + tail)) == (d.0, [ToObj(v)] + d.1)
  {
    DrainStep(Feed(INITIAL, Encode(v) + tail));
    GetOne(v, tail);
  }

  /** Replies up to the first that is nested too deep or has an unknown type byte in it come out; then the reader fails,
      whatever follows. */
  lemma {:induction false} ProtocolError(vs: seq<Value>, k: nat, tail: seq<Byte>)
    requires k < |vs| && LinesOk(vs[k]) && !Ok(vs[k], 2) && forall i :: 0 <= i < k ==> Ok(vs[i], 2)
    ensures Drain(Feed(INITIAL, EncodeAll(vs) + tail)) == (FAILED, ToObjs(vs[..k]))
    decreases k
  {
    var after := EncodeAll(vs[1..]) + tail;
    assert EncodeAll(vs) + tail == Encode(vs[0]) + after;
    if k == 0 {
      DrainWrong(vs[0], after);
      assert ToObjs(vs[..0]) == [];
    } else {
      DrainNext(vs[0], after);
      ProtocolError(vs[1..], k - 1, tail);
      assert ToObjs(vs[..k]) == [ToObj(vs[0])] + ToObjs(vs[1..][..k - 1]);
    }
  }

  /** A list of replies written one after the other is read back, in order and with nothing left over, exactly if its
      line texts contain no line end, its arrays are at most two deep and it has no unknown type byte. */
  lemma RoundTrip(vs: seq<Value>)
    ensures Drain(Feed(INITIAL, EncodeAll(vs))) == (INITIAL, ToObjs(vs))
       <==> forall i :: 0 <= i < |vs| ==> Ok(vs[i], 2)
  {
    assert EncodeAll(vs) + [] == EncodeAll(vs);
    if forall i :: 0 <= i < |vs| ==> Ok(vs[i], 2) {
      DrainEncoded(vs);
    } else if Drain(Feed(INITIAL, EncodeAll(vs))) == (INITIAL, ToObjs(vs)) {
      DrainInv(Feed(INITIAL, EncodeAll(vs)));
      var k := FirstWrong(vs, 2);
      assert ToObjs(vs)[k] == ToObj(vs[k]);
      GoodLines(vs[k], 2);
      ProtocolError(vs, k, []);
    }
  }

  /** The same for every way of cutting the stream into chunks. */
  lemma RoundTripChunks(vs: seq<Value>, chunks: seq<seq<Byte>>)
    requires Flatten(chunks) == EncodeAll(vs)
    ensures FeedChunks(INITIAL, chunks) == (INITIAL, ToObjs(vs))
       <==> forall i :: 0 <= i < |vs| ==> Ok(vs[i], 2)
  {
    DrainStep(INITIAL);
    ChunksDoNotMatter(INITIAL, chunks);
    RoundTrip(vs);
  }

  lemma EnterArray(st: State, v: Value, tail: seq<Byte>)
    requires Ready(st, Encode(Array([v])) + tail) && |st.stack| < 3
    ensures Run(st) == Run(InArray(st, [v], 0, tail))
    ensures Ready(InArray(st, [v], 0, tail), Encode(v) + tail)
  {
    OpenArray(st, [v], tail);
    assert [v][0..] == [v] && EncodeAll([v]) == Encode(v);
  }

  /** An array nested three deep is a protocol error, whatever it contains. */
  lemma ThreeDeep(es: seq<Value>)
    ensures Drain(Feed(INITIAL, Encode(Array([Array([Array(es)])])))) == (FAILED, [])
  {
    var st := Feed(INITIAL, Encode(Array([Array([Array(es)])])));
    assert st.rest == Encode(Array([Array([Array(es)])])) + [];
    EnterArray(st, Array([Array(es)]), []);
    var s1 := InArray(st, [Array([Array(es)])], 0, []);
    EnterArray(s1, Array(es), []);
    Rejected(InArray(s1, [Array(es)], 0, []), Array(es), []);
    DrainStep(st);
  }
}
