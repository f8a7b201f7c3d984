/** The reply reader of hiredis.c with its growing and compacting buffer, proved
    against the function on unread bytes. */
module Reader {
  import opened Resp
  import opened Reply
  import opened ReplyShape
  import opened ReplyChunks
  import Sds

  /** seekNewline on the bytes from `p` to the end of the string; the byte after them is its terminator. */
  method SeekNewline(s: Sds.Str, p: nat) returns (r: int)
    requires s.Valid() && p <= s.len
    ensures r == FindCrlf(s.Contents()[p..])
  {
    ghost var text := s.Contents()[p..];
    var pos, len := 0, s.len - p - 1;
    while pos < len
      invariant 0 <= pos <= len + 1
      invariant forall j :: 0 <= j < pos ==> !CrlfAt(text, j)
    {
      while pos < len && s.buf[p + pos] != CR
        invariant 0 <= pos <= len
        invariant forall j :: 0 <= j < pos ==> !CrlfAt(text, j)
      {
        pos := pos + 1;
      }
      if s.buf[p + pos] != CR {
        return -1;
      } else if s.buf[p + pos + 1] == LF {
        assert CrlfAt(text, pos);
        return pos;
      } else {
        pos := pos + 1;
      }
    }
    return -1;
  }

  /** The digit loop of readLongLong. */
  method ReadNumber(s: Sds.Str, p: nat) returns (r: Option<int>)
    requires s.Valid() && p <= s.len && CR in s.Contents()[p..]
    ensures r == ReadDigits(s.Contents()[p..], 0)
  {
    var i, v := p, 0;
    while s.buf[i] != CR
      invariant p <= i <= s.len && CR in s.Contents()[i..]
      invariant ReadDigits(s.Contents()[i..], v) == ReadDigits(s.Contents()[p..], 0)
      decreases s.len - i
    {
      assert s.Contents()[i..][1..] == s.Contents()[i + 1..];
      var c: int := s.buf[i];
      i := i + 1;
      var dec := c - 48;
      if 0 <= dec < 10 {
        v := v * 10;
        v := v + dec;
      } else {
        return None;
      }
    }
    return Some(v);
  }

  /** readLongLong, on a line that ends with a carriage return. */
  method ReadLongLong(s: Sds.Str, p: nat) returns (v: int)
    requires s.Valid() && p <= s.len && CR in s.Contents()[p..]
    ensures v == ReadInt(s.Contents()[p..])
  {
    var i, mult := p, 1;
    if s.buf[p] == 45 {
      mult := -1;
      i := i + 1;
    } else if s.buf[p] == 43 {
      mult := 1;
      i := i + 1;
    }
    if i != p {
      ghost var text := s.Contents()[p..];
      assert text == [text[0]] + text[1..] && text[1..] == s.Contents()[i..];
    }
    var r := ReadNumber(s, i);
    match r
    case None => return -1;
    case Some(n) => return mult * n;
  }

  /** Every task below the top is an array whose child index is within its element count. */
  ghost predicate StackOk(stack: seq<Task>) {
    forall i, j :: 0 <= i < |stack| - 1 && j == i + 1 ==> ChildOf(stack[i], stack[j])
  }

  ghost predicate ChildOf(prv: Task, cur: Task) {
    prv.kind == Some(ArrayReply) && 0 <= cur.idx < prv.elements
  }

  lemma {:induction false} FillingStackOk(o: Obj, tasks: seq<Task>, d: nat)
    requires |tasks| >= 2 && Filling(o, tasks, d)
    ensures StackOk(tasks)
    decreases |tasks|
  {
    if |tasks| > 2 {
      FillingStackOk(o.element[tasks[1].idx].obj, tasks[1..], d - 1);
      forall i, j | 0 <= i < |tasks| - 1 && j == i + 1
        ensures ChildOf(tasks[i], tasks[j])
      {
        if i > 0 {
          assert tasks[1..][i - 1] == tasks[i] && tasks[1..][j - 1] == tasks[j];
        }
      }
    }
  }

  /** The state after an array header. */
  ghost function Entered(st: State, bytes: nat, n: int): State
    requires st.stack != [] && bytes <= |st.rest|
  {
    State(st.rest[bytes..], Pushed(st.stack, n), Put(st.reply, st.stack, NewArray(n)), st.err)
  }

  lemma BulkNil(st: State, i: nat)
    requires st.stack != [] && FindCrlf(st.rest) == i && ReadInt(st.rest) < 0
    ensures BulkItem(st) == Done(Store(st, i + 2, NilObj))
  {
  }

  lemma BulkDone(st: State, i: nat, n: nat, text: seq<Byte>, bytelen: nat)
    requires st.stack != [] && FindCrlf(st.rest) == i && ReadInt(st.rest) == n
    requires bytelen == i + 2 + n + 2 <= |st.rest| && text == st.rest[i + 2..i + 2 + n]
    ensures BulkItem(st) == Done(Store(st, bytelen, StrObj(StringReply, text)))
  {
  }

  lemma BulkWait(st: State)
    requires st.stack != []
    requires FindCrlf(st.rest) < 0 || (ReadInt(st.rest) >= 0 && FindCrlf(st.rest) + 2 + ReadInt(st.rest) + 2 > |st.rest|)
    ensures BulkItem(st) == Wait(st)
  {
  }

  lemma LineDone(st: State, kind: Kind, i: nat, obj: Obj)
    requires st.stack != [] && FindCrlf(st.rest) == i
    requires obj == if kind == IntegerReply then IntObj(ReadInt(st.rest)) else StrObj(kind, st.rest[0..i])
    ensures LineItem(st, kind) == Done(Store(st, i + 2, obj))
  {
    assert st.rest[0..i] == st.rest[..i];
  }

  lemma LineWait(st: State, kind: Kind)
    requires st.stack != [] && FindCrlf(st.rest) < 0
    ensures LineItem(st, kind) == Wait(st)
  {
  }

  /** The state after an array header of `n` elements. */
  ghost function HeaderRead(st: State, bytes: nat, n: int): State
    requires st.stack != [] && bytes <= |st.rest|
  {
    if n == -1 then Store(st, bytes, NilObj)
    else if n <= 0 then Store(st, bytes, NewArray(n))
    else Entered(st, bytes, n)
  }

  lemma MultiDone(st: State, i: nat, n: int)
    requires st.stack != [] && FindCrlf(st.rest) == i && ReadInt(st.rest) == n && |st.stack| != 3
    ensures MultiItem(st) == Done(HeaderRead(st, i + 2, n))
  {
  }

  lemma InvStackOk(st: State)
    requires Inv(st)
    ensures StackOk(st.stack)
  {
    if !st.err && |st.stack| > 1 {
      FillingStackOk(st.reply.value, st.stack, 2);
    }
  }

  /** redisReader. */
  class Reader {
    var err: bool
    var buf: Sds.Str?
    var pos: nat
    var len: nat
    var ridx: int
    var rstack: seq<Task>
    var reply: Option<Obj>

    ghost function Repr(): set<object>
      reads this, buf
    {
      if buf == null then {this} else (var b: Sds.Str := buf; {this, b, b.buf})
    }

    /** How the fields belong together. */
    ghost predicate Struct()
      reads this, buf, Repr()
    {
      && |rstack| == 3 && -1 <= ridx <= 2
      && (if err then buf == null && pos == len == 0 && ridx == -1 && reply.None?
          else buf != null && buf.Valid() && buf.len == len && pos <= len)
    }

    /** The bytes not yet consumed. */
    ghost function Rest(): seq<Byte>
      requires Struct()
      reads this, buf, Repr()
    {
      if buf == null then [] else buf.Contents()[pos..]
    }

    ghost function Stack(): seq<Task>
      requires Struct()
      reads this, buf, Repr()
    {
      rstack[..ridx + 1]
    }

    /** The state within the item loop; an empty stack means a finished root task. */
    ghost function Inner(): State
      requires Struct()
      reads this, buf, Repr()
    {
      State(Rest(), Stack(), reply, err)
    }

    /** The state between calls; no task and a fresh root task are the same. */
    ghost function Abs(): State
      requires Struct()
      reads this, buf, Repr()
    {
      if ridx < 0 then Inner().(stack := [ROOT_TASK]) else Inner()
    }

    ghost predicate Valid()
      reads this, buf, Repr()
    {
      Struct() && Inv(Abs())
    }

    /** redisReaderCreate. */
    constructor ()
      ensures Valid() && Abs() == INITIAL && fresh(Repr())
    {
      err, pos, len, ridx, reply := false, 0, 0, -1, None;
      rstack := [ROOT_TASK, ROOT_TASK, ROOT_TASK];
      buf := new Sds.Str([]);
    }

    /** __redisReaderSetError. */
    method SetError()
      requires Struct()
      modifies this
      ensures Struct() && Abs() == FAILED && ridx == -1 && buf == null
    {
      reply := None;
      buf := null;
      pos, len := 0, 0;
      ridx := -1;
      err := true;
    }

    /** moveToNextTask. */
    method MoveToNextTask()
      requires Struct() && !err && ridx >= 0 && StackOk(Stack())
      modifies `ridx, `rstack
      ensures Struct() && Stack() == Next(old(Stack()))
    {
      ghost var stack := Stack();
      while ridx >= 0
        invariant -1 <= ridx <= 2 && rstack == old(rstack) && ridx <= old(ridx)
        invariant Next(rstack[..ridx + 1]) == Next(stack)
      {
        if ridx == 0 {
          ridx := ridx - 1;
          return;
        }
        var cur, prv := rstack[ridx], rstack[ridx - 1];
        assert stack[ridx - 1] == prv && stack[ridx] == cur;
        assert ChildOf(prv, cur);
        assert rstack[..ridx + 1][..ridx] == rstack[..ridx];
        if cur.idx == prv.elements - 1 {
          ridx := ridx - 1;
        } else {
          assert cur.idx < prv.elements;
          rstack := rstack[ridx := Task(None, -1, cur.idx + 1)];
          assert rstack[..ridx + 1] == rstack[..ridx] + [rstack[ridx]];
          return;
        }
      }
    }

    /** The object of a finished task is stored, `n` bytes are consumed and the next task comes up. */
    method Finish(n: nat, obj: Obj)
      requires Struct() && !err && ridx >= 0 && StackOk(Stack()) && pos + n <= len
      modifies `pos, `reply, `ridx, `rstack
      ensures Struct() && Inner() == Store(old(Inner()), n, obj)
    {
      reply := Put(reply, rstack[..ridx + 1], obj);
      pos := pos + n;
      MoveToNextTask();
      assert buf.Contents()[pos..] == old(Rest())[n..];
    }

    /** seekNewline on the unread bytes. */
    method Seek() returns (i: int)
      requires Struct() && !err
      ensures i == FindCrlf(Rest()) && (i >= 0 ==> CR in Rest() && pos + i + 2 <= len)
    {
      i := SeekNewline(buf, pos);
      assert i >= 0 ==> Rest()[i] == CR;
    }

    /** readLongLong on the unread bytes. */
    method ReadCount() returns (n: int)
      requires Struct() && !err && CR in Rest()
      ensures n == ReadInt(Rest())
    {
      n := ReadLongLong(buf, pos);
    }

    /** The `n` unread bytes from `off` on. */
    method Bytes(off: nat, n: nat) returns (s: seq<Byte>)
      requires Struct() && !err && pos + off + n <= len
      ensures s == Rest()[off..off + n]
    {
      s := buf.buf[pos + off..pos + off + n];
    }

    /** processLineItem, up to the creation of the object. */
    method ParseLine(kind: Kind) returns (ok: bool, n: nat, obj: Obj)
      requires Struct() && !err && ridx >= 0
      ensures ok ==> pos + n <= len && LineItem(Inner(), kind) == Done(Store(Inner(), n, obj))
      ensures !ok ==> LineItem(Inner(), kind) == Wait(Inner())
    {
      ghost var st := Inner();
      var i := Seek();
      if i < 0 {
        LineWait(st, kind);
        return false, 0, NilObj;
      }
      if kind == IntegerReply {
        var v := ReadCount();
        LineDone(st, kind, i, IntObj(v));
        return true, i + 2, IntObj(v);
      }
      n, obj := ParseText(kind, i);
      return true, n, obj;
    }

    method ParseText(kind: Kind, i: nat) returns (n: nat, obj: Obj)
      requires Struct() && !err && ridx >= 0 && FindCrlf(Rest()) == i && kind != IntegerReply
      ensures pos + n <= len && LineItem(Inner(), kind) == Done(Store(Inner(), n, obj))
    {
      var text := Bytes(0, i);
      LineDone(Inner(), kind, i, StrObj(kind, text));
      return i + 2, StrObj(kind, text);
    }

    /** processBulkItem, up to the creation of the object. */
    method ParseBulk() returns (ok: bool, n: nat, obj: Obj)
      requires Struct() && !err && ridx >= 0
      ensures ok ==> pos + n <= len && BulkItem(Inner()) == Done(Store(Inner(), n, obj))
      ensures !ok ==> BulkItem(Inner()) == Wait(Inner())
    {
      ghost var st := Inner();
      var i := Seek();
      if i < 0 {
        BulkWait(st);
        return false, 0, NilObj;
      }
      var count := ReadCount();
      if count < 0 {
        BulkNil(st, i);
        return true, i + 2, NilObj;
      }
      ok, n, obj := ParseBody(i, count);
    }

    /** The bytes after the header line of a bulk reply, when they are all there. */
    method ParseBody(i: nat, count: nat) returns (ok: bool, n: nat, obj: Obj)
      requires Struct() && !err && ridx >= 0 && FindCrlf(Rest()) == i && ReadInt(Rest()) == count
      ensures ok ==> pos + n <= len && BulkItem(Inner()) == Done(Store(Inner(), n, obj))
      ensures !ok ==> BulkItem(Inner()) == Wait(Inner())
    {
      var bytelen := i + 2 + count + 2;
      if pos + bytelen <= len {
        var text := Bytes(i + 2, count);
        BulkDone(Inner(), i, count, text, bytelen);
        return true, bytelen, StrObj(StringReply, text);
      }
      BulkWait(Inner());
      return false, 0, NilObj;
    }

    /** processLineItem. */
    method ProcessLineItem() returns (ok: bool)
      requires Struct() && !err && ridx >= 0 && StackOk(Stack()) && rstack[ridx].kind.Some?
      modifies `pos, `reply, `ridx, `rstack
      ensures Struct()
      ensures LineItem(old(Inner()), old(rstack[ridx].kind.value)) == if ok then Done(Inner()) else Wait(Inner())
    {
      var n, obj;
      ok, n, obj := ParseLine(rstack[ridx].kind.value);
      if ok {
        Finish(n, obj);
      }
    }

    /** processBulkItem. */
    method ProcessBulkItem() returns (ok: bool)
      requires Struct() && !err && ridx >= 0 && StackOk(Stack())
      modifies `pos, `reply, `ridx, `rstack
      ensures Struct()
      ensures BulkItem(old(Inner())) == if ok then Done(Inner()) else Wait(Inner())
    {
      var n, obj;
      ok, n, obj := ParseBulk();
      if ok {
        Finish(n, obj);
      }
    }

    /** processMultiBulkItem. */
    method ProcessMultiBulkItem() returns (ok: bool)
      requires Struct() && !err && ridx >= 0 && StackOk(Stack())
      modifies this
      ensures Struct() && (buf == old(buf) || buf == null)
      ensures (var out := MultiItem(old(Inner()));
               if err then out.Fail? && Abs() == FAILED && !ok
               else out == if ok then Done(Inner()) else Wait(Inner()))
    {
      if ridx == 2 {
        SetError();
        return false;
      }
      var bytes, n;
      ok, bytes, n := ParseCount();
      if ok {
        if n == -1 {
          Finish(bytes, NilObj);
        } else if n <= 0 {
          Finish(bytes, NewArray(n));
        } else {
          Descend(bytes, n);
        }
      }
    }

    /** The header line of an array. */
    method ParseCount() returns (ok: bool, bytes: nat, n: int)
      requires Struct() && !err && 0 <= ridx < 2
      ensures ok ==> pos + bytes <= len && MultiItem(Inner()) == Done(HeaderRead(Inner(), bytes, n))
      ensures !ok ==> MultiItem(Inner()) == Wait(Inner())
    {
      ok, bytes, n := false, 0, 0;
      var i := Seek();
      if i >= 0 {
        n := ReadCount();
        MultiDone(Inner(), i, n);
        ok, bytes := true, i + 2;
      }
    }

    /** The stack grows by the first element of an array. */
    method Descend(bytes: nat, n: int)
      requires Struct() && !err && 0 <= ridx < 2 && pos + bytes <= len
      modifies `pos, `reply, `ridx, `rstack
      ensures Struct()
      ensures Inner() == Entered(old(Inner()), bytes, n)
    {
      reply := Put(reply, rstack[..ridx + 1], NewArray(n));
      pos := pos + bytes;
      rstack := rstack[ridx := rstack[ridx].(elements := n)];
      ridx := ridx + 1;
      rstack := rstack[ridx := Task(None, -1, 0)];
      assert Stack() == Pushed(old(Stack()), n);
      assert buf.Contents()[pos..] == old(Rest())[bytes..];
    }

    /** The outcome of an item, as the fields show it. */
    ghost predicate Shows(out: Outcome, ok: bool)
      requires Struct()
      reads this, buf, Repr()
    {
      match out
      case Fail => err && !ok && ridx == -1 && buf == null
      case Done(s) => !err && ok && Inner() == s
      case Wait(s) => !err && !ok && Inner() == s
    }

    /** The switch in processItem. */
    method ProcessTyped() returns (ok: bool)
      requires Struct() && !err && ridx >= 0 && StackOk(Stack()) && rstack[ridx].kind.Some?
      modifies this
      ensures Struct() && Shows(TypedItem(old(Inner()), old(rstack[ridx].kind.value)), ok)
      ensures buf == old(buf) || buf == null
    {
      match rstack[ridx].kind.value
      case ErrorReply => ok := ProcessLineItem();
      case StatusReply => ok := ProcessLineItem();
      case IntegerReply => ok := ProcessLineItem();
      case StringReply => ok := ProcessBulkItem();
      case ArrayReply => ok := ProcessMultiBulkItem();
    }

    /** readBytes of one byte. */
    method ReadByte() returns (b: Option<Byte>)
      requires Struct() && !err
      modifies `pos
      ensures Struct() && Stack() == old(Stack())
      ensures if old(Rest()) == [] then b.None? && Rest() == [] else b == Some(old(Rest())[0]) && Rest() == old(Rest())[1..]
    {
      if len - pos >= 1 {
        b := Some(buf.buf[pos]);
        pos := pos + 1;
      } else {
        b := None;
      }
    }

    method SetKind(k: Kind)
      requires Struct() && !err && ridx >= 0
      modifies `rstack
      ensures Struct() && Rest() == old(Rest()) && Stack() == Retag(old(Stack()), k) && rstack[ridx].kind == Some(k)
      ensures old(StackOk(Stack())) ==> StackOk(Stack())
    {
      rstack := rstack[ridx := rstack[ridx].(kind := Some(k))];
      assert Stack() == Retag(old(Stack()), k);
    }

    /** processItem. */
    method ProcessItem() returns (ok: bool)
      requires Struct() && !err && ridx >= 0 && StackOk(Stack())
      modifies this
      ensures Struct() && Shows(Item(old(Inner())), ok)
      ensures buf == old(buf) || buf == null
    {
      ghost var st := Inner();
      if rstack[ridx].kind.None? {
        var p := ReadByte();
        if p.None? {
          assert Item(st) == Wait(st);
          return false;
        }
        var k := KindOf(p.value);
        if k.None? {
          assert Item(st) == Fail;
          SetError();
          return false;
        }
        SetKind(k.value);
        assert Item(st) == TypedItem(Inner(), k.value);
      } else {
        assert Item(st) == TypedItem(st, rstack[ridx].kind.value);
      }
      ok := ProcessTyped();
    }

    /** The item loop of redisReaderGetReply. */
    method ProcessItems()
      requires Struct() && !err && ridx >= 0 && Inv(Inner())
      modifies this
      ensures Struct() && (if Run(old(Inner())).err then Abs() == FAILED else Inner() == Run(old(Inner())))
      ensures buf == old(buf) || buf == null
    {
      ghost var st := Inner();
      while ridx >= 0
        invariant Struct() && !err && StepInv(Inner()) && Run(Inner()) == Run(st) && buf == old(buf)
        decreases |Rest()|
      {
        ghost var s := Inner();
        InvStackOk(s);
        ItemInv(s);
        var ok := ProcessItem();
        if !ok {
          return;
        }
        ItemShrinks(s);
      }
    }

    /** Discard the consumed part of the buffer once it has reached 1024 bytes. */
    method Compact()
      requires Struct() && !err
      modifies `pos, `len, Repr() - {this}
      ensures Struct() && Inner() == old(Inner()) && ridx == old(ridx) && Repr() == old(Repr())
    {
      if pos >= 1024 {
        Sds.RangeSuffix(buf.Contents(), pos);
        buf.Range(pos, -1);
        pos := 0;
        len := buf.len;
      }
    }

    /** Set the first item to process when the stack is empty. */
    method Begin()
      requires Struct() && !err
      modifies `ridx, `rstack
      ensures Struct() && ridx >= 0 && Inner() == old(Abs())
    {
      if ridx == -1 {
        rstack := rstack[0 := ROOT_TASK];
        ridx := 0;
        assert rstack[..1] == [ROOT_TASK];
      }
    }

    /** redisReaderGetReply. */
    method GetReply() returns (ok: bool, r: Option<Obj>)
      requires Valid()
      modifies Repr()
      ensures Valid() && (Abs(), r) == Get(old(Abs())) && ok == !err && Repr() <= old(Repr())
    {
      r := None;
      GetInv(Abs());
      if err {
        return false, r;
      }
      if len == 0 {
        GetIdle(Abs());
        return true, r;
      }
      ghost var st := Abs();
      GetCases(st);
      Begin();
      ProcessItems();
      if err {
        return false, r;
      }
      Compact();
      r := Emit();
      ok := true;
    }

    /** Emit a reply when there is one. */
    method Emit() returns (r: Option<Obj>)
      requires Struct() && !err
      modifies `reply
      ensures Struct() && (if old(Stack()) == [] then r == old(reply) && Abs() == old(Inner()).(stack := [ROOT_TASK], reply := None)
                           else r.None? && Abs() == old(Inner()))
    {
      r := None;
      if ridx == -1 {
        r := reply;
        reply := None;
      }
    }

    /** redisReaderFeed. */
    method Feed(bytes: seq<Byte>) returns (ok: bool)
      requires Valid()
      modifies Repr()
      ensures Valid() && Abs() == Reply.Feed(old(Abs()), bytes) && ok == !err && fresh(Repr() - old(Repr()))
    {
      FeedInv(Abs(), bytes);
      if err {
        return false;
      }
      if |bytes| >= 1 {
        Renew();
        Append(bytes);
      } else {
        assert Rest() + bytes == Rest();
      }
      return true;
    }

    /** Destroy the internal buffer when it is empty and quite large. */
    method Renew()
      requires Struct() && !err
      modifies `buf, `pos
      ensures Struct() && Inner() == old(Inner()) && ridx == old(ridx) && fresh(Repr() - old(Repr()))
    {
      if len == 0 && buf.free > 16 * 1024 {
        buf := new Sds.Str([]);
        pos := 0;
      }
    }

    method Append(bytes: seq<Byte>)
      requires Struct() && !err
      modifies `len, buf, buf.buf
      ensures Struct() && Inner() == old(Inner()).(rest := old(Rest()) + bytes) && fresh(Repr() - old(Repr()))
    {
      buf.CatLen(bytes);
      len := buf.len;
      assert buf.Contents()[pos..] == old(Rest()) + bytes;
    }
  }

  /** With no unread bytes there is no reply and nothing changes. */
  lemma GetIdle(st: State)
    requires Inv(st) && !st.err && st.rest == []
    ensures Get(st) == (st, None)
  {
    assert FindCrlf([]) == -1;
  }

  lemma GetCases(st: State)
    requires !st.err
    ensures (var s := Run(st);
             Get(st) == if s.err then (FAILED, None)
                        else if s.stack == [] then (s.(stack := [ROOT_TASK], reply := None), s.reply)
                        else (s, None))
  {
    RunShrinks(st);
  }

  /** The caller's loop: take replies until there is none. */
  method DrainReader(r: Reader) returns (replies: seq<Obj>)
    requires r.Valid()
    modifies r.Repr()
    ensures r.Valid() && (r.Abs(), replies) == Drain(old(r.Abs())) && r.Repr() <= old(r.Repr())
  {
    replies := [];
    ghost var st := r.Abs();
    PrependTwice([], [], Drain(st));
    while true
      invariant r.Valid() && r.Repr() <= old(r.Repr())
      invariant Drain(st) == Prepend(replies, Drain(r.Abs()))
      decreases |r.Abs().rest|
    {
      ghost var s := r.Abs();
      InvRooted(s);
      DrainStep(s);
      RunShrinks(s);
      var ok, v := r.GetReply();
      if v.None? {
        assert replies + [] == replies;
        break;
      }
      PrependTwice(replies, [v.value], Drain(r.Abs()));
      replies := replies + [v.value];
    }
  }

  lemma InvRooted(st: State)
    requires Inv(st)
    ensures Rooted(st)
  {
  }

  /** One chunk arrives and the replies are taken. */
  method Arrive(r: Reader, chunk: seq<Byte>) returns (replies: seq<Obj>)
    requires r.Valid()
    modifies r.Repr()
    ensures r.Valid() && (r.Abs(), replies) == Drain(Reply.Feed(old(r.Abs()), chunk)) && fresh(r.Repr() - old(r.Repr()))
  {
    var ok := r.Feed(chunk);
    replies := DrainReader(r);
  }

  lemma FeedChunksStep(st: State, chunks: seq<seq<Byte>>, i: nat)
    requires i < |chunks|
    ensures (var d := Drain(Reply.Feed(st, chunks[i]));
             FeedChunks(st, chunks[i..]) == Prepend(d.1, FeedChunks(d.0, chunks[i + 1..])))
  {
    assert chunks[i..][1..] == chunks[i + 1..];
  }

  /** The next chunk of a session arrives. */
  method ArriveNext(r: Reader, chunks: seq<seq<Byte>>, i: nat, replies: seq<Obj>, ghost all: (State, seq<Obj>))
    returns (replies': seq<Obj>)
    requires r.Valid() && i < |chunks| && all == Prepend(replies, FeedChunks(r.Abs(), chunks[i..]))
    modifies r.Repr()
    ensures r.Valid() && fresh(r.Repr() - old(r.Repr()))
    ensures all == Prepend(replies', FeedChunks(r.Abs(), chunks[i + 1..]))
  {
    FeedChunksStep(r.Abs(), chunks, i);
    var more := Arrive(r, chunks[i]);
    PrependTwice(replies, more, FeedChunks(r.Abs(), chunks[i + 1..]));
    replies' := replies + more;
  }

  lemma SessionStarts(chunks: seq<seq<Byte>>)
    ensures FeedChunks(INITIAL, chunks) == Prepend([], FeedChunks(INITIAL, chunks[0..]))
  {
    assert chunks[0..] == chunks;
    PrependTwice([], [], FeedChunks(INITIAL, chunks));
  }

  lemma SessionEnds(chunks: seq<seq<Byte>>, st: State, replies: seq<Obj>)
    requires FeedChunks(INITIAL, chunks) == Prepend(replies, FeedChunks(st, chunks[|chunks|..]))
    ensures (st, replies) == Drain(Reply.Feed(INITIAL, Flatten(chunks)))
  {
    assert chunks[|chunks|..] == [] && replies + [] == replies;
    DrainStep(INITIAL);
    ChunksDoNotMatter(INITIAL, chunks);
  }

  /** A session: the stream arrives in chunks and the replies are taken after each one.
      What comes out is what the whole stream gives at once. */
  method Session(chunks: seq<seq<Byte>>) returns (r: Reader, replies: seq<Obj>)
    ensures r.Valid() && (r.Abs(), replies) == Drain(Reply.Feed(INITIAL, Flatten(chunks)))
  {
    ghost var all := FeedChunks(INITIAL, chunks);
    SessionStarts(chunks);
    r := new Reader();
    replies := [];
    for i := 0 to |chunks|
      invariant r.Valid() && fresh(r.Repr())
      invariant all == Prepend(replies, FeedChunks(r.Abs(), chunks[i..]))
    {
      replies := ArriveNext(r, chunks, i, replies, all);
    }
    SessionEnds(chunks, r.Abs(), replies);
  }
}
