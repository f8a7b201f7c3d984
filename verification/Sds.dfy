/** Dynamic strings: a length, some free space and a terminated byte buffer. */
module Sds {
  import opened Resp

  /** sdsrange's reading of its two indices: negative ones count from the end. */
  function RangeOf(s: seq<Byte>, start: int, end: int): seq<Byte> {
    var lo := if start >= 0 then start else if |s| + start >= 0 then |s| + start else 0;
    var last := if end >= 0 then end else if |s| + end >= 0 then |s| + end else 0;
    var hi := if last >= |s| then |s| else last + 1;
    if lo < hi then s[lo..hi] else []
  }

  /** The reader's use of it: dropping a consumed prefix. */
  lemma RangeSuffix(s: seq<Byte>, start: nat)
    requires start <= |s|
    ensures RangeOf(s, start, -1) == s[start..]
  {
  }

  /** Any stretch, named by its first and last index, each counted from the start or, with a minus sign, from the end. */
  lemma RangeMiddle(x: seq<Byte>, y: seq<Byte>, z: seq<Byte>)
    requires y != []
    ensures var s, first, last := x + y + z, |x|, |x| + |y| - 1;
            && RangeOf(s, first, last) == y && RangeOf(s, first - |s|, last - |s|) == y
            && RangeOf(s, first, last - |s|) == y && RangeOf(s, first - |s|, last) == y
  {
    assert (x + y + z)[|x|..|x| + |y|] == y;
  }

  /** Indices beyond either end are taken for the nearest, and a first index behind the last one leaves nothing. */
  lemma RangeClamps(s: seq<Byte>, start: int, end: int, far: nat)
    requires s != []
    ensures RangeOf(s, -|s| - far, end) == RangeOf(s, 0, end) && RangeOf(s, start, -|s| - far) == RangeOf(s, start, 0)
    ensures RangeOf(s, start, |s| + far) == RangeOf(s, start, -1) && RangeOf(s, |s| + far, end) == []
    ensures 0 <= end < start ==> RangeOf(s, start, end) == []
  {
  }

  /** struct sdshdr. */
  class Str {
    var len: nat
    var free: nat
    var buf: array<Byte>

    ghost predicate Valid()
      reads this, buf
    {
      buf.Length == len + free + 1 && buf[len] == 0
    }

    ghost function Contents(): seq<Byte>
      requires Valid()
      reads this, buf
    {
      buf[..len]
    }

    /** sdsnewlen. */
    constructor (init: seq<Byte>)
      ensures Valid() && Contents() == init && fresh(buf)
    {
      len, free := |init|, 0;
      var b := new Byte[|init| + 1](i => if 0 <= i < |init| then init[i] else 0);
      buf := b;
    }

    /** sdsMakeRoomFor. */
    method MakeRoomFor(addlen: nat)
      requires Valid()
      modifies this
      ensures Valid() && Contents() == old(Contents()) && len == old(len) && free >= addlen
      ensures buf == old(buf) || fresh(buf)
    {
      if free >= addlen {
        return;
      }
      var newlen := (len + addlen) * 2;
      var b := new Byte[newlen + 1];
      forall i | 0 <= i <= len {
        b[i] := buf[i];
      }
      buf := b;
      free := newlen - len;
      assert buf[..len] == old(buf[..len]);
    }

    /** sdscatlen. */
    method CatLen(t: seq<Byte>)
      requires Valid()
      modifies this, buf
      ensures Valid() && Contents() == old(Contents()) + t
      ensures buf == old(buf) || fresh(buf)
    {
      var curlen := len;
      MakeRoomFor(|t|);
      forall i | 0 <= i < |t| {
        buf[curlen + i] := t[i];
      }
      len := curlen + |t|;
      free := free - |t|;
      buf[curlen + |t|] := 0;
    }

    /** sdsrange. */
    method Range(first: int, last: int)
      requires Valid()
      modifies this, buf
      ensures Valid() && Contents() == RangeOf(old(Contents()), first, last) && buf == old(buf)
    {
      var start, end := first, last;
      if len == 0 {
        return;
      }
      if start < 0 {
        start := len + start;
        if start < 0 {
          start := 0;
        }
      }
      if end < 0 {
        end := len + end;
        if end < 0 {
          end := 0;
        }
      }
      var newlen := if start > end then 0 else end - start + 1;
      if newlen != 0 {
        if start >= len {
          newlen := 0;
        } else if end >= len {
          end := len - 1;
          newlen := if start > end then 0 else end - start + 1;
        }
      } else {
        start := 0;
      }
      Keep(start, newlen);
    }

    /** The end of sdsrange: move `newlen` bytes to the front and cut the rest off. */
    method Keep(start: nat, newlen: nat)
      requires Valid() && (newlen != 0 ==> start + newlen <= len)
      modifies this, buf
      ensures Valid() && buf == old(buf)
      ensures Contents() == if newlen != 0 then old(Contents())[start..start + newlen] else []
    {
      if start != 0 && newlen != 0 {
        forall i | 0 <= i < newlen {
          buf[i] := buf[start + i];
        }
      }
      buf[newlen] := 0;
      free := free + (len - newlen);
      len := newlen;
    }
  }
}
