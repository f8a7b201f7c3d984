/** The linked queue of callback records in async.c. */
module CallbackList {
  import opened Resp

  /** redisCallback without its link: the function, if any, and its private data. */
  datatype Callback = Callback(fn: Option<nat>, privdata: nat)

  class Cell {
    const data: Callback
    var next: Cell?

    constructor (data: Callback)
      ensures this.data == data && next == null
    {
      this.data := data;
      next := null;
    }
  }

  class List {
    var head: Cell?
    var tail: Cell?
    /** The cells from head to tail, all cells ever used, and the queue: the records, oldest first. */
    ghost var cells: seq<Cell>
    ghost var repr: set<Cell>
    ghost var queue: seq<Callback>

    ghost predicate Valid()
      reads this, repr
    {
      && (forall c :: c in cells ==> c in repr)
      && |queue| == |cells| && (forall i :: 0 <= i < |cells| ==> queue[i] == cells[i].data)
      && (cells == [] ==> head == null && tail == null)
      && (cells != [] ==> head == cells[0] && tail == cells[|cells| - 1] && tail.next == null)
      && (forall i {:trigger cells[i].next} :: 0 <= i < |cells| - 1 ==> cells[i].next == cells[i + 1])
      && (forall i, j :: 0 <= i < j < |cells| ==> cells[i] != cells[j])
    }

    constructor ()
      ensures Valid() && queue == [] && repr == {}
    {
      head, tail, cells, repr, queue := null, null, [], {}, [];
    }

    /** __redisPushCallback. */
    method Push(source: Callback)
      requires Valid()
      modifies this, repr
      ensures Valid() && queue == old(queue) + [source] && fresh(repr - old(repr))
    {
      var cb := new Cell(source);
      if head == null {
        head := cb;
      }
      if tail != null {
        tail.next := cb;
      }
      tail := cb;
      cells, repr, queue := cells + [cb], repr + {cb}, queue + [source];
    }

    /** __redisShiftCallback. */
    method Shift() returns (target: Option<Callback>)
      requires Valid()
      modifies this
      ensures Valid() && repr == old(repr)
      ensures target.None? <==> old(queue) == []
      ensures target.None? ==> queue == []
      ensures target.Some? ==> target.value == old(queue)[0] && queue == old(queue)[1..]
    {
      var cb := head;
      if cb == null {
        return None;
      }
      head := cb.next;
      if cb == tail {
        tail := null;
        assert |cells| == 1;
      }
      ghost var was := cells;
      cells, queue := cells[1..], queue[1..];
      assert forall i :: 0 <= i < |cells| ==> cells[i] == was[i + 1];
      target := Some(cb.data);
    }
  }
}
