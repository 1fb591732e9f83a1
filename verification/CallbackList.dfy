/**
 The callback FIFO of async.c: heap cells linked by next pointers from head to tail.  Cells are numbered in
 allocation order; a freed cell leaves the map, so a leak or a dangling link would break Valid().
 */
module CallbackQueue {
  import opened Bytes

  /** fn: whether the function pointer is non-null; id: the callback's identity (its privdata). */
  datatype Callback = Callback(fn: bool, id: nat, pendingSubs: int)

  type Ptr = nat

  datatype Cell = Cell(cb: Callback, next: Option<Ptr>)

  /** From p on, the cells linked by next are exactly ps, in increasing order between lo and hi. */
  ghost predicate Chain(cells: map<Ptr, Cell>, p: Option<Ptr>, ps: seq<Ptr>, lo: Ptr, hi: Ptr)
    decreases |ps|
  {
    if ps == [] then p == None
    else
      && p == Some(ps[0]) && lo <= ps[0] < hi && ps[0] in cells
      && Chain(cells, cells[ps[0]].next, ps[1..], ps[0] + 1, hi)
  }

  ghost function Items(cells: map<Ptr, Cell>, ps: seq<Ptr>): (s: seq<Callback>)
    ensures |s| == |ps|
    decreases |ps|
  {
    if ps == [] then []
    else [if ps[0] in cells then cells[ps[0]].cb else Callback(false, 0, 0)] + Items(cells, ps[1..])
  }

  lemma {:induction false} ChainBounds(cells: map<Ptr, Cell>, p: Option<Ptr>, ps: seq<Ptr>, lo: Ptr, hi: Ptr)
    requires Chain(cells, p, ps, lo, hi)
    ensures forall i :: 0 <= i < |ps| ==> lo <= ps[i] < hi && ps[i] in cells
    decreases |ps|
  {
    if ps != [] {
      ChainBounds(cells, cells[ps[0]].next, ps[1..], ps[0] + 1, hi);
      assert forall i :: 1 <= i < |ps| ==> ps[i] == ps[1..][i - 1];
    }
  }

  /** A chain depends only on its own cells. */
  lemma {:induction false} ChainFrame(
    cells: map<Ptr, Cell>, cells': map<Ptr, Cell>, p: Option<Ptr>, ps: seq<Ptr>, lo: Ptr, hi: Ptr, hi': Ptr)
    requires Chain(cells, p, ps, lo, hi) && hi <= hi'
    requires forall q :: q in cells && lo <= q < hi ==> q in cells' && cells'[q] == cells[q]
    ensures Chain(cells', p, ps, lo, hi') && Items(cells', ps) == Items(cells, ps)
    decreases |ps|
  {
    if ps != [] {
      ChainFrame(cells, cells', cells[ps[0]].next, ps[1..], ps[0] + 1, hi, hi');
    }
  }

  /** Linking a new cell behind the last one extends the chain by it. */
  lemma {:induction false} ChainSnoc(cells: map<Ptr, Cell>, p: Option<Ptr>, ps: seq<Ptr>, lo: Ptr, n: Ptr, cb: Callback)
    requires Chain(cells, p, ps, lo, n) && ps != [] && lo <= n
    ensures ps[|ps| - 1] in cells
    ensures var cells' := Appended(cells, Some(ps[|ps| - 1]), n, cb);
            Chain(cells', p, ps + [n], lo, n + 1) && Items(cells', ps + [n]) == Items(cells, ps) + [cb]
    decreases |ps|
  {
    ChainBounds(cells, p, ps, lo, n);
    var last := ps[|ps| - 1];
    var cells' := Appended(cells, Some(last), n, cb);
    assert (ps + [n])[1..] == ps[1..] + [n];
    if |ps| == 1 {
      assert ps[1..] == [] && [n][1..] == [];
      assert Chain(cells', Some(n), [n], last + 1, n + 1);
      assert Items(cells', [n]) == [cb] + Items(cells', [n][1..]) == [cb];
    } else {
      ChainBounds(cells, cells[ps[0]].next, ps[1..], ps[0] + 1, n);
      assert ps[1..][|ps| - 2] == last && last >= ps[0] + 1;
      ChainSnoc(cells, cells[ps[0]].next, ps[1..], ps[0] + 1, n, cb);
    }
  }

  /** head and tail delimit the cells at ps, no other cell is live, and all are older than next. */
  ghost predicate IsQueue(cells: map<Ptr, Cell>, ps: seq<Ptr>, head: Option<Ptr>, tail: Option<Ptr>, next: Ptr) {
    && Chain(cells, head, ps, 0, next)
    && cells.Keys == (set p | p in ps)
    && tail == (if ps == [] then None else Some(ps[|ps| - 1]))
  }

  function Appended(cells: map<Ptr, Cell>, tail: Option<Ptr>, p: Ptr, cb: Callback): map<Ptr, Cell>
    requires tail.Some? ==> tail.value in cells
  {
    var more := cells[p := Cell(cb, None)];
    if tail == None then more else more[tail.value := more[tail.value].(next := Some(p))]
  }

  lemma {:induction false} PushCell(
    cells: map<Ptr, Cell>, ps: seq<Ptr>, head: Option<Ptr>, tail: Option<Ptr>, p: Ptr, cb: Callback)
    requires IsQueue(cells, ps, head, tail, p)
    ensures tail.Some? ==> tail.value in cells
    ensures IsQueue(Appended(cells, tail, p, cb), ps + [p], if head == None then Some(p) else head, Some(p), p + 1)
    ensures Items(Appended(cells, tail, p, cb), ps + [p]) == Items(cells, ps) + [cb]
  {
    ChainBounds(cells, head, ps, 0, p);
    if ps == [] {
      assert [p][1..] == [] && ps + [p] == [p];
    } else {
      ChainSnoc(cells, head, ps, 0, p, cb);
    }
    assert Appended(cells, tail, p, cb).Keys == cells.Keys + {p};
  }

  lemma {:induction false} ShiftCell(
    cells: map<Ptr, Cell>, ps: seq<Ptr>, head: Option<Ptr>, tail: Option<Ptr>, next: Ptr)
    requires IsQueue(cells, ps, head, tail, next) && ps != []
    ensures head == Some(ps[0]) && ps[0] in cells
    ensures IsQueue(cells - {ps[0]}, ps[1..], cells[ps[0]].next, if tail == Some(ps[0]) then None else tail, next)
    ensures Items(cells, ps) == [cells[ps[0]].cb] + Items(cells - {ps[0]}, ps[1..])
  {
    var rest := cells - {ps[0]};
    ChainBounds(cells, cells[ps[0]].next, ps[1..], ps[0] + 1, next);
    ChainFrame(cells, rest, cells[ps[0]].next, ps[1..], ps[0] + 1, next, next);
    ChainWiden(rest, cells[ps[0]].next, ps[1..], ps[0] + 1, 0, next);
    assert forall q :: q in ps <==> q == ps[0] || q in ps[1..];
    if |ps| > 1 {
      assert ps[|ps| - 1] == ps[1..][|ps| - 2];
    }
  }

  lemma {:induction false} ChainWiden(cells: map<Ptr, Cell>, p: Option<Ptr>, ps: seq<Ptr>, lo: Ptr, lo': Ptr, hi: Ptr)
    requires Chain(cells, p, ps, lo, hi) && lo' <= lo
    ensures Chain(cells, p, ps, lo', hi)
  {
  }

  lemma {:induction false} HeadOfQueue(
    cells: map<Ptr, Cell>, ps: seq<Ptr>, head: Option<Ptr>, tail: Option<Ptr>, next: Ptr)
    requires IsQueue(cells, ps, head, tail, next)
    ensures head == None <==> ps == []
  {
  }

  class CallbackList {
    var head: Option<Ptr>
    var tail: Option<Ptr>
    var cells: map<Ptr, Cell>
    var next: Ptr
    ghost var spine: seq<Ptr>

    ghost predicate Valid()
      reads this
    {
      IsQueue(cells, spine, head, tail, next)
    }

    ghost function Contents(): seq<Callback>
      reads this
      requires Valid()
    {
      Items(cells, spine)
    }

    constructor ()
      ensures Valid() && Contents() == []
    {
      head, tail, cells, next, spine := None, None, map[], 0, [];
    }

    /** __redisPushCallback. */
    method Push(source: Callback)
      requires Valid()
      modifies this
      ensures Valid() && Contents() == old(Contents()) + [source]
    {
      hide IsQueue, Items, Chain;
      PushCell(cells, spine, head, tail, next, source);
      var p := next;
      next := next + 1;
      if head == None {
        head := Some(p);
      }
      cells := Appended(cells, tail, p, source);
      tail := Some(p);
      spine := spine + [p];
    }

    /** __redisShiftCallback. */
    method Shift() returns (target: Option<Callback>)
      requires Valid()
      modifies this
      ensures Valid()
      ensures old(Contents()) == [] ==> target == None && Contents() == []
      ensures old(Contents()) != [] ==> target == Some(old(Contents())[0]) && Contents() == old(Contents())[1..]
    {
      HeadOfQueue(cells, spine, head, tail, next);
      if head == None { return None; }
      hide IsQueue, Items;
      ShiftCell(cells, spine, head, tail, next);
      var p := head.value;
      var cell := cells[p];
      head := cell.next;
      if tail == Some(p) {
        tail := None;
      }
      cells := cells - {p};
      spine := spine[1..];
      return Some(cell.cb);
    }

    function IsEmpty(): (b: bool)
      reads this
      requires Valid()
      ensures b <==> Contents() == []
    {
      head == None
    }
  }
}
