/**
 The incremental reader of read.c: a cursor over a growing buffer, a task stack that remembers where a
 half-built reply is to be continued, and the reply objects built so far.
 */
module ReaderModel {
  import opened Bytes
  import opened IntegerCodec
  import opened Resp
  import opened ReplyObjects
  import opened ReaderSpec
  import opened SdsSpec

  const STACK_SIZE := 9
  const COMPACT_AT := 1024

  /** redisReadTask; parent is the index of the parent task, typ None is type -1. */
  datatype Task = Task(typ: Option<ItemType>, elements: int, idx: int, obj: Option<Ptr>, parent: Option<nat>)

  const ZERO_TASK := Task(None, 0, 0, None, None)

  /** The heap as it was before the current item. */
  ghost function Older(nodes: Nodes, base: Ptr): Nodes {
    map q | q in nodes && q < base :: nodes[q]
  }

  /** Releasing everything from base on leaves what is older. */
  lemma {:induction false} Released(nodes: Nodes, base: Ptr, next: Ptr)
    requires forall q :: q in nodes ==> q < next
    ensures Without(nodes, base, next) == Older(nodes, base)
  {
  }

  lemma {:induction false} NothingNewer(nodes: Nodes, base: Ptr)
    requires forall q :: q in nodes ==> q < base
    ensures nodes == Older(nodes, base)
  {
  }

  /** Task i is the open container fs[i], and task i + 1 reads its next element. */
  ghost predicate LinkedAt(task: seq<Task>, fs: seq<Frame>, i: int)
    requires 0 <= i < |fs| < |task|
  {
    && task[i].typ == Some(TAggregate(fs[i].kind))
    && task[i].elements == fs[i].total
    && task[i].obj == Some(fs[i].obj)
    && task[i + 1].idx == |fs[i].done|
    && task[i + 1].parent == Some(i)
  }

  ghost predicate Links(task: seq<Task>, fs: seq<Frame>) {
    && |fs| < |task|
    && task[0].parent == None
    && forall i :: 0 <= i < |fs| ==> LinkedAt(task, fs, i)
  }

  /** Waiting for the current item: the next slot of the innermost container is still empty. */
  ghost predicate OpenState(
    strtod: Strtod, nodes: Nodes, next: Ptr, base: Ptr, task: seq<Task>, fs: seq<Frame>, taken: seq<byte>)
  {
    && Links(task, fs)
    && Spine(nodes, fs, None, next, base)
    && Denotes(strtod, taken, fs, task[|fs|].typ)
  }

  /** The current item is complete with value v, the last thing allocated. */
  ghost predicate ClosedState(
    strtod: Strtod, nodes: Nodes, next: Ptr, base: Ptr, task: seq<Task>, fs: seq<Frame>, taken: seq<byte>, v: Reply)
  {
    var top := next - Size(v);
    && Links(task, fs) && top >= 0
    && Spine(nodes, fs, Some(top), top, base)
    && TreeAt(nodes, top, v)
    && DenotesDone(strtod, taken, fs, v)
  }

  /** What the code can read off the stack when an element of the innermost container is complete. */
  lemma {:induction false} ClosedInContainer(
    strtod: Strtod, nodes: Nodes, next: Ptr, base: Ptr, task: seq<Task>, fs: seq<Frame>, taken: seq<byte>, v: Reply)
    requires ClosedState(strtod, nodes, next, base, task, fs, taken, v) && fs != []
    ensures |fs| < |task| && LinkedAt(task, fs, |fs| - 1) && |Last(fs).done| < Last(fs).total
  {
  }

  lemma {:induction false} ClosedRoot(
    strtod: Strtod, nodes: Nodes, next: Ptr, base: Ptr, task: seq<Task>, fs: seq<Frame>, taken: seq<byte>, v: Reply)
    requires ClosedState(strtod, nodes, next, base, task, fs, taken, v) && fs == []
    ensures TreeAt(nodes, base, v) && base + Size(v) == next && DenotesDone(strtod, taken, [], v)
  {
  }

  /** What the code can read off the stack for an item in progress. */
  lemma {:induction false} OpenLinks(
    strtod: Strtod, nodes: Nodes, next: Ptr, base: Ptr, task: seq<Task>, fs: seq<Frame>, taken: seq<byte>)
    requires OpenState(strtod, nodes, next, base, task, fs, taken)
    ensures Links(task, fs)
    ensures next !in nodes ==> CanAttach(nodes, ParentSlot(fs))
    ensures fs != [] ==> Last(fs).obj in nodes && nodes[Last(fs).obj].kind == Last(fs).kind
  {
    if next !in nodes {
      AttachStep(nodes, fs, next, base, LeafNode(Missing));
    }
  }

  /** Everything the current item allocated hangs below its root. */
  lemma {:induction false} HalfBuilt(
    strtod: Strtod, nodes: Nodes, next: Ptr, base: Ptr, task: seq<Task>, fs: seq<Frame>, taken: seq<byte>)
    requires OpenState(strtod, nodes, next, base, task, fs, taken)
    ensures fs == [] ==> base == next
    ensures fs != [] ==> SlotAt(nodes, Some(base), base, Plug(fs, Missing)) && base + Size(Plug(fs, Missing)) == next
  {
    hide TreeAt, Plug, Denotes;
    if fs != [] {
      EmptySlot(nodes, next);
      SpineIsTree(nodes, fs, None, next, base, Missing);
      WholeSlot(nodes, base, Plug(fs, Missing));
    }
  }

  lemma {:induction false} TypeRead(
    strtod: Strtod, nodes: Nodes, next: Ptr, base: Ptr, task: seq<Task>, fs: seq<Frame>, taken: seq<byte>, c: byte,
    t: ItemType)
    requires OpenState(strtod, nodes, next, base, task, fs, taken) && task[|fs|].typ == None
    requires TypeOf(c) == Some(t)
    ensures OpenState(strtod, nodes, next, base, task[|fs| := task[|fs|].(typ := Some(t))], fs, taken + [c])
  {
    TypeByteStep(strtod, taken, fs, c, t);
    var task' := task[|fs| := task[|fs|].(typ := Some(t))];
    forall i | 0 <= i < |fs| ensures LinkedAt(task', fs, i) {
      assert LinkedAt(task, fs, i);
    }
  }

  lemma {:induction false} TypeUnread(
    strtod: Strtod, nodes: Nodes, next: Ptr, base: Ptr, task: seq<Task>, fs: seq<Frame>, taken: seq<byte>,
    u: seq<byte>)
    requires OpenState(strtod, nodes, next, base, task, fs, taken) && task[|fs|].typ == None
    ensures u == [] ==> ParseItem(strtod, false, taken + u) == Incomplete
    ensures u != [] && TypeOf(u[0]) == None ==> ParseItem(strtod, false, taken + u) == Bad(TypeByte(u[0]))
  {
    assert ParseItem(strtod, false, taken + u) == Resume(strtod, fs, None, u);
  }

  lemma {:induction false} GrownOpen(
    strtod: Strtod, nodes: Nodes, next: Ptr, base: Ptr, task: seq<Task>, fs: seq<Frame>, taken: seq<byte>,
    more: seq<Task>)
    requires OpenState(strtod, nodes, next, base, task, fs, taken)
    ensures OpenState(strtod, nodes, next, base, task + more, fs, taken)
  {
    forall i | 0 <= i < |fs| ensures LinkedAt(task + more, fs, i) {
      assert LinkedAt(task, fs, i);
    }
  }

  /** The last element of the innermost container completes the container. */
  lemma {:induction false} PopClosed(
    strtod: Strtod, nodes: Nodes, next: Ptr, base: Ptr, task: seq<Task>, fs: seq<Frame>, taken: seq<byte>, v: Reply)
    requires ClosedState(strtod, nodes, next, base, task, fs, taken, v) && fs != []
    requires |Last(fs).done| + 1 == Last(fs).total
    ensures ClosedState(strtod, nodes, next, base, task, Pop(fs), taken, Aggregate(Last(fs).kind, Last(fs).done + [v]))
  {
    ContainerDone(nodes, fs, next - Size(v), base, v);
    PopStep(strtod, taken, fs, v);
    forall i | 0 <= i < |Pop(fs)| ensures LinkedAt(task, Pop(fs), i) {
      assert LinkedAt(task, fs, i);
    }
  }

  /** Task |fs| reset for the element after the completed one. */
  function NextElement(t: Task): Task {
    t.(typ := None, elements := -1, idx := t.idx + 1)
  }

  lemma {:induction false} NextOpen(
    strtod: Strtod, nodes: Nodes, next: Ptr, base: Ptr, task: seq<Task>, fs: seq<Frame>, taken: seq<byte>, v: Reply)
    requires ClosedState(strtod, nodes, next, base, task, fs, taken, v) && fs != []
    requires |Last(fs).done| + 1 < Last(fs).total
    ensures OpenState(strtod, nodes, next, base, task[|fs| := NextElement(task[|fs|])],
                      Pop(fs) + [Last(fs).(done := Last(fs).done + [v])], taken)
  {
    ChildDone(nodes, fs, next - Size(v), base, v);
    NextStep(strtod, taken, fs, v);
    var fs' := Pop(fs) + [Last(fs).(done := Last(fs).done + [v])];
    var task' := task[|fs| := NextElement(task[|fs|])];
    forall i | 0 <= i < |fs'| ensures LinkedAt(task', fs', i) {
      assert LinkedAt(task, fs, i);
    }
  }

  /** The heap object of a reply without children. */
  function Childless(v: Reply): Node {
    if v.Aggregate? then ArrayNode(v.kind, NoSlots(0)) else LeafNode(v)
  }

  predicate IsChildless(v: Reply) {
    v != Missing && (v.Aggregate? ==> v.elements == [])
  }

  /** A new childless reply in the current slot completes the current item. */
  lemma {:induction false} LeafClosed(
    strtod: Strtod, nodes: Nodes, p: Ptr, base: Ptr, task: seq<Task>, fs: seq<Frame>, taken: seq<byte>, k: seq<byte>,
    v: Reply)
    requires OpenState(strtod, nodes, p, base, task, fs, taken) && p !in nodes && task[|fs|].typ.Some?
    requires ReadHead(strtod, task[|fs|].typ.value, InPush(fs), k) == Leaf(v, []) && IsChildless(v)
    ensures CanAttach(nodes, ParentSlot(fs))
    ensures var nodes' := Attached(nodes, p, Childless(v), ParentSlot(fs));
            && ClosedState(strtod, nodes', p + 1, base, task, fs, taken + k, v)
            && Older(nodes', base) == Older(nodes, base)
    ensures fs == [] ==> p == base
  {
    hide Spine, TreeAt, Size, Denotes, DenotesDone, ReadHead, Attached, CanAttach;
    AttachStep(nodes, fs, p, base, Childless(v));
    var nodes' := Attached(nodes, p, Childless(v), ParentSlot(fs));
    ChildlessTree(nodes', p, v);
    OlderSame(nodes, nodes', fs, p, base);
    LeafStep(strtod, taken, fs, task[|fs|].typ.value, k, v);
  }

  lemma {:induction false} ChildlessTree(nodes: Nodes, p: Ptr, v: Reply)
    requires p in nodes && nodes[p] == Childless(v) && IsChildless(v)
    ensures TreeAt(nodes, p, v) && Size(v) == 1
  {
  }

  lemma {:induction false} OlderSame(nodes: Nodes, nodes': Nodes, fs: seq<Frame>, p: Ptr, base: Ptr)
    requires Spine(nodes, fs, None, p, base) && SameOn(nodes, nodes', 0, base)
    requires forall q :: q in nodes' <==> q in nodes || q == p
    ensures Older(nodes', base) == Older(nodes, base) && (fs == [] ==> p == base)
  {
    SpineBounds(nodes, fs, None, p, base);
  }

  /** The task stack after an aggregate of n elements was opened as object p. */
  function Opened(task: seq<Task>, ridx: nat, n: nat, p: Ptr): seq<Task>
    requires ridx + 1 < |task|
  {
    task[ridx := task[ridx].(elements := n, obj := Some(p))][ridx + 1 := Task(None, -1, 0, None, Some(ridx))]
  }

  lemma {:induction false} ArrayOpened(
    strtod: Strtod, nodes: Nodes, p: Ptr, base: Ptr, task: seq<Task>, fs: seq<Frame>, taken: seq<byte>, k: seq<byte>,
    kind: Kind, n: nat)
    requires OpenState(strtod, nodes, p, base, task, fs, taken) && p !in nodes && |fs| + 1 < |task|
    requires task[|fs|].typ == Some(TAggregate(kind))
    requires ReadHead(strtod, TAggregate(kind), InPush(fs), k) == ReaderHeadOpen(kind, n)
    ensures CanAttach(nodes, ParentSlot(fs))
    ensures var nodes' := Attached(nodes, p, ArrayNode(kind, NoSlots(n)), ParentSlot(fs));
            && OpenState(strtod, nodes', p + 1, base, Opened(task, |fs|, n, p), fs + [Frame(kind, n, [], p)], taken + k)
            && Older(nodes', base) == Older(nodes, base)
    ensures fs == [] ==> p == base
  {
    hide Spine, Denotes, ReadHead, Attached, CanAttach;
    var f := Frame(kind, n, [], p);
    AttachStep(nodes, fs, p, base, ArrayNode(kind, NoSlots(n)));
    var nodes' := Attached(nodes, p, ArrayNode(kind, NoSlots(n)), ParentSlot(fs));
    OlderSame(nodes, nodes', fs, p, base);
    PushSpine(nodes', fs, p, base, f);
    OpenStep(strtod, taken, fs, TAggregate(kind), k, f);
    var task', fs' := Opened(task, |fs|, n, p), fs + [f];
    forall i | 0 <= i < |fs'| ensures LinkedAt(task', fs', i) {
      if i < |fs| {
        assert LinkedAt(task, fs, i);
      }
    }
  }

  function ReaderHeadOpen(kind: Kind, n: nat): Head {
    Head.Open(kind, n, [])
  }

  /** Nothing more can be done until more bytes arrive. */
  lemma {:induction false} StarvedIsIncomplete(
    strtod: Strtod, nodes: Nodes, next: Ptr, base: Ptr, task: seq<Task>, fs: seq<Frame>, taken: seq<byte>,
    u: seq<byte>)
    requires OpenState(strtod, nodes, next, base, task, fs, taken) && task[|fs|].typ.Some?
    requires ReadHead(strtod, task[|fs|].typ.value, InPush(fs), u) == NeedMore
    ensures ParseItem(strtod, false, taken + u) == Incomplete
  {
    assert ParseItem(strtod, false, taken + u) == Resume(strtod, fs, task[|fs|].typ, u);
  }

  lemma {:induction false} FailIsBad(
    strtod: Strtod, nodes: Nodes, next: Ptr, base: Ptr, task: seq<Task>, fs: seq<Frame>, taken: seq<byte>,
    u: seq<byte>, e: Err)
    requires OpenState(strtod, nodes, next, base, task, fs, taken) && task[|fs|].typ.Some?
    requires ReadHead(strtod, task[|fs|].typ.value, InPush(fs), u) == Fail(e)
    ensures ParseItem(strtod, false, taken + u) == Bad(e)
  {
    assert ParseItem(strtod, false, taken + u) == Resume(strtod, fs, task[|fs|].typ, u);
  }

  /** Without a line end nothing is decided. */
  lemma {:induction false} NoLineNeedsMore(strtod: Strtod, t: ItemType, inPush: bool, u: seq<byte>)
    requires FindCRLF(u) == None
    ensures ReadHead(strtod, t, inPush, u) == NeedMore
  {
  }

  /** A complete line decides a line item. */
  lemma {:induction false} LineDecides(strtod: Strtod, t: ItemType, inPush: bool, u: seq<byte>, i: nat)
    requires !t.TString? && !t.TVerb? && !t.TAggregate? && FindCRLF(u) == Some(i)
    ensures match LineHead(strtod, t, inPush, u[..i], [])
            case Fail(e) => ReadHead(strtod, t, inPush, u) == Fail(e)
            case Leaf(v, _) => ReadHead(strtod, t, inPush, u[..i + 2]) == Leaf(v, [])
            case _ => false
  {
    var h := LineHead(strtod, t, inPush, u[..i], []);
    assert ReadHead(strtod, t, inPush, u) == LineHead(strtod, t, inPush, u[..i], u[i + 2..]);
    LineFound(u, i, u[..i + 2]);
    assert u[..i + 2][..i] == u[..i] && u[..i + 2][i + 2..] == [];
    assert ReadHead(strtod, t, inPush, u[..i + 2]) == h;
  }

  /** The reply a bulk payload stands for. */
  function BulkReply(t: ItemType, payload: seq<byte>): Reply
    requires t.TString? || (t.TVerb? && |payload| >= 4)
  {
    if t.TVerb? then Verb(payload[..3], payload[4..]) else Str(payload)
  }

  lemma {:induction false} PayloadDecides(strtod: Strtod, t: ItemType, inPush: bool, u: seq<byte>, i: nat, n: nat)
    requires (t.TString? || t.TVerb?) && FindCRLF(u) == Some(i) && ParseLL(u[..i]) == Some(n)
    requires i + 2 + n + 2 <= |u| && (t.TVerb? ==> n >= 4 && u[i + 5] == 58)
    ensures ReadHead(strtod, t, inPush, u[..i + 2 + n + 2]) == Leaf(BulkReply(t, u[i + 2..i + 2 + n]), [])
  {
    var rest, p := u[i + 2..], u[i + 2..i + 2 + n];
    assert p == rest[..n];
    if n >= 4 {
      assert rest[3] == u[i + 5];
      assert p[..3] == rest[..3] && p[4..] == rest[4..n];
    }
    assert BulkHead(t.TVerb?, inPush, u[..i], rest) == Leaf(BulkReply(t, p), rest[n + 2..]);
    BulkDecides(strtod, t, inPush, u, i);
  }

  /** A complete length line decides all of a bulk item but its payload. */
  lemma {:induction false} BulkDecides(strtod: Strtod, t: ItemType, inPush: bool, u: seq<byte>, i: nat)
    requires t.TString? || t.TVerb?
    requires FindCRLF(u) == Some(i)
    ensures ReadHead(strtod, t, inPush, u) == BulkHead(t.TVerb?, inPush, u[..i], u[i + 2..])
    ensures ReadHead(strtod, t, inPush, u).Leaf? ==>
              var n := ParseLL(u[..i]).value;
              var took := if n == -1 then i + 2 else i + 2 + n + 2;
              && 0 <= took <= |u| && |ReadHead(strtod, t, inPush, u).rest| == |u| - took
              && ReadHead(strtod, t, inPush, u[..took]) == Leaf(ReadHead(strtod, t, inPush, u).v, [])
  {
    var h := ReadHead(strtod, t, inPush, u);
    if h.Leaf? {
      HeadExact(strtod, t, inPush, u);
    }
  }

  /** A complete length line decides an aggregate header. */
  lemma {:induction false} AggregateDecides(strtod: Strtod, kind: Kind, inPush: bool, u: seq<byte>, i: nat)
    requires FindCRLF(u) == Some(i)
    ensures match AggregateHead(kind, inPush, u[..i], [])
            case Fail(e) => ReadHead(strtod, TAggregate(kind), inPush, u) == Fail(e)
            case Leaf(v, _) => ReadHead(strtod, TAggregate(kind), inPush, u[..i + 2]) == Leaf(v, [])
            case Open(k, n, _) => ReadHead(strtod, TAggregate(kind), inPush, u[..i + 2]) == ReaderHeadOpen(k, n)
            case NeedMore => false
  {
    var h := AggregateHead(kind, inPush, u[..i], []);
    assert ReadHead(strtod, TAggregate(kind), inPush, u) == AggregateHead(kind, inPush, u[..i], u[i + 2..]);
    LineFound(u, i, u[..i + 2]);
    assert u[..i + 2][..i] == u[..i] && u[..i + 2][i + 2..] == [];
    assert ReadHead(strtod, TAggregate(kind), inPush, u[..i + 2]) == h;
  }

  lemma {:induction false} SplitPending(taken: seq<byte>, u: seq<byte>, k: nat)
    requires k <= |u|
    ensures taken + u[..k] + u[k..] == taken + u
  {
    assert u == u[..k] + u[k..];
  }

  class Reader {
    const strtod: Strtod
    const heap: ObjectHeap

    var err: Option<Err>
    var buf: seq<byte>
    var pos: nat
    var len: nat
    var task: seq<Task>
    var ridx: int
    var reply: Option<Ptr>

    /** Bytes of the current item already consumed, its open containers, and the address of its root. */
    ghost var taken: seq<byte>
    ghost var frames: seq<Frame>
    ghost var base: Ptr
    /** The item just completed, while GetReply has not emitted it. */
    ghost var result: Reply

    // ---- Invariants ----

    ghost predicate Basic()
      reads this, heap
    {
      && pos <= len == |buf|
      && |task| >= STACK_SIZE
      && heap.Valid() && base <= heap.next
    }

    ghost function Unread(): seq<byte>
      reads this
      requires pos <= |buf|
    {
      buf[pos..]
    }

    /** Everything received that no emitted reply accounts for. */
    ghost function Pending(): seq<byte>
      reads this
      requires pos <= |buf|
    {
      taken + Unread()
    }

    /** The reader is inside an item, whose half-built reply hangs below base. */
    ghost predicate Open()
      reads this, heap
    {
      ridx == |frames| < |task| && OpenState(strtod, heap.nodes, heap.next, base, task, frames, taken)
    }

    ghost predicate OpenReply()
      reads this
    {
      reply == if frames == [] then None else Some(base)
    }

    ghost predicate Closed(v: Reply)
      reads this, heap
    {
      ridx == |frames| < |task| && ClosedState(strtod, heap.nodes, heap.next, base, task, frames, taken, v)
    }

    /** The root item is complete. */
    ghost predicate Finished()
      reads this, heap
    {
      && ridx == -1 && frames == []
      && TreeAt(heap.nodes, base, result) && base + Size(result) == heap.next
      && DenotesDone(strtod, taken, [], result)
    }

    ghost predicate Idle()
      reads this, heap
    {
      ridx == -1 && frames == [] && taken == [] && reply == None && base == heap.next
    }

    ghost predicate Failed()
      reads this
    {
      buf == [] && pos == 0 && ridx == -1 && reply == None && taken == []
    }

    ghost predicate Valid()
      reads this, heap
    {
      && Basic()
      && (err.Some? ==> Failed())
      && (err.None? ==> Idle() || (Open() && OpenReply()))
    }

    /** The step consumed bytes and the item is further along, or complete. */
    ghost predicate Advanced(was: seq<byte>, wasUnread: nat)
      reads this, heap
    {
      && Basic() && err.None? && Pending() == was && |Unread()| < wasUnread
      && (ridx == -1 ==> Finished() && reply == Some(base))
      && (ridx != -1 ==> Open() && OpenReply())
    }

    /** The step needs more bytes. */
    ghost predicate Starved(was: seq<byte>)
      reads this, heap
    {
      && Basic() && err.None? && Pending() == was && Open() && OpenReply()
      && ParseItem(strtod, false, was) == Incomplete
    }

    /** The step ran into an error. */
    ghost predicate Broken(was: seq<byte>)
      reads this, heap
    {
      && Basic() && err.Some? && Failed()
      && ParseItem(strtod, false, was) == Bad(err.value)
      && heap.nodes == Older(heap.nodes, base)
    }

    /** What one processing step may have done to a reader that had `was` pending. */
    ghost predicate Stepped(ok: bool, was: seq<byte>, wasUnread: nat, wasBase: Ptr, wasNodes: Nodes)
      reads this, heap
    {
      && base == wasBase
      && Older(heap.nodes, base) == Older(wasNodes, base)
      && if ok then Advanced(was, wasUnread) else if err.None? then Starved(was) else Broken(was)
    }

    constructor (strtod: Strtod)
      ensures Valid() && fresh(heap) && this.strtod == strtod
      ensures err == None && Pending() == [] && heap.nodes == map[]
    {
      this.strtod := strtod;
      heap := new ObjectHeap();
      err, buf, pos, len := None, [], 0, 0;
      task := seq(STACK_SIZE, _ => ZERO_TASK);
      ridx, reply := -1, None;
      taken, frames, base, result := [], [], 0, Missing;
    }

    // ---- Helpers ----

    /** __redisReaderSetError: releases the half-built reply and clears the reader for good. */
    method SetError(e: Err)
      requires Basic() && Open() && OpenReply()
      modifies this, heap
      ensures Basic() && Failed() && err == Some(e) && base == old(base)
      ensures heap.nodes == Older(old(heap.nodes), base)
    {
      hide OpenState, TreeAt, Plug, Spine, SlotAt, Size, Without, Older;
      ghost var nodes0 := heap.nodes;
      HalfBuilt(strtod, heap.nodes, heap.next, base, task, frames, taken);
      if reply != None {
        heap.FreeReplyObject(reply, Plug(frames, Missing));
        Released(nodes0, base, heap.next);
      } else {
        NothingNewer(nodes0, base);
      }
      buf, pos, len := [], 0, 0;
      ridx := -1;
      err, reply := Some(e), None;
      taken, frames := [], [];
    }

    /** readBytes for a single byte. */
    method ReadByte() returns (b: Option<byte>)
      requires pos <= len == |buf|
      modifies this`pos
      ensures pos <= len
      ensures b.None? <==> old(Unread()) == []
      ensures b.None? ==> pos == old(pos)
      ensures b.Some? ==> pos == old(pos) + 1 && old(Unread()) == [b.value] + Unread()
    {
      if len - pos >= 1 {
        b := Some(buf[pos]);
        pos := pos + 1;
      } else {
        b := None;
      }
    }

    /** readLine: the bytes up to the next CRLF, which is skipped too. */
    method ReadLine() returns (line: Option<seq<byte>>)
      requires pos <= len == |buf|
      modifies this`pos
      ensures pos <= len
      ensures line.None? <==> FindCRLF(old(Unread())) == None
      ensures line.None? ==> pos == old(pos)
      ensures line.Some? ==>
        && FindCRLF(old(Unread())) == Some(|line.value|)
        && line.value == old(Unread())[..|line.value|]
        && Unread() == old(Unread())[|line.value| + 2..]
    {
      var s := SeekNewline(buf[pos..len]);
      assert buf[pos..len] == Unread();
      if s != None {
        line := Some(buf[pos..pos + s.value]);
        pos := pos + s.value + 2;
      } else {
        line := None;
      }
    }

    /** task->parent->obj and task->idx of the current task. */
    function CurrentSlot(): (r: Option<(Ptr, nat)>)
      reads this
      requires ridx == |frames| < |task| && Links(task, frames)
      ensures r == ParentSlot(frames)
    {
      if task[ridx].parent == None then
        assert frames != [] ==> LinkedAt(task, frames, |frames| - 1);
        None
      else
        assert frames != [] ==> LinkedAt(task, frames, |frames| - 1);
        Some((task[task[ridx].parent.value].obj.value, task[ridx].idx))
    }

    /** moveToNextTask: closes every container whose last element just completed. */
    method MoveToNextTask(ghost v0: Reply)
      requires Basic() && Closed(v0)
      modifies this`ridx, this`task, this`frames, this`result
      ensures Basic()
      ensures ridx == -1 ==> Finished()
      ensures ridx != -1 ==> Open() && frames != []
      ensures old(frames) == [] ==> ridx == -1
    {
      hide ClosedState, OpenState, TreeAt, DenotesDone;
      ghost var v := v0;
      while ridx >= 0
        invariant Basic() && ridx >= 0 && Closed(v)
        invariant old(frames) == [] ==> frames == []
        decreases ridx
      {
        if ridx == 0 {
          ClosedRoot(strtod, heap.nodes, heap.next, base, task, frames, taken, v);
          ridx := -1;
          result := v;
          return;
        }
        var cur, prv := task[ridx], task[ridx - 1];
        ClosedInContainer(strtod, heap.nodes, heap.next, base, task, frames, taken, v);
        assert prv.typ.value.TAggregate?;
        ghost var f := Last(frames);
        if cur.idx == prv.elements - 1 {
          PopClosed(strtod, heap.nodes, heap.next, base, task, frames, taken, v);
          ridx := ridx - 1;
          v := Aggregate(f.kind, f.done + [v]);
          frames := Pop(frames);
        } else {
          assert cur.idx < prv.elements;
          NextOpen(strtod, heap.nodes, heap.next, base, task, frames, taken, v);
          task := task[ridx := NextElement(cur)];
          frames := Pop(frames) + [f.(done := f.done + [v])];
          return;
        }
      }
    }

    /** The common end of processLineItem and processBulkItem: a new leaf p of value v took the bytes k of u. */
    method CompleteLeaf(p: Ptr, ghost v: Reply, ghost k: seq<byte>, ghost u: seq<byte>, ghost nodes0: Nodes)
      requires Basic() && err.None? && OpenReply() && ridx == |frames| < |task|
      requires OpenState(strtod, nodes0, p, base, task, frames, taken) && task[ridx].typ.Some?
      requires ReadHead(strtod, task[ridx].typ.value, InPush(frames), k) == Leaf(v, []) && IsChildless(v)
      requires taken + k + Unread() == taken + u && |Unread()| < |u|
      requires p + 1 == heap.next && p !in nodes0 && CanAttach(nodes0, ParentSlot(frames))
      requires heap.nodes == Attached(nodes0, p, Childless(v), ParentSlot(frames))
      modifies this`ridx, this`task, this`frames, this`result, this`taken, this`reply
      ensures Stepped(true, old(taken) + u, |u|, old(base), nodes0)
    {
      hide OpenState, ClosedState, ReadHead, ParseItem, Attached, CanAttach, ParentSlot, TreeAt, DenotesDone;
      LeafClosed(strtod, nodes0, p, base, task, frames, taken, k, v);
      taken := taken + k;
      if ridx == 0 {
        reply := Some(p);
      }
      MoveToNextTask(v);
    }

    /** Gives up on an item whose header is wrong. */
    method Break(e: Err, ghost u: seq<byte>)
      requires Basic() && err.None? && Open() && OpenReply() && task[ridx].typ.Some?
      requires ReadHead(strtod, task[ridx].typ.value, InPush(frames), u) == Fail(e)
      modifies this, heap
      ensures Stepped(false, old(taken) + u, |u|, old(base), old(heap.nodes))
    {
      hide OpenState, ClosedState, ReadHead, ParseItem, Attached, CanAttach, ParentSlot, TreeAt, DenotesDone;
      FailIsBad(strtod, heap.nodes, heap.next, base, task, frames, taken, u, e);
      SetError(e);
    }

    /** The object for a complete line: an error, or a new leaf in the current slot. */
    method MakeLineObject(t: ItemType, line: seq<byte>) returns (e: Option<Err>, obj: Ptr, ghost v: Reply)
      requires !t.TString? && !t.TVerb? && !t.TAggregate?
      requires Basic() && Open()
      modifies heap
      ensures heap.Valid()
      ensures CanAttach(old(heap.nodes), ParentSlot(frames))
      ensures match LineHead(strtod, t, InPush(frames), line, [])
              case Fail(x) => e == Some(x) && heap.nodes == old(heap.nodes) && heap.next == old(heap.next)
              case Leaf(x, _) => e == None && v == x && IsChildless(v) && obj == old(heap.next) && heap.next == obj + 1
                && heap.nodes == Attached(old(heap.nodes), obj, Childless(v), ParentSlot(frames))
              case _ => false
    {
      hide OpenState, Attached, CanAttach, DoubleOk, ParseLL, Links;
      e, obj, v := None, 0, Missing;
      OpenLinks(strtod, heap.nodes, heap.next, base, task, frames, taken);
      var slot := CurrentSlot();
      assert InPush(frames) <==> slot.Some? && heap.nodes[slot.value.0].kind == Push;
      if t.TInteger? {
        var n := String2ll(line);
        if n == None {
          e := Some(BadInteger);
        } else {
          v := Integer(n.value);
          obj := heap.Create(LeafNode(Integer(n.value)), slot);
        }
      } else if t.TDouble? {
        if |line| >= DOUBLE_BUF {
          e := Some(DoubleTooLarge);
        } else if !DoubleOk(strtod, line) {
          e := Some(BadDouble);
        } else {
          e, obj, v := MakeOutsidePush(Double(line), slot);
        }
      } else if t.TNil? {
        e, obj, v := MakeOutsidePush(Nil, slot);
      } else if t.TBool? {
        var bval := |line| > 0 && (line[0] == 116 || line[0] == 84);
        e, obj, v := MakeOutsidePush(Bool(bval), slot);
      } else {
        v := if t.TStatus? then Status(line) else Error(line);
        obj := heap.CreateString(t, line, slot);
      }
    }

    method MakeOutsidePush(x: Reply, slot: Option<(Ptr, nat)>) returns (e: Option<Err>, obj: Ptr, ghost v: Reply)
      requires heap.Valid() && CanAttach(heap.nodes, slot)
      modifies heap
      ensures heap.Valid() && v == x
      ensures e == if slot.Some? && old(heap.nodes)[slot.value.0].kind == Push then Some(Aborted) else None
      ensures e.Some? ==> heap.nodes == old(heap.nodes) && heap.next == old(heap.next)
      ensures e.None? ==> obj == old(heap.next) && heap.next == obj + 1
      ensures e.None? ==> heap.nodes == Attached(old(heap.nodes), obj, LeafNode(x), slot)
    {
      e, obj, v := None, 0, x;
      var r := heap.CreateOutsidePush(x, slot);
      if r == None {
        e := Some(Aborted);
      } else {
        obj := r.value;
      }
    }

    method ProcessLineItem() returns (ok: bool)
      requires Basic() && err.None? && Open() && OpenReply()
      requires task[ridx].typ.Some? && var t := task[ridx].typ.value; !t.TString? && !t.TVerb? && !t.TAggregate?
      modifies this, heap
      ensures Stepped(ok, old(Pending()), old(|Unread()|), old(base), old(heap.nodes))
    {
      hide OpenState, ClosedState, ReadHead, ParseItem, Attached, CanAttach, ParentSlot, TreeAt, DenotesDone;
      ghost var u := Unread();
      var line := ReadLine();
      if line == None {
        NoLineNeedsMore(strtod, task[ridx].typ.value, InPush(frames), u);
        StarvedIsIncomplete(strtod, heap.nodes, heap.next, base, task, frames, taken, u);
        return false;
      }
      SplitPending(taken, u, |line.value| + 2);
      ok := ProcessLine(line.value, u);
    }

    /** processLineItem once its line is read; u is what was unread before. */
    method ProcessLine(line: seq<byte>, ghost u: seq<byte>) returns (ok: bool)
      requires Basic() && err.None? && Open() && OpenReply()
      requires task[ridx].typ.Some? && var t := task[ridx].typ.value; !t.TString? && !t.TVerb? && !t.TAggregate?
      requires FindCRLF(u) == Some(|line|) && line == u[..|line|]
      requires taken + u[..|line| + 2] + Unread() == taken + u && |Unread()| < |u|
      modifies this, heap
      ensures Stepped(ok, old(taken) + u, |u|, old(base), old(heap.nodes))
    {
      hide OpenState, ClosedState, ReadHead, ParseItem, Attached, CanAttach, ParentSlot, TreeAt, DenotesDone;
      ghost var nodes0 := heap.nodes;
      var t := task[ridx].typ.value;
      LineDecides(strtod, t, InPush(frames), u, |line|);
      var e, obj;
      ghost var v;
      e, obj, v := MakeLineObject(t, line);
      if e.Some? {
        Break(e.value, u);
        return false;
      }
      CompleteLeaf(obj, v, u[..|line| + 2], u, nodes0);
      return true;
    }

    method ProcessBulkItem() returns (ok: bool)
      requires Basic() && err.None? && Open() && OpenReply()
      requires task[ridx].typ.Some? && var t := task[ridx].typ.value; t.TString? || t.TVerb?
      modifies this, heap
      ensures Stepped(ok, old(Pending()), old(|Unread()|), old(base), old(heap.nodes))
    {
      hide OpenState, ClosedState, ReadHead, ParseItem, Attached, CanAttach, ParentSlot, TreeAt, DenotesDone;
      var s := SeekNewline(buf[pos..len]);
      assert buf[pos..len] == Unread();
      if s == None {
        NoLineNeedsMore(strtod, task[ridx].typ.value, InPush(frames), Unread());
        StarvedIsIncomplete(strtod, heap.nodes, heap.next, base, task, frames, taken, Unread());
        return false;
      }
      ok := ProcessBulk(s.value, Unread());
    }

    /** processBulkItem once its length line, i bytes long, is complete; nothing is consumed before the payload is. */
    method ProcessBulk(i: nat, ghost u: seq<byte>) returns (ok: bool)
      requires Basic() && err.None? && Open() && OpenReply() && u == Unread()
      requires task[ridx].typ.Some? && var t := task[ridx].typ.value; t.TString? || t.TVerb?
      requires FindCRLF(u) == Some(i)
      modifies this, heap
      ensures Stepped(ok, old(taken) + u, |u|, old(base), old(heap.nodes))
    {
      hide OpenState, ClosedState, ReadHead, ParseItem, Attached, CanAttach, ParentSlot, TreeAt, DenotesDone;
      var t := task[ridx].typ.value;
      assert buf[pos..pos + i] == u[..i];
      BulkDecides(strtod, t, InPush(frames), u, i);
      var n := String2ll(buf[pos..pos + i]);
      if n == None {
        Break(BadBulkLength, u);
        return false;
      }
      if n.value < -1 {
        Break(BulkLengthOutOfRange, u);
        return false;
      }
      ok := ProcessBulkBody(i, n.value, u);
    }

    /** processBulkItem once its length n is known to be in range. */
    method ProcessBulkBody(i: nat, n: int, ghost u: seq<byte>) returns (ok: bool)
      requires Basic() && err.None? && Open() && OpenReply() && u == Unread()
      requires task[ridx].typ.Some? && var t := task[ridx].typ.value; t.TString? || t.TVerb?
      requires FindCRLF(u) == Some(i) && ParseLL(u[..i]) == Some(n) && n >= -1
      modifies this, heap
      ensures Stepped(ok, old(taken) + u, |u|, old(base), old(heap.nodes))
    {
      var t := task[ridx].typ.value;
      BulkDecides(strtod, t, InPush(frames), u, i);
      if n == -1 {
        ok := ProcessNil(u, i + 2);
        return;
      }
      var bytelen := i + 2 + n + 2;
      if pos + bytelen <= len {
        if t.TVerb? && (n < 4 || buf[pos + i + 5] != 58) {
          assert n >= 4 ==> buf[pos + i + 5] == u[i + 2..][3];
          Break(BadVerbatim, u);
          return false;
        }
        assert t.TVerb? ==> buf[pos + i + 5] == u[i + 5];
        PayloadDecides(strtod, t, InPush(frames), u, i, n);
        ok := ProcessPayload(u, i, n);
      } else {
        StarvedIsIncomplete(strtod, heap.nodes, heap.next, base, task, frames, taken, u);
        return false;
      }
    }

    /** The nil object of length -1, for a bulk item whose header takes k bytes. */
    method ProcessNil(ghost u: seq<byte>, k: nat) returns (ok: bool)
      requires Basic() && err.None? && Open() && OpenReply() && u == Unread()
      requires 0 < k <= |u| && task[ridx].typ.Some?
      requires InPush(frames) ==> ReadHead(strtod, task[ridx].typ.value, InPush(frames), u) == Fail(Aborted)
      requires !InPush(frames) ==> ReadHead(strtod, task[ridx].typ.value, InPush(frames), u[..k]) == Leaf(Nil, [])
      modifies this, heap
      ensures Stepped(ok, old(taken) + u, |u|, old(base), old(heap.nodes))
    {
      hide OpenState, ClosedState, ReadHead, ParseItem, Attached, CanAttach, ParentSlot, TreeAt, DenotesDone;
      ghost var nodes0 := heap.nodes;
      var e, obj;
      ghost var v;
      e, obj, v := MakeNilObject();
      if e.Some? {
        Break(Aborted, u);
        return false;
      }
      SplitPending(taken, u, k);
      pos := pos + k;
      CompleteLeaf(obj, Nil, u[..k], u, nodes0);
      return true;
    }

    method MakeNilObject() returns (e: Option<Err>, obj: Ptr, ghost v: Reply)
      requires Basic() && Open()
      modifies heap
      ensures heap.Valid() && CanAttach(old(heap.nodes), ParentSlot(frames))
      ensures e == if InPush(frames) then Some(Aborted) else None
      ensures e.Some? ==> heap.nodes == old(heap.nodes) && heap.next == old(heap.next)
      ensures e.None? ==> obj == old(heap.next) && heap.next == obj + 1
      ensures e.None? ==> heap.nodes == Attached(old(heap.nodes), obj, LeafNode(Nil), ParentSlot(frames))
    {
      hide OpenState, Attached;
      OpenLinks(strtod, heap.nodes, heap.next, base, task, frames, taken);
      e, obj, v := MakeOutsidePush(Nil, CurrentSlot());
    }

    /** The string object of a bulk item that is entirely in the buffer. */
    method ProcessPayload(ghost u: seq<byte>, i: nat, n: nat) returns (ok: bool)
      requires Basic() && err.None? && Open() && OpenReply() && u == Unread()
      requires task[ridx].typ.Some? && var t := task[ridx].typ.value; t.TString? || (t.TVerb? && n >= 4)
      requires i + 2 + n + 2 <= |u|
      requires ReadHead(strtod, task[ridx].typ.value, InPush(frames), u[..i + 2 + n + 2])
            == Leaf(BulkReply(task[ridx].typ.value, u[i + 2..i + 2 + n]), [])
      modifies this, heap
      ensures Stepped(ok, old(taken) + u, |u|, old(base), old(heap.nodes))
    {
      hide OpenState, ClosedState, ReadHead, ParseItem, Attached, CanAttach, ParentSlot, TreeAt, DenotesDone;
      ghost var nodes0 := heap.nodes;
      var t := task[ridx].typ.value;
      var payload := buf[pos + i + 2..pos + i + 2 + n];
      assert payload == u[i + 2..i + 2 + n];
      var obj := MakeStringObject(t, payload);
      SplitPending(taken, u, i + 2 + n + 2);
      pos := pos + i + 2 + n + 2;
      CompleteLeaf(obj, BulkReply(t, payload), u[..i + 2 + n + 2], u, nodes0);
      return true;
    }

    method MakeStringObject(t: ItemType, payload: seq<byte>) returns (obj: Ptr)
      requires Basic() && Open()
      requires t.TString? || (t.TVerb? && |payload| >= 4)
      modifies heap
      ensures heap.Valid() && CanAttach(old(heap.nodes), ParentSlot(frames))
      ensures obj == old(heap.next) && heap.next == obj + 1
      ensures heap.nodes == Attached(old(heap.nodes), obj, LeafNode(BulkReply(t, payload)), ParentSlot(frames))
    {
      hide OpenState, Attached;
      OpenLinks(strtod, heap.nodes, heap.next, base, task, frames, taken);
      obj := heap.CreateString(t, payload, CurrentSlot());
    }

    /** redisReaderGrow. */
    method Grow()
      requires Basic() && Open()
      modifies this`task
      ensures Basic() && Open() && |task| == old(|task|) + STACK_SIZE && task[ridx] == old(task[ridx])
    {
      hide OpenState;
      var more := seq(STACK_SIZE, _ => ZERO_TASK);
      GrownOpen(strtod, heap.nodes, heap.next, base, task, frames, taken, more);
      task := task + more;
    }

    method ProcessAggregateItem() returns (ok: bool)
      requires Basic() && err.None? && Open() && OpenReply()
      requires task[ridx].typ.Some? && task[ridx].typ.value.TAggregate?
      modifies this, heap
      ensures Stepped(ok, old(Pending()), old(|Unread()|), old(base), old(heap.nodes))
    {
      hide OpenState, ClosedState, ReadHead, ParseItem, Attached, CanAttach, ParentSlot, TreeAt, DenotesDone;
      if ridx == |task| - 1 {
        Grow();
      }
      ghost var u := Unread();
      var line := ReadLine();
      if line == None {
        NoLineNeedsMore(strtod, task[ridx].typ.value, InPush(frames), u);
        StarvedIsIncomplete(strtod, heap.nodes, heap.next, base, task, frames, taken, u);
        return false;
      }
      SplitPending(taken, u, |line.value| + 2);
      ok := ProcessHeader(line.value, u);
    }

    /** processAggregateItem once its line is read; u is what was unread before. */
    method ProcessHeader(line: seq<byte>, ghost u: seq<byte>) returns (ok: bool)
      requires Basic() && err.None? && Open() && OpenReply() && ridx + 1 < |task|
      requires task[ridx].typ.Some? && task[ridx].typ.value.TAggregate?
      requires FindCRLF(u) == Some(|line|) && line == u[..|line|]
      requires taken + u[..|line| + 2] + Unread() == taken + u && |Unread()| < |u|
      modifies this, heap
      ensures Stepped(ok, old(taken) + u, |u|, old(base), old(heap.nodes))
    {
      hide OpenState, ClosedState, ReadHead, ParseItem, Attached, CanAttach, ParentSlot, TreeAt, DenotesDone;
      var kind := task[ridx].typ.value.kind;
      AggregateDecides(strtod, kind, InPush(frames), u, |line|);
      var n := String2ll(line);
      if n == None {
        Break(BadMultiBulkLength, u);
        return false;
      }
      if n.value < -1 || n.value > MAX_ELEMENTS {
        Break(MultiBulkLengthOutOfRange, u);
        return false;
      }
      ghost var nodes0 := heap.nodes;
      if n.value == -1 {
        var e, obj;
        ghost var v;
        e, obj, v := MakeNilObject();
        if e.Some? {
          Break(Aborted, u);
          return false;
        }
        CompleteAggregate(obj, Nil, u[..|line| + 2], u, nodes0);
      } else {
        var elements := if kind == Map then 2 * n.value else n.value;
        var obj := MakeArrayObject(kind, elements);
        if elements > 0 {
          OpenAggregate(obj, kind, elements, u[..|line| + 2], u, nodes0);
        } else {
          CompleteAggregate(obj, Aggregate(kind, []), u[..|line| + 2], u, nodes0);
        }
      }
      return true;
    }

    method MakeArrayObject(kind: Kind, elements: nat) returns (obj: Ptr)
      requires Basic() && Open()
      modifies heap
      ensures heap.Valid() && CanAttach(old(heap.nodes), ParentSlot(frames))
      ensures obj == old(heap.next) && heap.next == obj + 1
      ensures heap.nodes == Attached(old(heap.nodes), obj, ArrayNode(kind, NoSlots(elements)), ParentSlot(frames))
    {
      hide OpenState, Attached;
      OpenLinks(strtod, heap.nodes, heap.next, base, task, frames, taken);
      obj := heap.CreateArray(kind, elements, CurrentSlot());
    }

    /** A nil or empty aggregate: the stack moves on first, the root reply is recorded last. */
    method CompleteAggregate(obj: Ptr, ghost v: Reply, ghost k: seq<byte>, ghost u: seq<byte>, ghost nodes0: Nodes)
      requires Basic() && err.None? && OpenReply() && ridx == |frames| < |task|
      requires OpenState(strtod, nodes0, obj, base, task, frames, taken) && task[ridx].typ.Some?
      requires ReadHead(strtod, task[ridx].typ.value, InPush(frames), k) == Leaf(v, []) && IsChildless(v)
      requires taken + k + Unread() == taken + u && |Unread()| < |u|
      requires obj + 1 == heap.next && obj !in nodes0 && CanAttach(nodes0, ParentSlot(frames))
      requires heap.nodes == Attached(nodes0, obj, Childless(v), ParentSlot(frames))
      modifies this`ridx, this`task, this`frames, this`result, this`taken, this`reply
      ensures Stepped(true, old(taken) + u, |u|, old(base), nodes0)
    {
      hide OpenState, ClosedState, ReadHead, ParseItem, Attached, CanAttach, ParentSlot, TreeAt, DenotesDone;
      LeafClosed(strtod, nodes0, obj, base, task, frames, taken, k, v);
      taken := taken + k;
      var root := ridx == 0;
      MoveToNextTask(v);
      if root {
        reply := Some(obj);
      }
    }

    /** A non-empty aggregate becomes the innermost open container. */
    method OpenAggregate(
      obj: Ptr, kind: Kind, elements: nat, ghost k: seq<byte>, ghost u: seq<byte>, ghost nodes0: Nodes)
      requires Basic() && err.None? && OpenReply() && ridx == |frames| && ridx + 1 < |task|
      requires OpenState(strtod, nodes0, obj, base, task, frames, taken) && task[ridx].typ == Some(TAggregate(kind))
      requires ReadHead(strtod, TAggregate(kind), InPush(frames), k) == ReaderHeadOpen(kind, elements)
      requires taken + k + Unread() == taken + u && |Unread()| < |u|
      requires obj + 1 == heap.next && obj !in nodes0 && CanAttach(nodes0, ParentSlot(frames))
      requires heap.nodes == Attached(nodes0, obj, ArrayNode(kind, NoSlots(elements)), ParentSlot(frames))
      modifies this`ridx, this`task, this`frames, this`taken, this`reply
      ensures Stepped(true, old(taken) + u, |u|, old(base), nodes0)
    {
      hide OpenState, ClosedState, ReadHead, ParseItem, Attached, CanAttach, ParentSlot, TreeAt, DenotesDone;
      ArrayOpened(strtod, nodes0, obj, base, task, frames, taken, k, kind, elements);
      taken := taken + k;
      var root := ridx == 0;
      task := Opened(task, ridx, elements, obj);
      ridx := ridx + 1;
      frames := frames + [Frame(kind, elements, [], obj)];
      assert Open();
      if root {
        reply := Some(obj);
      }
      assert OpenReply();
      assert Advanced(old(taken) + u, |u|);
    }

    /** processItem: reads a type byte when none is pending, then dispatches on the type. */
    method ProcessItem() returns (ok: bool)
      requires Basic() && err.None? && Open() && OpenReply()
      modifies this, heap
      ensures Stepped(ok, old(Pending()), old(|Unread()|), old(base), old(heap.nodes))
    {
      hide OpenState, ClosedState, ReadHead, ParseItem, Attached, CanAttach, ParentSlot, TreeAt, DenotesDone;
      if task[ridx].typ == None {
        ok := ReadType();
        if !ok { return; }
      }
      var t := task[ridx].typ.value;
      if t.TString? || t.TVerb? {
        ok := ProcessBulkItem();
      } else if t.TAggregate? {
        ok := ProcessAggregateItem();
      } else {
        ok := ProcessLineItem();
      }
    }

    method ReadType() returns (ok: bool)
      requires Basic() && err.None? && Open() && OpenReply() && task[ridx].typ == None
      modifies this, heap
      ensures ok ==> Advanced(old(Pending()), old(|Unread()|)) && Open() && OpenReply() && task[ridx].typ.Some?
      ensures ok ==> heap.nodes == old(heap.nodes) && base == old(base)
      ensures !ok ==> Stepped(false, old(Pending()), old(|Unread()|), old(base), old(heap.nodes))
    {
      hide OpenState, ParseItem;
      ghost var u := Unread();
      TypeUnread(strtod, heap.nodes, heap.next, base, task, frames, taken, u);
      var b := ReadByte();
      if b == None {
        return false;
      }
      var t := TypeOf(b.value);
      if t == None {
        SetError(TypeByte(b.value));
        return false;
      }
      TypeRead(strtod, heap.nodes, heap.next, base, task, frames, taken, b.value, t.value);
      assert taken + [b.value] + Unread() == taken + u;
      taken := taken + [b.value];
      task := task[ridx := task[ridx].(typ := t)];
      return true;
    }

    /** redisReaderFeed: appends a chunk, dropping an over-large empty buffer first. */
    method Feed(chunk: seq<byte>) returns (ok: bool)
      requires Valid()
      modifies this`buf, this`pos, this`len
      ensures Valid()
      ensures ok <==> err.None?
      ensures err.None? ==> Pending() == old(Pending()) + chunk
      ensures err.Some? ==> Pending() == old(Pending())
    {
      hide OpenState;
      if err.Some? { return false; }
      if |chunk| >= 1 {
        var overAllocated: bool := *;
        if len == 0 && overAllocated {
          buf, pos := [], 0;
        }
        assert taken + (buf + chunk)[pos..] == taken + buf[pos..] + chunk;
        buf := buf + chunk;
        len := |buf|;
      }
      return true;
    }

    /** The processing loop of redisReaderGetReply. */
    method ProcessItems() returns (ok: bool)
      requires Basic() && err.None? && Open() && OpenReply()
      modifies this, heap
      ensures ok ==> Advanced(old(Pending()), old(|Unread()|) + 1) && ridx == -1
      ensures !ok ==> Stepped(false, old(Pending()), 0, old(base), old(heap.nodes))
      ensures base == old(base) && Older(heap.nodes, base) == Older(old(heap.nodes), base)
    {
      hide OpenState, ClosedState, ReadHead, ParseItem, Attached, CanAttach, ParentSlot, TreeAt, DenotesDone;
      ghost var was, unread := Pending(), |Unread()| + 1;
      ok := true;
      while ridx >= 0 && ok
        invariant base == old(base) && Older(heap.nodes, base) == Older(old(heap.nodes), base)
        invariant ok ==> Advanced(was, unread)
        invariant !ok ==> Stepped(false, was, 0, old(base), old(heap.nodes))
        decreases ok, if ok then |Unread()| else 0
      {
        ok := ProcessItem();
      }
    }

    /** Discards consumed bytes once there are at least 1024 of them. */
    method Compact()
      requires pos <= len == |buf|
      modifies this`buf, this`pos, this`len
      ensures pos <= len == |buf| && Unread() == old(Unread())
    {
      if pos >= COMPACT_AT {
        SdsRangeDrops(buf, pos);
        buf := SdsRange(buf, pos, -1);
        pos := 0;
        len := |buf|;
        assert buf[0..] == buf;
      }
    }

    /** What redisReaderGetReply achieves, told by the recursive parser on the bytes `was` that were pending. */
    ghost predicate Answered(ok: bool, out: Option<Ptr>, was: seq<byte>, wasBase: Ptr)
      reads this, heap
      requires pos <= |buf|
    {
      match ParseItem(strtod, false, was)
      case Incomplete => ok && out == None && err == None && Pending() == was && base == wasBase
      case Bad(e) => !ok && out == None && err == Some(e) && base == wasBase && heap.nodes == Older(heap.nodes, base)
      case Done(v, rest) => ok && err == None && Emitted(out, v, rest, wasBase)
    }

    ghost predicate Emitted(out: Option<Ptr>, v: Reply, rest: seq<byte>, wasBase: Ptr)
      reads this, heap
      requires pos <= |buf|
    {
      && out == Some(wasBase) && TreeAt(heap.nodes, wasBase, v)
      && base == wasBase + Size(v) && Idle() && Pending() == rest
    }

    /** redisReaderGetReply into a non-null target. */
    method GetReply() returns (ok: bool, out: Option<Ptr>)
      requires Valid()
      modifies this, heap
      ensures Valid()
      ensures old(err).Some? ==> !ok && out == None && err == old(err) && heap.nodes == old(heap.nodes)
      ensures old(err).None? ==> Answered(ok, out, old(Pending()), old(base))
      ensures old(err).None? ==> Older(heap.nodes, old(base)) == Older(old(heap.nodes), old(base))
      ensures old(err).None? && err.Some? ==> forall q :: q in heap.nodes <==> q in old(heap.nodes) && q < old(base)
    {
      hide OpenState, ClosedState, ReadHead, ParseItem, Attached, CanAttach, ParentSlot, TreeAt, DenotesDone;
      if err.Some? { return false, None; }
      if len == 0 {
        assert Unread() == [];
        EmptyIsIncomplete();
        return true, None;
      }
      if ridx == -1 {
        StartItem();
      }
      ok := ProcessItems();
      out := None;
      if err.Some? { return false, None; }
      Compact();
      if ridx == -1 {
        out := Emit();
      }
      ok := true;
    }

    /** Hands the completed root reply to the caller. */
    method Emit() returns (out: Option<Ptr>)
      requires Basic() && err.None? && Finished() && reply == Some(base)
      modifies this`reply, this`base, this`taken
      ensures Valid() && Answered(true, out, old(Pending()), old(base))
      ensures ParseItem(strtod, false, old(Pending())).Done?
    {
      assert ParseItem(strtod, false, taken + Unread()) == Finish(strtod, [], Done(result, Unread()));
      out := reply;
      reply := None;
      base, taken := heap.next, [];
      assert [] + Unread() == Unread();
    }

    lemma {:induction false} EmptyIsIncomplete()
      requires Valid() && err.None? && Unread() == []
      ensures ParseItem(strtod, false, Pending()) == Incomplete
    {
      if ridx >= 0 {
        var t := task[ridx].typ;
        assert ParseItem(strtod, false, taken + []) == Resume(strtod, frames, t, []);
        assert taken + Unread() == taken + [];
        if t.Some? {
          assert FindCRLF([]) == None;
        }
      }
    }

    /** Sets task 0 up for a new root item. */
    method StartItem()
      requires Basic() && Idle()
      modifies this`task, this`ridx
      ensures Basic() && Open() && OpenReply() && Pending() == old(Pending())
    {
      task := task[0 := Task(None, -1, -1, None, None)];
      ridx := 0;
      FreshDenotes(strtod);
    }
  }
}
