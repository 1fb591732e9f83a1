/**
 Reply objects on the heap: the default constructors link each new object into its parent's element
 array, and freeReplyObject releases a tree that may still have empty slots.

 Addresses are allocation numbers, so a reply built by the reader occupies the consecutive addresses
 that start at its root.  Every allocation and every release is explicit: a second release of the same
 object, or an object nobody releases, would show up in the set of live addresses.
 */
module ReplyObjects {
  import opened Bytes
  import opened Resp

  type Ptr = nat

  datatype Node =
    | LeafNode(v: Reply)
    | ArrayNode(kind: Kind, element: seq<Option<Ptr>>)

  type Nodes = map<Ptr, Node>

  /** Number of heap objects a reply occupies; an empty slot occupies none. */
  function Size(v: Reply): (n: nat)
    ensures n == 0 <==> v == Missing
    decreases v
  {
    match v
    case Missing => 0
    case Aggregate(_, vs) => 1 + SizeAll(vs)
    case _ => 1
  }

  function SizeAll(vs: seq<Reply>): nat
    decreases vs
  {
    if vs == [] then 0 else SizeAll(vs[..|vs| - 1]) + Size(vs[|vs| - 1])
  }

  /** The objects reachable from p spell exactly v, in the addresses p .. p + Size(v). */
  ghost predicate TreeAt(nodes: Nodes, p: Ptr, v: Reply)
    decreases v, 0
  {
    if v.Aggregate? then
      && p in nodes && nodes[p].ArrayNode? && nodes[p].kind == v.kind
      && SlotsAt(nodes, nodes[p].element, p + 1, v.elements)
    else
      v != Missing && p in nodes && nodes[p] == LeafNode(v)
  }

  ghost predicate SlotAt(nodes: Nodes, slot: Option<Ptr>, p: Ptr, v: Reply)
    decreases v, 1
  {
    if v == Missing then slot == None else slot == Some(p) && TreeAt(nodes, p, v)
  }

  ghost predicate SlotsAt(nodes: Nodes, slots: seq<Option<Ptr>>, p: Ptr, vs: seq<Reply>)
    decreases vs
  {
    var n := |vs| - 1;
    && |slots| == |vs|
    && (vs != [] ==>
          && SlotsAt(nodes, slots[..n], p, vs[..n])
          && SlotAt(nodes, slots[n], p + SizeAll(vs[..n]), vs[n]))
  }

  ghost predicate SameOn(nodes: Nodes, nodes': Nodes, lo: int, hi: int) {
    forall q :: lo <= q < hi && q in nodes ==> q in nodes' && nodes'[q] == nodes[q]
  }

  /** A tree depends on nothing outside its own addresses. */
  lemma {:induction false} TreeFrame(nodes: Nodes, nodes': Nodes, p: Ptr, v: Reply)
    requires TreeAt(nodes, p, v) && SameOn(nodes, nodes', p, p + Size(v))
    ensures TreeAt(nodes', p, v)
    decreases v
  {
    if v.Aggregate? {
      SlotsFrame(nodes, nodes', nodes[p].element, p + 1, v.elements);
    }
  }

  lemma {:induction false} SlotsFrame(nodes: Nodes, nodes': Nodes, slots: seq<Option<Ptr>>, p: Ptr, vs: seq<Reply>)
    requires SlotsAt(nodes, slots, p, vs) && SameOn(nodes, nodes', p, p + SizeAll(vs))
    ensures SlotsAt(nodes', slots, p, vs)
    decreases vs
  {
    if vs != [] {
      var n := |vs| - 1;
      SlotsFrame(nodes, nodes', slots[..n], p, vs[..n]);
      if vs[n] != Missing {
        TreeFrame(nodes, nodes', p + SizeAll(vs[..n]), vs[n]);
      }
    }
  }

  /** Every address of a tree is live. */
  lemma {:induction false} TreeFills(nodes: Nodes, p: Ptr, v: Reply)
    requires TreeAt(nodes, p, v)
    ensures forall q :: p <= q < p + Size(v) ==> q in nodes
    decreases v
  {
    if v.Aggregate? {
      SlotsFill(nodes, nodes[p].element, p + 1, v.elements);
    }
  }

  lemma {:induction false} SlotsFill(nodes: Nodes, slots: seq<Option<Ptr>>, p: Ptr, vs: seq<Reply>)
    requires SlotsAt(nodes, slots, p, vs)
    ensures forall q :: p <= q < p + SizeAll(vs) ==> q in nodes
    decreases vs
  {
    if vs != [] {
      var n := |vs| - 1;
      SlotsFill(nodes, slots[..n], p, vs[..n]);
      if vs[n] != Missing {
        TreeFills(nodes, p + SizeAll(vs[..n]), vs[n]);
      }
    }
  }

  lemma {:induction false} SlotsSnoc(
    nodes: Nodes, slots: seq<Option<Ptr>>, p: Ptr, vs: seq<Reply>, slot: Option<Ptr>, v: Reply)
    requires SlotsAt(nodes, slots, p, vs) && SlotAt(nodes, slot, p + SizeAll(vs), v)
    ensures SlotsAt(nodes, slots + [slot], p, vs + [v])
    ensures SizeAll(vs + [v]) == SizeAll(vs) + Size(v)
  {
    hide SlotAt, TreeAt, Size;
    var slots', vs' := slots + [slot], vs + [v];
    assert slots'[..|vs|] == slots && vs'[..|vs|] == vs && slots'[|vs|] == slot && vs'[|vs|] == v;
    assert SizeAll(vs') == SizeAll(vs) + Size(v);
  }

  /** A leaf is its object; the elements of an aggregate are in its slots, in order. */
  lemma {:induction false} TreeIs(nodes: Nodes, p: Ptr, v: Reply)
    requires TreeAt(nodes, p, v)
    ensures p in nodes && (!v.Aggregate? ==> nodes[p] == LeafNode(v))
    ensures v.Aggregate? ==>
              && nodes[p].ArrayNode? && nodes[p].kind == v.kind && |nodes[p].element| == |v.elements|
              && forall j :: 0 <= j < |v.elements| && v.elements[j] != Missing ==>
                   nodes[p].element[j].Some? && TreeAt(nodes, nodes[p].element[j].value, v.elements[j])
  {
    if v.Aggregate? {
      var slots, vs := nodes[p].element, v.elements;
      assert SlotsAt(nodes, slots, p + 1, vs);
      hide SlotsAt, TreeAt;
      forall j | 0 <= j < |vs| && vs[j] != Missing
        ensures slots[j].Some? && TreeAt(nodes, slots[j].value, vs[j])
      {
        SlotsPick(nodes, slots, p + 1, vs, j);
      }
    }
  }

  lemma {:induction false} SlotsPick(nodes: Nodes, slots: seq<Option<Ptr>>, p: Ptr, vs: seq<Reply>, j: nat)
    requires SlotsAt(nodes, slots, p, vs) && j < |vs|
    ensures SlotAt(nodes, slots[j], p + SizeAll(vs[..j]), vs[j])
    ensures SizeAll(vs[..j + 1]) == SizeAll(vs[..j]) + Size(vs[j])
    ensures SizeAll(vs[..j + 1]) <= SizeAll(vs)
    decreases |vs|
  {
    assert vs[..j + 1][..j] == vs[..j];
    var n := |vs| - 1;
    if j < n {
      SlotsPick(nodes, slots[..n], p, vs[..n], j);
      assert vs[..n][..j] == vs[..j] && vs[..n][..j + 1] == vs[..j + 1];
    } else {
      assert vs[..j + 1] == vs;
    }
  }

  /** An unfilled tail of an element array. */
  function Blank(n: nat): (vs: seq<Reply>)
    ensures |vs| == n
  {
    if n == 0 then [] else Blank(n - 1) + [Missing]
  }

  function NoSlots(n: nat): (slots: seq<Option<Ptr>>)
    ensures |slots| == n && forall i :: 0 <= i < n ==> slots[i] == None
  {
    if n == 0 then [] else NoSlots(n - 1) + [None]
  }

  lemma {:induction false} Assoc<T>(a: seq<T>, b: seq<T>, c: seq<T>)
    ensures a + (b + c) == (a + b) + c
  {
  }

  lemma {:induction false} EmptySlot(nodes: Nodes, p: Ptr)
    ensures SlotAt(nodes, None, p, Missing) && Size(Missing) == 0
  {
  }

  lemma {:induction false} SlotsBlank(nodes: Nodes, slots: seq<Option<Ptr>>, p: Ptr, vs: seq<Reply>, n: nat)
    requires SlotsAt(nodes, slots, p, vs)
    ensures SlotsAt(nodes, slots + NoSlots(n), p, vs + Blank(n))
    ensures SizeAll(vs + Blank(n)) == SizeAll(vs)
  {
    hide SlotsAt, SlotAt, SizeAll, Size, NoSlots, Blank;
    BlankStep(n);
    if n == 0 {
      assert slots + [] == slots;
      assert vs + [] == vs;
    } else {
      SlotsBlank(nodes, slots, p, vs, n - 1);
      EmptySlot(nodes, p + SizeAll(vs + Blank(n - 1)));
      SlotsSnoc(nodes, slots + NoSlots(n - 1), p, vs + Blank(n - 1), None, Missing);
      Assoc(slots, NoSlots(n - 1), [None]);
      Assoc(vs, Blank(n - 1), [Missing]);
    }
  }

  lemma {:induction false} BlankStep(n: nat)
    ensures n == 0 ==> NoSlots(n) == [] && Blank(n) == []
    ensures n > 0 ==> NoSlots(n) == NoSlots(n - 1) + [None] && Blank(n) == Blank(n - 1) + [Missing]
  {
  }

  /** The live objects outside the addresses lo .. hi. */
  function Without(nodes: Nodes, lo: int, hi: int): Nodes {
    map q | q in nodes && !(lo <= q < hi) :: nodes[q]
  }

  predicate CanAttach(nodes: Nodes, parent: Option<(Ptr, nat)>) {
    parent.Some? ==>
      var (q, idx) := parent.value;
      q in nodes && nodes[q].ArrayNode? && idx < |nodes[q].element|
  }

  /** The heap after p was allocated as node and stored in its parent's element array. */
  function Attached(nodes: Nodes, p: Ptr, node: Node, parent: Option<(Ptr, nat)>): Nodes
    requires CanAttach(nodes, parent)
  {
    match parent
    case None => nodes[p := node]
    case Some((q, idx)) => nodes[p := node][q := ArrayNode(nodes[q].kind, nodes[q].element[idx := Some(p)])]
  }

  class ObjectHeap {
    var nodes: Nodes
    var next: Ptr

    ghost predicate Valid()
      reads this
    {
      forall q :: q in nodes ==> q < next
    }

    constructor ()
      ensures Valid() && nodes == map[] && next == 0
    {
      nodes, next := map[], 0;
    }

    /** createReplyObject followed by parent->element[task->idx] = r. */
    method Create(node: Node, parent: Option<(Ptr, nat)>) returns (p: Ptr)
      requires Valid() && CanAttach(nodes, parent)
      modifies this
      ensures Valid() && p == old(next) && next == p + 1
      ensures nodes == Attached(old(nodes), p, node, parent)
      ensures p !in old(nodes) && nodes.Keys == old(nodes).Keys + {p} && nodes[p] == node
      ensures parent.Some? ==>
                var (q, idx) := parent.value;
                nodes[q] == ArrayNode(old(nodes)[q].kind, old(nodes)[q].element[idx := Some(p)])
      ensures forall q :: q in old(nodes) && (parent.None? || q != parent.value.0) ==> nodes[q] == old(nodes)[q]
    {
      p := next;
      nodes := nodes[p := node];
      next := next + 1;
      if parent.Some? {
        var (q, idx) := parent.value;
        nodes := nodes[q := ArrayNode(nodes[q].kind, nodes[q].element[idx := Some(p)])];
      }
    }

    /** createNilObject, createDoubleObject and createBoolObject assert that the parent is no push. */
    method CreateOutsidePush(v: Reply, parent: Option<(Ptr, nat)>) returns (r: Option<Ptr>)
      requires Valid() && CanAttach(nodes, parent)
      modifies this
      ensures Valid()
      ensures r.None? <==> parent.Some? && old(nodes)[parent.value.0].kind == Push
      ensures r.None? ==> nodes == old(nodes) && next == old(next)
      ensures r.Some? ==> r.value == old(next) && next == r.value + 1
      ensures r.Some? ==> nodes == Attached(old(nodes), r.value, LeafNode(v), parent)
    {
      if parent.Some? && nodes[parent.value.0].kind == Push {
        return None;
      }
      var p := Create(LeafNode(v), parent);
      return Some(p);
    }

    /** createStringObject: a verbatim payload is split into its 3-byte type and its text. */
    method CreateString(t: ItemType, payload: seq<byte>, parent: Option<(Ptr, nat)>) returns (p: Ptr)
      requires t.TString? || t.TStatus? || t.TError? || (t.TVerb? && |payload| >= 4)
      requires Valid() && CanAttach(nodes, parent)
      modifies this
      ensures Valid() && p == old(next) && next == p + 1
      ensures var v := if t.TVerb? then Verb(payload[..3], payload[4..]) else if t.TString? then Str(payload)
                       else if t.TStatus? then Status(payload) else Error(payload);
              nodes == Attached(old(nodes), p, LeafNode(v), parent)
    {
      var v;
      if t.TVerb? {
        v := Verb(payload[..3], payload[4..]);
      } else {
        v := if t.TString? then Str(payload) else if t.TStatus? then Status(payload) else Error(payload);
      }
      p := Create(LeafNode(v), parent);
    }

    /** createArrayObject: element is zero-filled. */
    method CreateArray(kind: Kind, elements: nat, parent: Option<(Ptr, nat)>) returns (p: Ptr)
      requires Valid() && CanAttach(nodes, parent)
      modifies this
      ensures Valid() && p == old(next) && next == p + 1
      ensures nodes == Attached(old(nodes), p, ArrayNode(kind, NoSlots(elements)), parent)
    {
      p := Create(ArrayNode(kind, NoSlots(elements)), parent);
    }

    /**
     freeReplyObject: releases every object of the tree once, empty slots included, and nothing else.
     Each release requires its object to be live at that moment.
     */
    method FreeReplyObject(r: Option<Ptr>, ghost v: Reply)
      requires Valid()
      requires SlotAt(nodes, r, if r.Some? then r.value else 0, v)
      modifies this
      ensures Valid() && next == old(next)
      ensures r.None? ==> nodes == old(nodes)
      ensures r.Some? ==> nodes == Without(old(nodes), r.value, r.value + Size(v))
      ensures r.Some? ==> forall q :: q in nodes <==> q in old(nodes) && !(r.value <= q < r.value + Size(v))
      decreases v, 1
    {
      if r.None? { return; }
      var p := r.value;
      assert p in nodes;
      var node := nodes[p];
      if node.ArrayNode? {
        FreeElements(node.element, p + 1, v.elements);
      }
      assert p in nodes;
      nodes := nodes - {p};
    }

    /** The element loop of freeReplyObject. */
    method FreeElements(element: seq<Option<Ptr>>, ghost p: Ptr, ghost vs: seq<Reply>)
      requires Valid() && SlotsAt(nodes, element, p, vs)
      modifies this
      ensures Valid() && next == old(next)
      ensures nodes == Without(old(nodes), p, p + SizeAll(vs))
      decreases vs, 0
    {
      hide SlotsAt, TreeAt, SizeAll, Size;
      EmptySizes();
      SameLength(nodes, element, p, vs);
      ghost var before := nodes;
      var j := 0;
      while j < |element|
        invariant 0 <= j <= |element|
        invariant Valid() && next == old(next)
        invariant nodes == Without(before, p, p + SizeAll(vs[..j]))
      {
        SlotsPick(before, element, p, vs, j);
        ghost var q := p + SizeAll(vs[..j]);
        if vs[j] != Missing {
          TreeFrame(before, nodes, q, vs[j]);
        }
        FreeReplyObject(element[j], vs[j]);
        j := j + 1;
      }
      assert vs[..j] == vs;
    }

    lemma {:induction false} EmptySizes()
      ensures SizeAll([]) == 0 && Size(Missing) == 0
    {
    }

    lemma {:induction false} SameLength(nodes: Nodes, slots: seq<Option<Ptr>>, p: Ptr, vs: seq<Reply>)
      requires SlotsAt(nodes, slots, p, vs)
      ensures |slots| == |vs|
    {
    }
  }
}
