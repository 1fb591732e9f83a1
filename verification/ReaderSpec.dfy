/**
 The meaning of a suspended reader: its open containers and the pending type byte denote a continuation
 of the recursive parser, and each step of the reader moves bytes across that continuation unchanged.
 Also the shape of a half-built reply on the heap.
 */
module ReaderSpec {
  import opened Bytes
  import opened IntegerCodec
  import opened Resp
  import opened ReplyObjects

  /** An open container: how many elements it announced, those already complete, and its object. */
  datatype Frame = Frame(kind: Kind, total: nat, done: seq<Reply>, obj: Ptr)

  // ---- Continuations ----

  function Last(fs: seq<Frame>): Frame
    requires fs != []
  {
    fs[|fs| - 1]
  }

  function Pop(fs: seq<Frame>): seq<Frame>
    requires fs != []
  {
    fs[..|fs| - 1]
  }

  predicate InPush(fs: seq<Frame>) {
    fs != [] && Last(fs).kind == Push
  }

  /** The verdict on the root item once the innermost item's verdict is r; innermost container last. */
  ghost function Finish(strtod: Strtod, fs: seq<Frame>, r: Parse): Parse
    decreases |fs|
  {
    if fs == [] || !r.Done? then r
    else
      var f := Last(fs);
      if |f.done| >= f.total then Incomplete
      else match ParseItems(strtod, f.kind == Push, f.total - |f.done| - 1, r.rest)
        case IncompleteMany => Incomplete
        case BadMany(e) => Bad(e)
        case DoneMany(vs, rest) => Finish(strtod, Pop(fs), Done(Aggregate(f.kind, f.done + [r.v] + vs), rest))
  }

  /** The verdict on the root item when b follows what was consumed; typ is the consumed type byte, if any. */
  ghost function Resume(strtod: Strtod, fs: seq<Frame>, typ: Option<ItemType>, b: seq<byte>): Parse {
    Finish(strtod, fs, match typ
                       case None => ParseItem(strtod, InPush(fs), b)
                       case Some(t) => ParseTyped(strtod, t, InPush(fs), b))
  }

  /** The suspended state stands for having consumed `taken`, whatever arrives next. */
  ghost predicate Denotes(strtod: Strtod, taken: seq<byte>, fs: seq<Frame>, typ: Option<ItemType>) {
    forall ext: seq<byte> :: ParseItem(strtod, false, taken + ext) == Resume(strtod, fs, typ, ext)
  }

  /** The innermost item is complete with value v and exactly `taken` is consumed. */
  ghost predicate DenotesDone(strtod: Strtod, taken: seq<byte>, fs: seq<Frame>, v: Reply) {
    forall ext: seq<byte> :: ParseItem(strtod, false, taken + ext) == Finish(strtod, fs, Done(v, ext))
  }

  lemma {:induction false} FreshDenotes(strtod: Strtod)
    ensures Denotes(strtod, [], [], None)
  {
    forall ext: seq<byte> ensures ParseItem(strtod, false, [] + ext) == Resume(strtod, [], None, ext) {
      assert [] + ext == ext;
    }
  }

  lemma {:induction false} TypeByteStep(strtod: Strtod, taken: seq<byte>, fs: seq<Frame>, c: byte, t: ItemType)
    requires Denotes(strtod, taken, fs, None) && TypeOf(c) == Some(t)
    ensures Denotes(strtod, taken + [c], fs, Some(t))
  {
    forall ext: seq<byte> ensures ParseItem(strtod, false, taken + [c] + ext) == Resume(strtod, fs, Some(t), ext) {
      assert taken + [c] + ext == taken + ([c] + ext);
      assert ([c] + ext)[1..] == ext;
      assert ParseItem(strtod, false, taken + ([c] + ext)) == Resume(strtod, fs, None, [c] + ext);
    }
  }

  lemma {:induction false} LeafStep(
    strtod: Strtod, taken: seq<byte>, fs: seq<Frame>, t: ItemType, k: seq<byte>, v: Reply)
    requires Denotes(strtod, taken, fs, Some(t)) && ReadHead(strtod, t, InPush(fs), k) == Leaf(v, [])
    ensures DenotesDone(strtod, taken + k, fs, v)
  {
    forall ext: seq<byte> ensures ParseItem(strtod, false, taken + k + ext) == Finish(strtod, fs, Done(v, ext)) {
      assert taken + k + ext == taken + (k + ext);
      HeadStable(strtod, t, InPush(fs), k, ext);
      assert [] + ext == ext;
      assert ParseItem(strtod, false, taken + (k + ext)) == Resume(strtod, fs, Some(t), k + ext);
    }
  }

  /** ParseItems one item at a time. */
  lemma {:induction false} ItemsUnfold(strtod: Strtod, inPush: bool, n: nat, b: seq<byte>)
    requires n > 0
    ensures var r := ParseItem(strtod, inPush, b);
            && (r == Incomplete ==> ParseItems(strtod, inPush, n, b) == IncompleteMany)
            && (r.Bad? ==> ParseItems(strtod, inPush, n, b) == BadMany(r.err))
            && (r.Done? ==>
                  var m := ParseItems(strtod, inPush, n - 1, r.rest);
                  ParseItems(strtod, inPush, n, b) == if m.DoneMany? then DoneMany([r.v] + m.vs, m.rest) else m)
  {
  }

  /** Finish over one more open container. */
  ghost function FinishTop(strtod: Strtod, fs: seq<Frame>, f: Frame, m: ParseMany): Parse {
    match m
    case IncompleteMany => Incomplete
    case BadMany(e) => Bad(e)
    case DoneMany(vs, rest) => Finish(strtod, fs, Done(Aggregate(f.kind, f.done + vs), rest))
  }

  /** Waiting for the next element of f is waiting for all its missing elements. */
  lemma {:induction false} ResumeFrame(strtod: Strtod, fs: seq<Frame>, f: Frame, b: seq<byte>)
    requires |f.done| < f.total
    ensures Resume(strtod, fs + [f], None, b)
         == FinishTop(strtod, fs, f, ParseItems(strtod, f.kind == Push, f.total - |f.done|, b))
  {
    var inPush, n := f.kind == Push, f.total - |f.done|;
    LastOf(fs, f);
    ItemsUnfold(strtod, inPush, n, b);
    ResumeUntyped(strtod, fs + [f], b);
    hide ParseItems, ParseItem, Finish, FinishTop, Resume, Last, Pop, InPush;
    var r := ParseItem(strtod, inPush, b);
    if r.Done? {
      FinishFrame(strtod, fs, f, r.v, r.rest);
      FinishMore(strtod, fs, f, r.v, ParseItems(strtod, inPush, n - 1, r.rest));
    } else {
      FinishEarly(strtod, fs, f, r);
    }
  }

  lemma {:induction false} FinishEarly(strtod: Strtod, fs: seq<Frame>, f: Frame, r: Parse)
    requires !r.Done?
    ensures FinishTop(strtod, fs, f, if r == Incomplete then IncompleteMany else BadMany(r.err)) == r
  {
  }

  lemma {:induction false} FinishFrame(strtod: Strtod, fs: seq<Frame>, f: Frame, v: Reply, b: seq<byte>)
    requires |f.done| < f.total
    ensures Finish(strtod, fs + [f], Done(v, b))
         == FinishTop(strtod, fs, f.(done := f.done + [v]),
                      ParseItems(strtod, f.kind == Push, f.total - |f.done| - 1, b))
  {
    LastOf(fs, f);
    FinishDone(strtod, fs + [f], v, b);
  }

  /** An element more among those complete is an element more in front of those to come. */
  lemma {:induction false} FinishMore(strtod: Strtod, fs: seq<Frame>, f: Frame, v: Reply, m: ParseMany)
    ensures FinishTop(strtod, fs, f.(done := f.done + [v]), m)
         == FinishTop(strtod, fs, f, if m.DoneMany? then DoneMany([v] + m.vs, m.rest) else m)
  {
    if m.DoneMany? {
      Regroup(f.done, v, m.vs);
    }
  }

  lemma {:induction false} LastOf(fs: seq<Frame>, f: Frame)
    ensures Last(fs + [f]) == f && Pop(fs + [f]) == fs && InPush(fs + [f]) == (f.kind == Push)
  {
  }

  lemma {:induction false} Regroup(done: seq<Reply>, v: Reply, vs: seq<Reply>)
    ensures done + ([v] + vs) == done + [v] + vs
  {
  }

  lemma {:induction false} ResumeUntyped(strtod: Strtod, fs: seq<Frame>, b: seq<byte>)
    ensures var r := ParseItem(strtod, InPush(fs), b);
            Resume(strtod, fs, None, b) == if r.Done? then Finish(strtod, fs, r) else r
  {
  }

  lemma {:induction false} FinishDone(strtod: Strtod, fs: seq<Frame>, v: Reply, b: seq<byte>)
    requires fs != [] && |Last(fs).done| < Last(fs).total
    ensures Finish(strtod, fs, Done(v, b))
         == FinishTop(strtod, Pop(fs), Last(fs).(done := Last(fs).done + [v]),
                      ParseItems(strtod, Last(fs).kind == Push, Last(fs).total - |Last(fs).done| - 1, b))
  {
  }

  lemma {:induction false} OpenAt(strtod: Strtod, fs: seq<Frame>, t: ItemType, b: seq<byte>, f: Frame, ext: seq<byte>)
    requires f.done == [] && f.total > 0
    requires ReadHead(strtod, t, InPush(fs), b) == Open(f.kind, f.total, ext)
    ensures Resume(strtod, fs, Some(t), b) == Resume(strtod, fs + [f], None, ext)
  {
    ResumeFrame(strtod, fs, f, ext);
    var m := ParseItems(strtod, f.kind == Push, f.total, ext);
    if m.DoneMany? {
      assert f.done + m.vs == m.vs;
    }
  }

  lemma {:induction false} OpenStep(
    strtod: Strtod, taken: seq<byte>, fs: seq<Frame>, t: ItemType, k: seq<byte>, f: Frame)
    requires Denotes(strtod, taken, fs, Some(t)) && f.done == []
    requires ReadHead(strtod, t, InPush(fs), k) == Open(f.kind, f.total, [])
    ensures Denotes(strtod, taken + k, fs + [f], None)
  {
    forall ext: seq<byte> ensures ParseItem(strtod, false, taken + k + ext) == Resume(strtod, fs + [f], None, ext) {
      assert taken + k + ext == taken + (k + ext);
      HeadStable(strtod, t, InPush(fs), k, ext);
      assert [] + ext == ext;
      assert ParseItem(strtod, false, taken + (k + ext)) == Resume(strtod, fs, Some(t), k + ext);
      OpenAt(strtod, fs, t, k + ext, f, ext);
    }
  }

  /** Completing the last element of the innermost container completes the container. */
  lemma {:induction false} PopStep(strtod: Strtod, taken: seq<byte>, fs: seq<Frame>, v: Reply)
    requires DenotesDone(strtod, taken, fs, v) && fs != [] && |Last(fs).done| + 1 == Last(fs).total
    ensures DenotesDone(strtod, taken, Pop(fs), Aggregate(Last(fs).kind, Last(fs).done + [v]))
  {
    var f := Last(fs);
    var whole := Aggregate(f.kind, f.done + [v]);
    forall ext: seq<byte> ensures ParseItem(strtod, false, taken + ext) == Finish(strtod, Pop(fs), Done(whole, ext)) {
      assert f.done + [v] + [] == f.done + [v];
      assert ParseItem(strtod, false, taken + ext) == Finish(strtod, fs, Done(v, ext));
    }
  }

  /** Completing an earlier element moves on to the next one. */
  lemma {:induction false} NextStep(strtod: Strtod, taken: seq<byte>, fs: seq<Frame>, v: Reply)
    requires DenotesDone(strtod, taken, fs, v) && fs != [] && |Last(fs).done| + 1 < Last(fs).total
    ensures Denotes(strtod, taken, Pop(fs) + [Last(fs).(done := Last(fs).done + [v])], None)
  {
    var f' := Last(fs).(done := Last(fs).done + [v]);
    forall ext: seq<byte> ensures ParseItem(strtod, false, taken + ext) == Resume(strtod, Pop(fs) + [f'], None, ext) {
      assert ParseItem(strtod, false, taken + ext) == Finish(strtod, fs, Done(v, ext));
      FinishDone(strtod, fs, v, ext);
      ResumeFrame(strtod, Pop(fs), f', ext);
    }
  }

  lemma {:induction false} BulkExact(verb: bool, inPush: bool, line: seq<byte>, rest: seq<byte>)
    requires BulkHead(verb, inPush, line, rest).Leaf?
    ensures var h := BulkHead(verb, inPush, line, rest);
            && |h.rest| <= |rest| && h.rest == rest[|rest| - |h.rest|..]
            && BulkHead(verb, inPush, line, rest[..|rest| - |h.rest|]) == Leaf(h.v, [])
  {
    var n := ParseLL(line).value;
    if n >= 0 {
      var k := rest[..n + 2];
      assert k[..n] == rest[..n] && k[n + 2..] == [];
      if n >= 4 {
        assert k[..3] == rest[..3] && k[4..n] == rest[4..n] && k[3] == rest[3];
      }
    }
  }

  lemma {:induction false} HeadExactIn(
    strtod: Strtod, t: ItemType, inPush: bool, line: seq<byte>, rest: seq<byte>, b: seq<byte>, k: seq<byte>)
    requires FindCRLF(b) == Some(|line|) && b == line + CRLF + rest
    requires var h := ReadHead(strtod, t, inPush, b); h.Leaf? || h.Open?
    requires |ReadHead(strtod, t, inPush, b).rest| <= |rest|
    requires k == line + CRLF + rest[..|rest| - |ReadHead(strtod, t, inPush, b).rest|] && FindCRLF(k) == Some(|line|)
    ensures var h := ReadHead(strtod, t, inPush, b);
            ReadHead(strtod, t, inPush, k) == (if h.Leaf? then Leaf(h.v, []) else Open(h.kind, h.count, []))
  {
    var h := ReadHead(strtod, t, inPush, b);
    assert b[..|line|] == line && b[|line| + 2..] == rest;
    assert k[..|line|] == line && k[|line| + 2..] == rest[..|rest| - |h.rest|];
    match t
    case TString => BulkExact(false, inPush, line, rest);
    case TVerb => BulkExact(true, inPush, line, rest);
    case TAggregate(kind) => assert h == AggregateHead(kind, inPush, line, rest);
    case _ => assert h == LineHead(strtod, t, inPush, line, rest);
  }

  lemma {:induction false} HeadRest(strtod: Strtod, t: ItemType, inPush: bool, b: seq<byte>, i: nat)
    requires FindCRLF(b) == Some(i)
    requires var h := ReadHead(strtod, t, inPush, b); h.Leaf? || h.Open?
    ensures |ReadHead(strtod, t, inPush, b).rest| <= |b| - i - 2
  {
    var line, rest := b[..i], b[i + 2..];
    if t.TString? {
      assert ReadHead(strtod, t, inPush, b) == BulkHead(false, inPush, line, rest);
      BulkExact(false, inPush, line, rest);
    } else if t.TVerb? {
      assert ReadHead(strtod, t, inPush, b) == BulkHead(true, inPush, line, rest);
      BulkExact(true, inPush, line, rest);
    } else if t.TAggregate? {
      assert ReadHead(strtod, t, inPush, b) == AggregateHead(t.kind, inPush, line, rest);
    } else {
      assert ReadHead(strtod, t, inPush, b) == LineHead(strtod, t, inPush, line, rest);
    }
  }

  lemma {:induction false} Cut(b: seq<byte>, i: nat, m: nat)
    requires LineEndAt(b, i) && i + 2 + m <= |b|
    ensures b == b[..i] + CRLF + b[i + 2..]
    ensures b[..i] + CRLF + b[i + 2..][..m] == b[..i + 2 + m]
    ensures b == b[..i + 2 + m] + b[i + 2..][m..]
  {
  }

  /** A header read from the front of the buffer is the same header read from exactly the bytes it took. */
  lemma {:induction false} HeadExact(strtod: Strtod, t: ItemType, inPush: bool, b: seq<byte>)
    requires var h := ReadHead(strtod, t, inPush, b); h.Leaf? || h.Open?
    ensures var h := ReadHead(strtod, t, inPush, b);
            var k := b[..|b| - |h.rest|];
            && b == k + h.rest
            && ReadHead(strtod, t, inPush, k) == (if h.Leaf? then Leaf(h.v, []) else Open(h.kind, h.count, []))
  {
    var h := ReadHead(strtod, t, inPush, b);
    var i := FindCRLF(b).value;
    HeadRest(strtod, t, inPush, b, i);
    TypedHeadSuffix(strtod, t, inPush, b);
    var m := |b| - i - 2 - |h.rest|;
    Cut(b, i, m);
    LineFound(b, i, b[..i + 2 + m]);
    HeadExactIn(strtod, t, inPush, b[..i], b[i + 2..], b, b[..i + 2 + m]);
  }

  lemma {:induction false} LineFound(b: seq<byte>, i: nat, k: seq<byte>)
    requires FindCRLF(b) == Some(i) && i + 2 <= |k| <= |b| && k == b[..|k|]
    ensures FindCRLF(k) == Some(i)
  {
    forall j | 0 <= j < i ensures !LineEndAt(k, j) {
      assert !LineEndAt(b, j);
    }
    assert LineEndAt(k, i);
  }

  // ---- The half-built reply ----

  /**
   The open containers hang below one another from address base: each has its first children complete,
   its current slot holding `open` (the next container, or nothing), and its later slots empty;
   the addresses in use end at top.
   */
  ghost predicate Spine(nodes: Nodes, fs: seq<Frame>, open: Option<Ptr>, top: Ptr, base: Ptr)
    decreases |fs|
  {
    if fs == [] then top == base
    else
      var f := Last(fs);
      && |f.done| < f.total
      && FrameAt(nodes, f, open)
      && top == f.obj + 1 + SizeAll(f.done)
      && Spine(nodes, Pop(fs), Some(f.obj), f.obj, base)
  }

  ghost predicate FrameAt(nodes: Nodes, f: Frame, open: Option<Ptr>)
    requires |f.done| < f.total
  {
    && f.obj in nodes && nodes[f.obj].ArrayNode? && nodes[f.obj].kind == f.kind
    && var slots := nodes[f.obj].element;
       && |slots| == f.total
       && slots == slots[..|f.done|] + [open] + NoSlots(f.total - |f.done| - 1)
       && SlotsAt(nodes, slots[..|f.done|], f.obj + 1, f.done)
  }

  lemma {:induction false} SpineBounds(nodes: Nodes, fs: seq<Frame>, open: Option<Ptr>, top: Ptr, base: Ptr)
    requires Spine(nodes, fs, open, top, base)
    ensures base <= top && (fs != [] ==> fs[0].obj == base < top)
    decreases |fs|
  {
    if fs != [] {
      SpineBounds(nodes, Pop(fs), Some(Last(fs).obj), Last(fs).obj, base);
    }
  }

  lemma {:induction false} SpineFrame(
    nodes: Nodes, nodes': Nodes, fs: seq<Frame>, open: Option<Ptr>, top: Ptr, base: Ptr)
    requires Spine(nodes, fs, open, top, base) && SameOn(nodes, nodes', base, top)
    ensures Spine(nodes', fs, open, top, base)
    decreases |fs|
  {
    if fs != [] {
      var f := Last(fs);
      SpineBounds(nodes, Pop(fs), Some(f.obj), f.obj, base);
      SpineFrame(nodes, nodes', Pop(fs), Some(f.obj), f.obj, base);
      SlotsFrame(nodes, nodes', nodes[f.obj].element[..|f.done|], f.obj + 1, f.done);
    }
  }

  /** Where a new object of the current item is stored. */
  function ParentSlot(fs: seq<Frame>): Option<(Ptr, nat)> {
    if fs == [] then None else Some((Last(fs).obj, |Last(fs).done|))
  }

  lemma {:induction false} SlotUpdate(done: seq<Option<Ptr>>, p: Option<Ptr>, p': Option<Ptr>, k: nat)
    ensures var s := done + [p] + NoSlots(k);
            s[|done| := p'] == done + [p'] + NoSlots(k) && s[..|done|] == done && s[|done| := p'][..|done|] == done
  {
  }

  /** Storing a new object in the current slot touches nothing else of the half-built reply. */
  lemma {:induction false} AttachStep(nodes: Nodes, fs: seq<Frame>, top: Ptr, base: Ptr, node: Node)
    requires Spine(nodes, fs, None, top, base) && top !in nodes
    ensures CanAttach(nodes, ParentSlot(fs))
    ensures var nodes' := Attached(nodes, top, node, ParentSlot(fs));
            && Spine(nodes', fs, Some(top), top, base)
            && top in nodes' && nodes'[top] == node
            && (forall q :: q in nodes' <==> q in nodes || q == top)
            && SameOn(nodes, nodes', 0, base)
  {
    if fs != [] {
      var f := Last(fs);
      SpineBounds(nodes, Pop(fs), Some(f.obj), f.obj, base);
      SpineBounds(nodes, fs, None, top, base);
      var slots := nodes[f.obj].element;
      var nodes' := Attached(nodes, top, node, ParentSlot(fs));
      SlotUpdate(slots[..|f.done|], None, Some(top), f.total - |f.done| - 1);
      SpineFrame(nodes, nodes', Pop(fs), Some(f.obj), f.obj, base);
      SlotsFrame(nodes, nodes', slots[..|f.done|], f.obj + 1, f.done);
      assert nodes'[f.obj].element == slots[|f.done| := Some(top)];
    }
  }

  /** A freshly attached array becomes the new innermost container. */
  lemma {:induction false} PushSpine(nodes: Nodes, fs: seq<Frame>, top: Ptr, base: Ptr, f: Frame)
    requires Spine(nodes, fs, Some(top), top, base)
    requires f.done == [] && f.total > 0 && f.obj == top
    requires top in nodes && nodes[top] == ArrayNode(f.kind, NoSlots(f.total))
    ensures Spine(nodes, fs + [f], None, top + 1, base)
  {
    assert Pop(fs + [f]) == fs && Last(fs + [f]) == f;
    BlankSlots(f.total);
    assert nodes[top].element[..0] == [];
    assert NoSlots(f.total) == [] + [None] + NoSlots(f.total - 1);
  }

  lemma {:induction false} BlankSlots(n: nat)
    requires n > 0
    ensures NoSlots(n) == [None] + NoSlots(n - 1)
  {
  }

  lemma {:induction false} ChildSlots(nodes: Nodes, f: Frame, top: Ptr, v: Reply)
    requires |f.done| < f.total && FrameAt(nodes, f, Some(top))
    requires top == f.obj + 1 + SizeAll(f.done) && TreeAt(nodes, top, v)
    ensures SlotsAt(nodes, nodes[f.obj].element[..|f.done| + 1], f.obj + 1, f.done + [v])
    ensures SizeAll(f.done + [v]) == SizeAll(f.done) + Size(v)
  {
    var slots := nodes[f.obj].element;
    SlotsSnoc(nodes, slots[..|f.done|], f.obj + 1, f.done, Some(top), v);
    assert slots[..|f.done| + 1] == slots[..|f.done|] + [Some(top)];
  }

  /** A completed child that is not the last leaves the container open at its next slot. */
  lemma {:induction false} ChildDone(nodes: Nodes, fs: seq<Frame>, top: Ptr, base: Ptr, v: Reply)
    requires fs != [] && Spine(nodes, fs, Some(top), top, base) && TreeAt(nodes, top, v)
    requires |Last(fs).done| + 1 < Last(fs).total
    ensures Spine(nodes, Pop(fs) + [Last(fs).(done := Last(fs).done + [v])], None, top + Size(v), base)
  {
    var f := Last(fs);
    var slots := nodes[f.obj].element;
    var k := |f.done|;
    ChildSlots(nodes, f, top, v);
    BlankSlots(f.total - k - 1);
    assert slots == slots[..k + 1] + [None] + NoSlots(f.total - k - 2);
    var f' := f.(done := f.done + [v]);
    assert FrameAt(nodes, f', None);
    assert Pop(Pop(fs) + [f']) == Pop(fs) && Last(Pop(fs) + [f']) == f';
  }

  /** The last child makes the container a complete tree, sitting in its own parent's current slot. */
  lemma {:induction false} ContainerDone(nodes: Nodes, fs: seq<Frame>, top: Ptr, base: Ptr, v: Reply)
    requires fs != [] && Spine(nodes, fs, Some(top), top, base) && TreeAt(nodes, top, v)
    requires |Last(fs).done| + 1 == Last(fs).total
    ensures var f := Last(fs);
            var whole := Aggregate(f.kind, f.done + [v]);
            && Spine(nodes, Pop(fs), Some(f.obj), f.obj, base)
            && TreeAt(nodes, f.obj, whole)
            && f.obj + Size(whole) == top + Size(v)
  {
    var f := Last(fs);
    ChildSlots(nodes, f, top, v);
    assert nodes[f.obj].element[..|f.done| + 1] == nodes[f.obj].element;
  }

  /** The half-built reply as a tree with empty slots, `inner` sitting in the current slot. */
  ghost function Plug(fs: seq<Frame>, inner: Reply): Reply
    decreases |fs|
  {
    if fs == [] then inner
    else
      var f := Last(fs);
      if |f.done| >= f.total then inner
      else Plug(Pop(fs), Aggregate(f.kind, f.done + [inner] + Blank(f.total - |f.done| - 1)))
  }

  /** Everything allocated since base hangs below base. */
  lemma {:induction false} SpineIsTree(
    nodes: Nodes, fs: seq<Frame>, open: Option<Ptr>, top: Ptr, base: Ptr, inner: Reply)
    requires Spine(nodes, fs, open, top, base) && fs != [] && SlotAt(nodes, open, top, inner)
    ensures TreeAt(nodes, base, Plug(fs, inner)) && Size(Plug(fs, inner)) == top + Size(inner) - base
    decreases |fs|
  {
    var f := Last(fs);
    var whole := Aggregate(f.kind, f.done + [inner] + Blank(f.total - |f.done| - 1));
    FrameIsTree(nodes, f, open, top, inner);
    PlugStep(fs, inner);
    hide FrameAt, TreeAt, Plug, Size;
    if Pop(fs) == [] {
      PlugNothing(whole);
    } else {
      WholeSlot(nodes, f.obj, whole);
      SpineIsTree(nodes, Pop(fs), Some(f.obj), f.obj, base, whole);
    }
  }

  lemma {:induction false} WholeSlot(nodes: Nodes, p: Ptr, v: Reply)
    requires TreeAt(nodes, p, v)
    ensures SlotAt(nodes, Some(p), p, v)
  {
  }

  lemma {:induction false} PlugNothing(v: Reply)
    ensures Plug([], v) == v
  {
  }

  lemma {:induction false} PlugStep(fs: seq<Frame>, inner: Reply)
    requires fs != [] && |Last(fs).done| < Last(fs).total
    ensures var f := Last(fs);
            Plug(fs, inner) == Plug(Pop(fs), Aggregate(f.kind, f.done + [inner] + Blank(f.total - |f.done| - 1)))
  {
  }

  lemma {:induction false} FrameIsTree(nodes: Nodes, f: Frame, open: Option<Ptr>, top: Ptr, inner: Reply)
    requires |f.done| < f.total && FrameAt(nodes, f, open) && top == f.obj + 1 + SizeAll(f.done)
    requires SlotAt(nodes, open, top, inner)
    ensures var whole := Aggregate(f.kind, f.done + [inner] + Blank(f.total - |f.done| - 1));
            TreeAt(nodes, f.obj, whole) && f.obj + Size(whole) == top + Size(inner)
  {
    var slots := nodes[f.obj].element;
    var k := |f.done|;
    var rest := f.total - k - 1;
    SlotsSnoc(nodes, slots[..k], f.obj + 1, f.done, open, inner);
    SlotsBlank(nodes, slots[..k] + [open], f.obj + 1, f.done + [inner], rest);
    assert slots == slots[..k] + [open] + NoSlots(rest);
    hide SlotsAt, SlotAt, SizeAll, NoSlots, Blank, TreeAt, Size;
    ArrayIsTree(nodes, f.obj, f.kind, f.done + [inner] + Blank(rest));
  }

  lemma {:induction false} ArrayIsTree(nodes: Nodes, p: Ptr, kind: Kind, vs: seq<Reply>)
    requires p in nodes && nodes[p].ArrayNode? && nodes[p].kind == kind && SlotsAt(nodes, nodes[p].element, p + 1, vs)
    ensures TreeAt(nodes, p, Aggregate(kind, vs)) && Size(Aggregate(kind, vs)) == 1 + SizeAll(vs)
  {
    assert Aggregate(kind, vs).elements == vs;
  }
}
