/**
 Whole sessions: a byte stream cut into feeds in any way, the reader drained after each feed.  The replies
 and the final state depend on the bytes alone.
 */
module Chunking {
  import opened Bytes
  import opened Resp
  import opened ReplyObjects
  import opened ReaderSpec
  import opened ReaderModel
  import opened Transcripts

  /** The recursive parser applied until the bytes run out. */
  function Stream(strtod: Strtod, b: seq<byte>): Transcript
    decreases |b|
  {
    match ParseItem(strtod, false, b)
    case Incomplete => Transcript([], Waiting(b))
    case Bad(e) => Transcript([], Broken(e))
    case Done(v, rest) =>
      var t := Stream(strtod, rest);
      Transcript([v] + t.replies, t.end)
  }

  function Flatten(chunks: seq<seq<byte>>): seq<byte> {
    if chunks == [] then [] else chunks[0] + Flatten(chunks[1..])
  }

  /** Feeding chunk by chunk and draining after each; an error stops everything. */
  function Drive(strtod: Strtod, pending: seq<byte>, chunks: seq<seq<byte>>): Transcript
    decreases |chunks|
  {
    if chunks == [] then Transcript([], Waiting(pending))
    else
      var t := Stream(strtod, pending + chunks[0]);
      match t.end
      case Broken(_) => t
      case Waiting(left) =>
        var u := Drive(strtod, left, chunks[1..]);
        Transcript(t.replies + u.replies, u.end)
  }

  lemma {:induction false} StreamOfItem(strtod: Strtod, b: seq<byte>, v: Reply, rest: seq<byte>)
    requires ParseItem(strtod, false, b) == Done(v, rest)
    ensures Stream(strtod, b)
         == Transcript([v] + Stream(strtod, rest).replies, Stream(strtod, rest).end)
  {
  }

  lemma {:induction false} StreamStops(strtod: Strtod, b: seq<byte>)
    ensures match ParseItem(strtod, false, b)
            case Incomplete => Stream(strtod, b) == Transcript([], Waiting(b))
            case Bad(e) => Stream(strtod, b) == Transcript([], Broken(e))
            case Done(_, _) => true
  {
  }

  lemma {:induction false} StreamAppend(strtod: Strtod, b: seq<byte>, c: seq<byte>)
    ensures var t := Stream(strtod, b);
            Stream(strtod, b + c) ==
              match t.end
              case Broken(_) => t
              case Waiting(left) => (var u := Stream(strtod, left + c); Transcript(t.replies + u.replies, u.end))
    decreases |b|
  {
    hide ParseItem, Stream;
    var r := ParseItem(strtod, false, b);
    StreamStops(strtod, b);
    if r == Incomplete {
      assert [] + Stream(strtod, b + c).replies == Stream(strtod, b + c).replies;
    } else {
      ItemStable(strtod, false, b, c);
      StreamStops(strtod, b + c);
      if r.Done? {
        StreamAppend(strtod, r.rest, c);
        StreamOfItem(strtod, b, r.v, r.rest);
        StreamOfItem(strtod, b + c, r.v, r.rest + c);
        var t' := Stream(strtod, r.rest);
        if t'.end.Waiting? {
          var u := Stream(strtod, t'.end.pending + c);
          assert [r.v] + (t'.replies + u.replies) == [r.v] + t'.replies + u.replies;
        }
      }
    }
  }

  /** Draining after every feed is parsing the whole stream. */
  lemma {:induction false} DriveIsStream(strtod: Strtod, pending: seq<byte>, chunks: seq<seq<byte>>)
    requires ParseItem(strtod, false, pending) == Incomplete
    ensures Drive(strtod, pending, chunks) == Stream(strtod, pending + Flatten(chunks))
    decreases |chunks|
  {
    if chunks == [] {
      assert pending + [] == pending;
    } else {
      var b := pending + chunks[0];
      assert pending + Flatten(chunks) == b + Flatten(chunks[1..]);
      StreamAppend(strtod, b, Flatten(chunks[1..]));
      var t := Stream(strtod, b);
      if t.end.Waiting? {
        StreamLeavesIncomplete(strtod, b);
        DriveIsStream(strtod, t.end.pending, chunks[1..]);
      }
    }
  }

  lemma {:induction false} StreamLeavesIncomplete(strtod: Strtod, b: seq<byte>)
    requires Stream(strtod, b).end.Waiting?
    ensures ParseItem(strtod, false, Stream(strtod, b).end.pending) == Incomplete
    decreases |b|
  {
    var r := ParseItem(strtod, false, b);
    if r.Done? {
      StreamLeavesIncomplete(strtod, r.rest);
    }
  }

  /** Two ways of cutting the same bytes yield the same replies and the same final state. */
  lemma {:induction false} ChunkingInvariance(strtod: Strtod, chunks: seq<seq<byte>>, chunks': seq<seq<byte>>)
    requires Flatten(chunks) == Flatten(chunks')
    ensures Drive(strtod, [], chunks) == Drive(strtod, [], chunks')
  {
    DriveIsStream(strtod, [], chunks);
    DriveIsStream(strtod, [], chunks');
  }

  /** A stream made of encoded replies yields exactly those replies, with nothing left over. */
  lemma {:induction false} StreamOfEncoded(strtod: Strtod, vs: seq<Reply>)
    requires AllWellFormed(strtod, false, vs)
    ensures Stream(strtod, EncodeAll(vs)) == Transcript(vs, Waiting([]))
    decreases |vs|
  {
    if vs != [] {
      RoundTrip(strtod, false, vs[0], EncodeAll(vs[1..]));
      StreamOfEncoded(strtod, vs[1..]);
      assert [vs[0]] + vs[1..] == vs;
    }
  }

  /** The replies before an error, or before an item that is not yet complete, are all delivered. */
  lemma {:induction false} StreamOfEncodedAnd(strtod: Strtod, vs: seq<Reply>, tail: seq<byte>)
    requires AllWellFormed(strtod, false, vs)
    ensures ParseItem(strtod, false, tail) == Incomplete ==>
              Stream(strtod, EncodeAll(vs) + tail) == Transcript(vs, Waiting(tail))
    ensures ParseItem(strtod, false, tail).Bad? ==>
              Stream(strtod, EncodeAll(vs) + tail) == Transcript(vs, Broken(ParseItem(strtod, false, tail).err))
  {
    hide ParseItem, AllWellFormed, EncodeAll;
    StreamOfEncoded(strtod, vs);
    StreamAppend(strtod, EncodeAll(vs), tail);
    StreamStops(strtod, tail);
    hide Stream;
    assert [] + tail == tail && vs + [] == vs;
  }

  // ---- The reader itself ----

  /** Trees of the replies vs at ps, side by side, filling the addresses lo .. hi. */
  ghost predicate Forest(nodes: Nodes, ps: seq<Ptr>, vs: seq<Reply>, lo: Ptr, hi: Ptr)
    decreases |ps|
  {
    if ps == [] then vs == [] && lo == hi
    else
      && vs != [] && ps[0] == lo && TreeAt(nodes, lo, vs[0])
      && Forest(nodes, ps[1..], vs[1..], lo + Size(vs[0]), hi)
  }

  lemma {:induction false} ForestFrame(nodes: Nodes, nodes': Nodes, ps: seq<Ptr>, vs: seq<Reply>, lo: Ptr, hi: Ptr)
    requires Forest(nodes, ps, vs, lo, hi) && Older(nodes', hi) == Older(nodes, hi)
    ensures Forest(nodes', ps, vs, lo, hi) && lo <= hi
    decreases |ps|
  {
    if ps != [] {
      ForestFrame(nodes, nodes', ps[1..], vs[1..], lo + Size(vs[0]), hi);
      forall q | 0 <= q < hi && q in nodes ensures q in nodes' && nodes'[q] == nodes[q] {
        assert q in Older(nodes, hi) && Older(nodes, hi)[q] == nodes[q];
      }
      TreeFrame(nodes, nodes', lo, vs[0]);
    }
  }

  lemma {:induction false} ForestAppend(
    nodes: Nodes, ps: seq<Ptr>, vs: seq<Reply>, lo: Ptr, mid: Ptr, qs: seq<Ptr>, ws: seq<Reply>, hi: Ptr)
    requires Forest(nodes, ps, vs, lo, mid) && Forest(nodes, qs, ws, mid, hi)
    ensures Forest(nodes, ps + qs, vs + ws, lo, hi)
    decreases |ps|
  {
    if ps == [] {
      assert ps + qs == qs && vs + ws == ws;
    } else {
      ForestAppend(nodes, ps[1..], vs[1..], lo + Size(vs[0]), mid, qs, ws, hi);
      assert (ps + qs)[1..] == ps[1..] + qs && (vs + ws)[1..] == vs[1..] + ws;
    }
  }

  /** The trees share no object, and no address between them is dead. */
  lemma {:induction false} ForestIs(nodes: Nodes, ps: seq<Ptr>, vs: seq<Reply>, lo: Ptr, hi: Ptr)
    requires Forest(nodes, ps, vs, lo, hi)
    ensures |ps| == |vs| && lo <= hi
    ensures forall i :: 0 <= i < |ps| ==> lo <= ps[i] && ps[i] + Size(vs[i]) <= hi && TreeAt(nodes, ps[i], vs[i])
    ensures forall i, j :: 0 <= i < j < |ps| ==> ps[i] + Size(vs[i]) <= ps[j]
    ensures forall q :: lo <= q < hi ==> q in nodes
    decreases |ps|
  {
    if ps != [] {
      ForestIs(nodes, ps[1..], vs[1..], lo + Size(vs[0]), hi);
      TreeFills(nodes, lo, vs[0]);
      forall i | 0 <= i < |ps|
        ensures lo <= ps[i] && ps[i] + Size(vs[i]) <= hi && TreeAt(nodes, ps[i], vs[i])
        ensures i > 0 ==> lo + Size(vs[0]) <= ps[i]
      {
        if i > 0 {
          assert ps[i] == ps[1..][i - 1] && vs[i] == vs[1..][i - 1];
        }
      }
      forall i, j | 0 <= i < j < |ps| ensures ps[i] + Size(vs[i]) <= ps[j] {
        if i > 0 {
          assert ps[i] == ps[1..][i - 1] && vs[i] == vs[1..][i - 1] && ps[j] == ps[1..][j - 1];
        }
      }
    }
  }

  /** From lo on, exactly the addresses below hi are live. */
  ghost predicate LiveTo(nodes: Nodes, lo: Ptr, hi: Ptr) {
    forall q :: lo <= q ==> (q in nodes <==> q < hi)
  }

  /**
   What the reader has allocated since address lo: the emitted trees, and behind them the half-built reply, which
   reaches to the newest object; after an error only the emitted trees.
   */
  ghost predicate Allocated(r: Reader, out: seq<Ptr>, vs: seq<Reply>, lo: Ptr)
    reads r, r.heap
  {
    Forest(r.heap.nodes, out, vs, lo, r.base) && LiveTo(r.heap.nodes, lo, if r.err.Some? then r.base else r.heap.next)
  }

  /** Calls redisReaderGetReply until it has nothing more to give. */
  method Drain(r: Reader) returns (out: seq<Ptr>, ok: bool)
    requires r.Valid() && r.err.None?
    modifies r, r.heap
    ensures r.Valid()
    ensures Older(r.heap.nodes, old(r.base)) == Older(old(r.heap.nodes), old(r.base))
    ensures var t := Stream(r.strtod, old(r.Pending()));
            && Allocated(r, out, t.replies, old(r.base))
            && (ok ==> r.err == None && t.end == Waiting(r.Pending()))
            && (!ok ==> r.err.Some? && t.end == Broken(r.err.value))
  {
    var trees;
    trees, ok := DrainAll(r);
    out := trees;
    ForestIs(r.heap.nodes, out, Stream(r.strtod, old(r.Pending())).replies, old(r.base), r.base);
    if ok {
      StillGrowing(r);
    }
  }

  /** Without an error, everything from the root of the current item on is live. */
  lemma {:induction false} StillGrowing(r: Reader)
    requires r.Valid() && r.err.None?
    ensures r.base <= r.heap.next && LiveTo(r.heap.nodes, r.base, r.heap.next)
  {
    if r.Open() && r.OpenReply() {
      HalfBuilt(r.strtod, r.heap.nodes, r.heap.next, r.base, r.task, r.frames, r.taken);
      if r.frames != [] {
        TreeFills(r.heap.nodes, r.base, Plug(r.frames, Missing));
      }
    }
  }

  /** The loop of a caller that asks for replies until there is none. */
  method DrainAll(r: Reader) returns (out: seq<Ptr>, ok: bool)
    requires r.Valid() && r.err.None?
    modifies r, r.heap
    ensures r.Valid()
    ensures Older(r.heap.nodes, old(r.base)) == Older(old(r.heap.nodes), old(r.base)) && old(r.base) <= r.base
    ensures var t := Stream(r.strtod, old(r.Pending()));
            && Forest(r.heap.nodes, out, t.replies, old(r.base), r.base)
            && (ok ==> r.err == None && t.end == Waiting(r.Pending()))
            && (!ok ==> r.err.Some? && t.end == Broken(r.err.value) && r.heap.nodes == Older(r.heap.nodes, r.base))
    decreases |r.Pending()|
  {
    hide TreeAt, ParseItem;
    ghost var was := r.Pending();
    ghost var base0 := r.base;
    StreamStops(r.strtod, was);
    var p;
    ok, p := r.GetReply();
    if p == None {
      return [], ok;
    }
    ghost var v := ParseItem(r.strtod, false, was).v;
    ghost var nodes1, base1 := r.heap.nodes, r.base;
    StreamOfItem(r.strtod, was, v, r.Pending());
    hide Stream;
    out, ok := DrainAll(r);
    OneMore(nodes1, r.heap.nodes, base1, p.value, v);
    OlderTwice(r.heap.nodes, nodes1, old(r.heap.nodes), base0, base1);
    out := [p.value] + out;
  }

  lemma {:induction false} OneMore(nodes: Nodes, nodes': Nodes, base: Ptr, p: Ptr, v: Reply)
    requires TreeAt(nodes, p, v) && p + Size(v) == base && Older(nodes', base) == Older(nodes, base)
    ensures TreeAt(nodes', p, v)
  {
    assert Forest(nodes, [p], [v], p, base);
    ForestFrame(nodes, nodes', [p], [v], p, base);
    assert TreeAt(nodes', [p][0], [v][0]);
  }

  /** What is unchanged below a later base is unchanged below an earlier one. */
  lemma {:induction false} OlderTwice(nodes2: Nodes, nodes1: Nodes, nodes0: Nodes, base0: Ptr, base1: Ptr)
    requires base0 <= base1
    requires Older(nodes2, base1) == Older(nodes1, base1) && Older(nodes1, base0) == Older(nodes0, base0)
    ensures Older(nodes2, base0) == Older(nodes0, base0)
  {
    assert Older(nodes2, base0) == Older(Older(nodes2, base1), base0);
    assert Older(nodes1, base0) == Older(Older(nodes1, base1), base0);
  }

  /**
   Feeds the chunks one by one, draining after each.  The emitted trees are those of the whole stream,
   however it was cut; after an error nothing the reader allocated is left but the emitted trees.
   */
  method Session(r: Reader, chunks: seq<seq<byte>>) returns (out: seq<Ptr>, ok: bool)
    requires r.Valid() && r.err.None? && ParseItem(r.strtod, false, r.Pending()) == Incomplete
    modifies r, r.heap
    ensures r.Valid()
    ensures Older(r.heap.nodes, old(r.base)) == Older(old(r.heap.nodes), old(r.base))
    ensures var t := Stream(r.strtod, old(r.Pending()) + Flatten(chunks));
            && Allocated(r, out, t.replies, old(r.base))
            && (ok ==> r.err == None && t.end == Waiting(r.Pending()))
            && (!ok ==> r.err.Some? && t.end == Broken(r.err.value))
  {
    ghost var start, lo, nodes := r.Pending(), r.base, r.heap.nodes;
    ghost var total := Drive(r.strtod, start, chunks);
    DriveIsStream(r.strtod, start, chunks);
    StillGrowing(r);
    NoForest(nodes, lo);
    NothingDriven(total);
    assert chunks[0..] == chunks;
    hide Stream, Drive, Forest, LiveTo, ParseItem, Reader.Open, Reader.OpenReply, Reader.Idle, Reader.Failed, Older;
    ghost var vs := [];
    out, ok := [], true;
    assert OnTrack(r.strtod, total, vs, r.err, r.Pending(), chunks[0..]) && Allocated(r, out, vs, lo);
    hide OnTrack, Allocated;
    var i := 0;
    while i < |chunks| && ok
      invariant 0 <= i <= |chunks| && r.Valid() && (ok <==> r.err.None?)
      invariant Allocated(r, out, vs, lo) && Older(r.heap.nodes, lo) == Older(nodes, lo)
      invariant OnTrack(r.strtod, total, vs, r.err, r.Pending(), chunks[i..])
    {
      ghost var pending := r.Pending();
      var ps;
      ps, ok := FeedAndDrain(r, chunks[i], out, vs, lo, nodes);
      TrackStep(r.strtod, total, vs, pending, chunks, i, r.err, r.Pending());
      out, vs := out + ps, vs + Stream(r.strtod, pending + chunks[i]).replies;
      i := i + 1;
    }
    TrackEnd(r.strtod, total, vs, r.err, r.Pending(), chunks[i..]);
  }

  /** `total` is what was emitted so far, followed by what driving the remaining chunks will give. */
  ghost predicate OnTrack(
    strtod: Strtod, total: Transcript, vs: seq<Reply>, err: Option<Err>, pending: seq<byte>, rest: seq<seq<byte>>)
  {
    if err.Some? then total == Transcript(vs, Broken(err.value))
    else ParseItem(strtod, false, pending) == Incomplete && total == After(vs, Drive(strtod, pending, rest))
  }

  lemma {:induction false} TrackStep(
    strtod: Strtod, total: Transcript, vs: seq<Reply>, pending: seq<byte>, chunks: seq<seq<byte>>, i: nat,
    err: Option<Err>, pending': seq<byte>)
    requires i < |chunks| && OnTrack(strtod, total, vs, None, pending, chunks[i..])
    requires Stream(strtod, pending + chunks[i]).end == if err.Some? then Broken(err.value) else Waiting(pending')
    ensures OnTrack(strtod, total, vs + Stream(strtod, pending + chunks[i]).replies, err, pending', chunks[i + 1..])
  {
    hide Stream, Drive, ParseItem;
    var b := pending + chunks[i];
    DriveStep(strtod, pending, chunks, i);
    if err == None {
      StreamLeavesIncomplete(strtod, b);
      AfterTwice(vs, Stream(strtod, b).replies, Drive(strtod, pending', chunks[i + 1..]));
    }
  }

  lemma {:induction false} TrackEnd(
    strtod: Strtod, total: Transcript, vs: seq<Reply>, err: Option<Err>, pending: seq<byte>, rest: seq<seq<byte>>)
    requires OnTrack(strtod, total, vs, err, pending, rest) && (err == None ==> rest == [])
    ensures total == Transcript(vs, if err.Some? then Broken(err.value) else Waiting(pending))
  {
    DriveNothing(strtod, pending, vs);
  }

  /** One round of a session, out being what was emitted before. */
  method FeedAndDrain(
    r: Reader, chunk: seq<byte>, ghost out: seq<Ptr>, ghost vs: seq<Reply>, ghost lo: Ptr, ghost nodes: Nodes)
    returns (ps: seq<Ptr>, ok: bool)
    requires r.Valid() && r.err.None? && Allocated(r, out, vs, lo) && Older(r.heap.nodes, lo) == Older(nodes, lo)
    modifies r, r.heap
    ensures r.Valid() && Older(r.heap.nodes, lo) == Older(nodes, lo)
    ensures var t := Stream(r.strtod, old(r.Pending()) + chunk);
            && Allocated(r, out + ps, vs + t.replies, lo)
            && (ok ==> r.err == None && t.end == Waiting(r.Pending()))
            && (!ok ==> r.err.Some? && t.end == Broken(r.err.value))
  {
    hide Stream, Forest, ParseItem, Reader.Open, Reader.OpenReply, Reader.Idle, Reader.Failed, Older, LiveTo;
    ghost var b, base := r.Pending() + chunk, r.base;
    var fed := r.Feed(chunk);
    ghost var nodes0 := r.heap.nodes;
    ps, ok := Drain(r);
    Grown(nodes0, r.heap.nodes, out, vs, lo, base, ps, Stream(r.strtod, b).replies, r.base);
    OlderTwice(r.heap.nodes, nodes0, nodes, lo, base);
    LiveMore(r.heap.nodes, lo, base, out + ps, vs + Stream(r.strtod, b).replies, r.base,
             if r.err.Some? then r.base else r.heap.next);
  }

  lemma {:induction false} LiveMore(nodes: Nodes, lo: Ptr, mid: Ptr, ps: seq<Ptr>, vs: seq<Reply>, base: Ptr, hi: Ptr)
    requires lo <= mid <= base && Forest(nodes, ps, vs, lo, base) && LiveTo(nodes, mid, hi) && base <= hi
    ensures LiveTo(nodes, lo, hi)
  {
    ForestIs(nodes, ps, vs, lo, base);
  }

  /** A transcript with earlier replies in front. */
  function After(vs: seq<Reply>, t: Transcript): Transcript {
    Transcript(vs + t.replies, t.end)
  }

  lemma {:induction false} AfterTwice(vs: seq<Reply>, ws: seq<Reply>, t: Transcript)
    ensures After(vs, After(ws, t)) == After(vs + ws, t)
  {
    assert vs + (ws + t.replies) == vs + ws + t.replies;
  }

  lemma {:induction false} NothingDriven(t: Transcript)
    ensures After([], t) == t
  {
    assert [] + t.replies == t.replies;
  }

  lemma {:induction false} DriveNothing(strtod: Strtod, pending: seq<byte>, vs: seq<Reply>)
    ensures After(vs, Drive(strtod, pending, [])) == Transcript(vs, Waiting(pending))
  {
    assert vs + [] == vs;
  }

  lemma {:induction false} NoForest(nodes: Nodes, base: Ptr)
    ensures Forest(nodes, [], [], base, base)
  {
  }

  lemma {:induction false} DriveStep(strtod: Strtod, pending: seq<byte>, chunks: seq<seq<byte>>, i: nat)
    requires i < |chunks|
    ensures var t := Stream(strtod, pending + chunks[i]);
            Drive(strtod, pending, chunks[i..]) ==
              match t.end
              case Broken(_) => t
              case Waiting(left) => After(t.replies, Drive(strtod, left, chunks[i + 1..]))
  {
    assert chunks[i..][0] == chunks[i] && chunks[i..][1..] == chunks[i + 1..];
  }

  /** Trees emitted later join those emitted before. */
  lemma {:induction false} Grown(
    nodes: Nodes, nodes': Nodes, ps: seq<Ptr>, vs: seq<Reply>, lo: Ptr, mid: Ptr, qs: seq<Ptr>, ws: seq<Reply>, hi: Ptr)
    requires Forest(nodes, ps, vs, lo, mid) && Older(nodes', mid) == Older(nodes, mid)
    requires Forest(nodes', qs, ws, mid, hi)
    ensures lo <= mid <= hi && Forest(nodes', ps + qs, vs + ws, lo, hi)
  {
    ForestFrame(nodes, nodes', ps, vs, lo, mid);
    ForestIs(nodes', qs, ws, mid, hi);
    ForestAppend(nodes', ps, vs, lo, mid, qs, ws, hi);
  }
}
