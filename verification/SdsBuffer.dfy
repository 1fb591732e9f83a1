/**
 The growable string of sds.c: a buffer with spare room whose header type, and so the width of its length
 fields, changes as it grows and shrinks.  Writes to the length fields truncate to that width; Valid()
 is what makes every such write exact.
 */
module SdsBuffer {
  import opened Bytes
  import opened SdsSpec

  datatype HeaderType = Type5 | Type8 | Type16 | Type32 | Type64

  const MAX_PREALLOC := 1024 * 1024
  /** Sizes an allocator can serve. */
  const SIZE_LIMIT: int := 0x4000_0000_0000_0000
  const SSIZE_MAX: int := 0x7FFF_FFFF_FFFF_FFFF

  /** Number of values the length field of a header type can hold. */
  function Width(t: HeaderType): (w: int)
    ensures w > 0
  {
    match t
    case Type5 => 32
    case Type8 => 0x100
    case Type16 => 0x1_0000
    case Type32 => 0x1_0000_0000
    case Type64 => 0x1_0000_0000_0000_0000
  }

  /** The narrowest header type the code picks for a string size; always wide enough for it. */
  function ReqType(size: nat): (t: HeaderType)
    requires size < SIZE_LIMIT + SIZE_LIMIT
    ensures size < Width(t)
    ensures t != Type5 ==> size + 1 < Width(t)
    ensures size <= 31 <==> t == Type5
    ensures size <= 254 <==> t == Type5 || t == Type8
    ensures size <= 65534 <==> t == Type5 || t == Type8 || t == Type16
    ensures size <= 4294967294 <==> t != Type64
  {
    if size < 32 then Type5
    else if size < 0xff then Type8
    else if size < 0xffff then Type16
    else if size < 0xffff_ffff then Type32
    else Type64
  }

  lemma {:induction false} SmallMod(n: nat, w: int)
    requires w > 0
    ensures n < w ==> n % w == n
  {
  }

  /** memcpy of src into dst at offset at. */
  method CopyInto(dst: array<byte>, at: nat, src: seq<byte>)
    requires at + |src| <= dst.Length
    modifies dst
    ensures dst[..at] == old(dst[..at]) && dst[at..at + |src|] == src
    ensures dst[at + |src|..] == old(dst[at + |src|..])
  {
    forall i | 0 <= i < |src| {
      dst[at + i] := src[i];
    }
  }

  lemma {:induction false} Glue(b: array<byte>, k: nat, n: nat)
    requires k <= n <= b.Length
    ensures b[..n] == b[..k] + b[k..n]
  {
  }

  class Sds {
    var typ: HeaderType
    var lenField: nat
    var allocField: nat
    var buf: array<byte>

    /** sdslen, sdsalloc and sdsavail; a type-5 header has no room field. */
    function Len(): nat
      reads this
    {
      lenField
    }

    function Alloc(): nat
      reads this
    {
      if typ == Type5 then lenField else allocField
    }

    function Avail(): int
      reads this
    {
      if typ == Type5 then 0 else allocField - lenField
    }

    ghost predicate Valid()
      reads this, buf
    {
      && Len() <= Alloc() < Width(typ)
      && Alloc() < buf.Length
      && buf[Len()] == 0
    }

    ghost function Contents(): (s: seq<byte>)
      reads this, buf
      requires Valid()
      ensures |s| == Len()
    {
      buf[..Len()]
    }

    /** sdssetlen: stores the low bits that fit the header. */
    method SetLen(n: nat)
      modifies this`lenField
      ensures lenField == n % Width(typ)
      ensures n < Width(typ) ==> lenField == n
      ensures match typ
              case Type5 => lenField == n % 32
              case Type8 => lenField == n % 256
              case Type16 => lenField == n % 65536
              case Type32 => lenField == n % 4294967296
              case Type64 => lenField == n % 18446744073709551616
    {
      SmallMod(n, Width(typ));
      lenField := n % Width(typ);
    }

    method SetAlloc(n: nat)
      modifies this`allocField
      ensures typ == Type5 ==> allocField == old(allocField)
      ensures typ != Type5 ==> allocField == n % Width(typ)
      ensures typ != Type5 && n < Width(typ) ==> allocField == n
    {
      SmallMod(n, Width(typ));
      if typ != Type5 {
        allocField := n % Width(typ);
      }
    }

    constructor NewLen(init: seq<byte>)
      requires |init| < SIZE_LIMIT
      ensures Valid() && fresh(buf) && Contents() == init && Alloc() == |init|
      ensures typ == if init == [] then Type8 else ReqType(|init|)
    {
      var t := ReqType(|init|);
      if t == Type5 && |init| == 0 {
        t := Type8;
      }
      typ := t;
      SmallMod(|init|, Width(t));
      lenField, allocField := |init| % Width(t), |init| % Width(t);
      var b := new byte[|init| + 1];
      CopyInto(b, 0, init);
      assert b[..|init|] == init;
      b[|init|] := 0;
      assert b[..|init|] == init;
      buf := b;
    }

    /** Moves the string, NUL included, into a new block of the given room. */
    method Reallocate(t: HeaderType, room: nat)
      requires Valid() && Len() <= room < Width(t) && room < SIZE_LIMIT + SIZE_LIMIT
      modifies this
      ensures Valid() && fresh(buf) && typ == t && Contents() == old(Contents())
      ensures Alloc() == if t == Type5 then Len() else room
    {
      hide Width;
      var l := Len();
      var b := new byte[room + 1];
      var whole := buf[..l + 1];
      CopyInto(b, 0, whole);
      assert b[..l + 1] == whole;
      assert b[..l] == whole[..l] == buf[..l];
      assert b[l] == whole[l] == 0;
      typ := t;
      buf := b;
      SetLen(l);
      SetAlloc(room);
    }

    /** sdsMakeRoomFor: at least addlen bytes of room, the string unchanged. */
    method MakeRoomFor(addlen: nat)
      requires Valid() && Len() + addlen < SIZE_LIMIT / 2
      modifies this
      ensures Valid() && Contents() == old(Contents())
      ensures buf == old(buf) || fresh(buf)
      ensures Alloc() >= Len() + addlen && (addlen > 0 ==> typ != Type5)
      ensures old(Avail()) >= addlen ==> Alloc() == old(Alloc()) && buf == old(buf)
      ensures old(Avail()) < addlen ==>
                var need := Len() + addlen;
                Alloc() == if need < 1048576 then need * 2 else need + 1048576
    {
      if Avail() >= addlen { return; }
      var newlen := Len() + addlen;
      if newlen < MAX_PREALLOC {
        newlen := newlen * 2;
      } else {
        newlen := newlen + MAX_PREALLOC;
      }
      var t := ReqType(newlen);
      if t == Type5 {
        t := Type8;
      }
      Reallocate(t, newlen);
    }

    /** sdsRemoveFreeSpace. */
    method RemoveFreeSpace()
      requires Valid() && Len() < SIZE_LIMIT
      modifies this
      ensures Valid() && Contents() == old(Contents())
      ensures Avail() == 0 && fresh(buf)
    {
      Reallocate(ReqType(Len()), Len());
    }

    /** Writes t and a NUL behind the string, where room was made for them, and sets the new length. */
    method Put(ghost was: seq<byte>, t: seq<byte>)
      requires Valid() && Alloc() >= Len() + |t| && (|t| > 0 ==> typ != Type5) && was == Contents()
      modifies this`lenField, buf
      ensures Valid() && Contents() == was + t
    {
      hide Width;
      var curlen := Len();
      CopyInto(buf, curlen, t);
      buf[curlen + |t|] := 0;
      Glue(buf, curlen, curlen + |t|);
      assert buf[..curlen] == was && buf[curlen..curlen + |t|] == t;
      SetLen(curlen + |t|);
    }

    /** sdscatlen. */
    method CatLen(t: seq<byte>)
      requires Valid() && Len() + |t| < SIZE_LIMIT / 2
      modifies this, buf
      ensures Valid() && Contents() == old(Contents()) + t
      ensures buf == old(buf) || fresh(buf)
    {
      ghost var was := Contents();
      var curlen := Len();
      MakeRoomFor(|t|);
      Put(was, t);
    }

    /** sdsgrowzero. */
    method GrowZero(len: nat)
      requires Valid() && len < SIZE_LIMIT / 2
      modifies this, buf
      ensures Valid() && (buf == old(buf) || fresh(buf))
      ensures Contents() == old(Contents()) + Zeros(len - old(Len()))
    {
      ghost var was := Contents();
      var curlen := Len();
      if len <= curlen {
        assert was + [] == was;
        return;
      }
      MakeRoomFor(len - curlen);
      Put(was, Zeros(len - curlen));
    }

    /** sdsrange: keeps an inclusive range, moving it to the front in place. */
    method Range(start0: int, end0: int) returns (ok: bool)
      requires Valid()
      modifies this`lenField, buf
      ensures Valid() && (ok <==> old(Len()) <= SSIZE_MAX)
      ensures Contents() == if ok then SdsRange(old(Contents()), start0, end0) else old(Contents())
    {
      var len := Len();
      if len > SSIZE_MAX { return false; }
      if len == 0 { return true; }
      ghost var was := Contents();
      var start, newlen := RangeBounds(was, len, start0, end0);
      RangeIs(was, start0, end0, start, newlen);
      if start != 0 && newlen != 0 {
        MoveDown(start, newlen);
        assert buf[..newlen] == was[start..start + newlen];
      }
      assert buf[..newlen] == SdsRange(was, start0, end0);
      CutAt(newlen);
      return true;
    }

    method CutAt(newlen: nat)
      requires newlen <= Len() <= Alloc() < Width(typ) && Alloc() < buf.Length
      modifies this`lenField, buf
      ensures Valid() && Contents() == old(buf[..newlen])
    {
      buf[newlen] := 0;
      SetLen(newlen);
    }

    /** memmove(s, s + start, n) towards lower addresses. */
    method MoveDown(start: nat, n: nat)
      requires start + n <= buf.Length
      modifies buf
      ensures buf[..n] == old(buf[start..start + n])
    {
      ghost var raw := buf[..];
      var i := 0;
      while i < n
        invariant 0 <= i <= n
        invariant forall k :: 0 <= k < i ==> buf[k] == raw[start + k]
        invariant forall k :: start + i <= k < buf.Length ==> buf[k] == raw[k]
      {
        buf[i] := buf[start + i];
        i := i + 1;
      }
      assert raw[start..start + n] == buf[..n];
    }
  }

  /** The index arithmetic of sdsrange: where the kept range starts and how long it is. */
  method RangeBounds(ghost s: seq<byte>, len: nat, start0: int, end0: int) returns (start: int, newlen: int)
    requires len > 0 && |s| == len
    ensures 0 <= newlen && (newlen == 0 || (0 <= start && start + newlen <= len))
    ensures newlen == 0 || start == if start0 < 0 then (if len + start0 < 0 then 0 else len + start0) else start0
    ensures newlen == 0 ==> SdsRange(s, start0, end0) == []
    ensures newlen > 0 ==> SdsRange(s, start0, end0) == s[start..start + newlen]
  {
    start := start0;
    var end := end0;
    if start < 0 {
      start := len + start;
      if start < 0 { start := 0; }
    }
    if end < 0 {
      end := len + end;
      if end < 0 { end := 0; }
    }
    newlen := if start > end then 0 else end - start + 1;
    if newlen != 0 {
      if start >= len {
        newlen := 0;
      } else if end >= len {
        end := len - 1;
        newlen := if start > end then 0 else end - start + 1;
      }
    } else {
      start := 0;
    }
  }

  lemma {:induction false} RangeIs(s: seq<byte>, start0: int, end0: int, start: int, newlen: int)
    requires newlen == 0 || (0 <= start && 0 <= newlen && start + newlen <= |s|)
    requires newlen == 0 ==> SdsRange(s, start0, end0) == []
    requires newlen > 0 ==> SdsRange(s, start0, end0) == s[start..start + newlen]
    ensures newlen >= 0 && (start == 0 || newlen == 0) ==> SdsRange(s, start0, end0) == s[..newlen]
  {
  }

  function Zeros(n: int): (s: seq<byte>)
    ensures |s| == if n < 0 then 0 else n
    ensures forall i :: 0 <= i < |s| ==> s[i] == 0
  {
    if n <= 0 then [] else seq(n, _ => 0)
  }

  // ---- The output buffer of a connection ----

  datatype Event = Append(cmd: seq<byte>) | Write(accepted: int)

  /** hiredis.c: commands are appended to obuf, writes hand any prefix of it to the socket. */
  class Connection {
    var err: bool
    var obuf: Sds
    ghost var wire: seq<byte>
    ghost var submitted: seq<byte>

    ghost predicate Valid()
      reads this, obuf, obuf.buf
    {
      obuf.Valid() && wire + obuf.Contents() == submitted
    }

    constructor ()
      ensures Valid() && !err && wire == [] && submitted == [] && fresh(obuf) && fresh(obuf.buf)
    {
      obuf := new Sds.NewLen([]);
      err, wire, submitted := false, [], [];
    }

    /** __redisAppendCommand. */
    method AppendCommand(cmd: seq<byte>)
      requires Valid() && obuf.Len() + |cmd| < SIZE_LIMIT / 2
      modifies this`submitted, obuf, obuf.buf
      ensures Valid() && submitted == old(submitted) + cmd && wire == old(wire)
      ensures obuf.buf == old(obuf.buf) || fresh(obuf.buf)
    {
      ghost var was := obuf.Contents();
      obuf.CatLen(cmd);
      submitted := submitted + cmd;
      assert wire + (was + cmd) == wire + was + cmd;
    }

    /**
     redisBufferWrite, the socket accepting `accepted` bytes; a negative count is a failed write, after which the
     context writes nothing more.
     */
    method BufferWrite(accepted: int) returns (ok: bool, done: bool)
      requires Valid() && accepted <= obuf.Len() <= SSIZE_MAX
      modifies this`wire, this`obuf, this`err, obuf, obuf.buf
      ensures Valid() && (obuf == old(obuf) || fresh(obuf)) && (obuf.buf == old(obuf.buf) || fresh(obuf.buf))
      ensures ok <==> !err
      ensures err <==> old(err) || (accepted < 0 && old(obuf.Len()) > 0)
      ensures ok ==> wire == old(wire) + old(obuf.Contents())[..if accepted < 0 then 0 else accepted]
      ensures ok ==> (done <==> obuf.Contents() == [])
      ensures !ok ==> wire == old(wire) && obuf == old(obuf) && obuf.Contents() == old(obuf.Contents())
    {
      done := false;
      if err { return false, done; }
      ghost var was := obuf.Contents();
      if obuf.Len() > 0 {
        var nwritten := accepted;
        if nwritten < 0 {
          err := true;
          return false, done;
        } else if nwritten > 0 {
          if nwritten == obuf.Len() {
            assert was[..nwritten] == was;
            obuf := new Sds.NewLen([]);
            assert wire + was + [] == wire + was;
          } else {
            SdsRangeDrops(was, nwritten);
            var moved := obuf.Range(nwritten, -1);
            assert was == was[..nwritten] + was[nwritten..];
          }
          ghost var sent := was[..nwritten];
          assert wire + sent + obuf.Contents() == wire + (sent + obuf.Contents());
          wire := wire + sent;
        }
      }
      assert accepted <= 0 ==> old(wire) + was[..0] == old(wire);
      done := obuf.Len() == 0;
      return true, done;
    }

    /** What the whole schedule submits. */
    static ghost function Appended(events: seq<Event>): seq<byte> {
      if events == [] then []
      else Appended(events[..|events| - 1]) + match events[|events| - 1] case Append(cmd) => cmd case Write(_) => []
    }

    static function TotalSize(events: seq<Event>): nat {
      if events == [] then 0
      else TotalSize(events[..|events| - 1]) + match events[|events| - 1] case Append(cmd) => |cmd| case Write(_) => 0
    }

    static lemma {:induction false} PrefixSize(events: seq<Event>, i: nat)
      requires i <= |events|
      ensures TotalSize(events[..i]) <= TotalSize(events)
      decreases |events|
    {
      if i < |events| {
        PrefixSize(events[..|events| - 1], i);
        assert events[..|events| - 1][..i] == events[..i];
      } else {
        assert events[..i] == events;
      }
    }

    static lemma {:induction false} NothingYet()
      ensures Appended([]) == [] && TotalSize([]) == 0
    {
    }

    static lemma {:induction false} OneEvent(events: seq<Event>, i: nat)
      requires i < |events|
      ensures Appended(events[..i + 1]) == Appended(events[..i]) + if events[i].Append? then events[i].cmd else []
      ensures TotalSize(events[..i + 1]) == TotalSize(events[..i]) + if events[i].Append? then |events[i].cmd| else 0
      ensures TotalSize(events[..i + 1]) <= TotalSize(events)
    {
      assert events[..i + 1][..i] == events[..i];
      PrefixSize(events, i + 1);
    }

    /**
     Over every schedule of appends and partial or failing writes: nothing is lost, duplicated or reordered between
     the callers, the buffer and the wire.
     */
    method Run(events: seq<Event>)
      requires Valid() && !err && wire == [] && submitted == []
      requires TotalSize(events) < SIZE_LIMIT / 2
      modifies this, obuf, obuf.buf
      ensures Valid() && wire + obuf.Contents() == Appended(events)
    {
      hide Appended, TotalSize, Width;
      NothingYet();
      assert events[..0] == [];
      var i := 0;
      while i < |events|
        invariant 0 <= i <= |events| && Valid()
        invariant obuf == old(obuf) || fresh(obuf)
        invariant obuf.buf == old(obuf.buf) || fresh(obuf.buf)
        invariant submitted == Appended(events[..i]) && |submitted| <= TotalSize(events[..i])
      {
        OneEvent(events, i);
        match events[i] {
          case Append(cmd) =>
            AppendCommand(cmd);
          case Write(n) =>
            assert submitted + [] == submitted;
            var ok, done := BufferWrite(if n > obuf.Len() then obuf.Len() else n);
        }
        i := i + 1;
      }
      assert events[..i] == events;
    }
  }
}
