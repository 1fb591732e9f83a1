/**
 The subscription tables of async.c: how commands enter them, how replies are routed through them, and what
 they mean over whole runs against a server that answers in order.
 */
module PubSub {
  import opened Bytes
  import opened Resp
  import opened CallbackQueue

  type Name = seq<byte>

  datatype SubState = SubState(channels: map<Name, Callback>, patterns: map<Name, Callback>, subscribed: bool)

  function Table(st: SubState, pat: bool): map<Name, Callback> {
    if pat then st.patterns else st.channels
  }

  function WithTable(st: SubState, pat: bool, t: map<Name, Callback>): SubState {
    if pat then st.(patterns := t) else st.(channels := t)
  }

  // ---- Commands ----

  const SUBSCRIBE: seq<byte> := [115, 117, 98, 115, 99, 114, 105, 98, 101]
  const UNSUBSCRIBE: seq<byte> := [117, 110] + SUBSCRIBE
  const MONITOR: seq<byte> := [109, 111, 110, 105, 116, 111, 114]

  datatype CommandKind = RegularCmd | SubscribeCmd(pat: bool) | UnsubscribeCmd(pat: bool) | MonitorCmd

  /** strncasecmp(s, lit, |lit|) == 0 for a literal without NUL. */
  predicate StartsWith(s: seq<byte>, lit: seq<byte>) {
    |s| >= |lit| && Lower(s[..|lit|]) == lit
  }

  predicate StartsWithP(s: seq<byte>) {
    s != [] && (s[0] == 112 || s[0] == 80)
  }

  /** Which command a formatted argument vector is; each argument is followed by CRLF in the buffer. */
  function Classify(argv: seq<seq<byte>>): CommandKind
    requires argv != []
  {
    var pat := StartsWithP(argv[0]);
    var cstr := (if pat then argv[0][1..] else argv[0]) + CRLF;
    if |argv| > 1 && StartsWith(cstr, SUBSCRIBE + CRLF) then SubscribeCmd(pat)
    else if StartsWith(cstr, UNSUBSCRIBE + CRLF) then UnsubscribeCmd(pat)
    else if StartsWith(cstr, MONITOR + CRLF) then MonitorCmd
    else RegularCmd
  }

  /** The bytes of an argument up to its first CRLF; usually all of it. */
  function Word(arg: seq<byte>): (w: seq<byte>)
    ensures |w| <= |arg|
  {
    WordEnds(arg);
    arg[..FindCRLF(arg + CRLF).value]
  }

  lemma {:induction false} WordEnds(arg: seq<byte>)
    ensures FindCRLF(arg + CRLF).Some? && FindCRLF(arg + CRLF).value <= |arg|
  {
    assert LineEndAt(arg + CRLF, |arg|);
  }

  /** Comparing a name and its CRLF compares the whole word. */
  lemma {:induction false} StartsWithLine(arg: seq<byte>, lit: seq<byte>)
    requires forall i :: 0 <= i < |lit| ==> lit[i] > 90
    ensures StartsWith(arg + CRLF, lit + CRLF) <==> Lower(Word(arg)) == lit
  {
    WordEnds(arg);
    var s, n := arg + CRLF, |lit|;
    if StartsWith(s, lit + CRLF) {
      var low := Lower(s[..n + 2]);
      assert low == lit + CRLF;
      forall i | 0 <= i < n + 2 ensures low[i] == (if 65 <= s[i] <= 90 then s[i] + 32 else s[i]) {
        assert s[..n + 2][i] == s[i];
      }
      forall i | 0 <= i < n ensures low[i] == lit[i] && s[i] != CR {
        assert (lit + CRLF)[i] == lit[i];
      }
      assert low[n] == CR && low[n + 1] == LF;
      assert LineEndAt(s, n);
      assert FindCRLF(s) == Some(n);
      assert Lower(Word(arg)) == lit by {
        assert forall i :: 0 <= i < n ==> Lower(Word(arg))[i] == low[i];
      }
    }
    if Lower(Word(arg)) == lit {
      assert LineEndAt(s, n);
      assert Lower(s[..n + 2]) == lit + CRLF by {
        assert forall i :: 0 <= i < n ==> Lower(s[..n + 2])[i] == Lower(Word(arg))[i];
      }
    }
  }

  /** A leading p or P belongs to the word. */
  lemma {:induction false} WordOfPattern(arg: seq<byte>, lit: seq<byte>)
    requires StartsWithP(arg)
    ensures Lower(Word(arg)) == [112] + lit <==> Lower(Word(arg[1..])) == lit
  {
    WordEnds(arg);
    WordEnds(arg[1..]);
    var s := arg + CRLF;
    assert s[1..] == arg[1..] + CRLF;
    forall i | 1 <= i ensures LineEndAt(s, i) <==> LineEndAt(s[1..], i - 1) {
    }
    assert !LineEndAt(s, 0);
    var a, b := FindCRLF(s).value, FindCRLF(s[1..]).value;
    assert LineEndAt(s, b + 1) && LineEndAt(s[1..], a - 1);
    assert a == b + 1;
    assert Word(arg) == [arg[0]] + Word(arg[1..]);
    assert Lower(Word(arg)) == Lower([arg[0]]) + Lower(Word(arg[1..]));
    assert Lower([arg[0]]) == [112];
    assert ([112] + Lower(Word(arg[1..])))[1..] == Lower(Word(arg[1..]));
    assert ([112] + lit)[1..] == lit;
  }

  lemma {:induction false} PatternWord(arg: seq<byte>)
    requires StartsWithP(arg)
    ensures Word(arg) != [] && Lower(Word(arg))[0] == 112
  {
    WordEnds(arg);
    assert (arg + CRLF)[0] == arg[0];
  }

  lemma {:induction false} WordOfPlain(arg: seq<byte>, lit: seq<byte>)
    requires !StartsWithP(arg)
    ensures Lower(Word(arg)) != [112] + lit
  {
    if Word(arg) != [] {
      WordEnds(arg);
      var c := Word(arg)[0];
      assert c == arg[0] && c != 112 && c != 80;
      assert Lower(Word(arg))[0] == (if 65 <= c <= 90 then c + 32 else c);
    }
  }

  function Spelled(pat: bool, lit: seq<byte>): seq<byte> {
    (if pat then [112] else []) + lit
  }

  /** Which command an argument vector is, by its first word in any case; a subscribe needs a name to subscribe to. */
  lemma {:induction false} ClassifyIs(argv: seq<seq<byte>>, pat: bool)
    requires argv != []
    ensures var word := Lower(Word(argv[0]));
            && (Classify(argv) == SubscribeCmd(pat) <==> |argv| > 1 && word == Spelled(pat, SUBSCRIBE))
            && (Classify(argv) == UnsubscribeCmd(pat) <==> word == Spelled(pat, UNSUBSCRIBE))
            && (Classify(argv) == MonitorCmd <==> word == MONITOR || word == Spelled(true, MONITOR))
  {
    var arg := argv[0];
    var p := StartsWithP(arg);
    forall lit | lit == SUBSCRIBE || lit == UNSUBSCRIBE || lit == MONITOR
      ensures StartsWith((if p then arg[1..] else arg) + CRLF, lit + CRLF) <==> Lower(Word(arg)) == Spelled(p, lit)
      ensures Lower(Word(arg)) != Spelled(!p, lit)
    {
      StartsWithLine(if p then arg[1..] else arg, lit);
      Spelling(arg, lit);
    }
    assert SUBSCRIBE != UNSUBSCRIBE && SUBSCRIBE != MONITOR && UNSUBSCRIBE != MONITOR;
  }

  /** A word is spelled with a leading p exactly when the argument has one. */
  lemma {:induction false} Spelling(arg: seq<byte>, lit: seq<byte>)
    requires lit != [] && lit[0] != 112
    ensures var p := StartsWithP(arg);
            && (Lower(Word(arg)) == Spelled(p, lit) <==> Lower(Word(if p then arg[1..] else arg)) == lit)
            && Lower(Word(arg)) != Spelled(!p, lit)
  {
    if StartsWithP(arg) {
      WordOfPattern(arg, lit);
      PatternWord(arg);
    } else {
      WordOfPlain(arg, lit);
    }
  }

  /**
   The loop over the names of one SUBSCRIBE: an existing entry hands its count, plus one, on to the new entry;
   the count is not reset for the names that follow.
   */
  function AddAll(t: map<Name, Callback>, names: seq<Name>, cb: Callback, pending: int): map<Name, Callback>
    decreases |names|
  {
    if names == [] then t
    else
      var pending' := if names[0] in t then t[names[0]].pendingSubs + 1 else pending;
      AddAll(t[names[0] := cb.(pendingSubs := pending')], names[1..], cb, pending')
  }

  /** The count that the loop hands on after the last name. */
  function Carry(t: map<Name, Callback>, names: seq<Name>, cb: Callback, pending: int): int
    decreases |names|
  {
    if names == [] then pending
    else
      var pending' := if names[0] in t then t[names[0]].pendingSubs + 1 else pending;
      Carry(t[names[0] := cb.(pendingSubs := pending')], names[1..], cb, pending')
  }

  function IssueSubscribe(st: SubState, pat: bool, names: seq<Name>, cb: Callback): SubState {
    WithTable(st, pat, AddAll(Table(st, pat), names, cb, 1)).(subscribed := true)
  }

  // ---- Replies ----

  datatype Routing = Routed(st: SubState, cb: Option<Callback>) | AssertFailed

  /** __redisGetSubscribeCallback on an array or push reply: the entry's callback, and the updated tables. */
  function Route(st: SubState, reply: Reply): Routing
    requires reply.Aggregate?
  {
    var e := reply.elements;
    if |e| < 2 || !e[0].Str? || !e[1].Str? then AssertFailed
    else
      var stype := CString(e[0].str);
      var pat := StartsWithP(stype);
      var kind := Lower(if pat then stype[1..] else stype);
      var name := e[1].str;
      var t := Table(st, pat);
      if name !in t then Routed(st, None)
      else
        var cb := if kind == SUBSCRIBE then t[name].(pendingSubs := t[name].pendingSubs - 1) else t[name];
        if kind != UNSUBSCRIBE then Routed(WithTable(st, pat, t[name := cb]), Some(cb))
        else if |e| < 3 || !e[2].Integer? then AssertFailed
        else
          var st' := WithTable(st, pat, if cb.pendingSubs == 0 then t - {name} else t[name := cb]);
          var last := e[2].integer == 0 && st'.channels == map[] && st'.patterns == map[];
          Routed(if last then st'.(subscribed := false) else st', Some(cb))
  }

  // ---- Whole runs ----

  datatype Op = Op(unsub: bool, pat: bool, name: Name)

  /** A SUBSCRIBE without names is no subscribe to the client, and an UNSUBSCRIBE without names is not modelled. */
  type Names = s: seq<Name> | s != [] witness [[]]

  datatype Event = Subscribe(pat: bool, names: Names, cb: Callback) | Unsubscribe(pat: bool, names: Names) | Answer

  /** The server answers a command name by name. */
  function OpsOf(unsub: bool, pat: bool, names: seq<Name>): seq<Op> {
    if names == [] then []
    else OpsOf(unsub, pat, names[..|names| - 1]) + [Op(unsub, pat, names[|names| - 1])]
  }

  function Newest(
    m: map<(bool, Name), Callback>, pat: bool, names: seq<Name>, cb: Callback): (r: map<(bool, Name), Callback>)
    ensures forall p, x :: (p, x) in r <==> (p, x) in m || (p == pat && x in names)
    ensures forall p, x :: (p, x) in r ==> r[(p, x)] == if p == pat && x in names then cb else m[(p, x)]
  {
    if names == [] then m else Newest(m, pat, names[..|names| - 1], cb)[(pat, names[|names| - 1]) := cb]
  }

  /**
   A client with no regular command queued and a server that answers its commands in order.  server: the
   subscriptions after the commands answered so far.  newest: the callback last given for a name.
   aborted: a reply arrived that failed the assert that the context is subscribed.
   */
  datatype World = World(
    st: SubState,
    outstanding: seq<Op>,
    server: set<(bool, Name)>,
    newest: map<(bool, Name), Callback>,
    aborted: bool)

  const START := World(SubState(map[], map[], false), [], {}, map[], false)

  function Serve(server: set<(bool, Name)>, op: Op): set<(bool, Name)> {
    if op.unsub then server - {(op.pat, op.name)} else server + {(op.pat, op.name)}
  }

  /** The RESP2 reply to one subscribe or unsubscribe: kind, name, number of remaining subscriptions. */
  function ServerReply(op: Op, count: nat): Reply {
    var kind := if op.unsub then UNSUBSCRIBE else SUBSCRIBE;
    Aggregate(Array, [Str(if op.pat then [112] + kind else kind), Str(op.name), Integer(count)])
  }

  function Step(w: World, e: Event): World {
    if w.aborted then w
    else match e
      case Subscribe(pat, names, cb) =>
        w.(st := IssueSubscribe(w.st, pat, names, cb),
           outstanding := w.outstanding + OpsOf(false, pat, names),
           newest := Newest(w.newest, pat, names, cb))
      case Unsubscribe(pat, names) =>
        if !w.st.subscribed then w else w.(outstanding := w.outstanding + OpsOf(true, pat, names))
      case Answer =>
        if w.outstanding == [] then w
        else if !w.st.subscribed then w.(aborted := true)
        else
          var server := Serve(w.server, w.outstanding[0]);
          match Route(w.st, ServerReply(w.outstanding[0], |server|))
          case AssertFailed => w.(aborted := true)
          case Routed(st, _) => w.(st := st, outstanding := w.outstanding[1..], server := server)
  }

  function Run(w: World, events: seq<Event>): World
    decreases |events|
  {
    if events == [] then w else Step(Run(w, events[..|events| - 1]), events[|events| - 1])
  }

  /** Unanswered subscribes of a name. */
  function Pend(ops: seq<Op>, pat: bool, name: Name): nat {
    if ops == [] then 0
    else (if ops[0] == Op(false, pat, name) then 1 else 0) + Pend(ops[1..], pat, name)
  }

  /** The entry of one name is what the unanswered and the answered commands say it must be. */
  ghost predicate EntryOk(w: World, pat: bool, name: Name) {
    var t, n := Table(w.st, pat), Pend(w.outstanding, pat, name);
    && (name in t <==> n > 0 || (pat, name) in w.server)
    && (name in t ==>
          && t[name].pendingSubs == n
          && (pat, name) in w.newest
          && t[name] == w.newest[(pat, name)].(pendingSubs := n))
  }

  ghost predicate TablesOk(w: World) {
    && (forall pat, name :: EntryOk(w, pat, name))
    && (w.st.subscribed <==> w.st.channels != map[] || w.st.patterns != map[])
  }

  lemma {:induction false} PendSnoc(ops: seq<Op>, op: Op, pat: bool, name: Name)
    ensures Pend(ops + [op], pat, name) == Pend(ops, pat, name) + if op == Op(false, pat, name) then 1 else 0
    decreases |ops|
  {
    if ops == [] {
      assert ops + [op] == [op] && [op][1..] == [];
    } else {
      assert (ops + [op])[0] == ops[0] && (ops + [op])[1..] == ops[1..] + [op];
      PendSnoc(ops[1..], op, pat, name);
    }
  }

  /** Appending the operations of a command adds the subscribes among them. */
  lemma {:induction false} PendMore(ops: seq<Op>, unsub: bool, pat: bool, names: seq<Name>, p: bool, x: Name)
    ensures Pend(ops + OpsOf(unsub, pat, names), p, x)
         == Pend(ops, p, x) + if !unsub && p == pat then Count(names, x) else 0
    decreases |names|
  {
    if names == [] {
      assert ops + [] == ops;
    } else {
      var front, last := names[..|names| - 1], names[|names| - 1];
      var op := Op(unsub, pat, last);
      assert ops + OpsOf(unsub, pat, names) == ops + OpsOf(unsub, pat, front) + [op];
      PendMore(ops, unsub, pat, front, p, x);
      PendSnoc(ops + OpsOf(unsub, pat, front), op, p, x);
    }
  }

  function Count(names: seq<Name>, x: Name): (n: nat)
    ensures n > 0 <==> x in names
  {
    if names == [] then 0
    else Count(names[..|names| - 1], x) + if names[|names| - 1] == x then 1 else 0
  }

  // ---- The count that leaks from name to name ----

  /** The name is not in the table, nor among the earlier names of the command. */
  predicate New(t: map<Name, Callback>, earlier: seq<Name>, name: Name) {
    name !in t && name !in earlier
  }

  /** The last of the names that was known, if any, had no unanswered subscribe when its turn came. */
  predicate Quiet(t: map<Name, Callback>, names: seq<Name>)
    decreases |names|
  {
    names == [] ||
    var front, last := names[..|names| - 1], names[|names| - 1];
    if New(t, front, last) then Quiet(t, front)
    else last in t && t[last].pendingSubs == 0 && last !in front
  }

  /** No new name comes after a known one that still had an unanswered subscribe, unless a quiet one is between. */
  predicate NoLeak(t: map<Name, Callback>, names: seq<Name>)
    decreases |names|
  {
    names == [] ||
    var front, last := names[..|names| - 1], names[|names| - 1];
    NoLeak(t, front) && (New(t, front, last) ==> Quiet(t, front))
  }

  /** The unanswered subscribes of x once the names are issued. */
  function Due(t: map<Name, Callback>, names: seq<Name>, x: Name): int {
    (if x in t then t[x].pendingSubs else 0) + Count(names, x)
  }

  ghost predicate CountsRight(t: map<Name, Callback>, names: seq<Name>, r: map<Name, Callback>) {
    forall x :: x in r ==> r[x].pendingSubs == Due(t, names, x)
  }

  lemma {:induction false} AddSnoc(t: map<Name, Callback>, names: seq<Name>, cb: Callback, pending: int, x: Name)
    ensures var r, c := AddAll(t, names, cb, pending), Carry(t, names, cb, pending);
            var c' := if x in r then r[x].pendingSubs + 1 else c;
            && AddAll(t, names + [x], cb, pending) == r[x := cb.(pendingSubs := c')]
            && Carry(t, names + [x], cb, pending) == c'
    decreases |names|
  {
    if names == [] {
      var c' := if x in t then t[x].pendingSubs + 1 else pending;
      assert [x][1..] == [] && names + [x] == [x];
      assert AddAll(t[x := cb.(pendingSubs := c')], [], cb, c') == t[x := cb.(pendingSubs := c')];
    } else {
      var p := if names[0] in t then t[names[0]].pendingSubs + 1 else pending;
      assert (names + [x])[0] == names[0] && (names + [x])[1..] == names[1..] + [x];
      AddSnoc(t[names[0] := cb.(pendingSubs := p)], names[1..], cb, p, x);
    }
  }

  /** What the loop leaves: at least the right counts, and exactly them if and only if none leaked. */
  ghost predicate Entered(t: map<Name, Callback>, names: seq<Name>, cb: Callback, r: map<Name, Callback>, c: int) {
    && EnteredShape(t, names, cb, r)
    && EnteredCounts(t, names, r, c)
  }

  ghost predicate EnteredShape(t: map<Name, Callback>, names: seq<Name>, cb: Callback, r: map<Name, Callback>) {
    && (forall x :: x in r <==> x in t || x in names)
    && (forall x :: x in r ==> r[x] == (if x in names then cb else t[x]).(pendingSubs := r[x].pendingSubs))
  }

  ghost predicate EnteredCounts(t: map<Name, Callback>, names: seq<Name>, r: map<Name, Callback>, c: int) {
    && (forall x :: x in r ==> r[x].pendingSubs >= Due(t, names, x))
    && c >= 1
    && (NoLeak(t, names) <==> CountsRight(t, names, r))
    && (NoLeak(t, names) ==> (c == 1 <==> Quiet(t, names)))
  }

  lemma {:induction false} EnterAll(t: map<Name, Callback>, names: seq<Name>, cb: Callback)
    requires forall x :: x in t ==> t[x].pendingSubs >= 0
    ensures Entered(t, names, cb, AddAll(t, names, cb, 1), Carry(t, names, cb, 1))
    decreases |names|
  {
    if names == [] {
      EnterNone(t, cb);
    } else {
      hide Entered, AddAll, Carry;
      var front, last := names[..|names| - 1], names[|names| - 1];
      assert names == front + [last];
      EnterAll(t, front, cb);
      AddSnoc(t, front, cb, 1, last);
      var r, c := AddAll(t, front, cb, 1), Carry(t, front, cb, 1);
      EnterOne(t, front, cb, r, c, last);
      var c' := if last in r then r[last].pendingSubs + 1 else c;
      var r' := r[last := cb.(pendingSubs := c')];
      assert AddAll(t, names, cb, 1) == r' && Carry(t, names, cb, 1) == c';
      assert Entered(t, names, cb, r', c');
    }
  }

  lemma {:induction false} EnterNone(t: map<Name, Callback>, cb: Callback)
    requires forall x :: x in t ==> t[x].pendingSubs >= 0
    ensures Entered(t, [], cb, AddAll(t, [], cb, 1), Carry(t, [], cb, 1))
  {
  }

  /** The step from the names in front to one name more. */
  lemma {:induction false} EnterOne(
    t: map<Name, Callback>, front: seq<Name>, cb: Callback, r: map<Name, Callback>, c: int, last: Name)
    requires (forall x :: x in t ==> t[x].pendingSubs >= 0) && Entered(t, front, cb, r, c)
    ensures var c' := if last in r then r[last].pendingSubs + 1 else c;
            Entered(t, front + [last], cb, r[last := cb.(pendingSubs := c')], c')
  {
    OneNameMore(t, front, last);
    EnterCounts(t, front, cb, r, c, last);
    hide EnteredCounts, Count;
  }

  lemma {:induction false} EnterCounts(
    t: map<Name, Callback>, front: seq<Name>, cb: Callback, r: map<Name, Callback>, c: int, last: Name)
    requires (forall x :: x in t ==> t[x].pendingSubs >= 0) && Entered(t, front, cb, r, c)
    ensures var c' := if last in r then r[last].pendingSubs + 1 else c;
            EnteredCounts(t, front + [last], r[last := cb.(pendingSubs := c')], c')
  {
    var names := front + [last];
    var c' := if last in r then r[last].pendingSubs + 1 else c;
    var r' := r[last := cb.(pendingSubs := c')];
    OneNameMore(t, front, last);
    assert New(t, front, last) <==> last !in r;
    hide NoLeak, Quiet, Count, New, EnteredShape;
    if CountsRight(t, names, r') {
      RightBefore(t, front, cb, r, last, c');
      assert r'[last].pendingSubs == Due(t, names, last);
    }
    hide Due;
  }

  lemma {:induction false} RightBefore(
    t: map<Name, Callback>, front: seq<Name>, cb: Callback, r: map<Name, Callback>, last: Name, c': int)
    requires CountsRight(t, front + [last], r[last := cb.(pendingSubs := c')])
    requires last in r ==> c' == r[last].pendingSubs + 1
    ensures CountsRight(t, front, r)
  {
    forall x | x in r ensures r[x].pendingSubs == Due(t, front, x) {
      OneNameMore(t, front, last);
      assert r[last := cb.(pendingSubs := c')][x].pendingSubs == Due(t, front + [last], x);
    }
  }

  lemma {:induction false} OneNameMore(t: map<Name, Callback>, front: seq<Name>, last: Name)
    ensures var names := front + [last];
            && (forall x :: x in names <==> x in front || x == last)
            && (forall x :: Due(t, names, x) == Due(t, front, x) + if x == last then 1 else 0)
            && (last !in front && last !in t ==> Due(t, front, last) == 0)
            && (last in front ==> last !in t || t[last].pendingSubs >= 0 ==> Due(t, front, last) > 0)
            && (last !in front && last in t ==> Due(t, front, last) == t[last].pendingSubs)
            && (NoLeak(t, names) <==> NoLeak(t, front) && (New(t, front, last) ==> Quiet(t, front)))
            && (New(t, front, last) ==> (Quiet(t, names) <==> Quiet(t, front)))
            && (!New(t, front, last) ==> (Quiet(t, names) <==> last in t && t[last].pendingSubs == 0 && last !in front))
  {
    var names := front + [last];
    assert names[..|front|] == front && names[|front|] == last;
  }

  /** Every name gets the right count if and only if no new name follows one that was still unanswered. */
  lemma {:induction false} CountsRightIff(t: map<Name, Callback>, names: seq<Name>, cb: Callback)
    requires forall x :: x in t ==> t[x].pendingSubs >= 0
    ensures CountsRight(t, names, AddAll(t, names, cb, 1)) <==> NoLeak(t, names)
  {
    EnterAll(t, names, cb);
  }

  /** SUBSCRIBE a a b on empty tables: b counts two unanswered subscribes where there is one. */
  lemma {:induction false} CountLeaks(a: Name, b: Name, cb: Callback)
    requires a != b
    ensures var names := [a, a, b];
            var w := Step(START, Subscribe(false, names, cb));
            && b in w.st.channels && w.st.channels[b].pendingSubs == 2 && Pend(w.outstanding, false, b) == 1
            && !NoLeak(map[], names) && !TablesOk(w)
  {
    var names := [a, a, b];
    var w := Step(START, Subscribe(false, names, cb));
    AddSnoc(map[], [], cb, 1, a);
    AddSnoc(map[], [a], cb, 1, a);
    AddSnoc(map[], [a, a], cb, 1, b);
    assert [] + [a] == [a] && [a] + [a] == [a, a] && [a, a] + [b] == names;
    PendMore([], false, false, names, false, b);
    assert [] + OpsOf(false, false, names) == w.outstanding;
    assert names[..2] == [a, a] && [a, a][..1] == [a] && [a][..0] == [];
    assert Count([a, a], b) == 0;
    CountsRightIff(map[], names, cb);
    assert Due(map[], names, b) == 1;
    assert !EntryOk(w, false, b);
  }

  /** Issuing a subscribe keeps the tables in order if and only if no count leaks. */
  lemma {:induction false} SubscribeKeepsIff(w: World, pat: bool, names: Names, cb: Callback)
    requires TablesOk(w) && !w.aborted
    ensures TablesOk(Step(w, Subscribe(pat, names, cb))) <==> NoLeak(Table(w.st, pat), names)
  {
    var w' := Step(w, Subscribe(pat, names, cb));
    var t, r := Table(w.st, pat), Table(w'.st, pat);
    forall x | x in t ensures t[x].pendingSubs >= 0 {
      assert EntryOk(w, pat, x);
    }
    EnterAll(t, names, cb);
    assert r == AddAll(t, names, cb, 1) && Table(w'.st, !pat) == Table(w.st, !pat);
    forall p, x ensures EntryOk(w', p, x) <==> (p == pat && x in r ==> r[x].pendingSubs == Due(t, names, x)) {
      assert EntryOk(w, p, x);
      PendMore(w.outstanding, false, pat, names, p, x);
      EntryAfter(w, w', pat, names, cb, p, x);
    }
    assert names[0] in r;
    if CountsRight(t, names, r) {
      assert TablesOk(w');
    }
    if TablesOk(w') {
      forall x | x in r ensures r[x].pendingSubs == Due(t, names, x) {
        assert EntryOk(w', pat, x);
      }
    }
  }

  lemma {:induction false} EntryAfter(w: World, w': World, pat: bool, names: Names, cb: Callback, p: bool, x: Name)
    requires !w.aborted && w' == Step(w, Subscribe(pat, names, cb)) && EntryOk(w, p, x)
    requires Table(w'.st, !pat) == Table(w.st, !pat)
    requires Entered(Table(w.st, pat), names, cb, Table(w'.st, pat), Carry(Table(w.st, pat), names, cb, 1))
    requires Pend(w'.outstanding, p, x) == Pend(w.outstanding, p, x) + if p == pat then Count(names, x) else 0
    ensures EntryOk(w', p, x) <==>
            (p == pat && x in Table(w'.st, pat) ==> Table(w'.st, pat)[x].pendingSubs == Due(Table(w.st, pat), names, x))
  {
    hide NoLeak, Quiet, AddAll, Carry, CountsRight;
  }

  lemma {:induction false} UnsubscribeKeeps(w: World, pat: bool, names: Names)
    requires TablesOk(w) && !w.aborted
    ensures TablesOk(Step(w, Unsubscribe(pat, names)))
  {
    var w' := Step(w, Unsubscribe(pat, names));
    forall pat', name' ensures EntryOk(w', pat', name') {
      assert EntryOk(w, pat', name');
      PendMore(w.outstanding, true, pat, names, pat', name');
    }
  }

  /** The table of the answered name after the answer. */
  function AnsweredTable(t: map<Name, Callback>, op: Op): map<Name, Callback> {
    if op.name !in t then t
    else if !op.unsub then t[op.name := t[op.name].(pendingSubs := t[op.name].pendingSubs - 1)]
    else if t[op.name].pendingSubs == 0 then t - {op.name}
    else t
  }

  /** The tables after the answer; the flag drops with the last entry. */
  function AnsweredState(st: SubState, op: Op, count: nat): SubState {
    var st' := WithTable(st, op.pat, AnsweredTable(Table(st, op.pat), op));
    var empty := st'.channels == map[] && st'.patterns == map[];
    var last := op.name in Table(st, op.pat) && op.unsub && count == 0 && empty;
    if last then st'.(subscribed := false) else st'
  }

  /** What Route makes of a server reply, in terms of the operation answered. */
  lemma {:induction false} RouteAnswer(st: SubState, op: Op, count: nat)
    ensures Route(st, ServerReply(op, count)).Routed?
    ensures Route(st, ServerReply(op, count)).st == AnsweredState(st, op, count)
    ensures var t := Table(st, op.pat);
            Route(st, ServerReply(op, count)).cb
            == if op.name !in t then None
               else Some(t[op.name].(pendingSubs := t[op.name].pendingSubs - if op.unsub then 0 else 1))
  {
    ReplyWord(op.pat, op.unsub);
    hide Lower, CString, StartsWithP;
    var t := Table(st, op.pat);
    if op.name in t {
      assert t[op.name := t[op.name]] == t;
      assert WithTable(st, op.pat, t) == st;
    }
  }

  /** How the first word of a server reply is recognised. */
  lemma {:induction false} ReplyWord(pat: bool, unsub: bool)
    ensures var kind := if unsub then UNSUBSCRIBE else SUBSCRIBE;
            var word := if pat then [112] + kind else kind;
            && CString(word) == word && StartsWithP(word) == pat
            && Lower(if pat then word[1..] else word) == kind && SUBSCRIBE != UNSUBSCRIBE
  {
    hide CString, Lower, StartsWithP;
    WordOf(SUBSCRIBE, pat);
    WordOf(UNSUBSCRIBE, pat);
    assert |SUBSCRIBE| != |UNSUBSCRIBE|;
  }

  lemma {:induction false} WordOf(kind: seq<byte>, pat: bool)
    requires kind != [] && kind[0] != 112 && forall i :: 0 <= i < |kind| ==> kind[i] > 90
    ensures var word := if pat then [112] + kind else kind;
            && CString(word) == word && StartsWithP(word) == pat
            && Lower(if pat then word[1..] else word) == kind
  {
    PlainWord(if pat then [112] + kind else kind);
    assert ([112] + kind)[1..] == kind;
    LowerFixed(kind);
  }

  lemma {:induction false} LowerFixed(s: seq<byte>)
    requires forall i :: 0 <= i < |s| ==> s[i] > 90
    ensures Lower(s) == s
  {
  }

  lemma {:induction false} PlainWord(s: seq<byte>)
    requires forall i :: 0 <= i < |s| ==> s[i] != 0
    ensures CString(s) == s
    decreases |s|
  {
    if s != [] {
      PlainWord(s[1..]);
      assert [s[0]] + s[1..] == s;
    }
  }

  /** An answered command whose tables are in order leaves them in order, and never fails an assert. */
  lemma {:induction false} AnswerKeeps(w: World)
    requires TablesOk(w) && !w.aborted && w.outstanding != [] && w.st.subscribed
    ensures TablesOk(Step(w, Answer)) && !Step(w, Answer).aborted
  {
    var op := w.outstanding[0];
    var w' := Step(w, Answer);
    RouteAnswer(w.st, op, |Serve(w.server, op)|);
    hide Route;
    assert EntryOk(w, op.pat, op.name);
    forall pat', name' ensures EntryOk(w', pat', name') {
      AnswerEntry(w, pat', name');
    }
    if w'.st.channels == map[] && w'.st.patterns == map[] {
      NoEntries(w');
    }
  }

  lemma {:induction false} AnswerTables(w: World)
    requires !w.aborted && w.outstanding != [] && w.st.subscribed
    ensures var op, w' := w.outstanding[0], Step(w, Answer);
            && !w'.aborted && w'.outstanding == w.outstanding[1..] && w'.server == Serve(w.server, op)
            && w'.newest == w.newest
            && Table(w'.st, op.pat) == AnsweredTable(Table(w.st, op.pat), op)
            && Table(w'.st, !op.pat) == Table(w.st, !op.pat)
  {
    var op := w.outstanding[0];
    RouteAnswer(w.st, op, |Serve(w.server, op)|);
    hide Route, ServerReply;
  }

  lemma {:induction false} AnswerEntry(w: World, pat: bool, name: Name)
    requires TablesOk(w) && !w.aborted && w.outstanding != [] && w.st.subscribed
    ensures !Step(w, Answer).aborted && EntryOk(Step(w, Answer), pat, name)
  {
    var op := w.outstanding[0];
    AnswerTables(w);
    assert EntryOk(w, pat, name);
    assert Pend(w.outstanding, pat, name)
        == (if op == Op(false, pat, name) then 1 else 0) + Pend(w.outstanding[1..], pat, name);
    hide Step, Table;
  }

  lemma {:induction false} SubscribedHasEntry(w: World, x: (bool, Name))
    requires (forall pat, name :: EntryOk(w, pat, name)) && x in w.server
    ensures x.1 in Table(w.st, x.0)
  {
    assert EntryOk(w, x.0, x.1);
  }

  lemma {:induction false} NoEntries(w: World)
    requires (forall pat, name :: EntryOk(w, pat, name)) && w.st.channels == map[] && w.st.patterns == map[]
    ensures w.server == {}
  {
    if w.server != {} {
      var x :| x in w.server;
      SubscribedHasEntry(w, x);
    }
  }

  /** No subscribe of the run leaks a count. */
  predicate NoLeaks(events: seq<Event>)
    decreases |events|
  {
    events == [] ||
    var front := events[..|events| - 1];
    NoLeaks(front) && Passes(Run(START, front), events[|events| - 1])
  }

  predicate Passes(w: World, e: Event) {
    !w.aborted && e.Subscribe? ==> NoLeak(Table(w.st, e.pat), e.names)
  }

  ghost predicate Orderly(w: World) {
    w.aborted || TablesOk(w)
  }

  lemma {:induction false} StepOrderlyIff(w: World, e: Event)
    requires Orderly(w)
    ensures Orderly(Step(w, e)) <==> Passes(w, e)
  {
    if !w.aborted {
      match e
      case Subscribe(pat, names, cb) => SubscribeKeepsIff(w, pat, names, cb);
      case Unsubscribe(pat, names) => UnsubscribeKeeps(w, pat, names);
      case Answer =>
        if w.outstanding != [] && w.st.subscribed {
          AnswerKeeps(w);
        }
    }
  }

  /** The tables are in order after every event of the run, unless the context aborted. */
  ghost predicate AlwaysOrderly(events: seq<Event>)
    decreases |events|
  {
    Orderly(Run(START, events)) && (events != [] ==> AlwaysOrderly(events[..|events| - 1]))
  }

  /**
   Over every interleaving of subscribes, unsubscribes and in-order answers: the tables are in order all along if and
   only if no subscribe leaks a count.
   */
  lemma {:induction false} TablesOkOverRuns(events: seq<Event>)
    ensures AlwaysOrderly(events) <==> NoLeaks(events)
    decreases |events|
  {
    if events == [] {
      assert TablesOk(START);
    } else {
      var n := |events| - 1;
      TablesOkOverRuns(events[..n]);
      if Orderly(Run(START, events[..n])) {
        StepOrderlyIff(Run(START, events[..n]), events[n]);
      }
    }
  }

  /** A run of commands that name one channel or pattern each leaks nothing. */
  lemma {:induction false} SingleNamesPass(events: seq<Event>)
    requires forall i :: 0 <= i < |events| && events[i].Subscribe? ==> |events[i].names| == 1
    ensures NoLeaks(events) && Orderly(Run(START, events))
    decreases |events|
  {
    if events == [] {
      assert TablesOk(START);
    } else {
      var n := |events| - 1;
      SingleNamesPass(events[..n]);
      var e, w := events[n], Run(START, events[..n]);
      if e.Subscribe? {
        assert e.names[..0] == [] && NoLeak(Table(w.st, e.pat), []) && Quiet(Table(w.st, e.pat), []);
        assert NoLeak(Table(w.st, e.pat), e.names);
      }
      StepOrderlyIff(w, e);
    }
  }

  // ---- When a run aborts ----

  function ServeAll(server: set<(bool, Name)>, ops: seq<Op>): set<(bool, Name)>
    decreases |ops|
  {
    if ops == [] then server else ServeAll(Serve(server, ops[0]), ops[1..])
  }

  predicate HasSubscribe(ops: seq<Op>) {
    exists i :: 0 <= i < |ops| && !ops[i].unsub
  }

  /** Operation k is answered when nothing is subscribed and no later subscribe is on its way. */
  predicate Orphan(server: set<(bool, Name)>, ops: seq<Op>, k: nat) {
    k < |ops| && ServeAll(server, ops[..k]) == {} && !HasSubscribe(ops[k..])
  }

  /** All outstanding commands answered, nothing further issued. */
  function Drain(w: World): World
    decreases |w.outstanding|
  {
    if w.aborted || w.outstanding == [] then w
    else
      var w' := Step(w, Answer);
      if |w'.outstanding| < |w.outstanding| then Drain(w') else w'
  }

  lemma {:induction false} PendPositive(ops: seq<Op>, i: nat)
    requires i < |ops| && !ops[i].unsub
    ensures Pend(ops, ops[i].pat, ops[i].name) > 0
    decreases i
  {
    if i > 0 {
      PendPositive(ops[1..], i - 1);
    }
  }

  lemma {:induction false} PendFound(ops: seq<Op>, pat: bool, name: Name)
    requires Pend(ops, pat, name) > 0
    ensures HasSubscribe(ops)
    decreases |ops|
  {
    if ops[0].unsub {
      PendFound(ops[1..], pat, name);
      var i :| 0 <= i < |ops[1..]| && !ops[1..][i].unsub;
      assert !ops[i + 1].unsub;
    } else {
      assert !ops[0].unsub;
    }
  }

  /** The context counts as subscribed exactly while something is subscribed or a subscribe is unanswered. */
  lemma {:induction false} SubscribedIff(w: World)
    requires TablesOk(w)
    ensures w.st.subscribed <==> w.server != {} || HasSubscribe(w.outstanding)
  {
    if w.server != {} {
      var x :| x in w.server;
      assert EntryOk(w, x.0, x.1);
    }
    if HasSubscribe(w.outstanding) {
      var i :| 0 <= i < |w.outstanding| && !w.outstanding[i].unsub;
      PendPositive(w.outstanding, i);
      assert EntryOk(w, w.outstanding[i].pat, w.outstanding[i].name);
    }
    if w.st.subscribed {
      var pat := w.st.patterns != map[];
      var name :| name in Table(w.st, pat);
      assert EntryOk(w, pat, name);
      if Pend(w.outstanding, pat, name) > 0 {
        PendFound(w.outstanding, pat, name);
      }
    }
  }

  /**
   The assert in redisProcessCallbacks is not safe against every pipeline.  Answering what is outstanding
   aborts if and only if some unsubscribe is answered with nothing left to unsubscribe from.
   */
  lemma {:induction false} DrainAbortsIff(w: World)
    requires TablesOk(w) && !w.aborted
    ensures Drain(w).aborted <==> exists k: nat :: Orphan(w.server, w.outstanding, k)
    decreases |w.outstanding|
  {
    var ops := w.outstanding;
    SubscribedIff(w);
    if ops != [] {
      assert ops[0..] == ops && ops[..0] == [];
      if !w.st.subscribed {
        assert Orphan(w.server, ops, 0);
      } else {
        AnswerKeeps(w);
        var w' := Step(w, Answer);
        RouteAnswer(w.st, ops[0], |w'.server|);
        DrainAbortsIff(w');
        assert !Orphan(w.server, ops, 0);
        forall k: nat | k > 0 ensures Orphan(w.server, ops, k) <==> Orphan(w'.server, w'.outstanding, k - 1) {
          if k < |ops| {
            assert ops[..k][0] == ops[0] && ops[..k][1..] == ops[1..][..k - 1];
            assert ops[k..] == ops[1..][k - 1..];
          }
        }
        if k: nat :| Orphan(w.server, ops, k) {
          assert Orphan(w'.server, w'.outstanding, k - 1);
        }
        if k: nat :| Orphan(w'.server, w'.outstanding, k) {
          assert Orphan(w.server, ops, k + 1);
        }
      }
    }
  }

  /** SUBSCRIBE a, UNSUBSCRIBE a, UNSUBSCRIBE a, all issued before the first answer: the third answer aborts. */
  lemma {:induction false} DoubleUnsubscribeAborts(name: Name, cb: Callback)
    ensures var issued := [Subscribe(false, [name], cb), Unsubscribe(false, [name]), Unsubscribe(false, [name])];
            && TablesOk(Run(START, issued)) && !Run(START, issued).aborted
            && Drain(Run(START, issued)).aborted
  {
    var e1, e2 := Subscribe(false, [name], cb), Unsubscribe(false, [name]);
    var w1 := Step(START, e1);
    var w2 := Step(w1, e2);
    var w := Step(w2, e2);
    assert TablesOk(START);
    assert [name][..0] == [];
    SubscribeKeepsIff(START, false, [name], cb);
    UnsubscribeKeeps(w1, false, [name]);
    UnsubscribeKeeps(w2, false, [name]);
    ThreeEvents(e1, e2, e2);
    assert OpsOf(false, false, [name]) == [Op(false, false, name)];
    assert OpsOf(true, false, [name]) == [Op(true, false, name)];
    var ops := w.outstanding;
    assert ops == [Op(false, false, name), Op(true, false, name), Op(true, false, name)];
    assert ops[..2] == [ops[0], ops[1]] && [ops[0], ops[1]][1..] == [ops[1]] && [ops[1]][1..] == [];
    assert ServeAll({}, ops[..2]) == ServeAll(Serve({}, ops[0]), [ops[1]]) == ServeAll({}, []) == {};
    assert Orphan(w.server, ops, 2);
    DrainAbortsIff(w);
  }

  lemma {:induction false} ThreeEvents(a: Event, b: Event, c: Event)
    ensures Run(START, [a, b, c]) == Step(Step(Step(START, a), b), c)
  {
    assert [a, b, c][..2] == [a, b] && [a, b][..1] == [a] && [a][..0] == [];
    assert Run(START, [a]) == Step(START, a);
    assert Run(START, [a, b]) == Step(Run(START, [a]), b);
  }

  // ---- Runs in which a count leaked ----

  /** What holds of an entry in every run: its count is at least that of the unanswered subscribes. */
  ghost predicate EntrySafe(w: World, pat: bool, name: Name) {
    var t, n := Table(w.st, pat), Pend(w.outstanding, pat, name);
    && (n > 0 || (pat, name) in w.server ==> name in t)
    && (name in t ==>
          && t[name].pendingSubs >= n
          && (t[name].pendingSubs == n ==> n > 0 || (pat, name) in w.server)
          && (pat, name) in w.newest
          && t[name] == w.newest[(pat, name)].(pendingSubs := t[name].pendingSubs))
  }

  ghost predicate TablesSafe(w: World) {
    && (forall pat, name :: EntrySafe(w, pat, name))
    && (w.st.subscribed <==> w.st.channels != map[] || w.st.patterns != map[])
  }

  /** The count of the entry is too high. */
  predicate LeakedEntry(w: World, pat: bool, name: Name) {
    name in Table(w.st, pat) && Table(w.st, pat)[name].pendingSubs > Pend(w.outstanding, pat, name)
  }

  ghost predicate Leaked(w: World) {
    exists pat, name :: LeakedEntry(w, pat, name)
  }

  lemma {:induction false} SafeAndTight(w: World)
    requires TablesSafe(w)
    ensures TablesOk(w) <==> !Leaked(w)
  {
    if !Leaked(w) {
      forall pat, name ensures EntryOk(w, pat, name) {
        assert EntrySafe(w, pat, name) && !LeakedEntry(w, pat, name);
      }
    }
    if pat, name :| LeakedEntry(w, pat, name) {
      assert !EntryOk(w, pat, name);
    }
  }

  lemma {:induction false} SubscribeIsSafe(w: World, pat: bool, names: Names, cb: Callback)
    requires TablesSafe(w) && !w.aborted
    ensures TablesSafe(Step(w, Subscribe(pat, names, cb)))
  {
    var w' := Step(w, Subscribe(pat, names, cb));
    var t, r := Table(w.st, pat), Table(w'.st, pat);
    forall x | x in t ensures t[x].pendingSubs >= 0 {
      assert EntrySafe(w, pat, x);
    }
    EnterAll(t, names, cb);
    assert r == AddAll(t, names, cb, 1) && Table(w'.st, !pat) == Table(w.st, !pat);
    forall p, x ensures EntrySafe(w', p, x) {
      assert EntrySafe(w, p, x);
      PendMore(w.outstanding, false, pat, names, p, x);
      SafeAfter(w, w', pat, names, cb, p, x);
    }
    assert names[0] in r;
  }

  lemma {:induction false} SafeAfter(w: World, w': World, pat: bool, names: Names, cb: Callback, p: bool, x: Name)
    requires !w.aborted && w' == Step(w, Subscribe(pat, names, cb)) && EntrySafe(w, p, x)
    requires Table(w'.st, !pat) == Table(w.st, !pat)
    requires Entered(Table(w.st, pat), names, cb, Table(w'.st, pat), Carry(Table(w.st, pat), names, cb, 1))
    requires Pend(w'.outstanding, p, x) == Pend(w.outstanding, p, x) + if p == pat then Count(names, x) else 0
    ensures EntrySafe(w', p, x)
  {
    hide NoLeak, Quiet, AddAll, Carry, CountsRight;
  }

  lemma {:induction false} UnsubscribeIsSafe(w: World, pat: bool, names: Names)
    requires TablesSafe(w) && !w.aborted
    ensures TablesSafe(Step(w, Unsubscribe(pat, names)))
  {
    var w' := Step(w, Unsubscribe(pat, names));
    forall p, x ensures EntrySafe(w', p, x) {
      assert EntrySafe(w, p, x);
      PendMore(w.outstanding, true, pat, names, p, x);
    }
  }

  lemma {:induction false} AnswerIsSafe(w: World)
    requires TablesSafe(w) && !w.aborted && w.outstanding != [] && w.st.subscribed
    ensures TablesSafe(Step(w, Answer)) && !Step(w, Answer).aborted
    ensures Leaked(w) <==> Leaked(Step(w, Answer))
  {
    var op, w' := w.outstanding[0], Step(w, Answer);
    AnswerTables(w);
    forall p, x ensures EntrySafe(w', p, x) && (LeakedEntry(w, p, x) <==> LeakedEntry(w', p, x)) {
      SafeAnswered(w, p, x);
    }
    if p, x :| LeakedEntry(w, p, x) {
      assert LeakedEntry(w', p, x);
    }
    if p, x :| LeakedEntry(w', p, x) {
      assert LeakedEntry(w, p, x);
    }
    RouteAnswer(w.st, op, |w'.server|);
    hide Route;
    if w'.st.channels == map[] && w'.st.patterns == map[] {
      SafeServer(w');
      assert EntrySafe(w, op.pat, op.name);
    }
  }

  lemma {:induction false} SafeServer(w: World)
    requires (forall pat, name :: EntrySafe(w, pat, name)) && w.st.channels == map[] && w.st.patterns == map[]
    ensures w.server == {}
  {
    if w.server != {} {
      var x :| x in w.server;
      SafeHasEntry(w, x);
    }
  }

  lemma {:induction false} SafeHasEntry(w: World, x: (bool, Name))
    requires (forall pat, name :: EntrySafe(w, pat, name)) && x in w.server
    ensures x.1 in Table(w.st, x.0)
  {
    assert EntrySafe(w, x.0, x.1);
  }

  lemma {:induction false} SafeAnswered(w: World, p: bool, x: Name)
    requires TablesSafe(w) && !w.aborted && w.outstanding != [] && w.st.subscribed
    ensures EntrySafe(Step(w, Answer), p, x)
    ensures LeakedEntry(w, p, x) <==> LeakedEntry(Step(w, Answer), p, x)
  {
    var op := w.outstanding[0];
    AnswerTables(w);
    assert EntrySafe(w, p, x);
    assert Pend(w.outstanding, p, x) == (if op == Op(false, p, x) then 1 else 0) + Pend(w.outstanding[1..], p, x);
    hide Step, Table;
  }

  /** Over every interleaving, leaks or no leaks. */
  lemma {:induction false} TablesSafeOverRuns(events: seq<Event>)
    ensures Run(START, events).aborted || TablesSafe(Run(START, events))
    decreases |events|
  {
    if events != [] {
      var n := |events| - 1;
      TablesSafeOverRuns(events[..n]);
      var w := Run(START, events[..n]);
      if !w.aborted {
        match events[n]
        case Subscribe(pat, names, cb) => SubscribeIsSafe(w, pat, names, cb);
        case Unsubscribe(pat, names) => UnsubscribeIsSafe(w, pat, names);
        case Answer =>
          if w.outstanding != [] && w.st.subscribed {
            AnswerIsSafe(w);
          }
      }
    }
  }

  /** The context counts as subscribed while something is, or a subscribe is unanswered, or a count has leaked. */
  lemma {:induction false} SubscribedIffAny(w: World)
    requires TablesSafe(w)
    ensures w.st.subscribed <==> w.server != {} || HasSubscribe(w.outstanding) || Leaked(w)
  {
    SafeAndTight(w);
    if pat, name :| LeakedEntry(w, pat, name) {
      assert Table(w.st, pat) != map[];
    } else {
      SubscribedIff(w);
    }
  }

  /**
   In every state a run can reach: answering what is outstanding aborts if and only if no count has leaked and some
   command is answered with nothing left to unsubscribe from.  A leaked entry never goes away.
   */
  lemma {:induction false} DrainAbortsIffAny(w: World)
    requires TablesSafe(w) && !w.aborted
    ensures Drain(w).aborted <==> !Leaked(w) && exists k: nat :: Orphan(w.server, w.outstanding, k)
    decreases |w.outstanding|
  {
    SafeAndTight(w);
    if !Leaked(w) {
      DrainAbortsIff(w);
    } else if w.outstanding != [] {
      SubscribedIffAny(w);
      AnswerIsSafe(w);
      AnswerTables(w);
      DrainAbortsIffAny(Step(w, Answer));
    }
  }
}
