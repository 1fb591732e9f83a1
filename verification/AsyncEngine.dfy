/**
 The asynchronous engine of async.c: commands queue a callback each, replies are handed to the queue in order,
 and callbacks may themselves issue commands, disconnect or free the context.  What the callbacks of a run do
 is a script: each callback invocation performs the next list of actions, whatever it is.
 */
module AsyncEngine {
  import opened Bytes
  import opened Resp
  import opened CallbackQueue
  import opened PubSub
  import opened PubSubWords
  import opened Pushes
  import opened Formatter
  import opened Transcripts

  /** A command has a name: __redisAsyncCommand asserts that it finds a first argument. */
  type Argv = a: seq<seq<byte>> | a != [] witness [[]]

  datatype Action = Issue(argv: Argv, cb: Callback) | Disconnect | Free

  /** One callback entry taken off the queue, with the reply it was given; None is the NULL reply. */
  datatype Consumption = Consumption(cb: Callback, answer: Option<Reply>)

  datatype UserEvent =
    | UserCommand(argv: Argv, cb: Callback)
    | UserDisconnect
    | UserFree
    | Readable(t: Transcript)
    | ReadFailed
    | Writable(sent: nat)

  function Entries(cs: seq<Consumption>): (s: seq<Callback>)
    ensures |s| == |cs|
  {
    if cs == [] then [] else Entries(cs[..|cs| - 1]) + [cs[|cs| - 1].cb]
  }

  /** The consumptions whose callback has a function to call. */
  function WithFn(cs: seq<Consumption>): seq<Consumption> {
    if cs == [] then []
    else WithFn(cs[..|cs| - 1]) + if cs[|cs| - 1].cb.fn then [cs[|cs| - 1]] else []
  }

  // ---- What happened, in order ----

  /** Why a context fails: nothing more can be read, or the server refuses the connection with an error reply. */
  datatype Cause = Unreadable | Refused(reply: Reply)

  /**
   A command that was issued, its result, and whether its callback waits among the replies; a disconnect or free that
   was requested; a failure that closes the context; a callback that monitoring puts back; a reply that arrived, whether
   an entry waited for it, and the callback it is handed to.
   */
  datatype Deed =
    | Attempt(byUser: bool, argv: Argv, cb: Callback, ok: bool, waits: bool)
    | Close(byUser: bool, free: bool)
    | Fault(cause: Cause)
    | Requeue(cb: Callback)
    | Arrived(reply: Reply, waited: bool, to: Option<Callback>)

  /**
   What the user asked for, what the callbacks did, which replies arrived, for which of them an entry waited, which
   functions they were handed to, and which failures occurred.
   */
  datatype View = View(
    asked: seq<Action>, done: seq<Action>, arrived: seq<Reply>, waited: seq<Reply>, handed: seq<Consumption>,
    faults: seq<Cause>)

  function Seen(v: View, d: Deed): View {
    match d
    case Attempt(byUser, argv, cb, _, _) => SeenAction(v, byUser, Issue(argv, cb))
    case Close(byUser, free) => SeenAction(v, byUser, if free then Free else Disconnect)
    case Fault(cause) => v.(faults := v.faults + [cause])
    case Requeue(_) => v
    case Arrived(reply, waited, to) =>
      v.(arrived := v.arrived + [reply], waited := v.waited + if waited then [reply] else [],
         handed := v.handed + Handing(to, reply))
  }

  /** The call of a function with the reply it is handed. */
  function Handing(to: Option<Callback>, reply: Reply): seq<Consumption> {
    if to.Some? && to.value.fn then [Consumption(to.value, Some(reply))] else []
  }

  /** The calls that were given a reply. */
  function Replied(calls: seq<Consumption>): seq<Consumption> {
    if calls == [] then []
    else Replied(calls[..|calls| - 1]) + if calls[|calls| - 1].answer.Some? then [calls[|calls| - 1]] else []
  }

  lemma {:induction false} RepliedOne(calls: seq<Consumption>, c: Consumption)
    ensures Replied(calls + [c]) == Replied(calls) + if c.answer.Some? then [c] else []
  {
    assert (calls + [c])[..|calls|] == calls;
  }

  function SeenAction(v: View, byUser: bool, action: Action): View {
    if byUser then v.(asked := v.asked + [action]) else v.(done := v.done + [action])
  }

  function ViewOf(h: seq<Deed>): View {
    if h == [] then View([], [], [], [], [], []) else Seen(ViewOf(h[..|h| - 1]), h[|h| - 1])
  }

  lemma {:induction false} ViewMore(h: seq<Deed>, d: Deed)
    ensures ViewOf(h + [d]) == Seen(ViewOf(h), d)
  {
    assert (h + [d])[..|h|] == h;
  }

  function QueuedBy(d: Deed): seq<Callback> {
    match d
    case Attempt(_, _, cb, ok, waits) => if ok && waits then [cb.(pendingSubs := 1)] else []
    case Requeue(cb) => [cb]
    case _ => []
  }

  /** The callbacks that a history puts into the queue of replies. */
  function Queued(h: seq<Deed>): seq<Callback> {
    if h == [] then [] else Queued(h[..|h| - 1]) + QueuedBy(h[|h| - 1])
  }

  predicate Closes(d: Deed) {
    d.Close? || d.Fault?
  }

  predicate HasFree(h: seq<Deed>) {
    h != [] && ((h[|h| - 1].Close? && h[|h| - 1].free) || HasFree(h[..|h| - 1]))
  }

  /** Every accepted command was a regular one. */
  predicate OnlyRegular(h: seq<Deed>) {
    h == [] || (OnlyRegular(h[..|h| - 1]) && OneRegular(h[|h| - 1]))
  }

  predicate OneRegular(d: Deed) {
    d.Attempt? && d.ok ==> Classify(d.argv) == RegularCmd
  }

  lemma {:induction false} OnlyRegularIs(h: seq<Deed>)
    ensures OnlyRegular(h) <==> forall i :: 0 <= i < |h| ==> OneRegular(h[i])
    decreases |h|
  {
    if h != [] {
      var front := h[..|h| - 1];
      OnlyRegularIs(front);
      assert forall i :: 0 <= i < |front| ==> front[i] == h[i];
    }
  }

  predicate RegularActions(actions: seq<Action>) {
    forall i :: 0 <= i < |actions| && actions[i].Issue? ==> Classify(actions[i].argv) == RegularCmd
  }

  /** If nothing but regular commands was issued, nothing else was accepted. */
  lemma {:induction false} RegularHistory(h: seq<Deed>)
    requires RegularActions(ViewOf(h).asked) && RegularActions(ViewOf(h).done)
    ensures OnlyRegular(h)
    decreases |h|
  {
    if h != [] {
      var front, d := h[..|h| - 1], h[|h| - 1];
      var v := ViewOf(front);
      if d.Attempt? || d.Close? {
        var byUser, action := d.byUser, if d.Attempt? then Issue(d.argv, d.cb) else if d.free then Free else Disconnect;
        FrontRegular(if byUser then v.asked else v.done, action);
      }
      RegularHistory(front);
    }
  }

  lemma {:induction false} FrontRegular(actions: seq<Action>, action: Action)
    requires RegularActions(actions + [action])
    ensures RegularActions(actions) && (action.Issue? ==> Classify(action.argv) == RegularCmd)
  {
    assert (actions + [action])[|actions|] == action;
    forall i | 0 <= i < |actions| && actions[i].Issue? ensures Classify(actions[i].argv) == RegularCmd {
      assert (actions + [action])[i] == actions[i];
    }
  }

  lemma {:induction false} PrefixRegular(actions: seq<Action>, more: seq<Action>)
    requires RegularActions(actions + more)
    ensures RegularActions(actions)
  {
    forall i | 0 <= i < |actions| && actions[i].Issue? ensures Classify(actions[i].argv) == RegularCmd {
      assert (actions + more)[i] == actions[i];
    }
  }

  predicate Closed(h: seq<Deed>) {
    h != [] && (Closes(h[|h| - 1]) || Closed(h[..|h| - 1]))
  }

  /** Nothing was accepted after the context was closed. */
  predicate Barred(h: seq<Deed>) {
    h == [] || (Barred(h[..|h| - 1]) && (h[|h| - 1].Attempt? && h[|h| - 1].ok ==> !Closed(h[..|h| - 1])))
  }

  /** With regular commands only: accepted is exactly what came before the close, but for commands to unsubscribe. */
  predicate Judged(h: seq<Deed>) {
    h == [] || (Judged(h[..|h| - 1]) && (h[|h| - 1].Attempt? ==> Fair(h[|h| - 1], Closed(h[..|h| - 1]))))
  }

  predicate Fair(d: Deed, closed: bool)
    requires d.Attempt?
  {
    (d.ok <==> !closed && !Classify(d.argv).UnsubscribeCmd?) && (d.ok ==> Classify(d.argv) == RegularCmd && d.waits)
  }

  lemma {:induction false} ClosedIs(h: seq<Deed>)
    ensures Closed(h) <==> exists i :: 0 <= i < |h| && (h[i].Close? || h[i].Fault?)
    decreases |h|
  {
    if h != [] {
      ClosedIs(h[..|h| - 1]);
    }
  }

  lemma {:induction false} HasFreeIs(h: seq<Deed>)
    ensures HasFree(h) <==> exists i :: 0 <= i < |h| && h[i].Close? && h[i].free
    decreases |h|
  {
    if h != [] {
      HasFreeIs(h[..|h| - 1]);
    }
  }

  /** What the judgements on a history say of each deed. */
  lemma {:induction false} JudgedIs(h: seq<Deed>)
    ensures Barred(h) <==> forall i :: 0 <= i < |h| && h[i].Attempt? && h[i].ok ==> !Closed(h[..i])
    ensures Judged(h) <==> forall i :: 0 <= i < |h| && h[i].Attempt? ==> Fair(h[i], Closed(h[..i]))
    decreases |h|
  {
    hide Fair, Closed;
    if h != [] {
      var front := h[..|h| - 1];
      JudgedIs(front);
      forall i | 0 <= i < |front| ensures front[i] == h[i] && front[..i] == h[..i] {
      }
    }
  }

  ghost predicate LogState(h: seq<Deed>, accepted: seq<Callback>, closing: bool, freeing: bool, regular: bool) {
    && accepted == Queued(h) && (closing <==> Closed(h)) && (freeing <==> HasFree(h)) && Barred(h)
    && (regular <==> OnlyRegular(h)) && (regular ==> Judged(h))
  }

  lemma {:induction false} LogOne(
    h: seq<Deed>, accepted: seq<Callback>, closing: bool, freeing: bool, regular: bool, d: Deed, regular': bool)
    requires LogState(h, accepted, closing, freeing, regular) && (regular' <==> regular && OneRegular(d))
    requires d.Attempt? ==> (d.ok ==> !closing) && (regular' ==> Fair(d, closing))
    ensures LogState(h + [d], accepted + QueuedBy(d), closing || Closes(d), freeing || (d.Close? && d.free), regular')
  {
    assert (h + [d])[..|h|] == h;
  }

  // ---- The subscription tables of a context that only subscribes ----

  /** The event of the subscription tables that a deed is. */
  function EventsOf(d: Deed): seq<Event> {
    if d.Attempt? && d.ok && |d.argv| > 1 then
      match Classify(d.argv)
      case SubscribeCmd(pat) => [Subscribe(pat, d.argv[1..], d.cb)]
      case UnsubscribeCmd(pat) => [Unsubscribe(pat, d.argv[1..])]
      case _ => []
    else if d.Arrived? && !d.waited && MessageFor(d.reply) == None then [Answer] else []
  }

  function Trace(h: seq<Deed>): seq<Event> {
    if h == [] then [] else Trace(h[..|h| - 1]) + EventsOf(h[|h| - 1])
  }

  /** The client and server of the table model after these deeds. */
  function WorldOf(h: seq<Deed>): World {
    Run(START, Trace(h))
  }

  /**
   Accepted are commands with names to subscribe or unsubscribe, and regular commands outside a subscription.  What
   arrives is for a waiting entry, or it is the server's next answer, or a message for a name the server has subscribed.
   */
  predicate Foreseen(w: World, d: Deed) {
    match d
    case Attempt(_, argv, _, ok, waits) =>
      ok ==> if Classify(argv) == RegularCmd then waits else |argv| > 1 && Classify(argv) != MonitorCmd
    case Arrived(reply, waited, _) => waited || IsNextAnswer(w, reply) || IsMessage(w, reply)
    case Requeue(_) => false
    case _ => true
  }

  predicate IsNextAnswer(w: World, reply: Reply) {
    w.outstanding != [] && reply == ServerReply(w.outstanding[0], |Serve(w.server, w.outstanding[0])|)
  }

  predicate IsMessage(w: World, reply: Reply) {
    MessageFor(reply).Some? && MessageFor(reply).value in w.server
  }

  /** The reply is handed to the callback last given for this name. */
  predicate HandedTo(w: World, to: Option<Callback>, key: (bool, Name)) {
    to.Some? && key in w.newest && to.value == w.newest[key].(pendingSubs := to.value.pendingSubs)
  }

  /** A message, and the answer to a subscribe, is handed to the callback last given for its name. */
  predicate Reaches(w: World, d: Deed) {
    d.Arrived? && !d.waited && !w.aborted ==>
      && (IsMessage(w, d.reply) ==> HandedTo(w, d.to, MessageFor(d.reply).value))
      && (IsNextAnswer(w, d.reply) && !w.outstanding[0].unsub ==>
            HandedTo(w, d.to, (w.outstanding[0].pat, w.outstanding[0].name)))
  }

  predicate AllReach(h: seq<Deed>) {
    h == [] || (AllReach(h[..|h| - 1]) && Reaches(WorldOf(h[..|h| - 1]), h[|h| - 1]))
  }

  predicate InOrder(h: seq<Deed>) {
    h == [] || (InOrder(h[..|h| - 1]) && Foreseen(WorldOf(h[..|h| - 1]), h[|h| - 1]))
  }

  /** As long as everything is foreseen, the context's tables are those of the table model. */
  ghost predicate Tracks(h: seq<Deed>, st: SubState, monitoring: bool, aborted: bool) {
    InOrder(h) ==>
      var w := WorldOf(h);
      w.aborted == aborted && (!aborted ==> !monitoring && st == w.st) && AllReach(h)
  }

  lemma {:induction false} TraceOne(h: seq<Deed>, d: Deed)
    ensures InOrder(h + [d]) <==> InOrder(h) && Foreseen(WorldOf(h), d)
    ensures AllReach(h + [d]) <==> AllReach(h) && Reaches(WorldOf(h), d)
    ensures EventsOf(d) == [] ==> WorldOf(h + [d]) == WorldOf(h)
    ensures EventsOf(d) != [] ==> WorldOf(h + [d]) == Step(WorldOf(h), EventsOf(d)[0])
  {
    assert (h + [d])[..|h|] == h;
    var es := Trace(h) + EventsOf(d);
    assert Trace(h + [d]) == es;
    if EventsOf(d) == [] {
      assert es == Trace(h);
    } else {
      assert EventsOf(d) == [EventsOf(d)[0]];
      assert es[..|es| - 1] == Trace(h) && es[|es| - 1] == EventsOf(d)[0];
    }
  }

  /** A deed that leaves the tables alone, or that nobody foresaw. */
  lemma {:induction false} TrackOther(h: seq<Deed>, st: SubState, monitoring: bool, aborted: bool, d: Deed)
    requires Tracks(h, st, monitoring, aborted)
    requires Closes(d) || d.Requeue? || (d.Arrived? && (d.waited || d.reply.Error?))
    ensures Tracks(h + [d], st, monitoring, aborted)
  {
    TraceOne(h, d);
    hide WorldOf, InOrder, AllReach, MessageFor;
    if d.Arrived? && d.reply.Error? {
      NoError(d.reply);
    }
  }

  lemma {:induction false} NoError(reply: Reply)
    requires reply.Error?
    ensures MessageFor(reply) == None
  {
  }

  lemma {:induction false} TrackCommand(
    h: seq<Deed>, st: SubState, monitoring: bool, aborted: bool, d: Deed, st': SubState, monitoring': bool)
    requires Tracks(h, st, monitoring, aborted) && d.Attempt?
    requires d.ok && Classify(d.argv).UnsubscribeCmd? ==> st.subscribed
    requires monitoring' == (monitoring || (d.ok && Classify(d.argv) == MonitorCmd))
    requires st' == if d.ok && Classify(d.argv).SubscribeCmd?
                    then IssueSubscribe(st, Classify(d.argv).pat, d.argv[1..], d.cb) else st
    ensures Tracks(h + [d], st', monitoring', aborted)
  {
    TraceOne(h, d);
    hide WorldOf, InOrder, AllReach, IssueSubscribe, Classify;
  }

  /** A stray reply: its routing is the answer of the table model, and it fails an assert exactly when that one does. */
  lemma {:induction false} TrackAnswer(
    h: seq<Deed>, st: SubState, monitoring: bool, reply: Reply, st': SubState, aborted': bool, to: Option<Callback>)
    requires Tracks(h, st, monitoring, false)
    requires if !st.subscribed then st' == st && (!monitoring ==> aborted')
             else if !IsSubscriptionArray(reply) then st' == st && !aborted'
             else match Route(st, reply)
                  case AssertFailed => aborted'
                  case Routed(s, found) => st' == s && !aborted' && (found.Some? ==> to == found)
    ensures Tracks(h + [Arrived(reply, false, to)], st', monitoring, aborted')
  {
    var d := Arrived(reply, false, to);
    TraceOne(h, d);
    var w := WorldOf(h);
    WorldSafe(h);
    hide WorldOf, InOrder, AllReach, TablesSafe, MessageFor, Route;
    if InOrder(h + [d]) && !w.aborted {
      if IsMessage(w, reply) {
        MessageReaches(w, reply);
      } else {
        AnswerReaches(w);
      }
    }
  }

  lemma {:induction false} WorldSafe(h: seq<Deed>)
    ensures WorldOf(h).aborted || TablesSafe(WorldOf(h))
  {
    TablesSafeOverRuns(Trace(h));
  }

  /** A message for a subscribed name finds the callback last given for the name. */
  lemma {:induction false} MessageReaches(w: World, reply: Reply)
    requires TablesSafe(w) && IsMessage(w, reply)
    ensures w.st.subscribed && IsSubscriptionArray(reply)
    ensures Route(w.st, reply).Routed? && Route(w.st, reply).st == w.st
    ensures HandedTo(w, Route(w.st, reply).cb, MessageFor(reply).value)
    ensures !IsNextAnswer(w, reply)
  {
    var (pat, name) := MessageFor(reply).value;
    MessageIsRouted(w.st, reply);
    assert EntrySafe(w, pat, name);
    assert name in Table(w.st, pat);
    if w.outstanding != [] {
      ConfirmationIs(w.outstanding[0], |Serve(w.server, w.outstanding[0])|);
    }
  }

  /** The next answer is that of the table model; if it answers a subscribe, it finds the newest callback. */
  lemma {:induction false} AnswerReaches(w: World)
    requires TablesSafe(w) && w.outstanding != [] && !w.aborted
    ensures var op := w.outstanding[0];
            var reply := ServerReply(op, |Serve(w.server, op)|);
            && MessageFor(reply) == None && IsSubscriptionArray(reply)
            && Route(w.st, reply).Routed?
            && (!op.unsub ==> w.st.subscribed && HandedTo(w, Route(w.st, reply).cb, (op.pat, op.name)))
            && Step(w, Answer).aborted == !w.st.subscribed
            && (w.st.subscribed ==> Step(w, Answer).st == Route(w.st, reply).st)
  {
    var op := w.outstanding[0];
    ConfirmationIs(op, |Serve(w.server, op)|);
    RouteAnswer(w.st, op, |Serve(w.server, op)|);
    hide Route;
    if !op.unsub {
      PendPositive(w.outstanding, 0);
      assert EntrySafe(w, op.pat, op.name);
      assert op.name in Table(w.st, op.pat);
    }
  }

  function Flat(script: seq<seq<Action>>): seq<Action> {
    if script == [] then [] else script[0] + Flat(script[1..])
  }

  /** All actions of the lists, in order. */
  lemma {:induction false} FlatMore(script: seq<seq<Action>>, actions: seq<Action>)
    ensures Flat([]) == [] && Flat(script + [actions]) == Flat(script) + actions
    decreases |script|
  {
    if script == [] {
      assert [actions][1..] == [] && script + [actions] == [actions];
    } else {
      assert (script + [actions])[1..] == script[1..] + [actions];
      FlatMore(script[1..], actions);
    }
  }

  function Drop(script: seq<seq<Action>>, n: nat): seq<seq<Action>> {
    if n <= |script| then script[n..] else []
  }

  /** After n invocations of callbacks, `done` is what they did and `script` what later ones will do. */
  ghost predicate Played(script0: seq<seq<Action>>, n: nat, script: seq<seq<Action>>, done: seq<Action>) {
    script == Drop(script0, n) && done + Flat(script) == Flat(script0)
  }

  lemma {:induction false} PlayOne(script0: seq<seq<Action>>, n: nat, script: seq<seq<Action>>, done: seq<Action>)
    requires Played(script0, n, script, done)
    ensures script != [] ==> Played(script0, n + 1, script[1..], done + script[0])
    ensures script == [] ==> Played(script0, n + 1, [], done + [])
  {
    if script != [] {
      assert done + (script[0] + Flat(script[1..])) == done + script[0] + Flat(script[1..]);
    } else {
      assert done + [] == done;
    }
  }

  lemma {:induction false} ConsumeOne(cs: seq<Consumption>, c: Consumption)
    ensures Entries(cs + [c]) == Entries(cs) + [c.cb]
    ensures WithFn(cs + [c]) == WithFn(cs) + if c.cb.fn then [c] else []
  {
    assert (cs + [c])[..|cs|] == cs;
  }

  /** The first consumptions got the replies, in order; all later ones got NULL. */
  ghost predicate AnswersOk(consumed: seq<Consumption>, answered: seq<Reply>) {
    && |answered| <= |consumed|
    && (forall k :: 0 <= k < |answered| ==> consumed[k].answer == Some(answered[k]))
    && (forall k :: |answered| <= k < |consumed| ==> consumed[k].answer == None)
  }

  /**
   Every entry ever queued is either consumed or still queued, in submission order, each once; NULL replies occur only
   while or after the context is torn down.
   */
  ghost predicate Account(
    queue: seq<Callback>, accepted: seq<Callback>, consumed: seq<Consumption>, answered: seq<Reply>, tearing: bool)
  {
    && accepted == Entries(consumed) + queue
    && AnswersOk(consumed, answered)
    && (|answered| < |consumed| ==> tearing)
  }

  /** Nothing was ever subscribed to or monitored. */
  ghost predicate Plain(st: SubState, monitoring: bool, invalid: seq<Callback>) {
    st == SubState(map[], map[], false) && !monitoring && invalid == []
  }

  /** Taking the oldest entry, for a reply before the teardown or for NULL during it, keeps the account. */
  lemma {:induction false} ConsumeState(
    queue: seq<Callback>, accepted: seq<Callback>, consumed: seq<Consumption>, answered: seq<Reply>, tearing: bool,
    reply: Option<Reply>)
    requires Account(queue, accepted, consumed, answered, tearing) && queue != []
    requires reply.None? <==> tearing
    ensures Account(queue[1..], accepted, consumed + [Consumption(queue[0], reply)],
                    answered + (if reply.Some? then [reply.value] else []), tearing)
  {
    ConsumeOne(consumed, Consumption(queue[0], reply));
    hide Entries;
    assert Entries(consumed) + queue == Entries(consumed) + [queue[0]] + queue[1..];
  }

  lemma {:induction false} AcceptState(
    queue: seq<Callback>, accepted: seq<Callback>, consumed: seq<Consumption>, answered: seq<Reply>, tearing: bool,
    cbs: seq<Callback>)
    requires Account(queue, accepted, consumed, answered, tearing)
    ensures Account(queue + cbs, accepted + cbs, consumed, answered, tearing)
  {
    assert Entries(consumed) + (queue + cbs) == Entries(consumed) + queue + cbs;
  }

  class AsyncContext {
    var disconnecting: bool
    var freeing: bool
    var inCallback: bool
    var monitoring: bool
    var err: bool
    /** The context is gone: freed, or the process ended in a failed assert. */
    var freed: bool
    var aborted: bool
    const replies: CallbackList
    const invalid: CallbackList
    var st: SubState
    var obuf: seq<byte>
    const pushCb: bool
    var script: seq<seq<Action>>

    /** No subscribe, unsubscribe or monitor command was ever accepted. */
    ghost var regular: bool
    /** Callback entries queued so far, entries consumed, replies handed to entries, functions called. */
    ghost var accepted: seq<Callback>
    ghost var consumed: seq<Consumption>
    ghost var answered: seq<Reply>
    ghost var calls: seq<Consumption>
    /** Calls of the push handler. */
    ghost var pushes: nat
    ghost var history: seq<Deed>
    ghost const script0: seq<seq<Action>>
    /** The teardown has begun. */
    ghost var tearing: bool

    ghost predicate Valid()
      reads this, replies, invalid
    {
      replies != invalid && replies.Valid() && invalid.Valid()
    }

    ghost predicate QueueInv()
      reads this, replies, invalid
      requires Valid()
    {
      && Account(replies.Contents(), accepted, consumed, answered, tearing)
      && (regular ==> Plain(st, monitoring, invalid.Contents()))
      && LogState(history, accepted, Closing(), freeing, regular)
      && Tracks(history, st, monitoring, aborted)
    }

    /** Between callbacks: each took the next list of actions and performed all of it. */
    ghost predicate ScriptOk()
      reads this
    {
      Played(script0, |calls| + pushes, script, ViewOf(history).done)
    }

    /**
     Every function that was handed a reply was called with it, once, in the order of arrival; in a regular context
     those are the functions of the consumed entries.  The replies handed to entries are those an entry waited for.
     */
    ghost predicate CallsInv()
      reads this
    {
      && (regular ==> calls == WithFn(consumed)) && Replied(calls) == ViewOf(history).handed
      && answered == ViewOf(history).waited && ScriptOk()
    }

    ghost predicate Inv()
      reads this, replies, invalid
    {
      Valid() && QueueInv() && CallsInv()
    }

    predicate Closing()
      reads this
    {
      disconnecting || freeing
    }

    constructor (pushCb: bool, script: seq<seq<Action>>)
      ensures Inv() && fresh(replies) && fresh(invalid)
      ensures Sane() && regular && !freed && !aborted && !Closing()
      ensures accepted == [] && consumed == [] && answered == [] && calls == [] && pushes == 0 && history == []
      ensures script0 == script && this.pushCb == pushCb
    {
      disconnecting, freeing, inCallback, monitoring, err, freed, aborted :=
        false, false, false, false, false, false, false;
      replies := new CallbackList();
      invalid := new CallbackList();
      st := SubState(map[], map[], false);
      obuf, this.pushCb, this.script, this.script0 := [], pushCb, script, script;
      regular, accepted, consumed, answered, calls, tearing := true, [], [], [], [], false;
      pushes, history := 0, [];
      assert [] + Flat(script) == Flat(script);
    }

    /** The user asked for nothing, nothing arrived and nothing failed meanwhile. */
    twostate predicate Silent()
      reads this
    {
      ViewOf(history) == old(ViewOf(history)).(done := ViewOf(history).done)
    }

    // ---- Issuing commands ----

    /** __redisAsyncCommand. */
    method AsyncCommand(argv: Argv, cb0: Callback) returns (ok: bool)
      requires Valid() && QueueInv() && !freed
      modifies this`st, this`monitoring, this`obuf, this`regular, this`accepted, this`history, replies, invalid
      ensures Valid() && QueueInv()
      ensures ok <==> !old(Closing()) && (Classify(argv).UnsubscribeCmd? ==> old(st).subscribed)
      ensures var waits := Classify(argv) == MonitorCmd || (Classify(argv) == RegularCmd && !old(st).subscribed);
              history == old(history) + [Attempt(!inCallback, argv, cb0, ok, waits)]
      ensures var c := Classify(argv);
              var waits := c == MonitorCmd || (c == RegularCmd && !old(st).subscribed);
              var strays := c == RegularCmd && old(st).subscribed;
              var entry := [cb0.(pendingSubs := 1)];
              && accepted == old(accepted) + (if ok && waits then entry else [])
              && replies.Contents() == old(replies.Contents()) + (if ok && waits then entry else [])
              && invalid.Contents() == old(invalid.Contents()) + (if ok && strays then entry else [])
      ensures !ok ==> Frozen()
      ensures ok ==> obuf == old(obuf) + Formatted(argv)
      ensures ok ==> regular == (old(regular) && Classify(argv) == RegularCmd)
      ensures ok && Classify(argv).SubscribeCmd? ==> st == IssueSubscribe(old(st), Classify(argv).pat, argv[1..], cb0)
      ensures ok && !Classify(argv).SubscribeCmd? ==> st == old(st)
      ensures monitoring == (old(monitoring) || (ok && Classify(argv) == MonitorCmd))
    {
      hide Account, LogState, Tracks, IsQueue, Items, Formatted, AddAll, Classify, IssueSubscribe;
      assert regular ==> !st.subscribed;
      hide Plain;
      ghost var st0, reg0, mon0 := st, regular, monitoring;
      ghost var queue0, inv0 := replies.Contents(), invalid.Contents();
      ok := Enqueue(argv, cb0);
      ghost var d := Attempt(!inCallback, argv, cb0, ok, Waits(argv, st0));
      TrackCommand(history, st0, mon0, aborted, d, st, monitoring);
      assert QueuedBy(d) == AddedIf(ok && Waits(argv, st0), cb0);
      RecordAttempt(d, queue0, reg0);
      assert queue0 + [] == queue0 && inv0 + [] == inv0 && old(accepted) + [] == old(accepted);
    }

    /** An attempt goes on record, and what it queued into the account. */
    ghost method RecordAttempt(d: Deed, queue0: seq<Callback>, regular0: bool)
      requires Valid() && d.Attempt? && replies.Contents() == queue0 + QueuedBy(d)
      requires Account(queue0, accepted, consumed, answered, tearing)
      requires regular ==> Plain(st, monitoring, invalid.Contents())
      requires LogState(history, accepted, Closing(), freeing, regular0) && (regular <==> regular0 && OneRegular(d))
      requires (d.ok ==> !Closing()) && (regular ==> Fair(d, Closing()))
      requires Tracks(history + [d], st, monitoring, aborted)
      modifies this`history, this`accepted
      ensures QueueInv() && history == old(history) + [d] && accepted == old(accepted) + QueuedBy(d)
    {
      hide Account, LogState, Tracks, Plain, IsQueue, Items, Fair, OneRegular;
      LogOne(history, accepted, Closing(), freeing, regular0, d, regular);
      AcceptState(queue0, accepted, consumed, answered, tearing, QueuedBy(d));
      history, accepted := history + [d], accepted + QueuedBy(d);
    }

    /** What __redisAsyncCommand does to the context; the accounts follow. */
    method Enqueue(argv: Argv, cb0: Callback) returns (ok: bool)
      requires Valid() && !freed && (regular ==> Plain(st, monitoring, invalid.Contents()))
      modifies this`st, this`monitoring, this`obuf, this`regular, replies, invalid
      ensures Valid() && (regular ==> Plain(st, monitoring, invalid.Contents()))
      ensures ok <==> !Closing() && (Classify(argv).UnsubscribeCmd? ==> old(st).subscribed)
      ensures !ok ==> obuf == old(obuf) && regular == old(regular) && st == old(st)
      ensures ok ==> obuf == old(obuf) + Formatted(argv)
      ensures ok ==> regular == (old(regular) && Classify(argv) == RegularCmd)
      ensures ok && Classify(argv).SubscribeCmd? ==> st == IssueSubscribe(old(st), Classify(argv).pat, argv[1..], cb0)
      ensures ok && !Classify(argv).SubscribeCmd? ==> st == old(st)
      ensures monitoring == (old(monitoring) || (ok && Classify(argv) == MonitorCmd))
      ensures replies.Contents() == old(replies.Contents()) + AddedIf(ok && Waits(argv, old(st)), cb0)
      ensures invalid.Contents() == old(invalid.Contents()) + AddedIf(ok && Strays(argv, old(st)), cb0)
    {
      hide IsQueue, Items, Formatted, AddAll;
      assert replies.Contents() + [] == replies.Contents() && invalid.Contents() + [] == invalid.Contents();
      if disconnecting || freeing { return false; }
      var cb := cb0.(pendingSubs := 1);
      match Classify(argv) {
        case SubscribeCmd(pat) =>
          AddNames(pat, argv[1..], cb0);
          regular := false;
        case UnsubscribeCmd(pat) =>
          if !st.subscribed { return false; }
          regular := false;
        case MonitorCmd =>
          monitoring := true;
          replies.Push(cb);
          regular := false;
        case RegularCmd =>
          if st.subscribed {
            invalid.Push(cb);
          } else {
            replies.Push(cb);
          }
      }
      obuf := obuf + Formatted(argv);
      return true;
    }

    /** The loop that enters every name of a SUBSCRIBE. */
    method AddNames(pat: bool, names: seq<seq<byte>>, cb0: Callback)
      modifies this`st
      ensures st == IssueSubscribe(old(st), pat, names, cb0)
    {
      st := st.(subscribed := true);
      var t := Table(st, pat);
      var cb := cb0.(pendingSubs := 1);
      var i := 0;
      assert names[0..] == names;
      while i < |names|
        invariant 0 <= i <= |names| && cb == cb0.(pendingSubs := cb.pendingSubs)
        invariant AddAll(t, names[i..], cb0, cb.pendingSubs) == AddAll(Table(st, pat), names, cb0, 1)
        invariant st == old(st).(subscribed := true)
      {
        assert names[i..][0] == names[i] && names[i..][1..] == names[i + 1..];
        if names[i] in t {
          cb := cb.(pendingSubs := t[names[i]].pendingSubs + 1);
        }
        t := t[names[i] := cb];
        i := i + 1;
      }
      st := WithTable(st, pat, t);
    }

    // ---- Running callbacks ----

    /** One action of a callback; disconnecting and freeing are deferred while it runs. */
    method PerformOne(action: Action)
      requires Valid() && QueueInv() && !freed && inCallback
      modifies this, replies, invalid
      ensures Valid() && QueueInv() && Kept() && SameCalls() && inCallback && script == old(script)
      ensures old(Closing()) ==> Frozen()
      ensures ViewOf(history).done == old(ViewOf(history).done) + [action]
      decreases 0, 1
    {
      hide Account, LogState, Tracks, Plain, IsQueue, Items, ViewOf;
      match action {
        case Issue(argv, cb) =>
          var ok := AsyncCommand(argv, cb);
          ViewMore(old(history), history[|history| - 1]);
        case Disconnect => AsyncDisconnect();
        case Free => AsyncFree();
      }
    }

    /** What a callback does before it returns. */
    method Perform(actions: seq<Action>)
      requires Valid() && QueueInv() && !freed && inCallback
      modifies this, replies, invalid
      ensures Valid() && QueueInv() && Kept() && SameCalls() && inCallback && script == old(script)
      ensures old(Closing()) ==> Frozen()
      ensures ViewOf(history).done == old(ViewOf(history).done) + actions
      decreases 0, 2
    {
      hide Account, LogState, Tracks, Plain, IsQueue, Items, ViewOf;
      var i := 0;
      assert ViewOf(history).done + actions[..0] == ViewOf(history).done;
      while i < |actions|
        invariant 0 <= i <= |actions|
        invariant Valid() && QueueInv() && Kept() && SameCalls() && inCallback && script == old(script)
        invariant old(Closing()) ==> Frozen()
        invariant ViewOf(history).done == old(ViewOf(history).done) + actions[..i]
      {
        PerformOne(actions[i]);
        assert actions[..i + 1] == actions[..i] + [actions[i]];
        i := i + 1;
      }
      assert actions[..i] == actions;
    }

    /** Nothing entered the queues, the tables or the output. */
    twostate predicate Frozen()
      reads this, replies, invalid
      requires Valid() && old(Valid())
    {
      && accepted == old(accepted) && regular == old(regular) && st == old(st) && obuf == old(obuf)
      && replies.Contents() == old(replies.Contents()) && invalid.Contents() == old(invalid.Contents())
    }

    /** What no callback can change. */
    twostate predicate Kept()
      reads this
    {
      && freed == old(freed) && aborted == old(aborted) && err == old(err) && tearing == old(tearing)
      && consumed == old(consumed) && answered == old(answered)
      && (old(disconnecting) ==> disconnecting) && (old(freeing) ==> freeing) && (regular ==> old(regular))
      && Silent() && old(history) <= history
    }

    twostate predicate SameCalls()
      reads this
    {
      calls == old(calls) && pushes == old(pushes)
    }

    method NextActions() returns (actions: seq<Action>)
      modifies this`script
      ensures actions == if old(script) == [] then [] else old(script)[0]
      ensures script == if old(script) == [] then [] else old(script)[1..]
    {
      actions := [];
      if script != [] {
        actions, script := script[0], script[1..];
      }
    }

    /** A callback function runs to its end. */
    method Invoke()
      requires Valid() && QueueInv() && !freed && !inCallback
      modifies this, replies, invalid
      ensures Valid() && QueueInv() && Kept() && SameCalls() && !inCallback
      ensures old(Closing()) ==> Frozen()
      ensures script == if old(script) == [] then [] else old(script)[1..]
      ensures ViewOf(history).done == old(ViewOf(history).done) + if old(script) == [] then [] else old(script)[0]
      decreases 0, 3
    {
      hide Account, LogState, Tracks, Plain, IsQueue, Items, ViewOf;
      inCallback := true;
      var actions := NextActions();
      Perform(actions);
      inCallback := false;
    }

    /** __redisRunCallback. */
    method RunCallback(cb: Callback, reply: Option<Reply>)
      requires Valid() && QueueInv() && ScriptOk() && !freed && !inCallback
      modifies this, replies, invalid
      ensures Valid() && QueueInv() && ScriptOk() && Kept() && !inCallback && pushes == old(pushes)
      ensures calls == old(calls) + if cb.fn then [Consumption(cb, reply)] else []
      ensures Replied(calls) == old(Replied(calls)) + if reply.Some? then Handing(Some(cb), reply.value) else []
      ensures old(Closing()) ==> Frozen()
      ensures !cb.fn ==> freeing == old(freeing) && st == old(st) && regular == old(regular) && obuf == old(obuf)
      decreases 1, 0, 0
    {
      hide Account, LogState, Tracks, Plain, IsQueue, Items, ViewOf, Played;
      if cb.fn {
        PlayOne(script0, |calls| + pushes, script, ViewOf(history).done);
        RepliedOne(calls, Consumption(cb, reply));
        calls := calls + [Consumption(cb, reply)];
        Invoke();
      }
    }

    /** __redisRunPushCallback. */
    method RunPushCallback()
      requires Valid() && QueueInv() && ScriptOk() && !freed && !inCallback
      modifies this, replies, invalid
      ensures Valid() && QueueInv() && ScriptOk() && Kept() && !inCallback && calls == old(calls)
      ensures pushes == old(pushes) + if pushCb then 1 else 0
      ensures !pushCb ==> freeing == old(freeing)
    {
      hide Account, LogState, Tracks, Plain, IsQueue, Items, ViewOf, Played;
      if pushCb {
        PlayOne(script0, |calls| + pushes, script, ViewOf(history).done);
        pushes := pushes + 1;
        Invoke();
      }
    }

    /** Takes the oldest regular entry, for a reply or for NULL. */
    method ShiftReply(reply: Option<Reply>) returns (cb: Option<Callback>)
      requires Valid() && QueueInv() && (reply.None? <==> tearing)
      modifies this`consumed, this`answered, replies
      ensures Valid() && QueueInv()
      ensures cb.None? <==> old(replies.Contents()) == []
      ensures cb.None? ==> replies.Contents() == [] && consumed == old(consumed) && answered == old(answered)
      ensures cb.Some? ==> old(replies.Contents()) == [cb.value] + replies.Contents()
      ensures cb.Some? ==> consumed == old(consumed) + [Consumption(cb.value, reply)]
      ensures cb.Some? ==> answered == old(answered) + if reply.Some? then [reply.value] else []
    {
      hide IsQueue, Items, Account, LogState, Tracks, Plain;
      ghost var queue := replies.Contents();
      cb := replies.Shift();
      if cb.Some? {
        ConsumeState(queue, accepted, consumed, answered, tearing, reply);
        consumed := consumed + [Consumption(cb.value, reply)];
        answered := answered + if reply.Some? then [reply.value] else [];
      }
    }

    // ---- Tearing down ----

    /** Every regular entry left gets NULL.  This ends because a closing context refuses commands. */
    method DrainReplies()
      requires Inv() && !freed && !inCallback && Closing() && tearing
      modifies this, replies, invalid
      ensures Inv() && !freed && !inCallback && Closing() && tearing && aborted == old(aborted)
      ensures replies.Contents() == [] && Ended() && old(history) <= history
      ensures consumed == old(consumed) + Nulls(old(replies.Contents()))
      ensures calls == old(calls) + NullCalls(old(replies.Contents()))
      ensures st == old(st) && invalid.Contents() == old(invalid.Contents())
      decreases 1, 1
    {
      hide Account, LogState, Tracks, Plain, ViewOf, Played, Nulls, NullCalls;
      NoNulls(consumed);
      while true
        invariant Inv() && !freed && !inCallback && Closing() && tearing && aborted == old(aborted)
        invariant Ended() && old(history) <= history && st == old(st) && invalid.Contents() == old(invalid.Contents())
        invariant calls + NullCalls(replies.Contents()) == old(calls) + NullCalls(old(replies.Contents()))
        invariant consumed + Nulls(replies.Contents()) == old(consumed) + Nulls(old(replies.Contents()))
        decreases |replies.Contents()|
      {
        ghost var cs, fs, queue := consumed, calls, replies.Contents();
        var more := GiveNull();
        if !more { break; }
        OneNull(cs, queue);
        OneNullCall(fs, queue);
      }
      NoNulls(consumed);
      NoNullCalls(calls);
    }

    /** Runs the oldest queued callback with a NULL reply. */
    method GiveNull() returns (more: bool)
      requires Inv() && !freed && !inCallback && Closing() && tearing
      modifies this, replies, invalid
      ensures Inv() && !freed && !inCallback && Closing() && tearing && aborted == old(aborted) && Ended()
      ensures more <==> old(replies.Contents()) != []
      ensures !more ==> replies.Contents() == [] && consumed == old(consumed)
      ensures more ==> replies.Contents() == old(replies.Contents())[1..]
      ensures more ==> consumed == old(consumed) + [Consumption(old(replies.Contents())[0], None)]
      ensures calls == old(calls) + if more then Nulled(old(replies.Contents())[0]) else []
      ensures st == old(st) && invalid.Contents() == old(invalid.Contents()) && old(history) <= history
      decreases 1, 0, 1
    {
      hide Account, LogState, Tracks, Plain, IsQueue, Items, WithFn, Entries, AnswersOk, ViewOf, Played;
      ghost var cs := consumed;
      var cb := ShiftReply(None);
      if cb == None { return false; }
      ConsumeOne(cs, Consumption(cb.value, None));
      RunCallback(cb.value, None);
      return true;
    }

    ghost method StartTeardown()
      requires Inv()
      modifies this`tearing
      ensures Inv() && tearing
    {
      hide LogState, Tracks, Plain, Played, WithFn, Entries, AnswersOk, ViewOf, IsQueue, Items;
      tearing := true;
    }

    /** __redisAsyncFree. */
    method Teardown()
      requires Inv() && !freed && !inCallback && Closing()
      modifies this, replies, invalid
      ensures Inv() && freed && !inCallback && Closing() && aborted == old(aborted)
      ensures replies.Contents() == [] && invalid.Contents() == [] && Ended()
      ensures consumed == old(consumed) + Nulls(old(replies.Contents()))
      ensures NullsGiven(old(calls), calls, old(replies.Contents()), old(invalid.Contents()), old(st))
      decreases 1, 3
    {
      hide Account, LogState, Tracks, Plain, ViewOf, Played, Nulls, NullCalls, Replied, WithFn, IsQueue, Items;
      hide NullsGiven;
      StartTeardown();
      DrainReplies();
      AfterQueue(old(calls), calls, old(replies.Contents()), invalid.Contents(), st);
      DrainSubscriptions();
      freed := true;
    }

    /** The callbacks of invalid commands and of the subscriptions get NULL, the names of a table in some order. */
    method DrainSubscriptions()
      requires Inv() && !freed && !inCallback && Closing()
      modifies this, replies, invalid
      ensures Inv() && Valid() && Settled() && !inCallback && Closing() && invalid.Contents() == []
      ensures NullsGiven(old(calls), calls, [], old(invalid.Contents()), old(st))
      decreases 1, 2
    {
      hide Account, LogState, Tracks, Plain, ViewOf, Played, Replied, WithFn, IsQueue, Items, NullCalls, TableGiven;
      hide NullsGiven;
      NoTables();
      DrainInvalid();
      ghost var calls1 := calls;
      RunTable(st.channels);
      ghost var calls2 := calls;
      RunTable(st.patterns);
      AfterStrays(old(calls), calls1, calls2, calls, old(invalid.Contents()), st);
    }

    /** Callbacks ran in a closed context. */
    twostate predicate Settled()
      reads this, replies, invalid
      requires Valid() && old(Valid())
    {
      && Kept() && accepted == old(accepted) && regular == old(regular) && st == old(st) && obuf == old(obuf)
      && pushes == old(pushes) && replies.Contents() == old(replies.Contents())
    }

    lemma {:induction false} NoTables()
      requires Inv()
      ensures regular ==> st.channels == map[] && st.patterns == map[] && invalid.Contents() == []
    {
    }

    /** Entries were consumed, and nothing else happened to the account. */
    twostate predicate Ended()
      reads this
    {
      && accepted == old(accepted) && answered == old(answered) && regular == old(regular)
      && old(consumed) <= consumed && (old(freeing) ==> freeing) && Silent()
      && obuf == old(obuf) && pushes == old(pushes) && err == old(err) && (old(disconnecting) ==> disconnecting)
    }

    method DrainInvalid()
      requires Inv() && !freed && !inCallback && Closing()
      modifies this, replies, invalid
      ensures Inv() && Valid() && Settled() && !inCallback && Closing() && invalid.Contents() == []
      ensures calls == old(calls) + NullCalls(old(invalid.Contents()))
      decreases 1, 1
    {
      hide Account, LogState, Tracks, Plain, ViewOf, Played, Replied, WithFn, IsQueue, Items, NullCalls;
      NoTables();
      assert Valid();
      hide Inv;
      while true
        invariant Inv() && Valid() && !inCallback && Closing() && Settled()
        invariant regular ==> invalid.Contents() == []
        invariant calls + NullCalls(invalid.Contents()) == old(calls) + NullCalls(old(invalid.Contents()))
        decreases |invalid.Contents()|
      {
        ghost var fs, queue := calls, invalid.Contents();
        var more := GiveInvalid();
        if !more { break; }
        OneNullCall(fs, queue);
      }
      NoNullCalls(calls);
    }

    /** Runs the oldest stray callback with a NULL reply. */
    method GiveInvalid() returns (more: bool)
      requires Inv() && !freed && !inCallback && Closing() && (regular ==> invalid.Contents() == [])
      modifies this, replies, invalid
      ensures Inv() && Valid() && Settled() && !inCallback && Closing() && (regular ==> invalid.Contents() == [])
      ensures more <==> old(invalid.Contents()) != []
      ensures invalid.Contents() == if more then old(invalid.Contents())[1..] else []
      ensures calls == old(calls) + if more then Nulled(old(invalid.Contents())[0]) else []
      decreases 1, 0, 1
    {
      hide Account, LogState, Tracks, Plain, ViewOf, Played, Replied, WithFn, IsQueue, Items;
      var cb := ShiftInvalid();
      if cb == None { return false; }
      RunCallback(cb.value, None);
      return true;
    }

    method ShiftInvalid() returns (cb: Option<Callback>)
      requires Inv() && (regular ==> invalid.Contents() == [])
      modifies invalid
      ensures Inv() && replies.Contents() == old(replies.Contents()) && (regular ==> invalid.Contents() == [])
      ensures cb.None? ==> old(invalid.Contents()) == invalid.Contents() == []
      ensures cb.Some? ==> old(invalid.Contents()) == [cb.value] + invalid.Contents() && !regular
    {
      hide Account, LogState, Tracks, ViewOf, Played;
      cb := invalid.Shift();
    }

    /** Subscription callbacks get NULL, in the order the table yields them. */
    method RunTable(t: map<Name, Callback>)
      requires Inv() && !freed && !inCallback && Closing() && (regular ==> t == map[])
      modifies this, replies, invalid
      ensures Inv() && Valid() && Settled() && !inCallback && Closing() && invalid.Contents() == old(invalid.Contents())
      ensures TableGiven(old(calls), calls, t)
      decreases 1, 1
    {
      hide Account, LogState, Tracks, Plain, ViewOf, Played, Replied, WithFn, IsQueue, Items, NullCalls, ValuesOf;
      var left := t.Keys;
      ghost var names: seq<Name> := [];
      NoNames(t);
      NoNullCalls(calls);
      while left != {}
        invariant Inv() && Valid() && !inCallback && Closing() && Settled() && left <= t.Keys
        invariant invalid.Contents() == old(invalid.Contents())
        invariant AllBut(names, t, left) && calls == old(calls) + NullCalls(ValuesOf(t, names))
        decreases |left|
      {
        var name :| name in left;
        OneName(t, names, left, name);
        LastNullCall(old(calls), ValuesOf(t, names), t[name]);
        left := left - {name};
        RunCallback(t[name], None);
        names := names + [name];
      }
      assert InSomeOrder(names, t);
    }

    /** A close of the context goes on record. */
    ghost method Record(d: Deed, closing: bool, freeing0: bool)
      requires Valid() && Closes(d) && Closing() && freeing == (freeing0 || (d.Close? && d.free))
      requires Account(replies.Contents(), accepted, consumed, answered, tearing)
      requires regular ==> Plain(st, monitoring, invalid.Contents())
      requires LogState(history, accepted, closing, freeing0, regular) && Tracks(history, st, monitoring, aborted)
      modifies this`history
      ensures QueueInv() && history == old(history) + [d] && ViewOf(history) == Seen(old(ViewOf(history)), d)
    {
      hide Account, LogState, Tracks, Plain, ViewOf;
      LogOne(history, accepted, closing, freeing0, regular, d, regular);
      TrackOther(history, st, monitoring, aborted, d);
      ViewMore(history, d);
      assert accepted + QueuedBy(d) == accepted;
      history := history + [d];
    }

    /** redisAsyncFree. */
    method AsyncFree()
      requires Valid() && QueueInv() && !freed && (!inCallback ==> CallsInv())
      modifies this, replies, invalid
      ensures Valid() && QueueInv() && (!inCallback ==> CallsInv()) && inCallback == old(inCallback)
      ensures Closing() && aborted == old(aborted)
      ensures inCallback ==> freeing && Kept() && SameCalls() && Frozen() && script == old(script)
      ensures inCallback ==> ViewOf(history).done == old(ViewOf(history).done) + [Free]
      ensures !inCallback ==> freed && freeing && replies.Contents() == [] && EndedBy(Free)
      ensures !inCallback ==> consumed == old(consumed) + Nulls(old(replies.Contents()))
      ensures !inCallback ==>
                NullsGiven(old(calls), calls, old(replies.Contents()), old(invalid.Contents()), old(st))
      decreases if inCallback then 0 else 1, if inCallback then 0 else 5
    {
      hide Account, LogState, Tracks, Plain, ViewOf, Played, Nulls, NullsGiven, Replied, WithFn;
      ghost var closing, freeing0 := Closing(), freeing;
      freeing := true;
      Record(Close(!inCallback, true), closing, freeing0);
      if !inCallback {
        Teardown();
      }
    }

    /** The context ended at the user's request. */
    twostate predicate EndedBy(action: Action)
      reads this
    {
      && accepted == old(accepted) && answered == old(answered) && regular == old(regular)
      && old(consumed) <= consumed && Asked(action) && obuf == old(obuf) && pushes == old(pushes)
    }

    /** The user asked for one action, and nothing arrived or failed meanwhile. */
    twostate predicate Asked(action: Action)
      reads this
    {
      var v, v0 := ViewOf(history), old(ViewOf(history));
      v == v0.(asked := v0.asked + [action], done := v.done)
    }

    /** The context failed, and nothing else happened. */
    twostate predicate Failed(cause: Cause)
      reads this
    {
      var v, v0 := ViewOf(history), old(ViewOf(history));
      v == v0.(faults := v0.faults + [cause], done := v.done)
    }

    /** NULL replies are given when the context is freed or nothing more can be read, not by a clean disconnect. */
    ghost predicate Explained()
      reads this
    {
      |answered| == |consumed| || freeing || Unreadable in ViewOf(history).faults
    }

    method ShiftNothing()
      requires Inv() && replies.Contents() == []
      modifies replies
      ensures Inv() && replies.Contents() == []
    {
      hide Replied;
      var ret := replies.Shift();
      assert ret == None;
    }

    /** __redisAsyncDisconnect; the assert on a clean disconnect always holds. */
    method DisconnectNow(ghost cause: Cause)
      requires Inv() && !freed && !inCallback && !tearing && (err || (disconnecting && replies.Contents() == []))
      requires cause == Unreadable || replies.Contents() == []
      modifies this, replies, invalid
      ensures Inv() && freed && !inCallback && aborted == old(aborted) && Closing() && Explained()
      ensures replies.Contents() == [] && accepted == old(accepted) && answered == old(answered)
      ensures regular == old(regular) && (old(freeing) ==> freeing)
      ensures if old(err) then Failed(cause) else Silent()
      ensures obuf == old(obuf) && pushes == old(pushes) && err == old(err) && disconnecting
      ensures consumed == old(consumed) + Nulls(old(replies.Contents()))
      ensures NullsGiven(old(calls), calls, old(replies.Contents()), old(invalid.Contents()), old(st))
      decreases 1, 4
    {
      hide Account, LogState, Tracks, Plain, ViewOf, Played, Nulls, NullsGiven, Replied, WithFn, IsQueue, Items;
      Balanced();
      if !err {
        ShiftNothing();
      } else {
        ghost var closing := Closing();
        disconnecting := true;
        Record(Fault(cause), closing, freeing);
      }
      Teardown();
      NoNulls(old(consumed));
    }

    /** Before the teardown every consumed entry got a reply. */
    lemma {:induction false} Balanced()
      requires Valid() && QueueInv() && !tearing
      ensures |answered| == |consumed|
    {
    }

    /** redisAsyncDisconnect. */
    method AsyncDisconnect()
      requires Valid() && QueueInv() && !freed && (!inCallback ==> CallsInv() && !tearing && !err)
      modifies this, replies, invalid
      ensures Valid() && QueueInv() && (!inCallback ==> CallsInv()) && inCallback == old(inCallback)
      ensures Closing() && aborted == old(aborted)
      ensures inCallback ==> disconnecting && Kept() && SameCalls() && Frozen() && script == old(script)
      ensures inCallback ==> ViewOf(history).done == old(ViewOf(history).done) + [Disconnect]
      ensures !inCallback ==> EndedBy(Disconnect) && (freed <==> old(replies.Contents()) == [])
      ensures freed ==> replies.Contents() == [] && Explained()
      ensures !freed ==> tearing == old(tearing) && consumed == old(consumed)
      ensures !freed ==> err == old(err) && freeing == old(freeing)
      ensures freed ==> NullsGiven(old(calls), calls, [], old(invalid.Contents()), old(st))
      ensures !freed ==> Frozen() && calls == old(calls)
      decreases if inCallback then 0 else 1, if inCallback then 0 else 5
    {
      hide Account, LogState, Tracks, Plain, ViewOf, Played, Nulls, NullsGiven, Replied, WithFn;
      ghost var closing := Closing();
      disconnecting := true;
      Record(Close(!inCallback, false), closing, freeing);
      if !inCallback && replies.IsEmpty() {
        NoNulls(consumed);
        DisconnectNow(Unreadable);
      }
    }

    // ---- Replies ----

    /** __redisGetSubscribeCallback; None when an assert on the reply's shape fails. */
    method GetSubscribeCallback(reply: Reply, cb0: Callback) returns (cb: Option<Callback>)
      requires Valid()
      modifies this`st, invalid
      ensures Valid() && replies.Contents() == old(replies.Contents())
      ensures IsSubscriptionArray(reply) ==>
                match Route(old(st), reply)
                case AssertFailed => cb == None && st == old(st)
                case Routed(st', found) => st == st' && cb == Some(if found == None then cb0 else found.value)
      ensures !IsSubscriptionArray(reply) ==>
                && st == old(st)
                && cb == Some(if old(invalid.Contents()) == [] then cb0 else old(invalid.Contents())[0])
      ensures invalid.Contents() ==
              if IsSubscriptionArray(reply) || old(invalid.Contents()) == [] then old(invalid.Contents())
              else old(invalid.Contents())[1..]
    {
      hide Route;
      if IsSubscriptionArray(reply) {
        match Route(st, reply) {
          case AssertFailed => return None;
          case Routed(st', found) =>
            st := st';
            return Some(if found == None then cb0 else found.value);
        }
      } else {
        var first := invalid.Shift();
        return Some(if first == None then cb0 else first.value);
      }
    }

    /** Facts about a regular context that is about to handle a reply. */
    lemma {:induction false} RegularFacts()
      requires Inv() && regular
      ensures !st.subscribed && !monitoring
    {
    }

    /** The context either goes on, or has ended with every entry consumed or an assert failed. */
    ghost predicate Sane()
      reads this, replies, invalid
    {
      && Inv() && !inCallback
      && (freed ==> replies.Contents() == [] && Closing() && Explained())
      && (!freed ==> !tearing)
      && (!freed && !aborted ==> !err && (freeing ==> pushCb))
      && (aborted ==> !freed && replies.Contents() == [])
    }

    /** A reply arrived; the user asked for nothing. */
    twostate predicate Arrival(reply: Reply)
      reads this
    {
      var v, v0 := ViewOf(history), old(ViewOf(history));
      v.asked == v0.asked && v.arrived == v0.arrived + [reply]
    }

    /** Either nothing failed, or an error reply that no entry waited for ended the context. */
    twostate predicate MayRefuse(reply: Reply)
      reads this
    {
      var v, v0 := ViewOf(history), old(ViewOf(history));
      v.faults == v0.faults || (freed && reply.Error? && v.faults == v0.faults + [Refused(reply)])
    }

    /** One reply is handed to this callback, and the call is still to be made. */
    ghost predicate Owing(cb: Callback, reply: Reply)
      reads this, replies, invalid
    {
      && Valid() && QueueInv() && ScriptOk() && !freed && !aborted && !inCallback && !tearing && !err
      && (freeing ==> pushCb)
      && (regular ==> WithFn(consumed) == calls + Handing(Some(cb), reply))
      && ViewOf(history).handed == Replied(calls) + Handing(Some(cb), reply) && ViewOf(history).waited == answered
    }

    /**
     One reply that is no spontaneous push; cb0 is what the loop variable cb held before, and cb what it holds after.
     The reply goes to the oldest entry of the queue.  If there is none, an error ends the context, and any other reply
     belongs to the subscriptions: the entry of its channel or pattern, or the oldest stray callback if it is no array.
     Whoever is found is called with the reply, and nobody else is unless the context ends.
     */
    method TakeReply(reply: Reply, cb0: Callback) returns (cb: Callback)
      requires Sane() && !freed && !aborted
      modifies this, replies, invalid
      ensures Sane() && Arrival(reply) && MayRefuse(reply) && (regular ==> old(regular))
      ensures answered == old(answered) || answered == old(answered) + [reply]
      ensures !freed && !aborted && regular ==> answered == old(answered) + [reply]
      ensures answered == old(answered) <==> old(replies.Contents()) == []
      ensures aborted ==> answered == old(answered)
      ensures aborted <==>
                && old(replies.Contents()) == [] && !reply.Error?
                && if old(st).subscribed then IsSubscriptionArray(reply) && Route(old(st), reply) == AssertFailed
                   else !old(monitoring)
      ensures old(replies.Contents()) != [] ==> cb == old(replies.Contents())[0]
      ensures old(replies.Contents()) == [] && !reply.Error? && !aborted ==>
                FoundFor(reply, cb0, old(st), old(invalid.Contents()), cb)
      ensures pushes == old(pushes) && (freed ==> freeing || err) && (aborted ==> calls == old(calls))
      ensures old(replies.Contents()) == [] && reply.Error? ==>
                freed && NullsGiven(old(calls), calls, [], old(invalid.Contents()), old(st))
      ensures !aborted && (old(replies.Contents()) != [] || !reply.Error?) ==>
                && Follows(calls, old(calls) + if cb.fn then [Consumption(cb, Some(reply))] else [], freed)
                && (freed <==> cb.fn && freeing)
    {
      hide Account, LogState, Tracks, Plain, IsQueue, Items, WithFn, Entries, AnswersOk, ViewOf, Played, Replied;
      hide NullsGiven, FoundFor;
      var shifted := ShiftReply(Some(reply));
      if shifted == None {
        cb := TakeStray(reply, cb0);
        if freed || aborted { return; }
      } else {
        ConsumeOne(old(consumed), Consumption(shifted.value, Some(reply)));
        cb := shifted.value;
        Note(reply, true, Some(cb), st, st, aborted);
      }
      RunReply(cb, reply);
    }

    /** A reply goes on record, with what it did to the tables; the account is as it was. */
    ghost method Note(
      reply: Reply, waited: bool, to: Option<Callback>, st0: SubState, st': SubState, aborted': bool)
      requires Valid() && st == st' && aborted == aborted'
      requires Account(replies.Contents(), accepted, consumed, answered, tearing)
      requires regular ==> Plain(st, monitoring, invalid.Contents())
      requires LogState(history, accepted, Closing(), freeing, regular)
      requires Tracks(history + [Arrived(reply, waited, to)], st, monitoring, aborted)
            || (Tracks(history, st, monitoring, aborted) && (waited || reply.Error?))
      modifies this`history
      ensures QueueInv() && history == old(history) + [Arrived(reply, waited, to)]
      ensures ViewOf(history) == Seen(old(ViewOf(history)), Arrived(reply, waited, to))
    {
      hide Account, LogState, Tracks, Plain, ViewOf;
      ghost var d := Arrived(reply, waited, to);
      LogOne(history, accepted, Closing(), freeing, regular, d, regular);
      ViewMore(history, d);
      assert accepted + QueuedBy(d) == accepted;
      if waited || reply.Error? {
        if Tracks(history, st, monitoring, aborted) {
          TrackOther(history, st, monitoring, aborted, d);
        }
      }
      history := history + [d];
    }

    /** The callback of a reply that no queued entry waits for. */
    method TakeStray(reply: Reply, cb0: Callback) returns (cb: Callback)
      requires Sane() && !freed && !aborted && replies.Contents() == []
      modifies this, replies, invalid
      ensures if freed || aborted then Sane() else Owing(cb, reply)
      ensures Arrival(reply) && MayRefuse(reply) && answered == old(answered) && (regular ==> old(regular))
      ensures Valid() && replies.Contents() == [] && (!freed && !aborted ==> !regular)
      ensures (freed <==> reply.Error?) && (freed ==> err) && pushes == old(pushes)
      ensures aborted <==>
                && !reply.Error?
                && if old(st).subscribed then IsSubscriptionArray(reply) && Route(old(st), reply) == AssertFailed
                   else !old(monitoring)
      ensures !freed && !aborted ==> FoundFor(reply, cb0, old(st), old(invalid.Contents()), cb)
      ensures if freed then NullsGiven(old(calls), calls, [], old(invalid.Contents()), old(st)) else calls == old(calls)
    {
      hide Account, LogState, Tracks, Plain, IsQueue, Items, WithFn, Entries, AnswersOk, ViewOf, Played, Replied, Route;
      hide NullsGiven, FoundFor;
      cb := cb0;
      if reply.Error? {
        Note(reply, false, None, st, st, aborted);
        err := true;
        DisconnectNow(Refused(reply));
        return;
      }
      if !st.subscribed && !monitoring {
        TrackAnswer(history, st, monitoring, reply, st, true, None);
        aborted := true;
        Note(reply, false, None, st, st, true);
        return;
      }
      assert !regular by {
        if regular { RegularFacts(); }
      }
      cb := RouteStray(reply, cb);
    }

    /** The routing of a stray reply in a context that is subscribed or monitoring. */
    method RouteStray(reply: Reply, cb0: Callback) returns (cb: Callback)
      requires Sane() && !freed && !aborted && replies.Contents() == [] && !regular && (st.subscribed || monitoring)
      modifies this`st, this`aborted, this`history, invalid
      ensures if aborted then Sane() else Owing(cb, reply)
      ensures Valid() && !freed && replies.Contents() == []
      ensures Arrival(reply) && ViewOf(history).faults == old(ViewOf(history)).faults
      ensures aborted <==> old(st).subscribed && IsSubscriptionArray(reply) && Route(old(st), reply) == AssertFailed
      ensures !aborted ==> FoundFor(reply, cb0, old(st), old(invalid.Contents()), cb)
    {
      hide Account, LogState, Tracks, Plain, IsQueue, Items, WithFn, Entries, AnswersOk, ViewOf, Played, Replied, Route;
      cb := cb0;
      ghost var st0 := st;
      ghost var to := Some(cb0);
      if st.subscribed {
        var found := GetSubscribeCallback(reply, cb);
        to := found;
        if found == None {
          aborted := true;
        } else {
          cb := found.value;
        }
      }
      TrackAnswer(history, st0, monitoring, reply, st, aborted, to);
      Note(reply, false, to, st0, st, aborted);
    }

    /** Calls the callback of a reply, and frees the context if the callback asked for it. */
    method RunReply(cb: Callback, reply: Reply)
      requires Owing(cb, reply)
      modifies this, replies, invalid
      ensures Sane() && !aborted && Silent() && answered == old(answered) && (regular ==> old(regular))
      ensures pushes == old(pushes) && err == old(err) && (freed <==> cb.fn && freeing)
      ensures Follows(calls, old(calls) + if cb.fn then [Consumption(cb, Some(reply))] else [], freed)
    {
      hide Account, LogState, Tracks, Plain, IsQueue, Items, WithFn, Entries, AnswersOk, ViewOf, Played, Replied;
      hide NullCalls, ValuesOf, InSomeOrder;
      RunCallback(cb, Some(reply));
      if cb.fn && freeing {
        Teardown();
      }
    }

    /** The NULL reply when nothing more can be read yet, or a read error. */
    method EndOfReplies(end: End, cb: Callback)
      requires Sane() && !freed && !aborted
      modifies this, replies, invalid
      ensures Sane() && !aborted && answered == old(answered) && regular == old(regular)
      ensures if end.Broken? then freed && err && Failed(Unreadable) else Silent()
      ensures end.Waiting? ==> (freed <==> old(disconnecting) && old(obuf) == [] && old(replies.Contents()) == [])
      ensures freed ==> err || (disconnecting && obuf == [])
      ensures freed ==> NullsGiven(old(calls), calls, old(replies.Contents()), old(invalid.Contents()), old(st))
      ensures !freed ==> calls == old(calls) && st == old(st)
      ensures !freed ==> obuf == old(obuf) && disconnecting == old(disconnecting)
      ensures !freed ==> replies.Contents() == old(replies.Contents()) + if monitoring then [cb] else []
      ensures pushes == old(pushes)
    {
      hide Account, LogState, Tracks, Plain, IsQueue, Items, WithFn, Entries, AnswersOk, ViewOf, Played, Replied;
      match end {
        case Waiting(_) =>
          if disconnecting && obuf == [] && replies.IsEmpty() {
            DisconnectNow(Unreadable);
          } else if !monitoring {
            assert replies.Contents() + [] == replies.Contents();
          } else {
            assert !regular by {
              if regular { RegularFacts(); }
            }
            PutBack(cb);
          }
        case Broken(_) =>
          err := true;
          DisconnectNow(Unreadable);
      }
    }

    /** The callback of a monitoring context goes back into the queue. */
    method PutBack(cb: Callback)
      requires Inv() && !regular
      modifies this`history, this`accepted, replies
      ensures Inv() && replies.Contents() == old(replies.Contents()) + [cb] && Silent()
      ensures accepted == old(accepted) + [cb] && history == old(history) + [Requeue(cb)]
    {
      hide Account, LogState, Tracks, Plain, IsQueue, Items, WithFn, Entries, AnswersOk, ViewOf, Played, Replied;
      AcceptState(replies.Contents(), accepted, consumed, answered, tearing, [cb]);
      LogOne(history, accepted, Closing(), freeing, regular, Requeue(cb), regular);
      TrackOther(history, st, monitoring, aborted, Requeue(cb));
      ViewMore(history, Requeue(cb));
      replies.Push(cb);
      history, accepted := history + [Requeue(cb)], accepted + [cb];
    }

    /**
     redisProcessCallbacks on what the reader yields: each reply goes to the oldest queued entry, whose callback
     may end the context.  aborted: the assert that a context without queued entries is subscribed failed.
     */
    method ProcessCallbacks(t: Transcript)
      requires Sane() && !freed && !aborted
      modifies this, replies, invalid
      ensures Sane() && Brought(Readable(t)) && (regular ==> old(regular))
      ensures regular ==> old(answered) <= answered <= old(answered) + Answers(t.replies)
      ensures regular && !freed && !aborted ==> answered == old(answered) + Answers(t.replies)
      ensures regular && aborted ==> answered < old(answered) + Answers(t.replies)
      ensures t.end.Broken? ==> freed || aborted
      ensures freed ==> freeing || err || (disconnecting && obuf == [])
      ensures !freed && !aborted ==> !(disconnecting && obuf == [] && replies.Contents() == [])
      ensures !freed && !aborted ==> pushes == old(pushes) + PushCalls(pushCb, t.replies)
    {
      hide Account, LogState, Tracks, Plain, IsQueue, Items, WithFn, Entries, AnswersOk, Answers, IsSpontaneousPush;
      hide Inv, ViewOf, Played, Replied;
      var cb := Callback(false, 0, 0);
      var i := 0;
      NoAnswers(answered, t.replies);
      assert t.replies[..0] == [];
      NoAnswers(ViewOf(history).arrived, t.replies);
      while i < |t.replies|
        invariant 0 <= i <= |t.replies| && Sane() && !freed && !aborted && (regular ==> old(regular))
        invariant regular ==> answered == old(answered) + Answers(t.replies[..i])
        invariant BroughtSoFar(t.replies[..i]) && pushes == old(pushes) + PushCalls(pushCb, t.replies[..i])
      {
        OneAnswer(t.replies, i);
        OnePush(pushCb, t.replies, i);
        var reply := t.replies[i];
        if IsSpontaneousPush(reply) {
          PushReply();
        } else {
          cb := TakeReply(reply, cb);
          Regroup(old(answered), Answers(t.replies[..i]), reply);
          Regroup(old(ViewOf(history).arrived), Answers(t.replies[..i]), reply);
          AnswersSoFar(old(answered), t.replies, i);
          AnswersSoFar(old(ViewOf(history).arrived), t.replies, i);
          if freed || aborted {
            assert reply in t.replies;
            return;
          }
        }
        i := i + 1;
      }
      assert t.replies[..i] == t.replies;
      EndOfReplies(t.end, cb);
    }

    /** These replies arrived, and nothing failed. */
    twostate predicate BroughtSoFar(replies: seq<Reply>)
      reads this
    {
      var v, v0 := ViewOf(history), old(ViewOf(history));
      v == v0.(arrived := v0.arrived + Answers(replies), waited := v.waited, handed := v.handed,
               done := v.done)
    }

    method PushReply()
      requires Sane() && !freed && !aborted
      modifies this, replies, invalid
      ensures Sane() && !freed && !aborted && answered == old(answered) && (regular ==> old(regular)) && Silent()
      ensures calls == old(calls) && pushes == old(pushes) + if pushCb then 1 else 0
    {
      hide Account, LogState, Tracks, Plain, IsQueue, Items, WithFn, Entries, AnswersOk, ViewOf, Played, Replied;
      RunPushCallback();
    }

    // ---- Whole runs ----

    /** An event's replies arrive, or a beginning of them if the context ends; a failure has its cause in the event. */
    twostate predicate Brought(e: UserEvent)
      reads this
    {
      var v, v0 := ViewOf(history), old(ViewOf(history));
      && v.asked == v0.asked + EventActions(e)
      && v0.arrived <= v.arrived <= v0.arrived + EventAnswers(e)
      && (!freed && !aborted ==> v.arrived == v0.arrived + EventAnswers(e))
      && (v.faults == v0.faults || (freed && exists c :: Caused(c, e) && v.faults == v0.faults + [c]))
    }

    /** When an event ends the context. */
    twostate predicate EndsRight(e: UserEvent)
      reads this, replies
      requires old(Valid())
    {
      match e
      case UserCommand(_, _) => !freed && !aborted
      case UserDisconnect => !aborted && (freed <==> old(replies.Contents()) == [])
      case UserFree => freed
      case ReadFailed => freed && Unreadable in ViewOf(history).faults
      case Writable(_) => !freed && !aborted
      case Readable(t) =>
        && (t.end.Broken? ==> freed || aborted)
        && (freed ==> freeing || err || (disconnecting && obuf == []))
    }

    /** What an event does besides: the output buffer, and the calls when no reply is read. */
    twostate predicate Effect(e: UserEvent)
      reads this, replies, invalid
      requires Valid() && old(Valid())
    {
      match e
      case UserCommand(argv, cb) =>
        var ok := !old(Closing()) && (Classify(argv).UnsubscribeCmd? ==> old(st).subscribed);
        calls == old(calls) && obuf == old(obuf) + if ok then Formatted(argv) else []
      case UserDisconnect =>
        if freed then NullsGiven(old(calls), calls, [], old(invalid.Contents()), old(st)) else calls == old(calls)
      case Writable(sent) =>
        && calls == old(calls) && accepted == old(accepted) && st == old(st)
        && obuf == if sent <= |old(obuf)| then old(obuf)[sent..] else []
      case Readable(_) => true
      case _ => NullsGiven(old(calls), calls, old(replies.Contents()), old(invalid.Contents()), old(st))
    }

    method Handle(e: UserEvent)
      requires Sane() && !freed && !aborted
      modifies this, replies, invalid
      ensures Sane() && Brought(e) && EndsRight(e) && Effect(e) && (regular ==> old(regular))
      ensures regular ==> old(answered) <= answered <= old(answered) + EventAnswers(e)
      ensures regular && !freed && !aborted ==> answered == old(answered) + EventAnswers(e)
      ensures regular && aborted ==> answered < old(answered) + EventAnswers(e)
      ensures e.Readable? && !freed && !aborted ==> !(disconnecting && obuf == [] && replies.Contents() == [])
      ensures !freed && !aborted ==> pushes == old(pushes) + if e.Readable? then PushCalls(pushCb, e.t.replies) else 0
    {
      hide Account, LogState, Tracks, Plain, IsQueue, Items, WithFn, Entries, AnswersOk, Answers, ViewOf, Played;
      hide Replied, NullsGiven, Formatted, Classify;
      assert answered + [] == answered && ViewOf(history).arrived + [] == ViewOf(history).arrived;
      assert ViewOf(history).asked + [] == ViewOf(history).asked;
      match e {
        case UserCommand(argv, cb) => HandleCommand(argv, cb);
        case UserDisconnect => AsyncDisconnect();
        case UserFree => AsyncFree();
        case Readable(t) => ProcessCallbacks(t);
        case ReadFailed =>
          HandleFailure();
          assert Caused(Unreadable, e);
        case Writable(sent) => HandleWrite(sent);
      }
    }

    /** redisAsyncHandleRead when reading fails. */
    method HandleFailure()
      requires Sane() && !freed && !aborted
      modifies this, replies, invalid
      ensures Sane() && freed && !aborted && Failed(Unreadable)
      ensures regular == old(regular) && answered == old(answered)
      ensures NullsGiven(old(calls), calls, old(replies.Contents()), old(invalid.Contents()), old(st))
    {
      hide Account, LogState, Tracks, Plain, IsQueue, Items, WithFn, Entries, AnswersOk, ViewOf, Played, Replied;
      hide NullsGiven, Nulls;
      err := true;
      DisconnectNow(Unreadable);
    }

    /** What was written leaves the output buffer. */
    method HandleWrite(sent: nat)
      requires Sane() && !freed && !aborted
      modifies this`obuf
      ensures Sane() && obuf == if sent <= |old(obuf)| then old(obuf)[sent..] else []
    {
      hide Account, LogState, Tracks, Plain, IsQueue, Items, WithFn, Entries, AnswersOk, ViewOf, Played, Replied;
      obuf := if sent <= |obuf| then obuf[sent..] else [];
    }

    method HandleCommand(argv: Argv, cb: Callback)
      requires Sane() && !freed && !aborted
      modifies this, replies, invalid
      ensures Sane() && (regular ==> old(regular)) && !freed && !aborted && answered == old(answered)
      ensures Asked(Issue(argv, cb)) && Effect(UserCommand(argv, cb)) && pushes == old(pushes)
    {
      hide Account, LogState, Tracks, Plain, IsQueue, Items, WithFn, Entries, AnswersOk, ViewOf, Played, Replied;
      hide Formatted, Classify;
      var ok := AsyncCommand(argv, cb);
      ViewMore(old(history), history[|history| - 1]);
    }

    /**
     Whatever a user and the callbacks do, over the n events that were handled before the context ended or the events
     ran out.  The history holds exactly what the user did, what the callbacks did and what arrived, each in its order.
     The entries ever queued are those of the accepted commands; they are consumed in that order, each once, the first
     with the replies they waited for, the others with NULL; and a freed context has no entry left.  NULL is given only
     by a free or when nothing more can be read.  Functions are called with replies just as the history hands them out.
     A free and a failure end the context, and every failure has its cause in the last event.

     With regular commands only, a command is accepted exactly when nothing closed the context before, unless it is an
     unsubscribe; the k-th entry consumed gets the k-th reply that arrived, and NULL only when the context ended before
     that reply was handed out; and each consumed entry's function is called exactly once, with what the entry got.
     aborted: a reply arrived for which no entry was queued.  If no reply is a push, the k-th accepted command gets the
     k-th of all replies read.

     If only what is foreseen happens, the tables are those of the table model, and in order unless a count leaked; and
     every message for a subscribed name is handed to the callback last given for it.
     */
    method Run(events: seq<UserEvent>) returns (n: nat)
      requires Sane() && !freed && !aborted
      requires accepted == [] && consumed == [] && answered == [] && calls == [] && pushes == 0 && history == []
      modifies this, replies, invalid
      ensures Sane() && n <= |events| && (n < |events| ==> freed || aborted)
      ensures Recorded(events[..n]) && EndedFor(events[..n]) && Delivered()
      ensures regular <==> OnlyRegular(history)
      ensures RegularActions(AllActions(events)) && RegularActions(Flat(script0)) ==> regular
      ensures regular ==> Judged(history) && calls == WithFn(consumed) && InTurn(answered, events[..n], freed, aborted)
      ensures regular && NoPushes(events[..n]) ==>
                var rs := AllReplies(events[..n]);
                && |answered| <= |rs| && (!freed && !aborted ==> |answered| == |rs|) && |consumed| <= |accepted|
                && forall k :: 0 <= k < |consumed| ==>
                     consumed[k] == Consumption(accepted[k], if k < |answered| then Some(rs[k]) else None)
      ensures !freed && !aborted ==> pushes == PushCalls(pushCb, AllReplies(events[..n]))
      ensures InOrder(history) ==> TablesFollow()
    {
      hide Account, LogState, Tracks, Plain, IsQueue, Items, WithFn, Entries, AnswersOk, Played;
      hide NoPushes, AllReplies, PushCalls;
      hide Recorded, EndedFor, InTurn;
      n := 0;
      assert events[..0] == [];
      NothingHandled();
      NoPushCalls(pushCb);
      while n < |events| && !freed && !aborted
        invariant n <= |events| && Sane() && Recorded(events[..n]) && EndedFor(events[..n])
        invariant regular ==> InTurn(answered, events[..n], freed, aborted)
        invariant !freed && !aborted ==> pushes == PushCalls(pushCb, AllReplies(events[..n]))
      {
        assert events[..n + 1] == events[..n] + [events[n]];
        MorePushCalls(pushCb, events[..n], events[n]);
        HandleNext(events[..n], events[n]);
        n := n + 1;
      }
      Summary(events, n);
      if regular && NoPushes(events[..n]) {
        Matched(replies.Contents(), accepted, consumed, answered, events[..n], freed, aborted);
      }
    }

    /** The history holds what the user asked for, what arrived and what the callbacks did. */
    ghost predicate Recorded(events: seq<UserEvent>)
      reads this
    {
      && LogsEvents(ViewOf(history), events, !freed && !aborted)
      && ViewOf(history).done + Flat(script) == Flat(script0) && script == Drop(script0, |calls| + pushes)
    }

    /** When and why the context ends. */
    ghost predicate EndedFor(events: seq<UserEvent>)
      reads this
    {
      && (events == [] ==> !freed && !aborted && history == [])
      && EndsFor(events, freed, aborted, ViewOf(history).faults)
    }

    /** The account of the entries; NULL is given only by a free or when nothing more can be read. */
    ghost predicate Delivered()
      reads this, replies
      requires replies.Valid()
    {
      && accepted == Queued(history) && accepted == Entries(consumed) + replies.Contents()
      && AnswersOk(consumed, answered) && Barred(history)
      && answered == ViewOf(history).waited && Replied(calls) == ViewOf(history).handed
      && (freed || aborted ==> accepted == Entries(consumed))
      && (freed ==> Closed(history))
      && (HasFree(history) ==> freed || aborted || pushCb)
      && (|answered| < |consumed| ==> freed && (HasFree(history) || Unreadable in ViewOf(history).faults))
    }

    lemma {:induction false} NothingHandled()
      requires Sane() && !freed && !aborted && history == [] && answered == []
      ensures Recorded([]) && EndedFor([]) && InTurn(answered, [], freed, aborted)
    {
    }

    method HandleNext(ghost past: seq<UserEvent>, e: UserEvent)
      requires Sane() && !freed && !aborted && Recorded(past) && EndedFor(past)
      requires regular ==> InTurn(answered, past, freed, aborted)
      modifies this, replies, invalid
      ensures Sane() && Recorded(past + [e]) && EndedFor(past + [e])
      ensures regular ==> InTurn(answered, past + [e], freed, aborted)
      ensures !freed && !aborted ==> pushes - old(pushes) == if e.Readable? then PushCalls(pushCb, e.t.replies) else 0
    {
      hide Account, LogState, Tracks, Plain, IsQueue, Items, WithFn, Entries, AnswersOk, ViewOf, Flat, Drop;
      hide Replied, Effect, EventAnswers, EventActions, LogsEvents, EndsFor, InTurn;
      ghost var v0, ans0 := ViewOf(history), answered;
      Handle(e);
      ghost var v := ViewOf(history);
      LogsNext(v0, v, past, e, !freed && !aborted);
      EndsNext(past, e, v0.faults, v.faults, freed, aborted);
      if regular {
        NextInTurn(ans0, answered, past, e, freed, aborted);
      }
    }

    /** The tables are those of the table model, and in order unless a count leaked; messages reach their callbacks. */
    ghost predicate TablesFollow()
      reads this
    {
      var w := WorldOf(history);
      && w.aborted == aborted && (!aborted ==> st == w.st && TablesSafe(w)) && AllReach(history)
      && (NoLeaks(Trace(history)) ==> Orderly(w))
    }

    lemma {:induction false} Summary(events: seq<UserEvent>, n: nat)
      requires Sane() && n <= |events| && Recorded(events[..n])
      ensures Delivered()
      ensures regular <==> OnlyRegular(history)
      ensures regular ==> Judged(history) && calls == WithFn(consumed)
      ensures RegularActions(AllActions(events)) && RegularActions(Flat(script0)) ==> regular
      ensures InOrder(history) ==> TablesFollow()
    {
      hide ViewOf, AllActions, AllAnswers, Queued, Entries, OnlyRegular, Judged, Barred, Closed, HasFree;
      hide WorldOf, Trace, InOrder, AllReach, Replied, NoLeaks, Orderly, TablesSafe, Flat, Drop, RegularActions;
      if RegularActions(AllActions(events)) && RegularActions(Flat(script0)) {
        AllActionsPrefix(events, n);
        var asked := ViewOf(history).asked;
        assert AllActions(events) == asked + AllActions(events)[|asked|..];
        PrefixRegular(asked, AllActions(events)[|asked|..]);
        PrefixRegular(ViewOf(history).done, Flat(script));
        RegularHistory(history);
      }
      FollowsInOrder(history);
    }
  }

  /** What the user asked for and what arrived are those of the events; all of it while the context goes on. */
  ghost predicate LogsEvents(v: View, events: seq<UserEvent>, going: bool) {
    && v.asked == AllActions(events)
    && v.arrived <= AllAnswers(events) && (going ==> v.arrived == AllAnswers(events))
  }

  lemma {:induction false} LogsNext(v0: View, v: View, past: seq<UserEvent>, e: UserEvent, going: bool)
    requires LogsEvents(v0, past, true) && v.asked == v0.asked + EventActions(e)
    requires v.arrived <= v0.arrived + EventAnswers(e) && (going ==> v.arrived == v0.arrived + EventAnswers(e))
    ensures LogsEvents(v, past + [e], going)
  {
    OneEvent(past, e);
  }

  /** The last of the events handled ended the context if it had to, and holds the cause of a failure. */
  ghost predicate EndsFor(events: seq<UserEvent>, freed: bool, aborted: bool, faults: seq<Cause>) {
    var last := |events| - 1;
    && (forall k :: 0 <= k <= last && MustEnd(events[k]) ==> k == last && (freed || aborted))
    && (forall k :: 0 <= k <= last && (events[k].UserFree? || events[k].ReadFailed?) ==> freed)
    && (freed || aborted ==> events != [] && MayEnd(events[last])) && (aborted ==> events[last].Readable?)
    && (faults == [] || (freed && events != [] && exists c :: Caused(c, events[last]) && faults == [c]))
  }

  lemma {:induction false} EndsNext(
    past: seq<UserEvent>, e: UserEvent, faults0: seq<Cause>, faults: seq<Cause>, freed: bool, aborted: bool)
    requires EndsFor(past, false, false, faults0)
    requires faults == faults0 || (freed && exists c :: Caused(c, e) && faults == faults0 + [c])
    requires (MustEnd(e) ==> freed || aborted) && (e.UserFree? || e.ReadFailed? ==> freed)
    requires (freed || aborted ==> MayEnd(e)) && (aborted ==> e.Readable?)
    ensures EndsFor(past + [e], freed, aborted, faults)
  {
    var events := past + [e];
    assert events[|past|] == e && forall k :: 0 <= k < |past| ==> events[k] == past[k];
    if faults != faults0 {
      var c :| Caused(c, e) && faults == faults0 + [c];
      assert faults == [c];
    }
  }

  /** Entries get the replies in turn: all of them while the context goes on. */
  ghost predicate InTurn(answered: seq<Reply>, events: seq<UserEvent>, freed: bool, aborted: bool) {
    && answered <= AllAnswers(events)
    && (!freed && !aborted ==> answered == AllAnswers(events))
    && (aborted ==> answered < AllAnswers(events))
  }

  lemma {:induction false} NextInTurn(
    ans0: seq<Reply>, ans: seq<Reply>, past: seq<UserEvent>, e: UserEvent, freed: bool, aborted: bool)
    requires InTurn(ans0, past, false, false) && ans <= ans0 + EventAnswers(e)
    requires !freed && !aborted ==> ans == ans0 + EventAnswers(e)
    requires aborted ==> ans < ans0 + EventAnswers(e)
    ensures InTurn(ans, past + [e], freed, aborted)
  {
    OneEvent(past, e);
  }

  function AllReplies(events: seq<UserEvent>): seq<Reply> {
    if events == [] then []
    else
      var e := events[|events| - 1];
      AllReplies(events[..|events| - 1]) + if e.Readable? then e.t.replies else []
  }

  lemma {:induction false} NoPushCalls(handler: bool)
    ensures PushCalls(handler, AllReplies([])) == 0
  {
  }

  lemma {:induction false} MorePushCalls(handler: bool, past: seq<UserEvent>, e: UserEvent)
    ensures PushCalls(handler, AllReplies(past + [e]))
         == PushCalls(handler, AllReplies(past)) + if e.Readable? then PushCalls(handler, e.t.replies) else 0
  {
    assert (past + [e])[..|past|] == past;
    AnswersAppend(AllReplies(past), if e.Readable? then e.t.replies else []);
  }

  predicate NoPushes(events: seq<UserEvent>) {
    forall i :: 0 <= i < |events| && events[i].Readable? ==> NoPush(events[i].t.replies)
  }

  lemma {:induction false} AllRepliesAnswer(events: seq<UserEvent>)
    requires NoPushes(events)
    ensures AllAnswers(events) == AllReplies(events)
    decreases |events|
  {
    if events != [] {
      var n := |events| - 1;
      assert forall i :: 0 <= i < n ==> events[..n][i] == events[i];
      AllRepliesAnswer(events[..n]);
      if events[n].Readable? {
        AllAreAnswers(events[n].t.replies);
      }
    }
  }

  lemma {:induction false} EntryAt(cs: seq<Consumption>, k: nat)
    requires k < |cs|
    ensures Entries(cs)[k] == cs[k].cb
    decreases |cs|
  {
    if k < |cs| - 1 {
      EntryAt(cs[..|cs| - 1], k);
    }
  }

  /** Without pushes the k-th entry accepted gets the k-th reply of all. */
  lemma {:induction false} Matched(
    queue: seq<Callback>, accepted: seq<Callback>, consumed: seq<Consumption>, answered: seq<Reply>,
    events: seq<UserEvent>, freed: bool, aborted: bool)
    requires accepted == Entries(consumed) + queue && AnswersOk(consumed, answered)
    requires InTurn(answered, events, freed, aborted) && NoPushes(events)
    ensures var rs := AllReplies(events);
            && |answered| <= |rs| && (!freed && !aborted ==> |answered| == |rs|) && |consumed| <= |accepted|
            && forall k :: 0 <= k < |consumed| ==>
                 consumed[k] == Consumption(accepted[k], if k < |answered| then Some(rs[k]) else None)
  {
    AllRepliesAnswer(events);
    hide AllReplies, AllAnswers, NoPushes, Entries;
    forall k | 0 <= k < |consumed|
      ensures consumed[k] == Consumption(accepted[k], if k < |answered| then Some(AllReplies(events)[k]) else None)
    {
      EntryAt(consumed, k);
      assert consumed[k].answer == if k < |answered| then Some(answered[k]) else None;
    }
  }

  /** What the run theorems of the table model say of the tables. */
  lemma {:induction false} FollowsInOrder(h: seq<Deed>)
    ensures WorldOf(h).aborted || TablesSafe(WorldOf(h))
    ensures NoLeaks(Trace(h)) ==> Orderly(WorldOf(h))
  {
    TablesSafeOverRuns(Trace(h));
    TablesOkOverRuns(Trace(h));
  }

  /** The event that brings about a failure. */
  predicate Caused(c: Cause, e: UserEvent) {
    match c
    case Unreadable => e.ReadFailed? || (e.Readable? && e.t.end.Broken?)
    case Refused(reply) => e.Readable? && reply.Error? && reply in e.t.replies
  }

  /** Issuing a command and writing never end a context. */
  predicate MayEnd(e: UserEvent) {
    !e.UserCommand? && !e.Writable?
  }

  /** No context goes on after these events. */
  predicate MustEnd(e: UserEvent) {
    e.UserFree? || e.ReadFailed? || (e.Readable? && e.t.end.Broken?)
  }

  function AddedIf(added: bool, cb: Callback): seq<Callback> {
    if added then [cb.(pendingSubs := 1)] else []
  }

  /** The entries of a queue, each given NULL. */
  function Nulls(queue: seq<Callback>): seq<Consumption> {
    if queue == [] then [] else [Consumption(queue[0], None)] + Nulls(queue[1..])
  }

  /** The call of a callback with NULL. */
  function Nulled(cb: Callback): seq<Consumption> {
    if cb.fn then [Consumption(cb, None)] else []
  }

  /** The functions among these callbacks, each called with NULL, in order. */
  function NullCalls(cbs: seq<Callback>): seq<Consumption> {
    if cbs == [] then [] else NullCalls(cbs[..|cbs| - 1]) + Nulled(cbs[|cbs| - 1])
  }

  lemma {:induction false} NoNullCalls(calls: seq<Consumption>)
    ensures NullCalls([]) == [] && calls + NullCalls([]) == calls
  {
  }

  lemma {:induction false} LastNullCall(calls: seq<Consumption>, cbs: seq<Callback>, cb: Callback)
    ensures calls + NullCalls(cbs + [cb]) == calls + NullCalls(cbs) + Nulled(cb)
  {
    assert (cbs + [cb])[..|cbs|] == cbs;
  }

  lemma {:induction false} FirstNullCall(cbs: seq<Callback>)
    requires cbs != []
    ensures NullCalls(cbs) == Nulled(cbs[0]) + NullCalls(cbs[1..])
    decreases |cbs|
  {
    var n := |cbs| - 1;
    if n > 0 {
      FirstNullCall(cbs[..n]);
      assert cbs[..n][1..] == cbs[1..][..n - 1];
    } else {
      assert cbs[..0] == [] && cbs[1..] == [];
    }
  }

  lemma {:induction false} OneNullCall(calls: seq<Consumption>, queue: seq<Callback>)
    requires queue != []
    ensures calls + Nulled(queue[0]) + NullCalls(queue[1..]) == calls + NullCalls(queue)
  {
    FirstNullCall(queue);
  }

  /** These are the names of the table but for some left, each once. */
  ghost predicate AllBut(names: seq<Name>, t: map<Name, Callback>, left: set<Name>) {
    && (forall i :: 0 <= i < |names| ==> names[i] in t && names[i] !in left)
    && (forall i, j :: 0 <= i < j < |names| ==> names[i] != names[j])
    && (forall x :: x in t && x !in left ==> x in names)
  }

  /** The names of the table, each once. */
  ghost predicate InSomeOrder(names: seq<Name>, t: map<Name, Callback>) {
    AllBut(names, t, {})
  }

  function ValuesOf(t: map<Name, Callback>, names: seq<Name>): seq<Callback>
    requires forall i :: 0 <= i < |names| ==> names[i] in t
  {
    seq(|names|, i requires 0 <= i < |names| => t[names[i]])
  }

  lemma {:induction false} NoNames(t: map<Name, Callback>)
    ensures AllBut([], t, t.Keys) && ValuesOf(t, []) == []
  {
  }

  lemma {:induction false} OneName(t: map<Name, Callback>, names: seq<Name>, left: set<Name>, name: Name)
    requires AllBut(names, t, left) && name in left && left <= t.Keys
    ensures AllBut(names + [name], t, left - {name})
    ensures ValuesOf(t, names + [name]) == ValuesOf(t, names) + [t[name]]
  {
    var more := names + [name];
    forall x | x in t && x !in left - {name} ensures x in more {
      if x != name {
        var i :| 0 <= i < |names| && names[i] == x;
        assert more[i] == x;
      } else {
        assert more[|names|] == x;
      }
    }
  }

  /** The calls are these, and once the context is freed others after them. */
  ghost predicate Follows(calls: seq<Consumption>, these: seq<Consumption>, freed: bool) {
    these <= calls && (!freed ==> calls == these)
  }

  /**
   The callback of a reply that no entry waits for, cb0 being the callback of the reply before.  In a subscribed context
   an array or push goes to the entry it is routed to, and any other reply to the oldest stray callback.
   */
  ghost predicate FoundFor(reply: Reply, cb0: Callback, st: SubState, strays: seq<Callback>, cb: Callback) {
    if !st.subscribed then cb == cb0
    else if !IsSubscriptionArray(reply) then cb == if strays == [] then cb0 else strays[0]
    else match Route(st, reply)
    case AssertFailed => false
    case Routed(_, found) => cb == if found == None then cb0 else found.value
  }

  /** Whom a stray reply finds, in a subscribed context: a message finds the entry of its channel or pattern. */
  lemma {:induction false} FoundIs(
    st: SubState, strays: seq<Callback>, pat: bool, kind: Kind, name: Name, more: seq<Reply>, other: Reply,
    cb0: Callback, cb: Callback)
    requires st.subscribed && (kind == Array || kind == Push)
    requires other.Aggregate? ==> other.kind != Array && other.kind != Push
    ensures var word := if pat then Ascii("pmessage") else Ascii("message");
            var t := if pat then st.patterns else st.channels;
            FoundFor(Aggregate(kind, [Str(word), Str(name)] + more), cb0, st, strays, cb)
            <==> cb == if name in t then t[name] else cb0
    ensures FoundFor(other, cb0, st, strays, cb) <==> cb == if strays == [] then cb0 else strays[0]
  {
    hide Route, Ascii;
    MessageRouted(st, pat, kind, name, more);
  }

  lemma {:induction false} AllReachIs(h: seq<Deed>)
    ensures AllReach(h) <==> forall i :: 0 <= i < |h| ==> Reaches(WorldOf(h[..i]), h[i])
    decreases |h|
  {
    hide Reaches, WorldOf;
    if h != [] {
      var n := |h| - 1;
      AllReachIs(h[..n]);
      forall i | 0 <= i < n ensures h[..n][..i] == h[..i] && h[..n][i] == h[i] {
      }
    }
  }

  /** The callbacks of a table were called with NULL, each once. */
  ghost predicate TableGiven(before: seq<Consumption>, after: seq<Consumption>, t: map<Name, Callback>) {
    exists names :: InSomeOrder(names, t) && after == before + NullCalls(ValuesOf(t, names))
  }

  /** Queued entries, stray callbacks and those of both tables were called with NULL, each once and in this order. */
  ghost predicate NullsGiven(
    before: seq<Consumption>, after: seq<Consumption>, queue: seq<Callback>, strays: seq<Callback>, st: SubState)
  {
    exists names1, names2 :: InSomeOrder(names1, st.channels) && InSomeOrder(names2, st.patterns)
      && after == before + NullCalls(queue) + NullCalls(strays)
                + NullCalls(ValuesOf(st.channels, names1)) + NullCalls(ValuesOf(st.patterns, names2))
  }

  lemma {:induction false} AfterStrays(
    calls0: seq<Consumption>, calls1: seq<Consumption>, calls2: seq<Consumption>, calls3: seq<Consumption>,
    strays: seq<Callback>, st: SubState)
    requires calls1 == calls0 + NullCalls(strays)
    requires TableGiven(calls1, calls2, st.channels) && TableGiven(calls2, calls3, st.patterns)
    ensures NullsGiven(calls0, calls3, [], strays, st)
  {
    NoNullCalls(calls0);
    hide NullCalls, ValuesOf;
  }

  /** NULL given to the queue first. */
  lemma {:induction false} AfterQueue(
    calls0: seq<Consumption>, calls1: seq<Consumption>, queue: seq<Callback>, strays: seq<Callback>, st: SubState)
    requires calls1 == calls0 + NullCalls(queue)
    ensures forall calls2 ::
              NullsGiven(calls1, calls2, [], strays, st) ==> NullsGiven(calls0, calls2, queue, strays, st)
  {
    NoNullCalls(calls1);
    hide NullCalls, ValuesOf;
  }

  lemma {:induction false} NoNulls(cs: seq<Consumption>)
    ensures cs + Nulls([]) == cs
  {
  }

  lemma {:induction false} OneNull(cs: seq<Consumption>, queue: seq<Callback>)
    requires queue != []
    ensures cs + [Consumption(queue[0], None)] + Nulls(queue[1..]) == cs + Nulls(queue)
  {
  }

  function EventAnswers(e: UserEvent): seq<Reply> {
    if e.Readable? then Answers(e.t.replies) else []
  }

  function AllAnswers(events: seq<UserEvent>): seq<Reply> {
    if events == [] then [] else AllAnswers(events[..|events| - 1]) + EventAnswers(events[|events| - 1])
  }

  function EventActions(e: UserEvent): seq<Action> {
    match e
    case UserCommand(argv, cb) => [Issue(argv, cb)]
    case UserDisconnect => [Disconnect]
    case UserFree => [Free]
    case _ => []
  }

  function AllActions(events: seq<UserEvent>): seq<Action> {
    if events == [] then [] else AllActions(events[..|events| - 1]) + EventActions(events[|events| - 1])
  }

  lemma {:induction false} OneEvent(past: seq<UserEvent>, e: UserEvent)
    ensures AllAnswers(past + [e]) == AllAnswers(past) + EventAnswers(e)
    ensures AllActions(past + [e]) == AllActions(past) + EventActions(e)
  {
    assert (past + [e])[..|past|] == past;
  }

  lemma {:induction false} AllActionsPrefix(events: seq<UserEvent>, n: nat)
    requires n <= |events|
    ensures AllActions(events[..n]) <= AllActions(events)
    decreases |events|
  {
    if n < |events| {
      AllActionsPrefix(events[..|events| - 1], n);
      assert events[..|events| - 1][..n] == events[..n];
    } else {
      assert events[..n] == events;
    }
  }

  /** The answers after i + 1 replies are a beginning of all answers. */
  lemma {:induction false} AnswersSoFar(before: seq<Reply>, rs: seq<Reply>, i: nat)
    requires i < |rs|
    ensures before + Answers(rs[..i]) <= before + Answers(rs)
    ensures before + Answers(rs[..i + 1]) <= before + Answers(rs)
  {
    AnswersPrefix(rs, i);
    AnswersPrefix(rs, i + 1);
  }

  /** The command's callback waits for its turn among the replies. */
  predicate Waits(argv: seq<seq<byte>>, st: SubState)
    requires argv != []
  {
    Classify(argv) == MonitorCmd || (Classify(argv) == RegularCmd && !st.subscribed)
  }

  /** A regular command in a subscribed context is not valid: its callback is set aside for the error reply. */
  predicate Strays(argv: seq<seq<byte>>, st: SubState)
    requires argv != []
  {
    Classify(argv) == RegularCmd && st.subscribed
  }

  predicate IsSubscriptionArray(reply: Reply) {
    reply.Aggregate? && (reply.kind == Array || reply.kind == Push)
  }

  lemma {:induction false} NoAnswers(answered: seq<Reply>, rs: seq<Reply>)
    ensures answered + Answers(rs[..0]) == answered
  {
  }

  lemma {:induction false} Regroup(a: seq<Reply>, b: seq<Reply>, r: Reply)
    ensures a + b + [r] == a + (b + [r])
  {
  }
}
