/**
 The words of the subscription protocol, letter by letter: which commands subscribe, which replies answer them or carry
 a message, and to whom a reply is routed.
 */
module PubSubWords {
  import opened Bytes
  import opened Resp
  import opened CallbackQueue
  import opened PubSub

  /** The word in any case. */
  predicate Agrees(s: seq<byte>, word: seq<byte>) {
    |s| == |word| && forall i :: 0 <= i < |s| ==> SameLetter(s[i], word[i])
  }

  predicate LowerCase(word: seq<byte>) {
    forall i :: 0 <= i < |word| ==> 97 <= word[i] <= 122
  }

  lemma {:induction false} LowerIs(s: seq<byte>, word: seq<byte>)
    requires LowerCase(word)
    ensures Lower(s) == word <==> Agrees(s, word)
  {
    if Lower(s) == word {
      forall i | 0 <= i < |s| ensures SameLetter(s[i], word[i]) {
        assert Lower(s)[i] == word[i];
      }
    }
  }

  /** How the words are written. */
  lemma {:induction false} Letters()
    ensures SUBSCRIBE == Ascii("subscribe") && UNSUBSCRIBE == Ascii("unsubscribe") && MONITOR == Ascii("monitor")
    ensures [112] + SUBSCRIBE == Ascii("psubscribe") && [112] + UNSUBSCRIBE == Ascii("punsubscribe")
    ensures [112] + MONITOR == Ascii("pmonitor")
  {
  }

  lemma {:induction false} LettersLower()
    ensures LowerCase(Ascii("subscribe")) && LowerCase(Ascii("unsubscribe")) && LowerCase(Ascii("monitor"))
    ensures LowerCase(Ascii("psubscribe")) && LowerCase(Ascii("punsubscribe")) && LowerCase(Ascii("pmonitor"))
    ensures LowerCase(Ascii("message")) && LowerCase(Ascii("pmessage"))
  {
  }

  // ---- Commands ----

  /** What follows a line end in the name of a command is not looked at. */
  lemma {:induction false} WordIs(name: seq<byte>, junk: seq<byte>)
    requires forall j :: 0 <= j && j + 1 < |name| ==> !(name[j] == 13 && name[j + 1] == 10)
    requires junk == [] || (|junk| >= 2 && junk[0] == 13 && junk[1] == 10)
    ensures Word(name + junk) == name
  {
    WordEnds(name + junk);
    var s := name + junk + CRLF;
    assert LineEndAt(s, |name|);
    forall j | 0 <= j < |name| ensures !LineEndAt(s, j) {
      assert s[j] == name[j];
      if j + 1 < |name| {
        assert s[j + 1] == name[j + 1];
      }
    }
    assert FindCRLF(s) == Some(|name|);
  }

  /** Which command a name in any case stands for. */
  lemma {:induction false} CommandWords(name: seq<byte>, junk: seq<byte>, args: seq<seq<byte>>)
    requires forall j :: 0 <= j && j + 1 < |name| ==> !(name[j] == 13 && name[j + 1] == 10)
    requires junk == [] || (|junk| >= 2 && junk[0] == 13 && junk[1] == 10)
    ensures var c := Classify([name + junk] + args);
            && (c == SubscribeCmd(false) <==> args != [] && Agrees(name, Ascii("subscribe")))
            && (c == SubscribeCmd(true) <==> args != [] && Agrees(name, Ascii("psubscribe")))
            && (c == UnsubscribeCmd(false) <==> Agrees(name, Ascii("unsubscribe")))
            && (c == UnsubscribeCmd(true) <==> Agrees(name, Ascii("punsubscribe")))
            && (c == MonitorCmd <==> Agrees(name, Ascii("monitor")) || Agrees(name, Ascii("pmonitor")))
  {
    hide Classify, Word, Lower, Agrees, Ascii;
    var argv := [name + junk] + args;
    WordIs(name, junk);
    ClassifyIs(argv, false);
    ClassifyIs(argv, true);
    Letters();
    LettersLower();
    hide SUBSCRIBE, UNSUBSCRIBE, MONITOR, LowerCase;
    LowerIs(name, Ascii("subscribe"));
    LowerIs(name, Ascii("psubscribe"));
    LowerIs(name, Ascii("unsubscribe"));
    LowerIs(name, Ascii("punsubscribe"));
    LowerIs(name, Ascii("monitor"));
    LowerIs(name, Ascii("pmonitor"));
    assert Spelled(false, SUBSCRIBE) == SUBSCRIBE && Spelled(false, UNSUBSCRIBE) == UNSUBSCRIBE;
  }

  /** A subscribe enters the new callback for one more name and counts the answer still to come. */
  lemma {:induction false} SubscribeOne(st: SubState, pat: bool, name: Name, cb: Callback)
    ensures var t := if pat then st.patterns else st.channels;
            var entry := cb.(pendingSubs := if name in t then t[name].pendingSubs + 1 else 1);
            IssueSubscribe(st, pat, [name], cb)
            == if pat then SubState(st.channels, t[name := entry], true)
               else SubState(t[name := entry], st.patterns, true)
  {
    var t := Table(st, pat);
    var n := if name in t then t[name].pendingSubs + 1 else 1;
    assert [name][1..] == [];
    assert AddAll(t, [name], cb, 1) == AddAll(t[name := cb.(pendingSubs := n)], [], cb, n);
  }

  // ---- Replies ----

  lemma {:induction false} TextEnds(word: seq<byte>, junk: seq<byte>)
    requires 0 !in word && (junk == [] || junk[0] == 0)
    ensures CString(word + junk) == word
    decreases |word|
  {
    if word == [] {
      assert word + junk == junk;
    } else {
      assert (word + junk)[1..] == word[1..] + junk;
      TextEnds(word[1..], junk);
    }
  }

  /** What is to be done with a reply whose first word is this one. */
  datatype Sense = Subscribed | Unsubscribed | Other

  function SenseOf(verb: seq<byte>): Sense {
    if Agrees(verb, Ascii("subscribe")) then Subscribed
    else if Agrees(verb, Ascii("unsubscribe")) then Unsubscribed
    else Other
  }

  lemma {:induction false} SenseIs(verb: seq<byte>)
    ensures Lower(verb) == SUBSCRIBE <==> SenseOf(verb) == Subscribed
    ensures Lower(verb) == UNSUBSCRIBE <==> SenseOf(verb) == Unsubscribed
  {
    hide Lower, Agrees, Ascii;
    Letters();
    LettersLower();
    LowerIs(verb, Ascii("subscribe"));
    LowerIs(verb, Ascii("unsubscribe"));
    hide LowerCase, SUBSCRIBE, UNSUBSCRIBE;
  }

  /** The reply's first word up to a NUL, and the name it is about. */
  function About(kind: Kind, word: seq<byte>, junk: seq<byte>, name: Name, more: seq<Reply>): Reply {
    Aggregate(kind, [Str(word + junk), Str(name)] + more)
  }

  /**
   To whom a reply goes: to the callback of the pattern if its word begins with a p in either case, else to that of the
   channel, and to nobody if there is none.  Only the answers to a subscribe or unsubscribe change the tables, and only
   of this name.
   */
  lemma {:induction false} RoutedTo(
    st: SubState, kind: Kind, word: seq<byte>, junk: seq<byte>, name: Name, more: seq<Reply>)
    requires 0 !in word && (junk == [] || junk[0] == 0)
    ensures var pat := word != [] && (word[0] == 112 || word[0] == 80);
            var verb := if pat then word[1..] else word;
            var t := if pat then st.patterns else st.channels;
            var route := Route(st, About(kind, word, junk, name, more));
            if name !in t then route == Routed(st, None)
            else match SenseOf(verb)
            case Subscribed =>
              var cb := t[name].(pendingSubs := t[name].pendingSubs - 1);
              route == Routed(if pat then st.(patterns := t[name := cb]) else st.(channels := t[name := cb]), Some(cb))
            case Unsubscribed =>
              if more == [] || !more[0].Integer? then route == AssertFailed
              else
                var t' := if t[name].pendingSubs == 0 then t - {name} else t;
                var others := if pat then st.channels else st.patterns;
                var on := st.subscribed && !(more[0] == Integer(0) && t' == map[] && others == map[]);
                route == Routed(if pat then SubState(others, t', on) else SubState(t', others, on), Some(t[name]))
            case Other => route == Routed(st, Some(t[name]))
  {
    var pat := word != [] && (word[0] == 112 || word[0] == 80);
    var verb := if pat then word[1..] else word;
    var t := if pat then st.patterns else st.channels;
    TextEnds(word, junk);
    SenseIs(verb);
    hide Lower, CString, SenseOf, SUBSCRIBE, UNSUBSCRIBE;
    assert StartsWithP(word) == pat && Table(st, pat) == t;
    var e := [Str(word + junk), Str(name)] + more;
    assert e[0] == Str(word + junk) && e[1] == Str(name) && (more != [] ==> e[2] == more[0]);
    assert Lower(verb) == SUBSCRIBE ==> Lower(verb) != UNSUBSCRIBE;
    if name in t {
      assert t[name := t[name]] == t;
    }
  }

  /** A reply without two strings at its head fails an assert. */
  lemma {:induction false} Misshapen(st: SubState, kind: Kind, elements: seq<Reply>)
    ensures Route(st, Aggregate(kind, elements)) == AssertFailed
            <== |elements| < 2 || !elements[0].Str? || !elements[1].Str?
  {
  }

  // ---- Published messages ----

  function MessageWord(pat: bool): seq<byte> {
    if pat then Ascii("pmessage") else Ascii("message")
  }

  lemma {:induction false} MessageWords(pat: bool)
    ensures var w := MessageWord(pat); w != [] && 0 !in w && (w[0] == 112 <==> pat) && w[0] != 80
    ensures SenseOf(if pat then MessageWord(pat)[1..] else MessageWord(pat)) == Other
  {
    if pat {
      assert |MessageWord(pat)[1..]| == 7;
    }
  }

  /** A published message goes to the callback of its channel or pattern, whatever its payload, and changes nothing. */
  lemma {:induction false} MessageRouted(st: SubState, pat: bool, kind: Kind, name: Name, more: seq<Reply>)
    ensures var word := if pat then Ascii("pmessage") else Ascii("message");
            var t := if pat then st.patterns else st.channels;
            Route(st, Aggregate(kind, [Str(word), Str(name)] + more))
            == Routed(st, if name in t then Some(t[name]) else None)
  {
    hide Route, SenseOf, Ascii;
    MessageWords(pat);
    assert MessageWord(pat) + [] == MessageWord(pat);
    RoutedTo(st, kind, MessageWord(pat), [], name, more);
  }

  /** The name a published message is about, and whether it is a pattern. */
  function MessageFor(reply: Reply): Option<(bool, Name)> {
    if !reply.Aggregate? || (reply.kind != Array && reply.kind != Push) || |reply.elements| < 2 then None
    else
      var e := reply.elements;
      if !e[1].Str? then None
      else if e[0] == Str(Ascii("message")) then Some((false, e[1].str))
      else if e[0] == Str(Ascii("pmessage")) then Some((true, e[1].str))
      else None
  }

  lemma {:induction false} MessageIsRouted(st: SubState, reply: Reply)
    requires MessageFor(reply).Some?
    ensures var (pat, name) := MessageFor(reply).value;
            Route(st, reply) == Routed(st, if name in Table(st, pat) then Some(Table(st, pat)[name]) else None)
  {
    hide Route;
    var (pat, name) := MessageFor(reply).value;
    var e := reply.elements;
    assert e == [e[0], e[1]] + e[2..];
    MessageRouted(st, pat, reply.kind, name, e[2..]);
  }

  /** How the server confirms one name. */
  lemma {:induction false} ConfirmationIs(op: Op, count: nat)
    ensures var word :=
              if op.unsub then if op.pat then Ascii("punsubscribe") else Ascii("unsubscribe")
              else if op.pat then Ascii("psubscribe") else Ascii("subscribe");
            ServerReply(op, count) == Aggregate(Array, [Str(word), Str(op.name), Integer(count)])
    ensures MessageFor(ServerReply(op, count)) == None
  {
    hide Ascii;
    Letters();
  }
}
