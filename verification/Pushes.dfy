/** Which of the replies that arrive answer a command or a subscription, and which are pushes on the side. */
module Pushes {
  import opened Bytes
  import opened Resp
  import opened PubSub
  import opened PubSubWords

  /** strncasecmp(s, lit, n) == 0, both being C strings. */
  predicate SamePrefix(s: seq<byte>, lit: seq<byte>, n: nat) {
    if n <= |lit| then |s| >= n && Lower(s[..n]) == lit[..n] && 0 !in s[..n]
    else Lower(CString(s)) == lit
  }

  const MESSAGE: seq<byte> := [109, 101, 115, 115, 97, 103, 101]

  predicate IsSubscribeReply(reply: Reply)
    requires reply.Aggregate?
  {
    && |reply.elements| >= 1 && reply.elements[0].Str? && |reply.elements[0].str| >= |MESSAGE|
    && var word := reply.elements[0].str;
       var s := if StartsWithP(word) then word[1..] else word;
       SamePrefix(s, SUBSCRIBE, |s|) || SamePrefix(s, MESSAGE, |s|)
  }

  /** A RESP3 push that belongs to no subscription; it goes to the push handler and consumes no callback. */
  predicate IsSpontaneousPush(reply: Reply) {
    reply.Aggregate? && reply.kind == Push && !IsSubscribeReply(reply)
  }

  function Answers(rs: seq<Reply>): seq<Reply> {
    if rs == [] then []
    else Answers(rs[..|rs| - 1]) + if IsSpontaneousPush(rs[|rs| - 1]) then [] else [rs[|rs| - 1]]
  }

  lemma {:induction false} OneAnswer(rs: seq<Reply>, i: nat)
    requires i < |rs|
    ensures IsSpontaneousPush(rs[i]) ==> Answers(rs[..i + 1]) == Answers(rs[..i])
    ensures !IsSpontaneousPush(rs[i]) ==> Answers(rs[..i + 1]) == Answers(rs[..i]) + [rs[i]]
  {
    assert rs[..i + 1][..i] == rs[..i];
  }

  /** How often the push handler is called: once for each reply that is no answer. */
  function PushCalls(handler: bool, rs: seq<Reply>): int {
    if handler then |rs| - |Answers(rs)| else 0
  }

  lemma {:induction false} OnePush(handler: bool, rs: seq<Reply>, i: nat)
    requires i < |rs|
    ensures PushCalls(handler, rs[..i + 1])
         == PushCalls(handler, rs[..i]) + if handler && IsSpontaneousPush(rs[i]) then 1 else 0
  {
    OneAnswer(rs, i);
  }

  lemma {:induction false} AnswersPrefix(rs: seq<Reply>, i: nat)
    requires i <= |rs|
    ensures Answers(rs[..i]) <= Answers(rs)
    decreases |rs|
  {
    if i < |rs| {
      AnswersPrefix(rs[..|rs| - 1], i);
      assert rs[..|rs| - 1][..i] == rs[..i];
    } else {
      assert rs[..i] == rs;
    }
  }

  // ---- What they are, letter by letter ----

  /** As far as the text goes it is the word in any case; beyond the word it must go on with a NUL. */
  predicate Begins(s: seq<byte>, word: seq<byte>) {
    if |s| <= |word| then Agrees(s, word[..|s|]) else Agrees(s[..|word|], word) && s[|word|] == 0
  }

  /** The first element is a string of at least 7 bytes: subscribe or message or the like, perhaps behind a p. */
  predicate IsForSubscribers(elements: seq<Reply>) {
    && elements != [] && elements[0].Str?
    && var word := elements[0].str;
       && |word| >= 7
       && var s := if word[0] == 112 || word[0] == 80 then word[1..] else word;
          Begins(s, Ascii("subscribe")) || Begins(s, Ascii("message"))
  }

  lemma {:induction false} BeginsIs(s: seq<byte>, word: seq<byte>)
    requires LowerCase(word)
    ensures SamePrefix(s, word, |s|) <==> Begins(s, word)
  {
    var n := |word|;
    assert s[..|s|] == s;
    if |s| <= n {
      LowerIs(s, word[..|s|]);
    } else if 0 in s[..n + 1] {
      var i := FirstNul(s[..n + 1]);
      assert s == s[..i] + s[i..];
      TextEnds(s[..i], s[i..]);
      LowerIs(s[..i], word);
      if i < n {
        assert s[..n][i] == 0;
      }
    } else {
      LongText(s[..n + 1], s[n + 1..]);
      assert s == s[..n + 1] + s[n + 1..];
      assert s[..n + 1][n] != 0;
    }
  }

  function FirstNul(s: seq<byte>): (i: nat)
    requires 0 in s
    ensures i < |s| && s[i] == 0 && 0 !in s[..i]
  {
    if s[0] == 0 then 0 else 1 + FirstNul(s[1..])
  }

  lemma {:induction false} LongText(s: seq<byte>, more: seq<byte>)
    requires 0 !in s
    ensures |CString(s + more)| >= |s|
    decreases |s|
  {
    if s != [] {
      assert (s + more)[1..] == s[1..] + more;
      LongText(s[1..], more);
    }
  }

  lemma {:induction false} SubscribersAre(reply: Reply)
    requires reply.Aggregate?
    ensures IsSubscribeReply(reply) <==> IsForSubscribers(reply.elements)
  {
    hide SamePrefix, Begins;
    Letters();
    LettersLower();
    assert MESSAGE == Ascii("message");
    if reply.elements != [] && reply.elements[0].Str? && |reply.elements[0].str| >= 7 {
      var word := reply.elements[0].str;
      var s := if StartsWithP(word) then word[1..] else word;
      hide Ascii, LowerCase;
      BeginsIs(s, Ascii("subscribe"));
      BeginsIs(s, Ascii("message"));
    }
  }

  /** A reply is no answer exactly when it is a push that is not for subscribers. */
  lemma {:induction false} DroppedIff(r: Reply)
    ensures Answers([r]) == if r.Aggregate? && r.kind == Push && !IsForSubscribers(r.elements) then [] else [r]
  {
    hide IsSubscribeReply, IsForSubscribers;
    assert [r][..0] == [];
    if r.Aggregate? {
      SubscribersAre(r);
    }
  }

  /** The answers among replies are those among the first and those among the rest. */
  lemma {:induction false} AnswersAppend(a: seq<Reply>, b: seq<Reply>)
    ensures Answers([]) == [] && Answers(a + b) == Answers(a) + Answers(b)
    decreases |b|
  {
    if b == [] {
      assert a + b == a;
    } else {
      var n := |b| - 1;
      assert (a + b)[..|a + b| - 1] == a + b[..n];
      AnswersAppend(a, b[..n]);
    }
  }

  predicate NoPush(rs: seq<Reply>) {
    forall i :: 0 <= i < |rs| && rs[i].Aggregate? ==> rs[i].kind != Push
  }

  /** Without pushes every reply is an answer. */
  lemma {:induction false} AllAreAnswers(rs: seq<Reply>)
    requires NoPush(rs)
    ensures Answers(rs) == rs
    decreases |rs|
  {
    if rs != [] {
      var n := |rs| - 1;
      assert forall i :: 0 <= i < n ==> rs[..n][i] == rs[i];
      AllAreAnswers(rs[..n]);
      assert rs == rs[..n] + [rs[n]];
    }
  }
}
