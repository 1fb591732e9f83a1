/**
 Splitting at a separator and joining again: sdssplitlen grows an array of tokens by doubling it, sdsjoinsds
 concatenates.
 */
module SdsSplit {
  import opened Bytes

  /** The tokens with one separator between neighbours. */
  function Join(tokens: seq<seq<byte>>, sep: seq<byte>): seq<byte> {
    if tokens == [] then []
    else if |tokens| == 1 then tokens[0]
    else tokens[0] + sep + Join(tokens[1..], sep)
  }

  /** Every token followed by a separator. */
  function Followed(tokens: seq<seq<byte>>, sep: seq<byte>): seq<byte> {
    if tokens == [] then [] else tokens[0] + sep + Followed(tokens[1..], sep)
  }

  lemma {:induction false} FollowedSnoc(tokens: seq<seq<byte>>, last: seq<byte>, sep: seq<byte>)
    ensures Join(tokens + [last], sep) == Followed(tokens, sep) + last
    ensures Followed(tokens + [last], sep) == Followed(tokens, sep) + last + sep
    decreases |tokens|
  {
    if tokens == [] {
      assert [] + [last] == [last] && [last][1..] == [];
    } else {
      assert (tokens + [last])[1..] == tokens[1..] + [last];
      FollowedSnoc(tokens[1..], last, sep);
    }
  }

  /** sdsjoinsds. */
  method JoinSds(argv: seq<seq<byte>>, sep: seq<byte>) returns (join: seq<byte>)
    ensures join == Join(argv, sep)
  {
    join := [];
    var j := 0;
    while j < |argv|
      invariant 0 <= j <= |argv|
      invariant join == if j < |argv| then Followed(argv[..j], sep) else Join(argv, sep)
    {
      FollowedSnoc(argv[..j], argv[j], sep);
      assert argv[..j + 1] == argv[..j] + [argv[j]];
      join := join + argv[j];
      if j != |argv| - 1 {
        join := join + sep;
      } else {
        assert argv[..j + 1] == argv;
      }
      j := j + 1;
    }
  }

  // ---- Splitting ----

  /** sep stands at i. */
  predicate SepAt(s: seq<byte>, i: nat, sep: seq<byte>) {
    i + |sep| <= |s| && s[i..i + |sep|] == sep
  }

  /** sep occurs nowhere in s. */
  ghost predicate Free(s: seq<byte>, sep: seq<byte>) {
    forall i: nat :: !SepAt(s, i, sep)
  }

  /** In t followed by sep, the first place sep stands at is right behind t. */
  ghost predicate EndsToken(t: seq<byte>, sep: seq<byte>) {
    forall i: nat :: i < |t| ==> !SepAt(t + sep, i, sep)
  }

  /** The leftmost occurrence of sep at or after j. */
  function NextSep(s: seq<byte>, j: nat, sep: seq<byte>): (r: Option<nat>)
    requires j <= |s|
    ensures r.Some? ==> j <= r.value && SepAt(s, r.value, sep)
    ensures r.Some? ==> forall k: nat :: j <= k < r.value ==> !SepAt(s, k, sep)
    ensures r == None ==> forall k: nat :: j <= k ==> !SepAt(s, k, sep)
    decreases |s| - j
  {
    if SepAt(s, j, sep) then Some(j) else if j == |s| then None else NextSep(s, j + 1, sep)
  }

  /** The pieces between the leftmost separators. */
  function Pieces(s: seq<byte>, sep: seq<byte>): (r: seq<seq<byte>>)
    requires sep != []
    ensures r != []
    decreases |s|
  {
    match NextSep(s, 0, sep)
    case None => [s]
    case Some(k) => [s[..k]] + Pieces(s[k + |sep|..], sep)
  }

  /** What sdssplitlen returns: no token at all for the empty string. */
  function Split(s: seq<byte>, sep: seq<byte>): seq<seq<byte>>
    requires sep != []
  {
    if s == [] then [] else Pieces(s, sep)
  }

  /** sdssplitlen; None is its NULL. */
  method SplitLen(s: seq<byte>, sep: seq<byte>) returns (r: Option<seq<seq<byte>>>)
    ensures r == if sep == [] then None else Some(Split(s, sep))
  {
    if |sep| < 1 { return None; }
    var slots := 5;
    var tokens := new seq<byte>[slots](_ => []);
    if |s| == 0 { return Some([]); }
    var elements: nat, start: nat, j: nat := 0, 0, 0;
    Cut(s, sep);
    hide Progress, Matches, Pieces, NextSep, SepAt, NoSep;
    while j < |s| - (|sep| - 1)
      invariant elements < tokens.Length == slots && 5 <= slots && fresh(tokens)
      invariant Progress(s, sep, tokens[..elements], start, j)
      decreases |s| - j
    {
      Cutting(s, sep, tokens[..elements], start, j);
      tokens, slots := EnsureRoom(tokens, slots, elements);
      if Matches(s, j, sep) {
        Store(tokens, elements, s[start..j]);
        elements := elements + 1;
        start := j + |sep|;
        j := j + |sep| - 1;
      }
      j := j + 1;
    }
    var pieces := AddFinal(tokens, elements, s, start, sep, j);
    r := Some(pieces);
  }

  /** Makes sure there is room for the next element and the final one. */
  method EnsureRoom(
    tokens: array<seq<byte>>, slots: nat, elements: nat) returns (tokens': array<seq<byte>>, slots': nat)
    requires elements < tokens.Length == slots && 5 <= slots
    ensures tokens' == tokens || fresh(tokens')
    ensures elements + 1 < tokens'.Length == slots' && 5 <= slots' && tokens'[..elements] == tokens[..elements]
  {
    tokens', slots' := tokens, slots;
    if slots < elements + 2 {
      slots' := slots * 2;
      tokens' := Realloc(tokens, slots', elements);
    }
  }

  /** The final element; there is room for it in the array. */
  method AddFinal(tokens: array<seq<byte>>, elements: nat, s: seq<byte>, start: nat, ghost sep: seq<byte>, ghost j: nat)
    returns (pieces: seq<seq<byte>>)
    requires elements < tokens.Length && Progress(s, sep, tokens[..elements], start, j) && j + |sep| > |s|
    modifies tokens
    ensures sep != [] && pieces == Pieces(s, sep)
  {
    LastPiece(s, sep, tokens[..elements], start, j);
    hide Progress, Pieces;
    Store(tokens, elements, s[start..]);
    pieces := tokens[..elements + 1];
  }

  /** The test for a separator at j. */
  predicate Matches(s: seq<byte>, j: nat, sep: seq<byte>)
    requires sep != [] && j + |sep| <= |s|
  {
    (|sep| == 1 && s[j] == sep[0]) || s[j..j + |sep|] == sep
  }

  /** The tokens so far are pieces, the next one starts at `start`, and the search has reached j. */
  ghost predicate Progress(s: seq<byte>, sep: seq<byte>, tokens: seq<seq<byte>>, start: nat, j: nat) {
    && sep != [] && start <= j && start <= |s|
    && Pieces(s, sep) == tokens + Pieces(s[start..], sep)
    && NoSep(s, start, j, sep)
  }

  lemma {:induction false} Cut(s: seq<byte>, sep: seq<byte>)
    requires sep != []
    ensures Progress(s, sep, [], 0, 0)
  {
    assert s[0..] == s;
  }

  lemma {:induction false} Cutting(s: seq<byte>, sep: seq<byte>, tokens: seq<seq<byte>>, start: nat, j: nat)
    requires Progress(s, sep, tokens, start, j) && j + |sep| <= |s|
    ensures start <= j && sep != []
    ensures if Matches(s, j, sep) then Progress(s, sep, tokens + [s[start..j]], j + |sep|, j + |sep|)
            else Progress(s, sep, tokens, start, j + 1)
  {
    hide Pieces;
    if Matches(s, j, sep) {
      assert |sep| == 1 ==> s[j..j + 1] == [s[j]] && sep == [sep[0]];
      Piece(s, start, j, sep);
      var token, rest := s[start..j], Pieces(s[j + |sep|..], sep);
      assert tokens + ([token] + rest) == tokens + [token] + rest;
    }
  }

  method Store(tokens: array<seq<byte>>, elements: nat, token: seq<byte>)
    requires elements < tokens.Length
    modifies tokens
    ensures tokens[..elements + 1] == old(tokens[..elements]) + [token]
  {
    tokens[elements] := token;
  }

  /** No separator starts from `start` up to j. */
  ghost predicate NoSep(s: seq<byte>, start: nat, j: nat, sep: seq<byte>) {
    forall k: nat :: start <= k < j ==> !SepAt(s, k, sep)
  }

  /** s_realloc: the same elements in more room. */
  method Realloc(tokens: array<seq<byte>>, slots: nat, elements: nat) returns (more: array<seq<byte>>)
    requires elements <= tokens.Length <= slots
    ensures fresh(more) && more.Length == slots && more[..elements] == tokens[..elements]
  {
    more := new seq<byte>[slots](i reads tokens => if 0 <= i < tokens.Length then tokens[i] else []);
  }

  lemma {:induction false} SepShift(s: seq<byte>, start: nat, i: nat, sep: seq<byte>)
    requires start <= |s|
    ensures SepAt(s[start..], i, sep) <==> SepAt(s, start + i, sep)
  {
    if start + i + |sep| <= |s| {
      assert s[start..][i..i + |sep|] == s[start + i..start + i + |sep|];
    }
  }

  /** The scan found the separator that ends the current token. */
  lemma {:induction false} Piece(s: seq<byte>, start: nat, j: nat, sep: seq<byte>)
    requires sep != [] && start <= j && j + |sep| <= |s| && s[j..j + |sep|] == sep
    requires NoSep(s, start, j, sep)
    ensures Pieces(s[start..], sep) == [s[start..j]] + Pieces(s[j + |sep|..], sep)
  {
    NextInTail(s, start, j, sep);
    PiecesStep(s[start..], sep, j - start);
    hide Pieces;
    assert s[start..][..j - start] == s[start..j];
    assert s[start..][j - start + |sep|..] == s[j + |sep|..];
  }

  lemma {:induction false} NextInTail(s: seq<byte>, start: nat, j: nat, sep: seq<byte>)
    requires sep != [] && start <= j && j + |sep| <= |s| && s[j..j + |sep|] == sep
    requires NoSep(s, start, j, sep)
    ensures NextSep(s[start..], 0, sep) == Some(j - start)
  {
    hide NextSep;
    SepShift(s, start, j - start, sep);
    assert SepAt(s[start..], j - start, sep);
    var next := NextSep(s[start..], 0, sep);
    SepShift(s, start, next.value, sep);
  }

  lemma {:induction false} LastPiece(s: seq<byte>, sep: seq<byte>, tokens: seq<seq<byte>>, start: nat, j: nat)
    requires Progress(s, sep, tokens, start, j) && j + |sep| > |s|
    ensures start <= |s| && sep != [] && Pieces(s, sep) == tokens + [s[start..]]
  {
    var next := NextSep(s[start..], 0, sep);
    if next.Some? {
      SepShift(s, start, next.value, sep);
    }
  }

  // ---- What a split is ----

  /** Tokens that the leftmost separators of their join delimit. */
  ghost predicate Delimited(tokens: seq<seq<byte>>, sep: seq<byte>) {
    && tokens != []
    && if |tokens| == 1 then Free(tokens[0], sep)
       else EndsToken(tokens[0], sep) && Delimited(tokens[1..], sep)
  }

  /** The leftmost separator of a join is the one behind its first token. */
  lemma {:induction false} FirstSep(t: seq<byte>, sep: seq<byte>, rest: seq<byte>)
    requires sep != []
    ensures NextSep(t + sep + rest, 0, sep) == Some(|t|) <==> EndsToken(t, sep)
  {
    var s := t + sep + rest;
    assert s[|t|..|t| + |sep|] == sep;
    assert SepAt(s, |t|, sep);
    forall i: nat | i < |t| ensures SepAt(s, i, sep) <==> SepAt(t + sep, i, sep) {
      assert s[i..i + |sep|] == (t + sep)[i..i + |sep|];
    }
  }

  lemma {:induction false} PiecesAre(s: seq<byte>, sep: seq<byte>)
    requires sep != []
    ensures Join(Pieces(s, sep), sep) == s && Delimited(Pieces(s, sep), sep)
    decreases |s|
  {
    match NextSep(s, 0, sep)
    case None =>
    case Some(k) =>
      var rest := s[k + |sep|..];
      PiecesAre(rest, sep);
      PiecesStep(s, sep, k);
      FirstSep(s[..k], sep, rest);
  }

  lemma {:induction false} PiecesStep(s: seq<byte>, sep: seq<byte>, k: nat)
    requires sep != [] && NextSep(s, 0, sep) == Some(k)
    ensures k + |sep| <= |s| && s == s[..k] + sep + s[k + |sep|..]
    ensures Pieces(s, sep) == [s[..k]] + Pieces(s[k + |sep|..], sep)
    ensures Pieces(s, sep)[0] == s[..k] && Pieces(s, sep)[1..] == Pieces(s[k + |sep|..], sep)
  {
    assert s[k..k + |sep|] == sep;
    assert s == s[..k] + s[k..k + |sep|] + s[k + |sep|..];
  }

  lemma {:induction false} PiecesUnique(tokens: seq<seq<byte>>, sep: seq<byte>)
    requires sep != [] && Delimited(tokens, sep)
    ensures Pieces(Join(tokens, sep), sep) == tokens
    decreases |tokens|
  {
    if |tokens| == 1 {
      assert NextSep(tokens[0], 0, sep) == None;
    } else {
      var s, rest := Join(tokens, sep), Join(tokens[1..], sep);
      PiecesUnique(tokens[1..], sep);
      FirstSep(tokens[0], sep, rest);
      PiecesStep(s, sep, |tokens[0]|);
      hide Pieces;
      assert s[..|tokens[0]|] == tokens[0] && s[|tokens[0]| + |sep|..] == rest;
      assert [tokens[0]] + tokens[1..] == tokens;
    }
  }

  /** The split of a non-empty string is the only delimited list of tokens that joins to it. */
  lemma {:induction false} SplitIs(s: seq<byte>, sep: seq<byte>, tokens: seq<seq<byte>>)
    requires s != [] && sep != []
    ensures tokens == Split(s, sep) <==> Join(tokens, sep) == s && Delimited(tokens, sep)
  {
    PiecesAre(s, sep);
    if Delimited(tokens, sep) {
      PiecesUnique(tokens, sep);
    }
  }

  /** Joining undoes splitting, for every string. */
  lemma {:induction false} JoinOfSplit(s: seq<byte>, sep: seq<byte>)
    requires sep != []
    ensures Join(Split(s, sep), sep) == s
    ensures forall k :: 0 <= k < |Split(s, sep)| ==> Free(Split(s, sep)[k], sep)
  {
    PiecesAre(s, sep);
    DelimitedFree(Pieces(s, sep), sep);
  }

  lemma {:induction false} DelimitedFree(tokens: seq<seq<byte>>, sep: seq<byte>)
    requires sep != [] && Delimited(tokens, sep)
    ensures forall k :: 0 <= k < |tokens| ==> Free(tokens[k], sep)
    decreases |tokens|
  {
    if |tokens| > 1 {
      EndsFree(tokens[0], sep);
      DelimitedFree(tokens[1..], sep);
      assert forall k :: 1 <= k < |tokens| ==> tokens[k] == tokens[1..][k - 1];
    }
  }

  lemma {:induction false} EndsFree(t: seq<byte>, sep: seq<byte>)
    requires sep != [] && EndsToken(t, sep)
    ensures Free(t, sep)
  {
    forall i: nat ensures !SepAt(t, i, sep) {
      if SepAt(t, i, sep) {
        assert (t + sep)[i..i + |sep|] == t[i..i + |sep|];
        assert SepAt(t + sep, i, sep);
      }
    }
  }

  /**
   Splitting undoes joining exactly when the tokens are delimited, the one token [] apart: its join is the empty
   string, which splits into nothing.
   */
  lemma {:induction false} SplitOfJoin(tokens: seq<seq<byte>>, sep: seq<byte>)
    requires sep != []
    ensures Split(Join(tokens, sep), sep) == tokens <==> tokens == [] || (tokens != [[]] && Delimited(tokens, sep))
  {
    var s := Join(tokens, sep);
    if s == [] {
      OnlyEmpty(tokens, sep);
    } else {
      SplitIs(s, sep, tokens);
    }
  }

  lemma {:induction false} OnlyEmpty(tokens: seq<seq<byte>>, sep: seq<byte>)
    requires sep != []
    ensures Join(tokens, sep) == [] ==> tokens == [] || tokens == [[]]
  {
    if |tokens| > 1 {
      assert |Join(tokens, sep)| >= |sep|;
    }
  }

  /** With a separator of one byte, tokens are delimited as soon as none contains it. */
  lemma {:induction false} OneByteSep(tokens: seq<seq<byte>>, c: byte)
    requires tokens != []
    ensures Delimited(tokens, [c]) <==> forall k :: 0 <= k < |tokens| ==> c !in tokens[k]
    decreases |tokens|
  {
    FreeOfByte(tokens[0], c);
    if |tokens| > 1 {
      OneByteSep(tokens[1..], c);
      assert forall k :: 1 <= k < |tokens| ==> tokens[k] == tokens[1..][k - 1];
      assert forall k :: 0 <= k < |tokens[1..]| ==> tokens[1..][k] == tokens[k + 1];
    }
  }

  lemma {:induction false} FreeOfByte(t: seq<byte>, c: byte)
    ensures Free(t, [c]) <==> c !in t
    ensures EndsToken(t, [c]) <==> c !in t
  {
    forall i: nat | i < |t| ensures SepAt(t, i, [c]) <==> t[i] == c
                            ensures SepAt(t + [c], i, [c]) <==> t[i] == c {
      assert t[i..i + 1] == [t[i]] && (t + [c])[i..i + 1] == [t[i]];
    }
    if c in t {
      var i :| 0 <= i < |t| && t[i] == c;
      assert SepAt(t, i, [c]);
    }
  }

  // ---- One token at a time ----

  /** A separator stands at i when its bytes do. */
  lemma {:induction false} SepAtIs(s: seq<byte>, i: nat, sep: seq<byte>)
    ensures SepAt(s, i, sep) <==> i + |sep| <= |s| && forall d :: 0 <= d < |sep| ==> s[i + d] == sep[d]
  {
    if i + |sep| <= |s| && forall d :: 0 <= d < |sep| ==> s[i + d] == sep[d] {
      assert s[i..i + |sep|] == sep;
    }
    if SepAt(s, i, sep) {
      forall d | 0 <= d < |sep| ensures s[i + d] == sep[d] {
        assert s[i..i + |sep|][d] == s[i + d];
      }
    }
  }

  /** The first token ends at the leftmost separator; the rest is split the same way. */
  lemma {:induction false} SplitSteps(s: seq<byte>, sep: seq<byte>, k: nat)
    requires sep != [] && s != []
    ensures (forall i: nat :: !SepAt(s, i, sep)) ==> Split(s, sep) == [s]
    ensures SepAt(s, k, sep) && (forall i: nat :: i < k ==> !SepAt(s, i, sep)) ==>
              k + |sep| <= |s|
              && var rest := s[k + |sep|..];
                 Split(s, sep) == [s[..k]] + if rest == [] then [[]] else Split(rest, sep)
  {
    hide SepAt, Pieces, NextSep;
    PiecesSteps(s, sep);
    NoSepInNothing(sep);
    if forall i: nat :: !SepAt(s, i, sep) {
      NextIs(s, sep, None);
    } else if SepAt(s, k, sep) && forall i: nat :: i < k ==> !SepAt(s, i, sep) {
      NextIs(s, sep, Some(k));
    }
  }

  lemma {:induction false} NextIs(s: seq<byte>, sep: seq<byte>, at: Option<nat>)
    requires match at
             case None => forall i: nat :: !SepAt(s, i, sep)
             case Some(k) => SepAt(s, k, sep) && forall i: nat :: i < k ==> !SepAt(s, i, sep)
    ensures NextSep(s, 0, sep) == at
  {
    var next := NextSep(s, 0, sep);
    hide SepAt;
  }

  lemma {:induction false} PiecesSteps(s: seq<byte>, sep: seq<byte>)
    requires sep != []
    ensures match NextSep(s, 0, sep)
            case None => Pieces(s, sep) == [s]
            case Some(k) => k + |sep| <= |s| && Pieces(s, sep) == [s[..k]] + Pieces(s[k + |sep|..], sep)
  {
  }

  lemma {:induction false} NoSepInNothing(sep: seq<byte>)
    requires sep != []
    ensures Pieces([], sep) == [[]]
  {
    assert NextSep([], 0, sep) == None;
  }

  /** One separator between neighbours, none at the ends. */
  lemma {:induction false} JoinSteps(tokens: seq<seq<byte>>, last: seq<byte>, sep: seq<byte>)
    ensures Join([], sep) == []
    ensures Join(tokens + [last], sep) == if tokens == [] then last else Join(tokens, sep) + sep + last
  {
    if tokens == [] {
      assert tokens + [last] == [last];
    } else {
      var front, t := tokens[..|tokens| - 1], tokens[|tokens| - 1];
      assert tokens == front + [t];
      FollowedSnoc(front, t, sep);
      FollowedSnoc(tokens, last, sep);
    }
  }
}
