/** sds operations on contents alone. */
module SdsSpec {
  import opened Bytes

  /** sdsrange: the inclusive range start .. end, negative positions counting from the end. */
  function SdsRange(s: seq<byte>, start: int, end: int): (r: seq<byte>)
  {
    var len := |s|;
    if len == 0 then s
    else
      var start := if start < 0 then (if len + start < 0 then 0 else len + start) else start;
      var end := if end < 0 then (if len + end < 0 then 0 else len + end) else end;
      if start > end then []
      else if start >= len then []
      else if end >= len then s[start..]
      else s[start..end + 1]
  }

  /** Dropping consumed bytes: sdsrange(s, k, -1). */
  lemma {:induction false} SdsRangeDrops(s: seq<byte>, k: nat)
    requires k <= |s|
    ensures SdsRange(s, k, -1) == s[k..]
  {
  }

  /**
   The kept bytes are those at the positions from `first` to `last`: negative positions count from the end, the front
   and the end of the string limit them.
   */
  lemma {:induction false} SdsRangeKeeps(s: seq<byte>, start: int, end: int)
    requires s != []
    ensures var first := if start >= 0 then start else if |s| + start >= 0 then |s| + start else 0;
            var last :=
              if end >= |s| then |s| - 1 else if end >= 0 then end else if |s| + end >= 0 then |s| + end else 0;
            && |SdsRange(s, start, end)| == (if first <= last then last - first + 1 else 0)
            && forall i :: 0 <= i < |SdsRange(s, start, end)| ==> SdsRange(s, start, end)[i] == s[first + i]
  {
  }
}
