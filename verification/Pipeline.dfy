/** Formatted commands, pipelined and cut into chunks in any way, are read back exactly. */
module Pipelining {
  import opened Bytes
  import opened IntegerCodec
  import opened Resp
  import opened Transcripts
  import opened Chunking
  import opened Formatter

  lemma {:induction false} StringsWellFormed(strtod: Strtod, argv: seq<seq<byte>>)
    requires forall i :: 0 <= i < |argv| ==> |argv[i]| <= LLONG_MAX
    ensures AllWellFormed(strtod, false, Strings(argv))
    decreases |argv|
  {
    if argv != [] {
      StringsWellFormed(strtod, argv[1..]);
      assert Strings(argv)[1..] == Strings(argv[1..]);
    }
  }

  function Commands(cmds: seq<seq<seq<byte>>>): (vs: seq<Reply>)
    ensures |vs| == |cmds| && forall i :: 0 <= i < |vs| ==> vs[i] == Command(cmds[i])
  {
    seq(|cmds|, i requires 0 <= i < |cmds| => Command(cmds[i]))
  }

  function Pipeline(cmds: seq<seq<seq<byte>>>): seq<byte> {
    if cmds == [] then [] else Formatted(cmds[0]) + Pipeline(cmds[1..])
  }

  predicate Sendable(argv: seq<seq<byte>>) {
    |argv| <= MAX_ELEMENTS && forall i :: 0 <= i < |argv| ==> |argv[i]| <= LLONG_MAX
  }

  lemma {:induction false} PipelineIsEncodeAll(strtod: Strtod, cmds: seq<seq<seq<byte>>>)
    requires forall i :: 0 <= i < |cmds| ==> Sendable(cmds[i])
    ensures Pipeline(cmds) == EncodeAll(Commands(cmds)) && AllWellFormed(strtod, false, Commands(cmds))
    decreases |cmds|
  {
    if cmds != [] {
      FormattedIsEncode(cmds[0]);
      assert Sendable(cmds[0]);
      StringsWellFormed(strtod, cmds[0]);
      PipelineIsEncodeAll(strtod, cmds[1..]);
      assert Commands(cmds)[1..] == Commands(cmds[1..]);
    }
  }

  /** Pipelined commands, cut into chunks in any way, are read back exactly, with no byte left over. */
  lemma {:induction false} PipelinedRoundTrip(strtod: Strtod, cmds: seq<seq<seq<byte>>>, chunks: seq<seq<byte>>)
    requires forall i :: 0 <= i < |cmds| ==> Sendable(cmds[i])
    requires Flatten(chunks) == Pipeline(cmds)
    ensures Drive(strtod, [], chunks) == Transcript(Commands(cmds), Waiting([]))
  {
    PipelineIsEncodeAll(strtod, cmds);
    StreamOfEncoded(strtod, Commands(cmds));
    DriveIsStream(strtod, [], chunks);
    assert [] + Flatten(chunks) == Pipeline(cmds);
  }
}
