/** What draining a reader yields: replies in order, and how it ends. */
module Transcripts {
  import opened Bytes
  import opened Resp

  datatype End = Waiting(pending: seq<byte>) | Broken(err: Err)

  /** The replies a stream yields, and how it ends. */
  datatype Transcript = Transcript(replies: seq<Reply>, end: End)
}
