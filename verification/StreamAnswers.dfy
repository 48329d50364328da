// How a send stream answers the framer.
module StreamAnswers {
  import opened Protocol
  import opened StreamFrames
  import opened Framer
  import Sending = SendStream
  import Varint

  /** What the framer relies on is what a send stream promises. */
  method Answer(s: Sending.SendStream, maxBytes: int, sendWindow: int) returns (a: StreamAnswer)
    requires s.Valid() && maxBytes <= Varint.MAX_2 + 2 && 0 <= sendWindow
    modifies s
    ensures s.Valid() && Honest(a, maxBytes)
    ensures a.frame.None? <==> old(s.NothingToSend(maxBytes, sendWindow))
  {
    hide Sending.SendStream.Valid, Sending.SendStream.NothingToSend;
    var f, hasMore, id := s.PopStreamFrame(maxBytes, sendWindow);
    a := StreamAnswer(f, None, hasMore);
  }
}
