// Runs of a receive stream whose window is as large as the configuration allows.
module ReceiveStreamRuns {
  import opened Protocol
  import opened ReceiveStream
  import FrameSorter

  /** A byte at the end of the largest window makes the frame sorter panic. */
  method LargestOffset() returns (s: ReceiveStream, err: FrameError)
    ensures s.flow.window == MAX_BYTE_COUNT && err == Panic
  {
    hide ReceiveStream.Valid;
    s := new ReceiveStream(MAX_BYTE_COUNT);
    var completed;
    err, completed := s.HandleStreamFrame([0], MAX_BYTE_COUNT - 1, false, 0, false, []);
  }

  /** A reset announces the largest final size, and the application cancels: completion is not reported. */
  method CompletionMissed() returns (s: ReceiveStream)
    ensures s.Valid() && s.flow == Flow(MAX_BYTE_COUNT, true, MAX_BYTE_COUNT) && s.cancelledLocally && !s.completed
  {
    hide ReceiveStream.Valid;
    s := new ReceiveStream(MAX_BYTE_COUNT);
    var err, completed := s.HandleResetStreamFrame(MAX_BYTE_COUNT, 0, false);
    var stop;
    stop, completed := s.CancelRead();
  }
}
