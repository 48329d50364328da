// Runs of a send stream that show where it does not do what one would expect of it.
module SendStreamRuns {
  import opened Protocol
  import opened SendStream
  import opened StreamBooks
  import opened StreamFrames
  import opened StreamLedger

  /** Two bytes were written and the stream was ended; only the first byte is reliable. */
  method TwoBytesWritten() returns (s: SendStream)
    ensures fresh(s) && s.Valid() && !s.reset && s.ReliableOffset() == 1 && s.writeOffset == 0 && s.streamID == 0
    ensures s.ledger.data == [1, 2] && NextData(s.nextFrame) == [1, 2] && s.dataForWriting == []
    ensures s.finishedWriting && !s.finSent && s.retransmissionQueue == []
  {
    hide SendStream.Valid, SendStream.Reports, SendStream.Deficit;
    s := new SendStream(0, true);
    var r, completed := s.BeginWrite([1]);
    s.SetReliableBoundary();
    r, completed := s.BeginWrite([2]);
    var cancelled;
    cancelled, completed := s.Close();
  }

  /** Two bytes and the end of the stream are in flight, in one frame; only the first byte is reliable. */
  method EndInFlight() returns (s: SendStream, f: StreamFrame, ghost id: int)
    ensures fresh(s) && s.Valid() && !s.reset && s.ReliableOffset() == 1 && s.writeOffset == 2 && s.finSent
    ensures f == StreamFrame(0, 0, [1, 2], true, true) && s.retransmissionQueue == []
    ensures id in s.ledger.flying && id in s.ledger.live && s.ledger.live[id] == f
  {
    hide Books, ResetTracked, Unsent, Kept, OtherEnd, SendStream.Done;
    s := TwoBytesWritten();
    var p, hasMore;
    p, hasMore, id := s.PopStreamFrame(1000, 1000);
    NextFrameShape(s.ledger.data, s.nextFrame, s.dataForWriting, s.writeOffset, s.reset, s.ReliableOffset(),
        s.streamID);
    f := p.value;
    assert f.data == s.ledger.data[0..2] == [1, 2];
  }

  /** The frame is lost, and then the stream is reset: the frame is cut, and sent with an end that is not the
      announced one. */
  method EndCutByReset() returns (s: SendStream, reset: ResetFrame, f: StreamFrame)
    ensures s.Valid() && s.reset && s.AnnouncesOtherEnd() && reset == ResetFrame(2, 1) && f.fin && f.End() == 1
              && f.offset == 0
  {
    hide Books, ResetTracked, Unsent, Kept, OtherEnd, Boundary;
    ghost var id;
    s, f, id := EndInFlight();
    var panicked, completed := s.OnLost(f, id);
    completed := s.CancelWrite();
    assert FinCut([f][0], 1);
    f := SendAgain(s, f);
    var r := s.GetControlFrame();
    reset := r.value;
  }

  /** The stream is reset while the frame is in flight, and then the frame is lost. */
  method EndCutByLoss() returns (s: SendStream, reset: ResetFrame, f: StreamFrame)
    ensures s.Valid() && s.reset && s.AnnouncesOtherEnd() && reset == ResetFrame(2, 1) && f.fin && f.End() == 1
              && f.offset == 0
  {
    hide Books, ResetTracked, Unsent, OtherEnd, Boundary;
    ghost var id;
    s, f, id := EndInFlight();
    var completed := s.CancelWrite();
    var panicked;
    panicked, completed := s.OnLost(f, id);
    f := SendAgain(s, f);
    var r := s.GetControlFrame();
    reset := r.value;
  }

  /** Sends the reliable byte again. */
  method SendAgain(s: SendStream, f: StreamFrame) returns (g: StreamFrame)
    requires s.Valid() && s.reset && s.ReliableOffset() == 1 && s.writeOffset == 2
    requires f == StreamFrame(0, 0, [1, 2], true, true) && s.retransmissionQueue == Trimmed([f], 1)
    modifies s
    ensures s.Valid() && s.reset == old(s.reset) && s.ReliableOffset() == 1 && s.writeOffset == 2
    ensures s.queuedReset == old(s.queuedReset) && (s.AnnouncesOtherEnd() <==> old(s.AnnouncesOtherEnd()))
    ensures g.fin && g.End() == 1 && g.offset == 0
  {
    hide Books, ResetTracked, Unsent, Kept, OtherEnd, Boundary;
    assert [f][..0] == [] && Trimmed([], 1) == [];
    assert s.retransmissionQueue == [Truncate(f, 1)] && Length(Truncate(f, 1)) <= 1000;
    var p, hasMore;
    ghost var id;
    p, hasMore, id := s.PopStreamFrame(1000, 1000);
    g := p.value;
  }

  /** A stream that was reset without a reliable part gets one: the acknowledgement or the loss of a frame in flight
      panics. */
  method PanicAfterBoundary(s: SendStream, f: StreamFrame, ghost id: int, lost: bool) returns (panicked: bool)
    requires s.Valid() && !s.reset && s.supportsResetStreamAt && s.reliableSize == 0 && 0 < s.writeOffset
    requires id in s.ledger.flying && id in s.ledger.live && s.ledger.live[id] == f.(dataLenPresent := true)
    modifies s
    ensures s.reset && s.ReliableOffset() > 0 && panicked
  {
    hide Books, ResetTracked, Unsent, OtherEnd;
    s.InFlight(id);
    var completed := s.CancelWrite();
    s.SetReliableBoundary();
    if lost {
      panicked, completed := s.OnLost(f, id);
    } else {
      panicked, completed := s.OnAcked(id);
    }
  }

  /** A byte is buffered and reliable when the stream is reset. */
  method ResetWithBufferedByte() returns (s: SendStream, first: ResetFrame)
    ensures fresh(s) && s.Valid() && s.reset && s.ReliableOffset() == 1 && s.writeOffset == 0
              && first == ResetFrame(1, 1)
  {
    hide SendStream.Valid, SendStream.Reports, SendStream.Deficit, SendStream.AnnouncesOtherEnd, SomeFinCut, Kept;
    s := new SendStream(0, true);
    var r, completed := s.BeginWrite([1]);
    s.SetReliableBoundary();
    completed := s.CancelWrite();
    var f := s.GetControlFrame();
    first := f.value;
  }

  /** The peer stops the stream before the byte is sent: the second reset announces another final size. */
  method FinalSizeShrinks() returns (s: SendStream, first: ResetFrame, second: ResetFrame)
    ensures s.Valid() && first == ResetFrame(1, 1) && second == ResetFrame(0, 0)
  {
    hide SendStream.Valid, SendStream.AnnouncesOtherEnd;
    s, first := ResetWithBufferedByte();
    s.HandleStopSending();
    var f := s.GetControlFrame();
    second := f.value;
  }

  /** A Write call is blocked when the application resets the stream. It goes on, buffers the rest of its data and
      succeeds. */
  method WriteAfterReset() returns (s: SendStream, r: WriteResult)
    ensures fresh(s) && s.Valid() && s.reset && s.cancellationFlagged && r == WriteResult.Written(1000)
    ensures s.ReliableOffset() == 0 && NextData(s.nextFrame) != [] && s.queuedReset.Some? && !s.completed
  {
    hide SendStream.Valid, SendStream.AnnouncesOtherEnd, SendStream.AllDelivered, SomeFinCut, Kept,
         KeptPart, Trimmed;
    s := new SendStream(0, false);
    var data: seq<Byte> := seq(1000, _ => 0);
    var completed;
    r, completed := s.BeginWrite(data);
    r, completed := s.BeginWrite(data);
    completed := s.CancelWrite();
    r, completed := s.ContinueWrite(1000);
    assert |NextData(s.nextFrame)| == 1000;
  }

  /** When the reset is acknowledged, everything is delivered, but the buffered data keeps the stream from being
      completed. */
  method NotCompleted() returns (s: SendStream)
    ensures s.Valid() && s.reset && s.cancellationFlagged && s.AllDelivered() && !s.completed
    ensures s.ReliableOffset() == 0 && NextData(s.nextFrame) != [] && s.queuedReset.None?
  {
    hide SendStream.Valid, SendStream.AnnouncesOtherEnd;
    var r;
    s, r := WriteAfterReset();
    var f := s.GetControlFrame();
    var completed := s.OnResetAcked(f.value);
  }
}
