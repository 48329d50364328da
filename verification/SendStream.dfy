// The sending side of a stream: writing, popping frames, acknowledgements and losses, closing, and resets that may
// keep a part of the stream reliable.
module SendStream {
  import opened Protocol
  import opened StreamBooks
  import opened StreamFrames
  import opened StreamLedger
  import Varint

  /** A STREAM frame without data is not longer than this. */
  const MAX_EMPTY_FRAME := 18

  datatype ResetFrame = ResetFrame(finalSize: int, reliableSize: int)

  /** What became of the current reset frame; frames of an earlier reset do not count any more. */
  datatype ResetStatus = NoReset | ResetQueued | ResetFlying | ResetAcked

  /** How a call of Write ends; Blocked stands for waiting until more data was sent. */
  datatype WriteResult = Written(n: int) | Cancelled(n: int) | Closed | Blocked

  function NextData(next: Option<StreamFrame>): seq<Byte> {
    if next.Some? then next.value.data else []
  }

  /** The part of the buffered frame below the limit. */
  function KeptPart(next: Option<StreamFrame>, limit: int): Option<StreamFrame> {
    if next.None? || limit <= next.value.offset then None else Some(Truncate(next.value, limit))
  }

  /** What was written but not sent yet: the buffered frame, then the rest of the current Write call. After a reset
      only the reliable part matters. */
  ghost predicate Unsent(data: seq<Byte>, next: Option<StreamFrame>, rest: seq<Byte>, w: int, reset: bool,
                         reliable: int, streamID: int) {
    && 0 <= w <= |data| && 0 <= reliable
    && (next.Some? ==> next.value.offset == w && next.value.data != [] && |next.value.data| <= MAX_PACKET_BUFFER_SIZE
                       && next.value.streamID == streamID && !next.value.fin && next.value.dataLenPresent)
    && (!reset ==> data[w..] == NextData(next) + rest && reliable <= w + |NextData(next)|)
    && (reset && w < reliable ==> reliable - w <= |NextData(next)| && IsPiece(data, NextData(next)[..reliable - w], w))
  }

  /** The current reset frame is queued, in flight or acknowledged, and announces a final size that covers all bytes
      that are sent. Frames of an earlier reset with a reliable part may still be in flight; they can be told from the
      current one. */
  ghost predicate ResetTracked(reset: bool, w: int, reliable: int, status: ResetStatus, queuedReset: Option<ResetFrame>,
                               flying: multiset<ResetFrame>) {
    var current := ResetFrame(Max(w, reliable), reliable);
    && (reset <==> status != NoReset)
    && queuedReset == (if status == ResetQueued then Some(current) else None)
    && (!reset ==> flying == multiset{})
    && (reset ==> flying[current] == if status == ResetFlying then 1 else 0)
    && (forall r :: r in flying ==>
            (r.reliableSize == reliable ==> r == current) && (0 < reliable ==> r.reliableSize == reliable))
  }

  /** The boundary of the reliable part never lies behind what was taken over from Write calls. */
  ghost predicate Boundary(reliableSize: int, reset: bool, w: int, next: Option<StreamFrame>) {
    0 <= reliableSize && (!reset ==> reliableSize <= w + |NextData(next)|)
  }

  class SendStream {
    const streamID: int
    var numOutstandingFrames: int
    var retransmissionQueue: seq<StreamFrame>
    var reliableSize: int
    var writeOffset: int
    var reset: bool
    var queuedReset: Option<ResetFrame>
    var supportsResetStreamAt: bool
    var finishedWriting: bool
    var finSent: bool
    var cancellationFlagged: bool
    var completed: bool
    var dataForWriting: seq<Byte>
    var nextFrame: Option<StreamFrame>

    ghost var ledger: Ledger
    ghost var resetStatus: ResetStatus
    ghost var flyingResets: multiset<ResetFrame>

    function ReliableOffset(): int
      reads this`supportsResetStreamAt, this`reliableSize
    {
      if supportsResetStreamAt then reliableSize else 0
    }

    /** What a reset announces as the size of the stream. */
    function FinalSize(): int
      reads this`writeOffset, this`supportsResetStreamAt, this`reliableSize
    {
      Max(writeOffset, ReliableOffset())
    }

    /** The books agree, and completion was not missed. */
    ghost predicate Valid()
      reads this
    {
      Sound() && (Done() ==> completed)
    }

    /** Nothing is buffered, in flight or queued, and the stream was ended or the application knows about the reset. */
    predicate Done()
      reads this`nextFrame, this`numOutstandingFrames, this`retransmissionQueue, this`queuedReset, this`finSent,
                this`reset
      reads this`cancellationFlagged, this`finishedWriting
    {
      && (nextFrame.None? || nextFrame.value.data == [])
      && numOutstandingFrames <= 0 && retransmissionQueue == [] && queuedReset.None?
      && (finSent || (reset && (cancellationFlagged || finishedWriting)))
    }

    ghost predicate Sound()
      reads this
    {
      && Varint.Fits(streamID)
      && Books(ledger, retransmissionQueue, numOutstandingFrames, writeOffset, reset, ReliableOffset(),
          resetStatus == ResetFlying, finSent)
      && Boundary(reliableSize, reset, writeOffset, nextFrame)
      && Unsent(ledger.data, nextFrame, dataForWriting, writeOffset, reset, ReliableOffset(), streamID)
      && ResetTracked(reset, writeOffset, ReliableOffset(), resetStatus, queuedReset, flyingResets)
      && (!reset && finSent ==> finishedWriting && nextFrame.None? && dataForWriting == [])
    }

    constructor (streamID: int, supportsResetStreamAt: bool)
      requires Varint.Fits(streamID)
      ensures Valid() && ledger == EMPTY && !reset && !completed && !finishedWriting && !finSent
      ensures this.streamID == streamID && this.supportsResetStreamAt == supportsResetStreamAt && reliableSize == 0
      ensures writeOffset == 0 && retransmissionQueue == [] && nextFrame == None && dataForWriting == []
      ensures numOutstandingFrames == 0 && queuedReset == None && !cancellationFlagged
    {
      this.streamID, this.supportsResetStreamAt := streamID, supportsResetStreamAt;
      numOutstandingFrames, retransmissionQueue, reliableSize, writeOffset := 0, [], 0, 0;
      reset, queuedReset, finishedWriting, finSent := false, None, false, false;
      cancellationFlagged, completed, dataForWriting, nextFrame := false, false, [], None;
      ledger, resetStatus, flyingResets := EMPTY, NoReset, multiset{};
      new;
      hide Books;
      EmptyBooks(0);
    }

    lemma DataFits()
      requires Valid()
      ensures |ledger.data| <= Varint.MAX_8
    {
    }

    /** The end is only announced after everything was taken over. */
    lemma FinMeansFinished()
      requires Valid() && !reset && finSent
      ensures finishedWriting && dataForWriting == []
    {
    }

    /** What a reported completion means: everything was acknowledged, or the reset and all reliable data were. */
    ghost predicate AllDelivered()
      reads this
    {
      && (!reset ==> finSent && ledger.finAcked && Span(0, |ledger.data|) <= ledger.acked)
      && (reset ==> resetStatus == ResetAcked && Span(0, ReliableOffset()) <= ledger.acked)
    }

    /** Completion is reported at most once, and only when everything is delivered. */
    ghost predicate Reports(before: bool, r: bool)
      reads this
    {
      (completed <==> before || r) && (r ==> !before && Done() && AllDelivered())
    }

    /** Whether the stream is completed, and this was not reported before. */
    method IsNewlyCompleted() returns (r: bool)
      modifies this`completed
      ensures r <==> !old(completed) && Done()
      ensures completed <==> old(completed) || r
      ensures old(Sound()) ==> Valid() && Reports(old(completed), r)
    {
      hide Kept, Books, Unsent, ResetTracked, Boundary;
      r := false;
      if completed {
        return;
      }
      if nextFrame.Some? && |nextFrame.value.data| > 0 {
        return;
      }
      if numOutstandingFrames > 0 || |retransmissionQueue| > 0 || queuedReset.Some? {
        return;
      }
      if finSent || (reset && (cancellationFlagged || finishedWriting)) {
        if Sound() {
          EverythingAcked();
        }
        completed := true;
        r := true;
      }
    }

    lemma NothingReported()
      ensures Reports(completed, false)
    {
    }

    lemma QueueIsNotDone()
      requires retransmissionQueue != []
      ensures !Done()
    {
    }

    lemma CountedIsNotDone()
      requires numOutstandingFrames > 0
      ensures !Done()
    {
    }

    lemma EverythingAcked()
      requires Sound() && Done()
      ensures AllDelivered()
    {
      NothingOutstanding(ledger, retransmissionQueue, numOutstandingFrames, writeOffset, reset, ReliableOffset(),
                         resetStatus == ResetFlying, finSent);
      hide Books;
    }

    /** On a stream that was not reset, completion is reported as soon as everything is acknowledged. */
    lemma DeliveredMeansCompleted()
      requires Valid() && !reset
      ensures AllDelivered() ==> Done() && completed
    {
      hide Unsent, ResetTracked, Boundary;
      NoResetStatus(reset, writeOffset, ReliableOffset(), resetStatus, queuedReset, flyingResets);
      if AllDelivered() {
        NothingLive(ledger, retransmissionQueue, numOutstandingFrames, writeOffset, ReliableOffset());
      }
    }

    /** Some frame announces another end of the stream than a reset does. */
    ghost predicate AnnouncesOtherEnd()
      reads this
    {
      OtherEnd(ledger, writeOffset, ReliableOffset())
    }

    lemma OtherEndIsMoved()
      requires Sound()
      ensures AnnouncesOtherEnd() <==> EndMoved(ledger.live, writeOffset)
      ensures !reset ==> !AnnouncesOtherEnd()
    {
      hide Books, ResetTracked;
      SizeIsOffset(ledger, retransmissionQueue, numOutstandingFrames, writeOffset, reset, ReliableOffset(),
                   resetStatus == ResetFlying, finSent);
    }

    predicate CanBufferStreamFrame()
      reads this
    {
      |NextData(nextFrame)| + |dataForWriting| <= MAX_PACKET_BUFFER_SIZE
    }

    /** Starts a Write call; the data becomes part of the stream. The call blocks exactly if the data does not fit
        into the buffered frame. */
    method BeginWrite(p: seq<Byte>) returns (r: WriteResult, newlyCompleted: bool)
      requires Valid() && |ledger.data| + |p| <= Varint.MAX_8
      requires !reset ==> dataForWriting == []
      modifies this`cancellationFlagged, this`completed, this`dataForWriting, this`nextFrame, this`ledger
      ensures Valid() && Reports(old(completed), newlyCompleted)
      ensures r == Closed <==> !reset && finishedWriting
      ensures r.Cancelled? <==> reset
      ensures r.Cancelled? ==> r == Cancelled(0)
      ensures cancellationFlagged == (old(cancellationFlagged) || reset)
      ensures reset || finishedWriting ==>
                  ledger == old(ledger) && nextFrame == old(nextFrame) && dataForWriting == old(dataForWriting)
      ensures !reset && !finishedWriting ==>
                && ledger == StreamLedger.Written(old(ledger), p)
                && (if |NextData(old(nextFrame))| + |p| <= MAX_PACKET_BUFFER_SIZE || p == []
                    then r == WriteResult.Written(|p|) && dataForWriting == []
                        && NextData(nextFrame) == NextData(old(nextFrame)) + p
                    else r == Blocked && dataForWriting == p && nextFrame == old(nextFrame))
    {
      hide Kept, Books, Unsent, ResetTracked, Boundary;
      newlyCompleted := false;
      if reset {
        cancellationFlagged := true;
        newlyCompleted := IsNewlyCompleted();
        return Cancelled(0), newlyCompleted;
      }
      if finishedWriting {
        return Closed, false;
      }
      WriteMore(p);
      if |p| == 0 {
        return WriteResult.Written(0), false;
      }
      r, newlyCompleted := ContinueWrite(|p|);
    }

    /** Takes over the data of a Write call. */
    method WriteMore(p: seq<Byte>)
      requires Valid() && |ledger.data| + |p| <= Varint.MAX_8 && !reset && !finishedWriting && dataForWriting == []
      modifies this`dataForWriting, this`ledger
      ensures Valid() && ledger == StreamLedger.Written(old(ledger), p) && dataForWriting == p
    {
      hide Kept, Books, ResetTracked, Boundary;
      NoResetStatus(reset, writeOffset, ReliableOffset(), resetStatus, queuedReset, flyingResets);
      WrittenBooks(ledger, retransmissionQueue, numOutstandingFrames, writeOffset, ReliableOffset(), p);
      assert (ledger.data + p)[writeOffset..] == ledger.data[writeOffset..] + p;
      dataForWriting := p;
      ledger := StreamLedger.Written(ledger, p);
    }

    /** One round of the loop in Write: buffers the rest of the data if it is small enough, or ends, or blocks. A
        blocked call is continued later. Even on a stream that was reset in the meantime, a rest that is small enough
        is buffered, and the call succeeds; it is cancelled exactly if the rest is too large. */
    method ContinueWrite(total: int) returns (r: WriteResult, newlyCompleted: bool)
      requires Valid() && |dataForWriting| <= total
      modifies this`cancellationFlagged, this`completed, this`dataForWriting, this`nextFrame
      ensures Valid() && Reports(old(completed), newlyCompleted)
      ensures var full := old(dataForWriting) != [] && !old(CanBufferStreamFrame());
              r == if !full then WriteResult.Written(total)
                   else if reset then Cancelled(total - |old(dataForWriting)|) else Blocked
      ensures r.Written? ==>
                dataForWriting == [] && NextData(nextFrame) == NextData(old(nextFrame)) + old(dataForWriting)
      ensures !r.Written? ==> dataForWriting == old(dataForWriting) && nextFrame == old(nextFrame)
      ensures cancellationFlagged == (old(cancellationFlagged) || r.Cancelled?) && (newlyCompleted ==> r.Cancelled?)
    {
      hide Kept, Books, Unsent, ResetTracked;
      newlyCompleted := false;
      if CanBufferStreamFrame() && |dataForWriting| > 0 {
        var f := if nextFrame.None? then StreamFrame(streamID, writeOffset, dataForWriting, false, true)
                 else nextFrame.value.(data := nextFrame.value.data + dataForWriting);
        BufferUnsent(ledger.data, nextFrame, dataForWriting, writeOffset, reset, ReliableOffset(), streamID, f);
        nextFrame, dataForWriting := Some(f), [];
        return WriteResult.Written(total), false;
      }
      if |dataForWriting| > 0 && !reset {
        return Blocked, false;
      }
      var bytesWritten := total - |dataForWriting|;
      if bytesWritten == total {
        return WriteResult.Written(total), false;
      }
      cancellationFlagged := true;
      newlyCompleted := IsNewlyCompleted();
      return Cancelled(bytesWritten), newlyCompleted;
    }

    /** The deadline of a blocked Write call passes: the rest of its data is taken back. */
    method ExpireWrite(total: int) returns (bytesWritten: int)
      requires Valid() && |dataForWriting| <= total
      modifies this`dataForWriting, this`ledger
      ensures Valid() && bytesWritten == total - |old(dataForWriting)| && dataForWriting == []
      ensures reset ==> ledger == old(ledger)
      ensures !reset ==>
                && |old(dataForWriting)| <= |old(ledger).data|
                && ledger == Withdrawn(old(ledger), |old(ledger).data| - |old(dataForWriting)|)
    {
      hide Kept, Books, Unsent, ResetTracked, Boundary, SendStream.Done;
      bytesWritten := total - |dataForWriting|;
      TakeBack(ledger.data, nextFrame, dataForWriting, writeOffset, reset, ReliableOffset(), streamID);
      if reset {
        dataForWriting := [];
        return;
      }
      ghost var n := |ledger.data| - |dataForWriting|;
      if dataForWriting == [] {
        assert Withdrawn(ledger, n) == ledger;
        return;
      }
      NoResetStatus(reset, writeOffset, ReliableOffset(), resetStatus, queuedReset, flyingResets);
      WithdrawnBooks(ledger, retransmissionQueue, numOutstandingFrames, writeOffset, ReliableOffset(), n);
      dataForWriting := [];
      ledger := Withdrawn(ledger, n);
    }

    predicate HasNewData()
      reads this`nextFrame, this`dataForWriting
    {
      nextFrame.Some? || dataForWriting != []
    }

    /** How many bytes the flow control window and the reset allow. */
    function Window(sendWindow: int): int
      reads this
    {
      if reset then Min(sendWindow, ReliableOffset() - writeOffset) else sendWindow
    }

    /** How many bytes are there for the next frame. */
    function Available(): int
      reads this`nextFrame, this`dataForWriting
    {
      if nextFrame.Some? then |nextFrame.value.data| else |dataForWriting|
    }

    /** A frame with one byte of new data would be too long. */
    ghost predicate NoRoomForNew(maxBytes: int)
      requires Valid()
      reads this
    {
      NextFrameNumber(ledger, retransmissionQueue, numOutstandingFrames, writeOffset, reset, ReliableOffset(),
                      resetStatus == ResetFlying, finSent);
      maxBytes < LengthWith(streamID, writeOffset, true, 1)
    }

    /** Nothing has to be sent any more after a reset. */
    predicate SentAfterReset()
      reads this
    {
      reset && (ReliableOffset() == 0 || (ReliableOffset() <= writeOffset && retransmissionQueue == []))
    }

    /** There is no frame to send, or no room for one. */
    ghost predicate NothingToSend(maxBytes: int, sendWindow: int)
      requires Valid()
      reads this
    {
      if SentAfterReset() then true
      else if retransmissionQueue != [] then NoRoomToResend(maxBytes)
      else if !HasNewData() then !finishedWriting || finSent
      else Window(sendWindow) <= 0 || NoRoomForNew(maxBytes)
    }

    ghost predicate NoRoomToResend(maxBytes: int)
      requires Valid() && retransmissionQueue != []
      reads this
    {
      QueueHead(ledger, retransmissionQueue, numOutstandingFrames, writeOffset, reset, ReliableOffset(),
                resetStatus == ResetFlying, finSent);
      var head := retransmissionQueue[0];
      maxBytes < Length(head) && maxBytes < LengthWith(head.streamID, head.offset, head.dataLenPresent, 1)
    }

    /** Sends the first frame of the retransmission queue again, or a part of it. */
    method PopRetransmission(maxBytes: int) returns (f: Option<StreamFrame>, ghost id: int)
      requires Valid() && retransmissionQueue != [] && maxBytes <= Varint.MAX_2 + 2
      modifies this`numOutstandingFrames, this`retransmissionQueue, this`ledger
      ensures Valid() && (AnnouncesOtherEnd() <==> old(AnnouncesOtherEnd()))
      ensures f.None? <==> old(NoRoomToResend(maxBytes))
      ensures f.None? ==> unchanged(this)
      ensures f.Some? ==> Resends(old(retransmissionQueue), f.value, retransmissionQueue)
      ensures f.Some? ==> id in ledger.flying && id !in old(ledger).flying && ledger.live[id] == f.value
      ensures f.Some? ==> ledger.flying == old(ledger).flying + {id} && Kept(old(ledger), ledger, old(ledger).flying)
      ensures ledger.data == old(ledger).data && ledger.acked == old(ledger).acked
              && ledger.finAcked == old(ledger).finAcked
      ensures f.Some? ==>
                  f.value.Writable() && Length(f.value) <= maxBytes && (reset ==> f.value.End() <= ReliableOffset())
      ensures f.Some? ==> AllThatFits(f.value, Varint.MAX_2, |old(retransmissionQueue)[0].data|, maxBytes)
    {
      hide Kept, Books, Unsent, ResetTracked, Boundary, OtherEnd, LengthWith, MaxDataLen, SplitAt, Resends, FilledUp,
           SendStream.Done;
      CountIsNatural(ledger, retransmissionQueue, numOutstandingFrames, writeOffset, reset, ReliableOffset(),
                     resetStatus == ResetFlying, finSent);
      QueueHead(ledger, retransmissionQueue, numOutstandingFrames, writeOffset, reset, ReliableOffset(),
          resetStatus == ResetFlying, finSent);
      var head := retransmissionQueue[0];
      id := ledger.queued[0];
      ResendFits(retransmissionQueue, maxBytes);
      NoRoomForOneByte(head, maxBytes);
      match MaybeSplitOff(head, maxBytes)
      case NoRoom =>
        return None, id;
      case Fits =>
        ResentBooks(ledger, retransmissionQueue, numOutstandingFrames, writeOffset, reset, ReliableOffset(),
                    resetStatus == ResetFlying, finSent);
        EnterResent(Resent(ledger), retransmissionQueue[1..]);
        return Some(head), id;
      case Parts(first, rest) =>
        id := ledger.nextId;
        ResentPartBooks(ledger, retransmissionQueue, numOutstandingFrames, writeOffset, reset, ReliableOffset(),
                        resetStatus == ResetFlying, finSent, |first.data|);
        EnterResent(ResentPart(ledger, first, rest), retransmissionQueue[0 := rest]);
        return Some(first), id;
    }

    method EnterResent(ghost l: Ledger, queue: seq<StreamFrame>)
      requires 0 <= numOutstandingFrames
      modifies this`numOutstandingFrames, this`retransmissionQueue, this`ledger
      ensures ledger == l && retransmissionQueue == queue && numOutstandingFrames == old(numOutstandingFrames) + 1
      ensures !Done()
    {
      ledger := l;
      retransmissionQueue := queue;
      numOutstandingFrames := numOutstandingFrames + 1;
    }

    /** Takes the frame to send next out of what was not sent yet: the buffered frame, or a new frame from the current
        Write call. It has at most `maxDataLen` bytes. */
    method TakeNew(maxBytes: int, maxDataLen: int) returns (f: Option<StreamFrame>, hasMore: bool)
      requires Valid() && maxBytes <= Varint.MAX_2 + 2 && 0 < maxDataLen
      requires nextFrame.Some? || dataForWriting != []
      requires !reset || (writeOffset < ReliableOffset() && maxDataLen <= ReliableOffset() - writeOffset)
      modifies this`nextFrame, this`dataForWriting
      ensures f.None? <==> old(NoRoomForNew(maxBytes))
      ensures f.None? ==> nextFrame == old(nextFrame) && dataForWriting == old(dataForWriting) && hasMore
      ensures f.Some? ==>
                  IsTaken(f.value, |f.value.data|, maxBytes)
                  && AllThatFits(f.value, maxDataLen, old(Available()), maxBytes)
      ensures f.Some? ==> (hasMore <==> MoreToTake(old(nextFrame).Some?))
    {
      hide Kept, Books, Unsent, IsPiece, ResetTracked, LengthWith, MaxDataLen, SendStream.Done, Boundary;
      NextFrameShape(ledger.data, nextFrame, dataForWriting, writeOffset, reset, ReliableOffset(), streamID);
      NextFrameNumber(ledger, retransmissionQueue, numOutstandingFrames, writeOffset, reset, ReliableOffset(),
                      resetStatus == ResetFlying, finSent);
      MaxDataLenSmall(streamID, writeOffset, maxBytes);
      MaxDataLenExact(streamID, writeOffset, true, maxBytes, 1);
      MaxDataLenExact(streamID, writeOffset, true, maxBytes, MaxDataLen(streamID, writeOffset, true, maxBytes) + 1);
      var n := Min(maxDataLen, MaxDataLen(streamID, writeOffset, true, maxBytes));
      if n == 0 {
        return None, true;
      }
      var frame;
      if nextFrame.Some? {
        frame, hasMore := TakeFromBuffer(maxBytes, n);
      } else {
        frame, hasMore := TakeFromWrite(maxBytes, n);
      }
      return Some(frame), hasMore;
    }

    /** The frame has `len` bytes that were not sent yet, and fits; what is left behind it is kept. */
    ghost predicate IsTaken(f: StreamFrame, len: int, maxBytes: int)
      reads this
    {
      && f.streamID == streamID && f.offset == writeOffset && !f.fin && |f.data| == len && 0 < len <= Varint.MAX_2
      && IsPiece(ledger.data, f.data, writeOffset)
      && Unsent(ledger.data, nextFrame, dataForWriting, f.End(), reset, ReliableOffset(), streamID)
      && Boundary(reliableSize, reset, f.End(), nextFrame)
      && f.Writable() && f.dataLenPresent && Length(f) <= maxBytes
    }

    /** There is more to send. A frame that was filled from the Write call also says so if the stream is finished. */
    predicate MoreToTake(wasBuffered: bool)
      reads this
    {
      HasNewData() || (!wasBuffered && finishedWriting)
    }

    /** After a new frame was sent, the stream asks to be called again. */
    predicate GoesOn(buffered: Option<StreamFrame>)
      reads this
    {
      MoreToTake(buffered.Some?) && !(reset && ReliableOffset() <= writeOffset)
    }

    /** Takes up to n bytes of the buffered frame. */
    method TakeFromBuffer(maxBytes: int, n: int) returns (frame: StreamFrame, hasMore: bool)
      requires Valid() && maxBytes <= Varint.MAX_2 + 2 && nextFrame.Some? && Varint.Fits(writeOffset)
      requires 0 < n <= MaxDataLen(streamID, writeOffset, true, maxBytes)
                && (!reset || n <= ReliableOffset() - writeOffset)
      modifies this`nextFrame
      ensures IsTaken(frame, Min(n, |old(nextFrame).value.data|), maxBytes) && (hasMore <==> MoreToTake(true))
    {
      hide Kept, Books, Unsent, IsPiece, ResetTracked, Length, MaxDataLen, SendStream.Done;
      NextFrameShape(ledger.data, nextFrame, dataForWriting, writeOffset, reset, ReliableOffset(), streamID);
      MaxDataLenSmall(streamID, writeOffset, maxBytes);
      TakeBuffered(ledger.data, nextFrame, dataForWriting, writeOffset, reset, ReliableOffset(), streamID, n);
      NextFrameNumber(ledger, retransmissionQueue, numOutstandingFrames, writeOffset, reset, ReliableOffset(),
                      resetStatus == ResetFlying, finSent);
      frame := nextFrame.value;
      if |frame.data| > n {
        nextFrame := Some(StreamFrame(streamID, writeOffset + n, frame.data[n..], false, true));
        frame := frame.(data := frame.data[..n]);
      } else {
        assert frame.data[..|frame.data|] == frame.data;
        nextFrame := None;
      }
      PieceInside(ledger.data, frame.data, writeOffset);
      MaxDataLenFits(frame, maxBytes);
      hasMore := nextFrame.Some? || dataForWriting != [];
    }

    /** Takes up to n bytes of the current Write call. */
    method TakeFromWrite(maxBytes: int, n: int) returns (frame: StreamFrame, hasMore: bool)
      requires Valid() && maxBytes <= Varint.MAX_2 + 2 && nextFrame.None? && dataForWriting != [] && !reset
      requires Varint.Fits(writeOffset) && 0 < n <= MaxDataLen(streamID, writeOffset, true, maxBytes)
      modifies this`dataForWriting
      ensures IsTaken(frame, Min(n, |old(dataForWriting)|), maxBytes) && (hasMore <==> MoreToTake(false))
    {
      hide Kept, Books, Unsent, IsPiece, ResetTracked, Length, MaxDataLen, SendStream.Done;
      NextFrameShape(ledger.data, nextFrame, dataForWriting, writeOffset, reset, ReliableOffset(), streamID);
      MaxDataLenSmall(streamID, writeOffset, maxBytes);
      NextFrameNumber(ledger, retransmissionQueue, numOutstandingFrames, writeOffset, reset, ReliableOffset(),
                      resetStatus == ResetFlying, finSent);
      var m := Min(n, |dataForWriting|);
      TakeWriting(ledger.data, dataForWriting, writeOffset, ReliableOffset(), streamID, m);
      frame := StreamFrame(streamID, writeOffset, dataForWriting[..m], false, true);
      PieceInside(ledger.data, frame.data, writeOffset);
      MaxDataLenFits(frame, maxBytes);
      dataForWriting := dataForWriting[m..];
      hasMore := dataForWriting != [] || finishedWriting;
    }

    /** Enters a new frame into the books. */
    method RecordSent(f: StreamFrame) returns (ghost id: int)
      requires Varint.Fits(streamID)
      requires Books(ledger, retransmissionQueue, numOutstandingFrames, writeOffset, reset, ReliableOffset(),
                     resetStatus == ResetFlying, finSent)
      requires f.offset == writeOffset && IsPiece(ledger.data, f.data, f.offset) && |f.data| <= Varint.MAX_2
                 && f.streamID == streamID && f.dataLenPresent
      requires Unsent(ledger.data, nextFrame, dataForWriting, f.End(), reset, ReliableOffset(), streamID)
      requires Boundary(reliableSize, reset, f.End(), nextFrame)
      requires ResetTracked(reset, writeOffset, ReliableOffset(), resetStatus, queuedReset, flyingResets)
      requires reset ==> writeOffset < ReliableOffset() && f.End() <= ReliableOffset()
      requires !finSent && (f.fin ==> finishedWriting && nextFrame.None? && dataForWriting == [])
      requires f.data != [] || f.fin
      modifies this`writeOffset, this`finSent, this`numOutstandingFrames, this`ledger
      ensures Valid() && ledger == Sent(old(ledger), f) && writeOffset == f.End() && finSent == (old(finSent) || f.fin)
      ensures id == old(ledger).nextId && id !in old(ledger).flying && Kept(old(ledger), ledger, old(ledger).flying)
      ensures !AnnouncesOtherEnd() && !old(AnnouncesOtherEnd())
    {
      hide Kept, Books, Unsent, ResetTracked, Boundary, IsPiece, OtherEnd, EndMoved;
      CountIsNatural(ledger, retransmissionQueue, numOutstandingFrames, writeOffset, reset, ReliableOffset(),
                     resetStatus == ResetFlying, finSent);
      id := ledger.nextId;
      ResetSizeKept(reset, writeOffset, f.End(), ReliableOffset(), resetStatus, queuedReset, flyingResets);
      NextFrameShape(ledger.data, nextFrame, dataForWriting, f.End(), reset, ReliableOffset(), streamID);
      NextFrameNumber(ledger, retransmissionQueue, numOutstandingFrames, writeOffset, reset, ReliableOffset(),
                      resetStatus == ResetFlying, finSent);
      SentBooks(ledger, retransmissionQueue, numOutstandingFrames, writeOffset, reset, ReliableOffset(),
          resetStatus == ResetFlying, finSent, f);
      SizeIsOffset(ledger, retransmissionQueue, numOutstandingFrames, writeOffset, reset, ReliableOffset(),
                   resetStatus == ResetFlying, finSent);
      ledger := Sent(ledger, f);
      writeOffset := f.End();
      finSent := finSent || f.fin;
      numOutstandingFrames := numOutstandingFrames + 1;
      SizeIsOffset(ledger, retransmissionQueue, numOutstandingFrames, writeOffset, reset, ReliableOffset(),
                   resetStatus == ResetFlying, finSent);
    }

    /** What a popped frame promises: it is new in flight, carries the application's bytes, respects the reset, and is
        not longer than `maxBytes`, except for a frame without data, which does not look at the limit. */
    ghost predicate Popped(before: Ledger, f: StreamFrame, id: int, maxBytes: int)
      reads this
    {
      && id in ledger.flying && id !in before.flying && id in ledger.live && ledger.live[id] == f
      && ledger.flying == before.flying + {id} && Kept(before, ledger, before.flying)
      && f.Writable() && Length(f) <= Max(maxBytes, MAX_EMPTY_FRAME)
      && (reset ==> f.End() <= ReliableOffset())
    }

    /** What a new frame promises: it goes on where the last one ended, and announces the end exactly if there is
        nothing left to send. */
    ghost predicate IsNew(f: StreamFrame, offset: int, ended: bool)
      reads this
    {
      && f.offset == offset && writeOffset == f.End() && f.streamID == streamID
      && (f.fin <==> finishedWriting && !ended && nextFrame.None? && dataForWriting == [])
      && (finSent <==> ended || f.fin)
    }

    /** The frame fits, and has all data there is, or as much as the window allows, or as much as there is room for. */
    static ghost predicate AllThatFits(f: StreamFrame, window: int, available: int, maxBytes: int) {
      && f.Writable() && Length(f) <= maxBytes && |f.data| < Varint.MAX_8
      && |f.data| <= window && |f.data| <= available
      && (|f.data| == window || |f.data| == available || FilledUp(f, maxBytes))
    }

    /** Pops the next frame: a retransmission if there is one, else new data or the end of the stream. Nothing comes
        out exactly if there is nothing to send or no room. On a stream that is not reset the FIN bit is only set
        where the written data ends, and the stream has nothing to send if it does not ask to be called again. A reset
        stream sends only the reliable part, and keeps the final size that it announced. */
    method PopStreamFrame(maxBytes: int, sendWindow: int) returns (f: Option<StreamFrame>, hasMore: bool, ghost id: int)
      requires Valid() && maxBytes <= Varint.MAX_2 + 2 && 0 <= sendWindow
      modifies this`writeOffset, this`finSent, this`numOutstandingFrames, this`ledger, this`retransmissionQueue,
               this`nextFrame, this`dataForWriting
      ensures Valid() && ledger.data == old(ledger).data && ledger.acked == old(ledger).acked
              && ledger.finAcked == old(ledger).finAcked
      ensures f.None? <==> old(NothingToSend(maxBytes, sendWindow))
      ensures f.None? ==> unchanged(this)
      ensures f.Some? ==>
                  f.value.dataLenPresent && Popped(old(ledger), f.value, id, maxBytes)
                  && IsPiece(ledger.data, f.value.data, f.value.offset)
      ensures f.Some? && old(retransmissionQueue) != [] ==>
                && Resends(old(retransmissionQueue), f.value, retransmissionQueue) && finSent == old(finSent)
                && unchanged(`writeOffset) && unchanged(`nextFrame) && unchanged(`dataForWriting)
      ensures f.Some? && old(retransmissionQueue) == [] ==>
                && retransmissionQueue == [] && IsNew(f.value, old(writeOffset), old(finSent))
                    && |f.value.data| <= sendWindow
                && (if old(HasNewData()) then AllThatFits(f.value, old(Window(sendWindow)), old(Available()), maxBytes)
                    else f.value.data == [])
      ensures f.Some? && old(retransmissionQueue) != [] ==>
                AllThatFits(f.value, Varint.MAX_2, |old(retransmissionQueue)[0].data|, maxBytes)
      ensures hasMore <==>
                && !old(SentAfterReset())
                && (old(retransmissionQueue) != [] || (old(HasNewData()) && (f.None? || GoesOn(old(nextFrame)))))
      ensures f.Some? && !reset && f.value.fin ==> finSent && finishedWriting && f.value.End() == |ledger.data|
      ensures old(finSent) ==> finSent
      ensures old(writeOffset) <= writeOffset && (f.Some? ==> f.value.End() <= writeOffset)
      ensures !hasMore && !reset ==>
                retransmissionQueue == [] && nextFrame.None? && dataForWriting == [] && (finishedWriting ==> finSent)
      ensures !hasMore && reset ==> retransmissionQueue == [] && ReliableOffset() <= writeOffset
      ensures reset ==> FinalSize() == old(FinalSize())
      ensures AnnouncesOtherEnd() <==> old(AnnouncesOtherEnd())
    {
      hide Kept, Books, Unsent, ResetTracked, Boundary, IsPiece, Length, OtherEnd, SendStream.Done;
      f, id := None, 0;
      if reset {
        var reliable := ReliableOffset();
        if reliable == 0 || (writeOffset >= reliable && |retransmissionQueue| == 0) {
          ClearedQueue(ledger, retransmissionQueue, numOutstandingFrames, writeOffset, ReliableOffset(),
              resetStatus == ResetFlying, finSent);
          return f, false, id;
        }
      }
      if |retransmissionQueue| > 0 {
        f, id := PopRetransmission(maxBytes);
        hasMore := true;
      } else {
        f, hasMore, id := PopNew(maxBytes, sendWindow);
      }
      if f.Some? {
        FlyingFrame(ledger, retransmissionQueue, numOutstandingFrames, writeOffset, reset, ReliableOffset(),
                    resetStatus == ResetFlying, finSent, id);
      }
    }

    /** Sends the end of the stream in a frame of its own. */
    method PopFin() returns (f: Option<StreamFrame>, ghost id: int)
      requires Valid() && !reset && finishedWriting && !finSent && nextFrame.None? && dataForWriting == []
      modifies this`writeOffset, this`finSent, this`numOutstandingFrames, this`ledger
      ensures Valid() && ledger.data == old(ledger).data && ledger.acked == old(ledger).acked
              && ledger.finAcked == old(ledger).finAcked && finSent
      ensures f.Some? && Popped(old(ledger), f.value, id, 0) && f.value.data == []
                && IsNew(f.value, old(writeOffset), false)
      ensures !AnnouncesOtherEnd() && !old(AnnouncesOtherEnd())
    {
      hide Kept, Books, Unsent, ResetTracked, Boundary, IsPiece, Length;
      var fin := StreamFrame(streamID, writeOffset, [], true, true);
      NextFrameNumber(ledger, retransmissionQueue, numOutstandingFrames, writeOffset, reset, ReliableOffset(),
                      resetStatus == ResetFlying, finSent);
      EmptyFrame(ledger.data, fin);
      id := RecordSent(fin);
      f := Some(fin);
    }

    /** Sends new data, or the end of the stream. */
    method PopNew(maxBytes: int, sendWindow: int) returns (f: Option<StreamFrame>, hasMore: bool, ghost id: int)
      requires Valid() && maxBytes <= Varint.MAX_2 + 2 && 0 <= sendWindow && (reset ==> writeOffset < ReliableOffset())
      requires retransmissionQueue == []
      modifies this`writeOffset, this`finSent, this`numOutstandingFrames, this`ledger, this`nextFrame,
                 this`dataForWriting
      ensures Valid() && ledger.data == old(ledger).data && ledger.acked == old(ledger).acked
              && ledger.finAcked == old(ledger).finAcked
      ensures f.None? <==> old(NothingToSend(maxBytes, sendWindow))
      ensures f.None? ==> unchanged(this)
      ensures f.Some? ==>
                && Popped(old(ledger), f.value, id, maxBytes)
                && IsNew(f.value, old(writeOffset), old(finSent)) && |f.value.data| <= sendWindow
                && (if old(HasNewData()) then AllThatFits(f.value, old(Window(sendWindow)), old(Available()), maxBytes)
                    else f.value.data == [])
      ensures hasMore <==> old(HasNewData()) && (f.None? || GoesOn(old(nextFrame)))
      ensures !hasMore && !reset ==> nextFrame.None? && dataForWriting == [] && (finishedWriting ==> finSent)
      ensures !hasMore && reset ==> ReliableOffset() <= writeOffset
      ensures reset ==> FinalSize() == old(FinalSize())
      ensures AnnouncesOtherEnd() <==> old(AnnouncesOtherEnd())
    {
      hide Kept, Books, Unsent, ResetTracked, Boundary, IsPiece, Length, OtherEnd, SendStream.Done;
      f, id := None, 0;
      NextFrameShape(ledger.data, nextFrame, dataForWriting, writeOffset, reset, ReliableOffset(), streamID);
      if |dataForWriting| == 0 && nextFrame.None? {
        if finishedWriting && !finSent {
          f, id := PopFin();
          return f, false, id;
        }
        return None, false, id;
      }
      var maxDataLen := sendWindow;
      if maxDataLen == 0 {
        return None, true, id;
      }
      if reset && ReliableOffset() > 0 {
        maxDataLen := Min(maxDataLen, ReliableOffset() - writeOffset);
      }
      f, hasMore, id := PopData(maxBytes, maxDataLen);
    }

    /** Sends at most `maxDataLen` bytes of new data; the frame with the last of them ends the stream. */
    method PopData(maxBytes: int, maxDataLen: int) returns (f: Option<StreamFrame>, hasMore: bool, ghost id: int)
      requires Valid() && maxBytes <= Varint.MAX_2 + 2 && 0 < maxDataLen
      requires nextFrame.Some? || dataForWriting != []
      requires !reset || (writeOffset < ReliableOffset() && maxDataLen <= ReliableOffset() - writeOffset)
      modifies this`writeOffset, this`finSent, this`numOutstandingFrames, this`ledger, this`nextFrame,
                 this`dataForWriting
      ensures Valid() && ledger.data == old(ledger).data && ledger.acked == old(ledger).acked
              && ledger.finAcked == old(ledger).finAcked
      ensures f.None? <==> old(NoRoomForNew(maxBytes))
      ensures f.None? ==> hasMore && unchanged(this)
      ensures f.Some? ==>
                && Popped(old(ledger), f.value, id, maxBytes)
                && AllThatFits(f.value, maxDataLen, old(Available()), maxBytes)
                && IsNew(f.value, old(writeOffset), old(finSent)) && !AnnouncesOtherEnd() && !old(AnnouncesOtherEnd())
      ensures hasMore <==> f.None? || GoesOn(old(nextFrame))
      ensures !hasMore && !reset ==> nextFrame.None? && dataForWriting == [] && (finishedWriting ==> finSent)
      ensures !hasMore && reset ==> ReliableOffset() <= writeOffset
    {
      hide Kept, Books, Unsent, ResetTracked, Boundary, IsPiece, Length, OtherEnd, SendStream.Done;
      id := 0;
      if reset {
        NotEnded(ledger, retransmissionQueue, numOutstandingFrames, writeOffset, ReliableOffset(),
            resetStatus == ResetFlying, finSent);
      }
      f, hasMore := TakeNew(maxBytes, maxDataLen);
      if f.None? {
        return None, hasMore, id;
      }
      var fin := finishedWriting && dataForWriting == [] && nextFrame.None? && !finSent;
      var frame := f.value.(fin := fin);
      SameLength(f.value, frame);
      id := RecordSent(frame);
      f := Some(frame);
      NextFrameShape(ledger.data, nextFrame, dataForWriting, writeOffset, reset, ReliableOffset(), streamID);
      if reset && writeOffset >= ReliableOffset() {
        hasMore := false;
      }
    }

    /** Ends the stream. */
    method Close() returns (cancelled: bool, newlyCompleted: bool)
      requires Valid()
      modifies this`finishedWriting, this`cancellationFlagged, this`completed
      ensures Valid() && Reports(old(completed), newlyCompleted) && finishedWriting
      ensures cancelled <==> !old(finishedWriting) && reset
      ensures cancellationFlagged == (old(cancellationFlagged) || cancelled)
    {
      hide Kept, Books, Unsent, ResetTracked, Boundary;
      if finishedWriting {
        return false, false;
      }
      finishedWriting := true;
      cancelled := reset;
      if cancelled {
        cancellationFlagged := true;
      }
      newlyCompleted := IsNewlyCompleted();
    }

    /** How many more acknowledgements of frames in flight can arrive than the counter allows for. */
    ghost function Deficit(): int
      reads this
    {
      if reset && ReliableOffset() == 0 then 0
      else |ledger.flying| + (if resetStatus == ResetFlying then 1 else 0) - numOutstandingFrames
    }

    lemma NoDeficit()
      requires Sound()
      ensures Deficit() == 0
    {
      CounterMatches(ledger, retransmissionQueue, numOutstandingFrames, writeOffset, reset, ReliableOffset(),
                     resetStatus == ResetFlying, finSent);
      hide Books;
    }

    /** Everything that was written so far, except for the rest of a blocked Write call, becomes reliable. On a stream
        that was reset already, this is only harmless if it does not move the boundary: the frames in flight are not
        counted any more if the reset had no reliable part, and their acknowledgements are missing in the counter when
        it gets one. */
    method SetReliableBoundary()
      requires Valid()
      modifies this`reliableSize
      ensures reliableSize == writeOffset + |NextData(nextFrame)|
      ensures !reset || !supportsResetStreamAt || reliableSize == old(reliableSize) ==> Valid()
      ensures !reset ==> reliableSize + |dataForWriting| == |ledger.data|
      ensures Deficit() == if reset && old(ReliableOffset()) == 0 < ReliableOffset() then |ledger.flying| else 0
    {
      hide Kept, Books, ResetTracked;
      NoDeficit();
      CounterMatches(ledger, retransmissionQueue, numOutstandingFrames, writeOffset, reset, ReliableOffset(),
                     resetStatus == ResetFlying, finSent);
      reliableSize := writeOffset;
      if nextFrame.Some? {
        reliableSize := reliableSize + |nextFrame.value.data|;
      }
      if !reset {
        NoResetStatus(reset, writeOffset, old(ReliableOffset()), resetStatus, queuedReset, flyingResets);
        BoundaryBooks(ledger, retransmissionQueue, numOutstandingFrames, writeOffset, old(ReliableOffset()), finSent,
                      ReliableOffset());
        BoundaryReset(writeOffset, old(ReliableOffset()), resetStatus, queuedReset, flyingResets, ReliableOffset());
      }
    }

    /** The peer supports partial reliability. A reset that was sent before must not have a reliable part to keep. */
    method EnableResetStreamAt()
      requires Valid()
      modifies this`supportsResetStreamAt
      ensures supportsResetStreamAt && ReliableOffset() == reliableSize
      ensures !reset || reliableSize == 0 || old(supportsResetStreamAt) ==> Valid()
      ensures Deficit() == if reset && old(ReliableOffset()) == 0 < ReliableOffset() then |ledger.flying| else 0
    {
      hide Kept, Books, ResetTracked;
      NoDeficit();
      CounterMatches(ledger, retransmissionQueue, numOutstandingFrames, writeOffset, reset, ReliableOffset(),
                     resetStatus == ResetFlying, finSent);
      supportsResetStreamAt := true;
      if !reset {
        NoResetStatus(reset, writeOffset, old(ReliableOffset()), resetStatus, queuedReset, flyingResets);
        BoundaryBooks(ledger, retransmissionQueue, numOutstandingFrames, writeOffset, old(ReliableOffset()), finSent,
                      ReliableOffset());
        BoundaryReset(writeOffset, old(ReliableOffset()), resetStatus, queuedReset, flyingResets, ReliableOffset());
      }
    }

    /** Resets the stream. Data below the reliable offset stays on its way; all other data is forgotten. A queued
        frame that announces the end of the stream and reaches over the reliable offset announces another end
        afterwards. */
    method CancelWrite() returns (newlyCompleted: bool)
      requires Valid()
      modifies this`cancellationFlagged, this`completed, this`reset, this`numOutstandingFrames,
               this`retransmissionQueue, this`nextFrame, this`queuedReset, this`ledger, this`resetStatus
      ensures Valid() && reset && cancellationFlagged && Reports(old(completed), newlyCompleted)
      ensures ledger.data == old(ledger).data && ledger.flying == old(ledger).flying
                && ledger.acked == old(ledger).acked
      ensures Kept(old(ledger), ledger, ledger.flying)
      ensures old(reset) ==> unchanged(`ledger) && unchanged(`queuedReset) && unchanged(`resetStatus)
      ensures old(reset) ==>
                unchanged(`retransmissionQueue) && unchanged(`nextFrame) && unchanged(`numOutstandingFrames)
      ensures !old(reset) ==> !newlyCompleted && queuedReset == Some(ResetFrame(FinalSize(), ReliableOffset()))
      ensures !old(reset) ==>
                if ReliableOffset() == 0 then numOutstandingFrames == 0 && nextFrame == None
                    && retransmissionQueue == []
                else && numOutstandingFrames == old(numOutstandingFrames)
                     && retransmissionQueue == Trimmed(old(retransmissionQueue), ReliableOffset())
                     && nextFrame == KeptPart(old(nextFrame), ReliableOffset())
      ensures !old(reset) ==> (AnnouncesOtherEnd() <==> SomeFinCut(old(retransmissionQueue), ReliableOffset()))
    {
      hide Kept, Books, Unsent, ResetTracked, SendStream.Done, OtherEnd, EndMoved, SomeFinCut, Trimmed;
      cancellationFlagged := true;
      if reset {
        newlyCompleted := IsNewlyCompleted();
        KeptSame(ledger);
        return;
      }
      newlyCompleted := false;
      CountIsNatural(ledger, retransmissionQueue, numOutstandingFrames, writeOffset, reset, ReliableOffset(),
                     resetStatus == ResetFlying, finSent);
      NoResetStatus(reset, writeOffset, ReliableOffset(), resetStatus, queuedReset, flyingResets);
      if ReliableOffset() == 0 {
        ForgetFrames();
        NothingBelowZero(old(ledger), old(retransmissionQueue), old(numOutstandingFrames), writeOffset, false, 0,
            false, finSent);
      } else {
        KeepReliable();
      }
      ResetStarts(writeOffset, ReliableOffset(), flyingResets);
      QueueReset(ResetFrame(Max(writeOffset, ReliableOffset()), ReliableOffset()));
      OtherEndIsMoved();
    }

    method QueueReset(f: ResetFrame)
      modifies this`queuedReset, this`reset, this`resetStatus
      ensures queuedReset == Some(f) && reset && resetStatus == ResetQueued && !Done()
    {
      queuedReset := Some(f);
      reset := true;
      resetStatus := ResetQueued;
    }

    lemma QueuedResetIsNotDone()
      requires queuedReset.Some?
      ensures !Done()
    {
    }

    /** No frame will be sent again, and the frames in flight do not count any more. */
    method ForgetFrames()
      requires Books(ledger, retransmissionQueue, numOutstandingFrames, writeOffset, reset, ReliableOffset(),
                     resetStatus == ResetFlying, finSent)
      requires Unsent(ledger.data, nextFrame, dataForWriting, writeOffset, reset, ReliableOffset(), streamID)
      requires Boundary(reliableSize, reset, writeOffset, nextFrame)
      modifies this`numOutstandingFrames, this`retransmissionQueue, this`nextFrame, this`ledger
      ensures Books(ledger, retransmissionQueue, numOutstandingFrames, writeOffset, true, 0, false, finSent)
      ensures Unsent(ledger.data, nextFrame, dataForWriting, writeOffset, true, 0, streamID)
      ensures Boundary(reliableSize, true, writeOffset, nextFrame)
      ensures ledger.data == old(ledger).data && ledger.flying == old(ledger).flying
                && ledger.acked == old(ledger).acked
      ensures numOutstandingFrames == 0 && nextFrame == None && retransmissionQueue == []
      ensures Kept(old(ledger), ledger, ledger.flying)
      ensures EndMoved(ledger.live, writeOffset) ==> EndMoved(old(ledger).live, writeOffset)
    {
      hide Books, Kept, EndMoved;
      ClearedBooks(ledger, retransmissionQueue, numOutstandingFrames, writeOffset, reset, ReliableOffset(),
                   resetStatus == ResetFlying, finSent);
      numOutstandingFrames, retransmissionQueue, nextFrame := 0, [], None;
      ledger := Cleared(ledger);
    }

    /** Only the reliable part of what is buffered or queued is kept. */
    method KeepReliable()
      requires Books(ledger, retransmissionQueue, numOutstandingFrames, writeOffset, false, ReliableOffset(), false,
                     finSent) && 0 < ReliableOffset()
      requires Unsent(ledger.data, nextFrame, dataForWriting, writeOffset, false, ReliableOffset(), streamID)
      requires Boundary(reliableSize, false, writeOffset, nextFrame) && (finSent ==> nextFrame.None?)
      modifies this`retransmissionQueue, this`nextFrame, this`ledger
      ensures Books(ledger, retransmissionQueue, numOutstandingFrames, writeOffset, true, ReliableOffset(), false,
                    finSent)
      ensures Unsent(ledger.data, nextFrame, dataForWriting, writeOffset, true, ReliableOffset(), streamID)
      ensures Boundary(reliableSize, true, writeOffset, nextFrame)
      ensures ledger.data == old(ledger).data && ledger.flying == old(ledger).flying
                && ledger.acked == old(ledger).acked
      ensures retransmissionQueue == Trimmed(old(retransmissionQueue), ReliableOffset())
      ensures nextFrame == KeptPart(old(nextFrame), ReliableOffset())
      ensures Kept(old(ledger), ledger, ledger.flying)
      ensures EndMoved(ledger.live, writeOffset) <==> SomeFinCut(old(retransmissionQueue), ReliableOffset())
    {
      hide Kept, Books, Unsent, Accounts, QueueMatches, Cut, IdSet, Trimmed, EndMoved, SomeFinCut;
      ghost var queue, before := retransmissionQueue, ledger;
      ghost var lo := Lo(true, ReliableOffset(), writeOffset);
      TrimReady(ledger, retransmissionQueue, numOutstandingFrames, writeOffset, ReliableOffset(), finSent);
      retransmissionQueue, ledger := TrimQueue(retransmissionQueue, ReliableOffset(), ledger, lo, writeOffset);
      TrimmedBooks(before, queue, numOutstandingFrames, writeOffset, ReliableOffset(), finSent, retransmissionQueue,
                   ledger);
      NextFrameShape(ledger.data, nextFrame, dataForWriting, writeOffset, false, ReliableOffset(), streamID);
      KeepBuffered(ledger.data, nextFrame, dataForWriting, writeOffset, ReliableOffset(), streamID);
      if nextFrame.Some? {
        if nextFrame.value.offset >= ReliableOffset() {
          nextFrame := None;
        } else if nextFrame.value.End() > ReliableOffset() {
          var n := ReliableOffset() - nextFrame.value.offset;
          nextFrame := Some(nextFrame.value.(data := nextFrame.value.data[..n]));
        }
      }
    }

    /** The peer does not want the data. The stream is reset without a reliable part. If it was reset before, the new
        final size is the old one exactly if the whole reliable part was sent before. */
    method HandleStopSending()
      requires Valid()
      modifies this`reset, this`reliableSize, this`numOutstandingFrames, this`retransmissionQueue,
               this`nextFrame, this`queuedReset, this`ledger, this`resetStatus
      ensures Valid() && reset && ReliableOffset() == 0
      ensures ledger.data == old(ledger).data && ledger.flying == old(ledger).flying
                && ledger.acked == old(ledger).acked
      ensures !old(reset) || old(ReliableOffset()) > 0 ==> queuedReset == Some(ResetFrame(writeOffset, 0))
      ensures old(reset) && old(ReliableOffset()) == 0 ==> unchanged(this)
      ensures old(reset) ==> (FinalSize() == old(FinalSize()) <==> old(ReliableOffset()) <= writeOffset)
      ensures !old(reset) || old(ReliableOffset()) > 0 ==>
                numOutstandingFrames == 0 && nextFrame == None && retransmissionQueue == []
      ensures AnnouncesOtherEnd() ==> old(AnnouncesOtherEnd())
    {
      hide Kept, Books, Unsent, ResetTracked, Boundary, OtherEnd, EndMoved, SendStream.Done;
      NextFrameNumber(ledger, retransmissionQueue, numOutstandingFrames, writeOffset, reset, ReliableOffset(),
                      resetStatus == ResetFlying, finSent);
      if reset && ReliableOffset() == 0 {
        return;
      }
      OtherEndIsMoved();
      ResetRestarts(reset, writeOffset, ReliableOffset(), resetStatus, queuedReset, flyingResets);
      ForgetFrames();
      BoundaryZero(reliableSize, writeOffset, nextFrame);
      reliableSize := 0;
      QueueReset(ResetFrame(writeOffset, 0));
      OtherEndIsMoved();
    }

    /** Sends the queued reset. */
    method GetControlFrame() returns (f: Option<ResetFrame>)
      requires Valid()
      modifies this`numOutstandingFrames, this`queuedReset, this`resetStatus, this`flyingResets
      ensures Valid() && f == old(queuedReset) && queuedReset == None
      ensures f.Some? ==>
                  f.value == ResetFrame(FinalSize(), ReliableOffset())
                  && flyingResets == old(flyingResets) + multiset{f.value}
      ensures f.None? ==> flyingResets == old(flyingResets) && resetStatus == old(resetStatus)
    {
      hide Kept, Books, Unsent, Boundary;
      f := queuedReset;
      if f.Some? {
        CountIsNatural(ledger, retransmissionQueue, numOutstandingFrames, writeOffset, reset, ReliableOffset(),
                       resetStatus == ResetFlying, finSent);
        ResetFrameBooks(ledger, retransmissionQueue, numOutstandingFrames, writeOffset, reset, ReliableOffset(),
                        finSent);
        numOutstandingFrames := numOutstandingFrames + 1;
        queuedReset := None;
        resetStatus := ResetFlying;
        flyingResets := flyingResets + multiset{f.value};
      }
    }

    /** A STREAM frame in flight is acknowledged. This panics exactly if the counter is zero and the frame should have
        been counted, which needs a deficit; on a valid stream it does not happen. Completion is reported with the
        last acknowledgement, unless the stream was reset. */
    method OnAcked(ghost id: int) returns (panicked: bool, newlyCompleted: bool)
      requires id in ledger.flying && id in ledger.live
      modifies this`numOutstandingFrames, this`completed, this`ledger
      ensures ledger == Acked(old(ledger), id)
      ensures panicked <==> !(reset && ReliableOffset() == 0) && old(numOutstandingFrames) <= 0
      ensures numOutstandingFrames == old(numOutstandingFrames) - if reset && ReliableOffset() == 0 then 0 else 1
      ensures Deficit() == old(Deficit())
      ensures old(Valid()) ==>
                !panicked && Valid() && 0 <= numOutstandingFrames && Reports(old(completed), newlyCompleted)
      ensures old(Valid()) && !reset ==> (newlyCompleted <==> !old(completed) && AllDelivered())
    {
      hide Kept, Books, Unsent, ResetTracked, Boundary, SendStream.AllDelivered, SendStream.Done, OtherEnd, Acked;
      ghost var valid := Valid();
      if valid {
        AckBooks(id);
      }
      panicked := CountAck(id);
      if (reset && ReliableOffset() == 0) || panicked {
        return panicked, false;
      }
      newlyCompleted := IsNewlyCompleted();
      if valid && !reset {
        DeliveredMeansCompleted();
      }
    }

    lemma AckBooks(id: int)
      requires Valid() && id in ledger.flying && id in ledger.live
      ensures 0 <= numOutstandingFrames && ((reset && ReliableOffset() == 0) || 1 <= numOutstandingFrames)
      ensures var num := if reset && ReliableOffset() == 0 then numOutstandingFrames else numOutstandingFrames - 1;
              Books(Acked(ledger, id), retransmissionQueue, num, writeOffset, reset, ReliableOffset(),
                    resetStatus == ResetFlying, finSent)
    {
      FlyingFrame(ledger, retransmissionQueue, numOutstandingFrames, writeOffset, reset, ReliableOffset(),
                  resetStatus == ResetFlying, finSent, id);
      AckedBooks(ledger, retransmissionQueue, numOutstandingFrames, writeOffset, reset, ReliableOffset(),
                 resetStatus == ResetFlying, finSent, id);
      CountIsNatural(ledger, retransmissionQueue, numOutstandingFrames, writeOffset, reset, ReliableOffset(),
                     resetStatus == ResetFlying, finSent);
    }

    /** Enters an acknowledgement into the ledger and the counter. */
    method CountAck(ghost id: int) returns (panicked: bool)
      requires id in ledger.flying && id in ledger.live
      modifies this`numOutstandingFrames, this`ledger
      ensures ledger == Acked(old(ledger), id) && ledger.data == old(ledger).data && Deficit() == old(Deficit())
      ensures numOutstandingFrames == old(numOutstandingFrames) - if reset && ReliableOffset() == 0 then 0 else 1
      ensures panicked <==> !(reset && ReliableOffset() == 0) && old(numOutstandingFrames) <= 0
    {
      assert ledger.flying == ledger.flying - {id} + {id};
      ledger := Acked(ledger, id);
      if reset && ReliableOffset() == 0 {
        return false;
      }
      numOutstandingFrames := numOutstandingFrames - 1;
      return numOutstandingFrames < 0;
    }

    /** All frames in flight are acknowledged, in any order. This panics exactly if the counter is too small. */
    method OnAllAcked(n: nat) returns (panicked: bool)
      requires n == |ledger.flying| && ledger.flying <= ledger.live.Keys
      requires !(reset && ReliableOffset() == 0) && 0 <= numOutstandingFrames
      modifies this`numOutstandingFrames, this`completed, this`ledger
      ensures panicked <==> old(numOutstandingFrames) < n
    {
      hide SendStream.Sound, SendStream.Done, SendStream.AllDelivered;
      panicked := false;
      var k := n;
      while k > 0 && !panicked
        invariant 0 <= k <= n && ledger.flying <= ledger.live.Keys && |ledger.flying| == k
        invariant numOutstandingFrames == old(numOutstandingFrames) - (n - k)
        invariant panicked <==> numOutstandingFrames < 0
      {
        ghost var id := SomeMember(ledger.flying);
        var completed;
        panicked, completed := OnAcked(id);
        k := k - 1;
      }
    }

    /** A STREAM frame in flight is lost. It will be sent again, unless a reset made it unnecessary. The packer may
        have removed the length field of the frame in the meantime. A frame that announces the end of the stream and
        reaches over the reliable offset of a reset is cut, and announces another end when it is sent again; nothing
        else brings that about. */
    method OnLost(f: StreamFrame, ghost id: int) returns (panicked: bool, newlyCompleted: bool)
      requires id in ledger.flying && id in ledger.live && ledger.live[id] == f.(dataLenPresent := true)
      requires 0 <= f.offset && 0 <= reliableSize
      modifies this`numOutstandingFrames, this`completed, this`ledger, this`retransmissionQueue
      ensures panicked <==> !(reset && ReliableOffset() == 0) && old(numOutstandingFrames) <= 0
      ensures numOutstandingFrames == old(numOutstandingFrames) - if reset && ReliableOffset() == 0 then 0 else 1
      ensures Deficit() == old(Deficit())
      ensures old(Valid()) ==>
                !panicked && Valid() && Reports(old(completed), newlyCompleted) && 0 <= numOutstandingFrames
      ensures ledger.data == old(ledger).data && ledger.acked == old(ledger).acked
                && ledger.finAcked == old(ledger).finAcked
      ensures ledger.flying == old(ledger).flying - {id} && Kept(old(ledger), ledger, ledger.flying)
      ensures !panicked && (!reset || f.offset < ReliableOffset()) ==>
                retransmissionQueue == old(retransmissionQueue) + [Remainder(f)]
      ensures panicked || (reset && f.offset >= ReliableOffset()) ==> retransmissionQueue == old(retransmissionQueue)
      ensures old(Valid()) && !(reset && ReliableOffset() == 0) ==>
                (AnnouncesOtherEnd() <==> old(AnnouncesOtherEnd()) || (reset && FinCut(f, ReliableOffset())))
      ensures old(Valid()) && reset && ReliableOffset() == 0 ==> (AnnouncesOtherEnd() ==> old(AnnouncesOtherEnd()))
    {
      hide Books, Unsent, ResetTracked, Boundary, SendStream.AllDelivered, OtherEnd, EndMoved, SendStream.Done, Kept,
           Truncate;
      ghost var valid := Valid();
      if valid {
        OtherEndIsMoved();
        LossBooks(f, id);
      }
      var dropped;
      panicked, dropped := TakeLost(f, id);
      newlyCompleted := false;
      if dropped && !panicked {
        newlyCompleted := IsNewlyCompleted();
      } else if retransmissionQueue != [] {
        QueueIsNotDone();
      }
      if valid {
        OtherEndIsMoved();
      }
    }

    /** What of a lost frame is sent again. */
    function Remainder(f: StreamFrame): StreamFrame
      requires !reset || f.offset < ReliableOffset()
      reads this`reset, this`supportsResetStreamAt, this`reliableSize
    {
      (if reset then Truncate(f, ReliableOffset()) else f).(dataLenPresent := true)
    }

    lemma InFlight(id: int)
      requires Valid() && id in ledger.flying
      ensures id in ledger.live && 0 <= ledger.live[id].offset && 0 <= reliableSize
    {
      FlyingFrame(ledger, retransmissionQueue, numOutstandingFrames, writeOffset, reset, ReliableOffset(),
                  resetStatus == ResetFlying, finSent, id);
      hide Books;
    }

    /** The books after a loss. */
    lemma LossBooks(f: StreamFrame, id: int)
      requires Valid() && id in ledger.flying && id in ledger.live && ledger.live[id] == f.(dataLenPresent := true)
      ensures 0 <= numOutstandingFrames && ((reset && ReliableOffset() == 0) || 1 <= numOutstandingFrames)
      ensures reset && f.offset >= ReliableOffset() ==>
                var num := if ReliableOffset() == 0 then numOutstandingFrames else numOutstandingFrames - 1;
                && Books(Dropped(ledger, id), retransmissionQueue, num, writeOffset, reset, ReliableOffset(),
                         resetStatus == ResetFlying, finSent)
                && (EndMoved(Dropped(ledger, id).live, writeOffset) ==> EndMoved(ledger.live, writeOffset))
                && (0 < ReliableOffset() ==>
                      (EndMoved(Dropped(ledger, id).live, writeOffset) <==> EndMoved(ledger.live, writeOffset)))
      ensures !reset || f.offset < ReliableOffset() ==>
                && Books(Requeued(ledger, id, Remainder(f)), retransmissionQueue + [Remainder(f)],
                         numOutstandingFrames - 1, writeOffset, reset, ReliableOffset(),
                         resetStatus == ResetFlying, finSent)
                && (EndMoved(Requeued(ledger, id, Remainder(f)).live, writeOffset) <==>
                      EndMoved(ledger.live, writeOffset) || (reset && FinCut(f, ReliableOffset())))
    {
      hide Books, Unsent, ResetTracked, Boundary, EndMoved;
      FlyingFrame(ledger, retransmissionQueue, numOutstandingFrames, writeOffset, reset, ReliableOffset(),
                  resetStatus == ResetFlying, finSent, id);
      CountIsNatural(ledger, retransmissionQueue, numOutstandingFrames, writeOffset, reset, ReliableOffset(),
                     resetStatus == ResetFlying, finSent);
      if reset && ReliableOffset() == 0 {
        LostAfterReset(ledger, retransmissionQueue, numOutstandingFrames, writeOffset, resetStatus == ResetFlying,
                       finSent, id);
        MovedFewer(ledger.live, writeOffset, Dropped(ledger, id).live);
      } else if reset && f.offset >= ReliableOffset() {
        DroppedBooks(ledger, retransmissionQueue, numOutstandingFrames, writeOffset, ReliableOffset(),
                     resetStatus == ResetFlying, finSent, id);
      } else {
        RequeuedBooks(ledger, retransmissionQueue, numOutstandingFrames, writeOffset, reset, ReliableOffset(),
                      resetStatus == ResetFlying, finSent, id);
      }
    }

    /** Takes a lost frame out of the flight, and queues it, or the reliable part of it, for retransmission. */
    method TakeLost(f: StreamFrame, ghost id: int) returns (panicked: bool, dropped: bool)
      requires id in ledger.flying && id in ledger.live && ledger.live[id] == f.(dataLenPresent := true)
      requires 0 <= f.offset && 0 <= reliableSize
      modifies this`numOutstandingFrames, this`ledger, this`retransmissionQueue
      ensures panicked <==> !(reset && ReliableOffset() == 0) && old(numOutstandingFrames) <= 0
      ensures numOutstandingFrames == old(numOutstandingFrames) - if reset && ReliableOffset() == 0 then 0 else 1
      ensures Deficit() == old(Deficit()) && Kept(old(ledger), ledger, ledger.flying)
      ensures dropped <==> reset && ReliableOffset() > 0 && f.offset >= ReliableOffset()
      ensures if panicked || (reset && f.offset >= ReliableOffset())
              then ledger == Dropped(old(ledger), id) && retransmissionQueue == old(retransmissionQueue)
              else && ledger == Requeued(old(ledger), id, Remainder(f))
                   && retransmissionQueue == old(retransmissionQueue) + [Remainder(f)]
    {
      dropped := reset && ReliableOffset() > 0 && f.offset >= ReliableOffset();
      assert ledger.flying == ledger.flying - {id} + {id};
      if reset && ReliableOffset() == 0 {
        ledger := Dropped(ledger, id);
        return false, dropped;
      }
      numOutstandingFrames := numOutstandingFrames - 1;
      panicked := numOutstandingFrames < 0;
      if panicked || dropped {
        ledger := Dropped(ledger, id);
        return;
      }
      var lost := f;
      if reset && f.End() > ReliableOffset() {
        lost := lost.(data := lost.data[..ReliableOffset() - lost.offset]);
      }
      lost := lost.(dataLenPresent := true);
      ledger := Requeued(ledger, id, lost);
      retransmissionQueue := retransmissionQueue + [lost];
    }

    /** A reset frame in flight is acknowledged. A frame of an earlier reset, with a reliable part, is ignored. */
    method OnResetAcked(f: ResetFrame) returns (newlyCompleted: bool)
      requires Valid() && f in flyingResets
      modifies this`numOutstandingFrames, this`completed, this`resetStatus, this`flyingResets
      ensures Valid() && Reports(old(completed), newlyCompleted) && 0 <= numOutstandingFrames
      ensures flyingResets == old(flyingResets) - multiset{f}
      ensures resetStatus == (if f.reliableSize == ReliableOffset() then ResetAcked else old(resetStatus))
    {
      hide Kept, Books, Unsent, Boundary, ResetTracked, SendStream.AllDelivered, SendStream.Done,
          SendStream.Reports;
      CountIsNatural(ledger, retransmissionQueue, numOutstandingFrames, writeOffset, reset, ReliableOffset(),
                     resetStatus == ResetFlying, finSent);
      if f.reliableSize != ReliableOffset() {
        IgnoreReset(f);
        NothingReported();
        return false;
      }
      CurrentReset(f);
      TakeReset(f, ResetAcked);
      newlyCompleted := IsNewlyCompleted();
    }

    /** A frame of an earlier reset leaves the flight. */
    method IgnoreReset(f: ResetFrame)
      requires Valid() && f in flyingResets && f.reliableSize != ReliableOffset()
      modifies this`flyingResets
      ensures Valid() && flyingResets == old(flyingResets) - multiset{f}
    {
      hide Kept, Books, Unsent, Boundary, ResetTracked, SendStream.Done;
      ResetArrived(reset, writeOffset, ReliableOffset(), resetStatus, queuedReset, flyingResets, f);
      flyingResets := flyingResets - multiset{f};
    }

    /** The current reset frame can be acknowledged or sent again. */
    lemma CurrentReset(f: ResetFrame)
      requires Valid() && f in flyingResets && f.reliableSize == ReliableOffset()
      ensures 1 <= numOutstandingFrames && reset && queuedReset == None
      ensures Books(ledger, retransmissionQueue, numOutstandingFrames - 1, writeOffset, reset, ReliableOffset(),
                false, finSent)
      ensures var flying := flyingResets - multiset{f};
              && ResetTracked(reset, writeOffset, ReliableOffset(), ResetAcked, None, flying)
              && ResetTracked(reset, writeOffset, ReliableOffset(), ResetQueued, Some(f), flying)
    {
      hide Kept, Books, Unsent, Boundary, ResetTracked, SendStream.Done;
      CountIsNatural(ledger, retransmissionQueue, numOutstandingFrames, writeOffset, reset, ReliableOffset(),
                     resetStatus == ResetFlying, finSent);
      ResetArrived(reset, writeOffset, ReliableOffset(), resetStatus, queuedReset, flyingResets, f);
      ResetFrameBooks(ledger, retransmissionQueue, numOutstandingFrames - 1, writeOffset, reset, ReliableOffset(),
                      finSent);
    }

    /** A reset frame in flight is lost: it is sent again, if it belongs to the current reset. */
    method OnResetLost(f: ResetFrame)
      requires Valid() && f in flyingResets
      modifies this`numOutstandingFrames, this`queuedReset, this`resetStatus, this`flyingResets
      ensures Valid() && 0 <= numOutstandingFrames && flyingResets == old(flyingResets) - multiset{f}
      ensures queuedReset == (if f.reliableSize == ReliableOffset() then Some(f) else old(queuedReset))
    {
      hide Kept, Books, Unsent, Boundary, ResetTracked, SendStream.Done;
      CountIsNatural(ledger, retransmissionQueue, numOutstandingFrames, writeOffset, reset, ReliableOffset(),
                     resetStatus == ResetFlying, finSent);
      if f.reliableSize != ReliableOffset() {
        IgnoreReset(f);
        return;
      }
      CurrentReset(f);
      TakeReset(f, ResetQueued);
      queuedReset := Some(f);
      QueuedResetIsNotDone();
    }

    /** Takes the current reset frame out of the flight. */
    method TakeReset(f: ResetFrame, ghost status: ResetStatus)
      modifies this`numOutstandingFrames, this`resetStatus, this`flyingResets
      ensures numOutstandingFrames == old(numOutstandingFrames) - 1 && resetStatus == status
      ensures flyingResets == old(flyingResets) - multiset{f}
    {
      numOutstandingFrames := numOutstandingFrames - 1;
      resetStatus := status;
      flyingResets := flyingResets - multiset{f};
    }
  }

  lemma KeptSame(l: Ledger)
    ensures Kept(l, l, l.flying)
  {
  }

  lemma NoResetStatus(reset: bool, w: int, reliable: int, status: ResetStatus, queuedReset: Option<ResetFrame>,
                      flying: multiset<ResetFrame>)
    requires ResetTracked(reset, w, reliable, status, queuedReset, flying) && !reset
    ensures status == NoReset && queuedReset == None && flying == multiset{}
  {
  }

  lemma BoundaryReset(w: int, reliable: int, status: ResetStatus, queuedReset: Option<ResetFrame>,
                      flying: multiset<ResetFrame>, reliable': int)
    requires ResetTracked(false, w, reliable, status, queuedReset, flying)
    ensures ResetTracked(false, w, reliable', status, queuedReset, flying)
  {
  }

  /** A reset frame leaves the flight. */
  lemma ResetArrived(reset: bool, w: int, reliable: int, status: ResetStatus, queuedReset: Option<ResetFrame>,
                     flying: multiset<ResetFrame>, f: ResetFrame)
    requires ResetTracked(reset, w, reliable, status, queuedReset, flying) && f in flying
    ensures f.reliableSize != reliable ==> ResetTracked(reset, w, reliable, status, queuedReset, flying - multiset{f})
    ensures f.reliableSize == reliable ==>
              && reset && status == ResetFlying
              && ResetTracked(reset, w, reliable, ResetAcked, None, flying - multiset{f}) && queuedReset == None
              && ResetTracked(reset, w, reliable, ResetQueued, Some(f), flying - multiset{f})
  {
  }

  lemma ResetStarts(w: int, reliable: int, flying: multiset<ResetFrame>)
    requires flying == multiset{}
    ensures ResetTracked(true, w, reliable, ResetQueued, Some(ResetFrame(Max(w, reliable), reliable)), flying)
  {
  }

  lemma ResetRestarts(reset: bool, w: int, reliable: int, status: ResetStatus, queuedReset: Option<ResetFrame>,
                      flying: multiset<ResetFrame>)
    requires ResetTracked(reset, w, reliable, status, queuedReset, flying) && (!reset || reliable > 0) && 0 <= w
    ensures ResetTracked(true, w, 0, ResetQueued, Some(ResetFrame(w, 0)), flying)
  {
  }

  lemma ResetSizeKept(reset: bool, w: int, w': int, reliable: int, status: ResetStatus, queuedReset: Option<ResetFrame>,
                      flying: multiset<ResetFrame>)
    requires ResetTracked(reset, w, reliable, status, queuedReset, flying) && (reset ==> w <= w' <= reliable)
    ensures ResetTracked(reset, w', reliable, status, queuedReset, flying)
  {
  }

  lemma BoundaryZero(reliableSize: int, w: int, next: Option<StreamFrame>)
    requires Boundary(reliableSize, true, w, next)
    ensures Boundary(0, true, w, next)
  {
  }

  /** A frame without data. */
  lemma EmptyFrame(data: seq<Byte>, f: StreamFrame)
    requires f.Writable() && f.data == [] && f.offset <= |data|
    ensures IsPiece(data, f.data, f.offset) && Length(f) <= MAX_EMPTY_FRAME
  {
  }

  lemma SameLength(f: StreamFrame, g: StreamFrame)
    requires f.Writable() && g == f.(fin := g.fin)
    ensures g.Writable() && Length(g) == Length(f)
  {
  }

  lemma PieceInside(stream: seq<Byte>, data: seq<Byte>, offset: int)
    requires IsPiece(stream, data, offset)
    ensures 0 <= offset && offset + |data| <= |stream|
  {
  }

  /** What a reset with a reliable part leaves of the buffered frame. */
  lemma KeepBuffered(data: seq<Byte>, next: Option<StreamFrame>, rest: seq<Byte>, w: int, reliable: int, streamID: int)
    requires Unsent(data, next, rest, w, false, reliable, streamID)
    ensures reliable <= w ==> forall kept: Option<StreamFrame> :: kept == None || kept == next ==>
                                Unsent(data, kept, rest, w, true, reliable, streamID)
    ensures w < reliable ==>
              && next.Some?
              && Unsent(data, Some(Truncate(next.value, reliable)), rest, w, true, reliable, streamID)
  {
    if w < reliable {
      var d := next.value.data;
      assert data[w..] == d + rest;
      assert data[w..reliable] == d[..reliable - w];
    }
  }

  lemma NextFrameShape(data: seq<Byte>, next: Option<StreamFrame>, rest: seq<Byte>, w: int, reset: bool,
                       reliable: int, streamID: int)
    requires Unsent(data, next, rest, w, reset, reliable, streamID)
    ensures 0 <= w <= |data|
    ensures next.Some? ==>
                next.value.offset == w && next.value.data != [] && |next.value.data| <= MAX_PACKET_BUFFER_SIZE
                && next.value.streamID == streamID && !next.value.fin && next.value.dataLenPresent
    ensures reset && w < reliable ==> next.Some?
    ensures next.None? ==> w >= reliable
    ensures !reset ==> w + |NextData(next)| + |rest| == |data|
  {
  }

  /** Taking the first n bytes of the buffered frame. */
  lemma TakeBuffered(data: seq<Byte>, next: Option<StreamFrame>, rest: seq<Byte>, w: int, reset: bool, reliable: int,
                     streamID: int, n: int)
    requires Unsent(data, next, rest, w, reset, reliable, streamID) && next.Some? && 0 < n
    requires !reset || n <= reliable - w
    ensures var m := Min(n, |next.value.data|);
            var left := if m < |next.value.data|
                then Some(StreamFrame(streamID, w + m, next.value.data[m..], false, true)) else None;
            && IsPiece(data, next.value.data[..m], w)
            && Unsent(data, left, rest, w + m, reset, reliable, streamID)
  {
    var d := next.value.data;
    var m := Min(n, |d|);
    if !reset {
      assert data[w..] == d + rest;
      assert data[w..w + m] == d[..m];
      assert data[w + m..] == d[m..] + rest;
    } else {
      assert m <= reliable - w <= |d|;
      PieceOfPiece(data, d[..reliable - w], w, 0, m);
      PieceOfPiece(data, d[..reliable - w], w, m, reliable - w);
      assert d[..reliable - w][0..m] == d[..m] && d[..reliable - w][m..reliable - w] == d[m..][..reliable - w - m];
    }
  }

  /** Taking the first n bytes of the current Write call. */
  lemma TakeWriting(data: seq<Byte>, rest: seq<Byte>, w: int, reliable: int, streamID: int, n: int)
    requires Unsent(data, None, rest, w, false, reliable, streamID) && 0 <= n <= |rest|
    ensures IsPiece(data, rest[..n], w) && Unsent(data, None, rest[n..], w + n, false, reliable, streamID)
  {
    assert data[w..] == [] + rest;
    assert data[w..w + n] == rest[..n] && data[w + n..] == rest[n..];
  }

  /** The rest of a Write call is taken back. */
  lemma TakeBack(data: seq<Byte>, next: Option<StreamFrame>, rest: seq<Byte>, w: int, reset: bool, reliable: int,
                 streamID: int)
    requires Unsent(data, next, rest, w, reset, reliable, streamID)
    ensures reset ==> Unsent(data, next, [], w, true, reliable, streamID)
    ensures !reset ==> w + |rest| <= |data| && Unsent(data[..|data| - |rest|], next, [], w, false, reliable, streamID)
  {
    if !reset {
      Shortened(data, w, NextData(next), rest);
    }
  }

  lemma Shortened(data: seq<Byte>, w: int, a: seq<Byte>, b: seq<Byte>)
    requires 0 <= w <= |data| && data[w..] == a + b
    ensures w + |b| <= |data| && data[..|data| - |b|][w..] == a + []
  {
    var n := |data| - |b|;
    assert data[..n][w..] == data[w..][..n - w];
  }

  lemma BufferUnsent(data: seq<Byte>, next: Option<StreamFrame>, rest: seq<Byte>, w: int, reset: bool, reliable: int,
                     streamID: int, f: StreamFrame)
    requires Unsent(data, next, rest, w, reset, reliable, streamID)
    requires rest != [] && |NextData(next)| + |rest| <= MAX_PACKET_BUFFER_SIZE
    requires f == if next.None? then StreamFrame(streamID, w, rest, false, true)
               else next.value.(data := next.value.data + rest)
    ensures Unsent(data, Some(f), [], w, reset, reliable, streamID)
  {
    assert NextData(next) + rest == f.data + [];
    if reset && w < reliable {
      assert f.data[..reliable - w] == NextData(next)[..reliable - w];
    }
  }
}
