// A send stream and a receive stream, connected by a network that may lose, repeat and reorder frames.
module StreamDelivery {
  import opened Protocol
  import opened StreamBooks
  import opened StreamFrames
  import opened StreamLedger
  import FrameSorter
  import Receiving = ReceiveStream
  import Sending = SendStream
  import SendStreamRuns
  import Varint

  /** The frames that were sent carry the application's bytes, and announce the end where the data ends. */
  ghost predicate TrueFrames(sent: set<StreamFrame>, data: seq<Byte>, finSent: bool) {
    forall f :: f in sent ==> IsPiece(data, f.data, f.offset) && (f.fin ==> finSent && f.End() == |data|)
  }

  /** The sender keeps inside of the window that it knows, which the receiver has granted. */
  ghost predicate Windows(sent: set<StreamFrame>, writeOffset: int, sendWindow: int, window: int) {
    writeOffset <= sendWindow <= window && forall f :: f in sent ==> f.End() <= writeOffset
  }

  /** The frames in flight were sent. */
  ghost predicate InFlight(l: Ledger, sent: set<StreamFrame>) {
    forall id :: id in l.flying ==> id in l.live && l.live[id] in sent
  }

  /** What was delivered is received. */
  ghost predicate Arrived(delivered: set<StreamFrame>, received: set<int>, endKnown: bool) {
    forall f :: f in delivered ==> FrameSpan(f) <= received && (f.fin ==> endKnown)
  }

  /** What was acknowledged is received. */
  ghost predicate Confirmed(l: Ledger, received: set<int>, endKnown: bool) {
    l.acked <= received && (l.finAcked ==> endKnown)
  }

  /** The receiver knows the right end, and nothing behind it. */
  ghost predicate RightEnd(flow: Receiving.Flow, finalOffset: int, data: seq<Byte>, finSent: bool) {
    && flow.highestReceived <= |data|
    && (flow.receivedFinalOffset ==> finSent && finalOffset == |data| == flow.highestReceived)
  }

  class Link {
    const sender: Sending.SendStream
    const receiver: Receiving.ReceiveStream
    /** What the application at the receiver has read. */
    var output: seq<Byte>
    var nextCallback: int
    /** The largest window that the sender knows of. */
    var sendWindow: int
    ghost var sent: set<StreamFrame>
    ghost var delivered: set<StreamFrame>

    ghost predicate Valid()
      reads this, sender, receiver, receiver.frameQueue
    {
      && sender.Valid() && !sender.reset
      && receiver.Valid() && !receiver.cancelledLocally && !receiver.cancelledRemotely && !receiver.closedForShutdown
      && receiver.Carries(sender.ledger.data)
      && TrueFrames(sent, sender.ledger.data, sender.finSent) && delivered <= sent
      && InFlight(sender.ledger, sent)
      && Windows(sent, sender.writeOffset, sendWindow, receiver.flow.window)
      && Arrived(delivered, receiver.frameQueue.received, receiver.flow.receivedFinalOffset)
      && Confirmed(sender.ledger, receiver.frameQueue.received, receiver.flow.receivedFinalOffset)
      && RightEnd(receiver.flow, receiver.finalOffset, sender.ledger.data, sender.finSent)
      && |output| == receiver.readPos && output <= sender.ledger.data
      && (forall c :: c in receiver.frameQueue.passed ==> c < nextCallback)
    }

    constructor (streamID: int, window: int)
      requires Varint.Fits(streamID) && 0 <= window
      ensures Valid() && fresh(sender) && fresh(receiver) && fresh(receiver.frameQueue)
      ensures output == [] && sender.ledger == EMPTY && receiver.flow.window == window
    {
      hide FrameSorter.Sorter.Valid, Receiving.ReceiveStream.Valid, Sending.SendStream.Valid,
           Receiving.ReceiveStream.Carries;
      sender := new Sending.SendStream(streamID, false);
      receiver := new Receiving.ReceiveStream(window);
      output, nextCallback, sent, delivered, sendWindow := [], 0, {}, {}, window;
    }

    /** The application writes. */
    method Write(p: seq<Byte>) returns (r: Sending.WriteResult)
      requires Valid() && |sender.ledger.data| + |p| <= Varint.MAX_8 && sender.dataForWriting == []
      modifies sender
      ensures Valid()
      ensures sender.ledger.data == old(sender.ledger.data) + if old(sender.finishedWriting) then [] else p
    {
      hide FrameSorter.Sorter.Valid, Receiving.ReceiveStream.Valid, Sending.SendStream.Valid,
           Receiving.ReceiveStream.Carries, TrueFrames, InFlight, Arrived, Confirmed, RightEnd,
           Sending.SendStream.Reports;
      if sender.finSent {
        sender.FinMeansFinished();
      } else {
        LongerData(sent, sender.ledger, p, receiver.flow, receiver.finalOffset, receiver.frameQueue.received);
        receiver.CarriesLonger(sender.ledger.data, p);
      }
      var completed;
      r, completed := sender.BeginWrite(p);
    }

    /** A blocked Write call goes on. */
    method ContinueWrite(total: int) returns (r: Sending.WriteResult)
      requires Valid() && |sender.dataForWriting| <= total
      modifies sender
      ensures Valid() && sender.ledger == old(sender.ledger)
    {
      hide FrameSorter.Sorter.Valid, Receiving.ReceiveStream.Valid, Sending.SendStream.Valid,
           Receiving.ReceiveStream.Carries, TrueFrames, InFlight, Arrived, Confirmed, RightEnd,
           Sending.SendStream.Reports;
      var completed;
      r, completed := sender.ContinueWrite(total);
    }

    /** The application ends the stream. */
    method Close()
      requires Valid()
      modifies sender
      ensures Valid() && sender.finishedWriting && sender.ledger == old(sender.ledger)
    {
      hide FrameSorter.Sorter.Valid, Receiving.ReceiveStream.Valid, Sending.SendStream.Valid,
           Receiving.ReceiveStream.Carries, TrueFrames, InFlight, Arrived, Confirmed, RightEnd,
           Sending.SendStream.Reports;
      var cancelled, completed := sender.Close();
    }

    /** A frame is sent, for the first time or again, unless there is nothing to send or no room in the packet or in
        one of the windows. */
    method Send(maxBytes: int, connectionWindow: int) returns (f: Option<StreamFrame>, ghost id: int)
      requires Valid() && maxBytes <= Varint.MAX_2 + 2 && 0 <= connectionWindow
      modifies sender, this`sent
      ensures Valid() && sender.ledger.data == old(sender.ledger.data)
      ensures f.None? <==>
                  old(sender.NothingToSend(maxBytes, Min(connectionWindow, sendWindow - sender.writeOffset)))
      ensures f.Some? ==> sent == old(sent) + {f.value}
      ensures f.None? ==> sent == old(sent)
    {
      hide FrameSorter.Sorter.Valid, Receiving.ReceiveStream.Valid, Sending.SendStream.Valid,
           Receiving.ReceiveStream.Carries, TrueFrames, InFlight, Arrived, Confirmed, RightEnd, IsPiece, Length;
      ghost var before, finBefore := sender.ledger, sender.finSent;
      var hasMore;
      f, hasMore, id := sender.PopStreamFrame(maxBytes, Min(connectionWindow, sendWindow - sender.writeOffset));
      FinOnly(sent, before.data, finBefore, sender.finSent, receiver.flow, receiver.finalOffset);
      if f.Some? {
        OneMoreSent(sent, sender.ledger, before, sender.finSent, f.value, id);
        SameConfirmed(before, sender.ledger, receiver.frameQueue.received, receiver.flow.receivedFinalOffset);
        sent := sent + {f.value};
      }
    }

    /** The sender learns of a window that was granted, maybe out of order. */
    method LearnWindow(window: int)
      requires Valid() && window <= receiver.flow.window
      modifies this`sendWindow
      ensures Valid() && sendWindow == Max(old(sendWindow), window)
    {
      hide FrameSorter.Sorter.Valid, Receiving.ReceiveStream.Valid, Sending.SendStream.Valid,
           Receiving.ReceiveStream.Carries, TrueFrames, InFlight, Arrived, Confirmed, RightEnd;
      sendWindow := Max(sendWindow, window);
    }

    /** The network delivers a frame that was sent at any time before, maybe not for the first time. The window of the
        stream and the final size are never a reason to refuse it, only the window of the connection and too many gaps
        are; so it is accepted as long as there is room for a gap, and a frame that brings nothing new always. The
        sorter panics exactly for the last byte of a stream of the largest size. */
    method Deliver(f: StreamFrame, connectionBlocked: bool) returns (err: Receiving.FrameError)
      requires Valid() && f in sent
      modifies receiver, receiver.frameQueue, this`delivered, this`nextCallback
      ensures err != Receiving.FinalSizeError
      ensures err == Receiving.FlowControlError <==> old(receiver.flow).highestReceived < f.End() && connectionBlocked
      ensures err == Receiving.Panic <==>
                  err != Receiving.FlowControlError && f.data != [] && f.End() == MAX_BYTE_COUNT
      ensures err == Receiving.TooManyGaps <==>
                  && err != Receiving.FlowControlError && err != Receiving.Panic
                  && FrameSorter.MAX_GAPS < |receiver.frameQueue.gaps|
      ensures f.End() < MAX_BYTE_COUNT && !connectionBlocked
                && |old(receiver.frameQueue.gaps)| < FrameSorter.MAX_GAPS ==>
                err == Receiving.Ok
      ensures FrameSpan(f) <= old(receiver.frameQueue.received) && f.End() <= old(receiver.flow).highestReceived ==>
                err == Receiving.Ok
      ensures err == Receiving.Ok ==> Valid() && delivered == old(delivered) + {f}
    {
      hide FrameSorter.Sorter.Valid, Receiving.ReceiveStream.Valid, Sending.SendStream.Valid,
           Receiving.ReceiveStream.Carries, TrueFrames, InFlight, Arrived, Confirmed, IsPiece;
      SentFrame(sent, sender.ledger.data, sender.finSent, f);
      sender.DataFits();
      ghost var received, known := receiver.frameQueue.received, receiver.flow.receivedFinalOffset;
      var completed;
      err, completed := receiver.HandleStreamFrame(f.data, f.offset, f.fin, nextCallback, connectionBlocked,
                                                   sender.ledger.data);
      nextCallback := nextCallback + 1;
      if err == Receiving.Ok {
        OneMoreArrived(delivered, sender.ledger, received, known, receiver.frameQueue.received,
                       receiver.flow.receivedFinalOffset, f);
        delivered := delivered + {f};
      }
    }

    /** The receiver grants more. */
    method Grant(window: int) returns (offset: int)
      requires Valid() && receiver.flow.window <= window
      modifies receiver`flow
      ensures Valid() && (!receiver.flow.receivedFinalOffset ==> offset == receiver.flow.window == window)
    {
      hide FrameSorter.Sorter.Valid, Receiving.ReceiveStream.Valid, Sending.SendStream.Valid,
           FrameSorter.HoldsBytesOf, TrueFrames, InFlight, Arrived, Confirmed, IsPiece;
      offset := receiver.GetWindowUpdate(window);
    }

    /** A frame that was delivered is acknowledged. If the sender reports that it is done, everything was received. */
    method Acknowledge(ghost id: int) returns (completed: bool)
      requires Valid() && id in sender.ledger.flying && id in sender.ledger.live && sender.ledger.live[id] in delivered
      modifies sender
      ensures Valid() && sender.ledger.data == old(sender.ledger.data)
      ensures completed <==> !old(sender.completed) && sender.AllDelivered()
    {
      hide FrameSorter.Sorter.Valid, Receiving.ReceiveStream.Valid, Sending.SendStream.Valid,
           Receiving.ReceiveStream.Carries, TrueFrames, InFlight, Arrived, Confirmed, RightEnd,
           Sending.SendStream.AllDelivered;
      AckOfDelivered(sender.ledger, sent, delivered, receiver.frameQueue.received, receiver.flow.receivedFinalOffset,
          id);
      var panicked;
      panicked, completed := sender.OnAcked(id);
    }

    /** A frame is declared lost, whether it arrives or not. */
    method Lose(ghost id: int, f: StreamFrame)
      requires Valid() && id in sender.ledger.flying && id in sender.ledger.live
      requires sender.ledger.live[id] == f.(dataLenPresent := true)
      modifies sender
      ensures Valid() && sender.ledger.data == old(sender.ledger.data)
    {
      hide FrameSorter.Sorter.Valid, Receiving.ReceiveStream.Valid, Sending.SendStream.Valid,
           Receiving.ReceiveStream.Carries, TrueFrames, InFlight, Arrived, Confirmed, RightEnd,
           Sending.SendStream.AllDelivered, Kept;
      ghost var before := sender.ledger;
      sender.InFlight(id);
      var panicked, completed := sender.OnLost(f, id);
      StillInFlight(before, sender.ledger, sent);
      SameConfirmed(before, sender.ledger, receiver.frameQueue.received, receiver.flow.receivedFinalOffset);
    }

    /** The application at the receiver reads. It always gets the next bytes that were written, and the end only after
        all of them. */
    method Read(want: nat) returns (p: seq<Byte>, err: Receiving.ReadError, completed: bool)
      requires Valid()
      modifies receiver, receiver.frameQueue, this`output
      ensures Valid() && output == old(output) + p
      ensures receiver.flow == old(receiver.flow) && receiver.finalOffset == old(receiver.finalOffset)
      ensures receiver.frameQueue.received == old(receiver.frameQueue.received)
      ensures err == Receiving.Eof ==> sender.finSent && output == sender.ledger.data
      ensures err == Receiving.NoError && |p| < want ==> |output| !in receiver.frameQueue.received
      ensures err == Receiving.NoError && 0 < want ==> p != []
      ensures err == Receiving.Blocked ==> |output| !in receiver.frameQueue.received && |output| != receiver.finalOffset
      ensures err == Receiving.NoError || err == Receiving.Eof || err == Receiving.Blocked
      ensures old(receiver.SeesEnd()) && |output| == receiver.finalOffset ==> err == Receiving.Eof
      ensures 0 < want && |old(output)| == receiver.finalOffset ==> err == Receiving.Eof
      ensures completed <==>
                && !old(receiver.completed) && receiver.flow.receivedFinalOffset
                && receiver.finalOffset != MAX_BYTE_COUNT && (old(receiver.errorRead) || err == Receiving.Eof)
    {
      hide FrameSorter.Sorter.Valid, Receiving.ReceiveStream.Valid, Sending.SendStream.Valid,
           Receiving.ReceiveStream.Carries, TrueFrames, InFlight, Arrived, Confirmed, IsPiece;
      p, err, completed := receiver.Read(want, false, sender.ledger.data);
      NextBytes(sender.ledger.data, output, p);
      output := output + p;
    }

    /** When the sender knows that everything was delivered, the receiver has all bytes and knows the end. */
    lemma CompletionMeansReceived()
      requires Valid() && sender.AllDelivered()
      ensures receiver.flow.receivedFinalOffset && receiver.finalOffset == |sender.ledger.data|
      ensures Span(0, |sender.ledger.data|) <= receiver.frameQueue.received
    {
    }

    /** After completion, the application at the receiver can read exactly what was written, up to the end. */
    method ReadToEnd()
      requires Valid() && sender.AllDelivered()
      modifies receiver, receiver.frameQueue, this`output
      ensures Valid() && output == sender.ledger.data
    {
      hide FrameSorter.Sorter.Valid, Receiving.ReceiveStream.Valid, Sending.SendStream.Valid,
           Receiving.ReceiveStream.Carries, TrueFrames, InFlight, Arrived, Confirmed, RightEnd;
      CompletionMeansReceived();
      while true
        invariant Valid() && receiver.finalOffset == |sender.ledger.data|
        invariant Span(0, |sender.ledger.data|) <= receiver.frameQueue.received
        decreases |sender.ledger.data| - |output|
      {
        var p, err, completed := Read(1000);
        if err == Receiving.Eof {
          return;
        }
      }
    }
  }

  lemma LongerData(sent: set<StreamFrame>, l: Ledger, p: seq<Byte>, flow: Receiving.Flow, finalOffset: int,
                   received: set<int>)
    requires TrueFrames(sent, l.data, false) && RightEnd(flow, finalOffset, l.data, false) && InFlight(l, sent)
    requires Confirmed(l, received, flow.receivedFinalOffset)
    ensures TrueFrames(sent, l.data + p, false) && RightEnd(flow, finalOffset, l.data + p, false)
    ensures InFlight(Written(l, p), sent) && Confirmed(Written(l, p), received, flow.receivedFinalOffset)
  {
    forall f | f in sent ensures IsPiece(l.data + p, f.data, f.offset) {
      PieceOfLonger(l.data, p, f.data, f.offset);
    }
  }

  lemma FinOnly(sent: set<StreamFrame>, data: seq<Byte>, fin: bool, fin': bool, flow: Receiving.Flow, finalOffset: int)
    requires TrueFrames(sent, data, fin) && RightEnd(flow, finalOffset, data, fin) && (fin ==> fin')
    ensures TrueFrames(sent, data, fin') && RightEnd(flow, finalOffset, data, fin')
  {
  }

  lemma OneMoreSent(sent: set<StreamFrame>, l: Ledger, before: Ledger, fin: bool, f: StreamFrame, id: int)
    requires TrueFrames(sent, l.data, fin) && InFlight(before, sent) && l.flying == before.flying + {id}
    requires Kept(before, l, before.flying) && id in l.live && l.live[id] == f
    requires IsPiece(l.data, f.data, f.offset) && (f.fin ==> fin && f.End() == |l.data|)
    ensures TrueFrames(sent + {f}, l.data, fin) && InFlight(l, sent + {f})
  {
  }

  lemma SameConfirmed(before: Ledger, l: Ledger, received: set<int>, known: bool)
    requires Confirmed(before, received, known) && l.acked == before.acked && l.finAcked == before.finAcked
    ensures Confirmed(l, received, known)
  {
  }

  lemma StillInFlight(before: Ledger, l: Ledger, sent: set<StreamFrame>)
    requires InFlight(before, sent) && l.flying <= before.flying && Kept(before, l, l.flying)
    ensures InFlight(l, sent)
  {
  }

  lemma SentFrame(sent: set<StreamFrame>, data: seq<Byte>, fin: bool, f: StreamFrame)
    requires TrueFrames(sent, data, fin) && f in sent
    ensures IsPiece(data, f.data, f.offset) && 0 <= f.offset && f.End() <= |data|
              && (f.fin ==> fin && f.End() == |data|)
  {
  }

  lemma OneMoreArrived(delivered: set<StreamFrame>, l: Ledger, received: set<int>, known: bool, received': set<int>,
                       known': bool, f: StreamFrame)
    requires Arrived(delivered, received, known) && Confirmed(l, received, known)
    requires received' == received + FrameSpan(f) && (known || f.fin ==> known')
    ensures Arrived(delivered + {f}, received', known') && Confirmed(l, received', known')
  {
  }

  lemma AckOfDelivered(l: Ledger, sent: set<StreamFrame>, delivered: set<StreamFrame>, received: set<int>, known: bool,
                       id: int)
    requires InFlight(l, sent) && Arrived(delivered, received, known) && Confirmed(l, received, known)
    requires id in l.flying && id in l.live && l.live[id] in delivered
    ensures InFlight(Acked(l, id), sent) && Confirmed(Acked(l, id), received, known)
  {
  }

  /** A receiver that knows the final size of a reset gets a frame of the reset stream. It answers with a final size
      error exactly if the frame announces another end. */
  method DeliverAfterReset(s: Sending.SendStream, r: Receiving.ReceiveStream, f: StreamFrame, ghost id: int, done: int,
                           connectionBlocked: bool)
    returns (err: Receiving.FrameError)
    requires s.Valid() && s.reset && id in s.ledger.flying && id in s.ledger.live && s.ledger.live[id] == f
    requires r.Valid() && done !in r.frameQueue.passed
    requires r.flow.receivedFinalOffset && r.flow.highestReceived == s.FinalSize()
    modifies r, r.frameQueue
    ensures err == Receiving.FinalSizeError <==> Moved(f, s.FinalSize())
    ensures err == Receiving.FinalSizeError ==> s.AnnouncesOtherEnd()
  {
    FlyingFrame(s.ledger, s.retransmissionQueue, s.numOutstandingFrames, s.writeOffset, s.reset, s.ReliableOffset(),
                s.resetStatus == Sending.ResetFlying, s.finSent, id);
    hide Books, Sending.Unsent, Sending.ResetTracked;
    var completed;
    err, completed := r.HandleStreamFrame(f.data, f.offset, f.fin, done, connectionBlocked, s.ledger.data);
  }

  /** The run that cuts the end of a stream, with a receiver: it accepts the reset, and refuses the frame. */
  method CutFrameIsRefused() returns (err: Receiving.FrameError)
    ensures err == Receiving.FinalSizeError
  {
    hide Sending.SendStream.Valid, Receiving.ReceiveStream.Valid;
    var s, reset, f := SendStreamRuns.EndCutByReset();
    var r := new Receiving.ReceiveStream(1000);
    var completed;
    err, completed := r.HandleResetStreamFrame(reset.finalSize, reset.reliableSize, false);
    err, completed := r.HandleStreamFrame(f.data, f.offset, f.fin, 0, false, []);
  }

  lemma NextBytes(data: seq<Byte>, output: seq<Byte>, p: seq<Byte>)
    requires output <= data && (p != [] ==> IsPiece(data, p, |output|))
    ensures output + p <= data
  {
    if p == [] {
      assert output + p == output;
    } else {
      assert data[..|output| + |p|] == data[..|output|] + data[|output|..|output| + |p|];
    }
  }
}
