// The receiving side of a stream: frames go into a frame sorter, the application reads, peeks and cancels.
module ReceiveStream {
  import opened Protocol
  import FrameSorter

  type Callback = FrameSorter.Callback

  /** How a Read or Peek ends. Blocked stands for waiting until another frame arrives. */
  datatype ReadError = NoError | Eof | Reset | Shutdown | Blocked

  datatype FrameError = Ok | FlowControlError | FinalSizeError | TooManyGaps | Panic

  /** The frame that is being read: its data, the callback that releases it, how much of it was read, and whether the
      stream ends with it. */
  datatype Current = Current(frame: Option<seq<Byte>>, done: Option<Callback>, pos: int, isLast: bool) {
    predicate Exhausted() {
      frame.None? || pos >= |frame.value|
    }

    /** The callback, as long as it was not run. */
    ghost function Pending(): multiset<Callback> {
      if frame.None? && isLast then multiset{} else FrameSorter.One(done)
    }
  }

  /** The receiving part of the stream's flow controller. */
  datatype Flow = Flow(highestReceived: int, receivedFinalOffset: bool, window: int)

  /** The current frame lies right before the read position of the sorter, and the application is inside of it. */
  ghost predicate Cursor(readPos: int, cur: Current, finalOffset: int, sorterPos: int) {
    && 0 <= readPos
    && (cur.frame.None? ==> readPos == sorterPos)
    && (cur.frame.Some? ==> 0 <= cur.pos <= |cur.frame.value| && readPos + (|cur.frame.value| - cur.pos) == sorterPos)
    && (cur.frame.None? && !cur.isLast ==> cur.done.None?)
    && (cur.isLast ==> sorterPos == finalOffset)
  }

  /** What flow control and the sorter guarantee: nothing behind the window, the final offset or the largest offset of
      the sorter was received. */
  ghost predicate Sizes(flow: Flow, finalOffset: int, received: set<int>, sorterPos: int) {
    && 0 <= flow.highestReceived <= flow.window
    && finalOffset == (if flow.receivedFinalOffset then flow.highestReceived else MAX_BYTE_COUNT)
    && (forall x :: x in received ==> x < flow.highestReceived && x < MAX_BYTE_COUNT - 1)
    && sorterPos <= flow.highestReceived && sorterPos < MAX_BYTE_COUNT
  }

  /** The reliable size is the smallest one that the peer announced. */
  ghost predicate Resets(remote: bool, local: bool, reliableSize: int, announced: set<int>) {
    && 0 <= reliableSize
    && (!remote && !local ==> announced == {} && reliableSize == 0)
    && (remote ==> reliableSize in announced && forall a :: a in announced ==> reliableSize <= a)
  }

  lemma AfterDequeue(readPos: int, cur: Current, finalOffset: int, sorterPos: int, flow: Flow, received: set<int>,
                     data: seq<Byte>, cb: Option<Callback>, remote: bool)
    requires Cursor(readPos, cur, finalOffset, sorterPos) && Sizes(flow, finalOffset, received, sorterPos)
    requires cur.Exhausted() && !(cur.frame.None? && cur.isLast)
    requires forall x :: sorterPos <= x < sorterPos + |data| ==> x in received
    requires data == [] ==> cb.None?
    ensures var next := Current(if data == [] then None else Some(data), cb, 0, sorterPos + |data| >= finalOffset
              && !remote);
            && readPos == sorterPos && cur.Pending() == FrameSorter.One(cur.done)
            && Cursor(readPos, next, finalOffset, sorterPos + |data|)
            && Sizes(flow, finalOffset, received, sorterPos + |data|)
            && next.Pending() == FrameSorter.One(cb)
  {
    assert data != [] ==> sorterPos + |data| - 1 in received;
  }

  /** A frame is exhausted where the frame sorter goes on; the last one ends at the final offset. */
  lemma FrameEnds(readPos: int, cur: Current, finalOffset: int, sorterPos: int, flow: Flow, received: set<int>)
    requires Cursor(readPos, cur, finalOffset, sorterPos) && Sizes(flow, finalOffset, received, sorterPos)
    ensures cur.Exhausted() <==> readPos == sorterPos
    ensures readPos <= sorterPos <= finalOffset && (cur.isLast ==> sorterPos == finalOffset)
    ensures finalOffset !in received
  {
  }

  /** The stream ends only where its final offset is. */
  lemma AtEnd(readPos: int, cur: Current, finalOffset: int, sorterPos: int, flow: Flow, received: set<int>)
    requires Cursor(readPos, cur, finalOffset, sorterPos) && Sizes(flow, finalOffset, received, sorterPos)
    requires cur.isLast && cur.Exhausted()
    ensures readPos == finalOffset && flow.receivedFinalOffset && readPos !in received
    ensures Cursor(readPos, cur.(frame := None), finalOffset, sorterPos)
  {
  }

  lemma PastEnd(readPos: int, cur: Current, finalOffset: int, sorterPos: int, flow: Flow, received: set<int>)
    requires Cursor(readPos, cur, finalOffset, sorterPos) && Sizes(flow, finalOffset, received, sorterPos)
    requires cur.Exhausted() && (cur.isLast || readPos >= finalOffset)
    ensures readPos == finalOffset && flow.receivedFinalOffset && readPos !in received
  {
  }

  /** A final size that is the largest offset is taken for an unknown one. */
  lemma FinalOffsetKnown(flow: Flow, finalOffset: int, received: set<int>, sorterPos: int)
    requires Sizes(flow, finalOffset, received, sorterPos)
    ensures flow.highestReceived <= flow.window && forall x :: x in received ==> x < MAX_BYTE_COUNT - 1
    ensures finalOffset == MAX_BYTE_COUNT <==> !flow.receivedFinalOffset || flow.highestReceived == MAX_BYTE_COUNT
  {
  }

  /** A size that does not agree with the final size, or a final size below what was received. */
  predicate Contradicts(flow: Flow, offset: int, isFinal: bool) {
    (flow.receivedFinalOffset && flow.highestReceived < offset) || (isFinal && offset < flow.highestReceived)
  }

  /** An offset that agrees with the final size, but is behind the stream's or the connection's window. */
  predicate Exceeds(flow: Flow, offset: int, isFinal: bool, connectionBlocked: bool) {
    && !Contradicts(flow, offset, isFinal) && flow.highestReceived < offset
    && (flow.window < offset || connectionBlocked)
  }

  /** What an accepted offset does to the sizes. */
  ghost predicate Accepted(flow: Flow, flow': Flow, offset: int, isFinal: bool) {
    && flow'.window == flow.window
    && flow'.highestReceived == Max(flow.highestReceived, offset) <= flow.window
    && flow'.receivedFinalOffset == (flow.receivedFinalOffset || isFinal)
    && (isFinal ==> offset == flow'.highestReceived)
    && (flow.receivedFinalOffset ==> flow'.highestReceived == flow.highestReceived)
  }

  lemma AfterAccept(readPos: int, cur: Current, finalOffset: int, sorterPos: int, flow: Flow, received: set<int>,
                    flow': Flow, offset: int, isFinal: bool, received': set<int>)
    requires Cursor(readPos, cur, finalOffset, sorterPos) && Sizes(flow, finalOffset, received, sorterPos)
    requires Accepted(flow, flow', offset, isFinal)
    requires forall x :: x in received' ==> x in received || (x < offset && x < MAX_BYTE_COUNT - 1)
    ensures var finalOffset' := if isFinal then offset else finalOffset;
            && Cursor(readPos, cur, finalOffset', sorterPos)
            && Sizes(flow', finalOffset', received', sorterPos)
  {
  }

  /** Reading `m` bytes of the current frame moves the cursor. */
  lemma AfterCopy(readPos: int, cur: Current, finalOffset: int, sorterPos: int, m: int, stream: seq<Byte>,
                  p: seq<Byte>, from: int)
    requires Cursor(readPos, cur, finalOffset, sorterPos) && cur.frame.Some? && 0 <= m <= |cur.frame.value| - cur.pos
    requires from + |p| == readPos
    ensures Cursor(readPos + m, cur.(pos := cur.pos + m), finalOffset, sorterPos)
    ensures cur.(pos := cur.pos + m).Pending() == cur.Pending()
    ensures IsPiece(stream, cur.frame.value, readPos - cur.pos) && (p != [] ==> IsPiece(stream, p, from)) && 0 < m ==>
              IsPiece(stream, p + cur.frame.value[cur.pos..cur.pos + m], from)
  {
    hide IsPiece;
    if IsPiece(stream, cur.frame.value, readPos - cur.pos) && (p != [] ==> IsPiece(stream, p, from)) {
      var q := cur.frame.value[cur.pos..cur.pos + m];
      PieceOfPiece(stream, cur.frame.value, readPos - cur.pos, cur.pos, cur.pos + m);
      if p == [] {
        assert p + q == q;
      } else {
        PieceConcat(stream, p, q, from);
      }
    }
  }

  /** The rest of the current frame, or its first bytes, and what follows. */
  lemma PeekedBytes(stream: seq<Byte>, frame: seq<Byte>, pos: int, m: int, rest: seq<Byte>, readPos: int)
    requires 0 <= pos && 0 < m <= |frame| - pos && IsPiece(stream, frame, readPos - pos)
    requires rest != [] ==> m == |frame| - pos && IsPiece(stream, rest, readPos + m)
    ensures IsPiece(stream, frame[pos..pos + m] + rest, readPos)
  {
    hide IsPiece;
    PieceOfPiece(stream, frame, readPos - pos, pos, pos + m);
    if rest == [] {
      assert frame[pos..pos + m] + rest == frame[pos..pos + m];
    } else {
      PieceConcat(stream, frame[pos..pos + m], rest, readPos);
    }
  }

  class ReceiveStream {
    const frameQueue: FrameSorter.Sorter
    var finalOffset: int
    var current: Current
    var readPos: int
    var reliableSize: int
    var flow: Flow

    var queuedStopSending: bool
    var errorRead: bool
    var completed: bool
    var cancelledRemotely: bool
    var cancelledLocally: bool
    var closedForShutdown: bool

    // how often the stream ran each callback it got from the frame sorter
    var ran: multiset<Callback>

    // the callback of the frame in whose buffer the bytes that are being read lie
    ghost var buffer: Option<Callback>

    // the reliable sizes of the resets that were received
    ghost var announced: set<int>

    ghost predicate Valid()
      reads this, frameQueue
    {
      && frameQueue.Valid()
      && Cursor(readPos, current, finalOffset, frameQueue.readPos)
      && Sizes(flow, finalOffset, frameQueue.received, frameQueue.readPos)
      && Resets(cancelledRemotely, cancelledLocally, reliableSize, announced)
      && frameQueue.handedOut == ran + current.Pending()
      && (current.frame.Some? && buffer.Some? ==> current.done == buffer)
    }

    /** The buffer of the frame that is being read is not given back. */
    lemma BufferInUse()
      requires Valid() && current.frame.Some? && buffer.Some?
      ensures frameQueue.ran[buffer.value] == ran[buffer.value] == 0
    {
      CallbackAtMostOnce(buffer.value);
    }

    /** No callback is run twice, neither by the sorter nor by the stream. */
    lemma CallbackAtMostOnce(c: Callback)
      requires Valid()
      ensures frameQueue.ran[c] + ran[c] + current.Pending()[c] <= 1
    {
      assert frameQueue.handedOut[c] == ran[c] + current.Pending()[c];
    }

    /** Every queued byte and every byte of the current frame is the one that `stream` has at that offset. */
    ghost predicate Carries(stream: seq<Byte>)
      reads this, frameQueue
    {
      && FrameSorter.HoldsBytesOf(frameQueue.queue, stream)
      && (current.frame.Some? ==> IsPiece(stream, current.frame.value, readPos - current.pos))
    }

    /** Pieces of a stream are pieces of every longer stream. */
    lemma CarriesLonger(stream: seq<Byte>, more: seq<Byte>)
      requires Carries(stream)
      ensures Carries(stream + more)
    {
      forall k | k in frameQueue.queue ensures IsPiece(stream + more, frameQueue.queue[k].data, k) {
        PieceOfLonger(stream, more, frameQueue.queue[k].data, k);
      }
      if current.frame.Some? {
        PieceOfLonger(stream, more, current.frame.value, readPos - current.pos);
      }
    }

    constructor (window: int)
      requires 0 <= window
      ensures Valid() && fresh(frameQueue)
      ensures forall stream :: Carries(stream)
      ensures readPos == 0 && !completed && !cancelledLocally && !cancelledRemotely && !closedForShutdown
      ensures !errorRead && !queuedStopSending && current == Current(None, None, 0, false)
                && finalOffset == MAX_BYTE_COUNT
      ensures flow == Flow(0, false, window) && frameQueue.received == {} && frameQueue.passed == {}
    {
      frameQueue := new FrameSorter.Sorter();
      finalOffset := MAX_BYTE_COUNT;
      current := Current(None, None, 0, false);
      queuedStopSending, errorRead, completed := false, false, false;
      cancelledRemotely, cancelledLocally, closedForShutdown := false, false, false;
      readPos, reliableSize := 0, 0;
      flow := Flow(0, false, window);
      ran, announced, buffer := multiset{}, {}, None;
    }

    /** The end of the stream was read. */
    predicate AtLast()
      reads this`current
    {
      current.frame.None? && current.isLast
    }

    predicate IsRemoteCancellationEffective()
      reads this
    {
      cancelledRemotely && readPos >= reliableSize
    }

    /** The application is in front of the end, and will find it with the last byte: the last frame is known to be the
        last one, or was not taken yet. */
    predicate SeesEnd()
      reads this, frameQueue
    {
      && flow.receivedFinalOffset && readPos < finalOffset
      && (current.isLast || (frameQueue.readPos < finalOffset && !cancelledRemotely))
      && !cancelledLocally && !IsRemoteCancellationEffective() && !closedForShutdown
    }

    /** Completion is reported at most once, when the final size is known and nothing is left to read. */
    method IsNewlyCompleted() returns (r: bool)
      modifies this`completed
      ensures old(Valid()) ==> Valid()
      ensures r <==> !old(completed) && finalOffset != MAX_BYTE_COUNT && (cancelledLocally || errorRead)
      ensures completed <==> old(completed) || r
    {
      if completed {
        return false;
      }
      if finalOffset == MAX_BYTE_COUNT {
        return false;
      }
      if cancelledLocally {
        completed := true;
        return true;
      }
      if errorRead {
        completed := true;
        return true;
      }
      return false;
    }

    method RunDone()
      modifies this`ran
      ensures ran == old(ran) + FrameSorter.One(current.done)
    {
      if current.done.Some? {
        ran := ran + multiset{current.done.value};
      }
    }

    /** Releases the current frame, which was read to its end, and takes the next one. */
    method DequeueNextFrame(ghost stream: seq<Byte>)
      requires Valid() && current.Exhausted() && !(current.frame.None? && current.isLast)
      modifies this`current, this`buffer, this`ran, frameQueue
      ensures Valid() && frameQueue.received == old(frameQueue.received) && frameQueue.passed == old(frameQueue.passed)
      ensures current.pos == 0 && (current.frame.Some? ==> current.frame.value != [])
      ensures current.frame.None? <==> readPos !in frameQueue.received
      ensures old(Carries(stream)) ==> Carries(stream)
      ensures current.isLast <==> finalOffset <= frameQueue.readPos && !cancelledRemotely
      ensures current.frame.None? ==> current.done.None? && frameQueue.readPos == readPos
      ensures ran == old(ran) + FrameSorter.One(old(current.done))
      ensures current.frame.Some? ==>
                  readPos in old(frameQueue.queue)
                  && FrameSorter.Entry(current.frame.value, current.done, buffer) == old(frameQueue.queue)[readPos]
    {
      hide FrameSorter.Sorter.Valid, FrameSorter.HoldsBytesOf, IsPiece, Resets, Sizes, Cursor, FrameSorter.One;
      ghost var cur := current;
      RunDone();
      var offset, data, cb, panicked, popped := frameQueue.Pop(stream);
      AfterDequeue(readPos, cur, finalOffset, offset, flow, frameQueue.received, data, cb, cancelledRemotely);
      var isLast := offset + |data| >= finalOffset && !cancelledRemotely;
      SetCurrent(Current(if data == [] then None else Some(data), cb, 0, isLast), popped);
    }

    method SetCurrent(next: Current, ghost b: Option<Callback>)
      modifies this`current, this`buffer
      ensures current == next && buffer == b
    {
      current, buffer := next, b;
    }

    /** Copies bytes of the current frame. */
    method CopyFromCurrent(p: seq<Byte>, want: nat, ghost from: int, ghost stream: seq<Byte>) returns (q: seq<Byte>)
      requires Valid() && current.frame.Some? && |p| < want && from + |p| == readPos
      modifies this`current, this`readPos
      ensures Valid()
      ensures |p| <= |q| <= want && readPos == from + |q| && (|q| == want || current.Exhausted())
                && (old(current.Exhausted()) || |p| < |q|)
      ensures current == old(current).(pos := current.pos)
      ensures old(Carries(stream)) && (p != [] ==> IsPiece(stream, p, from)) ==>
                Carries(stream) && (q != [] ==> IsPiece(stream, q, from))
    {
      hide FrameSorter.Sorter.Valid, FrameSorter.HoldsBytesOf, IsPiece, Resets, Sizes, FrameSorter.One;
      var m := Min(want - |p|, |current.frame.value| - current.pos);
      AfterCopy(readPos, current, finalOffset, frameQueue.readPos, m, stream, p, from);
      q := p + current.frame.value[current.pos..current.pos + m];
      assert m == 0 ==> q == p;
      current := current.(pos := current.pos + m);
      readPos := readPos + m;
    }

    /** Finishes the last frame of the stream. */
    method FinishLastFrame(ghost stream: seq<Byte>)
      requires Valid() && current.Exhausted() && current.isLast && (current.frame.None? ==> current.done.None?)
      modifies this`current, this`ran, this`errorRead
      ensures Valid() && readPos == finalOffset && flow.receivedFinalOffset && errorRead && AtLast()
      ensures old(Carries(stream)) ==> Carries(stream)
    {
      hide FrameSorter.Sorter.Valid, FrameSorter.HoldsBytesOf, IsPiece, Resets, Sizes, Cursor;
      AtEnd(readPos, current, finalOffset, frameQueue.readPos, flow, frameQueue.received);
      assert current.frame.None? ==> FrameSorter.One(current.done) == current.Pending();
      RunDone();
      current := current.(frame := None);
      errorRead := true;
    }

    /** One round of the read loop: takes the next frame if necessary, then fails, blocks or copies. */
    method ReadStep(p: seq<Byte>, want: nat, woken: bool, ghost from: int, ghost stream: seq<Byte>)
      returns (q: seq<Byte>, err: ReadError, stop: bool)
      requires Valid() && |p| < want && from + |p| == readPos
      requires !(current.frame.None? && current.isLast) && (woken ==> current.frame.None?)
      modifies this`current, this`buffer, this`ran, this`readPos, this`errorRead, frameQueue
      ensures Valid() && frameQueue.received == old(frameQueue.received) && frameQueue.passed == old(frameQueue.passed)
      ensures readPos == from + |q| && |p| <= |q| <= want
      ensures old(Carries(stream)) && (p != [] ==> IsPiece(stream, p, from)) ==>
                Carries(stream) && (q != [] ==> IsPiece(stream, q, from))
      ensures !stop ==> |p| < |q| && err == NoError && !(current.isLast && current.Exhausted())
      ensures if old(current.Exhausted())
              then current.isLast <==> finalOffset <= frameQueue.readPos && !cancelledRemotely
              else current.isLast == old(current.isLast) && frameQueue.readPos == old(frameQueue.readPos)
      ensures stop && err != Eof ==> q == p
      ensures stop && err == NoError ==> old(current.Exhausted())
      ensures stop && err == NoError ==> q != [] && |q| < want && readPos !in frameQueue.received
      ensures p == [] && !old(closedForShutdown) && (cancelledLocally || old(IsRemoteCancellationEffective())) ==>
                q == [] && err == Reset && stop
      ensures p == [] && closedForShutdown ==> q == [] && err == Shutdown && stop
      ensures err == Eof ==> flow.receivedFinalOffset && readPos == finalOffset
      ensures err == Reset ==> cancelledLocally || (cancelledRemotely && reliableSize <= readPos)
      ensures err == Shutdown ==> closedForShutdown
      ensures err == Blocked ==> q == [] && readPos !in frameQueue.received && current.frame.None? && !current.isLast
      ensures err == Blocked ==> readPos != finalOffset || cancelledRemotely
      ensures err == Blocked ==> !cancelledLocally && !IsRemoteCancellationEffective() && !closedForShutdown
      ensures errorRead <==> old(errorRead) || err == Eof || err == Reset
    {
      hide FrameSorter.Sorter.Valid, FrameSorter.HoldsBytesOf, IsPiece, Resets, Sizes, Cursor, FrameSorter.One;
      q := p;
      if woken || current.Exhausted() {
        DequeueNextFrame(stream);
      }
      if current.frame.None? && |q| > 0 {
        return q, if closedForShutdown then Shutdown else NoError, true;
      }
      if closedForShutdown {
        return q, Shutdown, true;
      }
      if cancelledLocally || IsRemoteCancellationEffective() {
        errorRead := true;
        return q, Reset, true;
      }
      if !(current.frame.Some? || current.isLast) {
        return q, Blocked, true;
      }
      q, stop := ReadCurrent(q, want, from, stream);
      err := if stop then Eof else NoError;
    }

    /** Copies bytes of the current frame, and finishes it if it was the last one. */
    method ReadCurrent(p: seq<Byte>, want: nat, ghost from: int, ghost stream: seq<Byte>)
      returns (q: seq<Byte>, last: bool)
      requires Valid() && |p| < want && from + |p| == readPos && (current.frame.Some? || current.isLast)
      requires !current.Exhausted() || (current.frame.None? && current.done.None?)
      modifies this`current, this`ran, this`readPos, this`errorRead
      ensures Valid() && readPos == from + |q| && |p| <= |q| <= want
      ensures old(Carries(stream)) && (p != [] ==> IsPiece(stream, p, from)) ==>
                Carries(stream) && (q != [] ==> IsPiece(stream, q, from))
      ensures !last ==> |p| < |q| && !(current.isLast && current.Exhausted())
      ensures current.isLast == old(current.isLast)
      ensures last ==> flow.receivedFinalOffset && readPos == finalOffset
      ensures errorRead <==> old(errorRead) || last
    {
      hide FrameSorter.Sorter.Valid, FrameSorter.HoldsBytesOf, IsPiece, Resets, Sizes, Cursor, FrameSorter.One;
      q := p;
      if current.frame.Some? {
        q := CopyFromCurrent(q, want, from, stream);
      }
      last := current.Exhausted() && current.isLast;
      if last {
        FinishLastFrame(stream);
      }
    }

    /** Reads up to `want` bytes; `resumed` continues a call that was blocked. */
    method ReadImpl(want: nat, resumed: bool, ghost stream: seq<Byte>) returns (p: seq<Byte>, err: ReadError)
      requires Valid()
      requires resumed ==> 0 < want && current.frame.None? && !current.isLast
      modifies this`current, this`buffer, this`ran, this`readPos, this`errorRead, frameQueue
      ensures Valid() && frameQueue.received == old(frameQueue.received) && frameQueue.passed == old(frameQueue.passed)
      ensures readPos == old(readPos) + |p| && |p| <= want
      ensures old(Carries(stream)) ==> Carries(stream) && (p != [] ==> IsPiece(stream, p, old(readPos)))
      ensures err == NoError && |p| < want ==> p != [] && readPos !in frameQueue.received
      ensures err == Eof ==> flow.receivedFinalOffset && readPos == finalOffset
      ensures err == Reset ==> cancelledLocally || (cancelledRemotely && reliableSize <= readPos)
      ensures err == Shutdown ==> closedForShutdown
      ensures err == Blocked ==> p == [] && readPos !in frameQueue.received && current.frame.None? && !current.isLast
      ensures err == Blocked ==> readPos != finalOffset || cancelledRemotely
      ensures err == Blocked ==> !cancelledLocally && !IsRemoteCancellationEffective() && !closedForShutdown
      ensures err == NoError && |p| == want ==> !IsRemoteCancellationEffective()
      ensures old(SeesEnd()) && readPos == finalOffset ==> err == Eof
      ensures !old(AtLast()) && (cancelledLocally || old(IsRemoteCancellationEffective()))
                && !(resumed && closedForShutdown) ==>
                p == [] && err == Reset
      ensures !old(AtLast()) && closedForShutdown && !cancelledLocally && !old(IsRemoteCancellationEffective()) ==>
                p == [] && err == Shutdown
      ensures resumed && closedForShutdown ==> p == [] && err == Shutdown
      ensures errorRead <==> old(errorRead) || err == Eof || err == Reset
    {
      hide FrameSorter.Sorter.Valid, FrameSorter.HoldsBytesOf, IsPiece, Resets, Sizes, Cursor, FrameSorter.One;
      p := [];
      if !resumed {
        if current.isLast && current.frame.None? {
          AtEnd(readPos, current, finalOffset, frameQueue.readPos, flow, frameQueue.received);
          errorRead := true;
          return p, Eof;
        }
        if cancelledLocally || IsRemoteCancellationEffective() {
          errorRead := true;
          return p, Reset;
        }
        if closedForShutdown {
          return p, Shutdown;
        }
      }
      var woken := resumed;
      while |p| < want
        invariant Valid() && frameQueue.received == old(frameQueue.received)
                  && frameQueue.passed == old(frameQueue.passed)
        invariant readPos == old(readPos) + |p| && |p| <= want
        invariant old(Carries(stream)) ==> Carries(stream) && (p != [] ==> IsPiece(stream, p, old(readPos)))
        invariant !(current.frame.None? && current.isLast)
        invariant woken ==> current.frame.None?
        invariant errorRead == old(errorRead)
        invariant p != [] ==> !(current.isLast && current.Exhausted())
        invariant old(SeesEnd()) && (frameQueue.readPos == finalOffset || cancelledRemotely) ==> current.isLast
        invariant !resumed || p != [] ==>
                    !cancelledLocally && !old(IsRemoteCancellationEffective()) && !closedForShutdown
        decreases want - |p|
      {
        FrameEnds(readPos, current, finalOffset, frameQueue.readPos, flow, frameQueue.received);
        var stop;
        p, err, stop := ReadStep(p, want, woken, old(readPos), stream);
        if stop {
          return;
        }
        woken := false;
      }
      FrameEnds(readPos, current, finalOffset, frameQueue.readPos, flow, frameQueue.received);
      if IsRemoteCancellationEffective() {
        errorRead := true;
        return p, Reset;
      }
      err := NoError;
    }

    /** Reads, and reports the completion of the stream. A stream that was cancelled, or whose reset is effective,
        gives no more bytes and never blocks. */
    method Read(want: nat, resumed: bool, ghost stream: seq<Byte>)
        returns (p: seq<Byte>, err: ReadError, newlyCompleted: bool)
      requires Valid()
      requires resumed ==> 0 < want && current.frame.None? && !current.isLast
      modifies this`current, this`buffer, this`ran, this`readPos, this`errorRead, this`completed, frameQueue
      ensures Valid() && frameQueue.received == old(frameQueue.received) && frameQueue.passed == old(frameQueue.passed)
      ensures readPos == old(readPos) + |p| && |p| <= want
      ensures old(Carries(stream)) ==> Carries(stream) && (p != [] ==> IsPiece(stream, p, old(readPos)))
      ensures err == NoError && |p| < want ==> p != [] && readPos !in frameQueue.received
      ensures err == Eof ==> flow.receivedFinalOffset && readPos == finalOffset
      ensures err == Reset ==> cancelledLocally || (cancelledRemotely && reliableSize <= readPos)
      ensures err == Shutdown ==> closedForShutdown
      ensures err == Blocked ==> p == [] && readPos !in frameQueue.received && current.frame.None? && !current.isLast
      ensures err == Blocked ==> readPos != finalOffset || cancelledRemotely
      ensures err == Blocked ==> !cancelledLocally && !IsRemoteCancellationEffective() && !closedForShutdown
      ensures err == NoError && |p| == want ==> !IsRemoteCancellationEffective()
      ensures old(SeesEnd()) && readPos == finalOffset ==> err == Eof
      ensures !old(AtLast()) && (cancelledLocally || old(IsRemoteCancellationEffective()))
                && !(resumed && closedForShutdown) ==>
                p == [] && err == Reset
      ensures !old(AtLast()) && closedForShutdown && !cancelledLocally && !old(IsRemoteCancellationEffective()) ==>
                p == [] && err == Shutdown
      ensures resumed && closedForShutdown ==> p == [] && err == Shutdown
      ensures newlyCompleted <==>
                  !old(completed) && flow.receivedFinalOffset && flow.highestReceived != MAX_BYTE_COUNT
                  && (cancelledLocally || errorRead)
      ensures completed <==> old(completed) || newlyCompleted
      ensures errorRead <==> old(errorRead) || err == Eof || err == Reset
      ensures readPos <= finalOffset
    {
      hide FrameSorter.Sorter.Valid, FrameSorter.HoldsBytesOf, IsPiece, Resets, Sizes, Cursor, FrameSorter.One;
      p, err := ReadImpl(want, resumed, stream);
      FrameEnds(readPos, current, finalOffset, frameQueue.readPos, flow, frameQueue.received);
      FinalOffsetKnown(flow, finalOffset, frameQueue.received, frameQueue.readPos);
      newlyCompleted := IsNewlyCompleted();
    }

    /** The next n bytes were received. */
    ghost predicate HasNext(n: int)
      reads this, frameQueue
    {
      forall x :: readPos <= x < readPos + n ==> x in frameQueue.received
    }

    /** A byte is missing among the next n, below the final offset and, after a reset, below the reliable size. */
    ghost predicate Misses(n: int)
      reads this, frameQueue
    {
      MissesBelow(Min(readPos + n, finalOffset)) && (cancelledRemotely ==> MissesBelow(Min(readPos + n, reliableSize)))
    }

    ghost predicate MissesBelow(limit: int)
      reads this, frameQueue
    {
      exists x :: readPos <= x < limit && x !in frameQueue.received
    }

    /** Returns `n` bytes without consuming them, or fewer together with the reason why the stream does not go on. */
    method Peek(n: nat, resumed: bool, ghost stream: seq<Byte>) returns (p: seq<Byte>, err: ReadError)
      requires Valid() && (resumed ==> 0 < n && !current.isLast)
      modifies this`current, this`buffer, this`ran, frameQueue
      ensures Valid() && frameQueue.received == old(frameQueue.received) && frameQueue.passed == old(frameQueue.passed)
      ensures old(Carries(stream)) ==> Carries(stream) && (p != [] ==> IsPiece(stream, p, readPos))
      ensures err == NoError ==> |p| == n && HasNext(n)
      ensures HasNext(n) && !cancelledLocally && !IsRemoteCancellationEffective() && !closedForShutdown ==>
                err == NoError
      ensures n == 0 ==> err == NoError && unchanged(this) && unchanged(frameQueue)
      ensures err == Eof ==> flow.receivedFinalOffset && readPos + |p| == finalOffset
      ensures err == Reset ==> cancelledLocally || (cancelledRemotely && reliableSize <= readPos + |p|)
      ensures err == Shutdown ==> closedForShutdown
      ensures err == Blocked ==> p == [] && !current.isLast && Misses(n)
      ensures err == Blocked ==> !cancelledLocally && !IsRemoteCancellationEffective() && !closedForShutdown
      ensures 0 < n && !resumed && !old(AtLast()) && (cancelledLocally || IsRemoteCancellationEffective()) ==>
                p == [] && err == Reset
      ensures resumed && IsRemoteCancellationEffective() ==> p == [] && err == Reset
      ensures resumed && old(current.Exhausted()) && readPos == finalOffset && !cancelledRemotely ==>
                p == [] && err == Eof
      ensures 0 < n && !resumed && !old(AtLast()) && closedForShutdown && !cancelledLocally
                && !IsRemoteCancellationEffective() ==>
                p == [] && err == Shutdown
    {
      hide FrameSorter.Sorter.Valid, FrameSorter.HoldsBytesOf, IsPiece, ReceiveStream.Valid;
      if n == 0 {
        return [], NoError;
      }
      p, err := PeekImpl(n, resumed, stream);
    }

    method PeekImpl(n: nat, resumed: bool, ghost stream: seq<Byte>) returns (p: seq<Byte>, err: ReadError)
      requires Valid() && 0 < n && (resumed ==> !current.isLast)
      modifies this`current, this`buffer, this`ran, frameQueue
      ensures Valid() && frameQueue.received == old(frameQueue.received) && frameQueue.passed == old(frameQueue.passed)
      ensures old(Carries(stream)) ==> Carries(stream) && (p != [] ==> IsPiece(stream, p, readPos))
      ensures err == NoError ==> |p| == n && HasNext(n)
      ensures HasNext(n) && !cancelledLocally && !IsRemoteCancellationEffective() && !closedForShutdown ==>
                err == NoError
      ensures err == Eof ==> flow.receivedFinalOffset && readPos + |p| == finalOffset
      ensures err == Reset ==> cancelledLocally || (cancelledRemotely && reliableSize <= readPos + |p|)
      ensures err == Shutdown ==> closedForShutdown
      ensures err == Blocked ==> p == [] && !current.isLast && Misses(n)
      ensures err == Blocked ==> !cancelledLocally && !IsRemoteCancellationEffective() && !closedForShutdown
      ensures !resumed && !old(AtLast()) && (cancelledLocally || IsRemoteCancellationEffective()) ==>
                p == [] && err == Reset
      ensures resumed && IsRemoteCancellationEffective() ==> p == [] && err == Reset
      ensures resumed && old(current.Exhausted()) && readPos == finalOffset && !cancelledRemotely ==>
                p == [] && err == Eof
      ensures !resumed && !old(AtLast()) && closedForShutdown && !cancelledLocally
                && !IsRemoteCancellationEffective() ==>
                p == [] && err == Shutdown
    {
      hide FrameSorter.Sorter.Valid, FrameSorter.HoldsBytesOf, IsPiece, Resets, Sizes, Cursor, FrameSorter.One;
      if resumed && current.Exhausted() {
        DequeueNextFrame(stream);
        FrameEnds(readPos, current, finalOffset, frameQueue.readPos, flow, frameQueue.received);
      }
      p, err := PeekOnce(n, stream);
    }

    /** Looks at the current frame, or the next one. */
    method PeekOnce(n: nat, ghost stream: seq<Byte>) returns (p: seq<Byte>, err: ReadError)
      requires Valid() && 0 < n
      modifies this`current, this`buffer, this`ran, frameQueue
      ensures Valid() && frameQueue.received == old(frameQueue.received) && frameQueue.passed == old(frameQueue.passed)
      ensures old(Carries(stream)) ==> Carries(stream) && (p != [] ==> IsPiece(stream, p, readPos))
      ensures err == NoError ==> |p| == n && HasNext(n)
      ensures HasNext(n) && !cancelledLocally && !IsRemoteCancellationEffective() && !closedForShutdown ==>
                err == NoError
      ensures err == Eof ==> flow.receivedFinalOffset && readPos + |p| == finalOffset
      ensures err == Reset ==> cancelledLocally || (cancelledRemotely && reliableSize <= readPos + |p|)
      ensures err == Shutdown ==> closedForShutdown
      ensures err == Blocked ==> p == [] && !current.isLast && Misses(n)
      ensures err == Blocked ==> !cancelledLocally && !IsRemoteCancellationEffective() && !closedForShutdown
      ensures old(AtLast()) ==> p == [] && err == Eof
      ensures !old(AtLast()) && (cancelledLocally || IsRemoteCancellationEffective()) ==>
                p == [] && err == Reset
      ensures !old(AtLast()) && closedForShutdown && !cancelledLocally
                && !IsRemoteCancellationEffective() ==>
                p == [] && err == Shutdown
    {
      hide FrameSorter.Sorter.Valid, FrameSorter.HoldsBytesOf, IsPiece, Resets, Sizes, Cursor, FrameSorter.One;
      if current.isLast && current.frame.None? {
        AtEnd(readPos, current, finalOffset, frameQueue.readPos, flow, frameQueue.received);
        return [], Eof;
      }
      if cancelledLocally || IsRemoteCancellationEffective() {
        return [], Reset;
      }
      if closedForShutdown {
        return [], Shutdown;
      }
      if current.Exhausted() {
        DequeueNextFrame(stream);
      }
      if !current.Exhausted() {
        p, err := PeekFrom(n, stream);
        return;
      }
      if current.isLast || readPos >= finalOffset {
        PastEnd(readPos, current, finalOffset, frameQueue.readPos, flow, frameQueue.received);
        return [], Eof;
      }
      return [], Blocked;
    }

    /** The first `n` bytes of the current frame and the queued frames behind it. */
    method PeekAhead(n: nat, ghost stream: seq<Byte>) returns (p: Option<seq<Byte>>)
      requires Valid() && !current.Exhausted()
      ensures p.Some? <==> HasNext(n)
      ensures p.Some? ==> |p.value| == n && (Carries(stream) && 0 < n ==> IsPiece(stream, p.value, readPos))
    {
      hide IsPiece;
      var available := |current.frame.value| - current.pos;
      var m := Min(available, n);
      var head := current.frame.value[current.pos..current.pos + m];
      var rest := frameQueue.Peek(readPos + available, n - m, stream);
      p := if rest.None? then None else Some(head + rest.value);
      if rest.Some? && Carries(stream) && 0 < n {
        PeekedBytes(stream, current.frame.value, current.pos, m, rest.value, readPos);
      }
    }

    method PeekFrom(n: nat, ghost stream: seq<Byte>) returns (p: seq<Byte>, err: ReadError)
      requires Valid() && 0 < n && !current.Exhausted() && !IsRemoteCancellationEffective()
      ensures Carries(stream) ==> (p != [] ==> IsPiece(stream, p, readPos))
      ensures err == NoError ==> |p| == n
      ensures err == NoError <==> HasNext(n)
      ensures err == Eof ==> flow.receivedFinalOffset && readPos + |p| == finalOffset
      ensures err == Reset ==> cancelledRemotely && reliableSize <= readPos + |p|
      ensures err == Blocked ==> p == [] && !current.isLast && Misses(n)
      ensures err != Shutdown
    {
      hide FrameSorter.Sorter.Valid, FrameSorter.HoldsBytesOf, IsPiece, FrameSorter.One;
      var r := PeekAhead(n, stream);
      if r.Some? {
        return r.value, NoError;
      }
      if current.isLast {
        if Carries(stream) {
          PieceOfPiece(stream, current.frame.value, readPos - current.pos, current.pos, |current.frame.value|);
        }
        return current.frame.value[current.pos..|current.frame.value|], Eof;
      }
      if cancelledRemotely && readPos + n > reliableSize {
        r := PeekAhead(reliableSize - readPos, stream);
        if r.Some? {
          return r.value, Reset;
        }
      }
      if readPos + n > finalOffset {
        r := PeekAhead(finalOffset - readPos, stream);
        if r.Some? {
          assert finalOffset - 1 in frameQueue.received;
          return r.value, Eof;
        }
      }
      return [], Blocked;
    }

    /** Aborts reading; only a cancellation before the end of the stream and before a reset asks the peer to stop. */
    method CancelRead() returns (queuedNewControlFrame: bool, newlyCompleted: bool)
      requires Valid()
      modifies this`cancelledLocally, this`queuedStopSending, this`completed
      ensures Valid()
      ensures cancelledLocally <==> old(cancelledLocally) || !closedForShutdown
      ensures queuedNewControlFrame <==>
                  !old(cancelledLocally) && !closedForShutdown && !errorRead && !cancelledRemotely
      ensures queuedStopSending <==> old(queuedStopSending) || queuedNewControlFrame
      ensures newlyCompleted <==>
                  !old(completed) && flow.receivedFinalOffset && flow.highestReceived != MAX_BYTE_COUNT
                  && (cancelledLocally || errorRead)
      ensures completed <==> old(completed) || newlyCompleted
    {
      hide FrameSorter.Sorter.Valid, Cursor, Sizes, FrameSorter.One;
      queuedNewControlFrame := false;
      if !cancelledLocally && !closedForShutdown {
        cancelledLocally := true;
        if !errorRead && !cancelledRemotely {
          queuedStopSending := true;
          queuedNewControlFrame := true;
        }
      }
      FinalOffsetKnown(flow, finalOffset, frameQueue.received, frameQueue.readPos);
      newlyCompleted := IsNewlyCompleted();
    }

    /** The flow controller's check of a new highest offset; `connectionBlocked` is the verdict of the connection. */
    method UpdateHighestReceived(offset: int, isFinal: bool, connectionBlocked: bool) returns (err: FrameError)
      modifies this`flow
      ensures (err == Ok || err == FinalSizeError || err == FlowControlError) && flow.window == old(flow.window)
      ensures err == FinalSizeError <==> Contradicts(old(flow), offset, isFinal)
      ensures err == FlowControlError <==> Exceeds(old(flow), offset, isFinal, connectionBlocked)
      ensures err == Ok && old(flow).highestReceived <= old(flow).window ==> Accepted(old(flow), flow, offset, isFinal)
    {
      if flow.receivedFinalOffset {
        if isFinal && offset != flow.highestReceived {
          return FinalSizeError;
        }
        if offset > flow.highestReceived {
          return FinalSizeError;
        }
      }
      if isFinal {
        flow := flow.(receivedFinalOffset := true);
      }
      if offset == flow.highestReceived {
        return Ok;
      }
      if offset < flow.highestReceived {
        return if isFinal then FinalSizeError else Ok;
      }
      flow := flow.(highestReceived := offset);
      if flow.highestReceived > flow.window {
        return FlowControlError;
      }
      return if connectionBlocked then FlowControlError else Ok;
    }

    /** A STREAM frame. It is refused exactly if its end does not agree with the final size, or is behind a window, or
        the frame makes too many gaps; if the window allows for it, a frame that ends at the largest offset panics.
        Without a local cancellation the bytes of an accepted frame, and nothing else, become available. */
    method HandleStreamFrame(data: seq<Byte>, offset: int, fin: bool, done: Callback, connectionBlocked: bool,
                             ghost stream: seq<Byte>)
      returns (err: FrameError, newlyCompleted: bool)
      requires Valid() && 0 <= offset && done !in frameQueue.passed
      modifies this`flow, this`finalOffset, this`completed, frameQueue
      ensures err == FinalSizeError <==> Contradicts(old(flow), offset + |data|, fin)
      ensures err == FlowControlError <==> Exceeds(old(flow), offset + |data|, fin, connectionBlocked)
      ensures err == Panic <==>
                  && !Contradicts(old(flow), offset + |data|, fin)
                  && !Exceeds(old(flow), offset + |data|, fin, connectionBlocked)
                  && !cancelledLocally && data != [] && MAX_BYTE_COUNT <= offset + |data|
      ensures err == FinalSizeError || err == FlowControlError ==>
                finalOffset == old(finalOffset) && unchanged(frameQueue)
      ensures err == TooManyGaps <==>
                  && err != FinalSizeError && err != FlowControlError && err != Panic
                  && FrameSorter.MAX_GAPS < |frameQueue.gaps|
      ensures |frameQueue.gaps| <= |old(frameQueue.gaps)| + 1 && flow.window == old(flow.window)
      ensures cancelledLocally || Span(offset, offset + |data|) <= old(frameQueue.received) ==>
                err != TooManyGaps && err != Panic && frameQueue.gaps == old(frameQueue.gaps)
      ensures err == Ok ==>
                Accepted(old(flow), flow, offset + |data|, fin) && (!fin ==> finalOffset == old(finalOffset))
      ensures err == Ok ==> frameQueue.passed <= old(frameQueue.passed) + {done}
      ensures err == Ok ==> Valid() && (fin ==> flow.receivedFinalOffset && finalOffset == offset + |data|)
      ensures err == Ok ==>
                frameQueue.received == old(frameQueue.received) + if cancelledLocally then {}
                    else Span(offset, offset + |data|)
      ensures err == Ok && old(Carries(stream)) && IsPiece(stream, data, offset) ==> Carries(stream)
      ensures err != Panic ==> (newlyCompleted <==>
                  !old(completed) && finalOffset != MAX_BYTE_COUNT && (cancelledLocally || errorRead))
      ensures completed <==> old(completed) || newlyCompleted
    {
      hide FrameSorter.Sorter.Valid, FrameSorter.HoldsBytesOf, IsPiece, FrameSorter.One, Cursor, Resets, Sizes;
      frameQueue.GapLimit();
      err := AcceptFrame(data, offset, fin, done, connectionBlocked, stream);
      if err == Panic {
        return err, false;
      }
      newlyCompleted := IsNewlyCompleted();
    }

    /** Checks the end of the frame and hands it to the sorter. */
    method AcceptFrame(data: seq<Byte>, offset: int, fin: bool, done: Callback, connectionBlocked: bool,
                       ghost stream: seq<Byte>)
      returns (err: FrameError)
      requires Valid() && 0 <= offset && done !in frameQueue.passed
      modifies this`flow, this`finalOffset, frameQueue
      ensures err == FinalSizeError <==> Contradicts(old(flow), offset + |data|, fin)
      ensures err == FlowControlError <==> Exceeds(old(flow), offset + |data|, fin, connectionBlocked)
      ensures err == Panic <==>
                  && !Contradicts(old(flow), offset + |data|, fin)
                  && !Exceeds(old(flow), offset + |data|, fin, connectionBlocked)
                  && !cancelledLocally && data != [] && MAX_BYTE_COUNT <= offset + |data|
      ensures err == FinalSizeError || err == FlowControlError ==>
                finalOffset == old(finalOffset) && unchanged(frameQueue)
      ensures err == TooManyGaps <==>
                  && err != FinalSizeError && err != FlowControlError && err != Panic
                  && FrameSorter.MAX_GAPS < |frameQueue.gaps|
      ensures |frameQueue.gaps| <= |old(frameQueue.gaps)| + 1 && flow.window == old(flow.window)
      ensures cancelledLocally || Span(offset, offset + |data|) <= old(frameQueue.received) ==>
                err != TooManyGaps && err != Panic && frameQueue.gaps == old(frameQueue.gaps)
      ensures err == Ok ==>
                Accepted(old(flow), flow, offset + |data|, fin) && (!fin ==> finalOffset == old(finalOffset))
      ensures err == Ok ==> frameQueue.passed <= old(frameQueue.passed) + {done}
      ensures err == Ok ==> Valid() && (fin ==> flow.receivedFinalOffset && finalOffset == offset + |data|)
      ensures err == Ok ==>
                frameQueue.received == old(frameQueue.received) + if cancelledLocally then {}
                    else Span(offset, offset + |data|)
      ensures err == Ok && old(Carries(stream)) && IsPiece(stream, data, offset) ==> Carries(stream)
    {
      hide FrameSorter.Sorter.Valid, FrameSorter.HoldsBytesOf, IsPiece, FrameSorter.One, Cursor, Resets, Sizes;
      ghost var f, o := flow, finalOffset;
      FinalOffsetKnown(flow, finalOffset, frameQueue.received, frameQueue.readPos);
      frameQueue.GapLimit();
      var maxOffset := offset + |data|;
      err := UpdateHighestReceived(maxOffset, fin, connectionBlocked);
      if err != Ok {
        return;
      }
      if fin {
        finalOffset := maxOffset;
      }
      if !cancelledLocally {
        err := QueueFrame(data, offset, done, stream);
        if err != Ok {
          return;
        }
      }
      AfterAccept(readPos, current, o, frameQueue.readPos, f, old(frameQueue.received), flow, maxOffset, fin,
                  frameQueue.received);
    }

    /** Hands a frame to the sorter. */
    method QueueFrame(data: seq<Byte>, offset: int, done: Callback, ghost stream: seq<Byte>) returns (err: FrameError)
      requires frameQueue.Valid() && 0 <= offset && done !in frameQueue.passed
      requires forall x :: x in frameQueue.received ==> x < MAX_BYTE_COUNT - 1
      modifies frameQueue
      ensures frameQueue.readPos == old(frameQueue.readPos) && frameQueue.handedOut == old(frameQueue.handedOut)
      ensures err == Ok || err == TooManyGaps || err == Panic
      ensures err == Panic <==> data != [] && MAX_BYTE_COUNT <= offset + |data|
      ensures err == TooManyGaps <==> err != Panic && FrameSorter.MAX_GAPS < |frameQueue.gaps|
      ensures |frameQueue.gaps| <= |old(frameQueue.gaps)| + 1
      ensures Span(offset, offset + |data|) <= old(frameQueue.received) ==>
                err == Ok && frameQueue.gaps == old(frameQueue.gaps)
      ensures err == Ok ==>
                && frameQueue.Valid() && frameQueue.passed == old(frameQueue.passed) + {done}
                && frameQueue.received == old(frameQueue.received) + Span(offset, offset + |data|)
      ensures err == Ok && FrameSorter.HoldsBytesOf(old(frameQueue.queue), stream) && IsPiece(stream, data, offset) ==>
                FrameSorter.HoldsBytesOf(frameQueue.queue, stream)
    {
      hide FrameSorter.Sorter.Valid, FrameSorter.HoldsBytesOf, IsPiece;
      frameQueue.GapLimit();
      var r := frameQueue.Push(data, offset, Some(done), stream);
      assert data != [] ==> offset + |data| - 1 in Span(offset, offset + |data|);
      err := if r == FrameSorter.Panic then Panic else if r == FrameSorter.TooManyGaps then TooManyGaps else Ok;
    }

    /** A RESET_STREAM or RESET_STREAM_AT frame; the smallest reliable size counts. It is refused exactly if the final
        size does not agree with an earlier one or is behind a window. */
    method HandleResetStreamFrame(finalSize: int, frameReliableSize: int, connectionBlocked: bool)
      returns (err: FrameError, newlyCompleted: bool)
      requires Valid() && 0 <= finalSize && 0 <= frameReliableSize
      modifies this`flow, this`finalOffset, this`reliableSize, this`cancelledRemotely, this`announced, this`completed
      ensures err != TooManyGaps && err != Panic
      ensures err == FinalSizeError <==> !closedForShutdown && Contradicts(old(flow), finalSize, true)
      ensures err == FlowControlError <==> !closedForShutdown && Exceeds(old(flow), finalSize, true, connectionBlocked)
      ensures err != Ok ==> unchanged(`finalOffset) && unchanged(`reliableSize) && unchanged(`cancelledRemotely)
      ensures err == Ok ==> Valid()
      ensures err == Ok && !closedForShutdown ==> Accepted(old(flow), flow, finalSize, true) && finalOffset == finalSize
      ensures err == Ok && !closedForShutdown && !cancelledLocally ==>
                cancelledRemotely && announced == old(announced) + {frameReliableSize}
      ensures newlyCompleted <==> !old(completed) && finalOffset != MAX_BYTE_COUNT && (cancelledLocally || errorRead)
      ensures completed <==> old(completed) || newlyCompleted
    {
      hide FrameSorter.Sorter.Valid, FrameSorter.One, Cursor, Sizes, Resets;
      ghost var f, o := flow, finalOffset;
      FinalOffsetKnown(flow, finalOffset, frameQueue.received, frameQueue.readPos);
      err := Ok;
      if !closedForShutdown {
        err := UpdateHighestReceived(finalSize, true, connectionBlocked);
      }
      if !closedForShutdown && err == Ok {
        AfterAccept(readPos, current, o, frameQueue.readPos, f, frameQueue.received, flow, finalSize, true,
                    frameQueue.received);
        CancelRemotely(finalSize, frameReliableSize);
      }
      newlyCompleted := IsNewlyCompleted();
    }

    method CancelRemotely(finalSize: int, frameReliableSize: int)
      requires Resets(cancelledRemotely, cancelledLocally, reliableSize, announced) && 0 <= frameReliableSize
      modifies this`finalOffset, this`reliableSize, this`cancelledRemotely, this`announced
      ensures Resets(cancelledRemotely, cancelledLocally, reliableSize, announced) && finalOffset == finalSize
      ensures !cancelledLocally ==> cancelledRemotely && announced == old(announced) + {frameReliableSize}
    {
      finalOffset := finalSize;
      if (!cancelledRemotely && reliableSize == 0) || frameReliableSize < reliableSize {
        reliableSize := frameReliableSize;
      }
      if cancelledRemotely || !cancelledLocally {
        announced := announced + {frameReliableSize};
      }
      if !cancelledRemotely && !cancelledLocally {
        cancelledRemotely := true;
      }
    }

    /** The window grows when the application has read, as long as the final size is not known; by how much, the
        auto-tuning decides. */
    method GetWindowUpdate(window: int) returns (offset: int)
      requires Valid() && flow.window <= window
      modifies this`flow
      ensures Valid() && offset == (if flow.receivedFinalOffset then 0 else window)
      ensures flow == if old(flow).receivedFinalOffset then old(flow) else old(flow).(window := window)
    {
      if flow.receivedFinalOffset {
        return 0;
      }
      flow := flow.(window := window);
      return window;
    }

    method CloseForShutdown()
      requires Valid()
      modifies this`closedForShutdown
      ensures Valid() && closedForShutdown
    {
      closedForShutdown := true;
    }
  }
}
