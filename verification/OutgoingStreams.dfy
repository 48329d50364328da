// Opening streams: a limit set by the peer, and calls that wait for it in a queue. A waiting call is a sequence of
// steps, and the steps of different calls may come in any order.
module OutgoingStreams {
  import opened Protocol

  const INVALID_STREAM_ID := -1

  /** Where a waiting call is: asleep, woken but without the lock, cancelled but without the lock, or finished. */
  datatype Progress = Parked | Woken | Cancelling | Served(stream: int) | Cancelled | Failed

  /** A waiting call and its channel, which holds at most one wakeup and may be closed. */
  datatype Waiter = Waiter(progress: Progress, wakeup: bool, chanClosed: bool) {
    predicate Waiting() { progress == Parked || progress == Woken || progress == Cancelling }
  }

  datatype OpenResult = Opened(stream: int) | LimitReached | MapClosed

  datatype SyncResult = Immediately(stream: int) | ContextDone | SyncClosed | Waits(waiter: int)

  /** The queue holds waiting calls, in the order of their arrival. */
  ghost predicate Queued(queue: seq<int>, waiters: map<int, Waiter>) {
    && (forall i, j :: 0 <= i < j < |queue| ==> queue[i] < queue[j])
    && (forall w :: w in queue ==> w in waiters && waiters[w].Waiting() && !waiters[w].chanClosed)
  }

  /** No waiting call is forgotten: it is in the queue, or its channel is closed. */
  ghost predicate Remembered(queue: seq<int>, waiters: map<int, Waiter>, closed: bool, arrivals: int) {
    forall w :: w in waiters ==>
      w < arrivals && (waiters[w].Waiting() ==> if closed then waiters[w].chanClosed else w in queue)
  }

  /** Only the first call of the queue has a wakeup, pending or taken, and only if it can open a stream. */
  ghost predicate HeadOnly(queue: seq<int>, waiters: map<int, Waiter>, credit: bool) {
    forall w :: w in queue && w in waiters && (waiters[w].wakeup || waiters[w].progress == Woken) ==>
        w == queue[0] && credit
  }

  /** No wakeup is lost. */
  ghost predicate HeadAwake(queue: seq<int>, waiters: map<int, Waiter>, credit: bool) {
    queue != [] && credit ==> queue[0] in waiters && (waiters[queue[0]].wakeup || waiters[queue[0]].progress == Woken)
  }

  /** Calls are served in the order of their arrival: an earlier call has a smaller stream ID, and is not still
      waiting. */
  ghost predicate Fair(queue: seq<int>, waiters: map<int, Waiter>, nextStream: int) {
    && (forall v :: v in waiters && waiters[v].progress.Served? ==> waiters[v].progress.stream < nextStream)
    && (forall v, w :: v in waiters && w in queue && waiters[v].progress.Served? ==> v < w)
    && (forall v, w ::
          v in waiters && w in waiters && v < w && waiters[v].progress.Served? && waiters[w].progress.Served? ==>
          waiters[v].progress.stream < waiters[w].progress.stream)
  }

  class OutgoingStreams {
    const first: int
    var streams: set<int>
    var openQueue: seq<int>
    var nextStream: int
    var maxStream: int
    var blockedSent: bool
    var closed: bool

    /** The OpenStreamSync calls, numbered in the order of their arrival. */
    var waiters: map<int, Waiter>
    var arrivals: int

    /** All streams that were opened, and the limits for which STREAMS_BLOCKED was sent. */
    ghost var issued: seq<int>
    ghost var blockedLimits: seq<int>

    predicate Credit()
      reads this`nextStream, this`maxStream
    {
      nextStream <= maxStream
    }

    ghost predicate Valid()
      reads this
    {
      && 0 <= first < 4
      && OpenedInOrder(issued, first, nextStream, maxStream)
      && (forall s :: s in streams ==> s in issued)
      && Queued(openQueue, waiters)
      && Remembered(openQueue, waiters, closed, arrivals)
      && HeadOnly(openQueue, waiters, Credit())
      && HeadAwake(openQueue, waiters, Credit())
      && Fair(openQueue, waiters, nextStream)
      && (closed ==> openQueue == [])
      && BlockedOnce(blockedLimits, maxStream, blockedSent)
      && (openQueue != [] && maxStream < nextStream - 4 + 4 * |openQueue| ==> blockedSent)
    }

    constructor (first: int)
      requires 0 <= first < 4
      ensures Valid() && !closed && issued == [] && openQueue == [] && nextStream == first
    {
      this.first := first;
      streams, openQueue, nextStream, maxStream, blockedSent, closed := {}, [], first, INVALID_STREAM_ID, false, false;
      waiters, arrivals, issued, blockedLimits := map[], 0, [], [];
    }

    /** Opens a stream without waiting. It does not overtake waiting calls. */
    method OpenStream() returns (r: OpenResult)
      requires Valid()
      modifies this`streams, this`nextStream, this`issued, this`blockedSent, this`blockedLimits
      ensures Valid()
      ensures r == MapClosed <==> closed
      ensures r.Opened? <==> !closed && openQueue == [] && old(Credit())
      ensures r.Opened? ==>
                  r.stream == old(nextStream) <= maxStream && issued == old(issued) + [r.stream]
                  && streams == old(streams) + {r.stream}
      ensures !r.Opened? ==> issued == old(issued) && streams == old(streams)
      ensures blockedSent == (old(blockedSent) || r == LimitReached)
      ensures blockedLimits == old(blockedLimits) + if r == LimitReached && !old(blockedSent) then [maxStream] else []
    {
      hide Queued, Remembered, HeadOnly, HeadAwake, Fair;
      if closed {
        return MapClosed;
      }
      if |openQueue| > 0 || nextStream > maxStream {
        MaybeSendBlockedFrame();
        return LimitReached;
      }
      NobodyWaits(openQueue, waiters, nextStream, nextStream + 4 <= maxStream);
      var s := Open();
      return Opened(s);
    }

    /** Uses up one stream ID. The queue must be empty, or the caller is served. */
    method Open() returns (s: int)
      requires OpenedInOrder(issued, first, nextStream, maxStream) && Credit() && forall t :: t in streams ==>
                 t in issued
      modifies this`streams, this`nextStream, this`issued
      ensures OpenedInOrder(issued, first, nextStream, maxStream) && forall t :: t in streams ==> t in issued
      ensures s == old(nextStream) <= maxStream && nextStream == s + 4
      ensures issued == old(issued) + [s] && streams == old(streams) + {s}
    {
      s := nextStream;
      streams := streams + {s};
      nextStream := nextStream + 4;
      issued := issued + [s];
    }

    method MaybeSendBlockedFrame()
      requires BlockedOnce(blockedLimits, maxStream, blockedSent)
      modifies this`blockedSent, this`blockedLimits
      ensures BlockedOnce(blockedLimits, maxStream, blockedSent) && blockedSent
      ensures blockedLimits == if old(blockedSent) then old(blockedLimits) else old(blockedLimits) + [maxStream]
    {
      if blockedSent {
        return;
      }
      BlockedNow(blockedLimits, maxStream);
      blockedLimits := blockedLimits + [maxStream];
      blockedSent := true;
    }

    /** The first part of OpenStreamSync: opens a stream at once if nobody waits, or joins the queue. */
    method BeginOpenSync(contextDone: bool) returns (r: SyncResult)
      requires Valid()
      modifies this`streams, this`nextStream, this`issued, this`blockedSent, this`blockedLimits, this`openQueue,
                 this`waiters, this`arrivals
      ensures Valid()
      ensures r == SyncClosed <==> closed
      ensures r == ContextDone <==> !closed && contextDone
      ensures r.Immediately? <==> !closed && !contextDone && old(openQueue) == [] && old(Credit())
      ensures r.Immediately? ==>
                  r.stream == old(nextStream) <= maxStream && issued == old(issued) + [r.stream]
                  && streams == old(streams) + {r.stream}
      ensures !r.Immediately? ==> issued == old(issued) && streams == old(streams) && nextStream == old(nextStream)
      ensures blockedSent == (old(blockedSent) || r.Waits?)
      ensures blockedLimits == old(blockedLimits) + if r.Waits? && !old(blockedSent) then [maxStream] else []
      ensures r.Waits? ==>
                  openQueue == old(openQueue) + [r.waiter] && issued == old(issued) && r.waiter == old(arrivals)
      ensures !r.Waits? ==> openQueue == old(openQueue)
    {
      hide Queued, Remembered, HeadOnly, HeadAwake, Fair, OpenedInOrder, BlockedOnce;
      if closed {
        return SyncClosed;
      }
      if contextDone {
        return ContextDone;
      }
      if |openQueue| == 0 && nextStream <= maxStream {
        NobodyWaits(openQueue, waiters[arrivals := Waiter(Served(nextStream), false, false)], nextStream + 4,
                    nextStream + 4 <= maxStream);
        Recorded(openQueue, waiters, arrivals, nextStream, maxStream);
        var s := Open();
        waiters := waiters[arrivals := Waiter(Served(s), false, false)];
        arrivals := arrivals + 1;
        return Immediately(s);
      }
      var w := arrivals;
      Joined(openQueue, waiters, arrivals, Credit(), nextStream);
      waiters := waiters[w := Waiter(Parked, false, false)];
      openQueue := openQueue + [w];
      arrivals := arrivals + 1;
      MaybeSendBlockedFrame();
      return Waits(w);
    }

    /** A sleeping call takes the wakeup, or notices that its channel was closed. */
    method Wake(w: int)
      requires Valid() && w in waiters && waiters[w].progress == Parked && (waiters[w].wakeup || waiters[w].chanClosed)
      modifies this`waiters
      ensures Valid() && waiters == old(waiters)[w := Waiter(Woken, false, old(waiters)[w].chanClosed)]
    {
      waiters := waiters[w := Waiter(Woken, false, waiters[w].chanClosed)];
    }

    /** A sleeping call notices that its context was cancelled. */
    method NoticeCancel(w: int)
      requires Valid() && w in waiters && waiters[w].progress == Parked
      modifies this`waiters
      ensures Valid() && waiters == old(waiters)[w := old(waiters)[w].(progress := Cancelling)]
    {
      waiters := waiters[w := waiters[w].(progress := Cancelling)];
    }

    /** A cancelled call leaves the queue. If it was its turn, the next one is woken. */
    method FinishCancel(w: int)
      requires Valid() && w in waiters && waiters[w].progress == Cancelling
      modifies this`openQueue, this`waiters
      ensures Valid() && w !in openQueue && waiters.Keys == old(waiters).Keys && waiters[w].progress == Cancelled
      ensures openQueue == Without(old(openQueue), w) && (w in old(openQueue) ==> |openQueue| < |old(openQueue)|)
      ensures forall v :: v in waiters && v != w ==> waiters[v].progress == old(waiters)[v].progress
    {
      hide Queued, Remembered, HeadOnly, HeadAwake, Fair, OpenedInOrder, BlockedOnce, Without;
      Left(openQueue, waiters, w, closed, arrivals, Credit(), nextStream, Cancelled);
      openQueue := Without(openQueue, w);
      waiters := waiters[w := waiters[w].(progress := Cancelled)];
      MaybeUnblockOpenSync();
    }

    /** Wakes the first call of the queue if it can open a stream. The channel is never closed. */
    method MaybeUnblockOpenSync()
      requires Queued(openQueue, waiters) && Remembered(openQueue, waiters, closed, arrivals)
      requires HeadOnly(openQueue, waiters, Credit()) && Fair(openQueue, waiters, nextStream)
      modifies this`waiters
      ensures Queued(openQueue, waiters) && Remembered(openQueue, waiters, closed, arrivals)
      ensures HeadOnly(openQueue, waiters, Credit()) && Fair(openQueue, waiters, nextStream)
      ensures HeadAwake(openQueue, waiters, Credit())
      ensures waiters.Keys == old(waiters).Keys && forall w :: w in waiters ==>
                  waiters[w].progress == old(waiters)[w].progress
    {
      if |openQueue| == 0 {
        return;
      }
      if nextStream > maxStream {
        return;
      }
      var head := openQueue[0];
      assert !waiters[head].chanClosed;
      if !waiters[head].wakeup {
        waiters := waiters[head := waiters[head].(wakeup := true)];
      }
    }

    /** A woken call gets the lock. It fails if the map was closed; otherwise it is the first of the queue and there
        is a stream for it, so that it never has to go back to sleep. */
    method Resume(w: int)
      requires Valid() && w in waiters && waiters[w].progress == Woken
      modifies this`streams, this`nextStream, this`issued, this`openQueue, this`waiters
      ensures Valid() && w in waiters
      ensures closed ==>
                  waiters[w].progress == Failed && issued == old(issued) && streams == old(streams)
                  && openQueue == old(openQueue)
      ensures waiters.Keys == old(waiters).Keys
                && forall v :: v in waiters && v != w ==> waiters[v].progress == old(waiters)[v].progress
      ensures !closed ==>
                && old(openQueue) != [] && w == old(openQueue)[0] && openQueue == old(openQueue)[1..]
                && waiters[w].progress == Served(old(nextStream)) && old(nextStream) <= maxStream
                    && issued == old(issued) + [old(nextStream)] && streams == old(streams) + {old(nextStream)}
    {
      hide Fair, OpenedInOrder, BlockedOnce;
      if closed {
        Left(openQueue, waiters, w, closed, arrivals, Credit(), nextStream, Failed);
        waiters := waiters[w := waiters[w].(progress := Failed)];
        return;
      }
      Serve(w);
    }

    /** The woken caller at the head of the queue gets the next stream, and wakes its successor. */
    method Serve(w: int)
      requires Valid() && w in waiters && waiters[w].progress == Woken && !closed
      modifies this`streams, this`nextStream, this`issued, this`openQueue, this`waiters
      ensures Valid() && waiters.Keys == old(waiters).Keys
                && forall v :: v in waiters && v != w ==> waiters[v].progress == old(waiters)[v].progress
      ensures && old(openQueue) != [] && w == old(openQueue)[0] && openQueue == old(openQueue)[1..]
              && waiters[w].progress == Served(old(nextStream)) && old(nextStream) <= maxStream
              && issued == old(issued) + [old(nextStream)] && streams == old(streams) + {old(nextStream)}
    {
      hide Fair, OpenedInOrder, BlockedOnce;
      assert w in openQueue;
      if nextStream > maxStream {
        assert false;
      }
      Serving(openQueue, waiters, closed, arrivals, nextStream, maxStream, nextStream + 4 <= maxStream);
      var s := Open();
      waiters := waiters[w := waiters[w].(progress := Served(s))];
      openQueue := openQueue[1..];
      MaybeUnblockOpenSync();
    }

    /** As long as there is credit, the waiting calls can go on by themselves, in their order, until nobody waits or
        the credit is used up. */
    method ServeWaiting()
      requires Valid() && !closed
      modifies this`streams, this`nextStream, this`issued, this`openQueue, this`waiters
      ensures Valid() && (openQueue == [] || !Credit())
    {
      hide Queued, Remembered, HeadOnly, Fair, OpenedInOrder, BlockedOnce, Without;
      while |openQueue| > 0 && nextStream <= maxStream
        invariant Valid()
        decreases |openQueue|
      {
        var head := openQueue[0];
        HeadWaits(openQueue, waiters);
        if waiters[head].progress == Cancelling {
          FinishCancel(head);
        } else {
          if waiters[head].progress == Parked {
            Wake(head);
          }
          Resume(head);
        }
      }
    }

    /** The peer raises the limit; it never falls. */
    method SetMaxStream(id: int)
      requires Valid()
      modifies this`maxStream, this`blockedSent, this`blockedLimits, this`waiters
      ensures Valid() && maxStream == Max(old(maxStream), id)
      ensures id <= old(maxStream) ==> unchanged(this)
      ensures old(maxStream) < id ==>
                && (blockedSent <==> id < nextStream - 4 + 4 * |openQueue|)
                && blockedLimits == old(blockedLimits) + if blockedSent then [id] else []
      ensures waiters.Keys == old(waiters).Keys
                && forall w :: w in waiters ==> waiters[w].progress == old(waiters)[w].progress
    {
      hide Queued, Remembered, Fair, BlockedOnce;
      if id <= maxStream {
        return;
      }
      RaisedLimit(blockedLimits, maxStream, blockedSent, id);
      maxStream := id;
      blockedSent := false;
      if maxStream < nextStream - 4 + 4 * |openQueue| {
        MaybeSendBlockedFrame();
      }
      MaybeUnblockOpenSync();
    }

    method DeleteStream(id: int) returns (ok: bool)
      requires Valid()
      modifies this`streams
      ensures Valid() && (ok <==> id in old(streams)) && streams == old(streams) - {id}
    {
      if id !in streams {
        return false;
      }
      streams := streams - {id};
      return true;
    }

    /** Closes the channels of all waiting calls. */
    method CloseWithError()
      requires Valid()
      modifies this`closed, this`openQueue, this`waiters
      ensures Valid() && closed && openQueue == []
      ensures waiters.Keys == old(waiters).Keys && forall w :: w in waiters ==>
                  waiters[w].progress == old(waiters)[w].progress
    {
      hide HeadAwake, HeadOnly, Fair, OpenedInOrder, BlockedOnce;
      closed := true;
      ghost var before := waiters;
      waiters := CloseChannels(openQueue, waiters);
      NobodyWaits([], waiters, nextStream, Credit());
      FairWithoutQueue(openQueue, before, nextStream, waiters);
      openQueue := [];
    }
  }

  method CloseChannels(queue: seq<int>, waiters: map<int, Waiter>) returns (ws: map<int, Waiter>)
    requires forall w :: w in queue ==> w in waiters
    ensures ws.Keys == waiters.Keys
    ensures forall w :: w in ws ==> ws[w] == waiters[w].(chanClosed := waiters[w].chanClosed || w in queue)
  {
    ws := waiters;
    for i := 0 to |queue|
      invariant ws.Keys == waiters.Keys
      invariant forall w :: w in ws ==> ws[w] == waiters[w].(chanClosed := waiters[w].chanClosed || w in queue[..i])
    {
      var c := queue[i];
      assert queue[..i + 1] == queue[..i] + [c];
      ws := ws[c := ws[c].(chanClosed := true)];
    }
    assert queue[..|queue|] == queue;
  }

  lemma FairWithoutQueue(queue: seq<int>, waiters: map<int, Waiter>, nextStream: int, ws: map<int, Waiter>)
    requires Fair(queue, waiters, nextStream) && ws.Keys == waiters.Keys
    requires forall w :: w in ws ==> ws[w].progress == waiters[w].progress
    ensures Fair([], ws, nextStream)
  {
  }

  function Without(queue: seq<int>, w: int): seq<int> {
    if queue == [] then []
    else if queue[0] == w then Without(queue[1..], w)
    else [queue[0]] + Without(queue[1..], w)
  }

  /** The stream IDs are first, first + 4, ..., and none is above the limit. */
  ghost predicate OpenedInOrder(issued: seq<int>, first: int, nextStream: int, maxStream: int) {
    && nextStream == first + 4 * |issued|
    && (forall i :: 0 <= i < |issued| ==> issued[i] == first + 4 * i <= maxStream)
  }

  /** STREAMS_BLOCKED is sent at most once for a limit. */
  ghost predicate BlockedOnce(limits: seq<int>, maxStream: int, blockedSent: bool) {
    && (forall i, j :: 0 <= i < j < |limits| ==> limits[i] < limits[j])
    && (forall i :: 0 <= i < |limits| ==> limits[i] <= maxStream)
    && (blockedSent <==> maxStream in limits)
  }

  lemma {:induction false} WithoutMembers(queue: seq<int>, w: int)
    ensures forall v :: v in Without(queue, w) <==> v in queue && v != w
    ensures if w in queue then |Without(queue, w)| < |queue| else Without(queue, w) == queue
  {
    if queue != [] {
      WithoutMembers(queue[1..], w);
      assert queue == [queue[0]] + queue[1..];
    }
  }

  lemma {:induction false} WithoutOrdered(queue: seq<int>, w: int)
    requires forall i, j :: 0 <= i < j < |queue| ==> queue[i] < queue[j]
    ensures forall i, j :: 0 <= i < j < |Without(queue, w)| ==> Without(queue, w)[i] < Without(queue, w)[j]
    ensures queue != [] && queue[0] != w ==> Without(queue, w) != [] && Without(queue, w)[0] == queue[0]
  {
    if queue != [] {
      WithoutOrdered(queue[1..], w);
      WithoutMembers(queue[1..], w);
      var rest := Without(queue[1..], w);
      forall i | 0 <= i < |rest| ensures queue[0] < rest[i] {
        assert rest[i] in rest;
        assert rest[i] in queue[1..];
      }
    }
  }

  lemma BlockedNow(limits: seq<int>, maxStream: int)
    requires BlockedOnce(limits, maxStream, false)
    ensures BlockedOnce(limits + [maxStream], maxStream, true)
  {
    assert maxStream in limits + [maxStream];
    forall i | 0 <= i < |limits| ensures limits[i] < maxStream {
      assert limits[i] in limits;
    }
  }

  lemma RaisedLimit(limits: seq<int>, maxStream: int, blockedSent: bool, id: int)
    requires BlockedOnce(limits, maxStream, blockedSent) && maxStream < id
    ensures BlockedOnce(limits, id, false)
  {
  }

  lemma NobodyWaits(queue: seq<int>, waiters: map<int, Waiter>, nextStream: int, credit: bool)
    requires queue == []
    ensures Queued(queue, waiters) && HeadOnly(queue, waiters, credit) && HeadAwake(queue, waiters, credit)
    ensures Fair(queue, waiters, nextStream) ==> Fair(queue, waiters, nextStream + 4)
  {
  }

  /** A call that does not have to wait. */
  lemma Recorded(queue: seq<int>, waiters: map<int, Waiter>, arrivals: int, nextStream: int, maxStream: int)
    requires queue == [] && Remembered(queue, waiters, false, arrivals) && Fair(queue, waiters, nextStream)
    ensures var ws := waiters[arrivals := Waiter(Served(nextStream), false, false)];
            Remembered(queue, ws, false, arrivals + 1) && Fair(queue, ws, nextStream + 4)
  {
  }

  /** A call that has to wait. */
  lemma Joined(queue: seq<int>, waiters: map<int, Waiter>, arrivals: int, credit: bool, nextStream: int)
    requires Queued(queue, waiters) && Remembered(queue, waiters, false, arrivals) && HeadOnly(queue, waiters, credit)
    requires HeadAwake(queue, waiters, credit) && Fair(queue, waiters, nextStream) && (queue == [] ==> !credit)
    ensures var ws := waiters[arrivals := Waiter(Parked, false, false)];
            var q := queue + [arrivals];
            && Queued(q, ws) && Remembered(q, ws, false, arrivals + 1) && HeadOnly(q, ws, credit)
                && HeadAwake(q, ws, credit)
            && Fair(q, ws, nextStream)
  {
    assert forall w :: w in queue ==> w in waiters && w < arrivals;
    assert forall i :: 0 <= i < |queue| ==> queue[i] in queue;
  }

  /** A call that gives up. */
  lemma Left(queue: seq<int>, waiters: map<int, Waiter>, w: int, closed: bool, arrivals: int, credit: bool,
             nextStream: int, p: Progress)
    requires Queued(queue, waiters) && Remembered(queue, waiters, closed, arrivals) && HeadOnly(queue, waiters, credit)
    requires Fair(queue, waiters, nextStream) && w in waiters && !waiters[w].progress.Served?
               && (p == Cancelled || p == Failed)
    ensures var ws := waiters[w := waiters[w].(progress := p)];
            var q := Without(queue, w);
            && Queued(q, ws) && Remembered(q, ws, closed, arrivals) && HeadOnly(q, ws, credit)
                && Fair(q, ws, nextStream)
    ensures w !in Without(queue, w) && |Without(queue, w)| <= |queue| && (w in queue ==> |Without(queue, w)| < |queue|)
  {
    WithoutMembers(queue, w);
    WithoutOrdered(queue, w);
  }

  lemma HeadWaits(queue: seq<int>, waiters: map<int, Waiter>)
    requires Queued(queue, waiters) && queue != []
    ensures queue[0] in waiters && waiters[queue[0]].Waiting()
  {
    assert queue[0] in queue;
  }

  /** The first call of the queue is served. */
  lemma Serving(queue: seq<int>, waiters: map<int, Waiter>, closed: bool, arrivals: int, nextStream: int,
                maxStream: int, credit: bool)
    requires queue != [] && queue[0] in waiters && Queued(queue, waiters)
               && Remembered(queue, waiters, closed, arrivals)
    requires HeadOnly(queue, waiters, nextStream <= maxStream) && Fair(queue, waiters, nextStream)
    ensures var ws := waiters[queue[0] := waiters[queue[0]].(progress := Served(nextStream))];
            var q := queue[1..];
            && Queued(q, ws) && Remembered(q, ws, closed, arrivals) && HeadOnly(q, ws, credit)
                && Fair(q, ws, nextStream + 4)
  {
    hide Queued, Remembered, HeadOnly, Fair;
    ServedQueued(queue, waiters, nextStream);
    ServedRemembered(queue, waiters, closed, arrivals, nextStream);
    ServedHeadOnly(queue, waiters, nextStream <= maxStream, credit, nextStream);
    ServedFair(queue, waiters, nextStream);
  }

  /** The first call is served. */
  ghost function ServeFirst(queue: seq<int>, waiters: map<int, Waiter>, stream: int): map<int, Waiter>
    requires queue != [] && queue[0] in waiters
  {
    waiters[queue[0] := waiters[queue[0]].(progress := Served(stream))]
  }

  lemma ServedQueued(queue: seq<int>, waiters: map<int, Waiter>, stream: int)
    requires queue != [] && queue[0] in waiters && Queued(queue, waiters)
    ensures Queued(queue[1..], ServeFirst(queue, waiters, stream))
  {
    assert forall v :: v in queue[1..] ==> v in queue && queue[0] < v;
  }

  lemma ServedRemembered(queue: seq<int>, waiters: map<int, Waiter>, closed: bool, arrivals: int, stream: int)
    requires queue != [] && queue[0] in waiters && Remembered(queue, waiters, closed, arrivals)
    ensures Remembered(queue[1..], ServeFirst(queue, waiters, stream), closed, arrivals)
  {
    assert queue == [queue[0]] + queue[1..];
  }

  lemma ServedHeadOnly(queue: seq<int>, waiters: map<int, Waiter>, before: bool, credit: bool, stream: int)
    requires queue != [] && queue[0] in waiters && HeadOnly(queue, waiters, before) && Queued(queue, waiters)
    ensures HeadOnly(queue[1..], ServeFirst(queue, waiters, stream), credit)
  {
    assert forall v :: v in queue[1..] ==> v in queue && queue[0] < v;
  }

  lemma ServedFair(queue: seq<int>, waiters: map<int, Waiter>, stream: int)
    requires queue != [] && queue[0] in waiters && Fair(queue, waiters, stream) && Queued(queue, waiters)
    ensures Fair(queue[1..], ServeFirst(queue, waiters, stream), stream + 4)
  {
    assert queue[0] in queue;
    assert forall v :: v in queue[1..] ==> v in queue && queue[0] < v;
  }
}
