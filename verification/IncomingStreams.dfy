// Streams that the peer opens: the limit on their number, and accepting them in order.
module IncomingStreams {
  import opened Protocol

  /** The largest stream ID, 2^62 - 1. */
  const MAX_STREAM_ID := 0x3FFF_FFFF_FFFF_FFFF
  const MAX_STREAM_COUNT := 0x1000_0000_0000_0000
  const INVALID_STREAM_ID := -1

  /** A stream in the map; `shouldDelete` if it was completed before it was accepted. */
  datatype Entry = Entry(shouldDelete: bool)

  datatype GetResult = Stream(id: int) | Gone | LimitError | Panic

  datatype AcceptResult = Accepted(id: int) | Sleeps | AcceptFailed

  /** The ID of the last of n streams. */
  function LastID(first: int, n: int): int {
    if n == 0 then INVALID_STREAM_ID else first + 4 * (n - 1)
  }

  function IDAt(first: int, n: int): int { first + 4 * n }

  ghost predicate Aligned(first: int, id: int) { exists n :: id == IDAt(first, n) }

  /** Every stream that was opened and not accepted is in the map, every stream of the map was opened, and only
      streams that were not accepted wait for their deletion. */
  ghost predicate InMap(streams: map<int, Entry>, first: int, accepted: int, count: int) {
    && (forall n :: accepted <= n < count ==> IDAt(first, n) in streams)
    && (forall id :: id in streams ==> Aligned(first, id) && first <= id < first + 4 * count)
    && (forall id :: id in streams && streams[id].shouldDelete ==> first + 4 * accepted <= id)
  }

  /** Streams in the map, and streams that the peer may open, add up to the configured number, unless the limit was
      capped. */
  ghost predicate Conserved(size: int, count: int, limit: int, withheld: int, maxNumStreams: int, first: int) {
    && 0 <= withheld && size + (limit - count) + withheld == maxNumStreams
    && (withheld > 0 ==> MAX_STREAM_ID < first + 4 * (count + maxNumStreams - size - 1))
  }

  /** If AcceptStream calls never overlap, a sleeping call is signalled when there is a stream for it. */
  ghost predicate Announced(checking: int, asleep: int, overlapped: bool, available: bool, signalled: bool) {
    && 0 <= checking && 0 <= asleep
    && (!overlapped ==> checking + asleep <= 1 && (asleep == 1 && available ==> signalled))
  }

  ghost predicate InOrder(accepted: seq<int>, first: int) {
    forall i :: 0 <= i < |accepted| ==> accepted[i] == first + 4 * i
  }

  class IncomingStreams {
    const first: int
    const maxNumStreams: int
    var streams: map<int, Entry>
    var nextStreamToAccept: int
    var nextStreamToOpen: int
    var maxStream: int
    var closed: bool
    /** The channel that announces new streams holds at most one signal. */
    var newStreamSignal: bool

    /** How many streams were opened and accepted, and how many the peer may open altogether. */
    ghost var count: int
    ghost var accepted: seq<int>
    ghost var limit: int
    /** How many times the limit was not raised because it would have become too large. */
    ghost var withheld: int
    /** The limits that were advertised. */
    ghost var advertised: seq<int>
    /** AcceptStream calls that are about to look for a stream, or asleep; and if two calls ever overlapped. */
    ghost var checking: int
    ghost var asleep: int
    ghost var overlapped: bool

    /** How many streams the peer may still open. */
    function Credit(): int
      reads this`maxStream, this`nextStreamToOpen
    {
      if maxStream < nextStreamToOpen then 0 else (maxStream - nextStreamToOpen) / 4 + 1
    }

    ghost predicate Valid()
      reads this
    {
      Numbered() && InMap(streams, first, |accepted|, count)
    }

    /** A call sleeps although there is a stream for it, no other call looks for streams, and no signal will wake it. */
    ghost predicate Stranded()
      reads this
    {
      asleep > 0 && checking == 0 && |accepted| < count && !newStreamSignal && !closed
    }

    /** Calls that do not overlap are never stranded. */
    lemma NotStranded()
      requires Valid() && !overlapped
      ensures !Stranded()
    {
    }

    ghost predicate Numbered()
      reads this
    {
      && 0 <= first < 4 && 0 <= maxNumStreams <= MAX_STREAM_COUNT
      && 0 <= |accepted| <= count <= limit
      && nextStreamToOpen == first + 4 * count && nextStreamToAccept == first + 4 * |accepted|
      && InOrder(accepted, first)
      && maxStream == LastID(first, limit) <= MAX_STREAM_ID
      && Conserved(|streams|, count, limit, withheld, maxNumStreams, first)
      && Rising(advertised, limit)
      && Announced(checking, asleep, overlapped, |accepted| < count, newStreamSignal || closed)
    }

    constructor (first: int, maxNumStreams: int)
      requires 0 <= first < 4 && 0 <= maxNumStreams <= MAX_STREAM_COUNT
      ensures Valid() && Credit() == maxNumStreams && streams == map[] && accepted == [] && !closed && !overlapped
      ensures this.first == first && this.maxNumStreams == maxNumStreams && count == 0 && asleep == checking == 0
                && !newStreamSignal
    {
      this.first, this.maxNumStreams := first, maxNumStreams;
      streams, nextStreamToAccept, nextStreamToOpen, closed := map[], first, first, false;
      maxStream, newStreamSignal := LastID(first, maxNumStreams), false;
      count, accepted, limit, withheld, advertised := 0, [], maxNumStreams, 0, [];
      checking, asleep, overlapped := 0, 0, false;
    }

    /** What the books say about the credit of the peer. */
    lemma CreditIsConserved()
      requires Valid()
      ensures |streams| + Credit() + withheld == maxNumStreams && Credit() == limit - count
      ensures first + 4 * (count + maxNumStreams - |streams| - 1) <= MAX_STREAM_ID ==>
                  |streams| + Credit() == maxNumStreams
    {
      if limit > 0 {
        assert maxStream - nextStreamToOpen == 4 * (limit - count - 1);
      }
    }

    /** Finds a stream, or opens it together with all streams before it. Streams above the limit are an error. After
        the map was closed, announcing a new stream panics. */
    method GetOrOpenStream(id: int) returns (r: GetResult)
      requires Valid() && 0 <= id && id % 4 == first
      modifies this`streams, this`nextStreamToOpen, this`newStreamSignal, this`count
      ensures r == Panic <==> closed && old(nextStreamToOpen) <= id <= maxStream
      ensures r != Panic ==> Valid()
      ensures r == LimitError <==> id > maxStream
      ensures id > maxStream || id < old(nextStreamToOpen) ==> streams == old(streams) && count == old(count)
      ensures id <= maxStream && id < old(nextStreamToOpen) ==>
                r == if id in streams && !streams[id].shouldDelete then Stream(id) else Gone
      ensures !closed && old(nextStreamToOpen) <= id <= maxStream ==> r == Stream(id) && nextStreamToOpen == id + 4
      ensures r != Panic ==> forall s :: s in old(streams) ==> s in streams && streams[s] == old(streams)[s]
      ensures r != Panic ==>
                forall s :: s in streams && s !in old(streams) ==>
                  old(nextStreamToOpen) <= s <= id && streams[s] == Entry(false)
      ensures r != Panic && count > old(count) ==> newStreamSignal
      ensures Stranded() ==> old(Stranded())
    {
      if id > maxStream {
        return LimitError;
      }
      if id < nextStreamToOpen {
        if id in streams && !streams[id].shouldDelete {
          return Stream(id);
        }
        return Gone;
      }
      if closed {
        return Panic;
      }
      OpenUpTo(id);
      return Stream(id);
    }

    method OpenUpTo(id: int)
      requires Valid() && nextStreamToOpen <= id <= maxStream && id % 4 == first && !closed
      modifies this`streams, this`nextStreamToOpen, this`newStreamSignal, this`count
      ensures Valid() && nextStreamToOpen == id + 4 && id in streams && newStreamSignal && count > old(count)
      ensures forall s :: s in old(streams) ==> s in streams && streams[s] == old(streams)[s]
      ensures forall s :: s in streams && s !in old(streams) ==>
                old(nextStreamToOpen) <= s <= id && streams[s] == Entry(false)
    {
      hide InMap, Conserved, Announced, Rising, InOrder, LastID;
      var newNum := nextStreamToOpen;
      ghost var last := (id - first) / 4;
      assert id == first + 4 * last;
      while newNum <= id
        invariant newNum == first + 4 * count && old(count) <= count <= limit && count <= last + 1
        invariant old(count) < count ==> first + 4 * (count - 1) in streams
        invariant InMap(streams, first, |accepted|, count)
                    && Conserved(|streams|, count, limit, withheld, maxNumStreams, first)
        invariant count > old(count) ==> newStreamSignal
        invariant forall s :: s in old(streams) ==> s in streams && streams[s] == old(streams)[s]
        invariant forall s :: s in streams && s !in old(streams) ==>
                      old(nextStreamToOpen) <= s <= newNum - 4 && streams[s] == Entry(false)
      {
        LastOpened(first, limit, maxStream, count);
        OpenedOne(streams, first, |accepted|, count);
        OneLarger(streams, newNum);
        ConservedOpen(|streams|, count, limit, withheld, maxNumStreams, first);
        AddStream(newNum);
        newNum := newNum + 4;
      }
      nextStreamToOpen := id + 4;
      AnnouncedOpen(checking, asleep, overlapped, old(|accepted| < count), old(newStreamSignal || closed));
    }

    method AddStream(id: int)
      modifies this`streams, this`newStreamSignal, this`count
      ensures streams == old(streams)[id := Entry(false)] && newStreamSignal && count == old(count) + 1
    {
      streams := streams[id := Entry(false)];
      newStreamSignal := true;
      count := count + 1;
    }

    method DeleteStream(id: int) returns (ok: bool)
      requires Valid()
      modifies this`streams, this`maxStream, this`limit, this`withheld, this`advertised
      ensures Valid()
      ensures ok <==> id in old(streams) && !(nextStreamToAccept <= id && old(streams)[id].shouldDelete)
      ensures !ok ==> streams == old(streams) && limit == old(limit)
      ensures ok && nextStreamToAccept <= id ==> streams == old(streams)[id := Entry(true)] && limit == old(limit)
      ensures ok && id < nextStreamToAccept ==> streams == old(streams) - {id}
      ensures Stranded() <==> old(Stranded())
      ensures old(limit) <= limit && old(maxStream) <= maxStream
    {
      if id !in streams {
        return false;
      }
      if id >= nextStreamToAccept {
        if streams[id].shouldDelete {
          return false;
        }
        assert (streams[id := Entry(true)]).Keys == streams.Keys;
        streams := streams[id := Entry(true)];
        return true;
      }
      RemovedOne(streams, first, |accepted|, count, id);
      Remove(id);
      return true;
    }

    /** Deletes an accepted stream; the peer may open another one instead, as long as its ID is not too large. */
    method Remove(id: int)
      requires Numbered() && id in streams && InMap(streams - {id}, first, |accepted|, count)
      modifies this`streams, this`maxStream, this`limit, this`withheld, this`advertised
      ensures Valid() && streams == old(streams) - {id}
      ensures old(limit) <= limit && old(maxStream) <= maxStream
      ensures withheld == old(withheld) ==> limit == old(limit) + 1 && advertised == old(advertised) + [limit]
      ensures withheld != old(withheld) ==> limit == old(limit) && advertised == old(advertised)
    {
      hide InMap, Conserved, Announced, Rising, InOrder;
      OneSmaller(streams, id);
      ConservedDelete(|streams|, count, limit, withheld, maxNumStreams, first);
      streams := streams - {id};
      if maxNumStreams > |streams| {
        var m := nextStreamToOpen + 4 * (maxNumStreams - |streams| - 1);
        if m <= MAX_STREAM_ID {
          maxStream := m;
          limit := count + maxNumStreams - |streams|;
          withheld := 0;
          RisingMore(advertised, old(limit), limit);
          advertised := advertised + [limit];
        } else {
          withheld := withheld + 1;
        }
      }
    }

    /** An AcceptStream call starts: it takes an old signal out of the channel. */
    method BeginAccept()
      requires Valid()
      modifies this`newStreamSignal, this`checking, this`overlapped
      ensures Valid() && checking == old(checking) + 1 && !newStreamSignal && !Stranded()
      ensures overlapped == (old(overlapped) || old(checking) + asleep > 0)
    {
      overlapped := overlapped || checking + asleep > 0;
      newStreamSignal := false;
      checking := checking + 1;
    }

    /** An AcceptStream call looks for the next stream. Streams are accepted in the order of their IDs, also those
        that were completed before. This is the only step that can leave another call stranded, and it does so exactly
        if this call is the only one awake and leaves a stream behind without a signal. */
    method CheckAccept() returns (r: AcceptResult)
      requires Valid() && checking > 0
      modifies this`streams, this`maxStream, this`limit, this`withheld, this`advertised, this`nextStreamToAccept,
               this`accepted, this`checking, this`asleep
      ensures Valid() && checking == old(checking) - 1
      ensures r == AcceptFailed <==> closed
      ensures r.Accepted? <==> !closed && |old(accepted)| < count
      ensures r.Accepted? ==>
                  r.id == first + 4 * |old(accepted)| && accepted == old(accepted) + [r.id] && asleep == old(asleep)
      ensures r.Accepted? ==> r.id in old(streams)
                              && streams == if old(streams)[r.id].shouldDelete then old(streams) - {r.id}
                                  else old(streams)
      ensures !r.Accepted? ==> accepted == old(accepted) && streams == old(streams) && limit == old(limit)
      ensures r == Sleeps ==> asleep == old(asleep) + 1
      ensures old(limit) <= limit
      ensures Stranded() <==>
                  old(checking) == 1 && old(asleep) > 0 && |old(accepted)| + 1 < count && !newStreamSignal && !closed
    {
      hide InMap, Conserved, Rising, InOrder, LastID, Announced;
      AnnouncedCheck(checking, asleep, overlapped, |accepted| < count, newStreamSignal || closed);
      var id := nextStreamToAccept;
      if closed {
        checking := checking - 1;
        return AcceptFailed;
      }
      NextIsOpen(streams, first, |accepted|, count);
      if id !in streams {
        checking := checking - 1;
        asleep := asleep + 1;
        return Sleeps;
      }
      TakeNext();
      return Accepted(id);
    }

    /** Accepts the next stream, which is in the map. */
    method TakeNext()
      requires Valid() && checking > 0 && nextStreamToAccept in streams && |accepted| < count && !closed
      modifies this`streams, this`maxStream, this`limit, this`withheld, this`advertised, this`nextStreamToAccept,
               this`accepted, this`checking
      ensures Valid() && checking == old(checking) - 1 && old(limit) <= limit
      ensures accepted == old(accepted) + [old(nextStreamToAccept)]
      ensures streams == if old(streams)[old(nextStreamToAccept)].shouldDelete
                then old(streams) - {old(nextStreamToAccept)} else old(streams)
    {
      hide InMap, Conserved, Rising, InOrder, LastID, Announced;
      var id := nextStreamToAccept;
      AnnouncedCheck(checking, asleep, overlapped, |accepted| < count, newStreamSignal || closed);
      checking := checking - 1;
      AcceptedOne(streams, first, |accepted|, count);
      nextStreamToAccept := nextStreamToAccept + 4;
      InOrderMore(accepted, first);
      accepted := accepted + [id];
      if streams[id].shouldDelete {
        Remove(id);
      }
    }

    /** A sleeping AcceptStream call gets the signal. */
    method WakeAccept()
      requires Valid() && asleep > 0 && (newStreamSignal || closed)
      modifies this`newStreamSignal, this`checking, this`asleep
      ensures Valid() && checking == old(checking) + 1 && asleep == old(asleep) - 1 && !newStreamSignal && !Stranded()
    {
      newStreamSignal := false;
      checking := checking + 1;
      asleep := asleep - 1;
    }

    /** The context of a sleeping AcceptStream call ends. */
    method CancelAccept()
      requires Valid() && asleep > 0
      modifies this`asleep
      ensures Valid() && asleep == old(asleep) - 1 && (Stranded() ==> old(Stranded()))
    {
      asleep := asleep - 1;
    }

    /** Closes the map and wakes all calls. Closing it again closes the channel twice, and panics. */
    method CloseWithError() returns (panicked: bool)
      requires Valid()
      modifies this`closed
      ensures Valid() && closed && !Stranded() && (panicked <==> old(closed))
    {
      panicked := closed;
      closed := true;
    }
  }

  /** Two AcceptStream calls sleep while two streams are opened: one of them stays asleep, without a signal, although
      there is a stream for it. */
  method OverlappingAcceptsMissSignal() returns (m: IncomingStreams)
    ensures m.Valid() && m.overlapped && m.asleep == 1 && m.Stranded()
  {
    hide InMap, Conserved, Rising, InOrder, Announced;
    m := new IncomingStreams(0, 10);
    m.BeginAccept();
    var r := m.CheckAccept();
    m.BeginAccept();
    r := m.CheckAccept();
    var s := m.GetOrOpenStream(4);
    m.WakeAccept();
    r := m.CheckAccept();
  }

  /** The map is closed, and a frame for a new stream arrives. */
  method OpenAfterClose() returns (m: IncomingStreams, r: GetResult)
    ensures m.closed && r == Panic
  {
    hide InMap, Conserved, Rising, InOrder, Announced;
    m := new IncomingStreams(0, 10);
    var panicked := m.CloseWithError();
    r := m.GetOrOpenStream(0);
  }

  method CloseTwice() returns (m: IncomingStreams, panicked: bool)
    ensures m.closed && panicked
  {
    hide InMap, Conserved, Rising, InOrder, Announced;
    m := new IncomingStreams(0, 10);
    panicked := m.CloseWithError();
    panicked := m.CloseWithError();
  }

  /** The advertised limits only increase. */
  ghost predicate Rising(advertised: seq<int>, limit: int) {
    && (forall i, j :: 0 <= i < j < |advertised| ==> advertised[i] < advertised[j])
    && (forall i :: 0 <= i < |advertised| ==> advertised[i] <= limit)
  }

  lemma InOrderMore(accepted: seq<int>, first: int)
    requires InOrder(accepted, first)
    ensures InOrder(accepted + [first + 4 * |accepted|], first)
  {
  }

  lemma RisingMore(advertised: seq<int>, limit: int, next: int)
    requires Rising(advertised, limit) && limit < next
    ensures Rising(advertised + [next], next)
  {
  }

  lemma LastOpened(first: int, limit: int, maxStream: int, count: int)
    requires maxStream == LastID(first, limit) && 0 <= first && 0 <= count <= limit && first + 4 * count <= maxStream
    ensures count < limit
  {
  }

  lemma OpenedOne(streams: map<int, Entry>, first: int, accepted: int, count: int)
    requires InMap(streams, first, accepted, count) && 0 <= first < 4 && 0 <= count && accepted <= count
    ensures InMap(streams[first + 4 * count := Entry(false)], first, accepted, count + 1)
    ensures first + 4 * count !in streams
  {
    var id := IDAt(first, count);
    assert forall n :: IDAt(first, n) == id ==> n == count;
  }

  lemma OneLarger(streams: map<int, Entry>, id: int)
    requires id !in streams
    ensures |streams[id := Entry(false)]| == |streams| + 1
  {
    assert (streams[id := Entry(false)]).Keys == streams.Keys + {id};
  }

  lemma OneSmaller(streams: map<int, Entry>, id: int)
    requires id in streams
    ensures |streams - {id}| == |streams| - 1
  {
    assert (streams - {id}).Keys == streams.Keys - {id};
  }

  lemma ConservedOpen(size: int, count: int, limit: int, withheld: int, maxNumStreams: int, first: int)
    requires Conserved(size, count, limit, withheld, maxNumStreams, first)
    ensures Conserved(size + 1, count + 1, limit, withheld, maxNumStreams, first)
  {
  }

  lemma AnnouncedOpen(checking: int, asleep: int, overlapped: bool, available: bool, signalled: bool)
    requires Announced(checking, asleep, overlapped, available, signalled)
    ensures Announced(checking, asleep, overlapped, true, true)
  {
  }

  /** A call that looks for a stream takes it, or falls asleep if there is none. */
  lemma AnnouncedCheck(checking: int, asleep: int, overlapped: bool, available: bool, signalled: bool)
    requires Announced(checking, asleep, overlapped, available, signalled) && checking > 0
    ensures Announced(checking - 1, asleep, overlapped, true, signalled)
              && Announced(checking - 1, asleep, overlapped, false, signalled)
    ensures !available ==> Announced(checking - 1, asleep + 1, overlapped, false, signalled)
  {
  }

  /** Deleting a stream gives its place back to the peer, or withholds it. */
  lemma ConservedDelete(size: int, count: int, limit: int, withheld: int, maxNumStreams: int, first: int)
    requires Conserved(size, count, limit, withheld, maxNumStreams, first) && count <= limit
    ensures size - 1 < maxNumStreams
    ensures var m := first + 4 * (count + maxNumStreams - (size - 1) - 1);
            if m <= MAX_STREAM_ID then
              withheld == 0 && count + maxNumStreams - (size - 1) == limit + 1
                  && Conserved(size - 1, count, limit + 1, 0, maxNumStreams, first)
            else Conserved(size - 1, count, limit, withheld + 1, maxNumStreams, first)
  {
  }

  /** The next stream to accept is in the map exactly if it was opened. */
  lemma NextIsOpen(streams: map<int, Entry>, first: int, accepted: int, count: int)
    requires InMap(streams, first, accepted, count) && 0 <= accepted <= count
    ensures first + 4 * accepted in streams <==> accepted < count
  {
    if accepted < count {
      assert IDAt(first, accepted) in streams;
    }
  }

  lemma AcceptedOne(streams: map<int, Entry>, first: int, accepted: int, count: int)
    requires InMap(streams, first, accepted, count) && 0 <= accepted < count && 0 <= first < 4
    requires first + 4 * accepted in streams
    ensures var id := first + 4 * accepted;
            InMap(if streams[id].shouldDelete then streams - {id} else streams, first, accepted + 1, count)
  {
    assert forall id :: id in streams && first + 4 * accepted < id ==>
               Aligned(first, id) && first + 4 * (accepted + 1) <= id;
  }

  lemma RemovedOne(streams: map<int, Entry>, first: int, accepted: int, count: int, id: int)
    requires InMap(streams, first, accepted, count) && id < first + 4 * accepted
    ensures InMap(streams - {id}, first, accepted, count)
  {
  }
}
