// The fields of a send stream that keep track of its frames, tied to the ledger of where each byte is.
module StreamBooks {
  import opened Protocol
  import opened StreamFrames
  import opened StreamLedger
  import Varint

  /** Below this offset every byte has to be delivered. */
  function Lo(reset: bool, reliable: int, writeOffset: int): int {
    if reset then Min(reliable, writeOffset) else writeOffset
  }

  ghost predicate QueueMatches(l: Ledger, queue: seq<StreamFrame>) {
    |l.queued| == |queue| && forall i :: 0 <= i < |queue| ==> l.queued[i] in l.live && l.live[l.queued[i]] == queue[i]
  }

  /** After a reset, only the reliable part of the stream is sent again. */
  ghost predicate QueueBelow(queue: seq<StreamFrame>, reset: bool, reliable: int) {
    reset ==> (reliable == 0 ==> queue == []) && forall i :: 0 <= i < |queue| ==> queue[i].End() <= reliable
  }

  /** The counter counts the STREAM frames in flight, unless a reset made them pointless, and the reset frame. */
  ghost predicate Counted(num: int, flying: set<int>, reset: bool, reliable: int, resetFlying: bool) {
    num == (if reset && reliable == 0 then 0 else |flying|) + (if resetFlying then 1 else 0)
  }

  /** The write offset, the retransmission queue, the counter and the FIN flag agree with the ledger. */
  ghost predicate Books(l: Ledger, queue: seq<StreamFrame>, num: int, w: int, reset: bool, reliable: int,
                        resetFlying: bool, finSent: bool) {
    && 0 <= reliable
    && Accounts(l, Lo(reset, reliable, w), w)
    && QueueMatches(l, queue) && QueueBelow(queue, reset, reliable)
    && Counted(num, l.flying, reset, reliable, resetFlying)
    && (if reset then FinKept(l.live, finSent, w, reliable) else FinTracked(l, finSent))
  }

  /** Some live frame announces another end than the final size. */
  ghost predicate OtherEnd(l: Ledger, w: int, reliable: int) {
    EndMoved(l.live, Max(w, reliable))
  }

  /** After the end was announced, the final size is the write offset. */
  lemma SizeIsOffset(l: Ledger, queue: seq<StreamFrame>, num: int, w: int, reset: bool, reliable: int,
                     resetFlying: bool, finSent: bool)
    requires Books(l, queue, num, w, reset, reliable, resetFlying, finSent) && (!reset && finSent ==> reliable <= w)
    ensures OtherEnd(l, w, reliable) <==> EndMoved(l.live, w)
    ensures !reset ==> !OtherEnd(l, w, reliable)
    ensures !EndMoved(l.live, w) ==> !OtherEnd(l, w, reliable)
  {
    hide Accounts;
    if !reset {
      NotMoved(l, finSent, w, w);
    }
  }

  lemma EmptyBooks(reliable: int)
    requires 0 <= reliable
    ensures Books(EMPTY, [], 0, 0, false, reliable, false, false)
  {
    assert IdSet([]) == {};
  }

  /** What is left to do when nothing is in flight and nothing is queued. */
  lemma NothingOutstanding(l: Ledger, queue: seq<StreamFrame>, num: int, w: int, reset: bool, reliable: int,
                           resetFlying: bool, finSent: bool)
    requires Books(l, queue, num, w, reset, reliable, resetFlying, finSent) && num <= 0 && queue == []
    ensures !resetFlying && Span(0, Lo(reset, reliable, w)) <= l.acked
    ensures !reset && finSent ==> l.finAcked
  {
    if !reset || 0 < reliable {
      AllAcknowledged(l, Lo(reset, reliable, w), w);
    }
  }

  /** When everything is acknowledged, nothing is left to do. */
  lemma NothingLive(l: Ledger, queue: seq<StreamFrame>, num: int, w: int, reliable: int)
    requires Books(l, queue, num, w, false, reliable, false, true) && l.finAcked && Span(0, |l.data|) <= l.acked
    ensures num == 0 && queue == []
  {
    assert forall id :: id in l.live ==> l.live[id].data != [];
    forall id ensures id in l.live ==> l.live[id].offset !in l.acked && l.live[id].offset in Span(0, |l.data|) {
      if id in l.live {
        LiveByte(l, id, w);
      }
    }
    assert l.live.Keys == {};
    NoIds(l.queued);
  }

  lemma LiveByte(l: Ledger, id: int, w: int)
    requires Accounts(l, w, w) && id in l.live && l.live[id].data != []
    ensures l.live[id].offset !in l.acked && l.live[id].offset in Span(0, |l.data|)
  {
    assert l.live[id].offset in FrameSpan(l.live[id]);
  }

  lemma NoIds(ids: seq<int>)
    ensures IdSet(ids) == {} ==> ids == []
  {
    if ids != [] {
      assert ids[0] in IdSet(ids);
    }
  }

  /** A frame in flight carries the application's bytes and has the FIN bit only where the data ends. */
  lemma FlyingFrame(l: Ledger, queue: seq<StreamFrame>, num: int, w: int, reset: bool, reliable: int,
                    resetFlying: bool, finSent: bool, id: int)
    requires Books(l, queue, num, w, reset, reliable, resetFlying, finSent) && id in l.flying
    ensures id in l.live && IsPiece(l.data, l.live[id].data, l.live[id].offset) && l.live[id].Writable()
    ensures l.live[id].End() <= w && l.live[id].dataLenPresent && (l.live[id].data != [] || l.live[id].fin)
    ensures !reset && l.live[id].fin ==> finSent && l.live[id].End() == |l.data|
    ensures (reset && reliable == 0) || num >= 1
  {
    hide QueueMatches, QueueBelow, Disjoint, Covered, FinKept, Placed, Faithful, IsPiece;
    LiveFrame(l, id, w);
    if !(reset && reliable == 0) {
      assert l.flying == (l.flying - {id}) + {id};
    }
  }

  lemma NextFrameNumber(l: Ledger, queue: seq<StreamFrame>, num: int, w: int, reset: bool, reliable: int,
                        resetFlying: bool, finSent: bool)
    requires Books(l, queue, num, w, reset, reliable, resetFlying, finSent)
    ensures l.nextId !in l.live && l.nextId !in l.flying && 0 <= w <= |l.data| <= Varint.MAX_8 && 0 <= reliable
  {
  }

  lemma SentBooks(l: Ledger, queue: seq<StreamFrame>, num: int, w: int, reset: bool, reliable: int, resetFlying: bool,
                  finSent: bool,
                  f: StreamFrame)
    requires Books(l, queue, num, w, reset, reliable, resetFlying, finSent)
    requires f.offset == w && f.End() <= |l.data| && IsPiece(l.data, f.data, w) && |f.data| <= Varint.MAX_2
               && Varint.Fits(f.streamID) && f.dataLenPresent && (f.data != [] || f.fin)
    requires reset ==> w < reliable && (f.fin ==> reliable <= f.End())
    requires !reset && f.fin ==> !finSent && f.End() == |l.data|
    ensures Books(Sent(l, f), queue, num + 1, f.End(), reset, reliable, resetFlying, finSent || f.fin)
    ensures Kept(l, Sent(l, f), l.flying)
    ensures !finSent ==> !EndMoved(l.live, w) && !EndMoved(Sent(l, f).live, f.End())
  {
    hide Accounts, FinTracked, FinKept, IsPiece, QueueMatches, EndMoved;
    if !finSent {
      NoEndSent(l, queue, num, w, reset, reliable, resetFlying);
      NoMoveSent(l, f);
    }
    NextFrameNumber(l, queue, num, w, reset, reliable, resetFlying, finSent);
    SentQueue(l, queue, f);
    SentAccounts(l, w, w, f, Lo(reset, reliable, f.End()));
    if reset {
      KeptSent(l, finSent, w, reliable, f);
    } else {
      FinSent(l, finSent, f);
    }
  }

  lemma NoEndSent(l: Ledger, queue: seq<StreamFrame>, num: int, w: int, reset: bool, reliable: int, resetFlying: bool)
    requires Books(l, queue, num, w, reset, reliable, resetFlying, false)
    ensures !EndMoved(l.live, w) && forall id :: id in l.live ==> !l.live[id].fin
  {
  }

  lemma NoMoveSent(l: Ledger, f: StreamFrame)
    requires forall id :: id in l.live ==> !l.live[id].fin
    ensures !EndMoved(Sent(l, f).live, f.End())
  {
  }

  /** As long as reliable bytes of a reset stream have to be sent, the end was not announced. */
  lemma NotEnded(l: Ledger, queue: seq<StreamFrame>, num: int, w: int, reliable: int, resetFlying: bool, finSent: bool)
    requires Books(l, queue, num, w, true, reliable, resetFlying, finSent) && w < reliable
    ensures !finSent
  {
  }

  lemma SentQueue(l: Ledger, queue: seq<StreamFrame>, f: StreamFrame)
    requires QueueMatches(l, queue) && l.nextId !in l.live
    ensures QueueMatches(Sent(l, f), queue)
  {
  }

  lemma QueueHead(l: Ledger, queue: seq<StreamFrame>, num: int, w: int, reset: bool, reliable: int, resetFlying: bool,
                  finSent: bool)
    requires Books(l, queue, num, w, reset, reliable, resetFlying, finSent) && queue != []
    ensures l.queued != [] && l.queued[0] in l.live && l.live[l.queued[0]] == queue[0]
    ensures queue[0].Writable() && |queue[0].data| <= Varint.MAX_2
    ensures l.nextId !in l.live && l.nextId !in l.flying && l.queued[0] !in l.flying
    ensures reset ==> 0 < reliable && queue[0].End() <= reliable
  {
    LiveFrame(l, l.queued[0], w);
    assert l.queued[0] in IdSet(l.queued);
  }

  lemma ResentBooks(l: Ledger, queue: seq<StreamFrame>, num: int, w: int, reset: bool, reliable: int,
                    resetFlying: bool, finSent: bool)
    requires Books(l, queue, num, w, reset, reliable, resetFlying, finSent) && queue != []
    ensures l.queued != [] && Books(Resent(l), queue[1..], num + 1, w, reset, reliable, resetFlying, finSent)
    ensures Kept(l, Resent(l), l.flying) && (OtherEnd(Resent(l), w, reliable) <==> OtherEnd(l, w, reliable))
  {
    hide Accounts, FinTracked, QueueMatches;
    QueueHead(l, queue, num, w, reset, reliable, resetFlying, finSent);
    ResentQueue(l, queue);
    ResentAccounts(l, Lo(reset, reliable, w), w);
    if !reset {
      FinMoved(l, finSent, Resent(l));
    }
  }

  lemma ResentQueue(l: Ledger, queue: seq<StreamFrame>)
    requires QueueMatches(l, queue) && queue != []
    ensures QueueMatches(Resent(l), queue[1..])
  {
  }

  lemma ResentPartBooks(l: Ledger, queue: seq<StreamFrame>, num: int, w: int, reset: bool, reliable: int,
                        resetFlying: bool, finSent: bool, n: int)
    requires Books(l, queue, num, w, reset, reliable, resetFlying, finSent) && queue != [] && 0 < n < |queue[0].data|
    ensures var p := SplitAt(queue[0], n);
            && l.queued != [] && Kept(l, ResentPart(l, p.first, p.rest), l.flying)
            && Books(ResentPart(l, p.first, p.rest), queue[0 := p.rest], num + 1, w, reset, reliable,
                     resetFlying, finSent)
            && (OtherEnd(ResentPart(l, p.first, p.rest), w, reliable) <==> OtherEnd(l, w, reliable))
  {
    hide Accounts, FinTracked, QueueMatches;
    QueueHead(l, queue, num, w, reset, reliable, resetFlying, finSent);
    var p := SplitAt(queue[0], n);
    ResentPartAccounts(l, Lo(reset, reliable, w), w, n);
    if reset {
      KeptSplit(l, finSent, w, reliable, n);
    } else {
      FinSplit(l, finSent, n);
    }
    MovedSplit(l, Max(w, reliable), n);
    PlacedIds(l, Lo(reset, reliable, w), w);
    ResentPartQueue(l, queue, p.first, p.rest);
  }

  lemma ResentPartQueue(l: Ledger, queue: seq<StreamFrame>, first: StreamFrame, rest: StreamFrame)
    requires QueueMatches(l, queue) && queue != [] && l.nextId !in l.live
    requires forall i, j :: 0 <= i < j < |l.queued| ==> l.queued[i] != l.queued[j]
    ensures QueueMatches(ResentPart(l, first, rest), queue[0 := rest])
  {
  }

  lemma PlacedIds(l: Ledger, lo: int, hi: int)
    requires Accounts(l, lo, hi)
    ensures forall i, j :: 0 <= i < j < |l.queued| ==> l.queued[i] != l.queued[j]
    ensures forall i :: 0 <= i < |l.queued| ==> l.queued[i] in l.live && l.queued[i] !in l.flying
  {
    assert forall i :: 0 <= i < |l.queued| ==> l.queued[i] in IdSet(l.queued);
  }

  lemma AckedBooks(l: Ledger, queue: seq<StreamFrame>, num: int, w: int, reset: bool, reliable: int,
                   resetFlying: bool, finSent: bool, id: int)
    requires Books(l, queue, num, w, reset, reliable, resetFlying, finSent) && id in l.flying && id in l.live
    ensures Books(Acked(l, id), queue, if reset && reliable == 0 then num else num - 1, w, reset, reliable,
                  resetFlying, finSent)
  {
    hide Accounts, FinTracked;
    AckedAccounts(l, Lo(reset, reliable, w), w, id);
    if reset {
      KeptFewer(l.live, finSent, w, reliable, Acked(l, id).live);
    } else {
      FinAcked(l, finSent, id);
    }
    PlacedIds(l, Lo(reset, reliable, w), w);
  }

  /** A lost frame waits for its retransmission. After a reset it is cut to the reliable part. */
  lemma RequeuedBooks(l: Ledger, queue: seq<StreamFrame>, num: int, w: int, reset: bool, reliable: int,
                      resetFlying: bool, finSent: bool, id: int)
    requires Books(l, queue, num, w, reset, reliable, resetFlying, finSent) && id in l.flying && id in l.live
    requires reset ==> l.live[id].offset < reliable
    ensures var f := if reset then Truncate(l.live[id], reliable) else l.live[id];
            && Books(Requeued(l, id, f), queue + [f], num - 1, w, reset, reliable, resetFlying, finSent)
            && (EndMoved(Requeued(l, id, f).live, w) <==>
                EndMoved(l.live, w) || (reset && FinCut(l.live[id], reliable)))
  {
    hide Accounts, FinTracked, FinKept, IsPiece, QueueMatches, EndMoved;
    var f := if reset then Truncate(l.live[id], reliable) else l.live[id];
    FlyingFrame(l, queue, num, w, reset, reliable, resetFlying, finSent, id);
    assert f == Truncate(l.live[id], if reset then reliable else w);
    RequeuedAccounts(l, Lo(reset, reliable, w), w, id, if reset then reliable else w);
    if reset {
      KeptRequeued(l, finSent, w, reliable, id);
    } else {
      assert Requeued(l, id, f).live == l.live;
      FinMoved(l, finSent, Requeued(l, id, f));
    }
    PlacedIds(l, Lo(reset, reliable, w), w);
    RequeuedQueue(l, queue, id, f);
  }

  lemma RequeuedQueue(l: Ledger, queue: seq<StreamFrame>, id: int, f: StreamFrame)
    requires QueueMatches(l, queue) && id in l.flying && forall i :: 0 <= i < |l.queued| ==> l.queued[i] !in l.flying
    ensures QueueMatches(Requeued(l, id, f), queue + [f])
  {
  }

  /** A lost frame behind the reliable part of a reset stream. */
  lemma DroppedBooks(l: Ledger, queue: seq<StreamFrame>, num: int, w: int, reliable: int, resetFlying: bool,
                     finSent: bool, id: int)
    requires Books(l, queue, num, w, true, reliable, resetFlying, finSent) && id in l.flying && id in l.live
    requires 0 < reliable <= l.live[id].offset
    ensures Books(Dropped(l, id), queue, num - 1, w, true, reliable, resetFlying, finSent)
    ensures EndMoved(Dropped(l, id).live, w) <==> EndMoved(l.live, w)
  {
    hide Accounts, FinTracked, FinKept, EndMoved, QueueMatches;
    MovedDropped(l, finSent, w, reliable, id);
    DroppedAccounts(l, Lo(true, reliable, w), w, id);
    PlacedIds(l, Lo(true, reliable, w), w);
    DroppedQueue(l, queue, id);
  }

  lemma DroppedQueue(l: Ledger, queue: seq<StreamFrame>, id: int)
    requires QueueMatches(l, queue) && id in l.flying && forall i :: 0 <= i < |l.queued| ==> l.queued[i] !in l.flying
    ensures QueueMatches(Dropped(l, id), queue)
  {
  }

  lemma WrittenBooks(l: Ledger, queue: seq<StreamFrame>, num: int, w: int, reliable: int, p: seq<Byte>)
    requires Books(l, queue, num, w, false, reliable, false, false) && |l.data| + |p| <= Varint.MAX_8
    ensures Books(Written(l, p), queue, num, w, false, reliable, false, false)
  {
    WrittenAccounts(l, w, w, p);
    FinUnsent(l, Written(l, p));
  }

  lemma WithdrawnBooks(l: Ledger, queue: seq<StreamFrame>, num: int, w: int, reliable: int, n: int)
    requires Books(l, queue, num, w, false, reliable, false, false) && w <= n <= |l.data|
    ensures Books(Withdrawn(l, n), queue, num, w, false, reliable, false, false)
  {
    WithdrawnAccounts(l, w, w, n);
    FinUnsent(l, Withdrawn(l, n));
  }

  /** A reset without a reliable part: nothing is sent again, and nothing is counted. */
  lemma ClearedBooks(l: Ledger, queue: seq<StreamFrame>, num: int, w: int, reset: bool, reliable: int,
                     resetFlying: bool, finSent: bool)
    requires Books(l, queue, num, w, reset, reliable, resetFlying, finSent)
    ensures Books(Cleared(l), [], 0, w, true, 0, false, finSent)
    ensures EndMoved(Cleared(l).live, w) ==> EndMoved(l.live, w)
    ensures Kept(l, Cleared(l), l.flying)
  {
    hide Accounts, FinTracked, FinKept, QueueMatches, EndMoved;
    ClearedFin(l, finSent, w, reset, reliable);
    MovedFewer(l.live, w, Cleared(l).live);
    ClearedAccounts(l, Lo(reset, reliable, w), w);
    NoQueue(Cleared(l));
  }

  lemma ClearedFin(l: Ledger, finSent: bool, w: int, reset: bool, reliable: int)
    requires if reset then FinKept(l.live, finSent, w, reliable) else FinTracked(l, finSent)
    requires Accounts(l, Lo(reset, reliable, w), w) && 0 <= reliable
    ensures FinKept(Cleared(l).live, finSent, w, 0)
  {
    if !reset {
      hide Accounts;
      NotMoved(l, finSent, w, w);
    }
  }

  lemma NoQueue(l: Ledger)
    requires l.queued == []
    ensures QueueMatches(l, [])
  {
  }

  /** The boundary of the reliable part only matters after a reset. */
  lemma BoundaryBooks(l: Ledger, queue: seq<StreamFrame>, num: int, w: int, reliable: int, finSent: bool,
                      reliable': int)
    requires Books(l, queue, num, w, false, reliable, false, finSent) && 0 <= reliable'
    ensures Books(l, queue, num, w, false, reliable', false, finSent)
  {
  }

  lemma ResetFrameBooks(l: Ledger, queue: seq<StreamFrame>, num: int, w: int, reset: bool, reliable: int, finSent: bool)
    ensures Books(l, queue, num, w, reset, reliable, false, finSent) <==> Books(l, queue, num + 1, w, reset, reliable,
        true, finSent)
  {
  }

  /** What is left of the queue: frames behind the limit are dropped, and the frame that reaches over it is cut. */
  function Trimmed(queue: seq<StreamFrame>, limit: int): seq<StreamFrame> {
    if queue == [] then []
    else
      var f := queue[|queue| - 1];
      Trimmed(queue[..|queue| - 1], limit) + if f.offset >= limit then [] else [Truncate(f, limit)]
  }

  /** The queued frames of l are cut or dropped in m, the others are the same. */
  ghost predicate Cut(l: Ledger, m: Ledger, limit: int, done: set<int>) {
    && (forall id :: id in m.live ==> id in l.live)
    && (forall id :: id in l.live && id !in done ==> id in m.live && m.live[id] == l.live[id])
    && (forall id :: id in l.live && id in done ==>
            if l.live[id].offset >= limit then id !in m.live
            else id in m.live && m.live[id] == Truncate(l.live[id], limit))
  }

  /** Drops the frames of the queue that lie behind the limit, and cuts the frame that reaches over it. The FIN bits
      stay. */
  method TrimQueue(queue: seq<StreamFrame>, limit: int, ghost l: Ledger, ghost lo: int, ghost hi: int)
    returns (trimmed: seq<StreamFrame>, ghost m: Ledger)
    requires Accounts(l, lo, hi) && QueueMatches(l, queue) && lo <= limit
    ensures Accounts(m, lo, hi) && QueueMatches(m, trimmed) && trimmed == Trimmed(queue, limit)
    ensures m.data == l.data && m.flying == l.flying && m.acked == l.acked && m.finAcked == l.finAcked
    ensures m.nextId == l.nextId && Cut(l, m, limit, IdSet(l.queued))
    ensures forall i :: 0 <= i < |trimmed| ==> trimmed[i].offset < limit && trimmed[i].End() <= limit
  {
    hide Trimming, Trimmed;
    trimmed, m := [], l;
    TrimStart(l, lo, hi, queue, limit);
    for i := 0 to |queue|
      invariant Trimming(l, m, lo, hi, queue, limit, i, trimmed)
    {
      var f := queue[i];
      TrimOnce(l, m, lo, hi, queue, limit, i, trimmed);
      if f.offset >= limit {
        m := QueueDropped(m, |trimmed|);
      } else {
        m := QueueTruncated(m, |trimmed|, limit);
        trimmed := trimmed + [Truncate(f, limit)];
      }
    }
    TrimEnd(l, m, lo, hi, queue, limit, trimmed);
  }

  /** The first i frames of the queue are dealt with. */
  ghost predicate Trimming(l: Ledger, m: Ledger, lo: int, hi: int, queue: seq<StreamFrame>, limit: int, i: int,
                           trimmed: seq<StreamFrame>) {
    && 0 <= i <= |queue| == |l.queued| && (forall a, b :: 0 <= a < b < |l.queued| ==> l.queued[a] != l.queued[b])
    && Accounts(m, lo, hi) && QueueMatches(m, trimmed + queue[i..]) && m.queued[|trimmed|..] == l.queued[i..]
    && m == l.(live := m.live, queued := m.queued) && Cut(l, m, limit, IdSet(l.queued[..i]))
    && trimmed == Trimmed(queue[..i], limit)
    && (forall k :: 0 <= k < |trimmed| ==> trimmed[k].offset < limit && trimmed[k].End() <= limit)
  }

  lemma TrimStart(l: Ledger, lo: int, hi: int, queue: seq<StreamFrame>, limit: int)
    requires Accounts(l, lo, hi) && QueueMatches(l, queue)
    ensures Trimming(l, l, lo, hi, queue, limit, 0, [])
  {
    QueueLength(l, lo, hi, queue);
    assert [] + queue[0..] == queue;
    NothingCut(l, limit);
    hide Accounts, QueueMatches, Cut, IdSet;
  }

  lemma TrimOnce(l: Ledger, m: Ledger, lo: int, hi: int, queue: seq<StreamFrame>, limit: int, i: int,
                 trimmed: seq<StreamFrame>)
    requires Trimming(l, m, lo, hi, queue, limit, i, trimmed) && i < |queue| && lo <= limit
    ensures var n := |trimmed|;
            && n < |m.queued| && m.queued[n] in m.live && m.live[m.queued[n]] == queue[i]
            && (queue[i].offset >= limit ==> Trimming(l, QueueDropped(m, n), lo, hi, queue, limit, i + 1, trimmed))
            && (queue[i].offset < limit ==>
                  Trimming(l, QueueTruncated(m, n, limit), lo, hi, queue, limit, i + 1,
                      trimmed + [Truncate(queue[i], limit)]))
  {
    hide Accounts, QueueMatches, Cut, IdSet;
    var n := |trimmed|;
    assert queue[..i + 1][..i] == queue[..i] && queue[i..][1..] == queue[i + 1..];
    TrimStep(m, lo, hi, trimmed, queue[i..], limit);
    assert m.queued[n] == m.queued[n..][0] == l.queued[i];
    CutOne(l, m, limit, i, n);
    assert m.queued[n + 1..] == m.queued[n..][1..] == l.queued[i + 1..];
    assert QueueDropped(m, n).queued[n..] == m.queued[n + 1..];
  }

  lemma TrimEnd(l: Ledger, m: Ledger, lo: int, hi: int, queue: seq<StreamFrame>, limit: int, trimmed: seq<StreamFrame>)
    requires Trimming(l, m, lo, hi, queue, limit, |queue|, trimmed)
    ensures Accounts(m, lo, hi) && QueueMatches(m, trimmed) && trimmed == Trimmed(queue, limit)
    ensures m == l.(live := m.live, queued := m.queued) && Cut(l, m, limit, IdSet(l.queued))
    ensures forall k :: 0 <= k < |trimmed| ==> trimmed[k].offset < limit && trimmed[k].End() <= limit
  {
    hide Accounts, QueueMatches, Cut, IdSet;
    assert trimmed + queue[|queue|..] == trimmed;
    assert queue[..|queue|] == queue && l.queued[..|queue|] == l.queued;
  }

  lemma QueueLength(l: Ledger, lo: int, hi: int, queue: seq<StreamFrame>)
    requires Accounts(l, lo, hi) && QueueMatches(l, queue)
    ensures |l.queued| == |queue| && forall a, b :: 0 <= a < b < |l.queued| ==> l.queued[a] != l.queued[b]
  {
  }

  lemma NothingCut(l: Ledger, limit: int)
    ensures Cut(l, l, limit, IdSet(l.queued[..0]))
  {
  }

  lemma CutOne(l: Ledger, m: Ledger, limit: int, i: int, n: int)
    requires 0 <= i < |l.queued| && 0 <= n < |m.queued| && m.queued[n] == l.queued[i] && l.queued[i] in m.live
    requires Cut(l, m, limit, IdSet(l.queued[..i])) && forall a, b :: 0 <= a < b < |l.queued| ==>
              l.queued[a] != l.queued[b]
    ensures m.live[l.queued[i]].offset >= limit ==> Cut(l, QueueDropped(m, n), limit, IdSet(l.queued[..i + 1]))
    ensures m.live[l.queued[i]].offset < limit ==> Cut(l, QueueTruncated(m, n, limit), limit, IdSet(l.queued[..i + 1]))
  {
    assert IdSet(l.queued[..i + 1]) == IdSet(l.queued[..i]) + {l.queued[i]} by {
      assert l.queued[..i + 1] == l.queued[..i] + [l.queued[i]];
    }
    assert l.queued[i] !in IdSet(l.queued[..i]);
  }

  lemma TrimStep(l: Ledger, lo: int, hi: int, done: seq<StreamFrame>, rest: seq<StreamFrame>, limit: int)
    requires Accounts(l, lo, hi) && QueueMatches(l, done + rest) && rest != [] && lo <= limit
    ensures |done| < |l.queued| && l.queued[|done|] in l.live && l.live[l.queued[|done|]] == rest[0]
    ensures rest[0].offset >= limit ==>
              Accounts(QueueDropped(l, |done|), lo, hi) && QueueMatches(QueueDropped(l, |done|), done + rest[1..])
    ensures rest[0].offset < limit ==>
              && Accounts(QueueTruncated(l, |done|, limit), lo, hi)
              && QueueMatches(QueueTruncated(l, |done|, limit), done + [Truncate(rest[0], limit)] + rest[1..])
  {
    hide Accounts;
    var n := |done|;
    assert (done + rest)[n] == rest[0];
    PlacedIds(l, lo, hi);
    hide QueueMatches;
    if rest[0].offset >= limit {
      QueueDroppedAccounts(l, lo, hi, n);
    } else {
      QueueTruncatedAccounts(l, lo, hi, n, limit);
    }
    TrimmedQueue(l, done, rest, limit);
  }

  lemma TrimmedQueue(l: Ledger, done: seq<StreamFrame>, rest: seq<StreamFrame>, limit: int)
    requires QueueMatches(l, done + rest) && rest != [] && l.queued[|done|] in l.live
              && l.live[l.queued[|done|]] == rest[0]
    requires forall i, j :: 0 <= i < j < |l.queued| ==> l.queued[i] != l.queued[j]
    ensures QueueMatches(QueueDropped(l, |done|), done + rest[1..])
    ensures rest[0].offset < limit ==>
              QueueMatches(QueueTruncated(l, |done|, limit), done + [Truncate(rest[0], limit)] + rest[1..])
  {
    assert forall i :: 0 <= i < |done + rest| ==> (done + rest)[i] == if i < |done| then done[i] else rest[i - |done|];
  }

  /** A reset that keeps a part of the stream reliable. */
  lemma TrimmedBooks(l: Ledger, queue: seq<StreamFrame>, num: int, w: int, reliable: int, finSent: bool,
                     trimmed: seq<StreamFrame>, m: Ledger)
    requires Books(l, queue, num, w, false, reliable, false, finSent) && 0 < reliable && (finSent ==> reliable <= w)
    requires Accounts(m, Lo(true, reliable, w), w) && QueueMatches(m, trimmed) && m.flying == l.flying
    requires Cut(l, m, reliable, IdSet(l.queued)) && forall i :: 0 <= i < |trimmed| ==> trimmed[i].End() <= reliable
    ensures Books(m, trimmed, num, w, true, reliable, false, finSent)
    ensures EndMoved(m.live, w) <==> SomeFinCut(queue, reliable)
    ensures Kept(l, m, l.flying)
  {
    hide Accounts, FinTracked, FinKept, QueueMatches, EndMoved, Cut, Kept;
    CutKeeps(l, m, reliable, w, w);
    NotMoved(l, finSent, w, w);
    PlacedIds(l, w, w);
    hide IdSet;
    CutMoves(l, queue, w, reliable, finSent, m);
  }

  /** Frames in flight are not cut. */
  lemma CutKeeps(l: Ledger, m: Ledger, limit: int, lo: int, hi: int)
    requires Accounts(l, lo, hi) && Cut(l, m, limit, IdSet(l.queued))
    ensures Kept(l, m, l.flying)
  {
  }

  /** A frame of the queue announces the end and reaches over the limit. */
  ghost predicate SomeFinCut(queue: seq<StreamFrame>, limit: int) {
    exists i :: 0 <= i < |queue| && FinCut(queue[i], limit)
  }

  lemma NothingBelowZero(l: Ledger, queue: seq<StreamFrame>, num: int, w: int, reset: bool, reliable: int,
        resetFlying: bool, finSent: bool)
    requires Books(l, queue, num, w, reset, reliable, resetFlying, finSent)
    ensures !SomeFinCut(queue, 0) && (!reset ==> !EndMoved(l.live, w))
  {
    if !reset {
      NotMoved(l, finSent, w, w);
    }
    assert forall i :: 0 <= i < |queue| ==> 0 <= queue[i].offset;
  }

  /** Cutting the queue moves the end exactly if the frame that announces it is cut. */
  lemma CutMoves(l: Ledger, queue: seq<StreamFrame>, w: int, reliable: int, finSent: bool, m: Ledger)
    requires QueueMatches(l, queue) && Cut(l, m, reliable, IdSet(l.queued)) && (finSent ==> reliable <= w)
    requires forall id :: id in l.live && l.live[id].fin ==> finSent && l.live[id].End() == w
    ensures FinKept(m.live, finSent, w, reliable)
    ensures EndMoved(m.live, w) <==> SomeFinCut(queue, reliable)
  {
    if SomeFinCut(queue, reliable) {
      var i :| 0 <= i < |queue| && FinCut(queue[i], reliable);
      var id := l.queued[i];
      assert id in l.queued && id in IdSet(l.queued) && id in l.live && l.live[id] == queue[i];
      assert m.live[id] == Truncate(queue[i], reliable);
      assert Moved(m.live[id], w);
    }
    if EndMoved(m.live, w) {
      var id :| id in m.live && Moved(m.live[id], w);
      assert id in IdSet(l.queued);
      var i :| 0 <= i < |l.queued| && l.queued[i] == id;
      assert FinCut(queue[i], reliable);
    }
  }

  lemma TrimReady(l: Ledger, queue: seq<StreamFrame>, num: int, w: int, reliable: int, finSent: bool)
    requires Books(l, queue, num, w, false, reliable, false, finSent)
    ensures Accounts(l, Lo(true, reliable, w), w) && QueueMatches(l, queue) && Lo(true, reliable, w) <= reliable
  {
    AccountsLower(l, w, w, Lo(true, reliable, w));
  }

  lemma CountIsNatural(l: Ledger, queue: seq<StreamFrame>, num: int, w: int, reset: bool, reliable: int,
                       resetFlying: bool, finSent: bool)
    requires Books(l, queue, num, w, reset, reliable, resetFlying, finSent)
    ensures 0 <= num && (resetFlying ==> 1 <= num) && 0 <= reliable
  {
  }

  lemma CounterMatches(l: Ledger, queue: seq<StreamFrame>, num: int, w: int, reset: bool, reliable: int,
                       resetFlying: bool, finSent: bool)
    requires Books(l, queue, num, w, reset, reliable, resetFlying, finSent)
    ensures Counted(num, l.flying, reset, reliable, resetFlying)
  {
  }

  lemma ClearedQueue(l: Ledger, queue: seq<StreamFrame>, num: int, w: int, reliable: int, resetFlying: bool,
                     finSent: bool)
    requires Books(l, queue, num, w, true, reliable, resetFlying, finSent)
    ensures reliable == 0 ==> queue == []
    ensures 0 <= w
  {
  }

  /** A frame that is lost after a reset without a reliable part. */
  lemma LostAfterReset(l: Ledger, queue: seq<StreamFrame>, num: int, w: int, resetFlying: bool, finSent: bool, id: int)
    requires Books(l, queue, num, w, true, 0, resetFlying, finSent) && id in l.flying && id in l.live
               && 0 <= l.live[id].offset
    ensures Books(Dropped(l, id), queue, num, w, true, 0, resetFlying, finSent)
  {
    hide Accounts, FinTracked;
    DroppedAccounts(l, Lo(true, 0, w), w, id);
  }
}
