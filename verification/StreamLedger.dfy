// Where the bytes of a stream are: acknowledged, in flight or waiting for retransmission.
module StreamLedger {
  import opened Protocol
  import opened StreamFrames
  import Varint

  /** `data` is what the application wrote. A live frame is in flight or in the retransmission queue. */
  datatype Ledger = Ledger(data: seq<Byte>, live: map<int, StreamFrame>, flying: set<int>, queued: seq<int>,
                           acked: set<int>, finAcked: bool, nextId: int)

  const EMPTY := Ledger([], map[], {}, [], {}, false, 0)

  ghost function IdSet(ids: seq<int>): set<int> { set id | id in ids }

  ghost function FrameSpan(f: StreamFrame): set<int> { Span(f.offset, f.End()) }

  /** Every live frame is in exactly one place. */
  ghost predicate Placed(l: Ledger) {
    && l.live.Keys == l.flying + IdSet(l.queued)
    && l.flying !! IdSet(l.queued)
    && (forall i, j :: 0 <= i < j < |l.queued| ==> l.queued[i] != l.queued[j])
    && (forall id :: id in l.live ==> id < l.nextId)
  }

  /** Live frames carry the application's bytes, and lie below `hi`. Only the end of the stream is announced without
      data. */
  ghost predicate Faithful(l: Ledger, hi: int) {
    forall id :: id in l.live ==>
      && IsPiece(l.data, l.live[id].data, l.live[id].offset)
      && l.live[id].End() <= hi && |l.live[id].data| <= Varint.MAX_2 && Varint.Fits(l.live[id].streamID)
      && l.live[id].dataLenPresent && (l.live[id].data != [] || l.live[id].fin)
  }

  /** No byte is in two frames, or in a frame and acknowledged. */
  ghost predicate Disjoint(l: Ledger, hi: int) {
    && (forall x :: x in l.acked ==> 0 <= x < hi)
    && (forall id :: id in l.live ==> FrameSpan(l.live[id]) !! l.acked)
    && (forall id, jd :: id in l.live && jd in l.live && id != jd ==> FrameSpan(l.live[id]) !! FrameSpan(l.live[jd]))
  }

  ghost predicate InLive(l: Ledger, x: int) {
    exists id :: id in l.live && x in FrameSpan(l.live[id])
  }

  /** No byte below `lo` is lost. */
  ghost predicate Covered(l: Ledger, lo: int) {
    forall x :: 0 <= x < lo ==> x in l.acked || InLive(l, x)
  }

  /** Each byte below `lo` is in exactly one of: acknowledged, one frame in flight, one frame in the queue. */
  ghost predicate Accounts(l: Ledger, lo: int, hi: int) {
    0 <= lo <= hi <= |l.data| <= Varint.MAX_8 && Placed(l) && Faithful(l, hi) && Disjoint(l, hi) && Covered(l, lo)
  }

  /** These frames did not change. */
  ghost predicate Kept(l: Ledger, m: Ledger, ids: set<int>) {
    forall id :: id in ids && id in l.live ==> id in m.live && m.live[id] == l.live[id]
  }

  function Sent(l: Ledger, f: StreamFrame): Ledger {
    l.(live := l.live[l.nextId := f], flying := l.flying + {l.nextId}, nextId := l.nextId + 1)
  }

  ghost function Acked(l: Ledger, id: int): Ledger
    requires id in l.live
  {
    l.(live := l.live - {id}, flying := l.flying - {id}, acked := l.acked + FrameSpan(l.live[id]),
       finAcked := l.finAcked || l.live[id].fin)
  }

  /** A lost frame, or what is left of it, goes to the end of the queue. */
  function Requeued(l: Ledger, id: int, f: StreamFrame): Ledger {
    l.(live := l.live[id := f], flying := l.flying - {id}, queued := l.queued + [id])
  }

  /** A lost frame that is not needed any more. */
  function Dropped(l: Ledger, id: int): Ledger {
    l.(live := l.live - {id}, flying := l.flying - {id})
  }

  /** The first frame of the queue is sent again. */
  function Resent(l: Ledger): Ledger
    requires l.queued != []
  {
    l.(flying := l.flying + {l.queued[0]}, queued := l.queued[1..])
  }

  /** A part of the first frame of the queue is sent again. */
  function ResentPart(l: Ledger, first: StreamFrame, rest: StreamFrame): Ledger
    requires l.queued != []
  {
    l.(live := l.live[l.queued[0] := rest][l.nextId := first], flying := l.flying + {l.nextId}, nextId := l.nextId + 1)
  }

  lemma SentAccounts(l: Ledger, lo: int, hi: int, f: StreamFrame, lo': int)
    requires Accounts(l, lo, hi) && f.offset == hi && f.End() <= |l.data| && IsPiece(l.data, f.data, f.offset)
    requires |f.data| <= Varint.MAX_2 && Varint.Fits(f.streamID) && f.dataLenPresent && (f.data != [] || f.fin)
    requires lo == hi && 0 <= lo' <= f.End()
    ensures Accounts(Sent(l, f), lo', f.End())
  {
    hide Placed, Disjoint, Covered, Faithful, IsPiece;
    SentPlaced(l, f);
    SentFaithful(l, hi, f);
    SentDisjoint(l, hi, f);
    SentCovers(l, hi, f, lo');
  }

  lemma SentPlaced(l: Ledger, f: StreamFrame)
    requires Placed(l)
    ensures l.nextId !in l.live && Placed(Sent(l, f))
  {
  }

  lemma SentFaithful(l: Ledger, hi: int, f: StreamFrame)
    requires Faithful(l, hi) && l.nextId !in l.live && hi <= f.End() && IsPiece(l.data, f.data, f.offset)
    requires |f.data| <= Varint.MAX_2 && Varint.Fits(f.streamID) && f.dataLenPresent && (f.data != [] || f.fin)
    ensures Faithful(Sent(l, f), f.End())
  {
  }

  lemma SentDisjoint(l: Ledger, hi: int, f: StreamFrame)
    requires Disjoint(l, hi) && Faithful(l, hi) && l.nextId !in l.live && f.offset == hi
    ensures Disjoint(Sent(l, f), f.End())
  {
    assert forall id :: id in l.live ==> l.live[id].End() <= hi;
  }

  lemma SentCovers(l: Ledger, hi: int, f: StreamFrame, lo': int)
    requires Covered(l, hi) && l.nextId !in l.live && f.offset == hi && lo' <= f.End()
    ensures Covered(Sent(l, f), lo')
  {
    var m := Sent(l, f);
    forall x | 0 <= x < lo' ensures x in m.acked || InLive(m, x) {
      if x < hi {
        assert x in l.acked || InLive(l, x);
        if x !in l.acked {
          var id :| id in l.live && x in FrameSpan(l.live[id]);
          assert x in FrameSpan(m.live[id]);
        }
      } else {
        assert x in FrameSpan(m.live[l.nextId]);
      }
    }
  }

  /** Cover of a byte by a frame that both ledgers have. */
  lemma StillLive(l: Ledger, m: Ledger, id: int, x: int)
    requires id in l.live && id in m.live && m.live[id] == l.live[id] && x in FrameSpan(l.live[id])
    ensures InLive(m, x)
  {
  }

  lemma AckedAccounts(l: Ledger, lo: int, hi: int, id: int)
    requires Accounts(l, lo, hi) && id in l.flying
    ensures Accounts(Acked(l, id), lo, hi)
  {
    var m := Acked(l, id);
    assert Disjoint(m, hi) && Placed(m) && Faithful(m, hi);
    forall x | 0 <= x < lo ensures x in m.acked || InLive(m, x) {
      if x !in m.acked {
        var jd :| jd in l.live && x in FrameSpan(l.live[jd]);
        StillLive(l, m, jd, x);
      }
    }
  }

  lemma PlacedRequeued(l: Ledger, id: int, f: StreamFrame)
    requires Placed(l) && id in l.flying
    ensures Placed(Requeued(l, id, f))
  {
    assert IdSet(l.queued + [id]) == IdSet(l.queued) + {id};
  }

  /** Replacing a live frame by a part of it. */
  lemma DisjointShrunk(l: Ledger, hi: int, m: Ledger, id: int)
    requires Disjoint(l, hi) && m.acked == l.acked && m.live.Keys == l.live.Keys
    requires id in l.live && FrameSpan(m.live[id]) <= FrameSpan(l.live[id])
    requires forall jd :: jd in l.live && jd != id ==> m.live[jd] == l.live[jd]
    ensures Disjoint(m, hi)
  {
  }

  lemma CoveredShrunk(l: Ledger, lo: int, m: Ledger, id: int)
    requires Covered(l, lo) && m.acked == l.acked && m.live.Keys == l.live.Keys
    requires id in l.live && forall x :: x in FrameSpan(l.live[id]) && x < lo ==> x in FrameSpan(m.live[id])
    requires forall jd :: jd in l.live && jd != id ==> m.live[jd] == l.live[jd]
    ensures Covered(m, lo)
  {
    forall x | 0 <= x < lo ensures x in m.acked || InLive(m, x) {
      if x !in l.acked {
        var jd :| jd in l.live && x in FrameSpan(l.live[jd]);
        assert x in FrameSpan(m.live[jd]);
      }
    }
  }

  /** Something is left of the frame below `limit`. */
  predicate Cuttable(f: StreamFrame, limit: int) {
    f.offset <= limit && (f.offset < limit || f.End() <= limit)
  }

  /** A lost frame; what is cut off lies above `lo`. */
  lemma RequeuedAccounts(l: Ledger, lo: int, hi: int, id: int, limit: int)
    requires Accounts(l, lo, hi) && id in l.flying && lo <= limit && Cuttable(l.live[id], limit)
    ensures Accounts(Requeued(l, id, Truncate(l.live[id], limit)), lo, hi)
  {
    hide Placed, Disjoint, Covered, IsPiece, Faithful;
    LiveFrame(l, id, hi);
    var f := l.live[id];
    var g := Truncate(f, limit);
    var m := Requeued(l, id, g);
    PlacedRequeued(l, id, g);
    assert m.live.Keys == l.live.Keys;
    DisjointShrunk(l, hi, m, id);
    CoveredShrunk(l, lo, m, id);
    PieceOfPiece(l.data, f.data, f.offset, 0, |g.data|);
    assert f.data[0..|g.data|] == g.data;
    FaithfulUpdate(l, hi, m, {id});
  }

  lemma LiveFrame(l: Ledger, id: int, hi: int)
    requires Placed(l) && Faithful(l, hi) && (id in l.flying || id in l.queued)
    ensures id in l.live && id < l.nextId
    ensures IsPiece(l.data, l.live[id].data, l.live[id].offset)
    ensures 0 <= l.live[id].offset && l.live[id].End() <= hi && |l.live[id].data| <= Varint.MAX_2
              && Varint.Fits(l.live[id].streamID)
    ensures l.live[id].data != [] || l.live[id].fin
    ensures l.nextId !in l.live && l.live[id].dataLenPresent
  {
  }

  lemma FaithfulUpdate(l: Ledger, hi: int, m: Ledger, changed: set<int>)
    requires Faithful(l, hi) && m.data == l.data
    requires forall id :: id in m.live && id !in changed ==> id in l.live && m.live[id] == l.live[id]
    requires forall id :: id in m.live && id in changed ==>
      && IsPiece(m.data, m.live[id].data, m.live[id].offset)
      && m.live[id].End() <= hi && |m.live[id].data| <= Varint.MAX_2 && Varint.Fits(m.live[id].streamID)
      && m.live[id].dataLenPresent && (m.live[id].data != [] || m.live[id].fin)
    ensures Faithful(m, hi)
  {
  }

  lemma DroppedAccounts(l: Ledger, lo: int, hi: int, id: int)
    requires Accounts(l, lo, hi) && id in l.flying && lo <= l.live[id].offset
    ensures Accounts(Dropped(l, id), lo, hi)
  {
    var m := Dropped(l, id);
    forall x | 0 <= x < lo ensures x in m.acked || InLive(m, x) {
      if x !in l.acked {
        var jd :| jd in l.live && x in FrameSpan(l.live[jd]);
        StillLive(l, m, jd, x);
      }
    }
  }

  lemma ResentAccounts(l: Ledger, lo: int, hi: int)
    requires Accounts(l, lo, hi) && l.queued != []
    ensures Accounts(Resent(l), lo, hi)
  {
    var m := Resent(l);
    assert l.queued == [l.queued[0]] + l.queued[1..];
    assert IdSet(l.queued) == {l.queued[0]} + IdSet(m.queued);
    forall x | 0 <= x < lo ensures x in m.acked || InLive(m, x) {
      if x !in l.acked {
        var jd :| jd in l.live && x in FrameSpan(l.live[jd]);
        StillLive(l, m, jd, x);
      }
    }
  }

  lemma ResentPartAccounts(l: Ledger, lo: int, hi: int, n: int)
    requires Accounts(l, lo, hi) && l.queued != [] && 0 < n < |l.live[l.queued[0]].data|
    ensures var p := SplitAt(l.live[l.queued[0]], n); Accounts(ResentPart(l, p.first, p.rest), lo, hi)
  {
    hide Placed, Disjoint, Covered, IsPiece, Faithful;
    LiveFrame(l, l.queued[0], hi);
    var k := l.queued[0];
    var f := l.live[k];
    var p := SplitAt(f, n);
    var m := ResentPart(l, p.first, p.rest);
    hide FrameSpan, SplitAt;
    SplitFacts(l.data, f, n);
    assert m.live.Keys == l.live.Keys + {l.nextId};
    PlacedSplit(l, p.first, p.rest);
    SplitDisjoint(l, hi, m, k);
    SplitCovered(l, lo, m, k);
    FaithfulUpdate(l, hi, m, {k, l.nextId});
  }

  /** The two parts of a frame. */
  lemma SplitFacts(stream: seq<Byte>, f: StreamFrame, n: int)
    requires IsPiece(stream, f.data, f.offset) && 0 <= n <= |f.data|
    ensures var p := SplitAt(f, n);
            && IsPiece(stream, p.first.data, p.first.offset) && IsPiece(stream, p.rest.data, p.rest.offset)
            && FrameSpan(f) == FrameSpan(p.first) + FrameSpan(p.rest) && FrameSpan(p.first) !! FrameSpan(p.rest)
            && p.first.End() <= f.End() && p.rest.End() == f.End()
            && |p.first.data| == n <= |f.data| && |p.rest.data| == |f.data| - n
            && p.first.streamID == p.rest.streamID == f.streamID
                && p.first.dataLenPresent == p.rest.dataLenPresent == f.dataLenPresent
  {
    PieceOfPiece(stream, f.data, f.offset, 0, n);
    PieceOfPiece(stream, f.data, f.offset, n, |f.data|);
    assert f.data[0..n] == f.data[..n] && f.data[n..|f.data|] == f.data[n..];
  }

  lemma PlacedSplit(l: Ledger, first: StreamFrame, rest: StreamFrame)
    requires Placed(l) && l.queued != []
    ensures Placed(ResentPart(l, first, rest))
  {
    assert l.queued[0] in l.live && l.nextId !in l.live;
  }

  lemma SplitDisjoint(l: Ledger, hi: int, m: Ledger, k: int)
    requires Disjoint(l, hi) && m.acked == l.acked && m.live.Keys == l.live.Keys + {l.nextId} && k in l.live
               && l.nextId !in l.live
    requires FrameSpan(l.live[k]) == FrameSpan(m.live[l.nextId]) + FrameSpan(m.live[k])
    requires FrameSpan(m.live[l.nextId]) !! FrameSpan(m.live[k])
    requires forall jd :: jd in l.live && jd != k ==> m.live[jd] == l.live[jd]
    ensures Disjoint(m, hi)
  {
    hide FrameSpan;
    forall id | id in m.live
      ensures FrameSpan(m.live[id]) <= FrameSpan(l.live[if id == l.nextId then k else id])
    {
    }
    forall id, jd | id in m.live && jd in m.live && id != jd ensures FrameSpan(m.live[id]) !! FrameSpan(m.live[jd]) {
      var i, j := if id == l.nextId then k else id, if jd == l.nextId then k else jd;
      assert i != j ==> FrameSpan(l.live[i]) !! FrameSpan(l.live[j]);
    }
  }

  lemma SplitCovered(l: Ledger, lo: int, m: Ledger, k: int)
    requires Covered(l, lo) && m.acked == l.acked && m.live.Keys == l.live.Keys + {l.nextId} && k in l.live
               && l.nextId !in l.live
    requires FrameSpan(l.live[k]) == FrameSpan(m.live[l.nextId]) + FrameSpan(m.live[k])
    requires forall jd :: jd in l.live && jd != k ==> m.live[jd] == l.live[jd]
    ensures Covered(m, lo)
  {
    forall x | 0 <= x < lo ensures x in m.acked || InLive(m, x) {
      if x !in l.acked {
        var jd :| jd in l.live && x in FrameSpan(l.live[jd]);
        assert x in FrameSpan(m.live[jd]) || x in FrameSpan(m.live[l.nextId]);
      }
    }
  }

  /** Fewer bytes have to be kept. */
  lemma AccountsLower(l: Ledger, lo: int, hi: int, lo': int)
    requires Accounts(l, lo, hi) && 0 <= lo' <= lo
    ensures Accounts(l, lo', hi)
  {
  }

  function Written(l: Ledger, p: seq<Byte>): Ledger { l.(data := l.data + p) }

  lemma WrittenAccounts(l: Ledger, lo: int, hi: int, p: seq<Byte>)
    requires Accounts(l, lo, hi) && |l.data| + |p| <= Varint.MAX_8
    ensures Accounts(Written(l, p), lo, hi)
  {
    var m := Written(l, p);
    forall id | id in l.live ensures IsPiece(m.data, l.live[id].data, l.live[id].offset) {
      PieceOfLonger(l.data, p, l.live[id].data, l.live[id].offset);
    }
    assert Placed(m) && Disjoint(m, hi);
    forall x | 0 <= x < lo ensures x in m.acked || InLive(m, x) {
      if x !in l.acked {
        var id :| id in l.live && x in FrameSpan(l.live[id]);
        StillLive(l, m, id, x);
      }
    }
  }

  /** The application takes back data that was not sent. */
  function Withdrawn(l: Ledger, n: int): Ledger
    requires 0 <= n <= |l.data|
  {
    l.(data := l.data[..n])
  }

  lemma WithdrawnAccounts(l: Ledger, lo: int, hi: int, n: int)
    requires Accounts(l, lo, hi) && hi <= n <= |l.data|
    ensures Accounts(Withdrawn(l, n), lo, hi)
  {
    var m := Withdrawn(l, n);
    forall id | id in l.live ensures IsPiece(m.data, l.live[id].data, l.live[id].offset) {
      assert m.data[l.live[id].offset..l.live[id].End()] == l.data[l.live[id].offset..l.live[id].End()];
    }
    assert Placed(m) && Disjoint(m, hi);
    forall x | 0 <= x < lo ensures x in m.acked || InLive(m, x) {
      if x !in l.acked {
        var id :| id in l.live && x in FrameSpan(l.live[id]);
        StillLive(l, m, id, x);
      }
    }
  }

  /** The retransmission queue is thrown away. */
  function Cleared(l: Ledger): Ledger {
    l.(live := map id | id in l.live && id in l.flying :: l.live[id], queued := [])
  }

  lemma ClearedAccounts(l: Ledger, lo: int, hi: int)
    requires Accounts(l, lo, hi)
    ensures Accounts(Cleared(l), 0, hi)
  {
    var m := Cleared(l);
    assert m.live.Keys == l.flying;
    assert IdSet([]) == {};
  }

  /** The i-th frame of the queue is dropped. */
  function QueueDropped(l: Ledger, i: int): Ledger
    requires 0 <= i < |l.queued|
  {
    l.(live := l.live - {l.queued[i]}, queued := l.queued[..i] + l.queued[i + 1..])
  }

  lemma QueueDroppedAccounts(l: Ledger, lo: int, hi: int, i: int)
    requires Accounts(l, lo, hi) && 0 <= i < |l.queued| && lo <= l.live[l.queued[i]].offset
    ensures Accounts(QueueDropped(l, i), lo, hi)
  {
    var m := QueueDropped(l, i);
    var k := l.queued[i];
    PlacedQueueDropped(l, i);
    hide Placed;
    assert Disjoint(m, hi) && Faithful(m, hi);
    forall x | 0 <= x < lo ensures x in m.acked || InLive(m, x) {
      if x !in l.acked {
        var id :| id in l.live && x in FrameSpan(l.live[id]);
        StillLive(l, m, id, x);
      }
    }
  }

  lemma PlacedQueueDropped(l: Ledger, i: int)
    requires Placed(l) && 0 <= i < |l.queued|
    ensures l.queued[i] in l.live && Placed(QueueDropped(l, i))
  {
    var q := l.queued[..i] + l.queued[i + 1..];
    assert l.queued == l.queued[..i] + [l.queued[i]] + l.queued[i + 1..];
    assert IdSet(q) == IdSet(l.queued) - {l.queued[i]} by {
      assert forall n :: 0 <= n < |q| ==> q[n] == l.queued[if n < i then n else n + 1];
    }
  }

  /** The i-th frame of the queue is cut. */
  function QueueTruncated(l: Ledger, i: int, limit: int): Ledger
    requires 0 <= i < |l.queued| && l.queued[i] in l.live && l.live[l.queued[i]].offset <= limit
  {
    l.(live := l.live[l.queued[i] := Truncate(l.live[l.queued[i]], limit)])
  }

  lemma PlacedTruncated(l: Ledger, i: int, limit: int)
    requires Placed(l) && 0 <= i < |l.queued| && l.queued[i] in l.live && l.live[l.queued[i]].offset <= limit
    ensures Placed(QueueTruncated(l, i, limit))
  {
  }

  lemma QueueTruncatedAccounts(l: Ledger, lo: int, hi: int, i: int, limit: int)
    requires Accounts(l, lo, hi) && 0 <= i < |l.queued| && lo <= limit && Cuttable(l.live[l.queued[i]], limit)
    ensures Accounts(QueueTruncated(l, i, limit), lo, hi)
  {
    hide Placed, Disjoint, Covered, IsPiece, Faithful;
    var k := l.queued[i];
    LiveFrame(l, k, hi);
    var f := l.live[k];
    var g := Truncate(f, limit);
    var m := QueueTruncated(l, i, limit);
    assert m.live.Keys == l.live.Keys;
    PlacedTruncated(l, i, limit);
    DisjointShrunk(l, hi, m, k);
    CoveredShrunk(l, lo, m, k);
    PieceOfPiece(l.data, f.data, f.offset, 0, |g.data|);
    assert f.data[0..|g.data|] == g.data;
    FaithfulUpdate(l, hi, m, {k});
  }

  /** When no frame is live, everything below `lo` was acknowledged. */
  lemma AllAcknowledged(l: Ledger, lo: int, hi: int)
    requires Accounts(l, lo, hi) && l.flying == {} && l.queued == []
    ensures Span(0, lo) <= l.acked && l.live == map[]
  {
    assert IdSet([]) == {};
    assert l.live.Keys == {};
  }

  // ---- the FIN bit ----

  /** The end of the stream is announced by at most one live frame, where the data ends, and it is not forgotten. */
  ghost predicate FinTracked(l: Ledger, finSent: bool) {
    && (forall id :: id in l.live && l.live[id].fin ==> finSent && !l.finAcked && l.live[id].End() == |l.data|)
    && (forall id, jd :: id in l.live && jd in l.live && l.live[id].fin && l.live[jd].fin ==> id == jd)
    && (finSent ==> l.finAcked || exists id :: id in l.live && l.live[id].fin)
    && (l.finAcked ==> finSent)
  }

  lemma FinSent(l: Ledger, finSent: bool, f: StreamFrame)
    requires FinTracked(l, finSent) && l.nextId !in l.live
    requires f.fin ==> !finSent && f.End() == |l.data|
    ensures FinTracked(Sent(l, f), finSent || f.fin)
  {
    var m := Sent(l, f);
    if f.fin {
      assert m.live[l.nextId].fin;
    } else if finSent && !l.finAcked {
      var id :| id in l.live && l.live[id].fin;
      assert m.live[id].fin;
    }
  }

  lemma FinAcked(l: Ledger, finSent: bool, id: int)
    requires FinTracked(l, finSent) && id in l.live
    ensures FinTracked(Acked(l, id), finSent)
  {
    var m := Acked(l, id);
    if finSent && !m.finAcked {
      var jd :| jd in l.live && l.live[jd].fin;
      assert m.live[jd].fin;
    }
  }

  /** Frames that only change place keep the FIN bit. */
  lemma FinMoved(l: Ledger, finSent: bool, m: Ledger)
    requires FinTracked(l, finSent) && m.live == l.live && m.data == l.data && m.finAcked == l.finAcked
    ensures FinTracked(m, finSent)
  {
    if finSent && !l.finAcked {
      var id :| id in l.live && l.live[id].fin;
      assert m.live[id].fin;
    }
  }

  lemma FinSplit(l: Ledger, finSent: bool, n: int)
    requires FinTracked(l, finSent) && l.nextId !in l.live && l.queued != [] && l.queued[0] in l.live
    requires 0 <= n <= |l.live[l.queued[0]].data|
    ensures var p := SplitAt(l.live[l.queued[0]], n); FinTracked(ResentPart(l, p.first, p.rest), finSent)
  {
    var p := SplitAt(l.live[l.queued[0]], n);
    var m := ResentPart(l, p.first, p.rest);
    if finSent && !l.finAcked {
      var id :| id in l.live && l.live[id].fin;
      assert m.live[id].fin;
    }
  }

  /** Data can only be added or taken back before the end was announced. */
  lemma FinUnsent(l: Ledger, m: Ledger)
    requires FinTracked(l, false) && m.live == l.live && m.finAcked == l.finAcked
    ensures FinTracked(m, false)
  {
  }

  /** A frame that announces another end than `size`. */
  predicate Moved(f: StreamFrame, size: int) { f.fin && f.End() != size }

  ghost predicate EndMoved(live: map<int, StreamFrame>, size: int) {
    exists id :: id in live && Moved(live[id], size)
  }

  /** A frame that announces the end and reaches over `limit`. */
  predicate FinCut(f: StreamFrame, limit: int) { f.fin && f.offset < limit < f.End() }

  /** After a reset with the write offset `w`, a live frame announces the end at the final size, or it was cut to the
      reliable part. The end is only announced when no reliable byte is left to be sent. */
  ghost predicate FinKept(live: map<int, StreamFrame>, finSent: bool, w: int, reliable: int) {
    && (finSent ==> reliable <= w)
    && forall id :: id in live && live[id].fin ==> finSent && Placement(live[id], w, reliable)
  }

  predicate Placement(f: StreamFrame, w: int, reliable: int) {
    f.End() == w || (f.data != [] && f.End() <= w && (0 < reliable ==> f.End() <= reliable))
  }

  /** Nothing was cut before a reset. */
  lemma NotMoved(l: Ledger, finSent: bool, lo: int, w: int)
    requires FinTracked(l, finSent) && Accounts(l, lo, w)
    ensures !EndMoved(l.live, w)
    ensures forall id :: id in l.live && l.live[id].fin ==> finSent && l.live[id].End() == w
  {
  }

  lemma KeptSent(l: Ledger, finSent: bool, w: int, reliable: int, f: StreamFrame)
    requires FinKept(l.live, finSent, w, reliable) && f.offset == w < reliable && (f.fin ==> reliable <= f.End())
    requires l.nextId !in l.live
    ensures FinKept(Sent(l, f).live, finSent || f.fin, f.End(), reliable)
    ensures !EndMoved(l.live, w) && !EndMoved(Sent(l, f).live, f.End())
  {
  }

  /** Fewer frames. */
  lemma KeptFewer(live: map<int, StreamFrame>, finSent: bool, w: int, reliable: int, live': map<int, StreamFrame>)
    requires FinKept(live, finSent, w, reliable)
    requires forall id :: id in live' ==> id in live && live'[id] == live[id]
    ensures FinKept(live', finSent, w, reliable)
    ensures EndMoved(live', w) ==> EndMoved(live, w)
  {
  }

  lemma MovedFewer(live: map<int, StreamFrame>, size: int, live': map<int, StreamFrame>)
    requires forall id :: id in live' ==> id in live && live'[id] == live[id]
    ensures EndMoved(live', size) ==> EndMoved(live, size)
  {
  }

  lemma KeptSplit(l: Ledger, finSent: bool, w: int, reliable: int, n: int)
    requires FinKept(l.live, finSent, w, reliable) && l.nextId !in l.live && l.queued != [] && l.queued[0] in l.live
    requires 0 < n < |l.live[l.queued[0]].data|
    ensures var p := SplitAt(l.live[l.queued[0]], n); FinKept(ResentPart(l, p.first, p.rest).live, finSent, w, reliable)
  {
  }

  lemma MovedSplit(l: Ledger, size: int, n: int)
    requires l.nextId !in l.live && l.queued != [] && l.queued[0] in l.live && 0 < n < |l.live[l.queued[0]].data|
    ensures var p := SplitAt(l.live[l.queued[0]], n);
            EndMoved(ResentPart(l, p.first, p.rest).live, size) <==> EndMoved(l.live, size)
  {
    var p := SplitAt(l.live[l.queued[0]], n);
    var m := ResentPart(l, p.first, p.rest);
    if EndMoved(l.live, size) {
      var id :| id in l.live && Moved(l.live[id], size);
      assert Moved(m.live[id], size);
    }
    if EndMoved(m.live, size) {
      var id :| id in m.live && Moved(m.live[id], size);
      assert id != l.nextId && Moved(l.live[id], size);
    }
  }

  /** A lost frame is cut to the reliable part. The end moves exactly if the frame announced it and reached over that
      part. */
  lemma KeptRequeued(l: Ledger, finSent: bool, w: int, reliable: int, id: int)
    requires FinKept(l.live, finSent, w, reliable) && id in l.live && l.live[id].offset < reliable
              && l.live[id].End() <= w
    requires l.live[id].data != [] || l.live[id].fin
    ensures var m := Requeued(l, id, Truncate(l.live[id], reliable));
            && FinKept(m.live, finSent, w, reliable)
            && (EndMoved(m.live, w) <==> EndMoved(l.live, w) || FinCut(l.live[id], reliable))
  {
    var m := Requeued(l, id, Truncate(l.live[id], reliable));
    if EndMoved(l.live, w) {
      var jd :| jd in l.live && Moved(l.live[jd], w);
      assert Moved(m.live[jd], w);
    }
    if FinCut(l.live[id], reliable) {
      assert Moved(m.live[id], w);
    }
    if EndMoved(m.live, w) {
      var jd :| jd in m.live && Moved(m.live[jd], w);
      assert jd == id || Moved(l.live[jd], w);
    }
  }

  /** A lost frame behind the reliable part is dropped: it did not announce another end. */
  lemma MovedDropped(l: Ledger, finSent: bool, w: int, reliable: int, id: int)
    requires FinKept(l.live, finSent, w, reliable) && id in l.live && 0 < reliable <= l.live[id].offset
    ensures FinKept(Dropped(l, id).live, finSent, w, reliable)
    ensures EndMoved(Dropped(l, id).live, w) <==> EndMoved(l.live, w)
  {
    var m := Dropped(l, id);
    if EndMoved(l.live, w) {
      var jd :| jd in l.live && Moved(l.live[jd], w);
      assert jd != id && Moved(m.live[jd], w);
    }
  }
}
