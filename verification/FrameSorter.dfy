// Reassembly of a byte string from frames that arrive out of order, overlapping or repeated.
module FrameSorter {
  import opened Protocol
  import opened GapList

  /** A protection against peers that punch many holes into a stream. */
  const MAX_GAPS := 1000

  /** Shorter pieces of a cut frame are copied, so that the buffer can be released at once. */
  const MIN_BUFFER_SIZE := 128

  /** The identity of a "buffer no longer needed" callback. */
  type Callback = int

  /** Queued bytes, the callback that comes with them, and the callback of the frame in whose buffer they lie; bytes
      that were copied, or that need not be given back, are in no such buffer. */
  datatype Entry = Entry(data: seq<Byte>, doneCb: Option<Callback>, buffer: Option<Callback>)

  type Queue = map<int, Entry>

  datatype PushResult = Pushed | Duplicate | TooManyGaps | Panic

  function One(cb: Option<Callback>): multiset<Callback> {
    if cb.Some? then multiset{cb.value} else multiset{}
  }

  function EndOf(q: Queue, k: int): int
    requires k in q
  {
    k + |q[k].data|
  }

  /** Where one queued frame ends, another one or a gap begins. */
  ghost predicate Continues(q: Queue, g: seq<Interval>, x: int) {
    x in q || IsGapStart(g, x)
  }

  /** The queued frames are non-empty, unread and do not overlap. */
  ghost predicate Disjoint(q: Queue, readPos: int) {
    && (forall k :: k in q ==> readPos <= k && k < EndOf(q, k) <= MAX_BYTE_COUNT)
    && (forall k, l :: k in q && l in q && k < l ==> EndOf(q, k) <= l)
  }

  /** The queued frames avoid the gaps, and each gap is followed by a frame. */
  ghost predicate Fills(q: Queue, g: seq<Interval>) {
    && (forall k, iv :: k in q && iv in g ==> EndOf(q, k) <= iv.start || iv.end <= k)
    && (forall iv :: iv in g && iv.end < MAX_BYTE_COUNT ==> iv.end in q)
  }

  /** The queued frames are chained to each other and to the gaps without holes. */
  ghost predicate Chained(q: Queue, g: seq<Interval>, readPos: int) {
    && |g| > 0 && readPos <= g[0].start
    && (readPos in q || readPos == g[0].start)
    && (forall k {:trigger Continues(q, g, EndOf(q, k))} :: k in q ==> Continues(q, g, EndOf(q, k)))
  }

  /** The queued frames tile what was received from `readPos` on. */
  ghost predicate Tiled(q: Queue, g: seq<Interval>, readPos: int) {
    0 <= readPos && Disjoint(q, readPos) && Fills(q, g) && Chained(q, g, readPos)
  }

  /** Frame `k` is followed by another frame in front of `lim`, or ends there. */
  ghost predicate Linked(q: Queue, k: int, lim: int) {
    && k in q && k < EndOf(q, k)
    && (forall l :: l in q && k < l ==> EndOf(q, k) <= l)
    && (EndOf(q, k) == lim || (EndOf(q, k) < lim && EndOf(q, k) in q))
  }

  /** The frames from `lo` to `lim` form one chain that ends at `lim`. */
  ghost predicate IsRun(q: Queue, lo: int, lim: int) {
    && lim !in q
    && (forall k {:trigger Linked(q, k, lim)} :: k in q && lo <= k < lim ==> Linked(q, k, lim))
  }

  function Without(q: Queue, a: int, b: int): Queue {
    map k | k in q && !(a <= k < b) :: q[k]
  }

  /** Every queued frame holds the bytes of `stream` at its offset. */
  ghost predicate HoldsBytesOf(q: Queue, stream: seq<Byte>) {
    forall k :: k in q ==> IsPiece(stream, q[k].data, k)
  }

  /** How a new frame [a, b) lies among the queued frames and the gaps `i` to `j` it was matched with. */
  ghost predicate Lands(q: Queue, g: seq<Interval>, readPos: int, i: int, j: int, a: int, b: int) {
    && Fits(g, i, j, a, b)
    && readPos <= a
    && (a in q || g[i].start <= a < g[i].end)
    && (b <= g[j].end || Continues(q, g, b))
  }

  /** No queued frame reaches over the borders of the new one. */
  lemma NoneCrosses(q: Queue, g: seq<Interval>, readPos: int, i: int, j: int, a: int, b: int)
    requires Separated(g) && Tiled(q, g, readPos) && Lands(q, g, readPos, i, j, a, b)
    ensures forall k :: k in q && k < a ==> EndOf(q, k) <= a
    ensures forall k :: k in q && k < b ==> EndOf(q, k) <= b
  {
  }

  /** A gap that is left of the carved list, seen from the frames that stay and from the new frame. */
  lemma GapAfterPush(q: Queue, g: seq<Interval>, readPos: int, i: int, j: int, a: int, b: int, iv: Interval)
    requires Separated(g) && Tiled(q, g, readPos) && Lands(q, g, readPos, i, j, a, b)
    requires iv in Carve(g, i, j, a, b)
    ensures iv.end < MAX_BYTE_COUNT ==> iv.end == a || (iv.end in q && !(a <= iv.end < b))
    ensures b <= iv.start || iv.end <= a
    ensures forall k :: k in q && !(a <= k < b) ==> EndOf(q, k) <= iv.start || iv.end <= k
  {
    OuterGaps(g, i, j, a, b);
    NoneCrosses(q, g, readPos, i, j, a, b);
    CarveMembers(g, i, j, a, b, iv);
  }

  /** The end of a frame that stays, or of the new frame, is the start of a frame or of a gap. */
  lemma ChainAfterPush(q: Queue, g: seq<Interval>, i: int, j: int, a: int, b: int, e: int)
    requires Separated(g) && Fits(g, i, j, a, b)
    requires e < a || b <= e
    requires e !in q && (Continues(q, g, e) || b == e < g[j].end)
    ensures IsGapStart(Carve(g, i, j, a, b), e)
  {
    if b == e < g[j].end {
      CarveMembers(g, i, j, a, b, Interval(b, g[j].end));
    } else {
      var iv :| iv in g && iv.start == e;
      OuterGaps(g, i, j, a, b);
      MiddleGaps(g, i, j);
      CarveMembers(g, i, j, a, b, iv);
      CarveMembers(g, i, j, a, b, Interval(g[i].start, a));
    }
  }

  lemma EndAfterPush(q: Queue, g: seq<Interval>, readPos: int, i: int, j: int, a: int, b: int, entry: Entry, k: int)
    requires Separated(g) && Tiled(q, g, readPos) && Lands(q, g, readPos, i, j, a, b)
    requires |entry.data| == b - a
    requires k in Without(q, a, b)[a := entry]
    ensures var p := Without(q, a, b)[a := entry]; Continues(p, Carve(g, i, j, a, b), EndOf(p, k))
  {
    hide Carve, Separated, IsGapStart;
    var p := Without(q, a, b)[a := entry];
    var e := EndOf(p, k);
    assert g[j] in g;
    if e !in p {
      if k != a {
        NoneCrosses(q, g, readPos, i, j, a, b);
        assert Continues(q, g, EndOf(q, k));
      }
      ChainAfterPush(q, g, i, j, a, b, e);
    }
  }

  lemma ChainedAfterPush(q: Queue, g: seq<Interval>, readPos: int, i: int, j: int, a: int, b: int, entry: Entry)
    requires Separated(g) && Tiled(q, g, readPos) && Lands(q, g, readPos, i, j, a, b)
    requires |entry.data| == b - a
    ensures Chained(Without(q, a, b)[a := entry], Carve(g, i, j, a, b), readPos)
  {
    var p, c := Without(q, a, b)[a := entry], Carve(g, i, j, a, b);
    forall k | k in p ensures Continues(p, c, EndOf(p, k)) {
      EndAfterPush(q, g, readPos, i, j, a, b, entry, k);
    }
    CarveFirst(g, i, j, a, b);
  }

  lemma DisjointAfterPush(q: Queue, readPos: int, a: int, b: int, entry: Entry)
    requires Disjoint(q, readPos) && readPos <= a < b <= MAX_BYTE_COUNT && |entry.data| == b - a
    requires forall k :: k in q && k < a ==> EndOf(q, k) <= a
    ensures Disjoint(Without(q, a, b)[a := entry], readPos)
  {
  }

  lemma FillsAfterPush(q: Queue, g: seq<Interval>, readPos: int, i: int, j: int, a: int, b: int, entry: Entry)
    requires Separated(g) && Tiled(q, g, readPos) && Lands(q, g, readPos, i, j, a, b)
    requires |entry.data| == b - a
    ensures Fills(Without(q, a, b)[a := entry], Carve(g, i, j, a, b))
  {
    var p, c := Without(q, a, b)[a := entry], Carve(g, i, j, a, b);
    forall iv | iv in c
      ensures iv.end < MAX_BYTE_COUNT ==> iv.end in p
      ensures forall k :: k in p ==> EndOf(p, k) <= iv.start || iv.end <= k
    {
      GapAfterPush(q, g, readPos, i, j, a, b, iv);
    }
  }

  /** Replacing what lies under the new frame by the new frame keeps the tiling. */
  lemma TiledAfterPush(q: Queue, g: seq<Interval>, readPos: int, i: int, j: int, a: int, b: int, entry: Entry)
    requires Separated(g) && Tiled(q, g, readPos) && Lands(q, g, readPos, i, j, a, b)
    requires |entry.data| == b - a
    ensures Tiled(Without(q, a, b)[a := entry], Carve(g, i, j, a, b), readPos)
  {
    ChainedAfterPush(q, g, readPos, i, j, a, b, entry);
    FillsAfterPush(q, g, readPos, i, j, a, b, entry);
    NoneCrosses(q, g, readPos, i, j, a, b);
    DisjointAfterPush(q, readPos, a, b, entry);
  }

  lemma CarveFirst(g: seq<Interval>, i: int, j: int, a: int, b: int)
    requires Separated(g) && Fits(g, i, j, a, b)
    ensures var c := Carve(g, i, j, a, b);
            |c| > 0 && (if 0 < i || g[0].start < a then c[0].start == g[0].start else a < c[0].start)
  {
    CarveIsSeparated(g, i, j, a, b);
    TailIsOrdered(g, j, b);
    CarveHeadTail(g, i, j, a, b);
  }

  /** The received run in front of gap `m` is one chain of frames. */
  lemma RunIsLinked(q: Queue, g: seq<Interval>, readPos: int, m: int, lo: int)
    requires Separated(g) && Tiled(q, g, readPos)
    requires 0 <= m < |g| && lo <= g[m].start && (m > 0 ==> g[m - 1].end <= lo)
    ensures IsRun(q, lo, g[m].start)
  {
    assert g[m] in g;
    forall k | k in q && lo <= k < g[m].start ensures Linked(q, k, g[m].start) {
      assert Continues(q, g, EndOf(q, k));
      assert forall n :: 0 <= n < m ==> g[n].start < g[m - 1].end;
    }
  }

  /** Every received offset that was not read yet lies in exactly one queued frame. */
  lemma TiledCovers(q: Queue, g: seq<Interval>, readPos: int, x: int) returns (k: int)
    requires Separated(g) && Tiled(q, g, readPos)
    requires readPos <= x < MAX_BYTE_COUNT && !InGap(g, x)
    ensures k in q && k <= x < EndOf(q, k)
    ensures forall l :: l in q && l <= x < EndOf(q, l) ==> l == k
  {
    // Start at readPos, or at the end of the last gap in front of x, and follow the chain.
    var i := 0;
    k := readPos;
    while g[i].end <= x
      invariant 0 <= i < |g|
      invariant readPos <= k <= x
      invariant if i == 0 then k == readPos else k == g[i - 1].end
    {
      k := g[i].end;
      i := i + 1;
    }
    k := RunCovers(q, g, readPos, i, k, x);
  }

  /** The run of frames that starts at `lo`, in front of gap `i`, covers all offsets up to the gap. */
  lemma RunCovers(q: Queue, g: seq<Interval>, readPos: int, i: int, lo: int, x: int) returns (k: int)
    requires Separated(g) && Tiled(q, g, readPos) && !InGap(g, x) && 0 <= i < |g|
    requires lo <= x < g[i].end && lo == if i == 0 then readPos else g[i - 1].end
    ensures k in q && k <= x < EndOf(q, k)
    ensures forall l :: l in q && l <= x < EndOf(q, l) ==> l == k
  {
    k := lo;
    assert g[i] in g && (i > 0 ==> g[i - 1] in g);
    RunIsLinked(q, g, readPos, i, k);
    while EndOf(q, k) <= x
      invariant k in q && k <= x && (i > 0 ==> g[i - 1].end <= k)
      decreases x - k
    {
      assert Linked(q, k, g[i].start);
      k := EndOf(q, k);
    }
  }

  lemma NoGapBetween(g: seq<Interval>, m: int, a: int, b: int)
    requires Separated(g)
    requires 0 <= m <= |g| && (m > 0 ==> g[m - 1].end <= a) && (m < |g| ==> b <= g[m].start)
    ensures forall x :: a <= x < b ==> !InGap(g, x)
  {
    assert forall n :: 0 <= n < m ==> g[n].end <= g[m - 1].end;
    assert forall n :: m <= n < |g| ==> g[m].start <= g[n].start;
  }

  /** What lies behind gap `m`: a run of frames up to the next gap, which starts at or before `last`. */
  ghost predicate RunBehind(q: Queue, g: seq<Interval>, m: int, last: int) {
    && 0 <= m < |g| - 1
    && g[m].start < g[m].end < g[m + 1].start <= last
    && (forall k :: k in q ==> !(g[m].start <= k < g[m].end))
    && g[m].end in q && IsRun(q, g[m].end, g[m + 1].start)
  }

  /** No frame starts in [a, b). */
  ghost predicate Cleared(q: Queue, a: int, b: int) {
    a < b && forall k :: k in q ==> !(a <= k < b)
  }

  lemma RunsBehind(q: Queue, g: seq<Interval>, readPos: int, j: int)
    requires Separated(g) && Tiled(q, g, readPos) && 0 <= j < |g|
    ensures forall m {:trigger RunBehind(q, g, m, g[j].start)} :: 0 <= m < j ==> RunBehind(q, g, m, g[j].start)
  {
    forall m | 0 <= m < j ensures RunBehind(q, g, m, g[j].start) {
      assert g[m] in g;
      RunIsLinked(q, g, readPos, m + 1, g[m].end);
      assert m + 1 < j ==> g[m + 1].end < g[j].start;
    }
  }

  /** Dropping an earlier run leaves the next one alone. */
  lemma RunAfterDrop(q: Queue, a: int, b: int, lo: int, lim: int)
    requires IsRun(q, lo, lim) && a <= b <= lo && lo in q
    ensures IsRun(Without(q, a, b), lo, lim) && lo in Without(q, a, b)
  {
    var p := Without(q, a, b);
    forall k | k in p && lo <= k < lim ensures Linked(p, k, lim) {
      assert Linked(q, k, lim);
    }
  }

  /** What the searches for the first and the last gap tell about a frame [start, end) that is not a duplicate. */
  ghost predicate Located(g: seq<Interval>, i: int, j: int, start: int, end: int) {
    && 0 <= i <= j < |g|
    && 0 <= start < end < MAX_BYTE_COUNT
    && start <= g[i].end && (i > 0 ==> g[i - 1].end < start)
    && g[i].start < end && g[j].start <= end && (j + 1 < |g| ==> end < g[j + 1].start)
  }

  /** The run of frames that starts where the new frame starts; empty if the frame starts in a gap. */
  lemma StartRun(q: Queue, g: seq<Interval>, readPos: int, i: int, j: int, start: int, end: int) returns (lim: int)
    requires Separated(g) && Tiled(q, g, readPos) && Located(g, i, j, start, end)
    ensures start <= lim && IsRun(q, start, lim) && (start in q ==> start < lim)
    ensures start < g[i].start ==> lim == g[i].start
    ensures start == g[i].end ==> start in q && i + 1 < |g| && lim == g[i + 1].start
    ensures g[i].start <= start < g[i].end ==> start !in q && lim == start
  {
    assert g[i] in g;
    if start < g[i].start {
      lim := g[i].start;
      RunIsLinked(q, g, readPos, i, start);
    } else if start < g[i].end {
      lim := start;
    } else {
      lim := g[i + 1].start;
      RunIsLinked(q, g, readPos, i + 1, start);
    }
  }

  /** Where the replacement of frames stopped: [start, pos) is what was dropped, and [a, b) is what is left of the
      frame. */
  ghost predicate Trimmed(q: Queue, g: seq<Interval>, i: int, j: int, start: int, end: int, pos: int, a: int, b: int)
    requires Located(g, i, j, start, end)
  {
    || (start < g[i].start && start !in q && pos == start && a == g[i].start && b == end)
    || (start < g[i].start && start in q && pos == g[i].start && a == start && b == end)
    || (g[i].start <= start < g[i].end && start !in q && pos == start && a == start && b == end)
    || (start == g[i].end && start in q && i < j && pos == g[i + 1].start && a == start && b == end)
    || (start == g[i].end && start in q && i == j && pos in q && start < pos <= end && a == start && b == pos)
  }

  lemma RunsAfterReplace(q: Queue, g: seq<Interval>, readPos: int, j: int, start: int, pos: int, m: int)
    requires Separated(g) && Tiled(q, g, readPos) && 0 <= m < j < |g|
    requires start <= pos <= g[m].start
    ensures RunBehind(Without(q, start, pos), g, m, g[j].start)
  {
    RunsBehind(q, g, readPos, j);
    assert RunBehind(q, g, m, g[j].start);
    RunAfterDrop(q, start, pos, g[m].end, g[m + 1].start);
  }

  /** The frames between the gaps, once [start, pos) was dropped. */
  lemma TrimmedRuns(q: Queue, g: seq<Interval>, readPos: int, i: int, j: int, start: int, end: int, pos: int, a: int,
                    b: int)
    requires Separated(g) && Tiled(q, g, readPos) && Located(g, i, j, start, end)
    requires Trimmed(q, g, i, j, start, end, pos, a, b)
    ensures var p := Without(q, start, pos);
            && (forall m {:trigger RunBehind(p, g, m, g[j].start)} :: i < m < j ==> RunBehind(p, g, m, g[j].start))
            && (i < j ==> RunBehind(p, g, i, g[j].start) || Cleared(p, g[i].end, g[i + 1].start))
  {
    hide RunBehind, Cleared, Tiled, Without;
    var p := Without(q, start, pos);
    forall m | i < m < j ensures RunBehind(p, g, m, g[j].start) {
      assert g[i].end < g[m].start && (i + 1 < m ==> g[i + 1].end < g[m].start);
      RunsAfterReplace(q, g, readPos, j, start, pos, m);
    }
    if i < j {
      if start <= g[i].start {
        RunsAfterReplace(q, g, readPos, j, start, pos, i);
      } else if start < g[i].end {
        RunsAfterReplace(q, g, readPos, j, g[i].start, g[i].start, i);
        NothingDropped(q, start, g[i].start);
      } else {
        AllDropped(q, g[i].end, g[i + 1].start);
      }
    }
  }

  lemma OneGapLess(head: seq<Interval>, g: seq<Interval>, m: int)
    requires 0 <= m < |g|
    ensures var l := head + g[m..]; l[..|head|] + l[|head| + 1..] == head + g[m + 1..]
  {
  }

  lemma NothingDropped(q: Queue, a: int, b: int)
    ensures Without(q, a, a) == q == Without(q, b, b)
  {
  }

  lemma AllDropped(q: Queue, a: int, b: int)
    requires a < b
    ensures Cleared(Without(q, a, b), a, b)
  {
  }

  lemma DropTwice(q: Queue, a: int, b: int, c: int, d: int)
    requires a <= b <= c <= d
    requires forall k :: k in q ==> !(b <= k < c)
    ensures Without(Without(q, a, b), c, d) == Without(q, a, d)
  {
  }

  lemma TrimmedBounds(q: Queue, g: seq<Interval>, i: int, j: int, start: int, end: int, pos: int, a: int, b: int)
    requires Separated(g) && Located(g, i, j, start, end)
    requires Trimmed(q, g, i, j, start, end, pos, a, b)
    ensures a < b && a <= g[i].end && (g[i].start < a ==> (pos != start <==> a == g[i].end))
    ensures g[j].start < g[j].end && g[j].start <= b && (b < g[j].end <==> end < g[j].end)
    ensures forall m :: i <= m < j ==> g[m].end < g[j].start
  {
    assert i < j ==> g[i].end < g[i + 1].start <= g[j].start;
  }

  /** Which frames were dropped, in one range. */
  lemma TrimmedKey(q: Queue, g: seq<Interval>, readPos: int, i: int, j: int, start: int, end: int, pos: int, a: int,
                   b: int, e: int, k: int)
    requires Separated(g) && Tiled(q, g, readPos) && Located(g, i, j, start, end)
    requires Trimmed(q, g, i, j, start, end, pos, a, b)
    requires e == if a != g[j].end && g[j].end < b then g[j].end else b
    requires k in q
    ensures a <= k < e <==> start <= k < pos || (i < j && g[i].end <= k < g[j].start)
  {
    assert g[i] in g && g[j] in g;
    assert EndOf(q, k) <= g[i].start || g[i].end <= k;
    assert EndOf(q, k) <= g[j].start || g[j].end <= k;
    assert i < j ==> g[i].end < g[i + 1].start <= g[j].start;
  }

  lemma TrimmedQueue(q: Queue, g: seq<Interval>, readPos: int, i: int, j: int, start: int, end: int, pos: int, a: int,
                     b: int, e: int)
    requires Separated(g) && Tiled(q, g, readPos) && Located(g, i, j, start, end)
    requires Trimmed(q, g, i, j, start, end, pos, a, b)
    requires e == if a != g[j].end && g[j].end < b then g[j].end else b
    ensures var p := Without(q, start, pos);
            Without(q, a, e) == if i < j then Without(p, g[i].end, g[j].start) else p
  {
    hide Separated, Tiled, Trimmed;
    forall k | k in q ensures a <= k < e <==> start <= k < pos || (i < j && g[i].end <= k < g[j].start) {
      TrimmedKey(q, g, readPos, i, j, start, end, pos, a, b, e, k);
    }
  }

  /** What is left of the frame starts at a frame or in a gap, and ends in or at a gap or at a frame. */
  lemma TrimmedLands(q: Queue, g: seq<Interval>, readPos: int, i: int, j: int, start: int, end: int, pos: int, a: int,
                     b: int, e: int)
    requires Separated(g) && Tiled(q, g, readPos) && Located(g, i, j, start, end)
    requires Trimmed(q, g, i, j, start, end, pos, a, b)
    requires e == if a != g[j].end && g[j].end < b then g[j].end else b
    ensures Lands(q, g, readPos, i, j, a, e)
    ensures start <= a < e <= b <= end && (e == end || g[j].end <= e)
  {
    assert i < j ==> g[i].end < g[i + 1].start <= g[j].start;
    assert i > 0 ==> g[0].end < g[i].start;
  }

  datatype ReplaceResult = Free | Covered | Cut

  /** The outcomes of the replacement, as ReplaceFrames promises them, are the cases of Trimmed. */
  lemma ReplaceTrims(q: Queue, g: seq<Interval>, i: int, j: int, start: int, end: int, lim: int, r: ReplaceResult,
                     pos: int)
    requires Separated(g) && Located(g, i, j, start, end)
    requires start < g[i].start ==> lim == g[i].start
    requires start == g[i].end ==> start in q && i + 1 < |g| && lim == g[i + 1].start
    requires g[i].start <= start < g[i].end ==> start !in q && lim == start
    requires r == Free ==> pos <= end && pos == if start in q then lim else start
    requires r == Cut ==> start < pos <= end && pos in q && end < EndOf(q, pos) <= lim
    requires r != Covered
    ensures Trimmed(q, g, i, j, start, end, pos,
                    if start < g[i].start && pos == start then g[i].start else start,
                    if r == Cut then pos else end)
    ensures r == Cut <==> i == j && start == g[i].end
  {
    assert i < j ==> g[i].end < g[i + 1].start <= g[j].start;
  }

  /** Frame bytes that were cut off had been received before. */
  lemma GapsAfterCut(q: Queue, g: seq<Interval>, readPos: int, i: int, j: int, start: int, end: int, a: int, b: int)
    requires Separated(g) && Located(g, i, j, start, end) && Lands(q, g, readPos, i, j, a, b)
    requires start <= a < b <= end && (a == start || a == g[i].start) && (b == end || g[j].end <= b)
    ensures Separated(Carve(g, i, j, a, b)) && |Carve(g, i, j, a, b)| <= |g| + 1
    ensures forall x :: InGap(Carve(g, i, j, a, b), x) <==> InGap(g, x) && !(start <= x < end)
  {
    CarveIsSeparated(g, i, j, a, b);
    CarveRemovesRange(g, i, j, a, b);
    if a != start { NoGapBetween(g, i, start, a); }
    if b != end { NoGapBetween(g, j + 1, b, end); }
  }

  lemma BytesAfterPush(q: Queue, a: int, b: int, entry: Entry, stream: seq<Byte>)
    requires HoldsBytesOf(q, stream) && IsPiece(stream, entry.data, a)
    ensures HoldsBytesOf(Without(q, a, b)[a := entry], stream)
  {
  }

  lemma CoveredIsReceived(q: Queue, g: seq<Interval>, readPos: int, start: int, end: int)
    requires Tiled(q, g, readPos) && start in q && end <= EndOf(q, start)
    ensures forall x :: start <= x < end ==> !InGap(g, x)
    ensures 0 <= start < EndOf(q, start) <= MAX_BYTE_COUNT
  {
  }

  /** Taking the frame at the read position away keeps the tiling from the new read position on. */
  lemma TiledAfterPop(q: Queue, g: seq<Interval>, readPos: int)
    requires Separated(g) && Tiled(q, g, readPos) && readPos in q
    ensures Tiled(q - {readPos}, g, EndOf(q, readPos))
    ensures EndOf(q, readPos) <= g[0].start < g[0].end
  {
    FirstFrameEnd(q, g, readPos);
    DisjointAfterPop(q, readPos);
    FillsAfterPop(q, g, readPos);
    ChainedAfterPop(q, g, readPos);
  }

  lemma DisjointAfterPop(q: Queue, readPos: int)
    requires Disjoint(q, readPos) && readPos in q
    ensures Disjoint(q - {readPos}, EndOf(q, readPos))
  {
  }

  lemma FillsAfterPop(q: Queue, g: seq<Interval>, readPos: int)
    requires Fills(q, g) && readPos in q && forall iv :: iv in g ==> readPos < iv.end
    ensures Fills(q - {readPos}, g)
  {
  }

  lemma ChainedAfterPop(q: Queue, g: seq<Interval>, readPos: int)
    requires Chained(q, g, readPos) && Disjoint(q, readPos) && readPos in q && EndOf(q, readPos) <= g[0].start
    requires EndOf(q, readPos) in q || EndOf(q, readPos) == g[0].start
    ensures Chained(q - {readPos}, g, EndOf(q, readPos))
  {
    var p := q - {readPos};
    forall k | k in p ensures Continues(p, g, EndOf(p, k)) {
      assert Continues(q, g, EndOf(q, k)) && readPos < EndOf(q, k);
    }
  }

  /** The first frame ends at another one or where the first gap starts. */
  lemma FirstFrameEnd(q: Queue, g: seq<Interval>, readPos: int)
    requires Separated(g) && Tiled(q, g, readPos) && readPos in q
    ensures readPos < EndOf(q, readPos) <= g[0].start < g[0].end
    ensures EndOf(q, readPos) in q || EndOf(q, readPos) == g[0].start
    ensures forall iv :: iv in g ==> g[0].start <= iv.start < iv.end
  {
    assert g[0] in g;
    assert Continues(q, g, EndOf(q, readPos));
  }

  lemma NothingAtGapStart(q: Queue, g: seq<Interval>, readPos: int)
    requires Separated(g) && Tiled(q, g, readPos)
    ensures readPos in q <==> !InGap(g, readPos)
    ensures readPos in q ==> q[readPos].data != []
    ensures |g| > 0 && 0 <= readPos < MAX_BYTE_COUNT
  {
    assert g[0] in g;
    assert 1 < |g| ==> g[0].end < g[|g| - 1].start;
  }

  /** Following the frames from `a` leads to `b`. */
  ghost predicate ChainTo(q: Queue, a: int, b: int)
    decreases b - a
  {
    a == b || (a in q && a < EndOf(q, a) <= b && ChainTo(q, EndOf(q, a), b))
  }

  lemma {:induction false} ChainExtends(q: Queue, a: int, b: int)
    requires ChainTo(q, a, b) && b in q && b < EndOf(q, b)
    ensures ChainTo(q, a, EndOf(q, b))
    decreases b - a
  {
    if a != b {
      ChainExtends(q, EndOf(q, a), b);
    }
  }

  /** The end of a frame is received, unless nothing is queued there. */
  lemma NextIsQueued(q: Queue, g: seq<Interval>, readPos: int, k: int)
    requires Separated(g) && Tiled(q, g, readPos) && k in q
    ensures k < EndOf(q, k) <= MAX_BYTE_COUNT
    ensures EndOf(q, k) in q || InGap(g, EndOf(q, k))
  {
    assert Continues(q, g, EndOf(q, k));
  }

  lemma AllNonEmpty(q: Queue, g: seq<Interval>, readPos: int)
    requires Tiled(q, g, readPos)
    ensures forall k :: k in q ==> q[k].data != []
  {
    assert forall k :: k in q ==> k < EndOf(q, k);
  }

  lemma TailOfList(head: seq<Interval>, g: seq<Interval>, j: int, end: int)
    requires 0 <= j < |g|
    ensures var l := head + g[j..];
            && l[..|head|] == head && l[|head|] == g[j] && l[|head| + 1..] == g[j + 1..]
            && RightPart(l, |head|, end) == RightPart(g, j, end)
  {
  }

  /** Data that was received before leaves the gaps alone. */
  lemma NothingNew(g: seq<Interval>, h: seq<Interval>, received: set<int>, a: int, b: int)
    requires Separated(g) && Separated(h) && Span(a, b) <= received
    requires forall x :: 0 <= x < MAX_BYTE_COUNT ==> (x in received <==> !InGap(g, x))
    requires forall x :: x in received ==> 0 <= x < MAX_BYTE_COUNT
    requires forall x :: InGap(h, x) <==> InGap(g, x) && !(a <= x < b)
    ensures g == h
  {
    assert forall x :: a <= x < b ==> x in Span(a, b);
    SameGaps(g, h);
  }

  ghost predicate IsGapEnd(g: seq<Interval>, x: int) {
    exists iv :: iv in g && iv.end == x
  }

  /** The offsets in [a, b) that lie in gaps. */
  ghost function Missing(g: seq<Interval>, a: int, b: int): set<int> {
    set x | a <= x < b && InGap(g, x)
  }

  /** The frame starts right behind a gap, where a shorter frame is queued. */
  ghost predicate Replaces(q: Queue, g: seq<Interval>, data: seq<Byte>, offset: int) {
    IsGapEnd(g, offset) && offset in q && |q[offset].data| < |data|
  }

  /** The entry for a part of a frame: a short part of a cut frame is copied, and needs no callback. */
  function Queued(piece: seq<Byte>, wasCut: bool, doneCb: Option<Callback>): Entry {
    if wasCut && |piece| < MIN_BUFFER_SIZE then Entry(piece, None, None) else Entry(piece, doneCb, doneCb)
  }

  /** The part of a frame at [a, b) contains all that is missing, replaces the queued frames under it, and keeps the
      callback of the frame, unless it is short and only a part of the frame, or the frame brings nothing new and a
      queued frame follows. */
  ghost predicate IsPart(q: Queue, q': Queue, missing: set<int>, data: seq<Byte>, offset: int,
                         doneCb: Option<Callback>, a: int, b: int) {
    && offset <= a < b <= offset + |data| && (forall x :: x in missing ==> a <= x < b)
    && (var wasCut := b - a < |data| || (missing == {} && offset + |data| in q);
        q' == Without(q, a, b)[a := Queued(data[a - offset..b - offset], wasCut, doneCb)])
  }

  ghost predicate TakesPart(q: Queue, q': Queue, missing: set<int>, data: seq<Byte>, offset: int,
                            doneCb: Option<Callback>) {
    exists a, b :: IsPart(q, q', missing, data, offset, doneCb, a, b)
  }

  lemma MakePart(q: Queue, q': Queue, missing: set<int>, data: seq<Byte>, offset: int, doneCb: Option<Callback>, a: int,
                 b: int, wasCut: bool)
    requires offset <= a < b <= offset + |data| && forall x :: x in missing ==> a <= x < b
    requires wasCut <==> b - a < |data| || (missing == {} && offset + |data| in q)
    requires q' == Without(q, a, b)[a := Queued(data[a - offset..b - offset], wasCut, doneCb)]
    ensures TakesPart(q, q', missing, data, offset, doneCb)
  {
    assert IsPart(q, q', missing, data, offset, doneCb, a, b);
  }

  /** What is missing of a frame lies in the part of it that is needed. */
  lemma PartIsEnough(q: Queue, g: seq<Interval>, readPos: int, i: int, j: int, start: int, end: int, a: int, b: int)
    requires Separated(g) && Located(g, i, j, start, end) && Lands(q, g, readPos, i, j, a, b)
    requires start <= a < b <= end && (a == start || a == g[i].start) && (b == end || g[j].end <= b)
    ensures forall x :: x in Missing(g, start, end) ==> a <= x < b
  {
    if a != start { NoGapBetween(g, i, start, a); }
    if b != end { NoGapBetween(g, j + 1, b, end); }
  }

  /** If nothing is missing, but the frame is not a duplicate, then it starts right behind a gap. */
  lemma NothingMissing(g: seq<Interval>, i: int, j: int, start: int, end: int)
    requires Separated(g) && Located(g, i, j, start, end)
    ensures Missing(g, start, end) == {} <==> start == g[i].end && (i == j || (i + 1 == j && end == g[j].start))
  {
    assert g[i] in g && g[j] in g;
    var x := Max(start, g[i].start);
    if start != g[i].end {
      assert InGap(g, x) && x in Missing(g, start, end);
    } else if i == j {
      NoGapBetween(g, j + 1, start, end);
    } else {
      assert g[j].start < end ==> InGap(g, g[j].start) && g[j].start in Missing(g, start, end);
      assert i + 1 < j ==> g[i + 1] in g && InGap(g, g[i + 1].start) && g[i + 1].start in Missing(g, start, end);
      if i + 1 == j { NoGapBetween(g, j, start, g[j].start); }
    }
  }

  /** A frame counts as cut although all of it is queued exactly if nothing is missing and a queued frame follows. */
  lemma CutMeans(q: Queue, g: seq<Interval>, readPos: int, i: int, j: int, start: int, end: int)
    requires Separated(g) && Tiled(q, g, readPos) && Located(g, i, j, start, end)
              && Lands(q, g, readPos, i, j, start, end)
    ensures i == j && start == g[i].end <==> Missing(g, start, end) == {} && end in q
  {
    hide Missing;
    NothingMissing(g, i, j, start, end);
    assert g[j] in g;
  }

  lemma NoReplacement(q: Queue, g: seq<Interval>, data: seq<Byte>, offset: int)
    requires data == [] || !IsGapEnd(g, offset) || (offset in q && |data| <= |q[offset].data|)
    ensures !Replaces(q, g, data, offset)
  {
  }

  /** A frame was placed at [a, b): what that means for its bytes and its callback. */
  lemma PartPlaced(q: Queue, q': Queue, g: seq<Interval>, readPos: int, i: int, j: int, data: seq<Byte>, offset: int,
                   doneCb: Option<Callback>, a: int, b: int, wasCut: bool)
    requires Separated(g) && Tiled(q, g, readPos) && Located(g, i, j, offset, offset + |data|)
    requires Lands(q, g, readPos, i, j, a, b) && offset <= a < b <= offset + |data|
    requires (a == offset || a == g[i].start) && (b == offset + |data| || g[j].end <= b)
    requires wasCut <==> (a, b) != (offset, offset + |data|) || (i == j && offset == g[i].end)
    requires offset in q ==> EndOf(q, offset) < offset + |data|
    requires q' == Without(q, a, b)[a := Queued(data[a - offset..b - offset], wasCut, doneCb)]
    ensures TakesPart(q, q', Missing(g, offset, offset + |data|), data, offset, doneCb)
    ensures Missing(g, offset, offset + |data|) == {} ==> Replaces(q, g, data, offset)
  {
    hide Separated, Tiled, Lands, Missing, TakesPart, Without, Queued, IsGapEnd;
    var end := offset + |data|;
    PartIsEnough(q, g, readPos, i, j, offset, end, a, b);
    if (a, b) == (offset, end) {
      CutMeans(q, g, readPos, i, j, offset, end);
    }
    MakePart(q, q', Missing(g, offset, end), data, offset, doneCb, a, b, wasCut);
    NothingMissing(g, i, j, offset, end);
    if offset == g[i].end {
      GapEnd(q, g, readPos, i);
    }
  }

  lemma GapEnd(q: Queue, g: seq<Interval>, readPos: int, i: int)
    requires Tiled(q, g, readPos) && 0 <= i < |g| && g[i].end < MAX_BYTE_COUNT
    ensures IsGapEnd(g, g[i].end) && g[i].end in q
  {
    assert g[i] in g;
  }

  lemma MissingIsNew(g: seq<Interval>, received: set<int>, a: int, b: int)
    requires 0 <= a && (a < b ==> b <= MAX_BYTE_COUNT)
    requires forall x :: 0 <= x < MAX_BYTE_COUNT ==> (x in received <==> !InGap(g, x))
    ensures Missing(g, a, b) == Span(a, b) - received
  {
  }

  lemma NotCut(data: seq<Byte>, i: int, j: int, doneCb: Option<Callback>)
    requires i == 0 && j == |data|
    ensures Queued(data[i..j], false, doneCb) == Entry(data, doneCb, doneCb)
  {
    assert data[i..j] == data;
  }

  /** If the first and the last byte are missing, the part is the whole frame. */
  lemma WholePart(q: Queue, q': Queue, missing: set<int>, data: seq<Byte>, offset: int, doneCb: Option<Callback>,
                  a: int, b: int)
    requires IsPart(q, q', missing, data, offset, doneCb, a, b)
    requires offset in missing && offset + |data| - 1 in missing
    ensures q' == Without(q, offset, offset + |data|)[offset := Entry(data, doneCb, doneCb)]
  {
    hide Without, Queued;
    NotCut(data, a - offset, b - offset, doneCb);
  }

  /** No queued frame starts where nothing was received. */
  lemma NothingQueued(q: Queue, g: seq<Interval>, readPos: int, received: set<int>, a: int, b: int)
    requires Tiled(q, g, readPos) && forall x :: 0 <= x < MAX_BYTE_COUNT ==> (x in received <==> !InGap(g, x))
    requires forall x :: a <= x < b ==> x !in received
    ensures forall k :: k in q ==> !(a <= k < b)
  {
    hide Tiled, InGap;
    forall k | k in q ensures !(a <= k < b) {
      CoveredIsReceived(q, g, readPos, k, EndOf(q, k));
      assert !InGap(g, k) && k in received;
    }
  }

  /** A frame that brings new bytes only is queued as it is. */
  lemma AllNew(q: Queue, q': Queue, g: seq<Interval>, readPos: int, received: set<int>, data: seq<Byte>, offset: int,
               doneCb: Option<Callback>)
    requires Tiled(q, g, readPos) && forall x :: 0 <= x < MAX_BYTE_COUNT ==> (x in received <==> !InGap(g, x))
    requires data != [] && Span(offset, offset + |data|) !! received
    requires TakesPart(q, q', Span(offset, offset + |data|) - received, data, offset, doneCb)
    ensures offset !in q && q' == q[offset := Entry(data, doneCb, doneCb)]
  {
    hide Without, Tiled, InGap, IsPart;
    var end := offset + |data|;
    assert forall x :: offset <= x < end ==> x in Span(offset, end);
    var a, b :| IsPart(q, q', Span(offset, end) - received, data, offset, doneCb, a, b);
    WholePart(q, q', Span(offset, end) - received, data, offset, doneCb, a, b);
    NothingQueued(q, g, readPos, received, offset, end);
    NothingUnder(q, offset, end);
  }

  lemma NothingUnder(q: Queue, a: int, b: int)
    requires forall k :: k in q ==> !(a <= k < b)
    ensures Without(q, a, b) == q
  {
  }

  ghost predicate HeldIn(q: Queue, c: Callback) {
    exists k :: k in q && q[k].doneCb == Some(c)
  }

  /** Each callback that was passed in, other than `x`, was run once, or handed out once, or is held by one entry; `x`
      and unknown ones were not touched. Bytes that lie in the buffer of a frame are queued with its callback. */
  ghost predicate Accounted(q: Queue, ran: multiset<Callback>, handedOut: multiset<Callback>, passed: set<Callback>,
                            x: Option<Callback>) {
    && (forall c :: ran[c] + handedOut[c] <= 1)
    && (forall c :: c in passed && Some(c) != x ==> (ran[c] + handedOut[c] == 1 <==> !HeldIn(q, c)))
    && (forall c :: c !in passed || Some(c) == x ==> ran[c] + handedOut[c] == 0 && !HeldIn(q, c))
    && (forall k, l :: k in q && l in q && q[k].doneCb.Some? && q[k].doneCb == q[l].doneCb ==> k == l)
    && (forall k :: k in q && q[k].buffer.Some? ==> q[k].doneCb == q[k].buffer)
  }

  /** If nothing but an entry with its callback is added, no callback was run. */
  lemma NothingRun(q: Queue, ran: multiset<Callback>, ran': multiset<Callback>, handedOut: multiset<Callback>,
                   passed: set<Callback>, offset: int, entry: Entry)
    requires Accounted(q, ran, handedOut, passed, entry.doneCb) && offset !in q
    requires Accounted(q[offset := entry], ran', handedOut, passed, None)
    ensures ran' == ran
  {
    var q' := q[offset := entry];
    forall c ensures ran'[c] == ran[c] {
      if HeldIn(q, c) {
        var k :| k in q && q[k].doneCb == Some(c);
        assert q'[k].doneCb == Some(c);
      }
      if Some(c) == entry.doneCb {
        assert q'[offset].doneCb == Some(c);
      }
    }
  }

  class Sorter {
    var queue: Queue
    var readPos: int
    var gaps: seq<Interval>

    // Effects on callbacks: how often each one was run by the sorter, or handed to the reader.
    var ran: multiset<Callback>
    var handedOut: multiset<Callback>

    // History: the offsets and the callbacks that were ever pushed.
    ghost var received: set<int>
    ghost var passed: set<Callback>

    ghost predicate Held(c: Callback)
      reads this`queue
    {
      HeldIn(queue, c)
    }

    ghost predicate Ledger(x: Option<Callback>)
      reads this`queue, this`ran, this`handedOut, this`passed
    {
      Accounted(queue, ran, handedOut, passed, x)
    }

    /** No buffer is given back while queued bytes lie in it. */
    lemma BufferInUse(k: int)
      requires Valid() && k in queue && queue[k].buffer.Some?
      ensures ran[queue[k].buffer.value] == handedOut[queue[k].buffer.value] == 0
    {
      assert Held(queue[k].buffer.value);
    }

    /** The gaps are exactly the offsets that were never received. */
    ghost predicate GapsMatch()
      reads this`gaps, this`received
    {
      && Separated(gaps)
      && (forall x :: x in received ==> 0 <= x < MAX_BYTE_COUNT)
      && (forall x :: 0 <= x < MAX_BYTE_COUNT ==> (x in received <==> !InGap(gaps, x)))
    }

    ghost predicate Valid()
      reads this
    {
      GapsMatch() && |gaps| <= MAX_GAPS && Tiled(queue, gaps, readPos) && Ledger(None)
    }

    constructor ()
      ensures Valid()
      ensures readPos == 0 && received == {} && passed == {} && queue == map[] && |gaps| == 1
      ensures ran == handedOut == multiset{}
    {
      queue := map[];
      readPos := 0;
      gaps := [Interval(0, MAX_BYTE_COUNT)];
      ran, handedOut := multiset{}, multiset{};
      received, passed := {}, {};
      new;
      forall x | 0 <= x < MAX_BYTE_COUNT ensures InGap(gaps, x) {
        assert gaps[0] in gaps;
      }
    }

    /** The first gap that contains `offset`, ends right there, or starts behind it. */
    method FindStartGap(offset: int) returns (i: int, inGap: bool)
      requires Separated(gaps)
      requires 0 <= offset
      ensures 0 <= i <= |gaps|
      ensures i == |gaps| <==> MAX_BYTE_COUNT < offset
      ensures i < |gaps| ==> offset <= gaps[i].end && (inGap <==> gaps[i].start <= offset)
      ensures i > 0 ==> gaps[i - 1].end < offset
    {
      i := 0;
      inGap := false;
      while i < |gaps|
        invariant 0 <= i <= |gaps|
        invariant i > 0 ==> gaps[i - 1].end < offset
      {
        if gaps[i].start <= offset <= gaps[i].end {
          return i, true;
        }
        if offset < gaps[i].start {
          return i, false;
        }
        i := i + 1;
      }
    }

    /** The last gap, from the one before `from` on, that starts at or before `offset`. */
    method FindEndGap(from: int, offset: int) returns (j: int, inGap: bool)
      requires Separated(gaps)
      requires 0 <= from < |gaps|
      ensures from - 1 <= j <= |gaps|
      ensures j == |gaps| <==> MAX_BYTE_COUNT <= offset
      ensures from <= j < |gaps| ==> gaps[j].start <= offset && (inGap <==> offset < gaps[j].end)
      ensures from - 1 == j ==> offset < gaps[from].start
      ensures from - 1 <= j < |gaps| - 1 ==> offset < gaps[j + 1].start
    {
      j := from;
      inGap := false;
      while j < |gaps|
        invariant from <= j <= |gaps|
        invariant j > from ==> gaps[j - 1].end <= offset
        invariant j == from || gaps[j - 1].start <= offset
      {
        if gaps[j].start <= offset < gaps[j].end {
          return j, true;
        }
        if offset < gaps[j].start {
          return j - 1, false;
        }
        j := j + 1;
      }
    }

    /** Runs the callback of an entry that is dropped. */
    method RunCallback(cb: Option<Callback>)
      modifies this`ran
      ensures ran == old(ran) + One(cb)
    {
      if cb.Some? {
        ran := ran + multiset{cb.value};
      }
    }

    /** Drops one queued frame and runs its callback. */
    method Drop(k: int, ghost x: Option<Callback>)
      requires k in queue && Ledger(x)
      modifies this`queue, this`ran
      ensures queue == map l | l in old(queue) && l != k :: old(queue)[l]
      ensures Ledger(x)
    {
      var entry := queue[k];
      queue := queue - {k};
      RunCallback(entry.doneCb);
      forall c | Some(c) != entry.doneCb ensures Held(c) <==> old(Held(c)) {
        if old(Held(c)) {
          var l :| l in old(queue) && old(queue)[l].doneCb == Some(c);
          assert l in queue;
        }
      }
    }

    /** Drops the chain of frames that starts at `pos`; it ends where the next gap begins. */
    method DeleteConsecutive(pos: int, ghost lim: int, ghost x: Option<Callback>)
      requires Ledger(x)
      requires pos == lim || pos in queue
      requires pos <= lim && IsRun(queue, pos, lim)
      modifies this`queue, this`ran
      ensures queue == Without(old(queue), pos, lim)
      ensures Ledger(x)
    {
      hide Accounted;
      var p := pos;
      while p in queue
        invariant pos <= p <= lim
        invariant queue == Without(old(queue), pos, p)
        invariant p == lim || p in queue
        invariant Ledger(x)
        decreases lim - p
      {
        var e := EndOf(queue, p);
        assert Linked(old(queue), p, lim);
        Drop(p, x);
        p := e;
      }
    }

    /** Drops the queued frames that start at `start` and lie under the new frame [start, end), until a longer one is
        met. */
    method ReplaceFrames(start: int, end: int, ghost lim: int, ghost x: Option<Callback>)
      returns (r: ReplaceResult, pos: int)
      requires Ledger(x)
      requires start < end && start <= lim && IsRun(queue, start, lim)
      requires start in queue ==> start < lim
      modifies this`queue, this`ran
      ensures queue == Without(old(queue), start, pos)
      ensures Ledger(x)
      ensures r == Covered ==> pos == start && start in queue && end <= EndOf(queue, start) && ran == old(ran)
      ensures r != Covered && start in old(queue) ==> EndOf(old(queue), start) < end
      ensures r == Free ==> pos <= end && pos == if start in old(queue) then lim else start
      ensures r == Cut ==> start < pos <= end && pos in queue && end < EndOf(queue, pos) <= lim
    {
      hide Accounted;
      pos := start;
      while pos in queue
        invariant start <= pos <= end
        invariant pos == start ==> ran == old(ran)
        invariant pos != start ==> start in old(queue) && EndOf(old(queue), start) < end
        invariant queue == Without(old(queue), start, pos)
        invariant if start in old(queue) then pos <= lim && (pos == lim || pos in queue) else pos == start
        invariant Ledger(x)
        decreases lim - pos
      {
        var oldLen := |queue[pos].data|;
        assert Linked(old(queue), pos, lim);
        if end - pos > oldLen || (pos != start && end - pos == oldLen) {
          Drop(pos, x);
          pos := pos + oldLen;
        } else {
          r := if pos == start then Covered else Cut;
          return;
        }
      }
      r := Free;
    }

    /** Shortens, removes or keeps the gap the new frame starts in; `next` is where the following gap is now. */
    method EditStartGap(start: int, end: int, i: int, replaced: bool) returns (next: int, adjusted: bool)
      requires 0 <= i < |gaps| && start < end && start <= gaps[i].end
      requires replaced && gaps[i].start < start ==> start == gaps[i].end
      modifies this`gaps
      ensures end >= old(gaps)[i].end || old(gaps)[i].start < start ==>
                && next == i + |LeftPart(old(gaps), i, start)|
                && gaps == old(gaps)[..i] + LeftPart(old(gaps), i, start) + old(gaps)[i + 1..]
      ensures start <= old(gaps)[i].start ==>
                gaps == old(gaps)[..i] + RightPart(old(gaps), i, end) + old(gaps)[i + 1..]
      ensures adjusted <==> old(gaps)[i].start < start && !replaced
    {
      adjusted := false;
      next := i + 1;
      if start <= gaps[i].start {
        if end >= gaps[i].end {
          gaps := gaps[..i] + gaps[i + 1..];
          next := i;
        } else {
          gaps := gaps[i := Interval(end, gaps[i].end)];
        }
      } else if !replaced {
        gaps := gaps[i := Interval(gaps[i].start, start)];
        adjusted := true;
      }
    }

    /** Removes a gap that the new frame covers, with the run of frames behind it. */
    method DropGap(next: int, ghost q: Queue, ghost from: int, ghost g: seq<Interval>, ghost m: int,
                   ghost x: Option<Callback>)
      requires Ledger(x)
      requires 0 <= next < |gaps| && 0 <= m < |g| - 1 && gaps[next] == g[m]
      requires RunBehind(q, g, m, g[m + 1].start) && from <= g[m].start
      requires queue == Without(q, from, g[m].start)
      modifies this`queue, this`ran, this`gaps
      ensures gaps == old(gaps)[..next] + old(gaps)[next + 1..]
      ensures queue == Without(q, from, g[m + 1].start)
      ensures Ledger(x)
    {
      hide Accounted;
      RunAfterDrop(q, from, g[m].start, g[m].end, g[m + 1].start);
      DropTwice(q, from, g[m].start, g[m].end, g[m + 1].start);
      DeleteConsecutive(gaps[next].end, g[m + 1].start, x);
      gaps := gaps[..next] + gaps[next + 1..];
    }

    /** Removes the gaps strictly between gap `i` and gap `j` of the original list `g`, and the frames between them. */
    method DropBetween(next: int, startGapEnd: int, endGapStart: int,
                       ghost g: seq<Interval>, ghost i: int, ghost j: int, ghost x: Option<Callback>)
      requires Ledger(x)
      requires 0 <= i < j < |g| && g[j].start < g[j].end
      requires forall m :: i < m < j ==> g[m].end < g[j].start
      requires forall m {:trigger RunBehind(queue, g, m, g[j].start)} :: i < m < j ==>
                 RunBehind(queue, g, m, g[j].start)
      requires RunBehind(queue, g, i, g[j].start) || Cleared(queue, g[i].end, g[i + 1].start)
      requires 0 <= next <= |gaps| && gaps == gaps[..next] + g[i + 1..]
      requires startGapEnd == g[i].end && endGapStart == g[j].start
      modifies this`queue, this`ran, this`gaps
      ensures gaps == old(gaps)[..next] + g[j..]
      ensures queue == Without(old(queue), g[i].end, g[j].start)
      ensures Ledger(x)
    {
      hide Accounted;
      ghost var q, m := queue, i + 1;
      DeleteConsecutive(startGapEnd, if g[i].end in queue then g[m].start else g[i].end, x);
      assert queue == Without(q, g[i].end, g[m].start);
      while gaps[next].end < endGapStart
        invariant i < m <= j && next <= |gaps|
        invariant gaps == old(gaps)[..next] + g[m..]
        invariant queue == Without(q, g[i].end, g[m].start)
        invariant g[i].end <= g[m].start
        invariant Ledger(x)
        decreases j - m
      {
        assert gaps[next] == g[m] && m < j;
        assert RunBehind(q, g, m, g[j].start);
        OneGapLess(old(gaps)[..next], g, m);
        DropGap(next, q, g[i].end, g, m, x);
        m := m + 1;
      }
    }

    /** Shortens or removes the gap the new frame ends in. */
    method EditEndGap(next: int, end: int)
      requires 0 <= next < |gaps| && end <= gaps[next].end
      modifies this`gaps
      ensures gaps == old(gaps)[..next] + RightPart(old(gaps), next, end) + old(gaps)[next + 1..]
    {
      if end == gaps[next].end {
        gaps := gaps[..next] + gaps[next + 1..];
      } else {
        gaps := gaps[next := Interval(end, gaps[next].end)];
      }
    }

    /** Takes [start, end) out of the gaps `i` to `j` and drops the frames between them; a frame that reaches behind
        gap `j` is cut there. */
    method CloseGaps(start: int, end: int, i: int, j: int, replaced: bool, endsInGap: bool, ghost x: Option<Callback>)
      returns (newEnd: int)
      requires Ledger(x)
      requires 0 <= i <= j < |gaps| && start < end
      requires start <= gaps[i].end && (gaps[i].start < start ==> (replaced <==> start == gaps[i].end))
      requires forall m :: i <= m < j ==> gaps[m].end < gaps[j].start
      requires gaps[j].start < gaps[j].end && gaps[j].start <= end && (endsInGap <==> end < gaps[j].end)
      requires forall m {:trigger RunBehind(queue, gaps, m, gaps[j].start)} :: i < m < j ==>
                 RunBehind(queue, gaps, m, gaps[j].start)
      requires i < j ==> RunBehind(queue, gaps, i, gaps[j].start) || Cleared(queue, gaps[i].end, gaps[i + 1].start)
      modifies this`queue, this`ran, this`gaps
      ensures newEnd == if start != old(gaps)[j].end && old(gaps)[j].end < end then old(gaps)[j].end else end
      ensures gaps == Carve(old(gaps), i, j, start, newEnd)
      ensures queue == if i < j then Without(old(queue), old(gaps)[i].end, old(gaps)[j].start) else old(queue)
      ensures Ledger(x)
    {
      hide RunBehind, Cleared, Ledger;
      ghost var g := gaps;
      var startGapEnd, endGapStart, endGapEnd := gaps[i].end, gaps[j].start, gaps[j].end;
      var next, adjusted := EditStartGap(start, end, i, replaced);
      newEnd := if !endsInGap && start != endGapEnd && end > endGapEnd then endGapEnd else end;
      if i == j {
        if newEnd != endGapEnd && adjusted {
          // the frame split the gap into two
          gaps := gaps[..i + 1] + [Interval(newEnd, startGapEnd)] + gaps[i + 1..];
        }
      } else {
        ghost var head := g[..i] + LeftPart(g, i, start);
        assert gaps[..next] == head && gaps == head + g[i + 1..];
        DropBetween(next, startGapEnd, endGapStart, g, i, j, x);
        TailOfList(head, g, j, newEnd);
        EditEndGap(next, newEnd);
      }
    }

    /** Makes room for the frame [start, end): drops the frames it replaces and closes gaps; the frame is cut to the
        part that is needed, unless one queued frame covers it. */
    method Place(start: int, end: int, i: int, j: int, startsInGap: bool, endsInGap: bool, ghost x: Option<Callback>)
      returns (covered: bool, a: int, b: int, wasCut: bool)
      requires Separated(gaps) && Tiled(queue, gaps, readPos) && Ledger(x)
      requires Located(gaps, i, j, start, end)
      requires (startsInGap <==> gaps[i].start <= start) && (endsInGap <==> end < gaps[j].end)
      modifies this`queue, this`gaps, this`ran
      ensures covered ==>
                && queue == old(queue) && gaps == old(gaps) && ran == old(ran) && start in queue
                && end <= EndOf(queue, start)
      ensures !covered ==>
                && start <= a < b <= end
                && Lands(old(queue), old(gaps), readPos, i, j, a, b)
                && (a == start || a == old(gaps)[i].start)
                && (b == end || old(gaps)[j].end <= b)
                && gaps == Carve(old(gaps), i, j, a, b)
                && queue == Without(old(queue), a, b)
                && (start in old(queue) ==> EndOf(old(queue), start) < end)
                && (wasCut <==> (a, b) != (start, end) || (i == j && start == old(gaps)[i].end))
      ensures Ledger(x)
    {
      hide Tiled, Separated, IsRun, Lands, RunBehind, Cleared, Carve, LeftPart, RightPart, Trimmed, Continues;
      ghost var g, q := gaps, queue;
      ghost var lim := StartRun(q, g, readPos, i, j, start, end);
      var rr, pos := ReplaceFrames(start, end, lim, x);
      covered, a, b, wasCut := rr == Covered, start, end, false;
      if covered {
        assert queue == q;
        return;
      }
      if rr == Cut { b, wasCut := pos, true; }
      var replaced := pos != start;
      if !startsInGap && !replaced { a, wasCut := gaps[i].start, true; }
      ReplaceTrims(q, g, i, j, start, end, lim, rr, pos);
      TrimmedRuns(q, g, readPos, i, j, start, end, pos, a, b);
      TrimmedBounds(q, g, i, j, start, end, pos, a, b);
      var e := CloseGaps(a, b, i, j, replaced, endsInGap, x);
      TrimmedQueue(q, g, readPos, i, j, start, end, pos, a, b, e);
      TrimmedLands(q, g, readPos, i, j, start, end, pos, a, b, e);
      wasCut := wasCut || e != b;
      b := e;
    }

    /** Runs the callback of the frame that is being pushed. */
    method RunPending(cb: Option<Callback>)
      requires Ledger(cb) && (cb.Some? ==> cb.value in passed)
      modifies this`ran
      ensures Ledger(None) && ran == old(ran) + One(cb)
    {
      RunCallback(cb);
    }

    method Store(start: int, entry: Entry)
      requires start !in queue && Ledger(entry.doneCb) && (entry.doneCb.Some? ==> entry.doneCb.value in passed)
      requires entry.buffer.Some? ==> entry.doneCb == entry.buffer
      modifies this`queue
      ensures queue == old(queue)[start := entry]
      ensures Ledger(None)
    {
      assert entry.doneCb.Some? ==> !Held(entry.doneCb.value);
      queue := queue[start := entry];
      forall c ensures Held(c) <==> old(Held(c)) || entry.doneCb == Some(c) {
        if old(Held(c)) {
          var l :| l in old(queue) && old(queue)[l].doneCb == Some(c);
          assert l in queue;
        }
        if entry.doneCb == Some(c) {
          assert start in queue;
        }
      }
    }

    /** Finds the gaps a frame starts and ends in, or that nothing of it is missing. */
    method Locate(start: int, end: int) returns (r: PushResult, i: int, j: int, startsInGap: bool, endsInGap: bool)
      requires Separated(gaps) && 0 <= start < end
      ensures r != TooManyGaps
      ensures r == Panic <==> MAX_BYTE_COUNT <= end
      ensures r == Duplicate ==> (forall x :: start <= x < end ==> !InGap(gaps, x)) && !IsGapEnd(gaps, start)
      ensures r == Pushed ==> Located(gaps, i, j, start, end)
      ensures r == Pushed ==> (startsInGap <==> gaps[i].start <= start) && (endsInGap <==> end < gaps[j].end)
    {
      i, j, startsInGap, endsInGap := 0, 0, false, false;
      if end <= gaps[0].start {
        NoGapBetween(gaps, 0, start, end);
        return Duplicate, i, j, startsInGap, endsInGap;
      }
      i, startsInGap := FindStartGap(start);
      if i == |gaps| {
        return Panic, i, j, startsInGap, endsInGap;
      }
      j, endsInGap := FindEndGap(i, end);
      if j == |gaps| {
        return Panic, i, j, startsInGap, endsInGap;
      }
      if (i == j && end <= gaps[i].start) || (i != j && gaps[i].end >= gaps[j].start && end <= gaps[i].start) {
        NoGapBetween(gaps, i, start, end);
        return Duplicate, i, j, startsInGap, endsInGap;
      }
      r := Pushed;
    }

    /** The core of Push, for a callback that is registered but not placed yet. */
    method Insert(data: seq<Byte>, offset: int, doneCb: Option<Callback>, ghost stream: seq<Byte>)
        returns (r: PushResult)
      requires Separated(gaps) && Tiled(queue, gaps, readPos)
      requires Ledger(doneCb) && (doneCb.Some? ==> doneCb.value in passed)
      requires 0 <= offset
      modifies this`queue, this`gaps, this`ran
      ensures r == Panic <==> |data| > 0 && MAX_BYTE_COUNT <= offset + |data|
      ensures r == Panic || r == Duplicate ==> queue == old(queue) && gaps == old(gaps) && ran == old(ran)
      ensures r == Duplicate ==> forall x :: offset <= x < offset + |data| ==> !InGap(gaps, x)
      ensures r == Pushed || r == TooManyGaps ==>
                && Separated(gaps) && |gaps| <= |old(gaps)| + 1
                && (forall x :: InGap(gaps, x) <==> old(InGap(gaps, x)) && !(offset <= x < offset + |data|))
                && (r == TooManyGaps <==> MAX_GAPS < |gaps|)
      ensures r == Duplicate ==> !Replaces(old(queue), old(gaps), data, offset)
      ensures r == Pushed ==> Tiled(queue, gaps, readPos) && Ledger(None)
      ensures r == Pushed && Missing(old(gaps), offset, offset + |data|) == {} ==>
                Replaces(old(queue), old(gaps), data, offset)
      ensures r == Pushed ==>
                TakesPart(old(queue), queue, Missing(old(gaps), offset, offset + |data|), data, offset, doneCb)
      ensures r == Pushed && IsPiece(stream, data, offset) && old(HoldsBytesOf(queue, stream)) ==>
                HoldsBytesOf(queue, stream)
    {
      hide Tiled, Separated, Lands, Carve, Located, InGap, HoldsBytesOf, IsPiece, Ledger, Missing, IsGapEnd, TakesPart,
           IsPart, Replaces, Queued, Without;
      if |data| == 0 {
        NoReplacement(queue, gaps, data, offset);
        return Duplicate;
      }
      ghost var g, q := gaps, queue;
      var start, end := offset, offset + |data|;
      var i, j, startsInGap, endsInGap;
      r, i, j, startsInGap, endsInGap := Locate(start, end);
      if r != Pushed {
        if r == Duplicate {
          NoReplacement(q, g, data, offset);
        }
        return;
      }
      var covered, a, b, wasCut := Place(start, end, i, j, startsInGap, endsInGap, doneCb);
      if covered {
        CoveredIsReceived(q, g, readPos, start, end);
        NoReplacement(q, g, data, offset);
        return Duplicate;
      }
      GapsAfterCut(q, g, readPos, i, j, start, end, a, b);
      r := Enqueue(data[a - offset..b - offset], a, wasCut, doneCb, q, g, i, j, stream);
      if r == Pushed {
        PartPlaced(q, queue, g, readPos, i, j, data, offset, doneCb, a, b, wasCut);
      }
      if IsPiece(stream, data, offset) {
        PieceOfPiece(stream, data, offset, a - offset, b - offset);
      }
    }

    /** Queues the part of a frame that was placed at `a`, unless there are too many gaps now. A small part was
        copied, so that the callback runs at once. */
    method Enqueue(piece: seq<Byte>, a: int, wasCut: bool, doneCb: Option<Callback>,
                   ghost q: Queue, ghost g: seq<Interval>, ghost i: int, ghost j: int, ghost stream: seq<Byte>)
        returns (r: PushResult)
      requires Separated(g) && Tiled(q, g, readPos) && Lands(q, g, readPos, i, j, a, a + |piece|) && piece != []
      requires gaps == Carve(g, i, j, a, a + |piece|) && queue == Without(q, a, a + |piece|)
      requires Ledger(doneCb) && (doneCb.Some? ==> doneCb.value in passed)
      modifies this`queue, this`ran
      ensures r == if MAX_GAPS < |gaps| then TooManyGaps else Pushed
      ensures r == Pushed ==> Tiled(queue, gaps, readPos) && Ledger(None)
      ensures r == Pushed ==> queue == Without(q, a, a + |piece|)[a := Queued(piece, wasCut, doneCb)]
      ensures r == Pushed && IsPiece(stream, piece, a) && HoldsBytesOf(q, stream) ==> HoldsBytesOf(queue, stream)
    {
      hide Tiled, Separated, Lands, Carve, InGap, HoldsBytesOf, IsPiece, Ledger;
      var cb, buffer := doneCb, doneCb;
      if wasCut && |piece| < MIN_BUFFER_SIZE {
        // the bytes are copied
        buffer := None;
        RunPending(cb);
        cb := None;
      }
      if |gaps| > MAX_GAPS {
        return TooManyGaps;
      }
      TiledAfterPush(q, g, readPos, i, j, a, a + |piece|, Entry(piece, cb, buffer));
      Store(a, Entry(piece, cb, buffer));
      if IsPiece(stream, piece, a) && HoldsBytesOf(q, stream) {
        BytesAfterPush(q, a, a + |piece|, Entry(piece, cb, buffer), stream);
      }
      r := Pushed;
    }

    /** Enters the callback of a new frame into the books. */
    ghost method Register(cb: Option<Callback>)
      requires Ledger(None) && (cb.Some? ==> cb.value !in passed)
      modifies this`passed
      ensures passed == old(passed) + (if cb.Some? then {cb.value} else {})
      ensures Ledger(cb)
    {
      passed := passed + (if cb.Some? then {cb.value} else {});
    }

    lemma GapLimit()
      requires Valid()
      ensures |gaps| <= MAX_GAPS
    {
    }

    /** Pushes a frame. It panics exactly for frames that end at or behind the largest offset. Otherwise its range,
        and nothing else, is marked as received, and unless this leaves too many gaps the frame is queued; the bytes
        of any stream that the queued frames and the new frame are pieces of stay right. */
    method Push(data: seq<Byte>, offset: int, doneCb: Option<Callback>, ghost stream: seq<Byte>) returns (r: PushResult)
      requires Valid() && 0 <= offset
      requires doneCb.Some? ==> doneCb.value !in passed
      modifies this
      ensures readPos == old(readPos) && handedOut == old(handedOut)
      ensures r != Duplicate
      ensures r == Panic <==> |data| > 0 && MAX_BYTE_COUNT <= offset + |data|
      ensures r == Panic ==> unchanged(`queue) && unchanged(`gaps) && unchanged(`received) && unchanged(`ran)
      ensures r != Panic ==> GapsMatch() && |gaps| <= |old(gaps)| + 1
      ensures r != Panic ==> received == old(received) + Span(offset, offset + |data|)
      ensures r != Panic ==> (r == TooManyGaps <==> MAX_GAPS < |gaps|)
      ensures r != Panic && Span(offset, offset + |data|) <= old(received) ==> r == Pushed && gaps == old(gaps)
      ensures passed == old(passed) + (if doneCb.Some? then {doneCb.value} else {})
      ensures r == Pushed ==> Valid()
      ensures r == Pushed
                && Span(offset, offset + |data|) <= old(received) && !Replaces(old(queue), old(gaps), data, offset) ==>
                queue == old(queue) && ran == old(ran) + One(doneCb)
      ensures r == Pushed
                && !(Span(offset, offset + |data|) <= old(received)
                    && !Replaces(old(queue), old(gaps), data, offset)) ==>
                TakesPart(old(queue), queue, Span(offset, offset + |data|) - old(received), data, offset, doneCb)
      ensures r == Pushed && data != [] && Span(offset, offset + |data|) !! old(received) ==>
                queue == old(queue)[offset := Entry(data, doneCb, doneCb)] && ran == old(ran)
      ensures r == Pushed && IsPiece(stream, data, offset) && old(HoldsBytesOf(queue, stream)) ==>
                HoldsBytesOf(queue, stream)
    {
      hide Tiled, Separated, HoldsBytesOf, IsPiece, Accounted, InGap, Missing, TakesPart;
      Register(doneCb);
      assert Accounted(old(queue), old(ran), handedOut, passed, doneCb);
      r := Insert(data, offset, doneCb, stream);
      if r != Panic {
        MissingIsNew(old(gaps), old(received), offset, offset + |data|);
      }
      if r == Pushed && data != [] && Span(offset, offset + |data|) !! old(received) {
        AllNew(old(queue), queue, old(gaps), readPos, old(received), data, offset, doneCb);
        NothingRun(old(queue), old(ran), ran, handedOut, passed, offset, Entry(data, doneCb, doneCb));
      }
      if r == Duplicate {
        RunPending(doneCb);
        r := Pushed;
      }
      if r != Panic {
        MarkReceived(old(gaps), offset, offset + |data|);
      }
    }

    /** Records that [a, b) was received, which the gaps say already. */
    ghost method MarkReceived(g: seq<Interval>, a: int, b: int)
      requires Separated(g) && Separated(gaps) && 0 <= a && (a < b ==> b <= MAX_BYTE_COUNT)
      requires forall x :: 0 <= x < MAX_BYTE_COUNT ==> (x in received <==> !InGap(g, x))
      requires forall x :: x in received ==> 0 <= x < MAX_BYTE_COUNT
      requires forall x :: InGap(gaps, x) <==> InGap(g, x) && !(a <= x < b)
      modifies this`received
      ensures received == old(received) + Span(a, b) && GapsMatch()
      ensures Span(a, b) <= old(received) ==> gaps == g
    {
      hide Separated, InGap;
      if Span(a, b) <= received {
        NothingNew(g, gaps, received, a, b);
      }
      received := received + Span(a, b);
    }

    /** Takes a frame out of the queue and passes it on with its callback. */
    method HandOut(k: int) returns (data: seq<Byte>, doneCb: Option<Callback>)
      requires k in queue && Ledger(None)
      modifies this`queue, this`handedOut
      ensures data == old(queue)[k].data && doneCb == old(queue)[k].doneCb
      ensures queue == old(queue) - {k}
      ensures handedOut == old(handedOut) + One(doneCb)
      ensures Ledger(None)
    {
      data, doneCb := queue[k].data, queue[k].doneCb;
      queue := queue - {k};
      if doneCb.Some? {
        handedOut := handedOut + multiset{doneCb.value};
      }
      forall c | Some(c) != doneCb ensures Held(c) <==> old(Held(c)) {
        if old(Held(c)) {
          var l :| l in old(queue) && old(queue)[l].doneCb == Some(c);
          assert l in queue;
        }
      }
    }

    /** Hands out the frame at the read position; its bytes are the next ones of the stream. */
    method Pop(ghost stream: seq<Byte>)
      returns (offset: int, data: seq<Byte>, doneCb: Option<Callback>, panicked: bool, ghost buffer: Option<Callback>)
      requires Valid()
      modifies this`queue, this`readPos, this`handedOut
      ensures Valid() && !panicked
      ensures offset == old(readPos) && readPos == old(readPos) + |data|
      ensures data == [] <==> old(readPos) !in old(received)
      ensures forall x :: offset <= x < readPos ==> x in received
      ensures data == [] ==> doneCb == None && unchanged(this)
      ensures data != [] ==>
                  queue == old(queue) - {old(readPos)} && old(readPos) in old(queue)
                  && Entry(data, doneCb, buffer) == old(queue)[old(readPos)] && (buffer.Some? ==> doneCb == buffer)
      ensures handedOut == old(handedOut) + One(doneCb)
      ensures old(HoldsBytesOf(queue, stream)) ==>
                  HoldsBytesOf(queue, stream) && (data != [] ==> IsPiece(stream, data, offset))
    {
      hide Tiled, Separated, InGap;
      NothingAtGapStart(queue, gaps, readPos);
      panicked := false;
      offset := readPos;
      if readPos !in queue {
        return offset, [], None, false, None;
      }
      TiledAfterPop(queue, gaps, readPos);
      CoveredIsReceived(queue, gaps, readPos, readPos, EndOf(queue, readPos));
      buffer := queue[readPos].buffer;
      data, doneCb := HandOut(readPos);
      readPos := readPos + |data|;
      if gaps[0].end <= readPos {
        panicked := true;
      }
    }

    method HasMoreData() returns (r: bool)
      requires Valid()
      ensures r <==> exists x :: readPos <= x && x in received
    {
      r := queue != map[];
      if x :| readPos <= x && x in received {
        ghost var k := TiledCovers(queue, gaps, readPos, x);
      }
      if r {
        ghost var k := SomeMember(queue.Keys);
        CoveredIsReceived(queue, gaps, readPos, k, EndOf(queue, k));
        assert k in received;
      }
    }

    /** Copies bytes from consecutive frames, the last of which starts at `last`. */
    method CopyOut(offset: int, n: nat, ghost last: int, ghost stream: seq<Byte>) returns (copied: seq<Byte>)
      requires forall k :: k in queue ==> queue[k].data != []
      requires ChainTo(queue, offset, last) && last in queue && last < offset + n <= EndOf(queue, last)
      ensures |copied| == n
      ensures HoldsBytesOf(queue, stream) ==> IsPiece(stream, copied, offset)
    {
      var pos := offset;
      copied := [];
      while |copied| < n
        invariant |copied| <= n
        invariant |copied| < n ==> pos == offset + |copied| && ChainTo(queue, pos, last)
        invariant HoldsBytesOf(queue, stream) && copied != [] ==> IsPiece(stream, copied, offset)
        decreases n - |copied|
      {
        var entry := queue[pos];
        var m := Min(|entry.data|, n - |copied|);
        if HoldsBytesOf(queue, stream) {
          PieceOfPiece(stream, entry.data, pos, 0, m);
          if copied == [] {
            assert copied + entry.data[0..m] == entry.data[0..m];
          } else {
            PieceConcat(stream, copied, entry.data[0..m], offset);
          }
        }
        copied := copied + entry.data[0..m];
        pos := pos + |entry.data|;
      }
    }

    /** Copies `n` bytes from `offset` on without removing them; it succeeds exactly if a frame starts there and all
        the bytes were received. */
    method Peek(offset: int, n: nat, ghost stream: seq<Byte>) returns (p: Option<seq<Byte>>)
      requires Valid()
      ensures p.Some? <==> n == 0 || (offset in queue && forall x :: offset <= x < offset + n ==> x in received)
      ensures offset == readPos ==> (p.Some? <==> forall x :: offset <= x < offset + n ==> x in received)
      ensures p.Some? ==> |p.value| == n
      ensures p.Some? && 0 < n && HoldsBytesOf(queue, stream) ==> IsPiece(stream, p.value, offset)
    {
      if n == 0 {
        return Some([]);
      }
      hide Tiled, Separated, InGap, Ledger, ChainTo;
      NothingAtGapStart(queue, gaps, readPos);
      // first, check that enough consecutive data is available
      var pos := FindLast(offset, n);
      if pos.None? {
        return None;
      }
      AllNonEmpty(queue, gaps, readPos);
      var copied := CopyOut(offset, n, pos.value, stream);
      p := Some(copied);
    }

    /** Finds the frame that has the last of `n` bytes from `offset` on, if a frame starts there and the bytes were all
        received. */
    method FindLast(offset: int, n: int) returns (last: Option<int>)
      requires Valid() && 0 < n
      ensures last.Some? <==> offset in queue && forall x :: offset <= x < offset + n ==> x in received
      ensures last.Some? ==>
                && ChainTo(queue, offset, last.value) && last.value in queue
                && last.value < offset + n <= EndOf(queue, last.value)
    {
      hide Tiled, Separated, InGap, Ledger;
      NothingAtGapStart(queue, gaps, readPos);
      var pos, remaining := offset, n;
      while remaining > 0
        invariant 0 < remaining && pos + remaining == offset + n && offset <= pos
        invariant pos == offset || (offset in queue && (pos in queue || InGap(gaps, pos)))
        invariant ChainTo(queue, offset, pos)
        invariant forall x :: offset <= x < pos ==> x in received
        decreases remaining
      {
        if pos !in queue {
          assert pos != offset ==> pos !in received;
          return None;
        }
        NextIsQueued(queue, gaps, readPos, pos);
        CoveredIsReceived(queue, gaps, readPos, pos, EndOf(queue, pos));
        if remaining <= |queue[pos].data| {
          break;
        }
        ChainExtends(queue, offset, pos);
        remaining := remaining - |queue[pos].data|;
        pos := pos + |queue[pos].data|;
      }
      return Some(pos);
    }
  }
}
