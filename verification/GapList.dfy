// The ordered list of byte ranges that a frame sorter has not received yet, and the geometry of the queued frames
// that lie between them.
module GapList {
  import opened Protocol

  datatype Interval = Interval(start: int, end: int)

  /** Non-empty ranges in increasing order with received bytes between any two of them. */
  predicate Ordered(g: seq<Interval>) {
    && (forall i :: 0 <= i < |g| ==> 0 <= g[i].start < g[i].end)
    && (forall i, j :: 0 <= i < j < |g| ==> g[i].end < g[j].start)
  }

  /** An ordered list whose last range reaches to the largest offset. */
  predicate Separated(g: seq<Interval>) {
    |g| > 0 && g[|g| - 1].end == MAX_BYTE_COUNT && Ordered(g)
  }

  ghost predicate InGap(g: seq<Interval>, x: int) {
    exists iv :: iv in g && iv.start <= x < iv.end
  }

  ghost predicate IsGapStart(g: seq<Interval>, x: int) {
    exists iv :: iv in g && iv.start == x
  }

  ghost function LeftPart(g: seq<Interval>, i: int, a: int): seq<Interval>
    requires 0 <= i < |g|
  {
    if g[i].start < a then [Interval(g[i].start, a)] else []
  }

  ghost function RightPart(g: seq<Interval>, j: int, b: int): seq<Interval>
    requires 0 <= j < |g|
  {
    if b < g[j].end then [Interval(b, g[j].end)] else []
  }

  /** The list after [a, b) was received, where a lies in or right before gap `i` and b in or right behind gap `j`. */
  ghost function Carve(g: seq<Interval>, i: int, j: int, a: int, b: int): seq<Interval>
    requires 0 <= i <= j < |g|
  {
    g[..i] + LeftPart(g, i, a) + RightPart(g, j, b) + g[j + 1..]
  }

  /** Where a new frame may start and end, relative to the gaps it was matched with. */
  ghost predicate Fits(g: seq<Interval>, i: int, j: int, a: int, b: int) {
    && 0 <= i <= j < |g|
    && 0 <= a < b < MAX_BYTE_COUNT
    && a <= g[i].end
    && (i > 0 ==> g[i - 1].end < a)
    && g[j].start <= b
    && (j + 1 < |g| ==> b < g[j + 1].start)
  }

  lemma OrderedConcat(p: seq<Interval>, q: seq<Interval>)
    requires Ordered(p) && Ordered(q)
    requires p != [] && q != [] ==> p[|p| - 1].end < q[0].start
    ensures Ordered(p + q)
  {
    if p != [] && q != [] {
      assert forall i :: 0 <= i < |p| ==> p[i].end <= p[|p| - 1].end;
      assert forall i :: 0 <= i < |q| ==> q[0].start <= q[i].start;
    }
  }

  lemma SeparatedConcat(p: seq<Interval>, q: seq<Interval>)
    requires Ordered(p) && Separated(q)
    requires p != [] ==> p[|p| - 1].end < q[0].start
    ensures Separated(p + q)
  {
    OrderedConcat(p, q);
  }

  lemma CarveHeadTail(g: seq<Interval>, i: int, j: int, a: int, b: int)
    requires 0 <= i <= j < |g|
    ensures Carve(g, i, j, a, b) == (g[..i] + LeftPart(g, i, a)) + (RightPart(g, j, b) + g[j + 1..])
    ensures |Carve(g, i, j, a, b)| <= |g| + 1
  {
  }

  lemma OrderedSuffix(g: seq<Interval>, k: int)
    requires Ordered(g)
    requires 0 <= k <= |g|
    ensures Ordered(g[k..])
  {
    var t := g[k..];
    assert forall i :: 0 <= i < |t| ==> t[i] == g[k + i];
  }

  lemma HeadIsOrdered(g: seq<Interval>, i: int, a: int)
    requires Ordered(g)
    requires 0 <= i < |g| && (i > 0 ==> g[i - 1].end < a)
    ensures var h := g[..i] + LeftPart(g, i, a); Ordered(h) && (h != [] ==> h[|h| - 1].end <= a)
  {
    OrderedConcat(g[..i], LeftPart(g, i, a));
  }

  lemma TailIsOrdered(g: seq<Interval>, j: int, b: int)
    requires Separated(g)
    requires 0 <= j < |g| && 0 <= b < MAX_BYTE_COUNT && (j + 1 < |g| ==> b < g[j + 1].start)
    ensures var t := RightPart(g, j, b) + g[j + 1..];
            Separated(t) && b <= t[0].start
  {
    var r, t := RightPart(g, j, b), g[j + 1..];
    OrderedSuffix(g, j + 1);
    OrderedConcat(r, t);
    assert r + t != [] by { assert j + 1 == |g| ==> r != []; }
  }

  /** Carving keeps the list well formed and adds at most one range. */
  lemma CarveIsSeparated(g: seq<Interval>, i: int, j: int, a: int, b: int)
    requires Separated(g)
    requires Fits(g, i, j, a, b)
    ensures Separated(Carve(g, i, j, a, b))
    ensures |Carve(g, i, j, a, b)| <= |g| + 1
  {
    HeadIsOrdered(g, i, a);
    TailIsOrdered(g, j, b);
    var head, tail := g[..i] + LeftPart(g, i, a), RightPart(g, j, b) + g[j + 1..];
    SeparatedConcat(head, tail);
    CarveHeadTail(g, i, j, a, b);
  }

  /** The gaps in front of gap `i` end before a, and those behind gap `j` start behind b. */
  lemma OuterGaps(g: seq<Interval>, i: int, j: int, a: int, b: int)
    requires Separated(g) && Fits(g, i, j, a, b)
    ensures forall iv :: iv in g[..i] ==> iv.end < a && iv.end < g[i].start
    ensures forall iv :: iv in g[j + 1..] ==> b < iv.start && g[j].end < iv.start
  {
    forall iv | iv in g[..i] ensures iv.end < a && iv.end < g[i].start {
      var n :| 0 <= n < i && g[n] == iv;
      assert n < i - 1 ==> g[n].end < g[i - 1].start;
    }
    forall iv | iv in g[j + 1..] ensures b < iv.start && g[j].end < iv.start {
      var n :| j < n < |g| && g[n] == iv;
      assert j + 1 < n ==> g[j + 1].end < g[n].start;
    }
  }

  lemma MiddleGaps(g: seq<Interval>, i: int, j: int)
    requires Ordered(g) && 0 <= i <= j < |g|
    ensures forall iv :: iv in g[i..j + 1] ==> iv == g[i] || g[i].end < iv.start
    ensures forall iv :: iv in g[i..j + 1] ==> iv == g[j] || iv.end < g[j].start
    ensures g[i] in g[i..j + 1] && g[j] in g[i..j + 1]
  {
    var m := g[i..j + 1];
    forall iv | iv in m ensures (iv == g[i] || g[i].end < iv.start) && (iv == g[j] || iv.end < g[j].start) {
      var n :| 0 <= n < |m| && m[n] == iv;
      assert 0 < n ==> g[i].end < g[i + n].start;
      assert n < j - i ==> g[i + n].end < g[j].start;
    }
    assert m[0] == g[i] && m[j - i] == g[j];
  }

  /** Which ranges survive. */
  lemma CarveMembers(g: seq<Interval>, i: int, j: int, a: int, b: int, iv: Interval)
    requires 0 <= i <= j < |g|
    ensures iv in g <==> iv in g[..i] || iv in g[i..j + 1] || iv in g[j + 1..]
    ensures iv in Carve(g, i, j, a, b) <==>
            iv in g[..i] || iv in LeftPart(g, i, a) || iv in RightPart(g, j, b) || iv in g[j + 1..]
  {
    assert g == g[..i] + g[i..j + 1] + g[j + 1..];
  }

  lemma CarveKeepsRest(g: seq<Interval>, i: int, j: int, a: int, b: int, x: int)
    requires Separated(g) && Fits(g, i, j, a, b)
    requires InGap(g, x) && !(a <= x < b)
    ensures InGap(Carve(g, i, j, a, b), x)
  {
    var iv :| iv in g && iv.start <= x < iv.end;
    CarveMembers(g, i, j, a, b, iv);
    if iv in g[i..j + 1] {
      MiddleGaps(g, i, j);
      var rest := if x < a then Interval(g[i].start, a) else Interval(b, g[j].end);
      CarveMembers(g, i, j, a, b, rest);
      assert rest in Carve(g, i, j, a, b);
    } else {
      assert iv in Carve(g, i, j, a, b);
    }
  }

  lemma CarveAddsNothing(g: seq<Interval>, i: int, j: int, a: int, b: int, x: int)
    requires Separated(g) && Fits(g, i, j, a, b)
    requires InGap(Carve(g, i, j, a, b), x)
    ensures InGap(g, x) && !(a <= x < b)
  {
    var iv :| iv in Carve(g, i, j, a, b) && iv.start <= x < iv.end;
    CarveMembers(g, i, j, a, b, iv);
    OuterGaps(g, i, j, a, b);
    if iv in LeftPart(g, i, a) {
      assert g[i].start <= x < g[i].end;
    } else if iv in RightPart(g, j, b) {
      assert g[j].start <= x < g[j].end;
    } else {
      assert iv in g;
    }
  }

  /** Carving removes exactly the received range from what is missing. */
  lemma CarveRemovesRange(g: seq<Interval>, i: int, j: int, a: int, b: int)
    requires Separated(g) && Fits(g, i, j, a, b)
    ensures forall x :: InGap(Carve(g, i, j, a, b), x) <==> InGap(g, x) && !(a <= x < b)
  {
    forall x | InGap(g, x) && !(a <= x < b) ensures InGap(Carve(g, i, j, a, b), x) {
      CarveKeepsRest(g, i, j, a, b, x);
    }
    forall x | InGap(Carve(g, i, j, a, b), x) ensures InGap(g, x) && !(a <= x < b) {
      CarveAddsNothing(g, i, j, a, b, x);
    }
  }

  /** Where the first of the gaps starts. */
  lemma FirstStart(g: seq<Interval>, h: seq<Interval>)
    requires Ordered(g) && Ordered(h) && g != [] && forall x :: InGap(g, x) ==> InGap(h, x)
    ensures h != [] && h[0].start <= g[0].start
  {
    assert g[0] in g && InGap(g, g[0].start);
    var iv :| iv in h && iv.start <= g[0].start < iv.end;
    var k :| 0 <= k < |h| && h[k] == iv;
  }

  /** Where the first of the gaps ends, when both lists start alike. */
  lemma FirstEnd(g: seq<Interval>, h: seq<Interval>)
    requires Ordered(g) && Ordered(h) && g != [] && h != [] && g[0].start == h[0].start
    requires forall x :: InGap(h, x) ==> InGap(g, x)
    ensures h[0].end <= g[0].end
  {
    NotRightBehind(g);
    var x, iv := g[0].end, h[0];
    assert iv in h;
    assert x < iv.end ==> InGap(h, x);
  }

  lemma NotRightBehind(g: seq<Interval>)
    requires Ordered(g) && g != []
    ensures !InGap(g, g[0].end)
  {
    forall iv | iv in g ensures !(iv.start <= g[0].end < iv.end) {
      var k :| 0 <= k < |g| && g[k] == iv;
    }
  }

  lemma LaterGaps(g: seq<Interval>, x: int)
    requires Ordered(g) && g != []
    ensures InGap(g[1..], x) <==> InGap(g, x) && g[0].end <= x
  {
    if iv :| iv in g && iv.start <= x < iv.end && g[0].end <= x {
      var k :| 0 <= k < |g| && g[k] == iv;
      assert g[1..][k - 1] == iv;
    }
    if iv :| iv in g[1..] && iv.start <= x < iv.end {
      var k :| 0 <= k < |g[1..]| && g[1..][k] == iv;
      assert g[k + 1] == iv;
    }
  }

  /** The offsets determine the list. */
  lemma {:induction false} SameGaps(g: seq<Interval>, h: seq<Interval>)
    requires Ordered(g) && Ordered(h) && forall x :: InGap(g, x) <==> InGap(h, x)
    ensures g == h
    decreases |g|
  {
    if g == [] {
      if h != [] {
        FirstStart(h, g);
      }
    } else {
      hide Ordered, InGap;
      SameFirst(g, h);
      OrderedSuffix(g, 1);
      OrderedSuffix(h, 1);
      SameGaps(g[1..], h[1..]);
      assert g == [g[0]] + g[1..] && h == [h[0]] + h[1..];
    }
  }

  lemma SameFirst(g: seq<Interval>, h: seq<Interval>)
    requires Ordered(g) && Ordered(h) && g != [] && forall x :: InGap(g, x) <==> InGap(h, x)
    ensures h != [] && g[0] == h[0] && forall x :: InGap(g[1..], x) <==> InGap(h[1..], x)
  {
    hide Ordered, InGap;
    FirstStart(g, h);
    FirstStart(h, g);
    FirstEnd(g, h);
    FirstEnd(h, g);
    forall x ensures InGap(g[1..], x) <==> InGap(h[1..], x) {
      LaterGaps(g, x);
      LaterGaps(h, x);
    }
  }
}
