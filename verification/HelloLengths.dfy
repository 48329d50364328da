// Which lengths inside of a ClientHello decide if the search for the positions to cut takes it for incomplete.
module HelloLengths {
  import opened ClientHello
  import opened Protocol

  /** The extension headers of the list [start, end) that are reached by skipping extensions; the last position may have
      no room for a header. */
  ghost predicate Reached(d: seq<Byte>, start: int, end: int, p: int): (r: bool)
    requires 0 <= start && end <= |d|
    ensures r ==> start <= p
    decreases end - start
  {
    || p == start
    || (start + 4 <= end && Inside(d, end, start) && Reached(d, Next(d, start), end, p))
  }

  ghost predicate Header(d: seq<Byte>, start: int, end: int, p: int)
    requires 0 <= start && end <= |d|
  {
    Reached(d, start, end, p) && p + 4 <= end
  }

  function Next(d: seq<Byte>, p: int): int
    requires 0 <= p && p + 4 <= |d|
  {
    p + 4 + Uint16(d, p + 2)
  }

  /** The body of the extension lies inside of the list. */
  predicate Inside(d: seq<Byte>, end: int, p: int)
    requires 0 <= p && p + 4 <= end <= |d|
  {
    Next(d, p) <= end
  }

  /** A server name list has the announced length, and the names up to the first host name lie inside of it. */
  predicate ListFits(d: seq<Byte>, end: int, p: int)
    requires 0 <= p && p + 4 <= end <= |d| && Inside(d, end, p)
  {
    && 2 <= Uint16(d, p + 2) == 2 + Uint16(d, p + 4)
    && NamesFit(d, p + 6, Next(d, p))
  }

  predicate HasName(d: seq<Byte>, end: int, p: int)
    requires 0 <= p && p + 4 <= end <= |d|
  {
    && Inside(d, end, p) && Uint16(d, p) == EXT_SNI
    && ListFits(d, end, p) && HostName(d, p + 6, Next(d, p)) != -1
  }

  predicate HasEch(d: seq<Byte>, end: int, p: int)
    requires 0 <= p && p + 4 <= end <= |d|
  {
    Inside(d, end, p) && Uint16(d, p) == EXT_ECH
  }

  /** A host name, or an ECH extension, is in front of `p`. */
  ghost predicate NameBefore(d: seq<Byte>, start: int, end: int, p: int)
    requires 0 <= start && end <= |d|
  {
    exists q :: Header(d, start, end, q) && q < p && HasName(d, end, q)
  }

  ghost predicate EchBefore(d: seq<Byte>, start: int, end: int, p: int)
    requires 0 <= start && end <= |d|
  {
    exists q :: Header(d, start, end, q) && q < p && HasEch(d, end, q)
  }

  /** The extension was there before. */
  ghost predicate Repeats(d: seq<Byte>, start: int, end: int, p: int)
    requires 0 <= start && end <= |d| && Header(d, start, end, p)
  {
    && Inside(d, end, p)
    && (|| (Uint16(d, p) == EXT_SNI && NameBefore(d, start, end, p))
        || (Uint16(d, p) == EXT_ECH && EchBefore(d, start, end, p)))
  }

  /** The search looks at the extension: not both positions are known, and no extension was repeated. */
  ghost predicate LookedAt(d: seq<Byte>, start: int, end: int, p: int)
    requires 0 <= start && end <= |d|
  {
    && Header(d, start, end, p)
    && !(NameBefore(d, start, end, p) && EchBefore(d, start, end, p))
    && forall q :: Header(d, start, end, q) && q < p ==> !Repeats(d, start, end, q)
  }

  /** The extension lies inside of the list, and so do the names, if it has the first host name. */
  ghost predicate Fits(d: seq<Byte>, start: int, end: int, p: int)
    requires 0 <= start && end <= |d| && Header(d, start, end, p)
  {
    && Inside(d, end, p)
    && (Uint16(d, p) == EXT_SNI && !NameBefore(d, start, end, p) ==> ListFits(d, end, p))
  }

  /** All fields up to the extensions, and all extensions that the search looks at, lie where they should. */
  ghost predicate LengthsFit(d: seq<Byte>) {
    && ExtensionsEnd(d) != -1
    && AllFit(d, ExtensionsField(d) + 2, ExtensionsEnd(d), ExtensionsEnd(d))
  }

  ghost predicate AllFit(d: seq<Byte>, start: int, end: int, upTo: int)
    requires 0 <= start && end <= |d|
  {
    forall p :: LookedAt(d, start, end, p) && p < upTo ==> Fits(d, start, end, p)
  }

  /** Positions that are reached do not overlap. */
  lemma {:induction false} InOrder(d: seq<Byte>, start: int, end: int, p: int, q: int)
    requires 0 <= start && end <= |d| && Reached(d, start, end, p) && Reached(d, start, end, q) && p < q
    ensures p + 4 <= end && Inside(d, end, p) && Next(d, p) <= q
    decreases end - start
  {
    if p != start {
      InOrder(d, Next(d, start), end, p, q);
    }
  }

  lemma {:induction false} NextReached(d: seq<Byte>, start: int, end: int, p: int)
    requires 0 <= start && end <= |d| && Header(d, start, end, p) && Inside(d, end, p)
    ensures Reached(d, start, end, Next(d, p))
    decreases end - start
  {
    if p != start {
      NextReached(d, Next(d, start), end, p);
    }
  }

  /** What is in front of the next extension. */
  lemma OneFurther(d: seq<Byte>, start: int, end: int, p: int)
    requires 0 <= start && end <= |d| && Header(d, start, end, p) && Inside(d, end, p)
    ensures Reached(d, start, end, Next(d, p))
    ensures forall q :: Header(d, start, end, q) ==> (q < Next(d, p) <==> q <= p)
    ensures NameBefore(d, start, end, Next(d, p)) <==> NameBefore(d, start, end, p) || HasName(d, end, p)
    ensures EchBefore(d, start, end, Next(d, p)) <==> EchBefore(d, start, end, p) || HasEch(d, end, p)
  {
    hide Reached, HasName, HasEch;
    NextReached(d, start, end, p);
    forall q | Header(d, start, end, q) ensures q < Next(d, p) <==> q <= p {
      if p < q {
        InOrder(d, start, end, p, q);
      }
    }
  }

  /** Nothing behind `p` is looked at any more. */
  lemma StopsAt(d: seq<Byte>, start: int, end: int, p: int)
    requires 0 <= start && end <= |d| && Reached(d, start, end, p) && AllFit(d, start, end, p)
    requires || end < p + 4
             || (NameBefore(d, start, end, p) && EchBefore(d, start, end, p))
             || (Fits(d, start, end, p) && Repeats(d, start, end, p))
    ensures AllFit(d, start, end, end)
  {
    hide Reached, HasName, HasEch;
    forall q | Header(d, start, end, q) && p < q ensures !LookedAt(d, start, end, q) {
      assert NameBefore(d, start, end, p) ==> NameBefore(d, start, end, q);
      assert EchBefore(d, start, end, p) ==> EchBefore(d, start, end, q);
      if end < p + 4 {
        InOrder(d, start, end, p, q);
      }
    }
  }

  /** From a position up to which everything fits, the search comes to Incomplete exactly if something behind it does
      not fit. */
  lemma {:induction false} SearchFits(d: seq<Byte>, start: int, end: int, p: int, sniPos: int, sniLen: int, echPos: int)
    requires 0 <= start <= p && end <= |d| && Reached(d, start, end, p) && AllFit(d, start, end, p)
    requires sniPos != -1 <==> NameBefore(d, start, end, p)
    requires echPos != -1 <==> EchBefore(d, start, end, p)
    requires forall q :: Header(d, start, end, q) && q < p ==> !Repeats(d, start, end, q)
    ensures Search(d, p, end, sniPos, sniLen, echPos) == Incomplete <==> !AllFit(d, start, end, end)
    decreases end - p
  {
    hide Reached, NameBefore, EchBefore, AllFit;
    if end < p + 4 || (sniPos != -1 && echPos != -1) {
      StopsAt(d, start, end, p);
    } else if !Fits(d, start, end, p) {
      NotAllFit(d, start, end, p);
    } else if Repeats(d, start, end, p) {
      StopsAt(d, start, end, p);
    } else {
      OneFurther(d, start, end, p);
      FitsUpTo(d, start, end, p);
      var next := Next(d, p);
      if Uint16(d, p) == EXT_SNI {
        var len := if Uint16(d, p + 2) < 5 then sniLen else HostNameLen(d, p + 6, next, 0);
        SearchFits(d, start, end, next, HostName(d, p + 6, next), len, echPos);
      } else if Uint16(d, p) == EXT_ECH {
        SearchFits(d, start, end, next, sniPos, sniLen, p);
      } else {
        SearchFits(d, start, end, next, sniPos, sniLen, echPos);
      }
    }
  }

  lemma NotAllFit(d: seq<Byte>, start: int, end: int, p: int)
    requires 0 <= start && end <= |d| && LookedAt(d, start, end, p) && !Fits(d, start, end, p)
    ensures !AllFit(d, start, end, end)
  {
  }

  lemma FitsUpTo(d: seq<Byte>, start: int, end: int, p: int)
    requires 0 <= start && end <= |d| && Header(d, start, end, p) && AllFit(d, start, end, p) && Fits(d, start, end, p)
    requires forall q :: Header(d, start, end, q) ==> (q < Next(d, p) <==> q <= p)
    ensures AllFit(d, start, end, Next(d, p))
  {
  }

  /** A whole ClientHello is taken for incomplete exactly if a length inside of it does not fit. */
  lemma IncompleteExactly(d: seq<Byte>)
    requires 4 <= |d| == MessageLen(d) && d[0] == 1
    ensures Result(d) == Incomplete <==> !LengthsFit(d)
  {
    if ExtensionsEnd(d) != -1 {
      var start, end := ExtensionsField(d) + 2, ExtensionsEnd(d);
      SearchFits(d, start, end, start, -1, 0, -1);
    }
  }

  /** A ClientHello whose session ID is longer than the message. */
  const LONG_SESSION_ID: seq<Byte> := [1, 0, 0, 35] + seq(34, _ => 0) + [5]

  lemma LongSessionID()
    ensures var d := LONG_SESSION_ID; |d| == MessageLen(d) && d[0] == 1 && !LengthsFit(d)
  {
    assert FieldEnd(LONG_SESSION_ID, 38, 1) == -1;
  }
}
