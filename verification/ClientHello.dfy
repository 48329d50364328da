// Locating the server name and the encrypted ClientHello in a TLS ClientHello.
module ClientHello {
  import opened Protocol

  const EXT_SNI := 0
  const EXT_ECH := 0xfe0d

  /** Incomplete stands for an input that ends too early, Malformed for every other error. */
  datatype SearchResult = Incomplete | Malformed | Found(sniPos: int, sniLen: int, echPos: int)

  function Uint16(d: seq<Byte>, pos: int): int
    requires 0 <= pos && pos + 2 <= |d|
  {
    var hi: int, lo: int := d[pos], d[pos + 1];
    hi * 0x100 + lo
  }

  /** The length that the handshake header announces, together with the header. */
  function MessageLen(d: seq<Byte>): int
    requires |d| >= 4
  {
    var a: int, b: int, c: int := d[1], d[2], d[3];
    4 + a * 0x10000 + b * 0x100 + c
  }

  /** A host name at `pos`: preceded by the name type 0 and by its length, inside the data. */
  predicate IsHostName(d: seq<Byte>, pos: int, len: int) {
    && 3 <= pos && 0 <= len && pos + len <= |d|
    && d[pos - 3] == 0 && Uint16(d, pos - 2) == len
  }

  /** An ECH extension header at `pos`, whose body lies inside the data. */
  predicate IsEch(d: seq<Byte>, pos: int) {
    && 0 <= pos && pos + 4 <= |d|
    && Uint16(d, pos) == EXT_ECH && pos + 4 + Uint16(d, pos + 2) <= |d|
  }

  /** What the search promises about the positions it returns. */
  predicate Sound(d: seq<Byte>, r: SearchResult) {
    r.Found? ==>
      && (r.sniPos == -1 || (4 < r.sniPos && IsHostName(d, r.sniPos, r.sniLen)))
      && (r.echPos == -1 || (4 < r.echPos && IsEch(d, r.echPos)))
      && 0 <= r.sniLen <= |d|
  }

  /** Where a field ends that is preceded by its length in `n` bytes; -1 if it does not fit. */
  function FieldEnd(d: seq<Byte>, pos: int, n: int): (p: int)
    requires n == 1 || n == 2
    ensures p == -1 || (0 <= pos && pos + n <= p <= |d|)
  {
    if pos < 0 || pos + n > |d| then -1
    else
      var len: int := if n == 1 then d[pos] else Uint16(d, pos);
      if pos + n + len > |d| then -1 else pos + n + len
  }

  /** The extensions follow the version, the random value, the session ID, the cipher suites and the compression
      methods. */
  function ExtensionsEnd(d: seq<Byte>): int { FieldEnd(d, ExtensionsField(d), 2) }

  function ExtensionsField(d: seq<Byte>): int { FieldEnd(d, FieldEnd(d, FieldEnd(d, 38, 1), 2), 1) }

  /** An extension of the list [start, end) is at `pos`. */
  ghost predicate Extension(d: seq<Byte>, start: int, end: int, pos: int): (r: bool)
    requires 0 <= start && end <= |d|
    ensures r ==> start <= pos && pos + 4 <= end && pos + 4 + Uint16(d, pos + 2) <= end
    decreases end - start
  {
    && start + 4 <= end && start + 4 + Uint16(d, start + 2) <= end
    && (pos == start || Extension(d, start + 4 + Uint16(d, start + 2), end, pos))
  }

  /** A name of the server name list [start, end) starts at `pos`, with its type. */
  ghost predicate NameEntry(d: seq<Byte>, start: int, end: int, pos: int): (r: bool)
    requires 0 <= start && end <= |d|
    ensures r ==> start <= pos && pos + 3 <= end
    decreases end - start
  {
    && start + 3 <= end && start + 3 + Uint16(d, start + 1) <= end
    && (pos == start || NameEntry(d, start + 3 + Uint16(d, start + 1), end, pos))
  }

  ghost predicate NoHostName(d: seq<Byte>, start: int, end: int)
    requires 0 <= start && end <= |d|
  {
    forall p :: NameEntry(d, start, end, p) ==> d[p] != 0
  }

  /** The first host name of the list. */
  ghost predicate FirstHostName(d: seq<Byte>, start: int, end: int, pos: int)
    requires 0 <= start && end <= |d|
  {
    NameEntry(d, start, end, pos) && d[pos] == 0 && forall p :: NameEntry(d, start, end, p) && d[p] == 0 ==> pos <= p
  }

  /** The extension at `p` is a server name extension with this first host name, which is 0 if there is none. */
  ghost predicate ServerName(d: seq<Byte>, start: int, end: int, p: int, hostName: int)
    requires 0 <= start && end <= |d|
  {
    && Extension(d, start, end, p) && Uint16(d, p) == EXT_SNI && 2 <= Uint16(d, p + 2)
    && var listEnd := p + 4 + Uint16(d, p + 2);
       if hostName == 0 then NoHostName(d, p + 6, listEnd) else FirstHostName(d, p + 6, listEnd, hostName)
  }

  ghost predicate HasServerName(d: seq<Byte>, start: int, end: int, hostName: int)
    requires 0 <= start && end <= |d|
  {
    exists p :: ServerName(d, start, end, p, hostName)
  }

  /** What is found is really there, and if nothing is found there is nothing. */
  ghost predicate Complete(d: seq<Byte>, start: int, end: int, r: SearchResult)
    requires 0 <= start && end <= |d|
  {
    r.Found? ==>
      && (r.echPos != -1 ==> Extension(d, start, end, r.echPos))
      && (r.echPos == -1 ==> forall p :: Extension(d, start, end, p) ==> Uint16(d, p) != EXT_ECH)
      && (r.sniPos != -1 ==> HasServerName(d, start, end, r.sniPos - 3))
      && (r.sniPos == -1 ==>
            forall p :: Extension(d, start, end, p) && Uint16(d, p) == EXT_SNI ==> ServerName(d, start, end, p, 0))
  }

  /** Skips a field that is preceded by its length in `n` bytes; -1 if it does not fit. */
  method SkipField(d: seq<Byte>, pos: int, n: int) returns (p: int)
    requires 0 <= pos <= |d| && (n == 1 || n == 2)
    ensures p == FieldEnd(d, pos, n)
  {
    if pos + n > |d| {
      return -1;
    }
    var len := if n == 1 then d[pos] else Uint16(d, pos);
    p := if pos + n + len > |d| then -1 else pos + n + len;
  }

  /** The names before `pos` are not host names. */
  ghost predicate Unread(d: seq<Byte>, start: int, end: int, pos: int)
    requires 0 <= start && 0 <= pos && end <= |d|
  {
    && (forall p :: NameEntry(d, pos, end, p) ==> NameEntry(d, start, end, p))
    && (forall p :: NameEntry(d, start, end, p) && d[p] == 0 ==> NameEntry(d, pos, end, p))
  }

  /** The names of the list, up to the first host name, lie inside of the list. */
  predicate NamesFit(d: seq<Byte>, pos: int, end: int)
    requires 0 <= pos && end <= |d|
    decreases end - pos
  {
    || end < pos + 3
    || (pos + 3 + Uint16(d, pos + 1) <= end && (d[pos] == 0 || NamesFit(d, pos + 3 + Uint16(d, pos + 1), end)))
  }

  /** Where the first host name of the list starts; -1 if there is none. */
  function HostName(d: seq<Byte>, pos: int, end: int): int
    requires 0 <= pos && end <= |d| && NamesFit(d, pos, end)
    decreases end - pos
  {
    if end < pos + 3 then -1 else if d[pos] == 0 then pos + 3 else HostName(d, pos + 3 + Uint16(d, pos + 1), end)
  }

  /** The length of the first host name, or of the last name if there is none. */
  function HostNameLen(d: seq<Byte>, pos: int, end: int, len: int): int
    requires 0 <= pos && end <= |d| && NamesFit(d, pos, end)
    decreases end - pos
  {
    if end < pos + 3 then len
    else if d[pos] == 0 then Uint16(d, pos + 1)
    else HostNameLen(d, pos + 3 + Uint16(d, pos + 1), end, Uint16(d, pos + 1))
  }

  /** The first host name in the server name list that starts at `start` and ends at `end`; sniPos stays -1 if there
      is none, and sniLen then is the length of the last entry. */
  method FindHostName(d: seq<Byte>, start: int, end: int) returns (ok: bool, sniPos: int, sniLen: int)
    requires 4 < start && start + 2 <= end <= |d|
    ensures ok <==> end - start == 2 + Uint16(d, start) && NamesFit(d, start + 2, end)
    ensures ok ==> sniPos == HostName(d, start + 2, end) && sniLen == HostNameLen(d, start + 2, end, 0)
    ensures ok ==> 0 <= sniLen <= |d|
    ensures ok ==> sniPos == -1 || (start < sniPos <= end && IsHostName(d, sniPos, sniLen))
    ensures ok && sniPos != -1 ==> start + 5 <= end && FirstHostName(d, start + 2, end, sniPos - 3)
    ensures ok && sniPos == -1 ==> NoHostName(d, start + 2, end)
  {
    sniPos, sniLen := -1, 0;
    var nameListLen := Uint16(d, start);
    if end - start != 2 + nameListLen {
      return false, sniPos, sniLen;
    }
    var listPos := 2;
    while listPos + 3 <= nameListLen + 2
      invariant 2 <= listPos <= nameListLen + 2
      invariant 0 <= sniLen <= |d| && sniPos == -1
      invariant Unread(d, start + 2, end, start + listPos)
      invariant NamesFit(d, start + 2, end) <==> NamesFit(d, start + listPos, end)
      invariant NamesFit(d, start + 2, end) ==>
                  && HostName(d, start + 2, end) == HostName(d, start + listPos, end)
                  && HostNameLen(d, start + 2, end, 0) == HostNameLen(d, start + listPos, end, sniLen)
    {
      var nameType := d[start + listPos];
      sniLen := Uint16(d, start + listPos + 1);
      if listPos + 3 + sniLen > end - start {
        return false, sniPos, sniLen;
      }
      if nameType == 0 {
        assert NameEntry(d, start + listPos, end, start + listPos);
        return true, start + listPos + 3, sniLen;
      }
      listPos := listPos + 3 + sniLen;
    }
    ok := true;
  }

  /** The extensions before `pos` were searched. */
  ghost predicate Searched(d: seq<Byte>, start: int, end: int, pos: int, sniPos: int, echPos: int)
    requires 0 <= start && 0 <= pos && end <= |d|
  {
    && (forall p :: Extension(d, pos, end, p) ==> Extension(d, start, end, p))
    && (echPos != -1 ==> Extension(d, start, end, echPos))
    && (echPos == -1 ==> forall p :: Extension(d, start, end, p) && Uint16(d, p) == EXT_ECH ==>
        Extension(d, pos, end, p))
    && (sniPos != -1 ==> HasServerName(d, start, end, sniPos - 3))
    && (sniPos == -1 ==> forall p :: Extension(d, start, end, p) && Uint16(d, p) == EXT_SNI ==>
          Extension(d, pos, end, p) || ServerName(d, start, end, p, 0))
  }

  /** What one more extension means for the search. */
  lemma SearchedStep(d: seq<Byte>, start: int, end: int, pos: int, sniPos: int, echPos: int, sniPos': int, echPos': int)
    requires 0 <= start <= pos && pos + 4 <= end <= |d| && pos + 4 + Uint16(d, pos + 2) <= end
    requires Searched(d, start, end, pos, sniPos, echPos)
    requires echPos' == if Uint16(d, pos) == EXT_ECH then pos else echPos
    requires Uint16(d, pos) != EXT_SNI ==> sniPos' == sniPos
    requires Uint16(d, pos) == EXT_SNI ==>
              sniPos == -1 && ServerName(d, pos, end, pos, if sniPos' == -1 then 0 else sniPos' - 3)
    ensures Searched(d, start, end, pos + 4 + Uint16(d, pos + 2), sniPos', echPos')
  {
    hide NoHostName, FirstHostName;
    assert Extension(d, pos, end, pos);
    if Uint16(d, pos) == EXT_SNI {
      assert ServerName(d, start, end, pos, if sniPos' == -1 then 0 else sniPos' - 3);
    }
  }

  lemma NothingSearched(d: seq<Byte>, start: int, end: int)
    requires 0 <= start && end <= |d|
    ensures Searched(d, start, end, start, -1, -1)
  {
  }

  lemma SearchedAll(d: seq<Byte>, start: int, end: int, pos: int, sniPos: int, sniLen: int, echPos: int)
    requires 0 <= start <= pos && end <= |d| && Searched(d, start, end, pos, sniPos, echPos)
    requires end < pos + 4 || (sniPos != -1 && echPos != -1)
    ensures Complete(d, start, end, Found(sniPos, sniLen, echPos))
  {
    hide NoHostName, FirstHostName;
  }

  /** What the search for the first host name and the first ECH extension comes to, from `pos` on. */
  function Search(d: seq<Byte>, pos: int, end: int, sniPos: int, sniLen: int, echPos: int): SearchResult
    requires 0 <= pos && end <= |d|
    decreases end - pos
  {
    if end < pos + 4 || (sniPos != -1 && echPos != -1) then Found(sniPos, sniLen, echPos)
    else
      var n := Uint16(d, pos + 2);
      var next := pos + 4 + n;
      if end < next then Incomplete
      else if Uint16(d, pos) == EXT_SNI then
        if sniPos != -1 then Malformed
        else if n < 2 || n != 2 + Uint16(d, pos + 4) || !NamesFit(d, pos + 6, next) then Incomplete
        else
          var len := if n < 5 then sniLen else HostNameLen(d, pos + 6, next, 0);
          Search(d, next, end, HostName(d, pos + 6, next), len, echPos)
      else if Uint16(d, pos) == EXT_ECH then
        if echPos != -1 then Malformed else Search(d, next, end, sniPos, sniLen, pos)
      else Search(d, next, end, sniPos, sniLen, echPos)
  }

  /** What the search in a whole message comes to. */
  function Result(d: seq<Byte>): SearchResult {
    if |d| < 4 then Incomplete
    else if d[0] != 1 then Malformed
    else if |d| != MessageLen(d) || ExtensionsEnd(d) == -1 then Incomplete
    else Search(d, ExtensionsField(d) + 2, ExtensionsEnd(d), -1, 0, -1)
  }

  /** A ClientHello with one extension, a server name list with one empty name of the given type. */
  function OneName(nameType: Byte): seq<Byte> {
    [1, 0, 0, 49, 3, 3] + seq(32, _ => 0) + [0, 0, 0, 0, 0, 9, 0, 0, 0, 5, 0, 3, nameType, 0, 0]
  }

  lemma OneNameLengths(nameType: Byte)
    ensures var d := OneName(nameType);
            && |d| == 53 == MessageLen(d) && ExtensionsField(d) == 42 && ExtensionsEnd(d) == 53 && d[0] == 1
            && Uint16(d, 44) == EXT_SNI && Uint16(d, 46) == 5 && Uint16(d, 48) == 3 && Uint16(d, 51) == 0
            && d[50] == nameType && NamesFit(d, 50, 53) && NamesFit(d, 53, 53)
  {
    var d := OneName(nameType);
    assert |d| == 53;
    assert FieldEnd(d, 38, 1) == 39 && FieldEnd(d, 39, 2) == 41 && FieldEnd(d, 41, 1) == 42 && FieldEnd(d, 42, 2) == 53;
  }

  /** An empty host name is found. */
  lemma EmptyNameIsFound()
    ensures Result(OneName(0)) == Found(53, 0, -1)
  {
    OneNameLengths(0);
    assert Search(OneName(0), 53, 53, 53, 0, -1) == Found(53, 0, -1);
  }

  /** A server name list can be well formed and hold no host name: then there is no position, and no error. */
  lemma NameOfAnotherType()
    ensures Result(OneName(1)) == Found(-1, 0, -1)
  {
    var d := OneName(1);
    OneNameLengths(1);
    assert HostName(d, 50, 53) == HostName(d, 53, 53) == -1;
    assert HostNameLen(d, 50, 53, 0) == HostNameLen(d, 53, 53, 0) == 0;
    assert Search(d, 53, 53, -1, 0, -1) == Found(-1, 0, -1);
  }

  /** A message of the announced length that is found incomplete, because a length inside of it is wrong, stays
      incomplete whatever follows. */
  lemma IncompleteForEver(d: seq<Byte>, more: seq<Byte>)
    requires 4 <= |d| == MessageLen(d) && Result(d) == Incomplete
    ensures Result(d + more) == Incomplete
  {
    if more == [] {
      assert d + more == d;
    } else {
      assert MessageLen(d + more) == MessageLen(d);
    }
  }

  /** Searches the extensions in [start, end). */
  method SearchExtensions(d: seq<Byte>, start: int, end: int) returns (r: SearchResult)
    requires 4 < start <= end <= |d|
    ensures r == Search(d, start, end, -1, 0, -1)
    ensures Sound(d, r) && Complete(d, start, end, r)
  {
    hide Searched, NoHostName, FirstHostName, NamesFit, HostName, HostNameLen;
    var pos, sniPos, sniLen, echPos := start, -1, 0, -1;
    NothingSearched(d, start, end);
    while pos + 4 <= end
      invariant start <= pos <= end && (sniPos == -1 || echPos == -1)
      invariant Sound(d, Found(sniPos, sniLen, echPos))
      invariant Searched(d, start, end, pos, sniPos, echPos)
      invariant Search(d, start, end, -1, 0, -1) == Search(d, pos, end, sniPos, sniLen, echPos)
    {
      var extType, extLen := Uint16(d, pos), Uint16(d, pos + 2);
      if pos + 4 + extLen > end {
        return Incomplete;
      }
      ghost var sni0, ech0 := sniPos, echPos;
      if extType == EXT_SNI {
        if sniPos != -1 {
          return Malformed;
        }
        if extLen < 2 {
          return Incomplete;
        }
        var ok, p, len := FindHostName(d, pos + 4, pos + 4 + extLen);
        if !ok {
          return Incomplete;
        }
        // an empty server name list leaves the previous length
        sniPos, sniLen := p, if extLen < 5 then sniLen else len;
        assert ServerName(d, pos, end, pos, if sniPos == -1 then 0 else sniPos - 3);
      } else if extType == EXT_ECH {
        if echPos != -1 {
          return Malformed;
        }
        echPos := pos;
      }
      SearchedStep(d, start, end, pos, sni0, ech0, sniPos, echPos);
      pos := pos + 4 + extLen;
      if sniPos != -1 && echPos != -1 {
        break;
      }
    }
    SearchedAll(d, start, end, pos, sniPos, sniLen, echPos);
    return Found(sniPos, sniLen, echPos);
  }

  /** The result of the search; its positions are right, and if one is missing there is nothing to be found. */
  ghost predicate Right(d: seq<Byte>, r: SearchResult) {
    && r == Result(d) && Sound(d, r)
    && (r.Found? ==> ExtensionsEnd(d) != -1 && Complete(d, ExtensionsField(d) + 2, ExtensionsEnd(d), r))
  }

  lemma RightIsSound(d: seq<Byte>, r: SearchResult)
    requires Right(d, r)
    ensures r == Result(d) && Sound(d, r) && (r != Incomplete ==> |d| >= 4)
  {
  }

  /** Searches a ClientHello for the server name and the encrypted ClientHello. */
  method FindSNIAndECH(d: seq<Byte>) returns (r: SearchResult)
    ensures Right(d, r)
  {
    if |d| < 4 {
      return Incomplete;
    }
    if d[0] != 1 {
      return Malformed;
    }
    if |d| != MessageLen(d) {
      return Incomplete;
    }
    var pos := 4;
    // protocol version and random
    if pos + 2 > |d| {
      return Incomplete;
    }
    pos := pos + 2;
    if pos + 32 > |d| {
      return Incomplete;
    }
    pos := pos + 32;
    // session ID, cipher suites, compression methods
    pos := SkipField(d, pos, 1);
    if pos == -1 {
      return Incomplete;
    }
    pos := SkipField(d, pos, 2);
    if pos == -1 {
      return Incomplete;
    }
    pos := SkipField(d, pos, 1);
    if pos == -1 {
      return Incomplete;
    }
    // extensions
    if pos + 2 > |d| {
      return Incomplete;
    }
    var extensionsLen := Uint16(d, pos);
    pos := pos + 2;
    if pos + extensionsLen > |d| {
      return Incomplete;
    }
    r := SearchExtensions(d, pos, pos + extensionsLen);
  }
}
