// The stream of TLS handshake messages: what is written leaves in CRYPTO frames, possibly in a scrambled order, and
// what arrives in CRYPTO frames is put together again.
module CryptoStream {
  import opened Protocol
  import opened Wire
  import Varint
  import ClientHello
  import HelloLengths
  import FrameSorter

  const MAX_CRYPTO_STREAM_OFFSET := 16 * 1024

  /** A part of the ClientHello that is sent after the rest; unset if it starts at the invalid offset. */
  datatype Cut = Cut(start: int, end: int) {
    predicate IsSet() { start != INVALID_BYTE_COUNT }
  }

  const NO_CUT := Cut(INVALID_BYTE_COUNT, INVALID_BYTE_COUNT)

  /** How many bytes of data fit into a CRYPTO frame of the given size. */
  function MaxDataLen(offset: int, maxSize: int): (n: int)
    requires Varint.Fits(offset) && maxSize <= Varint.MAX_8
    ensures 0 <= n <= Max(0, maxSize - 2)
    ensures n == 0 <==> maxSize <= CryptoHeaderLen(offset, 1)
  {
    var headerLen := 1 + Varint.Len(offset) + 1;
    if headerLen > maxSize then 0
    else if Varint.Len(maxSize - headerLen) != 1 then maxSize - headerLen - 1
    else maxSize - headerLen
  }

  /** In packets of up to 16385 bytes the limit is exact: data fits exactly if it is within the limit. */
  lemma MaxDataLenExact(offset: int, maxSize: int, n: int)
    requires Varint.Fits(offset) && maxSize <= Varint.MAX_2 + 2 && 0 < n <= Varint.MAX_8
    ensures n <= MaxDataLen(offset, maxSize) <==> CryptoHeaderLen(offset, n) + n <= maxSize
  {
    Varint.LenMonotone(Min(n, Varint.MAX_2), n);
  }

  /** The frame fits, and has all data there is, or one byte more does not fit. */
  ghost predicate AllThatFits(f: Frame, available: int, maxSize: int) {
    && f.Crypto? && Varint.Fits(f.offset) && 0 < |f.data| < Varint.MAX_8 && |f.data| <= available
    && CryptoHeaderLen(f.offset, |f.data|) + |f.data| <= maxSize
    && (|f.data| == available || maxSize < CryptoHeaderLen(f.offset, |f.data| + 1) + |f.data| + 1)
  }

  lemma AsMuchAsFits(f: Frame, available: int, maxSize: int)
    requires f.Crypto? && Varint.Fits(f.offset) && maxSize <= Varint.MAX_2 + 2 && 0 < |f.data|
    requires |f.data| == Min(MaxDataLen(f.offset, maxSize), available)
    ensures AllThatFits(f, available, maxSize)
  {
    MaxDataLenExact(f.offset, maxSize, |f.data|);
    MaxDataLenExact(f.offset, maxSize, |f.data| + 1);
  }

  /** The offsets that a frame carries. */
  ghost function FrameSpan(f: Frame): set<int> {
    if f.Crypto? then Span(f.offset, f.offset + |f.data|) else {}
  }

  predicate IsFrame(f: Frame, offset: int, len: int) {
    f.Crypto? && f.offset == offset && |f.data| == len
  }

  ghost function Spans(fs: seq<Frame>): set<int> {
    if fs == [] then {} else Spans(fs[..|fs| - 1]) + FrameSpan(fs[|fs| - 1])
  }

  /** All frames carry the bytes of `stream` at their offsets. */
  ghost predicate ArePieces(fs: seq<Frame>, stream: seq<Byte>) {
    forall f :: f in fs ==> f.Crypto? && f.data != [] && IsPiece(stream, f.data, f.offset)
  }

  /** No byte is in two frames. */
  ghost predicate AreDisjoint(fs: seq<Frame>) {
    forall i, j :: 0 <= i < j < |fs| ==> FrameSpan(fs[i]) !! FrameSpan(fs[j])
  }

  lemma {:induction false} SpansMember(fs: seq<Frame>, x: int)
    ensures x in Spans(fs) <==> exists i :: 0 <= i < |fs| && x in FrameSpan(fs[i])
  {
    if fs != [] {
      SpansMember(fs[..|fs| - 1], x);
      if i :| 0 <= i < |fs| - 1 && x in FrameSpan(fs[i]) {
        assert fs[..|fs| - 1][i] == fs[i];
      }
    }
  }

  lemma SpansAppend(fs: seq<Frame>, f: Frame)
    ensures Spans(fs + [f]) == Spans(fs) + FrameSpan(f)
  {
    assert (fs + [f])[..|fs|] == fs;
  }

  /** A frame with new offsets only stays apart from the others. */
  lemma DisjointAppend(fs: seq<Frame>, f: Frame)
    requires AreDisjoint(fs) && Spans(fs) !! FrameSpan(f)
    ensures AreDisjoint(fs + [f])
  {
    forall i | 0 <= i < |fs| ensures FrameSpan(fs[i]) !! FrameSpan(f) {
      forall x | x in FrameSpan(fs[i]) ensures x in Spans(fs) {
        SpansMember(fs, x);
      }
    }
  }

  /** Offset x is in one of the cuts. */
  predicate InCut(cuts: seq<Cut>, x: int) {
    exists i :: 0 <= i < |cuts| && cuts[i].IsSet() && cuts[i].start <= x < cuts[i].end
  }

  predicate CutsFit(cuts: seq<Cut>, end: int) {
    |cuts| == 2 && forall i :: 0 <= i < 2 && cuts[i].IsSet() ==> 0 <= cuts[i].start <= cuts[i].end <= end
  }

  /** The cuts leave something in front of, between and inside of them. */
  predicate CutsSeparated(cuts: seq<Cut>) {
    && |cuts| == 2
    && (forall i :: 0 <= i < 2 && cuts[i].IsSet() ==> 0 < cuts[i].start < cuts[i].end)
    && (cuts[0].IsSet() && cuts[1].IsSet() ==> cuts[0].end < cuts[1].start)
  }

  /** Separated cuts, and the write offset is not inside of one. */
  predicate CutsAhead(cuts: seq<Cut>, writeOffset: int) {
    CutsSeparated(cuts) && forall i :: 0 <= i < 2 && cuts[i].IsSet() ==>
        writeOffset < cuts[i].start || cuts[i].end <= writeOffset
  }

  function CutLen(c: Cut): int { if c.IsSet() then c.end - c.start else 0 }

  /** What is left of a cut without its first n bytes. */
  function Rest(c: Cut, n: int): Cut { if c.start + n == c.end then NO_CUT else Cut(c.start + n, c.end) }

  predicate HasEmptyCut(cuts: seq<Cut>) {
    |cuts| == 2 && ((cuts[0].IsSet() && CutLen(cuts[0]) == 0) || (cuts[1].IsSet() && CutLen(cuts[1]) == 0))
  }

  /** The index of the first cut that is set; 2 if there is none. */
  function FirstSet(cuts: seq<Cut>): int
    requires |cuts| == 2
  {
    if cuts[0].IsSet() then 0 else if cuts[1].IsSet() then 1 else 2
  }

  /** Sending from the first cut shortens it, and leaves no empty cut behind. */
  lemma FirstCutShrinks(cuts: seq<Cut>, n: int)
    requires |cuts| == 2 && FirstSet(cuts) < 2 && 0 <= cuts[FirstSet(cuts)].start
              && 0 < n <= CutLen(cuts[FirstSet(cuts)])
    ensures var cuts' := cuts[FirstSet(cuts) := Rest(cuts[FirstSet(cuts)], n)];
            && (HasEmptyCut(cuts') <==> HasEmptyCut(cuts))
            && CutLen(cuts'[0]) + CutLen(cuts'[1]) == CutLen(cuts[0]) + CutLen(cuts[1]) - n
            && (FirstSet(cuts') == 2 ==> !HasEmptyCut(cuts'))
  {
  }

  /** The first cut that starts behind the write offset. */
  function NextCut(cuts: seq<Cut>, writeOffset: int): (c: Cut)
    requires |cuts| == 2
    ensures c.IsSet() ==> c in cuts && writeOffset < c.start
  {
    if cuts[0].IsSet() && cuts[0].start > writeOffset then cuts[0]
    else if cuts[1].IsSet() && cuts[1].start > writeOffset then cuts[1]
    else NO_CUT
  }

  /** What was sent of the ClientHello: everything below the write offset but the cuts; exactly that, if the cuts are
      separated. */
  ghost predicate Progress(sent: set<int>, writeOffset: int, cuts: seq<Cut>, exact: bool) {
    && (forall x :: 0 <= x < writeOffset && !InCut(cuts, x) ==> x in sent)
    && (exact ==> forall x :: x in sent ==> 0 <= x < writeOffset && !InCut(cuts, x))
  }

  /** As long as nothing was sent, the cuts can be chosen. */
  lemma ProgressStart(sent: set<int>, old_cuts: seq<Cut>, cuts: seq<Cut>)
    requires Progress(sent, 0, old_cuts, true)
    ensures Progress(sent, 0, cuts, true) && Progress(sent, 0, cuts, false)
  {
  }

  lemma ProgressNoCuts(sent: set<int>, w: int, exact: bool)
    ensures Progress(sent, w, [NO_CUT, NO_CUT], exact) <==> Progress(sent, w, [], exact)
  {
    assert forall x :: !InCut([NO_CUT, NO_CUT], x) && !InCut([], x);
  }

  /** Sending [w, w + n) in front of the next cut, and skipping that cut when it is reached. */
  lemma ProgressAhead(sent: set<int>, w: int, cuts: seq<Cut>, end: int, exact: bool, n: int)
    requires Progress(sent, w, cuts, exact) && CutsFit(cuts, end) && (exact ==> CutsAhead(cuts, w))
    requires 0 <= w && 0 < n && w + n <= (if NextCut(cuts, w).IsSet() then NextCut(cuts, w).start else end)
    ensures var w' := if w + n == NextCut(cuts, w).start then NextCut(cuts, w).end else w + n;
            && w + n <= w' <= end
            && Progress(sent + Span(w, w + n), w', cuts, exact) && (exact ==> CutsAhead(cuts, w'))
    ensures exact ==> sent !! Span(w, w + n)
  {
    var c := NextCut(cuts, w);
    var w' := if w + n == c.start then c.end else w + n;
    if c.IsSet() {
      var i :| 0 <= i < 2 && cuts[i] == c;
      assert forall x :: c.start <= x < c.end ==> InCut(cuts, x);
    }
    assert forall x :: w + n <= x < w' ==> InCut(cuts, x);
    if exact {
      assert forall x :: w <= x < w + n ==> !InCut(cuts, x);
    }
  }

  /** Sending the first n bytes of a cut. */
  lemma ProgressInCut(sent: set<int>, w: int, cuts: seq<Cut>, exact: bool, i: int, n: int)
    requires Progress(sent, w, cuts, exact) && CutsFit(cuts, w) && (exact ==> CutsAhead(cuts, w))
    requires 0 <= i < 2 && cuts[i].IsSet() && 0 < n <= CutLen(cuts[i])
    ensures var c := cuts[i];
            var cuts' := cuts[i := Rest(c, n)];
            && CutsFit(cuts', w)
            && Progress(sent + Span(c.start, c.start + n), w, cuts', exact) && (exact ==> CutsAhead(cuts', w))
    ensures exact ==> sent !! Span(cuts[i].start, cuts[i].start + n)
  {
    var c := cuts[i];
    var cuts' := cuts[i := Rest(c, n)];
    CutShrinks(cuts, i, n);
    assert exact ==> forall x :: c.start <= x < c.start + n ==> !InCut(cuts', x);
    hide InCut;
  }

  lemma CutShrinks(cuts: seq<Cut>, i: int, n: int)
    requires |cuts| == 2 && 0 <= i < 2 && 0 <= cuts[i].start && 0 < n <= CutLen(cuts[i])
    ensures var c := cuts[i];
            var cuts' := cuts[i := Rest(c, n)];
            && (forall x :: InCut(cuts, x) && !(c.start <= x < c.start + n) ==> InCut(cuts', x))
            && (forall x :: InCut(cuts', x) ==> InCut(cuts, x))
            && (forall x :: c.start <= x < c.start + n ==> InCut(cuts, x))
  {
    var c := cuts[i];
    var cuts' := cuts[i := Rest(c, n)];
    forall x | InCut(cuts, x) && !(c.start <= x < c.start + n) ensures InCut(cuts', x) {
      var j :| 0 <= j < 2 && cuts[j].IsSet() && cuts[j].start <= x < cuts[j].end;
      assert cuts'[j].IsSet() && cuts'[j].start <= x < cuts'[j].end;
    }
    forall x | InCut(cuts', x) ensures InCut(cuts, x) {
      var j :| 0 <= j < 2 && cuts'[j].IsSet() && cuts'[j].start <= x < cuts'[j].end;
      assert cuts[j].IsSet() && cuts[j].start <= x < cuts[j].end;
    }
    assert forall x :: c.start <= x < c.start + n ==> InCut(cuts, x);
  }

  /** The cuts for a server name and an ECH extension: the second half of the name, and 16 bytes from the middle of
      the extension type on, in order. If there are only names of other types, the length of the last one makes a cut
      somewhere else. */
  ghost predicate CutsFor(cuts: seq<Cut>, sniPos: int, sniLen: int, echPos: int, end: int) {
    var name, ech := Cut(sniPos + sniLen / 2, sniPos + sniLen), Cut(echPos + 1, Min(echPos + 17, end));
    && (sniPos != -1 && echPos != -1 && name.start <= echPos ==> cuts == [name, ech])
    && (sniPos != -1 && echPos != -1 && ech.start <= name.start ==> cuts == [ech, name])
    && (sniPos != -1 && echPos == -1 ==> cuts == [name, NO_CUT])
    && (sniPos == -1 && echPos != -1 && sniLen <= 1 ==> |cuts| == 2 && !cuts[0].IsSet() && cuts[1] == ech)
    && (sniPos == -1 && echPos != -1 && 1 < sniLen ==>
          cuts == if ech.start <= name.start then [ech, name] else [name, ech])
  }

  /** Where frames may stop before they are full: at the end of the data, and while it is scrambled, at the end of the
      ClientHello and where a cut starts or ends. */
  ghost predicate IsBorder(x: int, scramble: bool, end: int, cuts: seq<Cut>, total: int) {
    if !scramble then x == total
    else x == end || exists c :: c in cuts && c.IsSet() && (c.start == x || c.end == x)
  }

  /** The sending half of the Initial crypto stream. */
  class InitialCryptoStream {
    const isClient: bool
    var writeOffset: int
    var writeBuf: seq<Byte>
    var scramble: bool
    var clientHelloComplete: bool
    var end: int
    var cuts: seq<Cut>

    // History: all bytes ever written, all frames ever sent, and whether the cuts were separated.
    ghost var written: seq<Byte>
    ghost var sent: seq<Frame>
    ghost var separated: bool

    /** There is a cut as long as the ClientHello is scrambled. */
    ghost predicate Valid()
      reads this
    {
      Consistent() && (scramble && FirstCut() == 2 ==> end == 0)
    }

    ghost predicate Consistent()
      reads this
    {
      && |written| <= Varint.MAX_8 && |cuts| == 2
      && (scramble ==> isClient) && (clientHelloComplete ==> written != [])
      && ArePieces(sent, written)
      && 0 <= writeOffset <= |written|
      && (scramble ==> writeBuf == written && writeOffset <= end <= |written| && CutsFit(cuts, end))
      && (scramble && !clientHelloComplete ==> writeOffset == 0 && end == 0 && cuts == [NO_CUT, NO_CUT] && separated)
      && (!scramble ==> writeBuf == written[writeOffset..])
      && Progress(Spans(sent), writeOffset, if scramble then cuts else [], separated)
      && (separated ==> AreDisjoint(sent) && (scramble ==> CutsAhead(cuts, writeOffset)))
    }

    constructor (isClient: bool, scramble: bool)
      requires scramble ==> isClient
      ensures Valid() && writeOffset == 0 && this.isClient == isClient && written == [] && sent == []
                && this.scramble == scramble && !clientHelloComplete
    {
      this.isClient, this.scramble := isClient, scramble;
      writeOffset, writeBuf, clientHelloComplete, end := 0, [], false, 0;
      cuts := [NO_CUT, NO_CUT];
      written, sent, separated := [], [], true;
    }

    /** An upper bound for the bytes that are still to be sent; the bytes of cuts that lie ahead count twice. */
    ghost function Left(): int
      requires |cuts| == 2
      reads this
    {
      |written| - writeOffset + if scramble then CutLen(cuts[0]) + CutLen(cuts[1]) else 0
    }

    ghost function FirstCut(): int
      requires |cuts| == 2
      reads this`cuts
    {
      FirstSet(cuts)
    }

    /** All of the ClientHello but the cuts was sent, and the first cut is empty. */
    ghost predicate Stuck()
      reads this
    {
      scramble && writeOffset == end && |cuts| == 2 && FirstCut() < 2 && CutLen(cuts[FirstCut()]) == 0
    }

    /** Everything of the ClientHello was sent, but the stream still has to leave the scrambling mode. */
    ghost predicate Leaving()
      reads this
    {
      scramble && writeOffset == end && |cuts| == 2 && FirstCut() == 2
    }

    /** The client waits until the whole ClientHello is there. */
    ghost predicate Waiting()
      reads this
    {
      isClient && writeOffset == 0 && !clientHelloComplete
    }

    /** The stream is going to be stuck. */
    ghost predicate WillStick()
      reads this
    {
      scramble && HasEmptyCut(cuts)
    }

    /** There is data as long as bytes are left, unless the client waits. A stuck stream has data for ever, even if
        there is no byte left. */
    method HasData() returns (r: bool)
      requires Valid()
      ensures r <==> !Waiting() && (Left() > 0 || Stuck())
    {
      hide ArePieces, Spans, AreDisjoint, IsPiece, Progress;
      if isClient && writeOffset == 0 && !clientHelloComplete {
        return false;
      }
      return |writeBuf| > 0;
    }

    /** Chooses the cuts: half of the server name, and a few bytes from the middle of the ECH extension type on. */
    static method ChooseCuts(sniPos: int, sniLen: int, echPos: int, end: int) returns (cuts: seq<Cut>)
      requires sniPos == -1 || 0 <= sniPos
      requires 0 <= sniLen && sniPos + sniLen <= end
      requires echPos == -1 || (0 < echPos && echPos + 4 <= end)
      ensures CutsFit(cuts, end)
      ensures HasEmptyCut(cuts) <==> sniPos != -1 && sniLen == 0
      ensures sniPos != -1 || echPos != -1 ==> cuts[0].IsSet() || cuts[1].IsSet()
      ensures CutsFor(cuts, sniPos, sniLen, echPos, end)
    {
      var c := Cut(sniPos + sniLen / 2, sniPos + sniLen);
      var d := NO_CUT;
      if echPos > 0 {
        var start := echPos + 1;
        d := Cut(start, Min(start + 16, end));
      }
      cuts := if d.start != INVALID_BYTE_COUNT && d.start <= c.start then [d, c] else [c, d];
    }

    /** Buffers data. A client looks for the positions to cut until its ClientHello is complete; what it finds is
        right and complete, and decides if the ClientHello is scrambled, and how. */
    method Write(p: seq<Byte>) returns (ok: bool, ghost found: Option<ClientHello.SearchResult>)
      requires Valid() && |written| + |p| <= Varint.MAX_8
      modifies this
      ensures Valid() && sent == old(sent) && written == old(written) + p && writeOffset == old(writeOffset)
      ensures writeBuf == old(writeBuf) + p && (found.Some? <==> isClient && !old(clientHelloComplete))
      ensures found.Some? ==> ClientHello.Right(writeBuf, found.value)
      ensures clientHelloComplete <==>
                old(clientHelloComplete) || (found.Some? && found.value != ClientHello.Incomplete)
      ensures ok <==> found != Some(ClientHello.Malformed)
      ensures found.Some? && found.value.Found? ==>
                && end == |writeBuf|
                && (scramble <==> old(scramble) && (found.value.sniPos != -1 || found.value.echPos != -1))
                && (scramble ==> CutsFor(cuts, found.value.sniPos, found.value.sniLen, found.value.echPos, end))
      ensures found.None? || !found.value.Found? ==> scramble == old(scramble) && cuts == old(cuts) && end == old(end)
      ensures found.Some? && found.value.Found? && old(scramble) ==>
                (WillStick() <==> found.value.sniPos != -1 && found.value.sniLen == 0)
      ensures old(Stuck()) ==> Stuck()
    {
      hide ArePieces, Spans, AreDisjoint, IsPiece, Progress, ClientHello.Complete, ClientHello.ExtensionsEnd,
          ClientHello.ExtensionsField, ClientHello.FieldEnd, ClientHello.Sound, ClientHello.Right, ClientHello.Result,
          CutsFor;
      ok, found := true, None;
      PiecesGrow(sent, written, p);
      writeBuf, written := writeBuf + p, written + p;
      if isClient && !clientHelloComplete {
        var r := ClientHello.FindSNIAndECH(writeBuf);
        found := Some(r);
        ClientHello.RightIsSound(writeBuf, r);
        if r == ClientHello.Incomplete {
          return true, found;
        }
        clientHelloComplete := true;
        if r == ClientHello.Malformed {
          return false, found;
        }
        SetUpScrambling(r);
      }
    }

    /** Sets up the cuts when the complete ClientHello is buffered. */
    method SetUpScrambling(r: ClientHello.SearchResult)
      requires Valid() && clientHelloComplete && r.Found? && ClientHello.Sound(writeBuf, r)
      requires scramble ==> writeOffset == 0 && cuts == [NO_CUT, NO_CUT] && separated
      modifies this`end, this`cuts, this`separated, this`scramble
      ensures Valid() && end == |writeBuf| && (scramble ==> CutsFor(cuts, r.sniPos, r.sniLen, r.echPos, end))
      ensures scramble <==> old(scramble) && (r.sniPos != -1 || r.echPos != -1)
      ensures old(scramble) ==> (WillStick() <==> r.sniPos != -1 && r.sniLen == 0)
      ensures separated <==> if scramble then CutsSeparated(cuts) else old(separated)
    {
      hide ArePieces, Spans, AreDisjoint, IsPiece, Progress;
      end := |writeBuf|;
      if scramble && (r.sniPos != -1 || r.echPos != -1) {
        cuts := ChooseCuts(r.sniPos, r.sniLen, r.echPos, end);
        ProgressStart(Spans(sent), [NO_CUT, NO_CUT], cuts);
        separated := CutsSeparated(cuts);
      } else {
        ProgressNoCuts(Spans(sent), writeOffset, separated);
        scramble := false;
      }
    }

    /** Records a frame with the bytes at [a, b), which were not sent before if the cuts are separated. */
    ghost method Record(f: Frame, a: int, b: int)
      requires ArePieces(sent, written) && 0 <= a < b <= |written|
      requires f == Crypto(a, written[a..b])
      requires separated ==> AreDisjoint(sent) && Spans(sent) !! Span(a, b)
      modifies this`sent
      ensures sent == old(sent) + [f] && ArePieces(sent, written) && Spans(sent) == old(Spans(sent)) + Span(a, b)
      ensures separated ==> AreDisjoint(sent)
    {
      hide ArePieces, Spans, AreDisjoint, IsPiece;
      SpansAppend(sent, f);
      PiecesAppend(sent, written, f);
      if separated {
        DisjointAppend(sent, f);
      }
      sent := sent + [f];
    }

    /** The plain order. */
    method PopPlain(maxLen: int) returns (f: Option<Frame>)
      requires Valid() && !scramble && maxLen <= Varint.MAX_8
      modifies this`sent, this`writeBuf, this`writeOffset
      ensures Valid() && old(writeOffset) <= writeOffset
      ensures f.None? <==> writeOffset == |written| == old(writeOffset) || MaxDataLen(old(writeOffset), maxLen) <= 0
      ensures f.None? ==> unchanged(this)
      ensures f.Some? ==> sent == old(sent) + [f.value] && Left() < old(Left())
      ensures f.Some? ==> IsFrame(f.value, old(writeOffset), Min(MaxDataLen(old(writeOffset), maxLen), |old(writeBuf)|))
    {
      hide ArePieces, Spans, AreDisjoint, IsPiece;
      var n := Min(MaxDataLen(writeOffset, maxLen), |writeBuf|);
      if n <= 0 {
        return None;
      }
      f := Some(Crypto(writeOffset, writeBuf[..n]));
      assert writeBuf[..n] == written[writeOffset..writeOffset + n];
      ghost var before, w := Spans(sent), writeOffset;
      Record(f.value, writeOffset, writeOffset + n);
      writeBuf := writeBuf[n..];
      writeOffset := writeOffset + n;
      assert Progress(before + Span(w, w + n), w + n, [], separated);
    }

    /** How many bytes there are up to the next cut. */
    ghost function AheadLen(): int
      requires |cuts| == 2
      reads this
    {
      (if NextCut(cuts, writeOffset).IsSet() then NextCut(cuts, writeOffset).start else end) - writeOffset
    }

    /** Sends the next part of the ClientHello that is not in a cut. */
    method PopAhead(maxLen: int) returns (f: Option<Frame>)
      requires Valid() && scramble && writeOffset != end && maxLen <= Varint.MAX_8
      modifies this`sent, this`writeOffset
      ensures Valid() && old(writeOffset) <= writeOffset
      ensures f.None? <==> MaxDataLen(old(writeOffset), maxLen) <= 0
      ensures f.None? ==> unchanged(this)
      ensures f.Some? ==> sent == old(sent) + [f.value] && Left() < old(Left())
      ensures f.Some? ==> IsFrame(f.value, old(writeOffset), Min(MaxDataLen(old(writeOffset), maxLen), old(AheadLen())))
    {
      hide ArePieces, Spans, AreDisjoint, IsPiece, Progress;
      var nextCut := NO_CUT;
      for i := 0 to 2
        invariant i == 0 ==> !nextCut.IsSet()
        invariant i > 0 ==> nextCut == if cuts[0].IsSet() && cuts[0].start > writeOffset then cuts[0] else if i > 1
                    then NextCut(cuts, writeOffset) else NO_CUT
      {
        if cuts[i].IsSet() && cuts[i].start > writeOffset {
          nextCut := cuts[i];
          break;
        }
      }
      assert nextCut == NextCut(cuts, writeOffset);
      var maxOffset := if nextCut.start == INVALID_BYTE_COUNT then end else nextCut.start;
      var n := Min(MaxDataLen(writeOffset, maxLen), maxOffset - writeOffset);
      if n <= 0 {
        return None;
      }
      f := Some(Crypto(writeOffset, writeBuf[writeOffset..writeOffset + n]));
      ProgressAhead(Spans(sent), writeOffset, cuts, end, separated, n);
      Record(f.value, writeOffset, writeOffset + n);
      writeOffset := writeOffset + n;
      if writeOffset == nextCut.start {
        writeOffset := nextCut.end;
      }
    }

    /** Sends up to n bytes of cut i. */
    method SendFromCut(i: int, n: int) returns (f: Frame)
      requires Consistent() && scramble && writeOffset == end
      requires 0 <= i < 2 && cuts[i].IsSet() && 0 < n <= CutLen(cuts[i])
      modifies this`sent, this`cuts
      ensures Consistent() && sent == old(sent) + [f]
      ensures f.Crypto? && f.offset == old(cuts)[i].start && |f.data| == n
      ensures cuts == old(cuts)[i := Rest(old(cuts)[i], n)]
    {
      hide ArePieces, Spans, AreDisjoint, IsPiece, Progress;
      var c := cuts[i];
      f := Crypto(c.start, writeBuf[c.start..c.start + n]);
      ProgressInCut(Spans(sent), writeOffset, cuts, separated, i, n);
      Record(f, c.start, c.start + n);
      cuts := cuts[i := Rest(c, n)];
    }

    /** Ends the scrambling when no cut is left. */
    method LeaveScrambling()
      requires Consistent() && scramble && writeOffset == end && FirstCut() == 2
      modifies this`writeBuf, this`end, this`scramble
      ensures Valid() && !scramble && writeBuf == written[writeOffset..] && end == INVALID_BYTE_COUNT
    {
      hide ArePieces, Spans, AreDisjoint, IsPiece;
      assert forall x :: !InCut(cuts, x);
      writeBuf := writeBuf[end..];
      end := INVALID_BYTE_COUNT;
      scramble := false;
    }

    /** Sends a part of the first cut that is left, and ends the scrambling after the last one. */
    method PopCut(maxLen: int) returns (f: Option<Frame>)
      requires Valid() && scramble && writeOffset == end && maxLen <= Varint.MAX_8
      modifies this`sent, this`cuts, this`writeBuf, this`end, this`scramble
      ensures Valid()
      ensures f.None? <==> old(Leaving()) || old(Stuck()) || MaxDataLen(old(cuts[FirstCut()].start), maxLen) <= 0
      ensures f.None? && !old(Leaving()) ==> unchanged(this)
      ensures f.None? ==> sent == old(sent) && Left() == old(Left())
      ensures f.Some? ==> sent == old(sent) + [f.value] && Left() < old(Left())
      ensures f.Some? ==> old(FirstCut()) < 2 && f.value.Crypto?
      ensures f.Some? ==> var c := old(cuts[FirstCut()]);
                          IsFrame(f.value, c.start, Min(MaxDataLen(c.start, maxLen), CutLen(c)))
      ensures f.Some? ==> cuts == old(cuts[FirstCut() := Rest(cuts[FirstCut()], |f.value.data|)])
      ensures f.Some? ==> (scramble <==> FirstCut() < 2)
      ensures old(Stuck()) ==> Stuck()
      ensures old(Leaving()) ==> !scramble
      ensures WillStick() <==> old(WillStick())
    {
      hide ArePieces, Spans, AreDisjoint, IsPiece, Progress;
      ghost var first := FirstCut();
      var foundCuts := false;
      f := None;
      var i := 0;
      while i < 2
        invariant 0 <= i <= 2 && Consistent() && scramble && writeOffset == end
        invariant f.None? ==> cuts == old(cuts) && sent == old(sent) && !foundCuts && i <= first
        invariant f.Some? ==>
                    && first < i && sent == old(sent) + [f.value]
                    && IsFrame(f.value, old(cuts)[first].start,
                               Min(MaxDataLen(old(cuts)[first].start, maxLen), CutLen(old(cuts)[first])))
                    && cuts == old(cuts)[first := Rest(old(cuts)[first], |f.value.data|)]
                    && f.value.data != []
                    && (foundCuts <==> cuts[first].IsSet()) && (first < 1 < i ==> !cuts[1].IsSet())
      {
        var c := cuts[i];
        if c.IsSet() {
          foundCuts := true;
          if f.Some? {
            break;
          }
          var n := Min(MaxDataLen(c.start, maxLen), c.end - c.start);
          if n <= 0 {
            return None;
          }
          var g := SendFromCut(i, n);
          f := Some(g);
          if !cuts[i].IsSet() {
            foundCuts := false;
          }
        }
        i := i + 1;
      }
      if f.Some? {
        FirstCutShrinks(old(cuts), |f.value.data|);
      }
      if !foundCuts {
        LeaveScrambling();
      }
    }

    /** Where the next frame starts. */
    ghost function NextOffset(): int
      requires Valid() && !Leaving()
      reads this
    {
      if scramble && writeOffset == end then cuts[FirstCut()].start else writeOffset
    }

    /** How many bytes can be in the next frame. */
    ghost function NextLen(): int
      requires Valid() && !Leaving()
      reads this
    {
      if !scramble then |writeBuf| else if writeOffset == end then CutLen(cuts[FirstCut()]) else AheadLen()
    }

    lemma NextIsBorder()
      requires Valid() && !Leaving()
      ensures IsBorder(NextOffset() + NextLen(), scramble, end, cuts, |written|)
    {
      hide ArePieces, Spans, AreDisjoint, IsPiece, Progress;
    }

    /** No frame of the given size can be sent. */
    ghost predicate Blocked(maxLen: int)
      requires Valid() && maxLen <= Varint.MAX_8
      reads this
    {
      Waiting() || Left() == 0 || Stuck() || (!Leaving() && maxLen <= CryptoHeaderLen(NextOffset(), 1))
    }

    /** Pops the next frame. Nothing comes out exactly if everything was sent, or the frame would have no room for
        data, or the scrambling mode is being left, or the stream is stuck at an empty cut. Every frame brings the end
        closer. */
    method PopCryptoFrame(maxLen: int) returns (f: Option<Frame>)
      requires Valid() && maxLen <= Varint.MAX_8
      modifies this
      ensures Valid() && written == old(written) && separated == old(separated)
      ensures clientHelloComplete == old(clientHelloComplete) && old(writeOffset) <= writeOffset
      ensures f.None? <==>
                || old(Leaving()) || old(Stuck()) || (!old(scramble) && old(writeOffset) == |written|)
                || maxLen <= CryptoHeaderLen(old(NextOffset()), 1)
      ensures f.None? && !old(Leaving()) ==> unchanged(this)
      ensures f.None? ==> sent == old(sent) && Left() == old(Left())
      ensures f.Some? ==> sent == old(sent) + [f.value] && Left() < old(Left()) && !Leaving()
      ensures f.Some? ==> IsFrame(f.value, old(NextOffset()),
                Min(MaxDataLen(old(NextOffset()), maxLen), old(NextLen())))
      ensures f.Some? && maxLen <= Varint.MAX_2 + 2 ==> AllThatFits(f.value, old(NextLen()), maxLen)
      ensures f.Some? && |f.value.data| == old(NextLen()) ==>
                IsBorder(f.value.offset + |f.value.data|, old(scramble), old(end), old(cuts), |written|)
      ensures old(Stuck()) ==> Stuck()
      ensures old(Leaving()) ==> !scramble
      ensures WillStick() <==> old(WillStick())
    {
      hide ArePieces, Spans, AreDisjoint, IsPiece, Progress, IsBorder, AllThatFits;
      if !Leaving() {
        NextIsBorder();
      }
      if !scramble {
        f := PopPlain(maxLen);
      } else if writeOffset == end {
        f := PopCut(maxLen);
      } else {
        f := PopAhead(maxLen);
      }
      if f.Some? && maxLen <= Varint.MAX_2 + 2 {
        AsMuchAsFits(f.value, old(NextLen()), maxLen);
      }
    }

    /** Takes frames out as long as there is data, and gives up when there are no more. With room for a byte in every
        frame, everything is sent and the scrambling ended, unless there is an empty cut: then the stream is stuck. */
    method Drain(maxLen: int)
      requires Valid() && 11 <= maxLen <= Varint.MAX_8
      modifies this
      ensures Valid() && written == old(written) && separated == old(separated)
      ensures Waiting() <==> old(Waiting())
      ensures old(Waiting()) ==> sent == old(sent) && scramble == old(scramble)
      ensures !old(Waiting()) ==> if old(WillStick()) then Stuck() else Left() == 0 && !scramble
    {
      hide ArePieces, Spans, AreDisjoint, IsPiece, Progress;
      var hasData := HasData();
      var tries := 2;
      while hasData && tries > 0
        invariant Valid() && written == old(written) && separated == old(separated)
        invariant clientHelloComplete == old(clientHelloComplete) && old(writeOffset) <= writeOffset
        invariant hasData <==> !Waiting() && (Left() > 0 || Stuck())
        invariant Waiting() <==> old(Waiting())
        invariant Waiting() ==> sent == old(sent) && scramble == old(scramble)
        invariant WillStick() <==> old(WillStick())
        invariant tries == 1 ==> Stuck() || !scramble
        invariant 0 <= tries <= 2 && (tries == 0 ==> Stuck())
        decreases Left(), tries
      {
        var f := PopCryptoFrame(maxLen);
        tries := if f.Some? then 2 else tries - 1;
        hasData := HasData();
      }
    }

    /** When nothing is left, the frames that were sent cover all that was written; no byte was sent twice if the cuts
        were separated. */
    lemma EverythingSent()
      requires Valid() && Left() == 0
      ensures Spans(sent) >= Span(0, |written|) && ArePieces(sent, written)
      ensures separated ==> AreDisjoint(sent)
    {
      var cs := if scramble then cuts else [];
      assert forall x :: !InCut(cs, x);
    }
  }

  /** A client sends a message. All of it leaves, and the scrambling ends, exactly if the message is a whole
      ClientHello and its server name is not empty; with an empty server name the stream is stuck. */
  method SendClientHello(hello: seq<Byte>, maxLen: int) returns (s: InitialCryptoStream)
    requires 11 <= maxLen <= Varint.MAX_8 && |hello| <= Varint.MAX_8
    ensures fresh(s) && s.Valid() && s.isClient && s.written == hello
    ensures s.Waiting() <==> ClientHello.Result(hello) == ClientHello.Incomplete
    ensures s.Waiting() ==> s.writeBuf == hello
    ensures var r := ClientHello.Result(hello);
            && (r == ClientHello.Incomplete ==> s.sent == [])
            && (r == ClientHello.Malformed ==> s.Left() == 0 && !s.scramble)
            && (r.Found? ==> (s.Left() == 0 && !s.scramble <==> r.sniPos == -1 || r.sniLen != 0))
            && (r.Found? ==> (s.Stuck() <==> r.sniPos != -1 && r.sniLen == 0))
  {
    s := new InitialCryptoStream(true, true);
    var ok, found := s.Write(hello);
    s.Drain(maxLen);
  }

  /** A ClientHello that leaves the stream stuck. */
  method EmptyServerName() returns (s: InitialCryptoStream)
    ensures s.Valid() && s.written == ClientHello.OneName(0) && s.Stuck()
  {
    ClientHello.EmptyNameIsFound();
    s := SendClientHello(ClientHello.OneName(0), 1000);
  }

  /** A client sends a whole ClientHello, and then more. It waits for ever, and sends nothing, exactly if a length
      inside of the ClientHello does not fit. */
  method SendMore(hello: seq<Byte>, more: seq<Byte>, maxLen: int) returns (s: InitialCryptoStream)
    requires 11 <= maxLen <= Varint.MAX_8 && |hello| + |more| <= Varint.MAX_8
    requires 4 <= |hello| == ClientHello.MessageLen(hello) && hello[0] == 1
    ensures s.Valid() && s.written == hello + more
    ensures s.Waiting() <==> !HelloLengths.LengthsFit(hello)
    ensures s.Waiting() ==> s.sent == []
    ensures !s.Waiting() ==> s.Stuck() || s.Left() == 0
  {
    hide InitialCryptoStream.Valid, HelloLengths.LengthsFit, ClientHello.Result, ClientHello.Sound,
         ClientHello.Complete;
    HelloLengths.IncompleteExactly(hello);
    s := SendClientHello(hello, maxLen);
    if s.Waiting() {
      ClientHello.IncompleteForEver(hello, more);
    }
    var ok, found := s.Write(more);
    s.Drain(maxLen);
  }

  /** A whole ClientHello that is never sent, whatever follows. */
  method LongSessionID(more: seq<Byte>) returns (s: InitialCryptoStream)
    requires |HelloLengths.LONG_SESSION_ID| + |more| <= Varint.MAX_8
    ensures s.Valid() && s.written == HelloLengths.LONG_SESSION_ID + more && s.Waiting() && s.sent == []
  {
    HelloLengths.LongSessionID();
    s := SendMore(HelloLengths.LONG_SESSION_ID, more, 1000);
  }

  datatype HandleError = Ok | CryptoBufferExceeded | ProtocolViolation | TooManyGaps

  /** The receiving half of a crypto stream. */
  class CryptoReceiver {
    const queue: FrameSorter.Sorter
    var highestOffset: int
    var finished: bool

    // History: all data that was taken out.
    ghost var output: seq<Byte>

    ghost predicate Valid()
      reads this, queue
    {
      && queue.Valid() && |output| == queue.readPos && 0 <= highestOffset
      && forall x :: x in queue.received ==> x < highestOffset
    }

    /** The queued bytes are those of `stream`, and what was taken out is its beginning. */
    ghost predicate Follows(stream: seq<Byte>)
      reads this, queue
    {
      FrameSorter.HoldsBytesOf(queue.queue, stream) && (output == [] || IsPiece(stream, output, 0))
    }

    constructor ()
      ensures Valid() && fresh(queue) && output == [] && !finished && queue.received == {} && |queue.gaps| == 1
      ensures highestOffset == 0
      ensures forall stream :: Follows(stream)
    {
      queue := new FrameSorter.Sorter();
      highestOffset, finished, output := 0, false, [];
    }

    /** A CRYPTO frame; frames behind the limit are refused, and so is new data after the stream was finished. */
    method HandleCryptoFrame(f: Frame, ghost stream: seq<Byte>) returns (err: HandleError)
      requires Valid() && f.Crypto? && 0 <= f.offset
      modifies this`highestOffset, queue
      ensures err == CryptoBufferExceeded <==> f.offset + |f.data| > MAX_CRYPTO_STREAM_OFFSET
      ensures err == ProtocolViolation <==>
                  f.offset + |f.data| <= MAX_CRYPTO_STREAM_OFFSET && finished
                      && f.offset + |f.data| > old(highestOffset)
      ensures highestOffset == if err == CryptoBufferExceeded || finished then old(highestOffset)
                               else Max(old(highestOffset), f.offset + |f.data|)
      ensures err != TooManyGaps ==> Valid() && |queue.gaps| <= |old(queue.gaps)| + 1
      ensures err == TooManyGaps ==> |old(queue.gaps)| >= FrameSorter.MAX_GAPS
      ensures FrameSpan(f) <= old(queue.received) ==> err != TooManyGaps && queue.gaps == old(queue.gaps)
      ensures err != Ok || finished ==> err == TooManyGaps || queue.received == old(queue.received)
      ensures err == Ok && !finished ==> queue.received == old(queue.received) + FrameSpan(f)
      ensures err != TooManyGaps && old(Follows(stream)) && IsPiece(stream, f.data, f.offset) ==> Follows(stream)
    {
      hide FrameSorter.Sorter.Valid, FrameSorter.HoldsBytesOf, IsPiece;
      var highest := f.offset + |f.data|;
      if highest > MAX_CRYPTO_STREAM_OFFSET {
        return CryptoBufferExceeded;
      }
      if finished {
        return if highest > highestOffset then ProtocolViolation else Ok;
      }
      highestOffset := Max(highestOffset, highest);
      var r := queue.Push(f.data, f.offset, None, stream);
      err := if r == FrameSorter.TooManyGaps then TooManyGaps else Ok;
    }

    /** The encryption level changes: from now on, all data is refused that is not known; it is an error if there is
        data that was not read. */
    method Finish() returns (ok: bool)
      requires Valid()
      modifies this`finished
      ensures Valid() && finished == (old(finished) || ok)
      ensures ok <==> forall x :: x in queue.received ==> x < |output|
    {
      hide FrameSorter.Sorter.Valid;
      var more := queue.HasMoreData();
      if more {
        return false;
      }
      finished := true;
      return true;
    }

    /** Takes out the next contiguous data, if there is any. */
    method GetCryptoData(ghost stream: seq<Byte>) returns (data: seq<Byte>)
      requires Valid()
      modifies this`output, queue
      ensures Valid() && output == old(output) + data && queue.received == old(queue.received)
      ensures data == [] <==> old(queue.readPos) !in queue.received
      ensures old(Follows(stream)) ==> Follows(stream)
    {
      hide FrameSorter.Sorter.Valid, FrameSorter.HoldsBytesOf, IsPiece;
      var offset, d, cb, panicked, buffer := queue.Pop(stream);
      data := d;
      if FrameSorter.HoldsBytesOf(old(queue.queue), stream) && (output == [] || IsPiece(stream, output, 0))
          && data != [] {
        ExtendPrefix(stream, output, data);
      }
      output := output + data;
      assert data == [] ==> output == old(output);
    }
  }

  lemma ExtendPrefix(stream: seq<Byte>, output: seq<Byte>, data: seq<Byte>)
    requires output == [] || IsPiece(stream, output, 0)
    requires IsPiece(stream, data, |output|)
    ensures IsPiece(stream, output + data, 0)
  {
    if output == [] {
      assert output + data == data;
    } else {
      PieceConcat(stream, output, data, 0);
    }
  }

  lemma PiecesAppend(fs: seq<Frame>, stream: seq<Byte>, f: Frame)
    requires ArePieces(fs, stream) && f.Crypto? && f.data != [] && IsPiece(stream, f.data, f.offset)
    ensures ArePieces(fs + [f], stream)
  {
  }

  lemma PiecesGrow(fs: seq<Frame>, stream: seq<Byte>, p: seq<Byte>)
    requires ArePieces(fs, stream)
    ensures ArePieces(fs, stream + p)
  {
    forall f | f in fs ensures IsPiece(stream + p, f.data, f.offset) {
      assert (stream + p)[f.offset..f.offset + |f.data|] == stream[f.offset..f.offset + |f.data|];
    }
  }
}
