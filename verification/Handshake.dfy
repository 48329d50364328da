// From the bytes that TLS writes to the bytes that the peer's TLS reads: crypto stream, scattered Initial packets, an
// unreliable network, frame parsing and reassembly.
module Handshake {
  import opened Protocol
  import opened Wire
  import opened Payload
  import opened ChaosProtector
  import opened CryptoStream
  import PacketPacker
  import FrameSorter
  import Varint

  /** The CRYPTO frames among the frames. */
  function CryptoOnly(fs: seq<Frame>): seq<Frame> {
    if fs == [] then [] else (if fs[0].Crypto? then [fs[0]] else []) + CryptoOnly(fs[1..])
  }

  lemma {:induction false} CryptoOnlyMember(fs: seq<Frame>, f: Frame)
    ensures f in CryptoOnly(fs) <==> f in fs && f.Crypto?
  {
    if fs != [] {
      CryptoOnlyMember(fs[1..], f);
    }
  }

  lemma {:induction false} FramesMember(es: seq<Entry>, f: Frame)
    ensures f in Frames(es) <==> FrameEntry(f) in es
  {
    if es != [] {
      FramesMember(es[1..], f);
    }
  }

  lemma {:induction false} CryptoOnlyConcat(fs: seq<Frame>, gs: seq<Frame>)
    ensures CryptoOnly(fs + gs) == CryptoOnly(fs) + CryptoOnly(gs)
  {
    if fs == [] {
      assert fs + gs == gs;
    } else {
      var head := if fs[0].Crypto? then [fs[0]] else [];
      assert (fs + gs)[0] == fs[0] && (fs + gs)[1..] == fs[1..] + gs;
      CryptoOnlyConcat(fs[1..], gs);
      calc {
        CryptoOnly(fs + gs);
        head + CryptoOnly(fs[1..] + gs);
        head + (CryptoOnly(fs[1..]) + CryptoOnly(gs));
        head + CryptoOnly(fs[1..]) + CryptoOnly(gs);
      }
    }
  }

  lemma {:induction false} CryptosCounted(ws: seq<Item>)
    ensures |CryptoOnly(Frames(ws))| == Sum(ws).cryptos
  {
    if ws != [] {
      CryptosCounted(ws[1..]);
      var head := if ws[0].Padding? then [] else [ws[0].frame];
      CryptoOnlyConcat(head, Frames(ws[1..]));
      assert head != [] ==> head[1..] == [];
    }
  }

  /** A payload delivers pieces of `stream` at the offsets `span`, in not more than `most` CRYPTO frames, and nothing
      else but PING frames. */
  ghost predicate Delivers(payload: seq<Byte>, stream: seq<Byte>, span: set<int>, most: int) {
    var r := ParsePayload(payload);
    && r.Some?
    && (forall f :: f in r.value ==> !f.Other?)
    && ArePieces(CryptoOnly(r.value), stream)
    && Spans(CryptoOnly(r.value)) == span
    && |CryptoOnly(r.value)| <= most
  }

  /** The entries of a packet with the given CRYPTO frames. */
  function AsItems(fs: seq<Frame>): (vs: seq<Item>)
    requires forall f :: f in fs ==> Writable(f)
    ensures |vs| == |fs| && forall i :: 0 <= i < |fs| ==> vs[i] == FrameEntry(fs[i])
  {
    if fs == [] then [] else
      var e: Item := FrameEntry(fs[0]);
      [e] + AsItems(fs[1..])
  }

  /** Byte b at offset x is one of the bytes of `stream`. */
  predicate At(stream: seq<Byte>, x: int, b: Byte) {
    0 <= x < |stream| && stream[x] == b
  }

  lemma ContentOfPieces(fs: seq<Frame>, vs: seq<Item>, stream: seq<Byte>, x: int, b: Byte)
    requires ArePieces(fs, stream) && |vs| == |fs| && forall i :: 0 <= i < |fs| ==> vs[i] == FrameEntry(fs[i])
    ensures (x, b) in Sum(vs).content <==> x in Spans(fs) && At(stream, x, b)
  {
    hide Sum, Spans, Carries, FrameSpan, At, IsPiece;
    SumMember(vs, x, b);
    SpansMember(fs, x);
    forall i | 0 <= i < |fs| ensures Carries(vs[i], x, b) <==> x in FrameSpan(fs[i]) && At(stream, x, b) {
      assert fs[i] in fs;
      PieceCarries(fs[i], vs[i], stream, x, b);
    }
  }

  /** What a frame carries is what the stream has at its offsets. */
  lemma PieceCarries(f: Frame, v: Item, stream: seq<Byte>, x: int, b: Byte)
    requires f.Crypto? && v == FrameEntry(f) && IsPiece(stream, f.data, f.offset)
    ensures Carries(v, x, b) <==> x in FrameSpan(f) && At(stream, x, b)
  {
    if x in FrameSpan(f) {
      assert f.data[x - f.offset] == stream[f.offset..f.offset + |f.data|][x - f.offset] == stream[x];
    }
  }

  /** A frame all of whose bytes are bytes of `stream` is a piece of it. */
  lemma PieceFromBytes(f: Frame, stream: seq<Byte>)
    requires f.Crypto? && f.data != []
    requires forall i :: 0 <= i < |f.data| ==> At(stream, f.offset + i, f.data[i])
    ensures IsPiece(stream, f.data, f.offset)
  {
    assert At(stream, f.offset + 0, f.data[0]);
    assert At(stream, f.offset + (|f.data| - 1), f.data[|f.data| - 1]);
    forall i | 0 <= i < |f.data| ensures f.data[i] == stream[f.offset..f.offset + |f.data|][i] {
      assert At(stream, f.offset + i, f.data[i]);
    }
  }

  /** Entries with the same CRYPTO content as the pieces `fs` carry pieces of the same stream at the same offsets. */
  lemma SameContentDelivers(fs: seq<Frame>, vs: seq<Item>, ws: seq<Item>, stream: seq<Byte>)
    requires ArePieces(fs, stream) && |vs| == |fs| && forall i :: 0 <= i < |fs| ==> vs[i] == FrameEntry(fs[i])
    requires Sum(ws).content == Sum(vs).content && NonEmptyCrypto(ws)
    ensures ArePieces(CryptoOnly(Frames(ws)), stream)
    ensures Spans(CryptoOnly(Frames(ws))) == Spans(fs)
  {
    hide Sum, ArePieces, CryptoOnly, Frames, Spans, FrameSpan, IsPiece;
    var gs := CryptoOnly(Frames(ws));
    forall g | g in gs ensures g.Crypto? && g.data != [] && IsPiece(stream, g.data, g.offset)
        && FrameSpan(g) <= Spans(fs) {
      SamePiece(fs, vs, ws, stream, g);
    }
    MakePieces(gs, stream);
    forall x | x in Spans(gs) ensures x in Spans(fs) {
      SpansMember(gs, x);
    }
    forall x | x in Spans(fs) ensures x in Spans(gs) {
      SameSpan(fs, vs, ws, stream, x);
    }
  }

  lemma MakePieces(gs: seq<Frame>, stream: seq<Byte>)
    requires forall g :: g in gs ==> g.Crypto? && g.data != [] && IsPiece(stream, g.data, g.offset)
    ensures ArePieces(gs, stream)
  {
  }

  lemma SamePiece(fs: seq<Frame>, vs: seq<Item>, ws: seq<Item>, stream: seq<Byte>, g: Frame)
    requires ArePieces(fs, stream) && |vs| == |fs| && forall i :: 0 <= i < |fs| ==> vs[i] == FrameEntry(fs[i])
    requires Sum(ws).content == Sum(vs).content && NonEmptyCrypto(ws)
    requires g in CryptoOnly(Frames(ws))
    ensures g.Crypto? && g.data != [] && IsPiece(stream, g.data, g.offset) && FrameSpan(g) <= Spans(fs)
  {
    hide Sum, ArePieces, Spans, IsPiece, CryptoOnly, Frames;
    CryptoOnlyMember(Frames(ws), g);
    FramesMember(ws, g);
    forall i | 0 <= i < |g.data| ensures At(stream, g.offset + i, g.data[i]) && g.offset + i in Spans(fs) {
      CarriedByte(ws, g, i);
      ContentOfPieces(fs, vs, stream, g.offset + i, g.data[i]);
    }
    PieceFromBytes(g, stream);
    forall x | x in FrameSpan(g) ensures x in Spans(fs) {
      var i := x - g.offset;
      assert At(stream, g.offset + i, g.data[i]);
    }
  }

  lemma SameSpan(fs: seq<Frame>, vs: seq<Item>, ws: seq<Item>, stream: seq<Byte>, x: int)
    requires ArePieces(fs, stream) && |vs| == |fs| && forall i :: 0 <= i < |fs| ==> vs[i] == FrameEntry(fs[i])
    requires Sum(ws).content == Sum(vs).content
    requires x in Spans(fs)
    ensures x in Spans(CryptoOnly(Frames(ws)))
  {
    hide Sum, ArePieces, Spans, IsPiece, CryptoOnly, Frames;
    var gs := CryptoOnly(Frames(ws));
    SpanByte(fs, stream, x);
    ContentOfPieces(fs, vs, stream, x, stream[x]);
    SumMember(ws, x, stream[x]);
    var i :| 0 <= i < |ws| && Carries(ws[i], x, stream[x]);
    FramesMember(ws, ws[i].frame);
    CryptoOnlyMember(Frames(ws), ws[i].frame);
    var j :| 0 <= j < |gs| && gs[j] == ws[i].frame;
    assert x in FrameSpan(gs[j]);
    SpansMember(gs, x);
  }

  lemma CarriedByte(ws: seq<Item>, g: Frame, i: int)
    requires FrameEntry(g) in ws && g.Crypto? && 0 <= i < |g.data|
    ensures (g.offset + i, g.data[i]) in Sum(ws).content
  {
    hide Sum;
    var k :| 0 <= k < |ws| && ws[k] == FrameEntry(g);
    assert Carries(ws[k], g.offset + i, g.data[i]);
    SumMember(ws, g.offset + i, g.data[i]);
  }

  lemma SpanByte(fs: seq<Frame>, stream: seq<Byte>, x: int)
    requires ArePieces(fs, stream) && x in Spans(fs)
    ensures 0 <= x < |stream|
  {
    SpansMember(fs, x);
    var i :| 0 <= i < |fs| && x in FrameSpan(fs[i]);
    assert fs[i] in fs;
  }

  lemma {:induction false} OthersMember(ws: seq<Item>, f: Frame)
    requires FrameEntry(f) in ws && !f.Crypto?
    ensures f in Sum(ws).others
  {
    if ws[0] != FrameEntry(f) {
      OthersMember(ws[1..], f);
    }
  }

  /** The length of the frames on the wire. */
  ghost function TotalLength(fs: seq<Frame>): int
    requires forall f :: f in fs ==> Writable(f)
  {
    if fs == [] then 0 else TotalLength(fs[..|fs| - 1]) + Length(fs[|fs| - 1])
  }

  /** Builds the frames in memory. */
  method MakeSlots(fs: seq<Frame>, ghost vs: seq<Item>) returns (slots: seq<Slot>)
    requires forall f :: f in fs ==> f.Crypto? && Writable(f)
    requires |vs| == |fs| && forall i :: 0 <= i < |fs| ==> vs[i] == FrameEntry(fs[i])
    ensures Shows(slots, vs) && TotalLength(fs) == Sum(vs).size && |fs| == Sum(vs).cryptos
  {
    hide Sum;
    slots := [];
    SpreadEmpty();
    for i := 0 to |fs|
      invariant |slots| == i && Shows(slots, vs[..i]) && TotalLength(fs[..i]) == Sum(vs[..i]).size
                && i == Sum(vs[..i]).cryptos
    {
      assert fs[..i + 1][..i] == fs[..i];
      assert fs[i] in fs && vs[..i + 1] == vs[..i] + [vs[i]];
      SumAppend(vs[..i], vs[i]);
      var f := new CryptoFrame(fs[i].offset, fs[i].data);
      slots := slots + [Ref(f)];
    }
    assert fs[..|fs|] == fs;
    assert vs[..|fs|] == vs;
  }

  lemma SpreadEmpty()
    ensures Sum([]) == NOTHING && Shows([], []) && NonEmptyCrypto([])
  {
  }

  lemma {:induction false} OthersOfCrypto(vs: seq<Item>)
    requires forall v :: v in vs ==> IsCrypto(v)
    ensures Sum(vs).others == multiset{}
  {
    if vs != [] {
      OthersOfCrypto(vs[1..]);
      assert IsCrypto(vs[0]) && One(vs[0]).others == multiset{};
    }
  }

  /** The receiver of the scattered entries finds only PING frames besides the CRYPTO frames. */
  lemma OnlyPings(vs: seq<Item>, ws: seq<Item>)
    requires forall v :: v in vs ==> IsCrypto(v)
    requires forall f :: f != Ping ==> Sum(ws).others[f] == Sum(vs).others[f]
    ensures forall e :: e in ws ==> WritableEntry(e) && (e.FrameEntry? ==> !e.frame.Other?)
  {
    OthersOfCrypto(vs);
    forall e | e in ws && e.FrameEntry? ensures !e.frame.Other? {
      if !e.frame.Crypto? {
        OthersMember(ws, e.frame);
      }
    }
  }

  /** The most CRYPTO frames that a packet has after the scattering. */
  function MostFrames(fs: seq<Frame>): int { |fs| + MAX_ADDED_CRYPTO_FRAMES }

  /** There are frames, all of them have at least two bytes, and the padding pays for splitting one. */
  ghost predicate CanSplit(fs: seq<Frame>, stream: seq<Byte>, paddingLen: int)
    requires |stream| <= Varint.MAX_8
  {
    && fs != [] && (forall f :: f in fs ==> f.Crypto? && 2 <= |f.data|)
    && Overhead(0, |stream|) <= paddingLen
  }

  lemma AtLeastOneSplit(fs: seq<Frame>, vs: seq<Item>, ws: seq<Item>, stream: seq<Byte>, paddingLen: nat, random: Draws,
                        t: int)
    requires Fair(random)
    requires ArePieces(fs, stream) && |stream| <= Varint.MAX_8 && CanSplit(fs, stream, paddingLen)
    requires |vs| == |fs| && forall i :: 0 <= i < |fs| ==> vs[i] == FrameEntry(fs[i])
    requires 0 < paddingLen && HasCrypto(vs) ==> PacketPacker.IsScattered(vs, ws, paddingLen, random, t)
    ensures Sum(vs).cryptos < Sum(ws).cryptos
  {
    hide Sum, Scatter;
    assert IsCrypto(vs[0]) && fs[0] in fs;
    var lo, hi, pings: nat :| IsRange(vs, lo, hi) && Scattered(vs, ws, paddingLen, pings, Overhead(lo, hi))
                         && Sum(ws).others == Sum(vs).others + Pings(pings)
                         && vs != [] && ws == Scatter(vs, paddingLen, Overhead(lo, hi), random, t).0;
    forall v | v in vs ensures IsCrypto(v) && 2 <= |v.frame.data| && 0 <= v.frame.offset
                                && v.frame.offset + |v.frame.data| <= |stream| {
      var i :| 0 <= i < |vs| && vs[i] == v;
      assert fs[i] in fs;
    }
    OverheadIsLeast(vs, lo, hi, 0, |stream|);
  }

  /** Packs CRYPTO frames of the given total length into the payload of an Initial packet of the client. */
  method PackInitial(fs: seq<Frame>, length: int, paddingLen: int, random: Draws, t: int, ghost stream: seq<Byte>)
    returns (payload: seq<Byte>, t': int)
    requires Fair(random)
    requires ArePieces(fs, stream) && |stream| <= Varint.MAX_8 && 0 <= paddingLen && length == TotalLength(fs)
    ensures Delivers(payload, stream, Spans(fs), MostFrames(fs)) && |payload| == length + paddingLen
    ensures CanSplit(fs, stream, paddingLen) ==> |fs| < |CryptoOnly(ParsePayload(payload).value)|
  {
    hide Sum, Shows, Spans, CryptoOnly, PacketPacker.IsScattered, PacketPacker.IsPlain, HasCrypto, CanSplit;
    assert forall f :: f in fs ==> f.Crypto? && Writable(f);
    ghost var vs := AsItems(fs);
    var slots := MakeSlots(fs, vs);
    SpreadEmpty();
    var r;
    ghost var ws;
    r, t', ws := PacketPacker.AppendPacketPayload([], [], slots, [], length, paddingLen, true, random, t, vs, []);
    payload := r.raw;
    assert payload == AppendAll(ws);
    assert Sum(ws).content == Sum(vs).content;
    assert NonEmptyCrypto(vs);
    OnlyPings(vs, ws);
    ParseFindsFrames(ws);
    SameContentDelivers(fs, vs, ws, stream);
    CryptosCounted(ws);
    if CanSplit(fs, stream, paddingLen) {
      AtLeastOneSplit(fs, vs, ws, stream, paddingLen, random, t);
    }
    forall f | f in Frames(ws) ensures !f.Other? { FramesMember(ws, f); }
  }

  /** Takes frames out of the stream until the packet is full or there is nothing to send, and adds up their lengths.
      The size of the packet is small enough for length fields of two bytes. */
  method CollectFrames(sender: InitialCryptoStream, maxSize: int) returns (fs: seq<Frame>, length: int)
    requires sender.Valid() && maxSize <= Varint.MAX_2
    modifies sender
    ensures sender.Valid() && sender.written == old(sender.written) && sender.sent == old(sender.sent) + fs
    ensures ArePieces(fs, sender.written) && (forall f :: f in fs ==> Writable(f))
    ensures 0 <= length == TotalLength(fs) <= Max(0, maxSize)
    ensures sender.Blocked(maxSize - length) || (fs == [] && old(sender.Leaving()))
  {
    hide TotalLength, IsPiece, Spans, AreDisjoint, Progress, MaxDataLen;
    fs, length := [], 0;
    NoLength();
    var left := maxSize;
    while true
      invariant sender.Valid() && sender.written == old(sender.written) && sender.sent == old(sender.sent) + fs
      invariant forall f :: f in fs ==> Writable(f)
      invariant ArePieces(fs, sender.written) && 0 <= length == TotalLength(fs) <= Max(0, maxSize)
      invariant left == maxSize - length && (sender.Leaving() ==> fs == [] && old(sender.Leaving()))
      decreases sender.Left()
    {
      var more := sender.HasData();
      if !more {
        return;
      }
      var f := sender.PopCryptoFrame(left);
      if f.None? {
        return;
      }
      PoppedPiece(old(sender.sent), fs, f.value, sender.written);
      FrameFits(f.value, left);
      LengthAdd(fs, f.value);
      fs := fs + [f.value];
      length := length + Length(f.value);
      left := left - Length(f.value);
    }
  }

  lemma NoLength()
    ensures TotalLength([]) == 0
  {
  }

  lemma LengthAdd(fs: seq<Frame>, f: Frame)
    requires (forall g :: g in fs ==> Writable(g)) && Writable(f)
    ensures TotalLength(fs + [f]) == TotalLength(fs) + Length(f)
  {
    assert (fs + [f])[..|fs|] == fs;
  }

  lemma PoppedPiece(before: seq<Frame>, fs: seq<Frame>, f: Frame, stream: seq<Byte>)
    requires ArePieces(before + fs + [f], stream) && |stream| <= Varint.MAX_8
    ensures f.Crypto? && f.data != [] && Writable(f) && ArePieces(fs + [f], stream)
    ensures forall g :: g in fs ==> Writable(g)
  {
    assert forall g :: g in fs + [f] ==> g in before + fs + [f];
  }

  /** A frame with as much data as fits is not longer than the packet. */
  lemma FrameFits(f: Frame, maxSize: int)
    requires f.Crypto? && f.data != [] && Writable(f) && maxSize <= Varint.MAX_2
               && |f.data| <= MaxDataLen(f.offset, maxSize)
    ensures 0 < Length(f) <= maxSize
  {
  }

  /** Sends one Initial packet: the announced length is the right one, and the payload has that length and the
      padding. */
  method SendInitial(sender: InitialCryptoStream, maxSize: int, paddingLen: int, random: Draws, t: int)
    returns (payload: seq<Byte>, t': int, ghost fs: seq<Frame>)
    requires Fair(random)
    requires sender.Valid() && maxSize <= Varint.MAX_2 && 0 <= paddingLen
    modifies sender
    ensures sender.Valid() && sender.written == old(sender.written) && sender.sent == old(sender.sent) + fs
    ensures Delivers(payload, sender.written, Spans(fs), MostFrames(fs))
    ensures paddingLen <= |payload| <= Max(0, maxSize) + paddingLen
    ensures sender.Blocked(maxSize - (|payload| - paddingLen)) || (fs == [] && old(sender.Leaving()))
  {
    hide Delivers, TotalLength, Spans;
    var frames, length := CollectFrames(sender, maxSize);
    fs := frames;
    payload, t' := PackInitial(frames, length, paddingLen, random, t, sender.written);
  }

  method SumOfLengths(fs: seq<Frame>, ghost stream: seq<Byte>) returns (length: int)
    requires ArePieces(fs, stream) && |stream| <= Varint.MAX_8
    ensures length == TotalLength(fs)
  {
    length := 0;
    for i := 0 to |fs|
      invariant length == TotalLength(fs[..i])
    {
      assert fs[..i + 1][..i] == fs[..i];
      length := length + Length(fs[i]);
    }
    assert fs[..|fs|] == fs;
  }

  /** Packs each group of frames into one packet. */
  method PackAll(groups: seq<seq<Frame>>, paddingLens: seq<nat>, random: Draws, ghost stream: seq<Byte>)
      returns (payloads: seq<seq<Byte>>)
    requires Fair(random)
    requires forall i :: 0 <= i < |groups| ==> ArePieces(groups[i], stream)
    requires |paddingLens| == |groups| && |stream| <= Varint.MAX_8
    ensures |payloads| == |groups|
    ensures forall i :: 0 <= i < |groups| ==> Delivers(payloads[i], stream, Spans(groups[i]), MostFrames(groups[i]))
  {
    hide Delivers, Spans, IsPiece, TotalLength;
    payloads := [];
    var t := 0;
    for i := 0 to |groups|
      invariant |payloads| == i
      invariant forall j :: 0 <= j < i ==> Delivers(payloads[j], stream, Spans(groups[j]), MostFrames(groups[j]))
    {
      var length := SumOfLengths(groups[i], stream);
      var p;
      p, t := PackInitial(groups[i], length, paddingLens[i], random, t, stream);
      payloads := payloads + [p];
    }
  }

  /** Handles the frames of a received payload; gives up when the sorter reports too many gaps. That needs more frames
      than there is room for gaps, and a payload that brings nothing new is never refused. */
  method HandlePayload(payload: seq<Byte>, receiver: CryptoReceiver, ghost stream: seq<Byte>, ghost span: set<int>,
                       ghost most: int) returns (ok: bool)
    requires receiver.Valid() && receiver.Follows(stream) && !receiver.finished
    requires Delivers(payload, stream, span, most) && |stream| <= MAX_CRYPTO_STREAM_OFFSET
    modifies receiver`highestOffset, receiver.queue
    ensures ok ==> receiver.Valid() && receiver.Follows(stream)
    ensures ok ==> receiver.queue.received == old(receiver.queue.received) + span
    ensures ok ==> |receiver.queue.gaps| <= |old(receiver.queue.gaps)| + most
    ensures !ok ==> FrameSorter.MAX_GAPS < |old(receiver.queue.gaps)| + most
    ensures span <= old(receiver.queue.received) ==> ok && receiver.queue.gaps == old(receiver.queue.gaps)
  {
    hide FrameSorter.Sorter.Valid, CryptoReceiver.Follows, Spans, FrameSpan, CryptoOnly, ParsePayload, Delivers,
         IsPiece;
    DeliveredFrames(payload, stream, span, most);
    var frames := ParsePayload(payload).value;
    assert frames[..0] == [];
    for i := 0 to |frames|
      invariant receiver.Valid() && receiver.Follows(stream)
      invariant receiver.queue.received == old(receiver.queue.received) + Spans(CryptoOnly(frames[..i]))
      invariant |receiver.queue.gaps| <= |old(receiver.queue.gaps)| + |CryptoOnly(frames[..i])|
      invariant span <= old(receiver.queue.received) ==> receiver.queue.gaps == old(receiver.queue.gaps)
    {
      CryptoOnlyStep(frames, i);
      if frames[i].Crypto? {
        SpansAppend(CryptoOnly(frames[..i]), frames[i]);
        var err := receiver.HandleCryptoFrame(frames[i], stream);
        if err == TooManyGaps {
          return false;
        }
      }
    }
    assert frames[..|frames|] == frames;
    return true;
  }

  lemma DeliveredFrames(payload: seq<Byte>, stream: seq<Byte>, span: set<int>, most: int)
    requires Delivers(payload, stream, span, most)
    ensures ParsePayload(payload).Some?
    ensures var fs := ParsePayload(payload).value;
            && (forall i :: 0 <= i < |fs| && fs[i].Crypto? ==>
                  && IsPiece(stream, fs[i].data, fs[i].offset) && 0 <= fs[i].offset
                  && fs[i].offset + |fs[i].data| <= |stream| && FrameSpan(fs[i]) <= span)
            && Spans(CryptoOnly(fs)) == span && |CryptoOnly(fs)| <= most
    ensures CryptoOnly([]) == [] && Spans([]) == {}
  {
    var fs := ParsePayload(payload).value;
    forall i | 0 <= i < |fs| && fs[i].Crypto?
      ensures IsPiece(stream, fs[i].data, fs[i].offset) && FrameSpan(fs[i]) <= span
    {
      CryptoOnlyMember(fs, fs[i]);
      var gs := CryptoOnly(fs);
      var j :| 0 <= j < |gs| && gs[j] == fs[i];
      forall x | x in FrameSpan(gs[j]) ensures x in Spans(gs) { SpansMember(gs, x); }
    }
  }

  lemma CryptoOnlyStep(fs: seq<Frame>, i: int)
    requires 0 <= i < |fs|
    ensures CryptoOnly(fs[..i + 1]) == if fs[i].Crypto? then CryptoOnly(fs[..i]) + [fs[i]] else CryptoOnly(fs[..i])
    ensures |CryptoOnly(fs[..i + 1])| <= |CryptoOnly(fs)|
  {
    assert fs[..i + 1] == fs[..i] + [fs[i]] && fs == fs[..i + 1] + fs[i + 1..];
    assert [fs[i]][1..] == [];
    CryptoOnlyConcat(fs[..i], [fs[i]]);
    CryptoOnlyConcat(fs[..i + 1], fs[i + 1..]);
  }

  /** The offsets of all frames in all groups. */
  ghost function GroupSpans(groups: seq<seq<Frame>>, chosen: seq<nat>): set<int>
    requires forall a :: 0 <= a < |chosen| ==> chosen[a] < |groups|
  {
    if chosen == [] then {} else GroupSpans(groups, chosen[..|chosen| - 1]) + Spans(groups[chosen[|chosen| - 1]])
  }

  function Flatten(groups: seq<seq<Frame>>): seq<Frame> {
    if groups == [] then [] else Flatten(groups[..|groups| - 1]) + groups[|groups| - 1]
  }

  /** The most CRYPTO frames in the packets with the numbers `ks`, counting each packet once. */
  ghost function FramesOf(groups: seq<seq<Frame>>, ks: set<nat>): int {
    if groups == [] then 0
    else
      var k := |groups| - 1;
      FramesOf(groups[..k], ks) + if k in ks then MostFrames(groups[k]) else 0
  }

  lemma {:induction false} FramesOfOneMore(groups: seq<seq<Frame>>, ks: set<nat>, k: nat)
    requires k !in ks
    ensures FramesOf(groups, ks + {k}) == FramesOf(groups, ks) + if k < |groups| then MostFrames(groups[k]) else 0
  {
    if groups != [] {
      FramesOfOneMore(groups[..|groups| - 1], ks, k);
    }
  }

  lemma {:induction false} FramesOfAll(groups: seq<seq<Frame>>, ks: set<nat>)
    ensures 0 <= FramesOf(groups, ks) <= |Flatten(groups)| + MAX_ADDED_CRYPTO_FRAMES * |groups|
  {
    if groups != [] {
      FramesOfAll(groups[..|groups| - 1], ks);
    }
  }

  ghost function Numbers(arrivals: seq<nat>): set<nat> { set k | k in arrivals }

  /** A packet that has arrived brings nothing new, and a new packet brings its frames. */
  lemma OneMoreArrives(groups: seq<seq<Frame>>, arrivals: seq<nat>, a: int)
    requires 0 <= a < |arrivals| && forall b :: 0 <= b < |arrivals| ==> arrivals[b] < |groups|
    ensures GroupSpans(groups, arrivals[..a + 1]) == GroupSpans(groups, arrivals[..a]) + Spans(groups[arrivals[a]])
    ensures var k, ks, ks' := arrivals[a], Numbers(arrivals[..a]), Numbers(arrivals[..a + 1]);
            if k in ks then Spans(groups[k]) <= GroupSpans(groups, arrivals[..a]) && ks' == ks
            else FramesOf(groups, ks') == FramesOf(groups, ks) + MostFrames(groups[k])
    ensures FramesOf(groups, Numbers(arrivals[..a + 1])) <= |Flatten(groups)| + MAX_ADDED_CRYPTO_FRAMES * |groups|
  {
    var k, ks, ks' := arrivals[a], Numbers(arrivals[..a]), Numbers(arrivals[..a + 1]);
    assert arrivals[..a + 1] == arrivals[..a] + [k];
    assert arrivals[..a + 1][..a] == arrivals[..a];
    assert ks' == ks + {k};
    FramesOfAll(groups, ks');
    if k in ks {
      forall x | x in Spans(groups[k]) ensures x in GroupSpans(groups, arrivals[..a]) {
        GroupSpansMember(groups, arrivals[..a], k, x);
      }
    } else {
      FramesOfOneMore(groups, ks, k);
    }
  }

  /** The whole way. The frames that any sequence of pops produced are sent in packets of any grouping, with any
      padding and any random choices of the scattering; the packets arrive in any order, some of them more than once.
      When every packet has arrived and nothing is left to send, the receiver gets exactly the bytes that were
      written. The sorter can only object if the frames that were sent, and those that the scattering may add, are too
      many for its gaps; packets that arrive again never count. */
  method EndToEnd(sender: InitialCryptoStream, groups: seq<seq<Frame>>, paddingLens: seq<nat>, random: Draws,
                  arrivals: seq<nat>)
    returns (ok: bool, output: seq<Byte>)
    requires Fair(random)
    requires sender.Valid() && sender.Left() == 0 && |sender.written| <= MAX_CRYPTO_STREAM_OFFSET
    requires Flatten(groups) == sender.sent && |paddingLens| == |groups|
    requires forall a :: 0 <= a < |arrivals| ==> arrivals[a] < |groups|
    requires forall i :: 0 <= i < |groups| ==> i in arrivals
    ensures ok ==> output == sender.written
    ensures 1 + |sender.sent| + MAX_ADDED_CRYPTO_FRAMES * |groups| <= FrameSorter.MAX_GAPS ==> ok
  {
    hide FrameSorter.Sorter.Valid, CryptoReceiver.Follows, InitialCryptoStream.Valid, Spans, Delivers, ArePieces,
         Flatten, GroupSpans, FramesOf, Numbers;
    ghost var stream := sender.written;
    sender.EverythingSent();
    GroupsArePieces(groups, stream);
    var payloads := PackAll(groups, paddingLens, random, stream);
    var receiver := new CryptoReceiver();
    ok, output := true, [];
    NoneArrived(groups);
    assert arrivals[..0] == [];
    for a := 0 to |arrivals|
      invariant fresh(receiver) && fresh(receiver.queue)
      invariant receiver.Valid() && receiver.Follows(stream) && !receiver.finished && receiver.output == []
      invariant receiver.queue.received == GroupSpans(groups, arrivals[..a])
      invariant |receiver.queue.gaps| <= 1 + FramesOf(groups, Numbers(arrivals[..a]))
    {
      var k := arrivals[a];
      OneMoreArrives(groups, arrivals, a);
      ok := HandlePayload(payloads[k], receiver, stream, Spans(groups[k]), MostFrames(groups[k]));
      if !ok {
        return;
      }
    }
    assert arrivals[..|arrivals|] == arrivals;
    ok := true;
    output := ReadAll(receiver, stream);
    forall x | 0 <= x < |stream| ensures x in receiver.queue.received {
      AllArrived(groups, arrivals, x);
    }
    CompleteOutput(stream, output, receiver.queue.received);
  }

  lemma {:induction false} NoneArrived(groups: seq<seq<Frame>>)
    ensures GroupSpans(groups, []) == {} && FramesOf(groups, Numbers([])) == 0
  {
    if groups != [] {
      NoneArrived(groups[..|groups| - 1]);
    }
  }

  /** Reads everything that is available and returns it. */
  method ReadAll(receiver: CryptoReceiver, ghost stream: seq<Byte>) returns (output: seq<Byte>)
    requires receiver.Valid() && receiver.Follows(stream) && receiver.output == []
    modifies receiver`output, receiver.queue
    ensures receiver.queue.received == old(receiver.queue.received)
    ensures |output| !in receiver.queue.received && (output == [] || IsPiece(stream, output, 0))
  {
    hide FrameSorter.HoldsBytesOf, IsPiece;
    output := [];
    while true
      invariant receiver.Valid() && receiver.Follows(stream) && receiver.output == output
      invariant receiver.queue.received == old(receiver.queue.received)
      decreases MAX_BYTE_COUNT - receiver.queue.readPos
    {
      var data := receiver.GetCryptoData(stream);
      output := output + data;
      if data == [] {
        return;
      }
    }
  }

  lemma CompleteOutput(stream: seq<Byte>, output: seq<Byte>, received: set<int>)
    requires forall x :: 0 <= x < |stream| ==> x in received
    requires |output| !in received && (output == [] || IsPiece(stream, output, 0))
    ensures output == stream
  {
    assert |output| >= |stream|;
    assert stream[0..|stream|] == stream;
  }

  lemma {:induction false} FlattenMember(groups: seq<seq<Frame>>, f: Frame)
    ensures f in Flatten(groups) <==> exists i :: 0 <= i < |groups| && f in groups[i]
  {
    if groups != [] {
      var k := |groups| - 1;
      FlattenMember(groups[..k], f);
      if i :| 0 <= i < k && f in groups[i] {
        assert groups[..k][i] == groups[i];
      }
    }
  }

  lemma GroupsArePieces(groups: seq<seq<Frame>>, stream: seq<Byte>)
    requires ArePieces(Flatten(groups), stream)
    ensures forall i :: 0 <= i < |groups| ==> ArePieces(groups[i], stream)
  {
    forall i, f | 0 <= i < |groups| && f in groups[i] ensures f in Flatten(groups) {
      FlattenMember(groups, f);
    }
  }

  lemma {:induction false} GroupSpansMember(groups: seq<seq<Frame>>, chosen: seq<nat>, k: nat, x: int)
    requires forall a :: 0 <= a < |chosen| ==> chosen[a] < |groups|
    requires k in chosen && x in Spans(groups[k])
    ensures x in GroupSpans(groups, chosen)
  {
    var last := |chosen| - 1;
    if chosen[last] != k {
      GroupSpansMember(groups, chosen[..last], k, x);
    }
  }

  /** An offset that some frame carries has arrived. */
  lemma AllArrived(groups: seq<seq<Frame>>, arrivals: seq<nat>, x: int)
    requires forall a :: 0 <= a < |arrivals| ==> arrivals[a] < |groups|
    requires forall i :: 0 <= i < |groups| ==> i in arrivals
    requires x in Spans(Flatten(groups))
    ensures x in GroupSpans(groups, arrivals)
  {
    var fs := Flatten(groups);
    SpansMember(fs, x);
    var n :| 0 <= n < |fs| && x in FrameSpan(fs[n]);
    FlattenMember(groups, fs[n]);
    var i :| 0 <= i < |groups| && fs[n] in groups[i];
    var m :| 0 <= m < |groups[i]| && groups[i][m] == fs[n];
    SpansMember(groups[i], x);
    GroupSpansMember(groups, arrivals, i, x);
  }
}
