// STREAM frames: their length on the wire, how much data fits into one, and how they are split and truncated.
module StreamFrames {
  import opened Protocol
  import Varint

  /** The largest packet that fits into a buffer. */
  const MAX_PACKET_BUFFER_SIZE := 1472

  datatype StreamFrame = StreamFrame(streamID: int, offset: int, data: seq<Byte>, fin: bool, dataLenPresent: bool) {
    function End(): int { offset + |data| }

    predicate Writable() {
      Varint.Fits(streamID) && 0 <= offset && End() <= Varint.MAX_8
    }
  }

  /** The length of the frame type, the stream ID and the offset, which is left out if it is 0. */
  function PrefixLen(streamID: int, offset: int): (n: int)
    requires Varint.Fits(streamID) && Varint.Fits(offset)
    ensures 2 <= n <= 17
  {
    1 + Varint.Len(streamID) + if offset != 0 then Varint.Len(offset) else 0
  }

  /** The length of a frame with `n` bytes of data. */
  function LengthWith(streamID: int, offset: int, dataLenPresent: bool, n: int): int
    requires Varint.Fits(streamID) && Varint.Fits(offset) && Varint.Fits(n)
  {
    PrefixLen(streamID, offset) + (if dataLenPresent then Varint.Len(n) else 0) + n
  }

  function Length(f: StreamFrame): int
    requires f.Writable()
  {
    LengthWith(f.streamID, f.offset, f.dataLenPresent, |f.data|)
  }

  /** A frame with one byte more would be too long. */
  predicate FilledUp(f: StreamFrame, maxSize: int)
    requires f.Writable() && |f.data| < Varint.MAX_8
  {
    maxSize < LengthWith(f.streamID, f.offset, f.dataLenPresent, |f.data| + 1)
  }

  /** How much data fits into a frame of the given size; 0 if there is no room. */
  function MaxDataLen(streamID: int, offset: int, dataLenPresent: bool, maxSize: int): (n: int)
    requires Varint.Fits(streamID) && Varint.Fits(offset) && maxSize <= Varint.MAX_8
    ensures 0 <= n
  {
    var headerLen := PrefixLen(streamID, offset) + if dataLenPresent then 1 else 0;
    if headerLen > maxSize then 0
    else
      var n := maxSize - headerLen;
      if dataLenPresent && Varint.Len(n) != 1 then n - 1 else n
  }

  /** In packets of up to 16385 bytes the limit is exact: data fits exactly if it is within the limit. */
  lemma MaxDataLenExact(streamID: int, offset: int, dataLenPresent: bool, maxSize: int, n: int)
    requires Varint.Fits(streamID) && Varint.Fits(offset) && maxSize <= Varint.MAX_2 + 2 && 0 < n <= Varint.MAX_8
    ensures n <= MaxDataLen(streamID, offset, dataLenPresent, maxSize) <==>
            LengthWith(streamID, offset, dataLenPresent, n) <= maxSize
  {
    Varint.LenMonotone(Min(n, Varint.MAX_2), n);
  }

  /** Data within the limit makes a frame within the size, as long as the length field needs at most two bytes. */
  lemma MaxDataLenFits(f: StreamFrame, maxSize: int)
    requires f.Writable() && maxSize <= Varint.MAX_8 && 0 < |f.data| <= Varint.MAX_2
    requires |f.data| <= MaxDataLen(f.streamID, f.offset, f.dataLenPresent, maxSize)
    ensures Length(f) <= maxSize
  {
  }

  /** The limit for the data leaves room for the header. */
  lemma MaxDataLenSmall(streamID: int, offset: int, maxSize: int)
    requires Varint.Fits(streamID) && Varint.Fits(offset) && maxSize <= Varint.MAX_2 + 2
    ensures MaxDataLen(streamID, offset, true, maxSize) <= Varint.MAX_2
  {
  }

  /** A frame that is too long for the size has more data than fits. */
  lemma TooLongToFit(f: StreamFrame, maxSize: int)
    requires f.Writable() && |f.data| <= Varint.MAX_2 && maxSize < Length(f)
    ensures |f.data| == 0 ==> MaxDataLen(f.streamID, f.offset, f.dataLenPresent, maxSize) == 0
    ensures 0 < |f.data| ==> MaxDataLen(f.streamID, f.offset, f.dataLenPresent, maxSize) < |f.data|
  {
  }

  /** The outcome of splitting a frame: nothing to do, no room for any data, or the two parts. */
  datatype SplitResult = Fits | NoRoom | Parts(first: StreamFrame, rest: StreamFrame)

  function SplitAt(f: StreamFrame, n: int): SplitResult
    requires 0 <= n <= |f.data|
  {
    Parts(f.(data := f.data[..n], fin := false), f.(offset := f.offset + n, data := f.data[n..]))
  }

  /** Splits off a frame that is not longer than `maxSize`. */
  function MaybeSplitOff(f: StreamFrame, maxSize: int): (r: SplitResult)
    requires f.Writable() && |f.data| <= Varint.MAX_2 && maxSize <= Varint.MAX_8
    ensures r.Parts? ==> r.first.data != [] && r.rest.data != [] && r.first.data + r.rest.data == f.data
    ensures r.Parts? ==> r.first.End() == r.rest.offset && !r.first.fin && r.rest.fin == f.fin
  {
    if maxSize >= Length(f) then Fits
    else
      var n := MaxDataLen(f.streamID, f.offset, f.dataLenPresent, maxSize);
      TooLongToFit(f, maxSize);
      if n == 0 then NoRoom else SplitAt(f, n)
  }

  lemma SplitOffFits(f: StreamFrame, maxSize: int)
    requires f.Writable() && |f.data| <= Varint.MAX_2 && maxSize <= Varint.MAX_8 && MaybeSplitOff(f, maxSize).Parts?
    ensures var p := MaybeSplitOff(f, maxSize);
                p == SplitAt(f, |p.first.data|) && p.first.Writable() && Length(p.first) <= maxSize
    ensures maxSize <= Varint.MAX_2 + 2 ==> FilledUp(MaybeSplitOff(f, maxSize).first, maxSize)
  {
    var first := MaybeSplitOff(f, maxSize).first;
    MaxDataLenFits(first, maxSize);
    if maxSize <= Varint.MAX_2 + 2 {
      MaxDataLenExact(f.streamID, f.offset, f.dataLenPresent, maxSize, |first.data| + 1);
    }
  }

  /** Nothing can be split off exactly if not even one byte fits. */
  lemma NoRoomForOneByte(f: StreamFrame, maxSize: int)
    requires f.Writable() && |f.data| <= Varint.MAX_2 && maxSize <= Varint.MAX_2 + 2
    ensures MaybeSplitOff(f, maxSize).NoRoom? <==>
            maxSize < Length(f) && maxSize < LengthWith(f.streamID, f.offset, f.dataLenPresent, 1)
  {
    MaxDataLenExact(f.streamID, f.offset, f.dataLenPresent, maxSize, 1);
  }

  /** The part of a frame below `limit`; the FIN bit stays. */
  function Truncate(f: StreamFrame, limit: int): StreamFrame
    requires f.offset <= limit
  {
    if f.End() > limit then f.(data := f.data[..limit - f.offset]) else f
  }

  /** The first frame of the queue is sent again, or the beginning of it. */
  predicate Resends(before: seq<StreamFrame>, f: StreamFrame, after: seq<StreamFrame>) {
    && before != []
    && (|| (f == before[0] && after == before[1..])
        || (&& 0 < |f.data| < |before[0].data| && after != [] && after == before[0 := after[0]]
            && SplitAt(before[0], |f.data|) == Parts(f, after[0])))
  }

  /** What is sent of the first frame of the queue is not too long. */
  lemma ResendFits(queue: seq<StreamFrame>, maxSize: int)
    requires queue != [] && queue[0].Writable() && |queue[0].data| <= Varint.MAX_2 && maxSize <= Varint.MAX_8
    ensures var r := MaybeSplitOff(queue[0], maxSize);
            && (r.Fits? ==> Length(queue[0]) <= maxSize && Resends(queue, queue[0], queue[1..]))
            && (r.Parts? ==>
                  && 0 < |r.first.data| < |queue[0].data| && r == SplitAt(queue[0], |r.first.data|)
                  && r.first.Writable() && Length(r.first) <= maxSize && r.first.End() <= queue[0].End()
                  && (maxSize <= Varint.MAX_2 + 2 ==> FilledUp(r.first, maxSize))
                  && Resends(queue, r.first, queue[0 := r.rest]))
  {
    if MaybeSplitOff(queue[0], maxSize).Parts? {
      SplitOffFits(queue[0], maxSize);
    }
  }
}
