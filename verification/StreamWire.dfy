// STREAM frames on the wire.
module StreamWire {
  import opened Protocol
  import opened StreamFrames
  import Varint

  /** Frames from this size on need a buffer, which holds a packet of the maximum size. */
  const MIN_BUFFER_SIZE := 128

  const TYPE_STREAM := 0x08
  const FIN_BIT := 0x01
  const LEN_BIT := 0x02
  const OFF_BIT := 0x04

  function HasBit(typ: int, bit: int): bool
    requires 0 < bit
  {
    typ / bit % 2 == 1
  }

  /** The type tells whether the frame ends the stream, and which fields it has. */
  function TypeOf(f: StreamFrame): (typ: Byte)
    ensures TYPE_STREAM <= typ < 0x10
    ensures HasBit(typ, FIN_BIT) == f.fin && HasBit(typ, LEN_BIT) == f.dataLenPresent
    ensures HasBit(typ, OFF_BIT) == (f.offset != 0)
  {
    TYPE_STREAM + (if f.fin then FIN_BIT else 0) + (if f.dataLenPresent then LEN_BIT else 0)
      + if f.offset != 0 then OFF_BIT else 0
  }

  function Body(f: StreamFrame): seq<Byte>
    requires f.Writable()
  {
    Varint.Append(f.streamID) + (if f.offset != 0 then Varint.Append(f.offset) else [])
      + (if f.dataLenPresent then Varint.Append(|f.data|) else []) + f.data
  }

  /** The frame as it is written; a frame without data that does not end the stream is refused. */
  function Append(f: StreamFrame): (b: Option<seq<Byte>>)
    requires f.Writable()
    ensures b.None? <==> f.data == [] && !f.fin
    ensures b.Some? ==> |b.value| == Length(f)
  {
    if f.data == [] && !f.fin then None else Some([TypeOf(f)] + Body(f))
  }

  /** Reads an optional number. */
  function ParseField(b: seq<Byte>, present: bool): (r: Option<(int, nat)>)
    ensures r.Some? ==> 0 <= r.value.0 && r.value.1 <= |b|
  {
    if present then Varint.Parse(b) else Some((0, 0))
  }

  /** A frame of the given type, and how many bytes it takes. Without a length the rest of the packet is data. */
  function Parse(b: seq<Byte>, typ: Byte): (r: Option<(StreamFrame, nat)>)
    ensures r.Some? ==> r.value.1 <= |b| && r.value.0.End() <= MAX_BYTE_COUNT
  {
    var id := Varint.Parse(b);
    if id.None? then None
    else
      var offset := ParseField(b[id.value.1..], HasBit(typ, OFF_BIT));
      if offset.None? then None
      else
        var pos := id.value.1 + offset.value.1;
        var len := ParseField(b[pos..], HasBit(typ, LEN_BIT));
        if len.None? then None
        else ParseData(b, typ, id.value.0, offset.value.0, pos + len.value.1,
                       if HasBit(typ, LEN_BIT) then len.value.0 else |b| - pos)
  }

  function ParseData(b: seq<Byte>, typ: Byte, streamID: int, offset: int, pos: nat, len: int)
      : (r: Option<(StreamFrame, nat)>)
    requires pos <= |b| && 0 <= len
    ensures r.Some? ==> r.value.1 <= |b| && r.value.0.End() <= MAX_BYTE_COUNT
  {
    if len > |b| - pos || (MIN_BUFFER_SIZE <= len && MAX_PACKET_BUFFER_SIZE < len) || MAX_BYTE_COUNT < offset + len
    then None
    else
      var f := StreamFrame(streamID, offset, b[pos..pos + len], HasBit(typ, FIN_BIT), HasBit(typ, LEN_BIT));
      Some((f, pos + len))
  }

  /** The fields in front of the data. */
  lemma ParsedHeader(b: seq<Byte>, f: StreamFrame, i: seq<Byte>, o: seq<Byte>, n: seq<Byte>, data: seq<Byte>)
    requires f.Writable() && i == Varint.Append(f.streamID)
    requires o == if f.offset != 0 then Varint.Append(f.offset) else []
    requires n == if f.dataLenPresent then Varint.Append(|f.data|) else []
    requires b == i + (o + (n + data)) && b[|i|..] == o + (n + data) && b[|i| + |o|..] == n + data
    ensures Parse(b, TypeOf(f)) == ParseData(b, TypeOf(f), f.streamID, f.offset, |i| + |o| + |n|,
                                             if f.dataLenPresent then |f.data| else |b| - |i| - |o|)
  {
    hide Varint.Parse, Varint.Append, TypeOf, HasBit, ParseData;
    Varint.ParseAppend(f.streamID, o + (n + data));
    if f.offset != 0 {
      Varint.ParseAppend(f.offset, n + data);
    }
    if f.dataLenPresent {
      Varint.ParseAppend(|f.data|, data);
    }
  }

  /** A written frame is parsed as it was, exactly if its data fits into a buffer; one without a length has to be the
      last one of the packet. */
  lemma RoundTrip(f: StreamFrame, rest: seq<Byte>)
    requires f.Writable() && (f.data != [] || f.fin) && (f.dataLenPresent || rest == [])
    ensures var b := Append(f).value + rest;
            Parse(b[1..], b[0])
              == if |f.data| <= MAX_PACKET_BUFFER_SIZE then Some((f, Length(f) - 1)) else None
  {
    hide Varint.Parse, Varint.Append, TypeOf, HasBit, Parse;
    var i, o := Varint.Append(f.streamID), if f.offset != 0 then Varint.Append(f.offset) else [];
    var n := if f.dataLenPresent then Varint.Append(|f.data|) else [];
    Fields(TypeOf(f), i, o, n, f.data, rest);
    ParsedHeader((Append(f).value + rest)[1..], f, i, o, n, f.data + rest);
  }

  lemma Fields(t: Byte, i: seq<Byte>, o: seq<Byte>, n: seq<Byte>, data: seq<Byte>, rest: seq<Byte>)
    ensures var b := ([t] + (i + o + n + data) + rest)[1..];
            && ([t] + (i + o + n + data) + rest)[0] == t
            && b == i + (o + (n + (data + rest))) && b[|i|..] == o + (n + (data + rest))
            && b[|i| + |o|..] == n + (data + rest)
            && b[|i| + |o| + |n|..|i| + |o| + |n| + |data|] == data
            && |b| == |i| + |o| + |n| + |data| + |rest|
  {
  }
}
