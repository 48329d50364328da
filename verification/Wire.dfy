// The frames of an Initial packet on the wire: CRYPTO, PING and PADDING (sections 19.1, 19.2 and 19.6 of RFC 9000).
module Wire {
  import opened Protocol
  import Varint

  const TYPE_PADDING: Byte := 0x00
  const TYPE_PING: Byte := 0x01
  const TYPE_CRYPTO: Byte := 0x06

  /** A frame as a value; `Other` stands for any other kind, known by its serialized form. */
  datatype Frame = Crypto(offset: int, data: seq<Byte>) | Ping | Other(bytes: seq<Byte>)

  /** An element of a packet payload. */
  datatype Entry = FrameEntry(frame: Frame) | Padding(len: nat)

  /** Frames that can be written: all numbers have an encoding. */
  predicate Writable(f: Frame) {
    f.Crypto? ==> 0 <= f.offset && f.offset + |f.data| <= Varint.MAX_8
  }

  function CryptoHeaderLen(offset: int, dataLen: int): int
    requires Varint.Fits(offset) && Varint.Fits(dataLen)
  {
    1 + Varint.Len(offset) + Varint.Len(dataLen)
  }

  function Length(f: Frame): int
    requires Writable(f)
  {
    match f
    case Crypto(offset, data) => CryptoHeaderLen(offset, |data|) + |data|
    case Ping => 1
    case Other(bytes) => |bytes|
  }

  function Append(f: Frame): (b: seq<Byte>)
    requires Writable(f)
    ensures |b| == Length(f)
  {
    match f
    case Crypto(offset, data) => [TYPE_CRYPTO] + Varint.Append(offset) + Varint.Append(|data|) + data
    case Ping => [TYPE_PING]
    case Other(bytes) => bytes
  }

  predicate WritableEntry(e: Entry) {
    e.FrameEntry? ==> Writable(e.frame)
  }

  function EntryLength(e: Entry): int
    requires WritableEntry(e)
  {
    if e.Padding? then e.len else Length(e.frame)
  }

  function Zeros(n: nat): (b: seq<Byte>)
    ensures |b| == n && forall i :: 0 <= i < n ==> b[i] == 0
  {
    if n == 0 then [] else [TYPE_PADDING] + Zeros(n - 1)
  }

  function AppendEntry(e: Entry): (b: seq<Byte>)
    requires WritableEntry(e)
    ensures |b| == EntryLength(e)
  {
    if e.Padding? then Zeros(e.len) else Append(e.frame)
  }

  function AppendAll(es: seq<Entry>): seq<Byte>
    requires forall e :: e in es ==> WritableEntry(e)
  {
    if es == [] then [] else AppendEntry(es[0]) + AppendAll(es[1..])
  }

  /** The data of a CRYPTO frame behind its type, and the number of bytes consumed. */
  function ParseCrypto(b: seq<Byte>): (r: Option<(Frame, nat)>)
    ensures r.Some? ==> 0 < r.value.1 <= |b|
  {
    match Varint.Parse(b)
    case None => None
    case Some((offset, l)) =>
      match Varint.Parse(b[l..])
      case None => None
      case Some((dataLen, m)) =>
        if dataLen > |b| - l - m then None
        else Some((Crypto(offset, b[l + m..l + m + dataLen]), l + m + dataLen))
  }

  /** Parses a payload frame by frame; only the frame kinds of the scattered Initial packet are understood. */
  function ParsePayload(b: seq<Byte>): Option<seq<Frame>>
    decreases |b|
  {
    if b == [] then Some([])
    else
      match Varint.Parse(b)
      case None => None
      case Some((typ, l)) =>
        if typ == TYPE_PADDING then ParsePayload(b[l..])
        else if typ == TYPE_PING then Prepend(Ping, ParsePayload(b[l..]))
        else if typ == TYPE_CRYPTO then
          match ParseCrypto(b[l..])
          case None => None
          case Some((f, m)) => Prepend(f, ParsePayload(b[l + m..]))
        else None
  }

  function Prepend(f: Frame, r: Option<seq<Frame>>): Option<seq<Frame>> {
    if r.None? then None else Some([f] + r.value)
  }

  /** The frames of a payload, in order, without the padding. */
  function Frames(es: seq<Entry>): seq<Frame> {
    if es == [] then [] else (if es[0].Padding? then [] else [es[0].frame]) + Frames(es[1..])
  }

  lemma ParseType(t: Byte, rest: seq<Byte>)
    requires t < 64
    ensures Varint.Parse([t] + rest) == Some((t as int, 1))
  {
    assert Varint.BigEndian(t, 1) == [t];
    assert Varint.Append(t) == [t];
    Varint.ParseAppend(t, rest);
  }

  lemma CryptoRoundTrip(f: Frame, rest: seq<Byte>)
    requires f.Crypto? && Writable(f)
    ensures ParseCrypto(Append(f)[1..] + rest) == Some((f, Length(f) - 1))
  {
    hide Varint.Parse, Varint.Append;
    var o, n := Varint.Append(f.offset), Varint.Append(|f.data|);
    CryptoLayout(TYPE_CRYPTO, o, n, f.data, rest);
    Varint.ParseAppend(f.offset, n + (f.data + rest));
    Varint.ParseAppend(|f.data|, f.data + rest);
  }

  /** The fields of a frame behind its type. */
  lemma CryptoLayout(t: Byte, o: seq<Byte>, n: seq<Byte>, data: seq<Byte>, rest: seq<Byte>)
    ensures var b := ([t] + o + n + data)[1..] + rest;
            && b == o + (n + (data + rest)) && b[|o|..] == n + (data + rest)
            && b[|o| + |n|..|o| + |n| + |data|] == data
  {
  }

  lemma {:induction false} ParseSkipsPadding(n: nat, rest: seq<Byte>)
    ensures ParsePayload(Zeros(n) + rest) == ParsePayload(rest)
  {
    if n == 0 {
      assert Zeros(n) + rest == rest;
    } else {
      var b := Zeros(n) + rest;
      assert b == [TYPE_PADDING] + (Zeros(n - 1) + rest);
      ParseType(TYPE_PADDING, Zeros(n - 1) + rest);
      assert b[1..] == Zeros(n - 1) + rest;
      ParseSkipsPadding(n - 1, rest);
    }
  }

  /** The receiver of a payload finds the frames that were written, in order. */
  lemma {:induction false} ParseFindsFrames(es: seq<Entry>)
    requires forall e :: e in es ==> WritableEntry(e) && (e.FrameEntry? ==> !e.frame.Other?)
    ensures ParsePayload(AppendAll(es)) == Some(Frames(es))
  {
    if es != [] {
      ParseFindsFrames(es[1..]);
      var b, rest := AppendAll(es), AppendAll(es[1..]);
      match es[0]
      case Padding(n) =>
        ParseSkipsPadding(n, rest);
        assert Frames(es) == Frames(es[1..]);
      case FrameEntry(Ping) =>
        assert b == [TYPE_PING] + rest;
        ParseType(TYPE_PING, rest);
        assert b[1..] == rest;
      case FrameEntry(Crypto(offset, data)) =>
        ParseFirstCrypto(es[0].frame, rest);
    }
  }

  lemma ParseFirstCrypto(f: Frame, rest: seq<Byte>)
    requires f.Crypto? && Writable(f)
    ensures ParsePayload(Append(f) + rest) == Prepend(f, ParsePayload(rest))
  {
    hide Append, Length, ParseCrypto, ParsePayload, Varint.Parse;
    FirstByte(f, rest);
    CryptoRoundTrip(f, rest);
    ParseOneCrypto(Append(f)[1..] + rest, f, Length(f) - 1);
  }

  lemma FirstByte(f: Frame, rest: seq<Byte>)
    requires f.Crypto? && Writable(f)
    ensures 1 <= Length(f) && Append(f) + rest == [TYPE_CRYPTO] + (Append(f)[1..] + rest)
    ensures (Append(f)[1..] + rest)[Length(f) - 1..] == rest
  {
    assert Append(f)[0] == TYPE_CRYPTO;
    assert Append(f) == [TYPE_CRYPTO] + Append(f)[1..];
  }

  lemma ParseOneCrypto(b: seq<Byte>, f: Frame, n: nat)
    requires ParseCrypto(b) == Some((f, n)) && n <= |b|
    ensures ParsePayload([TYPE_CRYPTO] + b) == Prepend(f, ParsePayload(b[n..]))
  {
    hide ParseCrypto, Varint.Parse;
    ParseType(TYPE_CRYPTO, b);
    assert ([TYPE_CRYPTO] + b)[1..] == b && ([TYPE_CRYPTO] + b)[1 + n..] == b[n..];
  }
}
