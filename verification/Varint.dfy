// The variable-length integers of section 16 of RFC 9000.
module Varint {
  import opened Protocol

  const MAX_1 := 63
  const MAX_2 := 16383
  const MAX_4 := 1073741823
  const MAX_8 := 4611686018427387903

  predicate Fits(i: int) { 0 <= i <= MAX_8 }

  function Len(i: int): int
    requires Fits(i)
  {
    if i <= MAX_1 then 1 else if i <= MAX_2 then 2 else if i <= MAX_4 then 4 else 8
  }

  /** The low `n` bytes of `i`, most significant first. */
  function BigEndian(i: int, n: nat): (b: seq<Byte>)
    requires 0 <= i
    ensures |b| == n
    decreases n
  {
    if n == 0 then [] else BigEndian(i / 256, n - 1) + [i % 256]
  }

  function FromBigEndian(b: seq<Byte>): (i: int)
    ensures 0 <= i
  {
    if b == [] then 0 else 256 * FromBigEndian(b[..|b| - 1]) + b[|b| - 1]
  }

  /** The number without its low `n` bytes. */
  function Shift(i: int, n: nat): (s: int)
    requires 0 <= i
    ensures 0 <= s
    decreases n
  {
    if n == 0 then i else Shift(i / 256, n - 1)
  }

  /** The two high bits of the first byte of an encoding, which tell its length. */
  function Tag(i: int): (t: int)
    requires Fits(i)
  {
    match Len(i) case 1 => 0x00 case 2 => 0x40 case 4 => 0x80 case _ => 0xc0
  }

  function Append(i: int): (b: seq<Byte>)
    requires Fits(i)
    ensures |b| == Len(i)
  {
    var b := BigEndian(i, Len(i));
    FirstByte(i);
    [b[0] + Tag(i)] + b[1..]
  }

  /** The value and the number of bytes consumed; None if the input ends too early. */
  function Parse(b: seq<Byte>): (r: Option<(int, nat)>)
    ensures r.Some? ==> 0 <= r.value.0 && 0 < r.value.1 <= |b|
  {
    if b == [] then None
    else
      var n := match b[0] / 64 case 0 => 1 case 1 => 2 case 2 => 4 case _ => 8;
      if |b| < n then None else Some((FromBigEndian([b[0] % 64] + b[1..n]), n))
  }

  lemma {:induction false} FirstOfBigEndian(i: int, n: nat)
    requires 0 <= i && 0 < n
    ensures BigEndian(i, n)[0] == Shift(i, n - 1) % 256
    decreases n
  {
    if n > 1 {
      FirstOfBigEndian(i / 256, n - 1);
    }
  }

  function Pow256(n: nat): nat {
    if n == 0 then 1 else 256 * Pow256(n - 1)
  }

  lemma {:induction false} Below(b: seq<Byte>)
    requires b != [] && b[0] < 64
    ensures FromBigEndian(b) < 64 * Pow256(|b| - 1)
  {
    if |b| > 1 {
      Below(b[..|b| - 1]);
    } else {
      assert b[..0] == [];
    }
  }

  /** No encoding of a number is shorter than the one that is written. */
  lemma ShortestEncoding(b: seq<Byte>)
    requires Parse(b).Some?
    ensures Fits(Parse(b).value.0) && Len(Parse(b).value.0) <= Parse(b).value.1
  {
    var n := Parse(b).value.1;
    Below([b[0] % 64] + b[1..n]);
    assert Pow256(1) == 256 && Pow256(3) == 256 * Pow256(2) && Pow256(2) == 65536;
    assert Pow256(4) == 256 * Pow256(3) && Pow256(5) == 256 * Pow256(4) && Pow256(6) == 256 * Pow256(5);
    assert Pow256(7) == 256 * Pow256(6);
  }

  /** The value bits of the first byte leave room for the tag. */
  lemma FirstByte(i: int)
    requires Fits(i)
    ensures 0 <= BigEndian(i, Len(i))[0] < 64 && Shift(i, Len(i)) == 0
  {
    var n := Len(i);
    FirstOfBigEndian(i, n);
    if n == 4 {
      assert Shift(i, 3) == i / 256 / 256 / 256;
    } else if n == 8 {
      var j := i / 256 / 256 / 256 / 256;
      assert Shift(i, 7) == Shift(i / 256 / 256, 5) == Shift(j, 3) == j / 256 / 256 / 256;
      assert Shift(i, 8) == Shift(i / 256 / 256, 6) == Shift(j, 4) == j / 256 / 256 / 256 / 256;
    }
  }

  lemma {:induction false} BigEndianRoundTrip(i: int, n: nat)
    requires 0 <= i && Shift(i, n) == 0
    ensures FromBigEndian(BigEndian(i, n)) == i
    decreases n
  {
    if n > 0 {
      BigEndianRoundTrip(i / 256, n - 1);
      assert BigEndian(i, n)[..n - 1] == BigEndian(i / 256, n - 1);
    }
  }

  /** Decoding an encoded number gives the number back, whatever follows it. */
  lemma ParseAppend(i: int, rest: seq<Byte>)
    requires Fits(i)
    ensures Parse(Append(i) + rest) == Some((i, Len(i)))
  {
    var n := Len(i);
    var b, c := BigEndian(i, n), Append(i) + rest;
    FirstByte(i);
    BigEndianRoundTrip(i, n);
    assert [c[0] % 64] + c[1..n] == b;
  }

  /** Larger numbers do not have shorter encodings. */
  lemma LenMonotone(i: int, j: int)
    requires Fits(j) && 0 <= i <= j
    ensures Len(i) <= Len(j)
  {
  }
}
