// Constants and small vocabulary shared by every component.
module Protocol {

  /** Offsets and sizes are ByteCounts; the largest one is 2^62 - 1. */
  const MAX_BYTE_COUNT: int := 0x3FFF_FFFF_FFFF_FFFF

  /** The marker for "no offset"; it compares below every real size. */
  const INVALID_BYTE_COUNT: int := -1

  type Byte = b: int | 0 <= b < 256

  datatype Option<+T> = None | Some(value: T)

  function Min(a: int, b: int): int { if a <= b then a else b }

  function Max(a: int, b: int): int { if a >= b then a else b }

  /** `data` is what the byte string `stream` holds at `offset`. */
  predicate IsPiece(stream: seq<Byte>, data: seq<Byte>, offset: int) {
    0 <= offset && offset + |data| <= |stream| && data == stream[offset..offset + |data|]
  }

  lemma PieceOfPiece(stream: seq<Byte>, data: seq<Byte>, offset: int, a: int, b: int)
    requires IsPiece(stream, data, offset) && 0 <= a <= b <= |data|
    ensures IsPiece(stream, data[a..b], offset + a)
  {
    var whole := stream[offset..offset + |data|];
    forall i | 0 <= i < b - a ensures data[a..b][i] == stream[offset + a..offset + b][i] {
      assert whole[a + i] == stream[offset + a + i];
    }
  }

  /** The offsets from a up to but not including b. */
  ghost function Span(a: int, b: int): (s: set<int>)
    ensures forall x :: x in s <==> a <= x < b
    decreases b - a
  {
    if a >= b then {} else {a} + Span(a + 1, b)
  }

  lemma PieceOfLonger(stream: seq<Byte>, more: seq<Byte>, data: seq<Byte>, offset: int)
    requires IsPiece(stream, data, offset)
    ensures IsPiece(stream + more, data, offset)
  {
    assert (stream + more)[offset..offset + |data|] == stream[offset..offset + |data|];
  }

  lemma PieceConcat(stream: seq<Byte>, p: seq<Byte>, q: seq<Byte>, offset: int)
    requires IsPiece(stream, p, offset) && IsPiece(stream, q, offset + |p|)
    ensures IsPiece(stream, p + q, offset)
  {
    var n, m := offset + |p|, offset + |p| + |q|;
    assert stream[offset..m] == stream[offset..n] + stream[n..m];
  }

  lemma SomeMember<T>(s: set<T>) returns (x: T)
    requires s != {}
    ensures x in s
  {
    x :| x in s;
  }
}
