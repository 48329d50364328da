// What a packet payload means: which stream bytes its CRYPTO frames carry, which other frames it holds, how long it
// is.
module Payload {
  import opened Protocol
  import opened Wire
  import Varint

  /** An element of a payload that can be written. */
  type Item = e: Entry | WritableEntry(e) witness Padding(0)

  /** The length, the number of CRYPTO frames and the bytes they carry, and the other frames. */
  datatype Summary = Summary(size: int, cryptos: int, content: multiset<(int, Byte)>, others: multiset<Frame>)

  const NOTHING := Summary(0, 0, multiset{}, multiset{})

  function Plus(a: Summary, b: Summary): Summary {
    Summary(a.size + b.size, a.cryptos + b.cryptos, a.content + b.content, a.others + b.others)
  }

  /** The bytes of a CRYPTO frame with their offsets. */
  function Placed(offset: int, data: seq<Byte>): multiset<(int, Byte)>
    decreases |data|
  {
    if data == [] then multiset{} else multiset{(offset, data[0])} + Placed(offset + 1, data[1..])
  }

  function One(e: Item): Summary
  {
    match e
    case Padding(n) => Summary(n, 0, multiset{}, multiset{})
    case FrameEntry(Crypto(offset, data)) => Summary(EntryLength(e), 1, Placed(offset, data), multiset{})
    case FrameEntry(f) => Summary(EntryLength(e), 0, multiset{}, multiset{f})
  }

  function Sum(es: seq<Item>): Summary
  {
    if es == [] then NOTHING else Plus(One(es[0]), Sum(es[1..]))
  }

  lemma PlusLaws(a: Summary, b: Summary, c: Summary)
    ensures Plus(Plus(a, b), c) == Plus(a, Plus(b, c))
    ensures Plus(a, b) == Plus(b, a)
    ensures Plus(a, NOTHING) == a
  {
  }

  lemma {:induction false} SumConcat(p: seq<Item>, q: seq<Item>)
    ensures Sum(p + q) == Plus(Sum(p), Sum(q))
  {
    hide One, Plus;
    if p == [] {
      assert p + q == q;
      PlusLaws(Sum(q), Sum([]), Sum([]));
    } else {
      SumConcat(p[1..], q);
      assert (p + q)[1..] == p[1..] + q;
      PlusLaws(One(p[0]), Sum(p[1..]), Sum(q));
    }
  }

  lemma SumSingle(e: Item)
    ensures Sum([e]) == One(e)
  {
  }

  lemma SumInsert(p: seq<Item>, e: Item, q: seq<Item>)
    ensures Sum(p + [e] + q) == Plus(Sum(p + q), One(e))
  {
    hide One, Sum, Plus;
    SumConcat(p, q);
    SumConcat(p, [e]);
    SumConcat(p + [e], q);
    SumSingle(e);
    PlusLaws(Sum(p), One(e), Sum(q));
    PlusLaws(One(e), Sum(q), Sum(q));
    PlusLaws(Sum(p), Sum(q), One(e));
  }

  /** Replacing one entry replaces its part of the sum. */
  lemma SumUpdate(es: seq<Item>, k: int, e: Item)
    requires 0 <= k < |es|
    ensures Sum(es) == Plus(Sum(es[..k] + es[k + 1..]), One(es[k]))
    ensures Sum(es[k := e]) == Plus(Sum(es[..k] + es[k + 1..]), One(e))
  {
    hide One;
    assert es == es[..k] + [es[k]] + es[k + 1..] && es[k := e] == es[..k] + [e] + es[k + 1..];
    SumInsert(es[..k], es[k], es[k + 1..]);
    SumInsert(es[..k], e, es[k + 1..]);
  }

  lemma Removed<T>(a: seq<T>, x: T, b: seq<T>)
    ensures multiset(a + [x] + b) - multiset{x} == multiset(a + b)
  {
    assert multiset(a + [x] + b) == multiset(a) + multiset{x} + multiset(b);
    assert multiset(a + b) == multiset(a) + multiset(b);
  }

  /** The place of the first entry in another order, and the order of the others. */
  lemma Counterpart<T>(p: seq<T>, q: seq<T>) returns (k: int)
    requires multiset(p) == multiset(q) && p != []
    ensures 0 <= k < |q| && q[k] == p[0] && multiset(q[..k] + q[k + 1..]) == multiset(p[1..])
  {
    RemovedFirst(p);
    k := Position(q, p[0]);
    RemovedAt(q, k);
  }

  lemma Position<T>(q: seq<T>, x: T) returns (k: int)
    requires x in multiset(q)
    ensures 0 <= k < |q| && q[k] == x
  {
    assert x in q;
    k :| 0 <= k < |q| && q[k] == x;
  }

  lemma RemovedFirst<T>(p: seq<T>)
    requires p != []
    ensures p[0] in multiset(p) && multiset(p[1..]) == multiset(p) - multiset{p[0]}
  {
    assert p == [p[0]] + p[1..];
  }

  lemma RemovedAt<T>(p: seq<T>, k: int)
    requires 0 <= k < |p|
    ensures multiset(p[..k] + p[k + 1..]) == multiset(p) - multiset{p[k]}
  {
    assert p == p[..k] + [p[k]] + p[k + 1..];
    Removed(p[..k], p[k], p[k + 1..]);
  }

  lemma SumHead(es: seq<Item>)
    requires es != []
    ensures Sum(es) == Plus(One(es[0]), Sum(es[1..]))
  {
  }

  /** The meaning does not depend on the order. */
  lemma {:induction false} SumPermutation(p: seq<Item>, q: seq<Item>)
    requires multiset(p) == multiset(q)
    ensures Sum(p) == Sum(q)
  {
    hide One, Plus, Sum;
    if p == [] {
      assert |multiset(q)| == 0;
    } else {
      var k := Counterpart(p, q);
      SumHead(p);
      SumPermutation(p[1..], q[..k] + q[k + 1..]);
      assert q == q[..k] + [q[k]] + q[k + 1..];
      SumInsert(q[..k], q[k], q[k + 1..]);
      PlusLaws(One(p[0]), Sum(p[1..]), Sum(p[1..]));
    }
  }

  /** Cutting a frame in two keeps every byte at its offset. */
  lemma {:induction false} PlacedSplit(offset: int, data: seq<Byte>, k: int)
    requires 0 <= k <= |data|
    ensures Placed(offset, data) == Placed(offset, data[..k]) + Placed(offset + k, data[k..])
    decreases k
  {
    hide Placed;
    if k == 0 {
      assert data[k..] == data && data[..k] == [];
      PlacedUnfold(offset, []);
    } else {
      PlacedSplit(offset + 1, data[1..], k - 1);
      assert data[..k][1..] == data[1..][..k - 1] && data[k..] == data[1..][k - 1..];
      PlacedUnfold(offset, data);
      PlacedUnfold(offset, data[..k]);
      assert data[..k][0] == data[0];
      var head := multiset{(offset, data[0])};
      var left, right := Placed(offset + 1, data[1..][..k - 1]), Placed(offset + k, data[k..]);
      assert head + (left + right) == (head + left) + right;
    }
  }

  lemma PlacedUnfold(offset: int, data: seq<Byte>)
    ensures Placed(offset, data) ==
            if data == [] then multiset{} else multiset{(offset, data[0])} + Placed(offset + 1, data[1..])
  {
  }

  lemma {:induction false} PlacedMember(offset: int, data: seq<Byte>, x: int, b: Byte)
    ensures (x, b) in Placed(offset, data) <==> offset <= x < offset + |data| && data[x - offset] == b
    decreases |data|
  {
    if data != [] {
      PlacedMember(offset + 1, data[1..], x, b);
    }
  }

  /** A byte is in the sum exactly if some CRYPTO frame carries it. */
  lemma {:induction false} SumMember(es: seq<Item>, x: int, b: Byte)
    ensures (x, b) in Sum(es).content <==>
            exists i :: 0 <= i < |es| && Carries(es[i], x, b)
  {
    hide One;
    if es != [] {
      SumMember(es[1..], x, b);
      OneMember(es[0], x, b);
      assert Sum(es).content == One(es[0]).content + Sum(es[1..]).content;
      if i :| 0 <= i < |es[1..]| && Carries(es[1..][i], x, b) {
        assert Carries(es[i + 1], x, b);
      }
      if i :| 1 <= i < |es| && Carries(es[i], x, b) {
        assert Carries(es[1..][i - 1], x, b);
      }
    }
  }

  lemma OneMember(e: Item, x: int, b: Byte)
    ensures (x, b) in One(e).content <==> Carries(e, x, b)
  {
    if e.FrameEntry? && e.frame.Crypto? {
      PlacedMember(e.frame.offset, e.frame.data, x, b);
    }
  }

  predicate Carries(e: Item, x: int, b: Byte) {
    && e.FrameEntry? && e.frame.Crypto?
    && e.frame.offset <= x < e.frame.offset + |e.frame.data| && e.frame.data[x - e.frame.offset] == b
  }

  /** The serialized form is as long as the sum says. */
  lemma {:induction false} SizeIsLength(es: seq<Item>)
    ensures |AppendAll(es)| == Sum(es).size
  {
    if es != [] {
      SizeIsLength(es[1..]);
    }
  }
}
