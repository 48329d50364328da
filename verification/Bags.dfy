// The multiset of what a map or a sequence holds, seen through a projection.
module Bags {
  import opened Protocol

  ghost function Plus<T>(b: multiset<T>, x: T): multiset<T> { b + multiset{x} }

  ghost function Minus<T>(b: multiset<T>, x: T): multiset<T> { b - multiset{x} }

  /** One element for every key. */
  ghost function MapBag<V, T>(m: map<int, V>, f: V -> T): multiset<T>
    decreases |m|
  {
    if m == map[] then multiset{}
    else
      ghost var k := SomeKey(m);
      multiset{f(m[k])} + MapBag(m - {k}, f)
  }

  lemma KeyExists<V>(m: map<int, V>)
    requires m != map[]
    ensures exists k :: k in m
  {
    assert m.Keys != {};
    var k := SomeMember(m.Keys);
    assert k in m;
  }

  ghost function SomeKey<V>(m: map<int, V>): (k: int)
    requires m != map[]
    ensures k in m
  {
    KeyExists(m);
    var k :| k in m;
    k
  }

  lemma MapBagFirst<V, T>(m: map<int, V>, f: V -> T)
    requires m != map[]
    ensures MapBag(m, f) == multiset{f(m[SomeKey(m)])} + MapBag(m - {SomeKey(m)}, f)
  {
  }

  /** The order in which keys are taken away does not matter. */
  lemma {:induction false} MapBagRemove<V, T>(m: map<int, V>, f: V -> T, k: int)
    requires k in m
    ensures MapBag(m, f) == multiset{f(m[k])} + MapBag(m - {k}, f)
    decreases |m|
  {
    hide MapBag, SomeKey;
    var k0 := SomeKey(m);
    MapBagFirst(m, f);
    if k0 != k {
      MapBagRemove(m - {k0}, f, k);
      MapBagRemove(m - {k}, f, k0);
      assert m - {k0} - {k} == m - {k} - {k0};
      Exchange(multiset{f(m[k0])}, multiset{f(m[k])}, MapBag(m - {k0} - {k}, f));
    }
  }

  lemma Exchange<T>(a: multiset<T>, b: multiset<T>, c: multiset<T>)
    ensures a + (b + c) == b + (a + c)
  {
  }

  lemma Associate<T>(a: multiset<T>, b: multiset<T>, c: multiset<T>)
    ensures a + (b + c) == (a + b) + c
  {
  }

  lemma MapBagAdd<V, T>(m: map<int, V>, f: V -> T, k: int, v: V)
    requires k !in m
    ensures MapBag(m[k := v], f) == multiset{f(v)} + MapBag(m, f)
  {
    MapBagRemove(m[k := v], f, k);
    assert m[k := v] - {k} == m;
  }

  lemma {:induction false} MapBagMember<V, T>(m: map<int, V>, f: V -> T, x: T)
    ensures x in MapBag(m, f) <==> exists k :: k in m && f(m[k]) == x
    decreases |m|
  {
    if m != map[] {
      var k := SomeKey(m);
      MapBagMember(m - {k}, f, x);
      if x in MapBag(m, f) && x != f(m[k]) {
        var j :| j in m - {k} && f((m - {k})[j]) == x;
        assert j in m && f(m[j]) == x;
      }
      if j :| j in m && f(m[j]) == x && j != k {
        assert j in m - {k} && f((m - {k})[j]) == x;
      }
    }
  }

  ghost function SeqBag<V, T>(s: seq<V>, f: V -> T): multiset<T> {
    if s == [] then multiset{} else multiset{f(s[0])} + SeqBag(s[1..], f)
  }

  lemma {:induction false} SeqBagConcat<V, T>(a: seq<V>, b: seq<V>, f: V -> T)
    ensures SeqBag(a + b, f) == SeqBag(a, f) + SeqBag(b, f)
  {
    if a == [] {
      assert a + b == b;
    } else {
      assert (a + b)[0] == a[0] && (a + b)[1..] == a[1..] + b;
      SeqBagConcat(a[1..], b, f);
      Associate(multiset{f(a[0])}, SeqBag(a[1..], f), SeqBag(b, f));
    }
  }

  lemma SeqBagInsert<V, T>(s: seq<V>, i: int, v: V, f: V -> T)
    requires 0 <= i <= |s|
    ensures SeqBag(s[..i] + [v] + s[i..], f) == SeqBag(s, f) + multiset{f(v)}
  {
    hide SeqBag;
    SeqBagConcat(s[..i], s[i..], f);
    SeqBagConcat(s[..i] + [v], s[i..], f);
    SeqBagConcat(s[..i], [v], f);
    SeqBagOne(v, f);
    assert s[..i] + s[i..] == s;
    MoveLast(SeqBag(s[..i], f), multiset{f(v)}, SeqBag(s[i..], f));
  }

  lemma MoveLast<T>(a: multiset<T>, b: multiset<T>, c: multiset<T>)
    ensures (a + b) + c == (a + c) + b
  {
  }

  lemma SeqBagOne<V, T>(v: V, f: V -> T)
    ensures SeqBag([v], f) == multiset{f(v)}
  {
    assert [v][1..] == [];
  }

  lemma {:induction false} SeqBagMember<V, T>(s: seq<V>, f: V -> T, x: T)
    ensures x in SeqBag(s, f) <==> exists i :: 0 <= i < |s| && f(s[i]) == x
  {
    if s != [] {
      SeqBagMember(s[1..], f, x);
      if i :| 0 <= i < |s| && f(s[i]) == x {
        assert i == 0 || f(s[1..][i - 1]) == x;
      }
    }
  }
}
