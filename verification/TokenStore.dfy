// Tokens that servers sent us for later connections: for each of the most recently used origins, the newest tokens.
module TokenStore {
  import opened Bags
  import opened Protocol

  /** A token; only its identity matters. */
  type Token = int

  type Key = string

  /** A bounded stack: adding to a full one drops the oldest token. */
  function Added(stack: seq<Token>, t: Token, size: int): seq<Token> {
    if |stack| < size then stack + [t] else if stack == [] then [] else stack[1..] + [t]
  }

  /** The slot of the k-th newest token in a ring of the given size, when the next token goes to slot p. */
  function Slot(p: int, k: int, size: int): int {
    if k < p then p - 1 - k else p - 1 - k + size
  }

  /** The ring buffer of one origin. */
  class SingleOriginTokenStore {
    const tokens: array<Option<Token>>
    var len: int
    var p: int

    /** The tokens, oldest first. */
    ghost var contents: seq<Token>

    ghost predicate Valid()
      reads this, tokens
    {
      && 0 < tokens.Length && 0 <= p < tokens.Length
      && len == |contents| <= tokens.Length
      && (forall k :: 0 <= k < tokens.Length ==>
            tokens[Slot(p, k, tokens.Length)] == if k < len then Some(contents[len - 1 - k]) else None)
    }

    constructor (size: int)
      requires 0 < size
      ensures Valid() && fresh(tokens) && tokens.Length == size && contents == []
    {
      tokens := new Option<Token>[size](_ => None);
      len, p, contents := 0, 0, [];
    }

    function Index(i: int): int
      requires 0 < tokens.Length
    {
      (i + tokens.Length) % tokens.Length
    }

    method Add(token: Token)
      requires Valid()
      modifies this`len, this`p, this`contents, tokens
      ensures Valid() && contents == Added(old(contents), token, tokens.Length)
    {
      WrapAround(p, tokens.Length);
      ghost var before := tokens[..];
      ghost var p0 := p;
      tokens[p] := Some(token);
      p := Index(p + 1);
      len := Min(len + 1, tokens.Length);
      contents := Added(contents, token, tokens.Length);
      forall k | 0 <= k < tokens.Length
        ensures tokens[Slot(p, k, tokens.Length)] == if k < len then Some(contents[len - 1 - k]) else None
      {
        if 0 < k {
          assert Slot(p, k, tokens.Length) == Slot(p0, k - 1, tokens.Length) != p0;
          assert before[Slot(p0, k - 1, tokens.Length)] == tokens[Slot(p, k, tokens.Length)];
        }
      }
    }

    /** Returns the newest token, or nothing from an empty ring. */
    method Pop() returns (token: Option<Token>)
      requires Valid()
      modifies this`len, this`p, this`contents, tokens
      ensures Valid()
      ensures old(contents) == [] ==> token == None && contents == []
      ensures old(contents) != [] ==> token.Some? && old(contents) == contents + [token.value]
    {
      WrapAround(p, tokens.Length);
      ghost var before := tokens[..];
      ghost var p0 := p;
      p := Index(p - 1);
      token := tokens[p];
      tokens[p] := None;
      assert p == Slot(p0, 0, tokens.Length);
      len := Max(len - 1, 0);
      contents := if contents == [] then [] else contents[..|contents| - 1];
      forall k | 0 <= k < tokens.Length
        ensures tokens[Slot(p, k, tokens.Length)] == if k < len then Some(contents[len - 1 - k]) else None
      {
        if k < tokens.Length - 1 {
          assert Slot(p, k, tokens.Length) == Slot(p0, k + 1, tokens.Length) != p;
          assert before[Slot(p0, k + 1, tokens.Length)] == tokens[Slot(p, k, tokens.Length)];
        } else {
          assert Slot(p, k, tokens.Length) == p;
        }
      }
    }
  }

  lemma WrapAround(p: int, size: int)
    requires 0 <= p < size
    ensures (p + 1 + size) % size == if p + 1 == size then 0 else p + 1
    ensures (p - 1 + size) % size == if p == 0 then size - 1 else p - 1
  {
    OneTurn(if p + 1 == size then 0 else p + 1, size);
    OneTurn(if p == 0 then 0 else p - 1, size);
    assert p + 1 == size ==> (p + 1 + size) - size == size;
    TwoTurns(size);
  }

  lemma OneTurn(a: int, size: int)
    requires 0 <= a < size
    ensures (a + size) % size == a && a % size == a
  {
    var q := (a + size) / size;
    assert a + size == q * size + (a + size) % size;
    assert q <= 0 ==> q * size <= 0;
    assert q >= 2 ==> q * size >= 2 * size;
  }

  lemma TwoTurns(size: int)
    requires 0 < size
    ensures (size + size) % size == 0 && size % size == 0
  {
    OneTurn(0, size);
    var q := (size + size) / size;
    assert size + size == q * size + (size + size) % size;
    assert q <= 1 ==> q * size <= size;
    assert q >= 3 ==> q * size >= 3 * size;
  }

  /** All tokens of all origins. */
  ghost function Stored(m: map<Key, seq<Token>>, keys: seq<Key>): multiset<Token>
    requires forall k :: k in keys ==> k in m
  {
    if keys == [] then multiset{} else multiset(m[keys[0]]) + Stored(m, keys[1..])
  }

  /** Every token was returned, or dropped, or is still stored. */
  ghost predicate Balanced(given: multiset<Token>, returned: multiset<Token>, dropped: multiset<Token>,
                           stored: multiset<Token>) {
    given == returned + dropped + stored
  }

  /** Each origin of the map is in the list once, the list is in the order of the last use, and no origin is empty. */
  ghost predicate Listed(m: map<Key, seq<Token>>, q: seq<Key>, lastUse: map<Key, int>, clock: int, size: int) {
    && (forall k :: k in q <==> k in m)
    && (forall k :: k in m ==> k in lastUse && lastUse[k] < clock && 0 < |m[k]| <= size)
    && (forall i, j :: 0 <= i < j < |q| ==> q[i] in lastUse && q[j] in lastUse && lastUse[q[i]] > lastUse[q[j]])
  }

  class LruTokenStore {
    const capacity: int
    const singleOriginSize: int
    /** The bounded stack of each origin. */
    var m: map<Key, seq<Token>>
    /** The origins, most recently used first. */
    var q: seq<Key>

    /** When each origin was used last. */
    ghost var lastUse: map<Key, int>
    ghost var clock: int
    /** The tokens that were put in, returned, and dropped. */
    ghost var given: multiset<Token>
    ghost var returned: multiset<Token>
    ghost var dropped: multiset<Token>

    ghost predicate Valid()
      reads this
    {
      && 0 < capacity && 0 < singleOriginSize && |q| <= capacity
      && Listed(m, q, lastUse, clock, singleOriginSize)
      && (forall k :: k in q ==> k in m)
      && Balanced(given, returned, dropped, Stored(m, q))
    }

    constructor (maxOrigins: int, tokensPerOrigin: int)
      requires 0 < maxOrigins && 0 < tokensPerOrigin
      ensures Valid() && m == map[] && given == returned == dropped == multiset{}
    {
      capacity, singleOriginSize, m, q := maxOrigins, tokensPerOrigin, map[], [];
      lastUse, clock, given, returned, dropped := map[], 0, multiset{}, multiset{}, multiset{};
    }

    /** Every token that was put in once is returned at most once, and never after it was dropped. */
    lemma ReturnedAtMostOnce(t: Token)
      requires Valid() && given[t] <= 1
      ensures returned[t] + dropped[t] + Stored(m, q)[t] == given[t] <= 1
    {
    }

    /** Adds a token. If a new origin does not fit, the least recently used one is dropped with all its tokens. */
    method Put(key: Key, token: Token) returns (ghost evicted: Option<Key>)
      requires Valid()
      modifies this`m, this`q, this`lastUse, this`clock, this`given, this`dropped
      ensures Valid() && given == old(given) + multiset{token}
      ensures key in m && m[key] == Added(if key in old(m) then old(m)[key] else [], token, singleOriginSize)
      ensures evicted.Some? <==> key !in old(m) && |old(q)| == capacity
      ensures evicted.Some? ==> evicted.value in old(m) && evicted.value !in m
                                && forall k :: k in old(m) ==> old(lastUse)[evicted.value] <= old(lastUse)[k]
      ensures forall k :: k != key && evicted != Some(k) ==> (k in m <==> k in old(m)) && (k in m ==> m[k] == old(m)[k])
      ensures q[0] == key
    {
      hide Listed, Stored, Added, Balanced;
      evicted := None;
      if key in m {
        PutKnown(key, token);
      } else if |q| < capacity {
        PutNew(key, token);
      } else {
        evicted := Some(q[|q| - 1]);
        Evict();
        PutNew(key, token);
      }
    }

    method PutKnown(key: Key, token: Token)
      requires Valid() && key in m
      modifies this`m, this`q, this`lastUse, this`clock, this`given, this`dropped
      ensures Valid() && given == old(given) + multiset{token}
      ensures m == old(m)[key := Added(old(m)[key], token, singleOriginSize)] && q != [] && q[0] == key
    {
      hide Listed, Stored, Added, Balanced;
      ghost var i := Position(m, q, lastUse, clock, singleOriginSize, key);
      ghost var oldest := if |m[key]| < singleOriginSize then multiset{} else multiset{m[key][0]};
      KnownPut(m, q, i, lastUse, clock, singleOriginSize, token, given, returned, dropped);
      var stack := Added(m[key], token, singleOriginSize);
      var front := MoveToFront(q, key, i);
      Account(token, oldest);
      SetStacks(m[key := stack], front);
      Touch(key);
    }

    method SetStacks(m': map<Key, seq<Token>>, q': seq<Key>)
      modifies this`m, this`q
      ensures m == m' && q == q'
    {
      m := m';
      q := q';
    }

    method PutNew(key: Key, token: Token)
      requires Valid() && key !in m && |q| < capacity
      modifies this`m, this`q, this`lastUse, this`clock, this`given, this`dropped
      ensures Valid() && given == old(given) + multiset{token}
      ensures m == old(m)[key := Added([], token, singleOriginSize)] && q == [key] + old(q)
    {
      hide Listed, Stored, Balanced, Added;
      AddedFirst(token, singleOriginSize);
      PutFront(m, q, lastUse, clock, singleOriginSize, key, [token]);
      NoTokens(Stored(m, q));
      BalancedPut(given, returned, dropped, multiset{}, multiset{}, multiset([token]), Stored(m, q), token);
      Account(token, multiset{});
      m := m[key := [token]];
      q := [key] + q;
      Touch(key);
    }

    /** Drops the least recently used origin. */
    method Evict()
      requires Valid() && q != []
      modifies this`m, this`q, this`dropped
      ensures Valid() && q == old(q)[..|old(q)| - 1] && old(q)[|old(q)| - 1] in old(m)
                && m == old(m) - {old(q)[|old(q)| - 1]}
      ensures forall k :: k in old(m) ==>
                  k in lastUse && old(q)[|old(q)| - 1] in lastUse && lastUse[old(q)[|old(q)| - 1]] <= lastUse[k]
    {
      hide Listed, Stored, Balanced;
      var n := |q| - 1;
      var back := q[n];
      LeastRecent(m, q, lastUse, clock, singleOriginSize);
      TakenOut(m, q, n, lastUse, clock, singleOriginSize);
      assert Rest(q, n) == q[..n];
      BalancedDrop(given, returned, dropped, multiset(m[back]), Stored(m, q[..n]));
      dropped := dropped + multiset(m[back]);
      m := m - {back};
      q := q[..n];
    }

    ghost method Account(token: Token, lost: multiset<Token>)
      modifies this`given, this`dropped
      ensures given == old(given) + multiset{token} && dropped == old(dropped) + lost
    {
      given := given + multiset{token};
      dropped := dropped + lost;
    }

    /** Returns the newest token of the origin that was neither returned nor dropped. */
    method Pop(key: Key) returns (token: Option<Token>)
      requires Valid()
      modifies this`m, this`q, this`lastUse, this`clock, this`returned
      ensures Valid()
      ensures key !in old(m) ==> token == None && m == old(m) && returned == old(returned)
      ensures key in old(m) ==>
                && token == Some(old(m)[key][|old(m)[key]| - 1]) && returned == old(returned) + multiset{token.value}
                && (key in m <==> |old(m)[key]| > 1)
                    && (key in m ==> m[key] == old(m)[key][..|old(m)[key]| - 1] && q[0] == key)
      ensures forall k :: k != key ==> (k in m <==> k in old(m)) && (k in m ==> m[k] == old(m)[k])
    {
      hide Listed, Stored, Balanced;
      if key !in m {
        return None;
      }
      ghost var i := Position(m, q, lastUse, clock, singleOriginSize, key);
      var stack := m[key];
      if |stack| == 1 {
        PopOnly(key, i);
      } else {
        PopOne(key, i);
      }
      return Some(stack[|stack| - 1]);
    }

    /** Returns the only token of an origin, which is forgotten. */
    method PopOnly(key: Key, ghost i: int)
      requires Valid() && 0 <= i < |q| && q[i] == key && key in m && |m[key]| == 1
      requires forall j :: 0 <= j < |q| && j != i ==> q[j] != key
      modifies this`m, this`q, this`returned
      ensures Valid() && m == old(m) - {key} && returned == old(returned) + multiset{old(m)[key][0]}
    {
      hide Listed, Stored, Balanced;
      PopFacts(m, q, i, lastUse, clock, singleOriginSize, given, returned, dropped);
      var front := MoveToFront(q, key, i);
      returned := returned + multiset{m[key][0]};
      SetStacks(m - {key}, front[1..]);
    }

    /** Returns the newest of several tokens of an origin. */
    method PopOne(key: Key, ghost i: int)
      requires Valid() && 0 <= i < |q| && q[i] == key && key in m && 1 < |m[key]| <= singleOriginSize
      requires forall j :: 0 <= j < |q| && j != i ==> q[j] != key
      modifies this`m, this`q, this`lastUse, this`clock, this`returned
      ensures Valid() && m == old(m)[key := old(m)[key][..|old(m)[key]| - 1]] && q != [] && q[0] == key
      ensures returned == old(returned) + multiset{old(m)[key][|old(m)[key]| - 1]}
    {
      hide Listed, Stored, Balanced;
      PopFacts(m, q, i, lastUse, clock, singleOriginSize, given, returned, dropped);
      var n := |m[key]| - 1;
      var front := MoveToFront(q, key, i);
      returned := returned + multiset{m[key][n]};
      SetStacks(m[key := m[key][..n]], front);
      Touch(key);
    }

    ghost method Touch(key: Key)
      modifies this`lastUse, this`clock
      ensures lastUse == old(lastUse)[key := old(clock)] && clock == old(clock) + 1
    {
      lastUse := lastUse[key := clock];
      clock := clock + 1;
    }
  }

  ghost function Rest(q: seq<Key>, i: int): seq<Key>
    requires 0 <= i < |q|
  {
    q[..i] + q[i + 1..]
  }

  /** The stores after a token was added to a known origin. */
  lemma KnownPut(m: map<Key, seq<Token>>, q: seq<Key>, i: int, lastUse: map<Key, int>, clock: int, size: int,
                 token: Token, given: multiset<Token>, returned: multiset<Token>, dropped: multiset<Token>)
    requires Listed(m, q, lastUse, clock, size) && (forall k :: k in q ==> k in m) && 0 <= i < |q| && 0 < size
    requires Balanced(given, returned, dropped, Stored(m, q)) && 0 < |m[q[i]]| <= size
    ensures var key, stack := q[i], Added(m[q[i]], token, size);
            var m', q' := m[key := stack], [key] + Rest(q, i);
            var oldest := if |m[key]| < size then multiset{} else multiset{m[key][0]};
            && Listed(m', q', lastUse[key := clock], clock + 1, size) && (forall k :: k in q' ==> k in m')
            && Balanced(given + multiset{token}, returned, dropped + oldest, Stored(m', q'))
  {
    hide Listed, Stored, Added, Balanced;
    var key, stack, rest := q[i], Added(m[q[i]], token, size), Rest(q, i);
    var oldest := if |m[key]| < size then multiset{} else multiset{m[key][0]};
    TakenOut(m, q, i, lastUse, clock, size);
    AddedElements(m[key], token, size);
    PutFront(m - {key}, rest, lastUse, clock, size, key, stack);
    assert (m - {key})[key := stack] == m[key := stack];
    BalancedPut(given, returned, dropped, multiset(m[key]), oldest, multiset(stack), Stored(m, rest), token);
  }

  /** The stores after the newest token of an origin was returned. */
  lemma PopFacts(m: map<Key, seq<Token>>, q: seq<Key>, i: int, lastUse: map<Key, int>, clock: int, size: int,
                 given: multiset<Token>, returned: multiset<Token>, dropped: multiset<Token>)
    requires Listed(m, q, lastUse, clock, size) && (forall k :: k in q ==> k in m) && 0 <= i < |q|
              && 0 < |m[q[i]]| <= size
    requires Balanced(given, returned, dropped, Stored(m, q))
    ensures var key, stack, rest, n := q[i], m[q[i]], Rest(q, i), |m[q[i]]| - 1;
            var back := returned + multiset{stack[n]};
            && |[key] + rest| == |q| && ([key] + rest)[1..] == rest
            && (n == 0 ==>
                  && Listed(m - {key}, rest, lastUse, clock, size) && (forall k :: k in rest ==> k in m - {key})
                  && Balanced(given, back, dropped, Stored(m - {key}, rest)))
            && (n > 0 ==>
                  var m' := m[key := stack[..n]];
                  && Listed(m', [key] + rest, lastUse[key := clock], clock + 1, size)
                  && (forall k :: k in [key] + rest ==> k in m')
                  && Balanced(given, back, dropped, Stored(m', [key] + rest)))
  {
    hide Listed, Stored, Balanced;
    var key, stack, rest, n := q[i], m[q[i]], Rest(q, i), |m[q[i]]| - 1;
    TakenOut(m, q, i, lastUse, clock, size);
    assert stack == stack[..n] + [stack[n]];
    BalancedPop(given, returned, dropped, multiset(stack[..n]), stack[n], Stored(m, rest), multiset(stack));
    if n == 0 {
      NoTokens(Stored(m, rest));
    } else {
      PutFront(m - {key}, rest, lastUse, clock, size, key, stack[..n]);
      assert (m - {key})[key := stack[..n]] == m[key := stack[..n]];
    }
  }

  /** The list with the key at the front. */
  method MoveToFront(q: seq<Key>, key: Key, ghost i: int) returns (r: seq<Key>)
    requires 0 <= i < |q| && q[i] == key && forall j :: 0 <= j < |q| && j != i ==> q[j] != key
    ensures r == [key] + Rest(q, i)
  {
    var j := 0;
    while q[j] != key
      invariant 0 <= j <= i
      decreases |q| - j
    {
      j := j + 1;
    }
    assert j == i;
    r := [key] + q[..j] + q[j + 1..];
  }

  lemma Position(m: map<Key, seq<Token>>, q: seq<Key>, lastUse: map<Key, int>, clock: int, size: int, key: Key)
      returns (i: int)
    requires Listed(m, q, lastUse, clock, size) && key in m
    ensures 0 <= i < |q| && q[i] == key && forall j :: 0 <= j < |q| && j != i ==> q[j] != key
    ensures 0 < |m[key]| <= size
  {
    i :| 0 <= i < |q| && q[i] == key;
  }

  /** The stores without one origin. */
  lemma TakenOut(m: map<Key, seq<Token>>, q: seq<Key>, i: int, lastUse: map<Key, int>, clock: int, size: int)
    requires Listed(m, q, lastUse, clock, size) && 0 <= i < |q| && forall k :: k in q ==> k in m
    ensures var rest := Rest(q, i);
            && (forall k :: k in rest <==> k in m && k != q[i]) && |rest| == |q| - 1
            && Listed(m - {q[i]}, rest, lastUse, clock, size)
            && Stored(m, q) == multiset(m[q[i]]) + Stored(m, rest)
            && Stored(m - {q[i]}, rest) == Stored(m, rest)
  {
    hide Stored, Listed;
    ListedRest(m, q, i, lastUse, clock, size);
    StoredRest(m, q, i);
    SameStacks(m, m - {q[i]}, Rest(q, i));
  }

  lemma ListedRest(m: map<Key, seq<Token>>, q: seq<Key>, i: int, lastUse: map<Key, int>, clock: int, size: int)
    requires Listed(m, q, lastUse, clock, size) && 0 <= i < |q|
    ensures var rest := Rest(q, i);
            && (forall k :: k in rest <==> k in m && k != q[i]) && |rest| == |q| - 1
            && Listed(m - {q[i]}, rest, lastUse, clock, size)
  {
    hide Rest;
    var rest := Rest(q, i);
    RestElements(q, i);
    forall k ensures k in rest <==> k in m && k != q[i] {
      if k in rest {
        var j :| 0 <= j < |rest| && rest[j] == k;
        assert q[if j < i then j else j + 1] == k;
      }
    }
  }

  lemma RestElements(q: seq<Key>, i: int)
    requires 0 <= i < |q|
    ensures |Rest(q, i)| == |q| - 1
    ensures forall j :: 0 <= j < |q| - 1 ==> Rest(q, i)[j] == q[if j < i then j else j + 1]
    ensures forall k :: k in q <==> k in Rest(q, i) || k == q[i]
  {
    assert q == q[..i] + [q[i]] + q[i + 1..];
  }

  lemma StoredRest(m: map<Key, seq<Token>>, q: seq<Key>, i: int)
    requires 0 <= i < |q| && forall k :: k in q ==> k in m
    ensures (forall k :: k in Rest(q, i) ==> k in m) && Stored(m, q) == multiset(m[q[i]]) + Stored(m, Rest(q, i))
  {
    RestElements(q, i);
    assert q == q[..i] + ([q[i]] + q[i + 1..]);
    assert ([q[i]] + q[i + 1..])[1..] == q[i + 1..];
    StoredConcat(m, q[..i], [q[i]] + q[i + 1..]);
    assert Stored(m, [q[i]] + q[i + 1..]) == multiset(m[q[i]]) + Stored(m, q[i + 1..]);
    hide Stored;
    StoredConcat(m, q[..i], q[i + 1..]);
    Exchange(multiset(m[q[i]]), Stored(m, q[..i]), Stored(m, q[i + 1..]));
  }

  lemma {:induction false} StoredConcat(m: map<Key, seq<Token>>, a: seq<Key>, b: seq<Key>)
    requires forall k :: k in a + b ==> k in m
    ensures (forall k :: k in a ==> k in m) && (forall k :: k in b ==> k in m)
    ensures Stored(m, a + b) == Stored(m, a) + Stored(m, b)
  {
    assert forall k :: k in a ==> k in a + b;
    assert forall k :: k in b ==> k in a + b;
    if a == [] {
      assert a + b == b;
    } else {
      assert (a + b)[1..] == a[1..] + b;
      StoredConcat(m, a[1..], b);
      Associate(multiset(m[a[0]]), Stored(m, a[1..]), Stored(m, b));
    }
  }

  lemma {:induction false} SameStacks(m: map<Key, seq<Token>>, m': map<Key, seq<Token>>, q: seq<Key>)
    requires forall k :: k in q ==> k in m && k in m' && m[k] == m'[k]
    ensures Stored(m, q) == Stored(m', q)
  {
    if q != [] {
      SameStacks(m, m', q[1..]);
    }
  }

  /** An origin at the front of the list. */
  lemma PutFront(m: map<Key, seq<Token>>, rest: seq<Key>, lastUse: map<Key, int>, clock: int, size: int, key: Key,
                 stack: seq<Token>)
    requires Listed(m, rest, lastUse, clock, size) && key !in m && 0 < |stack| <= size && forall k :: k in rest ==>
               k in m
    ensures Listed(m[key := stack], [key] + rest, lastUse[key := clock], clock + 1, size)
    ensures (forall k :: k in [key] + rest ==> k in m[key := stack])
    ensures Stored(m[key := stack], [key] + rest) == multiset(stack) + Stored(m, rest)
  {
    ListedFront(m, rest, lastUse, clock, size, key, stack);
    hide Listed;
    SameStacks(m, m[key := stack], rest);
    assert ([key] + rest)[1..] == rest;
  }

  lemma ListedFront(m: map<Key, seq<Token>>, rest: seq<Key>, lastUse: map<Key, int>, clock: int, size: int, key: Key,
                    stack: seq<Token>)
    requires Listed(m, rest, lastUse, clock, size) && key !in m && 0 < |stack| <= size
    ensures Listed(m[key := stack], [key] + rest, lastUse[key := clock], clock + 1, size)
  {
    assert forall k :: k in [key] + rest <==> k == key || k in rest;
    assert forall j :: 0 <= j < |rest| ==> rest[j] in rest;
  }

  lemma AddedElements(stack: seq<Token>, t: Token, size: int)
    requires 0 < |stack| <= size
    ensures 0 < |Added(stack, t, size)| <= size
    ensures multiset(Added(stack, t, size))
              + (if |stack| < size then multiset{} else multiset{stack[0]}) == multiset(stack) + multiset{t}
  {
    assert stack == [stack[0]] + stack[1..];
  }

  /** The new token is the newest one, and below it are the newest tokens of before. */
  lemma AddedIsNewest(stack: seq<Token>, t: Token, size: int)
    requires 0 < size && |stack| <= size
    ensures var r := Added(stack, t, size);
            && |r| == Min(|stack| + 1, size) && r[|r| - 1] == t && r[..|r| - 1] == stack[|stack| + 1 - |r|..]
  {
  }

  /** The token that was put in last is the next one for its origin. */
  method PutThenPop(s: LruTokenStore, key: Key, token: Token) returns (t: Option<Token>)
    requires s.Valid()
    modifies s
    ensures s.Valid() && t == Some(token)
  {
    hide Added, LruTokenStore.Valid;
    ghost var before := if key in s.m then s.m[key] else [];
    StackSizes(s, key);
    AddedIsNewest(before, token, s.singleOriginSize);
    ghost var evicted := s.Put(key, token);
    t := s.Pop(key);
  }

  lemma StackSizes(s: LruTokenStore, key: Key)
    requires s.Valid()
    ensures 0 < s.singleOriginSize && (key in s.m ==> |s.m[key]| <= s.singleOriginSize)
  {
  }

  lemma AddedFirst(t: Token, size: int)
    requires 0 < size
    ensures Added([], t, size) == [t]
  {
  }

  /** The last origin of the list was not used for the longest time. */
  lemma LeastRecent(m: map<Key, seq<Token>>, q: seq<Key>, lastUse: map<Key, int>, clock: int, size: int)
    requires Listed(m, q, lastUse, clock, size) && q != []
    ensures q[|q| - 1] in m && q[|q| - 1] in lastUse
    ensures forall k :: k in m ==> k in lastUse && lastUse[q[|q| - 1]] <= lastUse[k]
  {
    assert q[|q| - 1] in q;
  }

  lemma NoTokens(rest: multiset<Token>)
    ensures multiset{} + rest == rest
  {
  }

  lemma BalancedDrop(given: multiset<Token>, returned: multiset<Token>, dropped: multiset<Token>,
                     lost: multiset<Token>, rest: multiset<Token>)
    requires Balanced(given, returned, dropped, lost + rest)
    ensures Balanced(given, returned, dropped + lost, rest)
  {
  }

  lemma BalancedPop(given: multiset<Token>, returned: multiset<Token>, dropped: multiset<Token>,
                    left: multiset<Token>, t: Token,
                    rest: multiset<Token>, stack: multiset<Token>)
    requires stack == left + multiset{t} && Balanced(given, returned, dropped, stack + rest)
    ensures Balanced(given, returned + multiset{t}, dropped, left + rest)
  {
  }

  lemma BalancedPut(given: multiset<Token>, returned: multiset<Token>, dropped: multiset<Token>,
                    before: multiset<Token>,
                    lost: multiset<Token>, after: multiset<Token>, rest: multiset<Token>, t: Token)
    requires after + lost == before + multiset{t} && Balanced(given, returned, dropped, before + rest)
    ensures Balanced(given + multiset{t}, returned, dropped + lost, after + rest)
  {
    assert returned + dropped + (before + rest) + multiset{t} == returned + dropped + (before + multiset{t}) + rest;
  }
}
