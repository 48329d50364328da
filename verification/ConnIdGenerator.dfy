// The connection IDs that we issue to the peer: the active ones, and the retired ones that wait for their expiry. The
// transport routes packets for exactly these IDs.
module ConnIdGenerator {
  import opened Bags
  import opened Protocol

  const MAX_ISSUED_CONNECTION_IDS := 6

  type ConnectionID = seq<Byte>

  datatype ToRetire = ToRetire(t: int, id: ConnectionID)

  datatype RetireResult = Retired | NeverIssued | InUse | NoNewID

  function IdOf(c: ToRetire): ConnectionID { c.id }

  function Itself(id: ConnectionID): ConnectionID { id }

  /** All IDs for which packets have to be routed. */
  ghost function Wanted(active: map<int, ConnectionID>, toRetire: seq<ToRetire>,
                        initial: Option<ConnectionID>): multiset<ConnectionID> {
    MapBag(active, Itself) + SeqBag(toRetire, IdOf) + if initial.Some? then multiset{initial.value} else multiset{}
  }

  ghost function FirstWanted(id: ConnectionID, initial: Option<ConnectionID>): multiset<ConnectionID> {
    multiset{id} + if initial.Some? then multiset{initial.value} else multiset{}
  }

  /** No ID is wanted twice, and exactly the wanted IDs are routed. */
  ghost predicate Routed(routes: set<ConnectionID>, wanted: multiset<ConnectionID>) {
    && (forall id :: wanted[id] <= 1)
    && (forall id :: id in routes <==> id in wanted)
  }

  /** The IDs that will be generated are new. */
  ghost predicate Unique(generate: int -> Option<ConnectionID>, from: int, wanted: multiset<ConnectionID>) {
    && (forall i :: from <= i && generate(i).Some? ==> generate(i).value !in wanted)
    && (forall i, j :: from <= i < j && generate(i).Some? && generate(j).Some? ==>
        generate(i).value != generate(j).value)
  }

  ghost predicate SortedByExpiry(list: seq<ToRetire>) {
    forall i, j :: 0 <= i < j < |list| ==> list[i].t <= list[j].t
  }

  class ConnIdGenerator {
    const generate: int -> Option<ConnectionID>
    const connectionIDLen: int
    var generated: int
    var highestSeq: int
    var activeSrcConnIDs: map<int, ConnectionID>
    var connIDsToRetire: seq<ToRetire>
    var initialClientDestConnID: Option<ConnectionID>
    /** The IDs that a transport routes which was there from the start. */
    var routes: set<ConnectionID>

    /** The sequence numbers of the NEW_CONNECTION_ID frames, and the largest limit of the peer. */
    ghost var issued: seq<int>
    ghost var limit: int

    ghost function WantedNow(): multiset<ConnectionID>
      reads this
    {
      Wanted(activeSrcConnIDs, connIDsToRetire, initialClientDestConnID)
    }

    ghost predicate Valid()
      reads this
    {
      && highestSeq == |issued| && (forall i :: 0 <= i < |issued| ==> issued[i] == i + 1)
      && (forall n :: n in activeSrcConnIDs ==> 0 <= n <= highestSeq)
      && |activeSrcConnIDs| <= Max(1, Min(limit, MAX_ISSUED_CONNECTION_IDS))
      && SortedByExpiry(connIDsToRetire)
      && Routed(routes, WantedNow())
      && Unique(generate, generated, WantedNow())
    }

    constructor (initialConnectionID: ConnectionID, initialClientDestConnID: Option<ConnectionID>, connectionIDLen: int,
                 generate: int -> Option<ConnectionID>)
      requires initialClientDestConnID != Some(initialConnectionID)
      requires Unique(generate, 0, FirstWanted(initialConnectionID, initialClientDestConnID))
      ensures Valid() && activeSrcConnIDs == map[0 := initialConnectionID] && connIDsToRetire == [] && issued == []
    {
      hide Unique, Wanted, FirstWanted, Routed, MapBag, SeqBag;
      this.generate, this.connectionIDLen, generated, highestSeq := generate, connectionIDLen, 0, 0;
      activeSrcConnIDs, connIDsToRetire := map[0 := initialConnectionID], [];
      this.initialClientDestConnID := initialClientDestConnID;
      routes := {initialConnectionID} + if initialClientDestConnID.Some? then {initialClientDestConnID.value} else {};
      issued, limit := [], 0;
      new;
      InitiallyWanted(initialConnectionID, initialClientDestConnID);
      InitiallyRouted(initialConnectionID, initialClientDestConnID);
    }

    /** The peer stores this many IDs. New IDs are issued up to the limit; this fails exactly if one of them cannot be
        generated. */
    method SetMaxActiveConnIDs(limit: int) returns (ok: bool)
      requires Valid() && 0 <= limit
      modifies this`generated, this`highestSeq, this`activeSrcConnIDs, this`routes, this`issued, this`limit
      ensures Valid() && this.limit == Max(old(this.limit), limit) && old(issued) <= issued
      ensures ok && connectionIDLen != 0 ==>
                |activeSrcConnIDs| == Max(|old(activeSrcConnIDs)|, Min(limit, MAX_ISSUED_CONNECTION_IDS))
      ensures connectionIDLen == 0 ==> ok && issued == old(issued)
      ensures var missing := Min(limit, MAX_ISSUED_CONNECTION_IDS) - |old(activeSrcConnIDs)|;
              connectionIDLen != 0 ==>
                (ok <==> forall i :: old(generated) <= i < old(generated) + missing ==> generate(i).Some?)
      ensures forall n :: n in old(activeSrcConnIDs) ==>
                  n in activeSrcConnIDs && activeSrcConnIDs[n] == old(activeSrcConnIDs)[n]
    {
      hide Wanted, Routed, Unique, MapBag, SeqBag, SortedByExpiry;
      this.limit := Max(this.limit, limit);
      if connectionIDLen == 0 {
        return true;
      }
      for i := |activeSrcConnIDs| to Max(|activeSrcConnIDs|, Min(limit, MAX_ISSUED_CONNECTION_IDS))
        invariant Valid() && |activeSrcConnIDs| == i && this.limit == Max(old(this.limit), limit)
                    && old(issued) <= issued
        invariant generated - old(generated) == i - |old(activeSrcConnIDs)|
        invariant forall k :: old(generated) <= k < generated ==> generate(k).Some?
        invariant forall n :: n in old(activeSrcConnIDs) ==>
                      n in activeSrcConnIDs && activeSrcConnIDs[n] == old(activeSrcConnIDs)[n]
      {
        ok := IssueNewConnID();
        if !ok {
          return false;
        }
      }
      return true;
    }

    /** Issues the next ID. */
    method IssueNewConnID() returns (ok: bool)
      requires Valid() && |activeSrcConnIDs| < Max(1, Min(limit, MAX_ISSUED_CONNECTION_IDS))
      modifies this`generated, this`highestSeq, this`activeSrcConnIDs, this`routes, this`issued
      ensures Valid() && (ok <==> generate(old(generated)).Some?) && old(routes) <= routes
                && generated == old(generated) + 1
      ensures ok ==> issued == old(issued) + [highestSeq] && |activeSrcConnIDs| == |old(activeSrcConnIDs)| + 1
                     && activeSrcConnIDs == old(activeSrcConnIDs)[highestSeq := generate(old(generated)).value]
                     && highestSeq !in old(activeSrcConnIDs)
      ensures ok ==> highestSeq == old(highestSeq) + 1
      ensures !ok ==> issued == old(issued) && activeSrcConnIDs == old(activeSrcConnIDs) && routes == old(routes)
    {
      hide Wanted, Routed, Unique, MapBag, SeqBag, SortedByExpiry;
      var next := generate(generated);
      IssuedOne(generate, generated, activeSrcConnIDs, connIDsToRetire, initialClientDestConnID, routes,
                highestSeq + 1);
      generated := generated + 1;
      if next.None? {
        return false;
      }
      OneMoreActive(activeSrcConnIDs, highestSeq + 1, next.value);
      activeSrcConnIDs := activeSrcConnIDs[highestSeq + 1 := next.value];
      routes := routes + {next.value};
      issued := issued + [highestSeq + 1];
      highestSeq := highestSeq + 1;
      return true;
    }

    /** The peer retires an ID. It stays routed until its expiry, and is replaced, unless it was the first one. */
    method Retire(n: int, sentWithDestConnID: ConnectionID, expiry: int) returns (r: RetireResult)
      requires Valid() && 0 <= n
      modifies this`generated, this`highestSeq, this`activeSrcConnIDs, this`connIDsToRetire, this`routes, this`issued
      ensures Valid()
      ensures r == NeverIssued <==> n > old(highestSeq)
      ensures r == InUse <==> n in old(activeSrcConnIDs) && old(activeSrcConnIDs)[n] == sentWithDestConnID
      ensures r == InUse || r == NeverIssued || n !in old(activeSrcConnIDs) ==>
                activeSrcConnIDs == old(activeSrcConnIDs) && connIDsToRetire == old(connIDsToRetire)
                    && routes == old(routes)
      ensures r == NoNewID <==>
                  && n in old(activeSrcConnIDs) && old(activeSrcConnIDs)[n] != sentWithDestConnID
                  && n != 0 && generate(old(generated)).None?
      ensures (r == Retired || r == NoNewID) && n in old(activeSrcConnIDs) ==>
                && n !in activeSrcConnIDs && old(routes) <= routes
                && Inserted(old(connIDsToRetire), ToRetire(expiry, old(activeSrcConnIDs)[n]), connIDsToRetire)
      ensures forall m :: m in old(activeSrcConnIDs) && m != n ==>
                  m in activeSrcConnIDs && activeSrcConnIDs[m] == old(activeSrcConnIDs)[m]
      ensures forall m :: m in activeSrcConnIDs && m !in old(activeSrcConnIDs) ==>
                  r == Retired && m == old(highestSeq) + 1 && generate(old(generated)) == Some(activeSrcConnIDs[m])
      ensures r == Retired && n in old(activeSrcConnIDs) ==>
                |activeSrcConnIDs| == |old(activeSrcConnIDs)| - if n == 0 then 1 else 0
    {
      hide Wanted, Routed, Unique, MapBag, SeqBag, SortedByExpiry, Inserted;
      if n > highestSeq {
        return NeverIssued;
      }
      if n !in activeSrcConnIDs {
        return Retired;
      }
      var id := activeSrcConnIDs[n];
      if id == sentWithDestConnID {
        return InUse;
      }
      var before := connIDsToRetire;
      var list := QueueForRetiring(connIDsToRetire, id, expiry);
      MovedToRetire(activeSrcConnIDs, connIDsToRetire, initialClientDestConnID, n, list);
      connIDsToRetire := list;
      assert (activeSrcConnIDs - {n}).Keys == activeSrcConnIDs.Keys - {n};
      activeSrcConnIDs := activeSrcConnIDs - {n};
      if n == 0 {
        return Retired;
      }
      var ok := IssueNewConnID();
      return if ok then Retired else NoNewID;
    }

    /** The ID that the client chose for its first packet is not needed much longer. */
    method SetHandshakeComplete(expiry: int)
      requires Valid()
      modifies this`connIDsToRetire, this`initialClientDestConnID
      ensures Valid() && initialClientDestConnID == None && WantedNow() == old(WantedNow())
      ensures if old(initialClientDestConnID).None? then connIDsToRetire == old(connIDsToRetire)
              else Inserted(old(connIDsToRetire), ToRetire(expiry, old(initialClientDestConnID).value), connIDsToRetire)
    {
      hide Wanted, Routed, Unique, MapBag, SeqBag, SortedByExpiry;
      if initialClientDestConnID.Some? {
        var list := QueueForRetiring(connIDsToRetire, initialClientDestConnID.value, expiry);
        InitialToRetire(activeSrcConnIDs, connIDsToRetire, initialClientDestConnID, list);
        connIDsToRetire := list;
        initialClientDestConnID := None;
      }
    }

    /** Stops routing exactly the IDs that expired. */
    method RemoveRetiredConnIDs(now: int)
      requires Valid()
      modifies this`connIDsToRetire, this`routes
      ensures Valid()
      ensures forall c :: c in connIDsToRetire <==> c in old(connIDsToRetire) && now < c.t
      ensures forall id :: id in routes <==> id in old(routes) && !Expired(old(connIDsToRetire), now, id)
    {
      hide Wanted, Routed, Unique, MapBag, SeqBag;
      ghost var all := connIDsToRetire;
      ghost var k := 0;
      assert all[0..] == all;
      while |connIDsToRetire| > 0 && connIDsToRetire[0].t <= now
        invariant Valid() && 0 <= k <= |all| && connIDsToRetire == all[k..]
        invariant forall i :: 0 <= i < k ==> all[i].t <= now
        invariant forall id :: id in routes <==> id in old(routes) && !exists i :: 0 <= i < k && all[i].id == id
        decreases |connIDsToRetire|
      {
        FirstExpired(generate, generated, activeSrcConnIDs, connIDsToRetire, initialClientDestConnID, routes);
        routes := routes - {connIDsToRetire[0].id};
        connIDsToRetire := connIDsToRetire[1..];
        k := k + 1;
      }
      LaterOnes(all, k, now);
    }

    /** The connection ends: nothing is routed any more. */
    method RemoveAll()
      requires Valid()
      modifies this`routes
      ensures routes == {}
    {
      hide MapBag, SeqBag, Wanted, Unique, SortedByExpiry, Routed;
      ghost var before := routes;
      if initialClientDestConnID.Some? {
        routes := routes - {initialClientDestConnID.value};
      }
      UnrouteActive();
      UnrouteRetired();
      NothingRouted(activeSrcConnIDs, connIDsToRetire, initialClientDestConnID, before, routes);
    }

    method UnrouteActive()
      modifies this`routes
      ensures routes <= old(routes) && forall n :: n in activeSrcConnIDs ==> Itself(activeSrcConnIDs[n]) !in routes
    {
      var left := activeSrcConnIDs;
      while left != map[]
        invariant routes <= old(routes)
        invariant forall n :: n in left ==> n in activeSrcConnIDs && left[n] == activeSrcConnIDs[n]
        invariant forall n :: n in activeSrcConnIDs && n !in left ==> Itself(activeSrcConnIDs[n]) !in routes
        decreases |left|
      {
        KeyExists(left);
        var n :| n in left;
        routes := routes - {left[n]};
        left := left - {n};
      }
    }

    method UnrouteRetired()
      modifies this`routes
      ensures routes <= old(routes) && forall j :: 0 <= j < |connIDsToRetire| ==> IdOf(connIDsToRetire[j]) !in routes
    {
      for i := 0 to |connIDsToRetire|
        invariant routes <= old(routes) && forall j :: 0 <= j < i ==> IdOf(connIDsToRetire[j]) !in routes
      {
        routes := routes - {connIDsToRetire[i].id};
      }
    }
  }

  lemma InitiallyWanted(id: ConnectionID, initial: Option<ConnectionID>)
    ensures Wanted(map[0 := id], [], initial) == FirstWanted(id, initial)
  {
    MapBagAdd(map[], Itself, 0, id);
    assert map[][0 := id] == map[0 := id];
    assert MapBag(map[], Itself) == multiset{};
  }

  lemma InitiallyRouted(id: ConnectionID, initial: Option<ConnectionID>)
    requires initial != Some(id)
    ensures Routed({id} + (if initial.Some? then {initial.value} else {}), Wanted(map[0 := id], [], initial))
  {
    hide Wanted;
    InitiallyWanted(id, initial);
  }

  lemma OneMoreActive(active: map<int, ConnectionID>, n: int, id: ConnectionID)
    requires n !in active
    ensures |active[n := id]| == |active| + 1
  {
    assert (active[n := id]).Keys == active.Keys + {n};
  }

  /** When no wanted ID is routed, none is. */
  lemma NothingRouted(active: map<int, ConnectionID>, toRetire: seq<ToRetire>, initial: Option<ConnectionID>,
                      before: set<ConnectionID>, routes: set<ConnectionID>)
    requires Routed(before, Wanted(active, toRetire, initial)) && routes <= before
    requires forall n :: n in active ==> Itself(active[n]) !in routes
    requires forall i :: 0 <= i < |toRetire| ==> IdOf(toRetire[i]) !in routes
    requires initial.Some? ==> initial.value !in routes
    ensures routes == {}
  {
    forall id ensures id in Wanted(active, toRetire, initial) ==> id !in routes {
      MapBagMember(active, Itself, id);
      SeqBagMember(toRetire, IdOf, id);
    }
    assert forall id :: id !in routes;
  }

  ghost predicate Expired(list: seq<ToRetire>, now: int, id: ConnectionID) {
    exists i :: 0 <= i < |list| && list[i].t <= now && list[i].id == id
  }

  /** The ID is behind all that expire at the same time or earlier, and in front of all others. */
  ghost predicate Inserted(list: seq<ToRetire>, c: ToRetire, r: seq<ToRetire>) {
    exists i :: InsertedAt(list, c, i, r)
  }

  ghost predicate InsertedAt(list: seq<ToRetire>, c: ToRetire, i: int, r: seq<ToRetire>) {
    && 0 <= i <= |list| && r == list[..i] + [c] + list[i..]
    && (forall j :: 0 <= j < |list| ==> (list[j].t <= c.t <==> j < i))
  }

  /** Inserts an ID behind all that expire at the same time or earlier. */
  method QueueForRetiring(list: seq<ToRetire>, id: ConnectionID, expiry: int) returns (r: seq<ToRetire>)
    requires SortedByExpiry(list)
    ensures SortedByExpiry(r) && ToRetire(expiry, id) in r
    ensures SeqBag(r, IdOf) == SeqBag(list, IdOf) + multiset{id}
    ensures Inserted(list, ToRetire(expiry, id), r)
  {
    hide SeqBag;
    var idx := 0;
    while idx < |list| && list[idx].t <= expiry
      invariant 0 <= idx <= |list| && forall i :: 0 <= i < idx ==> list[i].t <= expiry
    {
      idx := idx + 1;
    }
    SeqBagInsert(list, idx, ToRetire(expiry, id), IdOf);
    r := list[..idx] + [ToRetire(expiry, id)] + list[idx..];
    assert r[idx] == ToRetire(expiry, id);
    assert InsertedAt(list, ToRetire(expiry, id), idx, r);
  }

  lemma MovedToRetire(active: map<int, ConnectionID>, toRetire: seq<ToRetire>, initial: Option<ConnectionID>, n: int,
                      list: seq<ToRetire>)
    requires n in active && SeqBag(list, IdOf) == SeqBag(toRetire, IdOf) + multiset{active[n]}
    ensures Wanted(active - {n}, list, initial) == Wanted(active, toRetire, initial)
  {
    hide MapBag, SeqBag;
    MapBagRemove(active, Itself, n);
  }

  lemma InitialToRetire(active: map<int, ConnectionID>, toRetire: seq<ToRetire>, initial: Option<ConnectionID>,
                        list: seq<ToRetire>)
    requires initial.Some? && SeqBag(list, IdOf) == SeqBag(toRetire, IdOf) + multiset{initial.value}
    ensures Wanted(active, list, None) == Wanted(active, toRetire, initial)
  {
    hide MapBag, SeqBag;
  }

  /** Generating an ID, and routing it. */
  lemma IssuedOne(generate: int -> Option<ConnectionID>, k: int, active: map<int, ConnectionID>,
                  toRetire: seq<ToRetire>,
                  initial: Option<ConnectionID>, routes: set<ConnectionID>, n: int)
    requires Unique(generate, k, Wanted(active, toRetire, initial))
               && Routed(routes, Wanted(active, toRetire, initial)) && n !in active
    ensures Unique(generate, k + 1, Wanted(active, toRetire, initial))
    ensures generate(k).Some? ==>
              && Unique(generate, k + 1, Wanted(active[n := generate(k).value], toRetire, initial))
              && Routed(routes + {generate(k).value}, Wanted(active[n := generate(k).value], toRetire, initial))
  {
    hide MapBag, SeqBag;
    if generate(k).Some? {
      var id := generate(k).value;
      MapBagAdd(active, Itself, n, id);
      assert Wanted(active[n := id], toRetire, initial) == Wanted(active, toRetire, initial) + multiset{id};
    }
  }

  /** The first ID of the list is not routed any more. */
  lemma FirstExpired(generate: int -> Option<ConnectionID>, k: int, active: map<int, ConnectionID>,
                     toRetire: seq<ToRetire>,
                     initial: Option<ConnectionID>, routes: set<ConnectionID>)
    requires toRetire != [] && Routed(routes, Wanted(active, toRetire, initial))
               && Unique(generate, k, Wanted(active, toRetire, initial))
    ensures Routed(routes - {toRetire[0].id}, Wanted(active, toRetire[1..], initial))
    ensures Unique(generate, k, Wanted(active, toRetire[1..], initial))
  {
    hide MapBag, Routed, Unique;
    assert SeqBag(toRetire, IdOf) == multiset{IdOf(toRetire[0])} + SeqBag(toRetire[1..], IdOf);
    hide SeqBag;
    assert Wanted(active, toRetire, initial) == Wanted(active, toRetire[1..], initial) + multiset{toRetire[0].id};
    RoutedMinus(generate, k, Wanted(active, toRetire[1..], initial), toRetire[0].id, routes);
  }

  lemma RoutedMinus(generate: int -> Option<ConnectionID>, k: int, rest: multiset<ConnectionID>, id: ConnectionID,
                    routes: set<ConnectionID>)
    requires Routed(routes, rest + multiset{id}) && Unique(generate, k, rest + multiset{id})
    ensures Routed(routes - {id}, rest) && Unique(generate, k, rest)
  {
    var all := rest + multiset{id};
    assert forall x :: all[x] == rest[x] + if x == id then 1 else 0;
    assert all[id] <= 1;
  }

  lemma LaterOnes(all: seq<ToRetire>, k: int, now: int)
    requires SortedByExpiry(all) && 0 <= k <= |all| && (forall i :: 0 <= i < k ==> all[i].t <= now)
               && (k < |all| ==> now < all[k].t)
    ensures forall c :: c in all[k..] <==> c in all && now < c.t
    ensures forall id :: Expired(all, now, id) <==> exists i :: 0 <= i < k && all[i].id == id
  {
    assert forall i :: k <= i < |all| ==> now < all[i].t;
  }
}
