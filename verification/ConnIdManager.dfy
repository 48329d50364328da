// The connection IDs that the peer issued to us: the active one, the unused ones, and those used for probing paths.
module ConnIdManager {
  import opened Bags
  import opened Protocol

  const MAX_ACTIVE_CONNECTION_IDS := 4
  const PACKETS_PER_CONNECTION_ID := 10000

  type ConnectionID = seq<Byte>

  /** A stateless reset token; only its identity matters. */
  type Token = int

  datatype NewConnID = NewConnID(sequenceNumber: int, id: ConnectionID, token: Token)

  datatype NewConnectionIDFrame = NewConnectionIDFrame(sequenceNumber: int, retirePriorTo: int, id: ConnectionID,
                                                       token: Token)

  datatype AddResult = Added | ZeroLengthInUse | Conflict | TooMany

  function NumberOf(e: NewConnID): int { e.sequenceNumber }

  function TokenOf(e: NewConnID): Token { e.token }

  /** Where each sequence number is: active, queued, probing, or announced in a RETIRE_CONNECTION_ID frame. */
  ghost function Places(active: int, queue: seq<NewConnID>, probing: map<int, NewConnID>,
                        announced: multiset<int>): multiset<int> {
    multiset{active} + SeqBag(queue, NumberOf) + MapBag(probing, NumberOf) + announced
  }

  ghost function TokensInUse(activeToken: Option<Token>, probing: map<int, NewConnID>): multiset<Token> {
    (if activeToken.Some? then multiset{activeToken.value} else multiset{}) + MapBag(probing, TokenOf)
  }

  ghost predicate AtMostOnce(b: multiset<int>) {
    forall n :: b[n] <= 1
  }

  ghost predicate Increasing(queue: seq<NewConnID>) {
    forall i, j :: 0 <= i < j < |queue| ==> queue[i].sequenceNumber < queue[j].sequenceNumber
  }

  /** Unused IDs are newer than the active one, and not older than any retired or probing one. */
  ghost predicate Unused(queue: seq<NewConnID>, active: int, highestRetired: int, highestProbing: int) {
    forall i :: 0 <= i < |queue| ==>
      active < queue[i].sequenceNumber && highestRetired <= queue[i].sequenceNumber
          && highestProbing <= queue[i].sequenceNumber
  }

  ghost predicate ProbingUpTo(probing: map<int, NewConnID>, highest: int) {
    forall p :: p in probing ==> 0 <= probing[p].sequenceNumber <= highest
  }

  predicate InQueue(queue: seq<NewConnID>, n: int) {
    exists i :: 0 <= i < |queue| && queue[i].sequenceNumber == n
  }

  /** Unused IDs from the limit on are still there, or became active instead of an ID below the limit. */
  ghost predicate QueueKept(queue: seq<NewConnID>, limit: int, queue': seq<NewConnID>, active: int, active': int) {
    forall e :: e in queue && limit <= e.sequenceNumber ==>
      e in queue' || (active < limit && e.sequenceNumber == active')
  }

  ghost predicate ProbingKept(probing: map<int, NewConnID>, limit: int, probing': map<int, NewConnID>) {
    forall p :: p in probing && limit <= probing[p].sequenceNumber ==> p in probing' && probing'[p] == probing[p]
  }

  ghost predicate QueueFrom(queue: seq<NewConnID>, limit: int) {
    forall e :: e in queue ==> limit <= e.sequenceNumber
  }

  ghost predicate ProbingFrom(probing: map<int, NewConnID>, limit: int) {
    forall p :: p in probing ==> limit <= probing[p].sequenceNumber
  }

  /** Exactly the IDs from the limit on are left. */
  ghost predicate Filtered(queue: seq<NewConnID>, limit: int, queue': seq<NewConnID>) {
    forall e :: e in queue' <==> e in queue && limit <= e.sequenceNumber
  }

  lemma AfterFilter(queue: seq<NewConnID>, limit: int, queue': seq<NewConnID>, active: int, e: NewConnID)
    requires Filtered(queue, limit, queue') && limit <= e.sequenceNumber
    ensures QueueKept(queue, limit, queue', active, active) && QueueFrom(queue', limit)
    ensures InQueue(queue', e.sequenceNumber) <==> InQueue(queue, e.sequenceNumber)
    ensures e in queue' <==> e in queue
  {
    if i :| 0 <= i < |queue| && queue[i].sequenceNumber == e.sequenceNumber {
      assert queue[i] in queue';
    }
    if i :| 0 <= i < |queue'| && queue'[i].sequenceNumber == e.sequenceNumber {
      assert queue'[i] in queue;
    }
  }

  lemma AfterInsert(queue: seq<NewConnID>, limit: int, queue': seq<NewConnID>, active: int, e: NewConnID,
                    queue'': seq<NewConnID>)
    requires QueueKept(queue, limit, queue', active, active) && QueueFrom(queue', limit) && limit <= e.sequenceNumber
    requires Grown(queue', e, queue'')
    ensures QueueKept(queue, limit, queue'', active, active) && QueueFrom(queue'', limit)
  {
  }

  lemma AfterUpdate(queue: seq<NewConnID>, limit: int, queue': seq<NewConnID>, active: int)
    requires QueueKept(queue, limit, queue', active, active) && active < limit && queue' != []
              && QueueFrom(queue', limit)
    ensures QueueKept(queue, limit, queue'[1..], active, queue'[0].sequenceNumber) && QueueFrom(queue'[1..], limit)
    ensures limit <= queue'[0].sequenceNumber
  {
    assert queue' == [queue'[0]] + queue'[1..];
  }

  lemma NotEmpty(queue: seq<NewConnID>, n: int)
    requires InQueue(queue, n)
    ensures queue != []
  {
  }

  /** At most one ID was added. */
  ghost predicate Grown(queue: seq<NewConnID>, e: NewConnID, queue': seq<NewConnID>) {
    (forall c :: c in queue' ==> c in queue || c == e) && (forall c :: c in queue ==> c in queue')
  }

  class ConnIdManager {
    var queue: seq<NewConnID>
    var highestProbingID: int
    var pathProbing: map<int, NewConnID>
    var handshakeComplete: bool
    var activeSequenceNumber: int
    var highestRetired: int
    var activeConnectionID: ConnectionID
    var activeStatelessResetToken: Option<Token>
    var packetsSinceLastChange: int
    var packetsPerConnectionID: int
    var closed: bool

    /** The RETIRE_CONNECTION_ID frames that were queued. */
    ghost var announced: multiset<int>
    /** The stateless reset tokens that were added and not removed. */
    ghost var registered: multiset<Token>

    ghost predicate Valid()
      reads this
    {
      && 0 <= activeSequenceNumber && 0 <= highestRetired && 0 <= highestProbingID
      && Increasing(queue) && Unused(queue, activeSequenceNumber, highestRetired, highestProbingID)
      && ProbingUpTo(pathProbing, highestProbingID)
      && registered == if closed then multiset{} else TokensInUse(activeStatelessResetToken, pathProbing)
    }

    ghost function Numbers(): multiset<int>
      reads this
    {
      Places(activeSequenceNumber, queue, pathProbing, announced)
    }

    /** No sequence number is in two places. */
    ghost predicate Exclusive()
      reads this
    {
      AtMostOnce(Numbers())
    }

    /** The number belongs to an ID that should be retired at once. */
    predicate Stale(n: int)
      reads this
    {
      n < Max(activeSequenceNumber, highestProbingID) || n < highestRetired
    }

    /** The ID of this frame is known and nothing has to be done. */
    predicate Known(n: int)
      reads this
    {
      !Stale(n) && (n == activeSequenceNumber || InQueue(queue, n))
    }

    /** The number of the frame is known with another ID or token. */
    predicate Contradicts(f: NewConnectionIDFrame)
      reads this
    {
      && !Stale(f.sequenceNumber) && f.sequenceNumber != activeSequenceNumber
      && InQueue(queue, f.sequenceNumber) && NewConnID(f.sequenceNumber, f.id, f.token) !in queue
    }

    /** The number is newer than the active one, and not older than any retired or probing one. */
    predicate Fresh(n: int)
      reads this`activeSequenceNumber, this`highestRetired, this`highestProbingID
    {
      activeSequenceNumber < n && highestRetired <= n && highestProbingID <= n
    }

    constructor (initialDestConnID: ConnectionID)
      ensures Valid() && !closed && Numbers() == multiset{0} && Exclusive() && registered == multiset{}
      ensures activeConnectionID == initialDestConnID && activeSequenceNumber == 0 && queue == []
                && pathProbing == map[]
      ensures highestProbingID == 0 && highestRetired == 0 && !handshakeComplete && activeStatelessResetToken == None
      ensures packetsSinceLastChange == packetsPerConnectionID == 0 && announced == multiset{}
    {
      queue, highestProbingID, pathProbing, handshakeComplete := [], 0, map[], false;
      activeSequenceNumber, highestRetired, activeConnectionID := 0, 0, initialDestConnID;
      activeStatelessResetToken, packetsSinceLastChange, packetsPerConnectionID := None, 0, 0;
      closed, announced, registered := false, multiset{}, multiset{};
    }

    /** Handles a NEW_CONNECTION_ID frame. Nothing that was tracked is forgotten; the new ID is tracked once more,
        unless it is known already. The wish to retire old IDs is met, unless the frame is stale. */
    method Add(f: NewConnectionIDFrame, rand: int) returns (r: AddResult)
      requires Valid() && !closed && 0 <= f.retirePriorTo <= f.sequenceNumber
      modifies this`queue, this`pathProbing, this`activeSequenceNumber, this`highestRetired, this`activeConnectionID,
               this`activeStatelessResetToken, this`packetsSinceLastChange, this`packetsPerConnectionID,
                   this`announced, this`registered
      ensures Valid()
      ensures r == ZeroLengthInUse <==> old(activeConnectionID) == []
      ensures r == TooMany ==> |queue| >= MAX_ACTIVE_CONNECTION_IDS
      ensures r == Added ==> |queue| < MAX_ACTIVE_CONNECTION_IDS
      ensures r == ZeroLengthInUse ==> Numbers() == old(Numbers())
      ensures r == Conflict <==> old(activeConnectionID) != [] && old(Contradicts(f))
      ensures r != ZeroLengthInUse ==>
                Numbers() == if old(Known(f.sequenceNumber)) then old(Numbers())
                    else Plus(old(Numbers()), f.sequenceNumber)
      ensures r != ZeroLengthInUse && old(Exclusive()) ==>
                (Exclusive() <==> old(Known(f.sequenceNumber)) || f.sequenceNumber !in old(Numbers()))
      ensures (r == Added || r == TooMany) && !old(Stale(f.sequenceNumber)) ==> NoneBefore(f.retirePriorTo)
      ensures f.retirePriorTo == 0 ==>
                  activeSequenceNumber == old(activeSequenceNumber) && activeConnectionID == old(activeConnectionID)
      ensures f.retirePriorTo == 0 ==> highestRetired == old(highestRetired) && pathProbing == old(pathProbing)
      ensures f.retirePriorTo <= old(activeSequenceNumber) ==>
                  activeSequenceNumber == old(activeSequenceNumber) && activeConnectionID == old(activeConnectionID)
      ensures QueueKept(old(queue), f.retirePriorTo, queue, old(activeSequenceNumber), activeSequenceNumber)
      ensures ProbingKept(old(pathProbing), f.retirePriorTo, pathProbing)
      ensures old(activeConnectionID) != [] && old(Stale(f.sequenceNumber)) ==>
                announced == Plus(old(announced), f.sequenceNumber) && activeSequenceNumber == old(activeSequenceNumber)
      ensures old(activeConnectionID) != [] && old(Stale(f.sequenceNumber)) ==>
                  queue == old(queue) && pathProbing == old(pathProbing)
      ensures f.sequenceNumber == old(activeSequenceNumber) && f.retirePriorTo == 0
                && old(highestProbingID) <= f.sequenceNumber && old(highestRetired) <= f.sequenceNumber ==>
                queue == old(queue) && announced == old(announced)
      ensures old(activeConnectionID) != []
                && (f.sequenceNumber < old(activeSequenceNumber) || f.sequenceNumber < old(highestProbingID)
                    || f.sequenceNumber < old(highestRetired)) ==>
                announced == Plus(old(announced), f.sequenceNumber) && queue == old(queue)
      ensures old(activeConnectionID) != [] && old(IsNewest(f.sequenceNumber)) && f.retirePriorTo == 0 ==>
                queue == old(queue) + [NewConnID(f.sequenceNumber, f.id, f.token)]
    {
      hide Plus, Minus, Places, TokensInUse, Increasing, Unused, MapBag, SeqBag;
      if |activeConnectionID| == 0 {
        return ZeroLengthInUse;
      }
      if Exclusive() {
        ExclusiveAfterAdd(Numbers(), Known(f.sequenceNumber), f.sequenceNumber);
      }
      if Stale(f.sequenceNumber) {
        OneMore(activeSequenceNumber, queue, pathProbing, announced, f.sequenceNumber);
        announced := Plus(announced, f.sequenceNumber);
        return if |queue| >= MAX_ACTIVE_CONNECTION_IDS then TooMany else Added;
      }
      r := AddCurrent(f, rand);
      if r == Added && |queue| >= MAX_ACTIVE_CONNECTION_IDS {
        r := TooMany;
      }
    }

    /** Handles a frame that is not stale. */
    method AddCurrent(f: NewConnectionIDFrame, rand: int) returns (r: AddResult)
      requires Valid() && !closed && 0 <= f.retirePriorTo <= f.sequenceNumber && !Stale(f.sequenceNumber)
      modifies this`queue, this`pathProbing, this`activeSequenceNumber, this`highestRetired, this`activeConnectionID,
               this`activeStatelessResetToken, this`packetsSinceLastChange, this`packetsPerConnectionID,
                   this`announced, this`registered
      ensures Valid() && (r == Added || r == Conflict) && (r == Conflict <==> old(Contradicts(f)))
      ensures Numbers() == if old(Known(f.sequenceNumber)) then old(Numbers())
                else Plus(old(Numbers()), f.sequenceNumber)
      ensures r == Added ==> NoneBefore(f.retirePriorTo)
      ensures f.retirePriorTo == 0 ==>
                  activeSequenceNumber == old(activeSequenceNumber) && activeConnectionID == old(activeConnectionID)
      ensures f.retirePriorTo == 0 ==> highestRetired == old(highestRetired) && pathProbing == old(pathProbing)
      ensures f.retirePriorTo <= old(activeSequenceNumber) ==>
                  activeSequenceNumber == old(activeSequenceNumber) && activeConnectionID == old(activeConnectionID)
      ensures QueueKept(old(queue), f.retirePriorTo, queue, old(activeSequenceNumber), activeSequenceNumber)
      ensures ProbingKept(old(pathProbing), f.retirePriorTo, pathProbing)
      ensures f.sequenceNumber == old(activeSequenceNumber) && f.retirePriorTo == 0 ==>
                queue == old(queue) && announced == old(announced)
      ensures old(IsNewest(f.sequenceNumber)) && f.retirePriorTo == 0 ==>
                queue == old(queue) + [NewConnID(f.sequenceNumber, f.id, f.token)]
    {
      hide Plus, Minus, Places, TokensInUse, Increasing, Unused, MapBag, SeqBag, QueueKept, ProbingKept, ProbingUpTo,
           QueueFrom, ProbingFrom, Filtered, Grown, InQueue;
      var limit, e := f.retirePriorTo, NewConnID(f.sequenceNumber, f.id, f.token);
      RetireOld(limit);
      ghost var retired := queue;
      AfterFilter(old(queue), limit, queue, activeSequenceNumber, e);
      if f.sequenceNumber == activeSequenceNumber {
        return Added;
      }
      var ok := AddConnectionID(f.sequenceNumber, f.id, f.token);
      AfterInsert(old(queue), limit, retired, activeSequenceNumber, e, queue);
      if !ok {
        return Conflict;
      }
      if activeSequenceNumber < limit {
        NotEmpty(queue, f.sequenceNumber);
        AfterUpdate(old(queue), limit, queue, activeSequenceNumber);
        UpdateConnectionID(rand);
      }
      return Added;
    }

    /** Retires the probing and the unused IDs below the limit. */
    method RetireOld(limit: int)
      requires Valid() && !closed && 0 <= limit
      modifies this`queue, this`pathProbing, this`highestRetired, this`announced, this`registered
      ensures Valid() && Numbers() == old(Numbers()) && highestRetired == Max(old(highestRetired), limit)
      ensures Filtered(old(queue), limit, queue) && ProbingFrom(pathProbing, limit)
      ensures limit == 0 ==> queue == old(queue) && pathProbing == old(pathProbing) && announced == old(announced)
      ensures ProbingKept(old(pathProbing), limit, pathProbing)
    {
      hide Plus, Minus, Places, TokensInUse, Increasing, MapBag, SeqBag;
      if limit != 0 {
        RetireProbing(limit);
      }
      if limit > highestRetired {
        RetireQueued(limit);
      }
    }

    /** No ID in use has a smaller number. */
    ghost predicate NoneBefore(n: int)
      reads this
    {
      n <= activeSequenceNumber && QueueFrom(queue, n) && ProbingFrom(pathProbing, n)
    }

    /** The number is larger than all others. */
    predicate IsNewest(n: int)
      reads this
    {
      Fresh(n) && (|queue| > 0 ==> queue[|queue| - 1].sequenceNumber < n)
    }

    /** Gives up the probing IDs below the limit. */
    method RetireProbing(limit: int)
      requires Valid() && !closed
      modifies this`pathProbing, this`announced, this`registered
      ensures Valid() && Numbers() == old(Numbers())
      ensures forall p :: p in pathProbing <==> p in old(pathProbing) && limit <= old(pathProbing)[p].sequenceNumber
      ensures forall p :: p in pathProbing ==> pathProbing[p] == old(pathProbing)[p]
    {
      hide Plus, Minus, Places, TokensInUse, Increasing, Unused, MapBag, SeqBag;
      var paths := pathProbing.Keys;
      while paths != {}
        invariant Valid() && Numbers() == old(Numbers())
        invariant paths <= pathProbing.Keys <= old(pathProbing).Keys
        invariant forall p :: p in pathProbing ==> pathProbing[p] == old(pathProbing)[p]
        invariant forall p :: p in old(pathProbing) && limit <= old(pathProbing)[p].sequenceNumber ==> p in pathProbing
        invariant forall p :: p in pathProbing && p !in paths ==> limit <= pathProbing[p].sequenceNumber
        decreases |paths|
      {
        ghost var some := SomeMember(paths);
        var p :| p in paths;
        paths := paths - {p};
        if pathProbing[p].sequenceNumber < limit {
          RetirePath(p);
        }
      }
    }

    /** Gives up the ID that is used for probing a path. */
    method RetirePath(p: int)
      requires Valid() && !closed && p in pathProbing
      modifies this`pathProbing, this`announced, this`registered
      ensures Valid() && Numbers() == old(Numbers()) && pathProbing == old(pathProbing) - {p}
      ensures announced == Plus(old(announced), old(pathProbing)[p].sequenceNumber)
    {
      hide Plus, Minus, Places, TokensInUse, Increasing, Unused, MapBag, SeqBag;
      var entry := pathProbing[p];
      ProbingToAnnounced(activeSequenceNumber, queue, pathProbing, announced, p);
      AddedToken(activeStatelessResetToken, pathProbing - {p}, p, entry);
      assert (pathProbing - {p})[p := entry] == pathProbing;
      announced := Plus(announced, entry.sequenceNumber);
      registered := Minus(registered, entry.token);
      pathProbing := pathProbing - {p};
    }

    /** Gives up the unused IDs below the limit. */
    method RetireQueued(limit: int)
      requires Valid() && !closed && highestRetired < limit
      modifies this`queue, this`announced, this`highestRetired
      ensures Valid() && Numbers() == old(Numbers()) && highestRetired == limit
      ensures Filtered(old(queue), limit, queue)
    {
      hide Plus, Minus, Places, TokensInUse, MapBag, SeqBag, Increasing, Unused;
      ghost var retired;
      ghost var before := queue;
      queue, retired := Filter(queue, limit);
      QueuedToAnnounced(activeSequenceNumber, before, queue, retired, pathProbing, announced);
      announced := announced + retired;
      StillUnused(before, queue, activeSequenceNumber, highestRetired, highestProbingID, limit);
      highestRetired := limit;
    }

    /** Queues an unused ID at its place. Fails if the number is known with another ID or token. */
    method AddConnectionID(n: int, id: ConnectionID, token: Token) returns (ok: bool)
      requires Valid() && !closed
      modifies this`queue
      ensures Increasing(queue) && InQueue(queue, n)
      ensures Valid() <==> InQueue(old(queue), n) || Fresh(n)
      ensures Numbers() == if InQueue(old(queue), n) then old(Numbers()) else Plus(old(Numbers()), n)
      ensures InQueue(old(queue), n) ==> queue == old(queue) && (ok <==> NewConnID(n, id, token) in queue)
      ensures !InQueue(old(queue), n) ==> ok && NewConnID(n, id, token) in queue
      ensures Grown(old(queue), NewConnID(n, id, token), queue)
      ensures old(queue) == [] || old(queue)[|old(queue)| - 1].sequenceNumber < n ==>
                  queue == old(queue) + [NewConnID(n, id, token)]
    {
      hide Plus, Minus, Places, TokensInUse, MapBag, SeqBag;
      if |queue| == 0 || queue[|queue| - 1].sequenceNumber < n {
        Insert(|queue|, NewConnID(n, id, token));
        return true;
      }
      for i := 0 to |queue|
        invariant queue == old(queue)
        invariant forall j :: 0 <= j < i ==> queue[j].sequenceNumber < n
      {
        var entry := queue[i];
        if entry.sequenceNumber == n {
          ok := entry.id == id && entry.token == token;
          return;
        }
        if entry.sequenceNumber > n {
          Insert(i, NewConnID(n, id, token));
          return true;
        }
      }
      assert false;
    }

    method Insert(i: int, e: NewConnID)
      requires Valid() && 0 <= i <= |queue|
      requires forall j :: 0 <= j < i ==> queue[j].sequenceNumber < e.sequenceNumber
      requires i < |queue| ==> e.sequenceNumber < queue[i].sequenceNumber
      modifies this`queue
      ensures Increasing(queue) && queue == old(queue)[..i] + [e] + old(queue)[i..] && queue[i] == e
      ensures Valid() <==> Fresh(e.sequenceNumber)
      ensures Numbers() == Plus(old(Numbers()), e.sequenceNumber) && !InQueue(old(queue), e.sequenceNumber)
    {
      hide Plus, Minus, Places, TokensInUse, MapBag, SeqBag;
      InsertPlaces(activeSequenceNumber, queue, pathProbing, announced, i, e);
      queue := queue[..i] + [e] + queue[i..];
    }

    /** Retires the active ID and switches to the oldest unused one. */
    method UpdateConnectionID(rand: int)
      requires Valid() && !closed && |queue| > 0
      modifies this`queue, this`activeSequenceNumber, this`highestRetired, this`activeConnectionID,
                 this`activeStatelessResetToken,
               this`packetsSinceLastChange, this`packetsPerConnectionID, this`announced, this`registered
      ensures Valid() && Numbers() == old(Numbers())
      ensures queue == old(queue)[1..] && activeSequenceNumber == old(queue)[0].sequenceNumber
      ensures activeConnectionID == old(queue)[0].id && activeStatelessResetToken == Some(old(queue)[0].token)
      ensures announced == Plus(old(announced), old(activeSequenceNumber))
      ensures packetsSinceLastChange == 0 && packetsPerConnectionID == PACKETS_PER_CONNECTION_ID / 2 + rand
    {
      hide Plus, Minus, Places, TokensInUse, MapBag, SeqBag, Increasing, Unused, ProbingUpTo;
      QueueTail(queue, activeSequenceNumber, highestRetired, highestProbingID);
      UpdatePlaces(activeSequenceNumber, queue, pathProbing, announced);
      SwitchToken(queue[0].token);
      ActivateNext(rand);
    }

    method ActivateNext(rand: int)
      requires |queue| > 0
      modifies this`queue, this`activeSequenceNumber, this`highestRetired, this`activeConnectionID,
               this`packetsSinceLastChange, this`packetsPerConnectionID, this`announced
      ensures announced == Plus(old(announced), old(activeSequenceNumber))
      ensures highestRetired == Max(old(highestRetired), old(activeSequenceNumber))
      ensures activeSequenceNumber == old(queue)[0].sequenceNumber && activeConnectionID == old(queue)[0].id
      ensures queue == old(queue)[1..]
      ensures packetsSinceLastChange == 0 && packetsPerConnectionID == PACKETS_PER_CONNECTION_ID / 2 + rand
    {
      announced := Plus(announced, activeSequenceNumber);
      highestRetired := Max(highestRetired, activeSequenceNumber);
      activeSequenceNumber := queue[0].sequenceNumber;
      activeConnectionID := queue[0].id;
      queue := queue[1..];
      packetsSinceLastChange := 0;
      packetsPerConnectionID := PACKETS_PER_CONNECTION_ID / 2 + rand;
    }

    method SwitchToken(token: Token)
      requires registered == TokensInUse(activeStatelessResetToken, pathProbing)
      modifies this`activeStatelessResetToken, this`registered
      ensures registered == TokensInUse(activeStatelessResetToken, pathProbing)
                && activeStatelessResetToken == Some(token)
    {
      hide Plus, Minus, TokensInUse, MapBag;
      if activeStatelessResetToken.Some? {
        ActiveToken(pathProbing, activeStatelessResetToken.value);
        registered := Minus(registered, activeStatelessResetToken.value);
      }
      ActiveToken(pathProbing, token);
      activeStatelessResetToken := Some(token);
      registered := Plus(registered, token);
    }

    /** The ID that the server offers together with its preferred address; it has sequence number 1. It is added
        whatever the numbers of the other IDs are; only if they are not larger, an unused ID stays newer than those in
        use. */
    method AddFromPreferredAddress(id: ConnectionID, token: Token) returns (ok: bool)
      requires Valid() && !closed
      modifies this`queue
      ensures Numbers() == if InQueue(old(queue), 1) then old(Numbers()) else Plus(old(Numbers()), 1)
      ensures Valid() <==> InQueue(old(queue), 1) || Fresh(1)
      ensures ok <==> !InQueue(old(queue), 1) || NewConnID(1, id, token) in old(queue)
    {
      hide Plus, Minus, Places, TokensInUse, Increasing, Unused, MapBag, SeqBag;
      ok := AddConnectionID(1, id, token);
    }

    /** The connection ends: no token stays registered. */
    method Close()
      requires Valid() && !closed
      modifies this`closed, this`registered
      ensures Valid() && closed && registered == multiset{} && Numbers() == old(Numbers())
    {
      hide Plus, Minus, Places, TokensInUse, Increasing, Unused, MapBag, SeqBag;
      closed := true;
      NoActiveToken(pathProbing);
      if activeStatelessResetToken.Some? {
        ActiveToken(pathProbing, activeStatelessResetToken.value);
        registered := Minus(registered, activeStatelessResetToken.value);
      }
      UnregisterProbing();
    }

    method UnregisterProbing()
      requires registered == MapBag(pathProbing, TokenOf)
      modifies this`registered
      ensures registered == multiset{}
    {
      hide MapBag;
      var left := pathProbing;
      while left != map[]
        invariant registered == MapBag(left, TokenOf)
        decreases |left|
      {
        KeyExists(left);
        var p :| p in left;
        MapBagRemove(left, TokenOf, p);
        registered := Minus(registered, left[p].token);
        left := left - {p};
      }
      EmptyBag();
    }

    /** The server chose another ID for the handshake. */
    method ChangeInitialConnID(id: ConnectionID)
      requires Valid() && activeSequenceNumber == 0
      modifies this`activeConnectionID
      ensures Valid() && activeConnectionID == id && Numbers() == old(Numbers())
    {
      hide Plus, Minus, Places, TokensInUse, Increasing, Unused, MapBag, SeqBag;
      activeConnectionID := id;
    }

    /** The token of the first ID. The registrations stay balanced exactly if no token was set before. */
    method SetStatelessResetToken(token: Token)
      requires Valid() && !closed && activeSequenceNumber == 0
      modifies this`activeStatelessResetToken, this`registered
      ensures Valid() <==> old(activeStatelessResetToken).None?
      ensures activeStatelessResetToken == Some(token)
      ensures registered == Plus(old(registered), token) && Numbers() == old(Numbers())
    {
      hide Plus, Minus, Places, TokensInUse, Increasing, Unused, MapBag, SeqBag;
      activeStatelessResetToken := Some(token);
      ghost var before := registered;
      registered := Plus(registered, token);
      SetTokenBalance(old(activeStatelessResetToken), pathProbing, token);
    }

    method SentPacket()
      requires Valid()
      modifies this`packetsSinceLastChange
      ensures Valid() && Numbers() == old(Numbers())
                && packetsSinceLastChange == (old(packetsSinceLastChange) + 1) % 0x1_0000_0000
    {
      hide Plus, Minus, Places, TokensInUse, Increasing, Unused, MapBag, SeqBag;
      packetsSinceLastChange := (packetsSinceLastChange + 1) % 0x1_0000_0000;
    }

    /** An update is only due if there is an unused ID. */
    predicate ShouldUpdateConnID()
      reads this
      ensures ShouldUpdateConnID() ==> |queue| > 0 && handshakeComplete
    {
      && handshakeComplete
      && ((|queue| > 0 && activeSequenceNumber == 0)
          || (2 * |queue| >= MAX_ACTIVE_CONNECTION_IDS && packetsSinceLastChange >= packetsPerConnectionID))
    }

    method Get(rand: int) returns (id: ConnectionID)
      requires Valid() && !closed
      modifies this`queue, this`activeSequenceNumber, this`highestRetired, this`activeConnectionID,
                 this`activeStatelessResetToken,
               this`packetsSinceLastChange, this`packetsPerConnectionID, this`announced, this`registered
      ensures Valid() && Numbers() == old(Numbers()) && id == activeConnectionID
      ensures !old(handshakeComplete) || old(queue) == [] ==> unchanged(this)
      ensures old(activeSequenceNumber) != 0
                && (2 * |old(queue)| < MAX_ACTIVE_CONNECTION_IDS
                    || old(packetsSinceLastChange < packetsPerConnectionID)) ==>
                unchanged(this)
      ensures old(handshakeComplete) && old(queue) != []
                && (old(activeSequenceNumber) == 0 || (MAX_ACTIVE_CONNECTION_IDS <= 2 * |old(queue)|
                    && old(packetsPerConnectionID <= packetsSinceLastChange))) ==>
                queue == old(queue)[1..]
      ensures old(ShouldUpdateConnID()) ==>
                  packetsSinceLastChange == 0 && packetsPerConnectionID == PACKETS_PER_CONNECTION_ID / 2 + rand
      ensures old(ShouldUpdateConnID()) ==>
                && queue == old(queue)[1..] && activeSequenceNumber == old(queue)[0].sequenceNumber
                    && id == old(queue)[0].id
                && announced == Plus(old(announced), old(activeSequenceNumber))
    {
      hide Plus, Minus, Places, TokensInUse, Increasing, Unused, MapBag, SeqBag;
      if ShouldUpdateConnID() {
        UpdateConnectionID(rand);
      }
      id := activeConnectionID;
    }

    method SetHandshakeComplete()
      requires Valid()
      modifies this`handshakeComplete
      ensures Valid() && handshakeComplete && Numbers() == old(Numbers())
    {
      hide Plus, Minus, Places, TokensInUse, Increasing, Unused, MapBag, SeqBag;
      handshakeComplete := true;
    }

    /** An ID for probing a path: always the same one for the same path, and one that was not used before for a new
        path. */
    method GetConnIDForPath(path: int) returns (id: Option<ConnectionID>)
      requires Valid() && !closed
      modifies this`queue, this`pathProbing, this`highestProbingID, this`registered
      ensures Valid() && Numbers() == old(Numbers())
      ensures activeConnectionID == [] ==> id == Some([])
      ensures activeConnectionID != [] && path in old(pathProbing) ==>
                id == Some(old(pathProbing)[path].id) && pathProbing == old(pathProbing) && queue == old(queue)
      ensures activeConnectionID != [] && path !in old(pathProbing) && old(queue) == [] ==>
                  id == None && pathProbing == old(pathProbing)
      ensures activeConnectionID != [] && path !in old(pathProbing) && old(queue) != [] ==>
                && id == Some(old(queue)[0].id) && pathProbing == old(pathProbing)[path := old(queue)[0]]
                    && queue == old(queue)[1..]
                && highestProbingID == old(queue)[0].sequenceNumber
    {
      hide Plus, Minus, Places, TokensInUse, MapBag, SeqBag, Increasing, Unused;
      if |activeConnectionID| == 0 {
        return Some([]);
      }
      if path in pathProbing {
        return Some(pathProbing[path].id);
      }
      if |queue| == 0 {
        return None;
      }
      var front := queue[0];
      QueuedToProbing(activeSequenceNumber, queue, pathProbing, announced, path);
      QueueTail(queue, activeSequenceNumber, highestRetired, highestProbingID);
      AddedToken(activeStatelessResetToken, pathProbing, path, front);
      queue := queue[1..];
      pathProbing := pathProbing[path := front];
      highestProbingID := front.sequenceNumber;
      registered := Plus(registered, front.token);
      return Some(front.id);
    }

    method RetireConnIDForPath(path: int)
      requires Valid() && !closed
      modifies this`pathProbing, this`announced, this`registered
      ensures Valid() && Numbers() == old(Numbers())
      ensures pathProbing == if activeConnectionID == [] then old(pathProbing) else old(pathProbing) - {path}
    {
      hide Plus, Minus, Places, TokensInUse, Increasing, Unused, MapBag, SeqBag;
      if |activeConnectionID| == 0 {
        return;
      }
      if path in pathProbing {
        RetirePath(path);
      }
    }

    /** Exactly the registered tokens are active. */
    method IsActiveStatelessResetToken(token: Token) returns (r: bool)
      requires Valid() && !closed
      ensures r <==> token in registered
    {
      hide Plus, Minus, Places, Increasing, Unused, MapBag, SeqBag;
      MapBagMember(pathProbing, TokenOf, token);
      if activeStatelessResetToken.Some? {
        if activeStatelessResetToken.value == token {
          return true;
        }
      }
      var left := pathProbing;
      while left != map[]
        invariant left.Keys <= pathProbing.Keys && forall p :: p in left ==> left[p] == pathProbing[p]
        invariant forall p :: p in pathProbing && p !in left ==> TokenOf(pathProbing[p]) != token
        decreases |left|
      {
        KeyExists(left);
        var p :| p in left;
        if left[p].token == token {
          assert TokenOf(pathProbing[p]) == token;
          return true;
        }
        left := left - {p};
      }
      return false;
    }
  }

  /** A frame leaves every number in one place exactly if its number is new, queued, or active while no newer ID is
      probing. */
  lemma ExclusiveAfterAdd(before: multiset<int>, known: bool, n: int)
    requires AtMostOnce(before)
    ensures AtMostOnce(if known then before else Plus(before, n)) <==> known || n !in before
  {
    if !known && n in before {
      assert Plus(before, n)[n] == 2;
    }
  }

  /** A NEW_CONNECTION_ID frame that arrives twice makes the manager retire the ID that it goes on using. */
  method RepeatedFrameRetiresActiveID(a: NewConnectionIDFrame, b: NewConnectionIDFrame) returns (m: ConnIdManager)
    requires a.sequenceNumber == 1 && b.sequenceNumber == 2 && a.retirePriorTo == b.retirePriorTo == 0
    requires a.id != [] && b.id != []
    ensures m.Valid() && m.activeSequenceNumber == 1 && 1 in m.announced && !m.Exclusive()
  {
    hide Plus, Minus, Places, TokensInUse, Increasing, Unused, MapBag, SeqBag, AtMostOnce, ProbingUpTo;
    m := TwoIDs(a, b);
    m.SetHandshakeComplete();
    var active := m.Get(0);
    var probing := m.GetConnIDForPath(7);
    ghost var before := m.announced;
    var r := m.Add(a, 0);
    PlusMember(before, 1);
    ActiveAndAnnounced(m.activeSequenceNumber, m.queue, m.pathProbing, m.announced);
  }

  /** A second token leaves the first one registered, with no ID that it belongs to. */
  method SecondTokenIsLeft(a: Token, b: Token) returns (m: ConnIdManager)
    ensures !m.Valid() && m.registered == multiset{a, b} && m.activeStatelessResetToken == Some(b)
  {
    hide Places, TokensInUse, Increasing, Unused, MapBag, SeqBag;
    m := new ConnIdManager([0]);
    m.SetStatelessResetToken(a);
    m.SetStatelessResetToken(b);
  }

  /** The ID of the preferred address, after a frame made ID 1 or a later one active: it becomes an unused ID that is
      not newer than the active one, and its number is in two places. */
  method PreferredAddressTooLate(f: NewConnectionIDFrame, id: ConnectionID, token: Token) returns (m: ConnIdManager)
    requires f.sequenceNumber == f.retirePriorTo == 1
    ensures !m.Valid() && 1 <= m.activeSequenceNumber && !m.Exclusive()
  {
    hide Plus, Minus, Places, TokensInUse, Increasing, MapBag, SeqBag, AtMostOnce, ProbingUpTo;
    m := new ConnIdManager([0]);
    var r := m.Add(f, 0);
    ghost var before := m.Numbers();
    PlusMember(multiset{0}, 1);
    var ok := m.AddFromPreferredAddress(id, token);
    PlusTwice(before, 1);
  }

  /** Once the first ID was replaced, every ID is used for exactly as many packets as were chosen when it became active,
      if enough unused IDs are there. */
  method UseForPackets(m: ConnIdManager, rand: int) returns (ids: seq<ConnectionID>)
    requires m.Valid() && !m.closed && m.handshakeComplete && m.activeSequenceNumber != 0
    requires 2 * |m.queue| >= MAX_ACTIVE_CONNECTION_IDS
    requires 0 <= m.packetsSinceLastChange <= m.packetsPerConnectionID < 0x1_0000_0000
    modifies m
    ensures m.Valid() && m.queue == old(m.queue)[1..] && m.activeSequenceNumber == old(m.queue)[0].sequenceNumber
    ensures |ids| == old(m.packetsPerConnectionID - m.packetsSinceLastChange) + 1
    ensures forall i :: 0 <= i < |ids| - 1 ==> ids[i] == old(m.activeConnectionID)
    ensures ids[|ids| - 1] == old(m.queue)[0].id
  {
    hide Plus, Minus, Places, TokensInUse, Increasing, Unused, MapBag, SeqBag, ConnIdManager.Valid;
    ids := [];
    var id;
    while m.packetsSinceLastChange < m.packetsPerConnectionID
      invariant m.Valid() && !m.closed && m.handshakeComplete && m.queue == old(m.queue)
      invariant m.activeSequenceNumber == old(m.activeSequenceNumber)
                  && m.activeConnectionID == old(m.activeConnectionID)
      invariant m.packetsPerConnectionID == old(m.packetsPerConnectionID)
      invariant m.packetsSinceLastChange == old(m.packetsSinceLastChange) + |ids| <= m.packetsPerConnectionID
      invariant forall i :: 0 <= i < |ids| ==> ids[i] == old(m.activeConnectionID)
      decreases m.packetsPerConnectionID - m.packetsSinceLastChange
    {
      id := m.Get(rand);
      ids := ids + [id];
      m.SentPacket();
    }
    id := m.Get(rand);
    ids := ids + [id];
  }

  method TwoIDs(a: NewConnectionIDFrame, b: NewConnectionIDFrame) returns (m: ConnIdManager)
    requires a.sequenceNumber == 1 && b.sequenceNumber == 2 && a.retirePriorTo == b.retirePriorTo == 0
    ensures fresh(m) && m.Valid() && !m.closed && m.activeSequenceNumber == 0 && m.activeConnectionID != []
    ensures m.queue == [NewConnID(1, a.id, a.token), NewConnID(2, b.id, b.token)] && m.pathProbing == map[]
              && m.highestProbingID == 0
  {
    hide Plus, Minus, Places, TokensInUse, Increasing, Unused, MapBag, SeqBag, AtMostOnce, ProbingUpTo;
    m := new ConnIdManager([0]);
    var r := m.Add(a, 0);
    r := m.Add(b, 0);
  }

  lemma PlusMember(b: multiset<int>, n: int)
    ensures n in Plus(b, n)
  {
  }

  lemma PlusTwice(b: multiset<int>, n: int)
    requires n in b
    ensures !AtMostOnce(Plus(b, n))
  {
    assert Plus(b, n)[n] >= 2;
  }

  lemma ActiveAndAnnounced(active: int, queue: seq<NewConnID>, probing: map<int, NewConnID>, announced: multiset<int>)
    requires active in announced
    ensures !AtMostOnce(Places(active, queue, probing, announced))
  {
    hide SeqBag, MapBag;
    assert Places(active, queue, probing, announced)[active] >= 2;
  }

  lemma OneMore(active: int, queue: seq<NewConnID>, probing: map<int, NewConnID>, announced: multiset<int>, n: int)
    ensures Places(active, queue, probing, Plus(announced, n)) == Plus(Places(active, queue, probing, announced), n)
  {
  }

  lemma ProbingToAnnounced(active: int, queue: seq<NewConnID>, probing: map<int, NewConnID>, announced: multiset<int>,
                           p: int)
    requires p in probing
    ensures Places(active, queue, probing - {p}, Plus(announced, probing[p].sequenceNumber))
              == Places(active, queue, probing, announced)
  {
    hide MapBag, SeqBag;
    MapBagRemove(probing, NumberOf, p);
  }

  /** The entries from the limit on, and the numbers of all others. */
  method Filter(queue: seq<NewConnID>, limit: int) returns (kept: seq<NewConnID>, ghost retired: multiset<int>)
    requires Increasing(queue)
    ensures Increasing(kept) && SeqBag(kept, NumberOf) + retired == SeqBag(queue, NumberOf)
    ensures Filtered(queue, limit, kept)
  {
    hide SeqBag;
    kept, retired := [], multiset{};
    for i := 0 to |queue|
      invariant Increasing(kept) && SeqBag(kept, NumberOf) + retired == SeqBag(queue[..i], NumberOf)
      invariant forall e :: e in kept ==> e in queue[..i] && limit <= e.sequenceNumber
      invariant forall j :: 0 <= j < i && limit <= queue[j].sequenceNumber ==> queue[j] in kept
    {
      var entry := queue[i];
      assert queue[..i + 1] == queue[..i] + [entry];
      SeqBagConcat(queue[..i], [entry], NumberOf);
      SeqBagOne(entry, NumberOf);
      if entry.sequenceNumber >= limit {
        assert forall e :: e in queue[..i] ==> e.sequenceNumber < entry.sequenceNumber;
        SeqBagConcat(kept, [entry], NumberOf);
        MoveLast(SeqBag(kept, NumberOf), retired, multiset{entry.sequenceNumber});
        kept := kept + [entry];
      } else {
        Associate(SeqBag(kept, NumberOf), retired, multiset{entry.sequenceNumber});
        retired := retired + multiset{entry.sequenceNumber};
      }
    }
    assert queue[..|queue|] == queue;
    SameNumbers(queue, kept, limit);
  }

  lemma StillUnused(queue: seq<NewConnID>, kept: seq<NewConnID>, active: int, highestRetired: int,
                    highestProbing: int, limit: int)
    requires Unused(queue, active, highestRetired, highestProbing)
    requires Filtered(queue, limit, kept)
    ensures Unused(kept, active, limit, highestProbing)
  {
  }

  lemma QueuedToAnnounced(active: int, queue: seq<NewConnID>, kept: seq<NewConnID>, retired: multiset<int>,
                          probing: map<int, NewConnID>,
                          announced: multiset<int>)
    requires SeqBag(kept, NumberOf) + retired == SeqBag(queue, NumberOf)
    ensures Places(active, kept, probing, announced + retired) == Places(active, queue, probing, announced)
  {
    hide MapBag, SeqBag;
  }

  lemma QueuedToProbing(active: int, queue: seq<NewConnID>, probing: map<int, NewConnID>, announced: multiset<int>,
                        p: int)
    requires p !in probing && queue != []
    ensures Places(active, queue[1..], probing[p := queue[0]], announced) == Places(active, queue, probing, announced)
  {
    assert SeqBag(queue, NumberOf) == multiset{NumberOf(queue[0])} + SeqBag(queue[1..], NumberOf);
    hide MapBag, SeqBag;
    MapBagAdd(probing, NumberOf, p, queue[0]);
  }

  lemma QueueTail(queue: seq<NewConnID>, active: int, highestRetired: int, highestProbing: int)
    requires queue != [] && Increasing(queue) && Unused(queue, active, highestRetired, highestProbing)
    ensures Increasing(queue[1..]) && highestProbing <= queue[0].sequenceNumber && active < queue[0].sequenceNumber
    ensures Unused(queue[1..], queue[0].sequenceNumber, Max(highestRetired, active), highestProbing)
    ensures Unused(queue[1..], active, highestRetired, queue[0].sequenceNumber)
  {
  }

  lemma AddedToken(active: Option<Token>, probing: map<int, NewConnID>, p: int, e: NewConnID)
    requires p !in probing
    ensures TokensInUse(active, probing[p := e]) == Plus(TokensInUse(active, probing), e.token)
    ensures Minus(TokensInUse(active, probing[p := e]), e.token) == TokensInUse(active, probing)
  {
    hide MapBag;
    MapBagAdd(probing, TokenOf, p, e);
  }

  lemma NoActiveToken(probing: map<int, NewConnID>)
    ensures TokensInUse(None, probing) == MapBag(probing, TokenOf)
  {
    hide MapBag;
  }

  lemma ActiveToken(probing: map<int, NewConnID>, token: Token)
    ensures Minus(TokensInUse(Some(token), probing), token) == TokensInUse(None, probing)
    ensures Plus(TokensInUse(None, probing), token) == TokensInUse(Some(token), probing)
  {
    hide MapBag;
  }

  lemma UpdatePlaces(active: int, queue: seq<NewConnID>, probing: map<int, NewConnID>, announced: multiset<int>)
    requires queue != []
    ensures Places(queue[0].sequenceNumber, queue[1..], probing, Plus(announced, active))
              == Places(active, queue, probing, announced)
  {
    assert SeqBag(queue, NumberOf) == multiset{NumberOf(queue[0])} + SeqBag(queue[1..], NumberOf);
    hide MapBag, SeqBag;
  }

  lemma InsertPlaces(active: int, queue: seq<NewConnID>, probing: map<int, NewConnID>, announced: multiset<int>,
                     i: int, e: NewConnID)
    requires 0 <= i <= |queue|
    ensures Places(active, queue[..i] + [e] + queue[i..], probing, announced)
              == Plus(Places(active, queue, probing, announced), e.sequenceNumber)
  {
    hide MapBag, SeqBag;
    SeqBagInsert(queue, i, e, NumberOf);
  }

  lemma SetTokenBalance(before: Option<Token>, probing: map<int, NewConnID>, token: Token)
    ensures Plus(TokensInUse(before, probing), token) == TokensInUse(Some(token), probing) <==> before.None?
  {
    hide MapBag;
    if before.Some? {
      assert (TokensInUse(before, probing) + multiset{token})[token] > TokensInUse(Some(token), probing)[token]
             || (TokensInUse(before, probing) + multiset{token})[before.value] > TokensInUse(Some(token),
                 probing)[before.value];
    } else {
      assert TokensInUse(before, probing) == MapBag(probing, TokenOf);
    }
  }

  lemma EmptyBag()
    ensures MapBag<NewConnID, Token>(map[], TokenOf) == multiset{}
  {
  }

  lemma SameNumbers(queue: seq<NewConnID>, kept: seq<NewConnID>, limit: int)
    requires forall e :: e in kept ==> e in queue
    requires forall j :: 0 <= j < |queue| && limit <= queue[j].sequenceNumber ==> queue[j] in kept
    ensures forall n :: limit <= n ==> (InQueue(kept, n) <==> InQueue(queue, n))
  {
    forall n | limit <= n ensures InQueue(kept, n) <==> InQueue(queue, n) {
      if i :| 0 <= i < |kept| && kept[i].sequenceNumber == n {
        assert kept[i] in queue;
      }
      if j :| 0 <= j < |queue| && queue[j].sequenceNumber == n {
        assert queue[j] in kept;
      }
    }
  }
}
