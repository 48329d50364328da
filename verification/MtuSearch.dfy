// The search for the path MTU, as a function of the state and of what happens to each probe packet.
module MtuSearch {
  import opened Protocol

  const MAX_MTU_DIFF := 20
  const MAX_LOST_PROBES := 3

  /** `lost` holds the sizes of lost probes in increasing order, the configured maximum counting as the first one, and
      then unused slots. */
  datatype Search = Search(min: int, lost: seq<int>, lastProbeWasLost: bool)

  /** The number of slots in use. */
  function Used(lost: seq<int>): (n: nat)
    requires |lost| == MAX_LOST_PROBES
    ensures n <= MAX_LOST_PROBES
  {
    if lost[0] == INVALID_BYTE_COUNT then 0 else if lost[1] == INVALID_BYTE_COUNT then 1
    else if lost[2] == INVALID_BYTE_COUNT then 2 else 3
  }

  /** The used slots come first and are sorted, and nothing lies below the minimum. */
  predicate Valid(s: Search) {
    && |s.lost| == MAX_LOST_PROBES
    && 0 <= s.min <= s.lost[0]
    && (s.lost[1] == INVALID_BYTE_COUNT || s.lost[0] <= s.lost[1])
    && (s.lost[2] == INVALID_BYTE_COUNT || (s.lost[1] != INVALID_BYTE_COUNT && s.lost[1] <= s.lost[2]))
  }

  function MaxSize(s: Search): int
    requires Valid(s)
  {
    s.lost[Used(s.lost) - 1]
  }

  predicate Done(s: Search)
    requires Valid(s)
  {
    MaxSize(s) - s.min <= MAX_MTU_DIFF + 1
  }

  function Start(start: int, max: int): Search {
    Search(start, [max, INVALID_BYTE_COUNT, INVALID_BYTE_COUNT], false)
  }

  function ProbeSize(s: Search): int
    requires Valid(s)
  {
    if s.lastProbeWasLost then (s.min + s.lost[0]) / 2 else (s.min + MaxSize(s)) / 2
  }

  /** The first slot with a size above `size`; 3 if there is none. */
  function FirstAbove(lost: seq<int>, size: int): (i: nat)
    requires |lost| == MAX_LOST_PROBES
    ensures i <= MAX_LOST_PROBES
    ensures forall k :: 0 <= k < i ==> lost[k] <= size
    ensures i < MAX_LOST_PROBES ==> size < lost[i]
  {
    if size < lost[0] then 0 else if size < lost[1] then 1 else if size < lost[2] then 2 else 3
  }

  /** Drops the sizes that the acknowledged probe refutes; nothing happens if there is no larger one. */
  function DropUpTo(lost: seq<int>, size: int): (r: seq<int>)
    requires |lost| == MAX_LOST_PROBES
    ensures |r| == MAX_LOST_PROBES
  {
    match FirstAbove(lost, size)
    case 1 => [lost[1], lost[2], INVALID_BYTE_COUNT]
    case 2 => [lost[2], INVALID_BYTE_COUNT, INVALID_BYTE_COUNT]
    case _ => lost
  }

  /** Inserts the size of a lost probe, pushing the largest one out of a full array. */
  function InsertLost(lost: seq<int>, size: int): (r: seq<int>)
    requires |lost| == MAX_LOST_PROBES
    ensures |r| == MAX_LOST_PROBES
  {
    match FirstAbove(lost, size)
    case 0 => [size, lost[0], lost[1]]
    case 1 => [lost[0], size, lost[1]]
    case 2 => [lost[0], lost[1], size]
    case _ => lost
  }

  function Acked(s: Search, size: int): Search
    requires |s.lost| == MAX_LOST_PROBES
  {
    Search(size, DropUpTo(s.lost, size), false)
  }

  function Lost(s: Search, size: int): Search
    requires |s.lost| == MAX_LOST_PROBES
  {
    Search(s.min, InsertLost(s.lost, size), true)
  }

  /** What becomes of the search when the probe it sends next is acknowledged or lost. */
  function Step(s: Search, acked: bool): Search
    requires Valid(s)
  {
    if acked then Acked(s, ProbeSize(s)) else Lost(s, ProbeSize(s))
  }

  /** As long as the search goes on, probes lie between the bounds. */
  lemma ProbeBounds(s: Search)
    requires Valid(s) && !Done(s)
    ensures s.min <= ProbeSize(s) < MaxSize(s)
    ensures !s.lastProbeWasLost ==> s.min < ProbeSize(s)
  {
  }

  /** The lost sizes that are remembered. */
  ghost function Sizes(s: Search): multiset<int>
    requires |s.lost| == MAX_LOST_PROBES
  {
    multiset(s.lost[..Used(s.lost)])
  }

  lemma SizesOf(s: Search)
    requires Valid(s)
    ensures Sizes(s) == multiset{s.lost[0]}
                        + (if s.lost[1] == INVALID_BYTE_COUNT then multiset{} else multiset{s.lost[1]})
                        + (if s.lost[2] == INVALID_BYTE_COUNT then multiset{} else multiset{s.lost[2]})
  {
    assert s.lost[..1] == [s.lost[0]] && s.lost[..2] == [s.lost[0], s.lost[1]]
             && s.lost[..3] == [s.lost[0], s.lost[1], s.lost[2]];
  }

  /** An acknowledgement makes exactly the lost sizes up to the acknowledged one forgotten. */
  lemma AckedKeepsLarger(s: Search, size: int)
    requires Valid(s) && s.min <= size < MaxSize(s)
    ensures Valid(Acked(s, size)) && forall v :: Sizes(Acked(s, size))[v] == if size < v then Sizes(s)[v] else 0
  {
    SizesOf(s);
    SizesOf(Acked(s, size));
  }

  /** A loss is remembered, in exchange for the largest size if there is no slot left. */
  lemma LostIsRemembered(s: Search, size: int)
    requires Valid(s) && s.min <= size < MaxSize(s)
    ensures Valid(Lost(s, size))
    ensures Sizes(Lost(s, size)) == Sizes(s) + multiset{size}
                                    - if Used(s.lost) < MAX_LOST_PROBES then multiset{} else multiset{MaxSize(s)}
  {
    SizesOf(s);
    SizesOf(Lost(s, size));
  }

  /** Each probe halves the interval that it is sent for: up to the maximum, or up to the smallest lost size after a
      loss. */
  lemma ProbeHalves(s: Search, acked: bool)
    requires Valid(s) && !Done(s)
    ensures var t, upper := Step(s, acked), if s.lastProbeWasLost then s.lost[0] else MaxSize(s);
            if acked then 2 * (upper - t.min) <= upper - s.min + 1 else 2 * (t.lost[0] - s.min) <= upper - s.min
  {
    ProbeBounds(s);
  }

  /** Every step keeps the order, never lowers the minimum and never raises the maximum. */
  lemma StepKeepsValid(s: Search, acked: bool)
    requires Valid(s) && !Done(s)
    ensures Valid(Step(s, acked))
    ensures s.min <= Step(s, acked).min && MaxSize(Step(s, acked)) <= MaxSize(s)
    ensures acked ==> MaxSize(Step(s, acked)) == MaxSize(s)
  {
    ProbeBounds(s);
  }

  /** How often the maximum occurs among the lost sizes. */
  function MaxCount(s: Search): nat
    requires Valid(s)
  {
    var m := MaxSize(s);
    (if s.lost[0] == m then 1 else 0) + (if s.lost[1] == m then 1 else 0) + (if s.lost[2] == m then 1 else 0)
  }

  /** The number of lost sizes above the minimum. */
  function Above(s: Search): nat
    requires |s.lost| == MAX_LOST_PROBES
  {
    (if s.lost[0] > s.min then 1 else 0) + (if s.lost[1] > s.min then 1 else 0) + (if s.lost[2] > s.min then 1 else 0)
  }

  /** An upper bound for the number of probes that will still be sent. It orders lexicographically the distance
      between the bounds, the copies of the maximum, the slots without a size above the minimum, and, after a loss,
      the slots that could still be filled with sizes at the minimum. */
  function Rank(s: Search): int
    requires Valid(s)
  {
    80 * (MaxSize(s) - s.min) + 20 * MaxCount(s) + 5 * (MAX_LOST_PROBES - Above(s))
    + if s.lastProbeWasLost then 1 + MAX_LOST_PROBES - (Used(s.lost) - Above(s)) else 0
  }

  /** Every probe, acknowledged or lost, brings the end of the search closer. */
  lemma StepLowersRank(s: Search, acked: bool)
    requires Valid(s) && !Done(s)
    ensures Valid(Step(s, acked)) && 0 <= Rank(Step(s, acked)) < Rank(s)
  {
    StepKeepsValid(s, acked);
    ProbeBounds(s);
  }

  /** The search after the given outcomes of its probes; no probe is sent after the end. */
  function Run(s: Search, outcomes: seq<bool>): (r: Search)
    requires Valid(s)
    ensures Valid(r)
    decreases |outcomes|
  {
    if outcomes == [] || Done(s) then s
    else
      StepKeepsValid(s, outcomes[0]);
      Run(Step(s, outcomes[0]), outcomes[1..])
  }

  /** The search ends: no history has more probes than the rank of its start. */
  lemma {:induction false} SearchEnds(s: Search, outcomes: seq<bool>)
    requires Valid(s) && Rank(s) <= |outcomes|
    ensures Done(Run(s, outcomes))
    decreases |outcomes|
  {
    if outcomes != [] && !Done(s) {
      StepLowersRank(s, outcomes[0]);
      SearchEnds(Step(s, outcomes[0]), outcomes[1..]);
    }
  }

  function Pow2(n: nat): nat {
    if n == 0 then 1 else 2 * Pow2(n - 1)
  }

  /** Without losses the interval is halved by every probe, so that the search ends after logarithmically many. */
  lemma {:induction false} AcksEndSoon(s: Search, n: nat)
    requires Valid(s) && !s.lastProbeWasLost && MaxSize(s) - s.min <= MAX_MTU_DIFF * Pow2(n) + 1
    ensures Done(Run(s, seq(n, _ => true)))
    decreases n
  {
    var outcomes := seq(n, _ => true);
    if n > 0 && !Done(s) {
      StepKeepsValid(s, true);
      ProbeHalves(s, true);
      AcksEndSoon(Step(s, true), n - 1);
      assert outcomes[1..] == seq(n - 1, _ => true);
    }
  }

  /** The size in use never decreases. */
  lemma {:induction false} SizeNeverDecreases(s: Search, outcomes: seq<bool>)
    requires Valid(s)
    ensures s.min <= Run(s, outcomes).min
    decreases |outcomes|
  {
    if outcomes != [] && !Done(s) {
      StepKeepsValid(s, outcomes[0]);
      SizeNeverDecreases(Step(s, outcomes[0]), outcomes[1..]);
    }
  }

  /** The path does not deliver probes above its MTU `p`. */
  predicate PathAllows(s: Search, outcomes: seq<bool>, p: int)
    requires Valid(s)
    decreases |outcomes|
  {
    outcomes == [] || Done(s) ||
    ((outcomes[0] ==> ProbeSize(s) <= p) &&
     (StepKeepsValid(s, outcomes[0]); PathAllows(Step(s, outcomes[0]), outcomes[1..], p)))
  }

  /** The number of probes that the path could have delivered, but lost. */
  function SpuriousLosses(s: Search, outcomes: seq<bool>, p: int): nat
    requires Valid(s)
    decreases |outcomes|
  {
    if outcomes == [] || Done(s) then 0
    else
      StepKeepsValid(s, outcomes[0]);
      (if !outcomes[0] && ProbeSize(s) <= p then 1 else 0) + SpuriousLosses(Step(s, outcomes[0]), outcomes[1..], p)
  }

  /** How many of the lost sizes fit the path. */
  function Fitting(s: Search, p: int): nat
    requires |s.lost| == MAX_LOST_PROBES
  {
    (if 0 <= s.lost[0] <= p then 1 else 0) + (if 0 <= s.lost[1] <= p then 1 else 0) + (if 0 <= s.lost[2] <= p then 1
        else 0)
  }

  /** After k spurious losses: the size in use fits, and the maximum is still above the path MTU or the configured
      one. */
  predicate OnTrack(s: Search, p: int, max: int, k: int)
    requires Valid(s)
  {
    && s.min <= p && MaxSize(s) <= max
    && (max <= p ==> MaxSize(s) == max && Fitting(s, p) <= 1 + k)
    && (max > p ==> MaxSize(s) > p && Fitting(s, p) <= k)
  }

  lemma StepStaysOnTrack(s: Search, acked: bool, p: int, max: int, k: int)
    requires Valid(s) && !Done(s) && OnTrack(s, p, max, k)
    requires acked ==> ProbeSize(s) <= p
    requires k + (if !acked && ProbeSize(s) <= p then 1 else 0) < MAX_LOST_PROBES
    ensures Valid(Step(s, acked))
    ensures OnTrack(Step(s, acked), p, max, k + if !acked && ProbeSize(s) <= p then 1 else 0)
  {
    StepKeepsValid(s, acked);
    ProbeBounds(s);
  }

  lemma {:induction false} RunStaysOnTrack(s: Search, outcomes: seq<bool>, p: int, max: int, k: int)
    requires Valid(s) && 0 <= k && OnTrack(s, p, max, k) && PathAllows(s, outcomes, p)
    requires k + SpuriousLosses(s, outcomes, p) < MAX_LOST_PROBES
    ensures OnTrack(Run(s, outcomes), p, max, k + SpuriousLosses(s, outcomes, p))
    decreases |outcomes|
  {
    if outcomes != [] && !Done(s) {
      StepStaysOnTrack(s, outcomes[0], p, max, k);
      var k' := k + if !outcomes[0] && ProbeSize(s) <= p then 1 else 0;
      RunStaysOnTrack(Step(s, outcomes[0]), outcomes[1..], p, max, k');
    }
  }

  /** With at most two spurious losses the size in use always fits the path, and at the end it is within 20 bytes of
      the path MTU, or within 21 bytes of the configured maximum if the path delivers that. */
  lemma SearchFindsMtu(start: int, max: int, outcomes: seq<bool>, p: int)
    requires 0 <= start <= p && start <= max
    requires PathAllows(Start(start, max), outcomes, p)
    requires SpuriousLosses(Start(start, max), outcomes, p) < MAX_LOST_PROBES
    ensures var r := Run(Start(start, max), outcomes);
            && start <= r.min <= p
            && (Done(r) ==> if max <= p then max - r.min <= MAX_MTU_DIFF + 1 else p - r.min <= MAX_MTU_DIFF)
  {
    RunStaysOnTrack(Start(start, max), outcomes, p, max, 0);
    SizeNeverDecreases(Start(start, max), outcomes);
  }

  /** Two spurious losses are the limit: after three of them the search can end further below the path MTU. */
  lemma ThreeLossesAreTooMany()
    ensures var s, h := Start(1200, 1240), [false, false, false];
            && PathAllows(s, h, 1240) && SpuriousLosses(s, h, 1240) == 3
            && Done(Run(s, h)) && 1240 - Run(s, h).min > MAX_MTU_DIFF + 1
  {
    hide Run, PathAllows, SpuriousLosses;
    var s1 := Search(1200, [1220, 1240, -1], true);
    var s2 := Search(1200, [1210, 1220, 1240], true);
    var s3 := Search(1200, [1205, 1210, 1220], true);
    assert Step(Start(1200, 1240), false) == s1 && Step(s1, false) == s2 && Step(s2, false) == s3;
    RunStep(Start(1200, 1240), [false, false, false], 1240);
    RunStep(s1, [false, false], 1240);
    RunStep(s2, [false], 1240);
    RunEnd(s3, 1240);
    assert [false, false, false][1..] == [false, false] && [false, false][1..] == [false];
  }

  lemma RunEnd(s: Search, p: int)
    requires Valid(s)
    ensures Run(s, []) == s && PathAllows(s, [], p) && SpuriousLosses(s, [], p) == 0
  {
  }

  lemma RunStep(s: Search, h: seq<bool>, p: int)
    requires Valid(s) && !Done(s) && h != []
    ensures Valid(Step(s, h[0])) && Run(s, h) == Run(Step(s, h[0]), h[1..])
    ensures PathAllows(s, h, p) <==> (h[0] ==> ProbeSize(s) <= p) && PathAllows(Step(s, h[0]), h[1..], p)
    ensures SpuriousLosses(s, h, p) == (if !h[0] && ProbeSize(s) <= p then 1 else 0) + SpuriousLosses(Step(s, h[0]),
        h[1..], p)
  {
    StepKeepsValid(s, h[0]);
  }
}
