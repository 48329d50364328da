// Scattering the CRYPTO frames of a client's Initial packet: frames are split, PING frames and padding are put
// between them, and everything is shuffled.
module ChaosProtector {
  import opened Protocol
  import opened Wire
  import opened Payload
  import Varint

  const MIN_ADDED_CRYPTO_FRAMES := 2
  const MAX_ADDED_CRYPTO_FRAMES := 10
  const MIN_ADDED_PING_FRAMES := 2
  const MAX_ADDED_PING_FRAMES := 10

  /** Random numbers: the t-th one that is drawn, below the bound `n`. */
  type Draws = (int, int) -> int

  ghost predicate Fair(random: Draws) {
    forall t, n :: 0 < n ==> 0 <= random(t, n) < n
  }

  /** A CRYPTO frame in memory. */
  class CryptoFrame {
    var offset: int
    var data: seq<Byte>

    constructor (offset: int, data: seq<Byte>)
      ensures this.offset == offset && this.data == data
    {
      this.offset := offset;
      this.data := data;
    }
  }

  /** A frame in a packet under construction: a reference to a CRYPTO frame, or any other entry. */
  datatype Slot = Ref(f: CryptoFrame) | Plain(e: Item)

  ghost predicate ShowsOne(s: Slot, v: Item)
    reads if s.Ref? then {s.f} else {}
  {
    match s
    case Ref(f) => v == FrameEntry(Crypto(f.offset, f.data))
    case Plain(e) => v == e && !(e.FrameEntry? && e.frame.Crypto?)
  }

  /** `vs` is what the slots currently hold. */
  ghost predicate Shows(slots: seq<Slot>, vs: seq<Item>)
    reads set s | s in slots && s.Ref? :: s.f
  {
    |slots| == |vs| && forall i :: 0 <= i < |slots| ==> ShowsOne(slots[i], vs[i])
  }

  /** No CRYPTO frame is referenced twice. */
  predicate Distinct(slots: seq<Slot>) {
    forall i, j :: 0 <= i < j < |slots| && slots[i].Ref? && slots[j].Ref? ==> slots[i].f != slots[j].f
  }

  predicate IsCrypto(e: Entry) { e.FrameEntry? && e.frame.Crypto? }

  ghost predicate HasCrypto(vs: seq<Item>) {
    exists i :: 0 <= i < |vs| && IsCrypto(vs[i])
  }

  /** All CRYPTO data lies in [lo, hi). */
  predicate Within(vs: seq<Item>, lo: int, hi: int) {
    forall v :: v in vs && IsCrypto(v) ==> lo <= v.frame.offset && v.frame.offset + |v.frame.data| <= hi
  }

  /** [lo, hi) is the smallest range with all CRYPTO data. */
  ghost predicate IsRange(vs: seq<Item>, lo: int, hi: int) {
    && 0 <= lo <= hi <= Varint.MAX_8 && Within(vs, lo, hi)
    && (exists v :: v in vs && IsCrypto(v) && v.frame.offset == lo)
    && (exists v :: v in vs && IsCrypto(v) && v.frame.offset + |v.frame.data| == hi)
  }

  /** The padding that has to be there before a frame is split. */
  function Overhead(lo: int, hi: int): (n: int)
    requires 0 <= lo <= hi <= Varint.MAX_8
    ensures 3 <= n
  {
    CryptoHeaderLen(hi, hi - lo)
  }

  /** Some entry is no CRYPTO frame. */
  ghost predicate HasPlain(vs: seq<Item>) {
    exists v :: v in vs && !IsCrypto(v)
  }

  /** Some CRYPTO frame cannot be split, because it has one byte only, or none. */
  ghost predicate HasShort(vs: seq<Item>) {
    exists v :: v in vs && IsCrypto(v) && |v.frame.data| <= 1
  }

  /** How often a payload was split. */
  ghost function Splits(vs: seq<Item>, ws: seq<Item>): int {
    Sum(ws).cryptos - Sum(vs).cryptos
  }

  /** At least one frame is split if all can be split and the padding pays for it, and at least two, unless the padding
      does not pay for the next one, or there are other frames or one that cannot be split; the padding pays for every
      split. */
  ghost predicate SplitEnough(vs: seq<Item>, ws: seq<Item>, padding: int, remaining: int, overhead: int) {
    && 0 <= Splits(vs, ws) <= MAX_ADDED_CRYPTO_FRAMES
    && padding <= remaining + Splits(vs, ws) * overhead
    && (!HasPlain(vs) && !HasShort(vs) && overhead <= padding ==> 1 <= Splits(vs, ws))
    && (MIN_ADDED_CRYPTO_FRAMES <= Splits(vs, ws) || remaining < overhead || HasPlain(vs) || HasShort(ws))
  }

  predicate NonEmptyCrypto(vs: seq<Item>) {
    forall v :: v in vs && IsCrypto(v) ==> v.frame.data != []
  }

  /** Splitting a frame never costs more than the bound that is checked before. */
  lemma SplitCost(offset: int, len: int, kept: int, lo: int, hi: int)
    requires 0 <= lo <= offset && offset + len <= hi <= Varint.MAX_8 && 0 < kept < len
    ensures CryptoHeaderLen(offset + kept, len - kept) + CryptoHeaderLen(offset, kept) - CryptoHeaderLen(offset, len)
            <= CryptoHeaderLen(hi, hi - lo)
  {
    Varint.LenMonotone(offset + kept, hi);
    Varint.LenMonotone(len - kept, hi - lo);
    Varint.LenMonotone(kept, len);
  }

  ghost function Before(v: Item, kept: int): Item
    requires IsCrypto(v) && 0 < kept < |v.frame.data|
  {
    FrameEntry(Crypto(v.frame.offset, v.frame.data[..kept]))
  }

  ghost function After(v: Item, kept: int): Item
    requires IsCrypto(v) && 0 < kept < |v.frame.data|
  {
    FrameEntry(Crypto(v.frame.offset + kept, v.frame.data[kept..]))
  }

  /** Splitting one frame keeps its bytes; the size grows by the cost of the second header. */
  lemma SplitSum(vs: seq<Item>, k: int, kept: int)
    requires 0 <= k < |vs| && IsCrypto(vs[k]) && 0 < kept < |vs[k].frame.data|
    ensures var f, l, r := vs[k].frame, Before(vs[k], kept), After(vs[k], kept);
            var s, t := Sum(vs), Sum(vs[k := l] + [r]);
            && t.content == s.content && t.others == s.others && t.cryptos == s.cryptos + 1
            && t.size == s.size + CryptoHeaderLen(f.offset + kept, |f.data| - kept) + CryptoHeaderLen(f.offset, kept)
                         - CryptoHeaderLen(f.offset, |f.data|)
  {
    hide Sum, Placed, Plus;
    var f, l, r := vs[k].frame, Before(vs[k], kept), After(vs[k], kept);
    SumUpdate(vs, k, l);
    SumAppend(vs[k := l], r);
    PlacedSplit(f.offset, f.data, kept);
    SplitAlgebra(Sum(vs[..k] + vs[k + 1..]), vs[k], l, r);
  }

  lemma SplitAlgebra(rest: Summary, v: Item, l: Item, r: Item)
    requires One(v).content == One(l).content + One(r).content
    requires One(v).others == One(l).others == One(r).others == multiset{}
    requires One(v).cryptos == One(l).cryptos == One(r).cryptos == 1
    ensures var s, t := Plus(rest, One(v)), Plus(Plus(rest, One(l)), One(r));
            && t.content == s.content && t.others == s.others && t.cryptos == s.cryptos + 1
            && t.size == s.size + One(l).size + One(r).size - One(v).size
  {
    hide One;
    assert rest.content + (One(l).content + One(r).content) == rest.content + One(l).content + One(r).content;
  }

  /** Appending an entry. */
  lemma SumAppend(vs: seq<Item>, e: Item)
    ensures Sum(vs + [e]) == Plus(Sum(vs), One(e))
  {
    SumConcat(vs, [e]);
    SumSingle(e);
  }

  /** No larger range has a smaller overhead. */
  lemma OverheadIsLeast(vs: seq<Item>, lo: int, hi: int, a: int, b: int)
    requires IsRange(vs, lo, hi) && 0 <= a <= b <= Varint.MAX_8 && Within(vs, a, b)
    ensures Overhead(lo, hi) <= Overhead(a, b)
  {
    Varint.LenMonotone(hi, b);
    Varint.LenMonotone(hi - lo, b - a);
  }

  lemma OneMoreEntry(vs: seq<Item>, v: Item)
    ensures HasCrypto(vs + [v]) <==> HasCrypto(vs) || IsCrypto(v)
    ensures !HasCrypto([])
  {
    if i :| 0 <= i < |vs| && IsCrypto(vs[i]) {
      assert IsCrypto((vs + [v])[i]);
    }
    assert (vs + [v])[|vs|] == v;
  }

  lemma SameRange(vs: seq<Item>, lo: int, hi: int, v: Item)
    requires IsRange(vs, lo, hi) && !IsCrypto(v)
    ensures IsRange(vs + [v], lo, hi)
  {
    assert forall u :: u in vs ==> u in vs + [v];
  }

  /** The range grows with every CRYPTO frame. */
  lemma WiderRange(vs: seq<Item>, hasCrypto: bool, lo: int, hi: int, v: Item)
    requires IsCrypto(v) && if hasCrypto then IsRange(vs, lo, hi) else !HasCrypto(vs)
    ensures var a, b := v.frame.offset, v.frame.offset + |v.frame.data|;
            IsRange(vs + [v], if hasCrypto then Min(lo, a) else a, if hasCrypto then Max(hi, b) else b)
  {
    assert v in vs + [v] && forall u :: u in vs ==> u in vs + [v];
    forall u | u in vs && !hasCrypto ensures !IsCrypto(u) {
      var i :| 0 <= i < |vs| && vs[i] == u;
    }
  }

  /** Copies the frames, so that the input is not changed later, and finds the range of the CRYPTO data. */
  method CopyFrames(frames: seq<Slot>, ghost vs: seq<Item>)
      returns (entries: seq<Slot>, hasCrypto: bool, lo: int, hi: int)
    requires Shows(frames, vs)
    ensures Shows(entries, vs) && Distinct(entries) && |entries| == |frames| == |vs|
    ensures forall s :: s in entries && s.Ref? ==> fresh(s.f)
    ensures hasCrypto <==> HasCrypto(vs)
    ensures hasCrypto ==> IsRange(vs, lo, hi)
  {
    hide IsRange, HasCrypto;
    entries, hasCrypto, lo, hi := [], false, 0, 0;
    OneMoreEntry([], Padding(0));
    assert vs[..0] == [];
    for i := 0 to |frames|
      invariant |entries| == i && Shows(entries, vs[..i]) && Distinct(entries)
      invariant forall s :: s in entries && s.Ref? ==> fresh(s.f)
      invariant hasCrypto <==> HasCrypto(vs[..i])
      invariant hasCrypto ==> IsRange(vs[..i], lo, hi)
    {
      assert vs[..i + 1] == vs[..i] + [vs[i]] && ShowsOne(frames[i], vs[i]);
      OneMoreEntry(vs[..i], vs[i]);
      match frames[i]
      case Plain(e) =>
        if hasCrypto {
          SameRange(vs[..i], lo, hi, vs[i]);
        }
        entries := entries + [frames[i]];
      case Ref(f) =>
        var end := f.offset + |f.data|;
        WiderRange(vs[..i], hasCrypto, lo, hi, vs[i]);
        if !hasCrypto {
          lo, hi := f.offset, end;
        } else {
          lo, hi := Min(lo, f.offset), Max(hi, end);
        }
        hasCrypto := true;
        var copy := new CryptoFrame(f.offset, f.data);
        entries := entries + [Ref(copy)];
    }
    assert vs[..|frames|] == vs;
  }

  /** Cuts a frame in two, in place. */
  method Split(entries: seq<Slot>, k: int, kept: int, ghost vs: seq<Item>) returns (r: seq<Slot>, ghost ws: seq<Item>)
    requires Shows(entries, vs) && Distinct(entries)
    requires 0 <= k < |entries| && entries[k].Ref? && 0 < kept < |entries[k].f.data|
    modifies entries[k].f
    ensures Shows(r, ws) && Distinct(r)
    ensures IsCrypto(vs[k]) && kept < |vs[k].frame.data|
    ensures var f := vs[k].frame;
            ws == vs[k := FrameEntry(Crypto(f.offset, f.data[..kept]))] + [FrameEntry(Crypto(f.offset + kept,
                f.data[kept..]))]
    ensures |r| == |entries| + 1 && r[..|entries|] == entries && r[|entries|].Ref? && fresh(r[|entries|].f)
  {
    var f := entries[k].f;
    assert ShowsOne(entries[k], vs[k]);
    var g := new CryptoFrame(f.offset + kept, f.data[kept..]);
    ws := vs[k := FrameEntry(Crypto(f.offset, f.data[..kept]))] + [FrameEntry(Crypto(f.offset + kept, f.data[kept..]))];
    f.data := f.data[..kept];
    r := entries + [Ref(g)];
    forall i | 0 <= i < |r| ensures ShowsOne(r[i], ws[i]) {
      if i < |entries| && i != k {
        assert ShowsOne(entries[i], vs[i]);
      }
    }
  }

  function AddedCryptos(random: Draws, t: int): (n: nat)
    requires Fair(random)
    ensures MIN_ADDED_CRYPTO_FRAMES <= n <= MAX_ADDED_CRYPTO_FRAMES
  {
    MIN_ADDED_CRYPTO_FRAMES + random(t, MAX_ADDED_CRYPTO_FRAMES + 1 - MIN_ADDED_CRYPTO_FRAMES)
  }

  /** Splits frames as long as the padding pays for it. */
  method SplitFrames(entries: seq<Slot>, padding: int, lo: int, hi: int, random: Draws, t: int, ghost vs: seq<Item>)
    returns (r: seq<Slot>, remaining: int, t': int, ghost ws: seq<Item>)
    requires Fair(random)
    requires Shows(entries, vs) && Distinct(entries) && entries != []
    requires 0 <= lo <= hi <= Varint.MAX_8 && Within(vs, lo, hi) && 0 <= padding
    modifies set s | s in entries && s.Ref? :: s.f
    ensures Shows(r, ws) && 0 <= remaining
    ensures forall s :: s in r && s.Ref? ==> s in entries || fresh(s.f)
    ensures Sum(ws).content == Sum(vs).content && Sum(ws).others == Sum(vs).others
    ensures Sum(ws).size + remaining == Sum(vs).size + padding
    ensures SplitEnough(vs, ws, padding, remaining, Overhead(lo, hi))
    ensures NonEmptyCrypto(vs) ==> NonEmptyCrypto(ws)
    ensures vs != []
              && (ws, remaining, t') == SplitBy(vs, padding, Overhead(lo, hi), AddedCryptos(random, t), random, t + 1)
  {
    hide Sum, Shows, Distinct, HasPlain, HasShort, Before, After, Price, SplitBy;
    ShowsSlot(entries, vs, 0);
    r, remaining, ws := entries, padding, vs;
    var maxSplitOverhead := Overhead(lo, hi);
    ghost var skipped := 0;
    var num := AddedCryptos(random, t);
    t' := t + 1;
    for n := 0 to num
      invariant Shows(r, ws) && Distinct(r) && r != [] && 0 <= remaining && Within(ws, lo, hi)
      invariant forall s :: s in r && s.Ref? ==> s in entries || fresh(s.f)
      invariant Sum(ws).content == Sum(vs).content && Sum(ws).others == Sum(vs).others
      invariant Sum(ws).size + remaining == Sum(vs).size + padding
      invariant 0 <= skipped && 0 <= Splits(vs, ws) && Splits(vs, ws) + skipped == n
      invariant padding <= remaining + Splits(vs, ws) * maxSplitOverhead
      invariant ws != [] && |ws| == |r|
      invariant SplitBy(vs, padding, maxSplitOverhead, num, random, t + 1)
                  == SplitBy(ws, remaining, maxSplitOverhead, num - n, random, t')
      invariant HasPlain(ws) ==> HasPlain(vs)
      invariant 0 < skipped ==> HasPlain(vs) || HasShort(ws)
      invariant n == 0 ==> ws == vs && remaining == padding
      invariant 0 < n && !HasPlain(vs) && !HasShort(vs) ==> 1 <= Splits(vs, ws)
      invariant NonEmptyCrypto(vs) ==> NonEmptyCrypto(ws)
    {
      if remaining < maxSplitOverhead {
        SplitEnds(ws, remaining, maxSplitOverhead, num - n, random, t');
        break;
      }
      var k := random(t', |r|);
      ShowsSlot(r, ws, k);
      if r[k].Plain? || |r[k].f.data| <= 1 {
        CannotSplit(r, ws, k);
        SplitSkips(ws, remaining, maxSplitOverhead, num - n, random, t');
        t' := t' + 1;
        skipped := skipped + 1;
        continue;
      }
      OneMoreSplit(Splits(vs, ws), maxSplitOverhead);
      var kept := 1 + random(t' + 1, |r[k].f.data| - 1);
      SplitSplits(ws, remaining, maxSplitOverhead, num - n, random, t');
      t' := t' + 2;
      r, remaining, ws := SplitOne(r, remaining, lo, hi, k, kept, ws);
    }
    SplitEnds(ws, remaining, maxSplitOverhead, 0, random, t');
  }

  predicate CanBeSplit(v: Item) { IsCrypto(v) && 2 <= |v.frame.data| }

  /** By how much a split makes the payload longer. */
  function Price(v: Item, kept: int): int
    requires IsCrypto(v) && 0 < kept < |v.frame.data|
  {
    CryptoHeaderLen(v.frame.offset + kept, |v.frame.data| - kept) + CryptoHeaderLen(v.frame.offset, kept)
      - CryptoHeaderLen(v.frame.offset, |v.frame.data|)
  }

  /** The entries, the padding that is left and the next draw, after this many rounds. */
  ghost function SplitBy(vs: seq<Item>, padding: int, overhead: int, rounds: nat, random: Draws, t: int)
      : (seq<Item>, int, int)
    requires vs != [] && Fair(random)
    decreases rounds
  {
    if rounds == 0 || padding < overhead then (vs, padding, t)
    else
      var k := random(t, |vs|);
      if !CanBeSplit(vs[k]) then SplitBy(vs, padding, overhead, rounds - 1, random, t + 1)
      else
        var kept := 1 + random(t + 1, |vs[k].frame.data| - 1);
        SplitBy(vs[k := Before(vs[k], kept)] + [After(vs[k], kept)], padding - Price(vs[k], kept), overhead, rounds - 1,
                random, t + 2)
  }

  lemma SplitEnds(vs: seq<Item>, padding: int, overhead: int, rounds: nat, random: Draws, t: int)
    requires vs != [] && Fair(random) && (rounds == 0 || padding < overhead)
    ensures SplitBy(vs, padding, overhead, rounds, random, t) == (vs, padding, t)
  {
  }

  /** Every frame that can be split can be the first one, at every place inside of it. */
  lemma EverySplit(vs: seq<Item>, padding: int, overhead: int, t: int, k: int, kept: int) returns (random: Draws)
    requires 0 <= k < |vs| && CanBeSplit(vs[k]) && 0 < kept < |vs[k].frame.data| && overhead <= padding
    ensures Fair(random)
    ensures SplitBy(vs, padding, overhead, 1, random, t)
              == (vs[k := Before(vs[k], kept)] + [After(vs[k], kept)], padding - Price(vs[k], kept), t + 2)
  {
    hide Before, After, Price;
    random := (u, n) => if u == t && n == |vs| then k
                        else if u == t + 1 && n == |vs[k].frame.data| - 1 then kept - 1 else 0;
    SplitSplits(vs, padding, overhead, 1, random, t);
    var ws := vs[k := Before(vs[k], kept)] + [After(vs[k], kept)];
    SplitEnds(ws, padding - Price(vs[k], kept), overhead, 0, random, t + 2);
  }

  lemma SplitSkips(vs: seq<Item>, padding: int, overhead: int, rounds: nat, random: Draws, t: int)
    requires vs != [] && Fair(random) && 0 < rounds && overhead <= padding && !CanBeSplit(vs[random(t, |vs|)])
    ensures SplitBy(vs, padding, overhead, rounds, random, t)
              == SplitBy(vs, padding, overhead, rounds - 1, random, t + 1)
  {
  }

  lemma SplitSplits(vs: seq<Item>, padding: int, overhead: int, rounds: nat, random: Draws, t: int)
    requires vs != [] && Fair(random) && 0 < rounds && overhead <= padding && CanBeSplit(vs[random(t, |vs|)])
    ensures var k := random(t, |vs|);
            var kept := 1 + random(t + 1, |vs[k].frame.data| - 1);
            SplitBy(vs, padding, overhead, rounds, random, t)
              == SplitBy(vs[k := Before(vs[k], kept)] + [After(vs[k], kept)], padding - Price(vs[k], kept), overhead,
                         rounds - 1, random, t + 2)
  {
  }

  lemma CannotSplit(slots: seq<Slot>, vs: seq<Item>, k: int)
    requires Shows(slots, vs) && 0 <= k < |slots| && (slots[k].Plain? || |slots[k].f.data| <= 1)
    ensures |vs| == |slots| && !CanBeSplit(vs[k]) && (HasPlain(vs) || HasShort(vs))
  {
    assert ShowsOne(slots[k], vs[k]) && vs[k] in vs;
  }

  lemma OneMoreSplit(splits: int, overhead: int)
    ensures (splits + 1) * overhead == splits * overhead + overhead
  {
  }

  /** Splitting a frame in two leaves the other frames as they are. */
  lemma OthersStay(vs: seq<Item>, k: int, kept: int)
    requires 0 <= k < |vs| && IsCrypto(vs[k]) && 0 < kept < |vs[k].frame.data|
    ensures var ws := vs[k := Before(vs[k], kept)] + [After(vs[k], kept)];
            (HasPlain(ws) ==> HasPlain(vs)) && (HasShort(vs) ==> HasShort(ws))
  {
    var ws := vs[k := Before(vs[k], kept)] + [After(vs[k], kept)];
    if HasShort(vs) {
      var i :| 0 <= i < |vs| && IsCrypto(vs[i]) && |vs[i].frame.data| <= 1;
      assert ws[i] == vs[i] && ws[i] in ws;
    }
    if HasPlain(ws) {
      var i :| 0 <= i < |ws| && !IsCrypto(ws[i]);
      assert ws[i] == vs[i] && vs[i] in vs;
    }
  }

  /** Splits one frame, and pays for it with padding. */
  method SplitOne(entries: seq<Slot>, padding: int, lo: int, hi: int, k: int, kept: int, ghost vs: seq<Item>)
    returns (r: seq<Slot>, remaining: int, ghost ws: seq<Item>)
    requires Shows(entries, vs) && Distinct(entries) && 0 <= k < |entries| && entries[k].Ref?
    requires 0 < kept < |entries[k].f.data| && 0 <= lo <= hi <= Varint.MAX_8 && Within(vs, lo, hi)
    requires Overhead(lo, hi) <= padding
    modifies entries[k].f
    ensures Shows(r, ws) && Distinct(r) && r != [] && Within(ws, lo, hi) && 0 <= remaining
    ensures forall s :: s in r && s.Ref? ==> s in entries || fresh(s.f)
    ensures Sum(ws).content == Sum(vs).content && Sum(ws).others == Sum(vs).others
    ensures Sum(ws).size + remaining == Sum(vs).size + padding && Sum(ws).cryptos == Sum(vs).cryptos + 1
    ensures padding <= remaining + Overhead(lo, hi)
    ensures (HasPlain(ws) ==> HasPlain(vs)) && (HasShort(vs) ==> HasShort(ws))
    ensures NonEmptyCrypto(vs) ==> NonEmptyCrypto(ws)
    ensures |vs| == |entries| && IsCrypto(vs[k]) && 0 < kept < |vs[k].frame.data| == old(|entries[k].f.data|)
    ensures ws == vs[k := Before(vs[k], kept)] + [After(vs[k], kept)] && |r| == |ws|
    ensures remaining == padding - Price(vs[k], kept)
  {
    hide Sum, Shows, Distinct, HasPlain, HasShort;
    ShowsSlot(entries, vs, k);
    ghost var f := vs[k].frame;
    SplitSum(vs, k, kept);
    SplitCost(f.offset, |f.data|, kept, lo, hi);
    OthersStay(vs, k, kept);
    var oldOverhead := CryptoHeaderLen(entries[k].f.offset, |entries[k].f.data|);
    r, ws := Split(entries, k, kept, vs);
    ShowsSlot(r, ws, k);
    ShowsSlot(r, ws, |r| - 1);
    remaining := padding - CryptoHeaderLen(r[|r| - 1].f.offset, |r[|r| - 1].f.data|);
    remaining := remaining - CryptoHeaderLen(r[k].f.offset, kept);
    remaining := remaining + oldOverhead;
  }

  lemma ShowsSlot(slots: seq<Slot>, vs: seq<Item>, k: int)
    requires Shows(slots, vs) && 0 <= k < |slots|
    ensures |vs| == |slots| && ShowsOne(slots[k], vs[k])
  {
  }

  lemma ShowsAppend(slots: seq<Slot>, vs: seq<Item>, s: Slot, v: Item)
    requires Shows(slots, vs) && ShowsOne(s, v)
    ensures Shows(slots + [s], vs + [v])
  {
  }

  /** A PING frame adds one byte and itself. */
  lemma SumPing(vs: seq<Item>, n: nat, others: multiset<Frame>)
    requires Sum(vs).others == others + Pings(n)
    ensures var s, t := Sum(vs), Sum(vs + [FrameEntry(Ping)]);
            && t.size == s.size + 1 && t.cryptos == s.cryptos && t.content == s.content
            && t.others == others + Pings(n + 1)
    ensures NonEmptyCrypto(vs) ==> NonEmptyCrypto(vs + [FrameEntry(Ping)])
  {
    hide Sum;
    SumAppend(vs, FrameEntry(Ping));
  }

  /** Padding only adds to the size. */
  lemma SumPadding(vs: seq<Item>, n: nat)
    ensures var s, t := Sum(vs), Sum(vs + [Padding(n)]);
            t.size == s.size + n && t.cryptos == s.cryptos && t.content == s.content && t.others == s.others
    ensures NonEmptyCrypto(vs) ==> NonEmptyCrypto(vs + [Padding(n)])
  {
    hide Sum;
    SumAppend(vs, Padding(n));
  }

  /** Taking over the next entry keeps two payloads in step. */
  lemma SumStep(vs: seq<Item>, i: int, ws: seq<Item>)
    requires 0 <= i < |vs|
    requires Sum(ws).content == Sum(vs[..i]).content && Sum(ws).others == Sum(vs[..i]).others
    ensures var s, t := Sum(vs[..i + 1]), Sum(ws + [vs[i]]);
            && t.content == s.content && t.others == s.others && t.size - Sum(ws).size == s.size - Sum(vs[..i]).size
            && t.cryptos - Sum(ws).cryptos == s.cryptos - Sum(vs[..i]).cryptos
    ensures NonEmptyCrypto(vs) && NonEmptyCrypto(ws) ==> NonEmptyCrypto(ws + [vs[i]])
  {
    hide Sum, One;
    assert vs[..i + 1] == vs[..i] + [vs[i]];
    SumAppend(vs[..i], vs[i]);
    SumAppend(ws, vs[i]);
  }

  function Pings(n: nat): multiset<Frame> {
    multiset{}[Ping := n]
  }

  function AddedPings(padding: int, random: Draws, t: int): (n: nat)
    requires Fair(random)
    ensures n <= Max(0, padding) && Min(padding, MIN_ADDED_PING_FRAMES) <= n <= MAX_ADDED_PING_FRAMES
  {
    if padding <= 0 then 0
    else Min(padding, MIN_ADDED_PING_FRAMES + random(t, MAX_ADDED_PING_FRAMES + 1 - MIN_ADDED_PING_FRAMES))
  }

  /** Pays for PING frames with some of the padding. */
  method AddPings(entries: seq<Slot>, padding: int, random: Draws, t: int, ghost vs: seq<Item>)
    returns (r: seq<Slot>, remaining: int, num: nat, t': int, ghost ws: seq<Item>)
    requires Shows(entries, vs) && 0 <= padding && Fair(random)
    ensures num == AddedPings(padding, random, t) && t' == t + if padding > 0 then 1 else 0
    ensures ws == vs + seq(num, _ => FrameEntry(Ping)) && remaining == padding - num
    ensures Shows(r, ws) && 0 <= remaining && num <= MAX_ADDED_PING_FRAMES
    ensures padding < MIN_ADDED_PING_FRAMES ==> num == padding
    ensures padding >= MIN_ADDED_PING_FRAMES ==> MIN_ADDED_PING_FRAMES <= num
    ensures forall s :: s in r && s.Ref? ==> s in entries
    ensures Sum(ws).content == Sum(vs).content && Sum(ws).others == Sum(vs).others + Pings(num)
    ensures Sum(ws).size + remaining == Sum(vs).size + padding && Sum(ws).cryptos == Sum(vs).cryptos
    ensures NonEmptyCrypto(vs) ==> NonEmptyCrypto(ws)
    ensures forall v :: v in vs ==> v in ws
  {
    hide Sum, Shows, NonEmptyCrypto, Pings;
    r, remaining, num, t', ws := entries, padding, 0, t, vs;
    assert Sum(vs).others + Pings(0) == Sum(vs).others by { NoPings(Sum(vs).others); }
    if padding > 0 {
      var n := MIN_ADDED_PING_FRAMES + random(t, MAX_ADDED_PING_FRAMES + 1 - MIN_ADDED_PING_FRAMES);
      t' := t + 1;
      num := if n > padding then padding else n;
      for i := 0 to num
        invariant Shows(r, ws) && ws == vs + seq(i, _ => FrameEntry(Ping))
        invariant forall s :: s in r && s.Ref? ==> s in entries
        invariant Sum(ws).content == Sum(vs).content && Sum(ws).others == Sum(vs).others + Pings(i)
        invariant Sum(ws).size == Sum(vs).size + i && Sum(ws).cryptos == Sum(vs).cryptos
        invariant NonEmptyCrypto(vs) ==> NonEmptyCrypto(ws)
        invariant forall v :: v in vs ==> v in ws
      {
        var ping: Item := FrameEntry(Ping);
        SumPing(ws, i, Sum(vs).others);
        ShowsAppend(r, ws, Plain(ping), ping);
        r, ws := r + [Plain(ping)], ws + [ping];
      }
      remaining := remaining - num;
    }
  }

  lemma NoPings(others: multiset<Frame>)
    ensures others + Pings(0) == others
  {
  }

  /** Some padding before each entry, and the rest at the end. */
  ghost function SpreadBy(vs: seq<Item>, padding: nat, random: Draws, t: int): seq<Item>
    requires Fair(random)
  {
    if vs == [] then if padding > 0 then [Padding(padding)] else []
    else
      var slot: nat := random(t, padding + 1);
      (if slot > 0 then [Padding(slot)] else []) + [vs[0]] + SpreadBy(vs[1..], padding - slot, random, t + 1)
  }

  lemma SpreadOne(vs: seq<Item>, padding: nat, random: Draws, t: int, ws: seq<Item>)
    requires vs != [] && Fair(random)
    ensures var slot: nat := random(t, padding + 1);
            ws + SpreadBy(vs, padding, random, t)
              == (if slot > 0 then ws + [Padding(slot)] else ws) + [vs[0]]
                 + SpreadBy(vs[1..], padding - slot, random, t + 1)
  {
  }

  lemma NothingToSpread(random: Draws, t: int)
    requires Fair(random)
    ensures forall padding: nat :: SpreadBy([], padding, random, t) == if padding > 0 then [Padding(padding)] else []
  {
  }

  /** Puts all the remaining padding between, before and behind the frames. */
  method SpreadPadding(entries: seq<Slot>, padding: int, random: Draws, t: int, ghost vs: seq<Item>)
      returns (r: seq<Slot>, t': int, ghost ws: seq<Item>)
    requires Shows(entries, vs) && 0 <= padding && Fair(random)
    ensures t' == t + |vs| && ws == SpreadBy(vs, padding, random, t)
    ensures Shows(r, ws)
    ensures forall s :: s in r && s.Ref? ==> s in entries
    ensures Sum(ws).content == Sum(vs).content && Sum(ws).others == Sum(vs).others
    ensures Sum(ws).size == Sum(vs).size + padding && Sum(ws).cryptos == Sum(vs).cryptos
    ensures NonEmptyCrypto(vs) ==> NonEmptyCrypto(ws)
    ensures forall v :: v in vs ==> v in ws
  {
    hide Sum, Shows, NonEmptyCrypto, SpreadBy;
    NothingToSpread(random, t + |vs|);
    var remaining := padding;
    r, ws, t' := [], [], t;
    SpreadStart(entries, vs);
    assert vs[0..] == vs && [] + SpreadBy(vs, padding, random, t) == SpreadBy(vs, padding, random, t);
    for i := 0 to |entries|
      invariant Shows(r, ws) && 0 <= remaining && t' == t + i
      invariant SpreadBy(vs, padding, random, t) == ws + SpreadBy(vs[i..], remaining, random, t')
      invariant forall s :: s in r && s.Ref? ==> s in entries
      invariant Sum(ws).content == Sum(vs[..i]).content && Sum(ws).others == Sum(vs[..i]).others
      invariant Sum(ws).size + remaining == Sum(vs[..i]).size + padding && Sum(ws).cryptos == Sum(vs[..i]).cryptos
      invariant NonEmptyCrypto(vs) ==> NonEmptyCrypto(ws)
      invariant forall j :: 0 <= j < i ==> vs[j] in ws
    {
      var slot: nat := random(t', remaining + 1);
      SpreadOne(vs[i..], remaining, random, t', ws);
      t' := t' + 1;
      if slot > 0 {
        var pad: Item := Padding(slot);
        SumPadding(ws, slot);
        ShowsAppend(r, ws, Plain(pad), pad);
        r, ws := r + [Plain(pad)], ws + [pad];
        remaining := remaining - slot;
      }
      SumStep(vs, i, ws);
      ShowsSlot(entries, vs, i);
      ShowsAppend(r, ws, entries[i], vs[i]);
      r, ws := r + [entries[i]], ws + [vs[i]];
    }
    assert vs[..|entries|] == vs && vs[|entries|..] == [];
    assert ws + [] == ws;
    if remaining > 0 {
      var pad: Item := Padding(remaining);
      SumPadding(ws, remaining);
      ShowsAppend(r, ws, Plain(pad), pad);
      r, ws := r + [Plain(pad)], ws + [pad];
    }
  }

  lemma SpreadStart(entries: seq<Slot>, vs: seq<Item>)
    requires Shows(entries, vs)
    ensures |vs| == |entries| && Shows([], []) && NonEmptyCrypto([]) && vs[..0] == []
  {
  }

  function Swap<T>(s: seq<T>, i: int, j: int): seq<T>
    requires 0 <= i < |s| && 0 <= j < |s|
  {
    s[i := s[j]][j := s[i]]
  }

  /** The place with which each place is swapped, from the last one on. */
  ghost predicate AreChoices(choices: seq<int>, n: int) {
    (n == 0 ==> choices == []) && (0 < n ==> |choices| < n)
      && forall k :: 0 <= k < |choices| ==> 0 <= choices[k] <= |choices| - k
  }

  /** The entries after these swaps. */
  ghost function ShuffledBy<T>(s: seq<T>, choices: seq<int>): (r: seq<T>)
    requires AreChoices(choices, |s|)
    ensures |r| == |s|
    decreases |choices|
  {
    if choices == [] then s else ShuffledBy(Swap(s, |choices|, choices[0]), choices[1..])
  }

  /** The choices that are drawn for places up to `i`. */
  ghost function Choices(random: Draws, t: int, i: int): (choices: seq<int>)
    requires Fair(random)
    ensures |choices| == Max(0, i) && forall k :: 0 <= k < |choices| ==> 0 <= choices[k] <= |choices| - k
    decreases i
  {
    if i <= 0 then [] else [random(t, i + 1)] + Choices(random, t + 1, i - 1)
  }

  /** The first swap that is drawn, and the others. */
  lemma ShuffleStep<T>(s: seq<T>, random: Draws, t: int, i: int)
    requires Fair(random) && 0 < i < |s|
    ensures ShuffledBy(s, Choices(random, t, i))
              == ShuffledBy(Swap(s, i, random(t, i + 1)), Choices(random, t + 1, i - 1))
  {
    assert Choices(random, t, i)[1..] == Choices(random, t + 1, i - 1);
  }

  lemma ShuffleEnd<T>(s: seq<T>, random: Draws, t: int, i: int)
    requires Fair(random) && i <= 0
    ensures ShuffledBy(s, Choices(random, t, i)) == s
  {
  }

  /** The two orders agree behind place `i`. */
  ghost predicate AgreeBehind<T>(s: seq<T>, r: seq<T>, i: int) {
    |s| == |r| && multiset(s) == multiset(r) && -1 <= i < |s| && forall k :: i < k < |s| ==> s[k] == r[k]
  }

  /** Every order of the entries is the outcome of some choices. */
  lemma {:induction false} EveryOrder<T>(s: seq<T>, r: seq<T>, i: int) returns (choices: seq<int>)
    requires AgreeBehind(s, r, i)
    ensures |choices| == Max(0, i) && AreChoices(choices, |s|) && ShuffledBy(s, choices) == r
    decreases i
  {
    if i <= 0 {
      OneLeft(s, r, i);
      choices := [];
    } else {
      var j := ComesFrom(s, r, i);
      SwapAgrees(s, r, i, j);
      var rest := EveryOrder(Swap(s, i, j), r, i - 1);
      choices := [j] + rest;
      PrependChoice(s, j, rest);
    }
  }

  lemma PrependChoice<T>(s: seq<T>, j: int, rest: seq<int>)
    requires 0 <= j <= |rest| + 1 < |s| && AreChoices(rest, |s|)
    ensures AreChoices([j] + rest, |s|)
    ensures ShuffledBy(s, [j] + rest) == ShuffledBy(Swap(s, |rest| + 1, j), rest)
  {
    ChoicesPrepend(j, rest, |s|);
    assert ([j] + rest)[1..] == rest && ([j] + rest)[0] == j;
    hide AreChoices;
  }

  lemma ChoicesPrepend(j: int, rest: seq<int>, n: int)
    requires 0 <= j <= |rest| + 1 < n && AreChoices(rest, n)
    ensures AreChoices([j] + rest, n)
  {
  }

  lemma SwapAgrees<T>(s: seq<T>, r: seq<T>, i: int, j: int)
    requires AgreeBehind(s, r, i) && 0 <= j <= i && s[j] == r[i]
    ensures AgreeBehind(Swap(s, i, j), r, i - 1)
  {
    SameElements(s, i, j);
  }

  lemma SameStart<T>(s: seq<T>, r: seq<T>, i: int)
    requires AgreeBehind(s, r, i)
    ensures multiset(s[..i + 1]) == multiset(r[..i + 1])
  {
    var tail := s[i + 1..];
    assert tail == r[i + 1..];
    assert s == s[..i + 1] + tail && r == r[..i + 1] + tail;
    assert multiset(s[..i + 1]) == multiset(s) - multiset(tail);
    assert multiset(r[..i + 1]) == multiset(r) - multiset(tail);
  }

  /** One of the first entries belongs to place `i`. */
  lemma ComesFrom<T>(s: seq<T>, r: seq<T>, i: int) returns (j: int)
    requires AgreeBehind(s, r, i) && 0 <= i
    ensures 0 <= j <= i && s[j] == r[i]
  {
    SameStart(s, r, i);
    assert r[..i + 1][i] == r[i];
    j := IndexOf(s[..i + 1], r[i]);
  }

  lemma IndexOf<T>(s: seq<T>, x: T) returns (j: int)
    requires x in multiset(s)
    ensures 0 <= j < |s| && s[j] == x
  {
    assert x in s;
    j :| 0 <= j < |s| && s[j] == x;
  }

  lemma OneLeft<T>(s: seq<T>, r: seq<T>, i: int)
    requires AgreeBehind(s, r, i) && i <= 0
    ensures s == r
  {
    if i == 0 {
      var j := ComesFrom(s, r, 0);
    }
  }

  lemma ShowsSwap(slots: seq<Slot>, vs: seq<Item>, i: int, j: int)
    requires Shows(slots, vs) && 0 <= j <= i < |slots|
    ensures |slots| == |vs| && Shows(Swap(slots, i, j), Swap(vs, i, j))
  {
  }

  /** Shuffles the entries. */
  method Shuffle(entries: seq<Slot>, random: Draws, t: int, ghost vs: seq<Item>)
    returns (r: seq<Slot>, t': int, ghost ws: seq<Item>)
    requires Shows(entries, vs) && Fair(random)
    ensures t' == t + Max(0, |vs| - 1) && ws == ShuffledBy<Item>(vs, Choices(random, t, |vs| - 1))
    ensures Shows(r, ws) && multiset(ws) == multiset(vs) && multiset(r) == multiset(entries)
    ensures (forall s :: s in r ==> s in entries) && (forall v :: v in ws <==> v in vs)
  {
    hide Shows, ShuffledBy, Choices, Swap;
    SpreadStart(entries, vs);
    r, ws, t' := entries, vs, t;
    var i := |r| - 1;
    while i > 0
      invariant Shows(r, ws) && multiset(ws) == multiset(vs) && multiset(r) == multiset(entries)
      invariant -1 <= i < |r| == |vs| && t' == t + |r| - 1 - Max(0, i) + if |r| == 0 then 1 else 0
      invariant ShuffledBy(vs, Choices(random, t, |vs| - 1)) == ShuffledBy(ws, Choices(random, t', i))
    {
      var j := random(t', i + 1);
      t' := t' + 1;
      SameElements(r, i, j);
      SameElements(ws, i, j);
      ShuffleStep(ws, random, t' - 1, i);
      ShowsSwap(r, ws, i, j);
      r, ws := Swap(r, i, j), Swap(ws, i, j);
      i := i - 1;
    }
    ShuffleEnd(ws, random, t', i);
    forall s | s in r ensures s in entries { assert s in multiset(r); }
    forall v ensures v in ws <==> v in vs { assert v in multiset(ws) <==> v in multiset(vs); }
  }

  lemma SameElements<T>(s: seq<T>, i: int, j: int)
    requires 0 <= j <= i < |s|
    ensures multiset(Swap(s, i, j)) == multiset(s)
  {
    var t := s[i := s[j]];
    assert multiset(t) == multiset(s) - multiset{s[i]} + multiset{s[j]};
    assert multiset(t[j := s[i]]) == multiset(t) - multiset{s[j]} + multiset{s[i]};
  }

  lemma ShortStays(vs: seq<Item>, ws: seq<Item>)
    requires forall v :: v in vs ==> v in ws
    ensures HasShort(vs) ==> HasShort(ws)
  {
  }

  /** At least one frame is split if all can be split and the padding pays for it, and at least two, unless the padding
      does not pay for the next one, or there are other frames or one that cannot be split. What the splits leave of
      the padding pays for at least two PING frames, or is used up by them. */
  ghost predicate Scattered(vs: seq<Item>, ws: seq<Item>, padding: int, pings: int, overhead: int) {
    && 0 <= Splits(vs, ws) <= MAX_ADDED_CRYPTO_FRAMES
    && (!HasPlain(vs) && !HasShort(vs) && overhead <= padding ==> 1 <= Splits(vs, ws))
    && (|| MIN_ADDED_CRYPTO_FRAMES <= Splits(vs, ws) || padding < (Splits(vs, ws) + 1) * overhead
        || HasPlain(vs) || HasShort(ws))
    && Min(MIN_ADDED_PING_FRAMES, padding - Splits(vs, ws) * overhead) <= pings <= MAX_ADDED_PING_FRAMES
  }

  /** Splits frames, adds PING frames, puts the rest of the padding between the entries, and shuffles them, with random
      numbers from the t-th one on. */
  ghost function Scatter(vs: seq<Item>, padding: nat, overhead: int, random: Draws, t: int): (seq<Item>, int)
    requires vs != [] && Fair(random)
  {
    var (split, left, t1) := SplitBy(vs, padding, overhead, AddedCryptos(random, t), random, t + 1);
    var pings := AddedPings(left, random, t1);
    var t2 := t1 + if left > 0 then 1 else 0;
    var entries := split + seq(pings, _ => FrameEntry(Ping));
    var spread := SpreadBy(entries, Max(0, left - pings), random, t2);
    var t3 := t2 + |entries|;
    (ShuffledBy<Item>(spread, Choices(random, t3, |spread| - 1)), t3 + Max(0, |spread| - 1))
  }

  /** Declines without padding or CRYPTO data. Otherwise every byte of the CRYPTO frames stays at its offset exactly
      as often as before, the other frames are kept, only PING frames and padding are added, and the size is exactly
      the size of the frames plus the padding. The input frames are not modified. */
  method ChaosProtect(frames: seq<Slot>, paddingLen: int, random: Draws, t: int, ghost vs: seq<Item>)
    returns (ok: bool, spread: seq<Slot>, t': int, ghost pings: nat, ghost ws: seq<Item>, ghost lo: int, ghost hi: int)
    requires Shows(frames, vs) && Fair(random)
    ensures ok <==> 0 < paddingLen && HasCrypto(vs)
    ensures Shows(frames, vs)
    ensures ok ==> Shows(spread, ws) && forall s :: s in spread && s.Ref? ==> fresh(s.f)
    ensures ok ==> pings <= MAX_ADDED_PING_FRAMES
    ensures ok ==> Sum(ws).size == Sum(vs).size + paddingLen && Sum(ws).content == Sum(vs).content
    ensures ok ==> Sum(ws).others == Sum(vs).others + Pings(pings)
    ensures ok ==> IsRange(vs, lo, hi) && Scattered(vs, ws, paddingLen, pings, Overhead(lo, hi))
    ensures ok && NonEmptyCrypto(vs) ==> NonEmptyCrypto(ws)
    ensures if ok then vs != [] && (ws, t') == Scatter(vs, paddingLen, Overhead(lo, hi), random, t) else t' == t
  {
    hide Sum, Shows, Distinct, Within, HasPlain, HasShort, SplitBy, SpreadBy, ShuffledBy, Choices, AreChoices;
    SpreadStart(frames, vs);
    ok, spread, t', pings, ws, lo, hi := false, [], t, 0, [], 0, 0;
    if paddingLen <= 0 || |frames| == 0 {
      return;
    }
    var entries, hasCrypto, lowest, highest := CopyFrames(frames, vs);
    if !hasCrypto {
      return;
    }
    lo, hi := lowest, highest;
    var remaining;
    entries, remaining, t', ws := SplitFrames(entries, paddingLen, lowest, highest, random, t', vs);
    ghost var split, left := ws, remaining;
    var num;
    entries, remaining, num, t', ws := AddPings(entries, remaining, random, t', ws);
    pings := num;
    spread, t', ws := SpreadPadding(entries, remaining, random, t', ws);
    ghost var us := ws;
    spread, t', ws := Shuffle(spread, random, t', ws);
    SumPermutation(us, ws);
    ShortStays(split, ws);
    ok := true;
  }
}
