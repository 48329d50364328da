// Serializing the payload of a packet.
module PacketPacker {
  import opened Protocol
  import opened Wire
  import opened Payload
  import opened ChaosProtector

  /** SizeBug stands for the errors about an inconsistent payload size. */
  datatype PackResult = Packed(raw: seq<Byte>) | SizeBug

  lemma {:induction false} AppendAllStep(es: seq<Item>, e: Item)
    ensures AppendAll(es + [e]) == AppendAll(es) + AppendEntry(e)
  {
    if es == [] {
      assert es + [e] == [e];
      assert [e][1..] == [];
    } else {
      hide AppendAll, AppendEntry;
      AppendAllStep(es[1..], e);
      assert (es + [e])[0] == es[0] && (es + [e])[1..] == es[1..] + [e];
      AppendAllHead(es);
      AppendAllHead(es + [e]);
      Regrouped(AppendEntry(es[0]), AppendAll(es[1..]), AppendEntry(e));
    }
  }

  lemma AppendAllHead(es: seq<Item>)
    requires es != []
    ensures AppendAll(es) == AppendEntry(es[0]) + AppendAll(es[1..])
  {
  }

  lemma NothingAppended()
    ensures AppendAll([]) == []
  {
  }

  /** Writes one entry. */
  method AppendSlot(slot: Slot, ghost v: Item) returns (bytes: seq<Byte>)
    requires ShowsOne(slot, v)
    ensures bytes == AppendEntry(v)
  {
    match slot
    case Ref(f) => bytes := Append(Crypto(f.offset, f.data));
    case Plain(e) => bytes := AppendEntry(e);
  }

  /** Writes the entries one after the other. */
  method AppendSlots(raw: seq<Byte>, slots: seq<Slot>, ghost vs: seq<Item>) returns (r: seq<Byte>)
    requires Shows(slots, vs)
    ensures r == raw + AppendAll(vs)
  {
    hide AppendAll, AppendEntry, Shows, ShowsOne;
    r := raw;
    ShowsLength(slots, vs);
    assert vs[..0] == [];
    NothingAppended();
    for i := 0 to |slots|
      invariant r == raw + AppendAll(vs[..i])
    {
      assert vs[..i + 1] == vs[..i] + [vs[i]];
      AppendAllStep(vs[..i], vs[i]);
      ShowsSlot(slots, vs, i);
      var bytes := AppendSlot(slots[i], vs[i]);
      AppendLater(raw, AppendAll(vs[..i]), bytes);
      r := r + bytes;
    }
    assert vs[..|slots|] == vs;
  }

  lemma ShowsLength(slots: seq<Slot>, vs: seq<Item>)
    requires Shows(slots, vs)
    ensures |slots| == |vs|
  {
  }

  lemma AppendLater(a: seq<Byte>, b: seq<Byte>, c: seq<Byte>)
    ensures (a + b) + c == a + (b + c)
  {
  }

  /** The frames are scattered: split, with the padding and PING frames between them. */
  ghost predicate IsScattered(vs: seq<Item>, ws: seq<Item>, padding: nat, random: Draws, t: int)
    requires Fair(random)
  {
    exists lo, hi, pings: nat {:trigger IsRange(vs, lo, hi), Pings(pings)} ::
      && IsRange(vs, lo, hi) && Scattered(vs, ws, padding, pings, Overhead(lo, hi))
      && Sum(ws).others == Sum(vs).others + Pings(pings)
      && vs != [] && ws == Scatter(vs, padding, Overhead(lo, hi), random, t).0
  }

  /** The control frames come in a random order, the STREAM frames behind them as they are, and the padding at the
      end. */
  ghost predicate IsPlain(vs: seq<Item>, ss: seq<Item>, ws: seq<Item>, padding: nat, random: Draws, t: int)
    requires Fair(random)
  {
    ws == ShuffledBy<Item>(vs, Choices(random, t, |vs| - 1)) + ss + [Padding(padding)]
  }

  lemma MakePlain(vs: seq<Item>, us: seq<Item>, ss: seq<Item>, padding: nat, random: Draws, t: int)
    requires Fair(random) && us == ShuffledBy<Item>(vs, Choices(random, t, |vs| - 1))
    ensures IsPlain(vs, ss, us + ss + [Padding(padding)], padding, random, t)
  {
  }

  lemma MakeScattered(vs: seq<Item>, ws: seq<Item>, padding: nat, pings: nat, lo: int, hi: int, random: Draws, t: int)
    requires IsRange(vs, lo, hi) && Scattered(vs, ws, padding, pings, Overhead(lo, hi)) && Fair(random)
    requires Sum(ws).others == Sum(vs).others + Pings(pings)
    requires vs != [] && ws == Scatter(vs, padding, Overhead(lo, hi), random, t).0
    ensures IsScattered(vs, ws, padding, random, t)
    ensures 0 <= Sum(ws).cryptos - Sum(vs).cryptos <= MAX_ADDED_CRYPTO_FRAMES && Sum(vs).others <= Sum(ws).others
    ensures forall f :: f != Ping ==> Sum(ws).others[f] == Sum(vs).others[f]
  {
    hide Scatter;
  }

  /** Serializes a payload, scattering the CRYPTO frames if `chaos` is set. It fails exactly if the announced length
      is not the length of the ACK and the frames; the result has that length plus the padding. It carries the same
      CRYPTO bytes at the same offsets as the frames, in a bounded number of additional CRYPTO frames, and all the
      other frames. */
  method AppendPacketPayload(raw: seq<Byte>, ack: seq<Byte>, frames: seq<Slot>, streamFrames: seq<Slot>, length: int,
                             paddingLen: int, chaos: bool, random: Draws, t: int, ghost vs: seq<Item>,
                             ghost ss: seq<Item>)
    returns (r: PackResult, t': int, ghost ws: seq<Item>)
    requires Fair(random)
    requires Shows(frames, vs) && Shows(streamFrames, ss) && 0 <= paddingLen
    ensures r.Packed? <==> length == |ack| + Sum(vs).size + Sum(ss).size
    ensures r.Packed? ==> r.raw == raw + ack + AppendAll(ws) && |r.raw| == |raw| + length + paddingLen
    ensures Sum(ws).content == Sum(vs).content + Sum(ss).content
    ensures Sum(vs).others + Sum(ss).others <= Sum(ws).others
    ensures forall f :: f != Ping ==> Sum(ws).others[f] == Sum(vs).others[f] + Sum(ss).others[f]
    ensures NonEmptyCrypto(vs) && NonEmptyCrypto(ss) ==> NonEmptyCrypto(ws)
    ensures 0 <= Sum(ws).cryptos - Sum(vs).cryptos - Sum(ss).cryptos <= MAX_ADDED_CRYPTO_FRAMES
    ensures if chaos && ss == [] && 0 < paddingLen && HasCrypto(vs) then IsScattered(vs, ws, paddingLen, random, t)
            else IsPlain(vs, ss, ws, paddingLen, random, t)
  {
    hide Sum, Shows, AppendAll, IsScattered, IsPlain, Scattered, IsRange, Overhead, HasCrypto, Pings, Scatter,
         ShuffledBy, Choices, AreChoices;
    var buf := raw + ack;
    SameCount(streamFrames, ss);
    if chaos && |streamFrames| == 0 {
      var ok, entries;
      ghost var pings, lo, hi;
      ok, entries, t', pings, ws, lo, hi := ChaosProtect(frames, paddingLen, random, t, vs);
      if ok {
        MakeScattered(vs, ws, paddingLen, pings, lo, hi, random, t);
        NoFrames(streamFrames, ss);
        buf := AppendSlots(buf, entries, ws);
        SizeIsLength(ws);
        if |buf| - |raw| != length + paddingLen {
          return SizeBug, t', ws;
        }
        return Packed(buf), t', ws;
      }
    }
    var shuffled;
    ghost var us;
    shuffled, t', us := Shuffle(frames, random, t, vs);
    SumPermutation(us, vs);
    buf := AppendSlots(buf, shuffled, us);
    buf := AppendSlots(buf, streamFrames, ss);
    if paddingLen > 0 {
      buf := buf + Zeros(paddingLen);
    }
    ws := us + ss + [Padding(paddingLen)];
    PlainPayload(us, ss, paddingLen);
    MakePlain(vs, us, ss, paddingLen, random, t);
    if |buf| - |raw| - paddingLen != length {
      return SizeBug, t', ws;
    }
    return Packed(buf), t', ws;
  }

  lemma SameCount(slots: seq<Slot>, ss: seq<Item>)
    requires Shows(slots, ss)
    ensures |slots| == |ss|
  {
  }

  lemma NoFrames(slots: seq<Slot>, ss: seq<Item>)
    requires Shows(slots, ss) && |slots| == 0
    ensures Sum(ss) == NOTHING
  {
  }

  lemma {:induction false} AppendAllConcat(p: seq<Item>, q: seq<Item>)
    ensures AppendAll(p + q) == AppendAll(p) + AppendAll(q)
  {
    hide AppendAll, AppendEntry;
    if q == [] {
      NothingAppended();
      assert p + q == p && AppendAll(p) + [] == AppendAll(p);
    } else {
      var k := |q| - 1;
      AppendAllConcat(p, q[..k]);
      Regrouped(p, q[..k], [q[k]]);
      assert q == q[..k] + [q[k]];
      AppendAllStep(p + q[..k], q[k]);
      AppendAllStep(q[..k], q[k]);
      Regrouped(AppendAll(p), AppendAll(q[..k]), AppendEntry(q[k]));
    }
  }

  lemma Regrouped<T>(a: seq<T>, b: seq<T>, c: seq<T>)
    ensures a + (b + c) == (a + b) + c
  {
  }

  lemma PlainPayload(us: seq<Item>, ss: seq<Item>, n: nat)
    ensures var ws := us + ss + [Padding(n)];
            && AppendAll(ws) == AppendAll(us) + AppendAll(ss) + Zeros(n)
            && |AppendAll(us)| == Sum(us).size && |AppendAll(ss)| == Sum(ss).size
            && Sum(ws).content == Sum(us).content + Sum(ss).content && Sum(ws).others == Sum(us).others + Sum(ss).others
            && Sum(ws).cryptos == Sum(us).cryptos + Sum(ss).cryptos
            && (NonEmptyCrypto(us) && NonEmptyCrypto(ss) ==> NonEmptyCrypto(ws))
  {
    hide Sum, AppendAll;
    SizeIsLength(us);
    SizeIsLength(ss);
    AppendAllConcat(us, ss);
    AppendAllStep(us + ss, Padding(n));
    SumConcat(us, ss);
    SumPadding(us + ss, n);
  }
}
