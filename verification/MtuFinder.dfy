// The path MTU finder, which updates its search state in place when probes are acknowledged or lost.
module MtuFinder {
  import opened Protocol
  import opened MtuSearch

  class MtuFinder {
    var inFlight: int
    var min: int
    const lost: array<int>
    var lastProbeWasLost: bool
    var generation: nat

    ghost function View(): Search
      reads this, lost
    {
      Search(min, lost[..], lastProbeWasLost)
    }

    /** A probe in flight has the size that the current state asks for. */
    ghost predicate Ready()
      reads this, lost
    {
      && lost.Length == MAX_LOST_PROBES && Valid(View())
      && (inFlight != INVALID_BYTE_COUNT ==> inFlight == ProbeSize(View()) && !Done(View()))
    }

    constructor (start: int, max: int)
      requires 0 <= start <= max
      ensures Ready() && fresh(lost) && View() == Start(start, max) && inFlight == INVALID_BYTE_COUNT
      ensures generation == 0
    {
      lost := new int[MAX_LOST_PROBES];
      inFlight, generation, lastProbeWasLost := INVALID_BYTE_COUNT, 0, false;
      min := start;
      new;
      Init(start, max);
    }

    method Init(start: int, max: int)
      requires lost.Length == MAX_LOST_PROBES
      modifies this`min, lost
      ensures min == start && lost[..] == [max, INVALID_BYTE_COUNT, INVALID_BYTE_COUNT]
    {
      min := start;
      for i := 0 to lost.Length
        invariant min == start
        invariant forall k :: 0 <= k < i ==> lost[k] == if k == 0 then max else INVALID_BYTE_COUNT
      {
        if i == 0 {
          lost[i] := max;
        } else {
          lost[i] := INVALID_BYTE_COUNT;
        }
      }
      assert lost[..] == [lost[0], lost[1], lost[2]];
    }

    /** The largest size that may still be supported. */
    method MaxLost() returns (m: int)
      requires Ready()
      ensures m == MaxSize(View())
    {
      for i := 0 to lost.Length
        invariant forall k :: 0 <= k < i ==> lost[k] != INVALID_BYTE_COUNT
      {
        if lost[i] == INVALID_BYTE_COUNT {
          return lost[i - 1];
        }
      }
      return lost[lost.Length - 1];
    }

    method IsDone() returns (r: bool)
      requires Ready()
      ensures r == Done(View())
    {
      var m := MaxLost();
      r := m - min <= MAX_MTU_DIFF + 1;
    }

    /** Whether a probe may be sent; `delayOver` says that enough time has passed since the last one. */
    method ShouldSendProbe(delayOver: bool) returns (r: bool)
      requires Ready()
      ensures r <==> inFlight == INVALID_BYTE_COUNT && !Done(View()) && delayOver
    {
      if inFlight != INVALID_BYTE_COUNT {
        return false;
      }
      var done := IsDone();
      return !done && delayOver;
    }

    /** Sends a probe; called only if a probe should be sent. */
    method GetPing() returns (size: int, handlerGeneration: nat)
      requires Ready() && inFlight == INVALID_BYTE_COUNT && !Done(View())
      modifies this`inFlight
      ensures Ready() && View() == old(View())
      ensures inFlight == size == ProbeSize(View()) && handlerGeneration == generation
    {
      if lastProbeWasLost {
        size := (min + lost[0]) / 2;
      } else {
        var m := MaxLost();
        size := (min + m) / 2;
      }
      inFlight := size;
      ProbeBounds(View());
      handlerGeneration := generation;
    }

    /** Starts over on a new path; probes of the old generation are ignored from now on. */
    method Reset(start: int, max: int)
      requires Ready() && 0 <= start <= max
      modifies this, lost
      ensures Ready() && View() == Start(start, max) && inFlight == INVALID_BYTE_COUNT
      ensures generation == old(generation) + 1
    {
      generation := generation + 1;
      lastProbeWasLost := false;
      inFlight := INVALID_BYTE_COUNT;
      Init(start, max);
    }

    /** The probe was acknowledged. */
    method OnAcked(handlerGeneration: nat) returns (panicked: bool)
      requires Ready()
      modifies this`inFlight, this`min, this`lastProbeWasLost, lost
      ensures panicked <==> handlerGeneration == generation && old(inFlight) == INVALID_BYTE_COUNT
      ensures handlerGeneration != generation || panicked ==>
                  Ready() && View() == old(View()) && inFlight == old(inFlight)
      ensures handlerGeneration == generation && !panicked ==>
                Ready() && View() == old(Step(View(), true)) && inFlight == INVALID_BYTE_COUNT
      ensures handlerGeneration == generation && !panicked ==>
                && min == old(inFlight) && !lastProbeWasLost
                && forall v :: Sizes(View())[v] == if old(inFlight) < v then old(Sizes(View()))[v] else 0
    {
      if handlerGeneration != generation {
        return false;
      }
      var size := inFlight;
      if size == INVALID_BYTE_COUNT {
        return true;
      }
      StepKeepsValid(View(), true);
      ProbeBounds(View());
      AckedKeepsLarger(View(), size);
      inFlight := INVALID_BYTE_COUNT;
      min := size;
      lastProbeWasLost := false;
      RemoveUpTo(size);
      return false;
    }

    /** Removes the lost sizes up to `size` from the front of the array. */
    method RemoveUpTo(size: int)
      requires lost.Length == MAX_LOST_PROBES
      modifies lost
      ensures lost[..] == DropUpTo(old(lost[..]), size)
    {
      var j := 0;
      for i := 0 to lost.Length
        invariant j == 0 && forall k :: 0 <= k < i ==> lost[k] <= size
      {
        if size < lost[i] {
          j := i;
          break;
        }
      }
      assert j > 0 ==> FirstAbove(lost[..], size) == j;
      if j > 0 {
        for i := 0 to lost.Length
          invariant forall k :: i <= k < lost.Length ==> lost[k] == old(lost[k])
          invariant forall k :: 0 <= k < i ==> lost[k] == if k + j < lost.Length then old(lost[k + j])
                      else INVALID_BYTE_COUNT
        {
          if i + j < lost.Length {
            lost[i] := lost[i + j];
          } else {
            lost[i] := INVALID_BYTE_COUNT;
          }
        }
        assert lost[..] == [lost[0], lost[1], lost[2]];
      }
    }

    /** The probe was lost. */
    method OnLost(handlerGeneration: nat) returns (panicked: bool)
      requires Ready()
      modifies this`inFlight, this`lastProbeWasLost, lost
      ensures panicked <==> handlerGeneration == generation && old(inFlight) == INVALID_BYTE_COUNT
      ensures handlerGeneration != generation || panicked ==>
                  Ready() && View() == old(View()) && inFlight == old(inFlight)
      ensures handlerGeneration == generation && !panicked ==>
                Ready() && View() == old(Step(View(), false)) && inFlight == INVALID_BYTE_COUNT
      ensures handlerGeneration == generation && !panicked ==>
                && min == old(min) && lastProbeWasLost
                && Sizes(View()) == old(Sizes(View())) + multiset{old(inFlight)}
                                    - if old(lost[2]) == INVALID_BYTE_COUNT then multiset{}
                                      else multiset{old(MaxSize(View()))}
    {
      if handlerGeneration != generation {
        return false;
      }
      var size := inFlight;
      if size == INVALID_BYTE_COUNT {
        return true;
      }
      StepKeepsValid(View(), false);
      ProbeBounds(View());
      LostIsRemembered(View(), size);
      lastProbeWasLost := true;
      inFlight := INVALID_BYTE_COUNT;
      InsertSize(size);
      return false;
    }

    /** Inserts a size in front of the first larger one. */
    method InsertSize(size: int)
      requires lost.Length == MAX_LOST_PROBES
      modifies lost
      ensures lost[..] == InsertLost(old(lost[..]), size)
    {
      for i := 0 to lost.Length
        invariant forall k :: 0 <= k < i ==> lost[k] <= size
        invariant lost[..] == old(lost[..])
      {
        if size < lost[i] {
          assert FirstAbove(lost[..], size) == i;
          ShiftRight(i);
          lost[i] := size;
          assert lost[..] == [lost[0], lost[1], lost[2]];
          break;
        }
      }
    }

    /** Moves the sizes from slot i on by one slot; the last one is dropped. */
    method ShiftRight(i: int)
      requires 0 <= i < lost.Length
      modifies lost
      ensures forall n :: 0 <= n <= i ==> lost[n] == old(lost[n])
      ensures forall n :: i < n < lost.Length ==> lost[n] == old(lost[n - 1])
    {
      var k := lost.Length - 1;
      while k > i
        invariant i <= k < lost.Length
        invariant forall n :: 0 <= n <= k ==> lost[n] == old(lost[n])
        invariant forall n :: k < n < lost.Length ==> lost[n] == old(lost[n - 1])
      {
        lost[k] := lost[k - 1];
        k := k - 1;
      }
    }
  }
}
