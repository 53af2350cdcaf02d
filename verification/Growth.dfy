/** Files of fixed-size slots that grow by one fixed step when the next slot does not fit. */
module Growth {
  import opened Bytes

  /** Where the first `n` slots end, behind a header. */
  function EndOfSlots(header: nat, slot: nat, n: nat): nat { header + SlotAt(slot, n) }

  /** The size of a file of `size` bytes once slot `n` has been appended. */
  function GrownOnce(header: nat, step: nat, slot: nat, size: nat, n: nat): nat {
    if EndOfSlots(header, slot, n + 1) > size then size + step else size
  }

  /** The size of a new file after `n` appends. */
  function SizeAfter(header: nat, initial: nat, step: nat, slot: nat, n: nat): nat {
    if n == 0 then initial else GrownOnce(header, step, slot, SizeAfter(header, initial, step, slot, n - 1), n - 1)
  }

  /** Every append finds room if and only if a slot is no larger than the step. */
  lemma GrowthExact(header: nat, initial: nat, step: nat, slot: nat)
    requires header <= initial
    ensures (forall n: nat :: EndOfSlots(header, slot, n) <= SizeAfter(header, initial, step, slot, n)) <==> slot <= step
  {
    if slot <= step {
      forall n: nat ensures EndOfSlots(header, slot, n) <= SizeAfter(header, initial, step, slot, n) {
        SmallSlotsFit(header, initial, step, slot, n);
      }
    } else {
      var n := initial + 1;
      AtMostSteps(header, initial, step, slot, n);
      Outgrown(initial, step, slot, n);
      assert EndOfSlots(header, slot, n) > SizeAfter(header, initial, step, slot, n);
    }
  }

  lemma {:induction false} SmallSlotsFit(header: nat, initial: nat, step: nat, slot: nat, n: nat)
    requires header <= initial && slot <= step
    ensures EndOfSlots(header, slot, n) <= SizeAfter(header, initial, step, slot, n)
  {
    hide SlotAt;
    if n == 0 {
      NoSlots(slot);
    } else {
      SmallSlotsFit(header, initial, step, slot, n - 1);
      SlotStep(slot, n - 1);
    }
  }

  lemma {:induction false} AtMostSteps(header: nat, initial: nat, step: nat, slot: nat, n: nat)
    ensures SizeAfter(header, initial, step, slot, n) <= initial + SlotAt(step, n)
  {
    hide SlotAt;
    NoSlots(step);
    if n > 0 {
      AtMostSteps(header, initial, step, slot, n - 1);
      SlotStep(step, n - 1);
    }
  }

  lemma Outgrown(initial: nat, step: nat, slot: nat, n: nat)
    requires slot > step && n > initial
    ensures SlotAt(slot, n) > initial + SlotAt(step, n)
  {
    assert n * slot >= n * (step + 1);
  }
}
