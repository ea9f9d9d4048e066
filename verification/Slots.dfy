/** Time slots: a record's slot is its time divided by the span. */
module Slots {
  import opened Multiples
  import opened Records

  function Slot(x: Instant, span: int): int
    requires span > 0
  {
    if x.stamp.Parsed? then x.stamp.unix / span else 0
  }

  /** The time a slot starts at. */
  function SlotStart(slot: int, span: int): int {
    span * slot
  }

  lemma SlotStep(slot: int, span: int)
    requires span > 0
    ensures SlotStart(slot + 1, span) == SlotStart(slot, span) + span
    ensures SlotStart(slot, span) % span == 0
  {
    MultipleMod(slot, span);
  }

  lemma SlotDecides(t: int, span: int, slot: int)
    requires span > 0
    ensures t < SlotStart(slot + 1, span) <==> t / span <= slot
    ensures SlotStart(slot, span) <= t <==> slot <= t / span
  {
    assert t == span * (t / span) + t % span;
    Spread(span, t / span - slot);
    assert span * (t / span - slot) == span * (t / span) - span * slot;
    assert span * (slot + 1) == span * slot + span;
  }

  lemma SlotBounds(t: int, span: int, slot: int)
    requires span > 0
    ensures t / span == slot <==> SlotStart(slot, span) <= t < SlotStart(slot + 1, span)
  {
    SlotDecides(t, span, slot);
  }

  /** A time that the truncating remainder does not round up. */
  predicate Covered(t: int, span: int)
    requires span > 0
  {
    0 <= t || t % span == 0
  }

  /** A window opened by a covered time ends with the time's slot, any other with the
      slot after it. */
  lemma FirstEndIsSlotEnd(t: int, span: int)
    requires span > 0
    ensures FirstEnd(t, span) == SlotStart(t / span + if Covered(t, span) then 1 else 2, span)
  {
    assert t == span * (t / span) + t % span;
    if !Covered(t, span) {
      assert -t == span * (-(t / span) - 1) + (span - t % span);
      DivModUnique(-t, span, -(t / span) - 1, span - t % span);
    }
  }

  lemma SlotMonotone(t: int, u: int, span: int)
    requires span > 0 && t <= u
    ensures t / span <= u / span
  {
    SlotDecides(u, span, u / span);
    SlotDecides(t, span, u / span);
  }
}
