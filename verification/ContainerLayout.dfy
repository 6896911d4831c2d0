/** Spans of container_layout.py: two modes of two slots cut from one fixed-size image. */
module ContainerLayout {
  import opened KeyContext

  const MIN_CONTAINER_SIZE: nat := 4096
  const RECORD_OVERHEAD: nat := 44
  const RANDOM_CHUNK: nat := 1048576

  datatype Slot = Slot(mode: Mode, role: Role)
  datatype Span = Span(start: nat, len: nat) {
    function End(): nat {
      start + len
    }

    predicate Contains(i: int) {
      start <= i < End()
    }
  }

  function ModeSpan(size: nat, mode: Mode): (r: Span)
    ensures r.End() <= size
  {
    match mode
    case Secret => Span(size / 2, size - size / 2)
    case Dummy => Span(0, size / 2)
  }

  function ModeSlots(m: Mode): set<Slot> {
    {Slot(m, Open), Slot(m, Purge)}
  }

  function AllSlots(): set<Slot> {
    ModeSlots(Dummy) + ModeSlots(Secret)
  }

  lemma EverySlot(s: Slot)
    ensures s in AllSlots()
  {
    match s
    case Slot(Dummy, Open) =>
    case Slot(Dummy, Purge) =>
    case Slot(Secret, Open) =>
    case Slot(Secret, Purge) =>
  }

  function SlotSpan(size: nat, slot: Slot): (r: Span)
    ensures r.End() <= size
  {
    var m := ModeSpan(size, slot.mode);
    var first := m.len / 2;
    match slot.role
    case Open => Span(m.start, first)
    case Purge => Span(m.start + first, m.len - first)
  }

  /** May be negative or zero for a container below the minimum; the writers reject at most 4. */
  function Capacity(size: nat, slot: Slot): int {
    SlotSpan(size, slot).len - RECORD_OVERHEAD
  }

  predicate Within(span: Span, n: nat) {
    span.End() <= n
  }

  predicate Disjoint(a: Span, b: Span) {
    a.End() <= b.start || b.End() <= a.start
  }

  /** The slot an offset belongs to. */
  ghost function SlotAt(size: nat, i: nat): Slot {
    var m := if i < size / 2 then Dummy else Secret;
    Slot(m, if i < ModeSpan(size, m).start + ModeSpan(size, m).len / 2 then Open else Purge)
  }

  /** Every offset of the image lies in exactly one slot, and a mode is its two slots. */
  lemma SlotsTileContainer(size: nat)
    ensures forall s :: Within(SlotSpan(size, s), size)
    ensures forall s, t :: s != t ==> Disjoint(SlotSpan(size, s), SlotSpan(size, t))
    ensures forall i | 0 <= i < size :: SlotSpan(size, SlotAt(size, i)).Contains(i)
    ensures forall m :: ModeSpan(size, m).start == SlotSpan(size, Slot(m, Open)).start
                     && SlotSpan(size, Slot(m, Open)).End() == SlotSpan(size, Slot(m, Purge)).start
                     && SlotSpan(size, Slot(m, Purge)).End() == ModeSpan(size, m).End()
  {
  }

  /** Where each slot lies: the dummy half before the secret half, in each the open quarter first. */
  lemma SlotPlaces(size: nat)
    ensures SlotSpan(size, Slot(Dummy, Open)) == Span(0, size / 2 / 2)
    ensures SlotSpan(size, Slot(Dummy, Purge)).start == size / 2 / 2
         && SlotSpan(size, Slot(Dummy, Purge)).End() == size / 2
    ensures SlotSpan(size, Slot(Secret, Open)) == Span(size / 2, (size - size / 2) / 2)
    ensures SlotSpan(size, Slot(Secret, Purge)).start == size / 2 + (size - size / 2) / 2
         && SlotSpan(size, Slot(Secret, Purge)).End() == size
  {
  }

  lemma ModesApart(size: nat, mode: Mode, s: Slot)
    requires s.mode != mode
    ensures Disjoint(ModeSpan(size, mode), SlotSpan(size, s))
  {
  }

  lemma SlotsApart(size: nat, s: Slot, t: Slot)
    requires s != t
    ensures Disjoint(SlotSpan(size, s), SlotSpan(size, t))
  {
  }

  /** A container of the minimum size leaves every slot far more than the 4 bytes the cipher insists on. */
  lemma CapacityIsPositive(size: nat, slot: Slot)
    requires size >= 4096
    ensures Capacity(size, slot) >= 980
  {
  }

  lemma SmallestCapacity(size: nat, mode: Mode)
    requires size == MIN_CONTAINER_SIZE
    ensures Capacity(size, Slot(mode, Open)) == 980 && Capacity(size, Slot(mode, Purge)) == 980
  {
    assert ModeSpan(size, mode).len == 2048;
    assert SlotSpan(size, Slot(mode, Open)).len == 1024;
  }

  /** Seeking to `start` and writing `payload`; a write past the end extends the file. */
  function WriteAt<T>(image: seq<T>, start: nat, payload: seq<T>): (r: seq<T>)
    requires start <= |image|
    ensures |r| == if start + |payload| <= |image| then |image| else start + |payload|
  {
    var end := start + |payload|;
    image[..start] + payload + (if end <= |image| then image[end..] else [])
  }

  function Slice<T>(image: seq<T>, span: Span): (r: seq<T>)
    requires Within(span, |image|)
    ensures |r| == span.len
  {
    image[span.start..span.End()]
  }

  /** A write puts its payload in its own span and leaves every disjoint span alone. */
  lemma WriteTouchesOnlyItsSpan<T>(image: seq<T>, start: nat, payload: seq<T>, other: Span)
    requires start + |payload| <= |image| && Within(other, |image|)
    ensures Slice(WriteAt(image, start, payload), Span(start, |payload|)) == payload
    ensures Disjoint(Span(start, |payload|), other)
            ==> Slice(WriteAt(image, start, payload), other) == Slice(image, other)
  {
  }

  /** The bytes of one slot. */
  function SlotBytes<T>(image: seq<T>, slot: Slot): (r: seq<T>)
    ensures |r| == SlotSpan(|image|, slot).len
  {
    Slice(image, SlotSpan(|image|, slot))
  }

  lemma SlotByteAt<T>(image: seq<T>, slot: Slot, i: nat)
    requires i < SlotSpan(|image|, slot).len
    ensures SlotBytes(image, slot)[i] == image[SlotSpan(|image|, slot).start + i]
  {
  }

  lemma WriteAtFront<T>(image: seq<T>, payload: seq<T>, at: nat)
    requires |payload| <= |image| && at < |image|
    ensures WriteAt(image, 0, payload)[at] == if at < |payload| then payload[at] else image[at]
  {
  }

  /** Writing a slot-sized payload at a slot replaces that slot's bytes and no other's. */
  lemma WriteSlotBytes<T>(image: seq<T>, slot: Slot, payload: seq<T>, t: Slot)
    requires |payload| == SlotSpan(|image|, slot).len
    ensures var after := WriteAt(image, SlotSpan(|image|, slot).start, payload);
            |after| == |image| && SlotBytes(after, t) == if t == slot then payload else SlotBytes(image, t)
  {
    hide SlotSpan;
    var span := SlotSpan(|image|, slot);
    WriteTouchesOnlyItsSpan(image, span.start, payload, SlotSpan(|image|, t));
    if t != slot {
      SlotsApart(|image|, slot, t);
    }
  }

  /** Overwriting a span part by part is one write of the parts joined. */
  lemma WritesCompose<T>(image: seq<T>, start: nat, first: seq<T>, second: seq<T>)
    requires start <= |image|
    ensures WriteAt(WriteAt(image, start, first), start + |first|, second) == WriteAt(image, start, first + second)
  {
  }
}
