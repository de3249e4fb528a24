// The receive virtqueue of the freestanding guest driver, shared with a device that may act
// between any two accesses of the driver: first as a protocol over unbounded histories, then as
// the driver's code over eight-slot rings and free-running 16-bit indices.
module RxRing {
  import opened Wrappers

  const QNUM: nat := 8
  const RX_BUFS := 0x41_0000
  const BUF_SZ := 2048
  const TWO16 := 0x1_0000

  /* The protocol. */

  // Where a descriptor is: in an available or used entry (numbered since the start), in the
  // device's hand, or in the driver's.
  datatype Place = Available(at: nat) | InDevice | Used(at: nat) | InDriver

  // The driver's progress through one recycle.
  datatype Phase = Idle | Taken | SlotWritten

  // Every entry ever made available and ever published as used; how many the device consumed,
  // the driver saw, and the driver recycled.
  datatype State = State(
    avail: seq<U32>, used: seq<U32>,
    consumed: nat, seen: nat, recycled: nat,
    held: set<U32>, current: U32, phase: Phase,
    place: seq<Place>)

  function Start(): State {
    State([0, 1, 2, 3, 4, 5, 6, 7], [], 0, 0, 0, {}, 0, Idle,
          [Available(0), Available(1), Available(2), Available(3),
           Available(4), Available(5), Available(6), Available(7)])
  }

  function FirstUsed(s: State): nat {
    s.recycled + if s.phase.Idle? then 0 else 1
  }

  predicate Counters(s: State) {
    && s.recycled <= s.seen <= |s.used| <= s.consumed <= |s.avail| == s.recycled + QNUM
    && (!s.phase.Idle? ==> s.recycled < s.seen)
    && |s.held| == s.consumed - |s.used|
  }

  // Entries in flight and the two hands name descriptors recorded to be there...
  predicate EntriesArePlaced(s: State)
    requires Counters(s)
  {
    && |s.place| == QNUM
    && (forall k :: s.consumed <= k < |s.avail| ==> s.avail[k] < QNUM && s.place[s.avail[k]] == Available(k))
    && (forall k :: FirstUsed(s) <= k < |s.used| ==> s.used[k] < QNUM && s.place[s.used[k]] == Used(k))
    && (forall id :: id in s.held ==> id < QNUM && s.place[id] == InDevice)
    && (!s.phase.Idle? ==> s.current < QNUM && s.place[s.current] == InDriver)
  }

  // ... and every descriptor is where it is recorded to be.
  predicate PlacesAreReal(s: State)
    requires Counters(s) && |s.place| == QNUM
  {
    forall id :: 0 <= id < QNUM ==> PlaceIsReal(s, id, s.place[id])
  }

  predicate PlaceIsReal(s: State, id: U32, place: Place)
    requires Counters(s)
  {
    match place
    case Available(k) => s.consumed <= k < |s.avail| && s.avail[k] == id
    case InDevice => id in s.held
    case Used(k) => FirstUsed(s) <= k < |s.used| && s.used[k] == id
    case InDriver => !s.phase.Idle? && s.current == id
  }

  // So the eight descriptors are at all times a permutation over the places they can be in.
  predicate Inv(s: State) {
    Counters(s) && EntriesArePlaced(s) && PlacesAreReal(s)
  }

  // The device takes each available entry once, in order (section 2.7 of VIRTIO 1.2).
  function Consume(s: State): State
    requires Inv(s) && s.consumed < |s.avail|
  {
    var id := s.avail[s.consumed];
    s.(consumed := s.consumed + 1, held := s.held + {id}, place := s.place[id := InDevice])
  }

  // It publishes what it took, in any order.
  function Publish(s: State, id: U32): State
    requires Inv(s) && id in s.held
  {
    s.(used := s.used + [id], held := s.held - {id}, place := s.place[id := Used(|s.used|)])
  }

  function ReadUsedIdx(s: State): State {
    s.(seen := |s.used|)
  }

  function Take(s: State): State
    requires Inv(s) && s.phase.Idle? && s.recycled < s.seen
  {
    var id := s.used[s.recycled];
    s.(current := id, phase := Taken, place := s.place[id := InDriver])
  }

  function WriteSlot(s: State): State {
    s.(phase := SlotWritten)
  }

  function PublishSlot(s: State): State
    requires Inv(s) && s.phase.SlotWritten?
  {
    s.(avail := s.avail + [s.current], recycled := s.recycled + 1, phase := Idle,
       place := s.place[s.current := Available(|s.avail|)])
  }

  lemma StartInv()
    ensures Inv(Start())
  {
  }

  lemma ConsumeInv(s: State)
    requires Inv(s) && s.consumed < |s.avail|
    ensures Inv(Consume(s))
  {
    var s' := Consume(s);
    assert s.avail[s.consumed] !in s.held;
    assert EntriesArePlaced(s');
  }

  lemma PublishInv(s: State, id: U32)
    requires Inv(s) && id in s.held
    ensures Inv(Publish(s, id))
  {
    var s' := Publish(s, id);
    assert |s'.held| == |s.held| - 1;
    assert EntriesArePlaced(s');
  }

  lemma TakeInv(s: State)
    requires Inv(s) && s.phase.Idle? && s.recycled < s.seen
    ensures Inv(Take(s))
  {
    assert EntriesArePlaced(Take(s));
  }

  lemma PublishSlotInv(s: State)
    requires Inv(s) && s.phase.SlotWritten?
    ensures Inv(PublishSlot(s))
  {
    assert EntriesArePlaced(PublishSlot(s));
  }

  // One access by either side.
  ghost predicate DeviceNext(s: State, s': State)
    requires Inv(s)
  {
    || (s.consumed < |s.avail| && s' == Consume(s))
    || exists id :: id in s.held && s' == Publish(s, id)
  }

  ghost predicate DriverNext(s: State, s': State)
    requires Inv(s)
  {
    match s.phase
    case Idle => s' == ReadUsedIdx(s) || (s.recycled < s.seen && s' == Take(s))
    case Taken => s' == WriteSlot(s)
    case SlotWritten => s' == PublishSlot(s)
  }

  // The protocol stops making sense outside Inv; RunConservesDescriptors shows it never does.
  ghost predicate AnyNext(s: State, s': State) {
    Inv(s) ==> DeviceNext(s, s') || DriverNext(s, s')
  }

  ghost predicate IsRun(run: seq<State>) {
    && run != [] && run[0] == Start()
    && forall k :: 0 <= k < |run| - 1 ==> AnyNext(run[k], run[k + 1])
  }

  lemma NextInv(s: State, s': State)
    requires Inv(s) && AnyNext(s, s')
    ensures Inv(s')
  {
    if DeviceNext(s, s') {
      if s.consumed < |s.avail| && s' == Consume(s) {
        ConsumeInv(s);
      } else {
        var id :| id in s.held && s' == Publish(s, id);
        PublishInv(s, id);
      }
    } else if s.phase.Idle? && s' != ReadUsedIdx(s) {
      TakeInv(s);
    } else if s.phase.SlotWritten? {
      PublishSlotInv(s);
    }
  }

  // Under every interleaving, at every instant: no descriptor is lost or duplicated, and when
  // the driver is between recycles exactly eight entries separate what it made available from
  // what it recycled.
  lemma {:induction false} RunConservesDescriptors(run: seq<State>, k: nat)
    requires IsRun(run) && k < |run|
    ensures Inv(run[k]) && |run[k].avail| - run[k].recycled == QNUM
  {
    if k == 0 {
      StartInv();
    } else {
      RunConservesDescriptors(run, k - 1);
      NextInv(run[k - 1], run[k]);
    }
  }

  // No descriptor is in two available or used entries at once.
  lemma NoDuplicates(s: State, i: nat, j: nat)
    requires Inv(s) && i != j
    ensures s.consumed <= i < |s.avail| && s.consumed <= j < |s.avail| ==> s.avail[i] != s.avail[j]
    ensures FirstUsed(s) <= i < |s.used| && FirstUsed(s) <= j < |s.used| ==> s.used[i] != s.used[j]
    ensures s.consumed <= i < |s.avail| && FirstUsed(s) <= j < |s.used| ==> s.avail[i] != s.used[j]
  {
  }

  /* The rings: entry k of a history lies in slot k mod 8. */

  predicate RingHolds(ring: seq<U32>, log: seq<U32>, from: nat) {
    && |ring| == QNUM && from <= |log| <= from + QNUM
    && forall k :: from <= k < |log| ==> ring[k % QNUM] == log[k]
  }

  // Writing the next slot overwrites nothing that is still to be read.
  lemma AppendToRing(ring: seq<U32>, log: seq<U32>, from: nat, id: U32)
    requires RingHolds(ring, log, from) && |log| < from + QNUM
    ensures RingHolds(ring[|log| % QNUM := id], log + [id], from)
  {
    forall k | from <= k < |log| ensures k % QNUM != |log| % QNUM {
      DistinctSlots(k, |log|);
    }
  }

  lemma ReadFromRing(ring: seq<U32>, log: seq<U32>, from: nat)
    requires RingHolds(ring, log, from) && from < |log|
    ensures ring[from % QNUM] == log[from] && RingHolds(ring, log, from + 1)
  {
  }

  lemma DistinctSlots(a: nat, b: nat)
    requires a < b < a + QNUM
    ensures a % QNUM != b % QNUM
  {
  }

  function Wrap(n: nat): U16 {
    n % TWO16
  }

  function Next(i: U16): U16 {
    (i as int + 1) % TWO16
  }

  // `(u16)(a - b)`
  function Apart(a: U16, b: U16): U16 {
    (a as int - b as int) % TWO16
  }

  lemma NextWrap(n: nat)
    ensures Next(Wrap(n)) == Wrap(n + 1)
  {
  }

  lemma RemainderOfEights(m: nat, w: nat)
    ensures (8 * m + w) % 8 == w % 8
  {
  }

  // A 16-bit index still selects the right slot: 2^16 is a multiple of 8.
  lemma SlotOfWrapped(n: nat)
    ensures Wrap(n) % QNUM == n % QNUM
  {
    var m := n / TWO16 * 8192;
    assert n == 8 * m + Wrap(n);
    RemainderOfEights(m, Wrap(n));
  }

  // Comparing 16-bit indices at most eight apart compares the true counts.
  lemma WrappedDistance(a: nat, b: nat)
    requires a <= b <= a + QNUM
    ensures Wrap(a) == Wrap(b) <==> a == b
    ensures Apart(Wrap(b), Wrap(a)) == b - a
  {
  }

  // The available entries including the one whose slot is written but not yet counted.
  function Written(s: State): seq<U32> {
    if s.phase.SlotWritten? then s.avail + [s.current] else s.avail
  }

  datatype Desc = Desc(addr: nat, len: nat, write: bool)

  datatype DescField = Addr | Len | Flags

  function FreshDesc(id: nat): Desc {
    Desc(RX_BUFS + id * BUF_SZ, BUF_SZ, true)
  }

  // The contents of guest memory and of the driver's and the device's variables.
  datatype View = View(
    desc: seq<Desc>, availRing: seq<U32>, usedRing: seq<U32>, availIdx: U16, usedIdx: U16,
    rxAvailIdx: U16, lastUsed: U16, idx: U16, current: U32, devSeen: U16, held: set<U32>)

  // These contents stand for that protocol state.
  ghost predicate Stands(v: View, s: State) {
    && Inv(s)
    && RingHolds(v.availRing, Written(s), s.consumed)
    && RingHolds(v.usedRing, s.used, s.recycled)
    && v.availIdx == v.rxAvailIdx == Wrap(|s.avail|) && v.usedIdx == Wrap(|s.used|)
    && v.devSeen == Wrap(s.consumed) && v.idx == Wrap(s.seen) && v.lastUsed == Wrap(s.recycled)
    && v.held == s.held && v.current == s.current
    && |v.desc| == QNUM && forall i :: 0 <= i < QNUM ==> v.desc[i] == FreshDesc(i)
  }

  lemma ConsumeStands(v: View, s: State)
    requires Stands(v, s) && v.devSeen != v.availIdx
    ensures s.consumed < |s.avail|
    ensures var id := v.availRing[v.devSeen % QNUM];
            Stands(v.(held := v.held + {id}, devSeen := Next(v.devSeen)), Consume(s))
  {
    WrappedDistance(s.consumed, |s.avail|);
    ConsumeInv(s);
    ConsumedSlot(v.availRing, s, v.devSeen);
    ConsumedFields(s, v.devSeen, v.held);
    assert Consume(s).used == s.used && Consume(s).avail == s.avail && Consume(s).phase == s.phase;
  }

  // The device's own variables.
  lemma ConsumedFields(s: State, devSeen: U16, held: set<U32>)
    requires Inv(s) && s.consumed < |s.avail| && devSeen == Wrap(s.consumed) && held == s.held
    ensures Next(devSeen) == Wrap(Consume(s).consumed) && held + {s.avail[s.consumed]} == Consume(s).held
  {
    NextWrap(s.consumed);
  }

  // The rings: the slot at the 16-bit index holds the next available entry.
  lemma ConsumedSlot(ring: seq<U32>, s: State, devSeen: U16)
    requires Inv(s) && s.consumed < |s.avail| && RingHolds(ring, Written(s), s.consumed) && devSeen == Wrap(s.consumed)
    ensures ring[devSeen % QNUM] == s.avail[s.consumed]
    ensures RingHolds(ring, Written(Consume(s)), s.consumed + 1)
  {
    SlotOfWrapped(s.consumed);
    ReadFromRing(ring, Written(s), s.consumed);
    assert Written(s)[s.consumed] == s.avail[s.consumed];
  }

  lemma PublishStands(v: View, s: State, id: U32)
    requires Stands(v, s) && id in v.held
    ensures var ring := v.usedRing[v.usedIdx % QNUM := id];
            Stands(v.(usedRing := ring, usedIdx := Next(v.usedIdx), held := v.held - {id}), Publish(s, id))
  {
    PublishInv(s, id);
    PublishedSlot(v.usedRing, s, v.usedIdx, id);
    NextWrap(|s.used|);
    var s' := Publish(s, id);
    assert s'.avail == s.avail && s'.consumed == s.consumed && s'.recycled == s.recycled && s'.phase == s.phase;
    assert s'.seen == s.seen && s'.current == s.current && |s'.used| == |s.used| + 1;
  }

  lemma PublishedSlot(ring: seq<U32>, s: State, usedIdx: U16, id: U32)
    requires Inv(s) && id in s.held && RingHolds(ring, s.used, s.recycled) && usedIdx == Wrap(|s.used|)
    ensures RingHolds(ring[usedIdx % QNUM := id], Publish(s, id).used, s.recycled)
  {
    SlotOfWrapped(|s.used|);
    AppendToRing(ring, s.used, s.recycled, id);
  }

  lemma ReadIdxStands(v: View, s: State)
    requires Stands(v, s) && s.phase.Idle?
    ensures Stands(v.(idx := v.usedIdx), ReadUsedIdx(s))
  {
  }

  lemma TakeStands(v: View, s: State)
    requires Stands(v, s) && s.phase.Idle? && s.recycled < s.seen
    ensures var id := v.usedRing[v.lastUsed % QNUM];
            id < QNUM && Stands(v.(current := id), Take(s))
  {
    SlotOfWrapped(s.recycled);
    TakeInv(s);
  }

  // What the device has yet to consume stays.
  lemma WriteSlotStands(v: View, s: State)
    requires Stands(v, s) && s.phase.Taken?
    ensures Stands(v.(availRing := v.availRing[v.rxAvailIdx % QNUM := v.current]), WriteSlot(s))
  {
    SlotOfWrapped(|s.avail|);
    AppendToRing(v.availRing, s.avail, s.consumed, s.current);
  }

  lemma PublishSlotStands(v: View, s: State, v': View)
    requires Stands(v, s) && s.phase.SlotWritten?
    requires var next := Next(v.rxAvailIdx);
             v' == v.(rxAvailIdx := next, availIdx := next, lastUsed := Next(v.lastUsed))
    ensures Stands(v', PublishSlot(s)) && Apart(v'.rxAvailIdx, v'.lastUsed) == QNUM
  {
    NextWrap(|s.avail|);
    NextWrap(s.recycled);
    PublishSlotInv(s);
    WrappedDistance(s.recycled + 1, |s.avail| + 1);
  }

  // The eight buffers follow one another from 0x41_0000, 2048 bytes each, for the device to write.
  lemma BuffersAreDisjoint(v: View, s: State, i: nat, j: nat)
    requires Stands(v, s) && i < 8 && j < 8
    ensures v.desc[i].addr == 0x41_0000 + 2048 * i && v.desc[i].len == 2048 && v.desc[i].write
    ensures i < j ==> v.desc[i].addr + v.desc[i].len <= v.desc[j].addr
  {
  }

  class RxQueue {
    // shared with the device
    const desc: array<Desc>
    const availRing: array<U32>
    const usedRing: array<U32>
    var availIdx: U16
    var usedIdx: U16
    // the driver's
    var rxAvailIdx: U16
    var lastUsed: U16
    var idx: U16          // its last reading of usedIdx
    var current: U32
    // the device's
    var devSeen: U16
    var held: set<U32>
    // the protocol state these fields stand for
    ghost var s: State

    ghost function Contents(): View
      reads this, desc, availRing, usedRing
    {
      View(desc[..], availRing[..], usedRing[..], availIdx, usedIdx, rxAvailIdx, lastUsed, idx, current, devSeen, held)
    }

    ghost predicate Valid()
      reads this, desc, availRing, usedRing
    {
      availRing != usedRing && Stands(Contents(), s)
    }

    // zmem and rx_replenish
    constructor ()
      ensures Valid() && fresh(desc) && fresh(availRing) && fresh(usedRing)
      ensures s == Start()
    {
      desc := new Desc[QNUM](i requires 0 <= i => FreshDesc(i));
      availRing := new U32[QNUM](i requires 0 <= i < QNUM => i);
      usedRing := new U32[QNUM](_ => 0);
      availIdx, rxAvailIdx := 8, 8;
      usedIdx, lastUsed, idx, devSeen := 0, 0, 0, 0;
      current, held := 0, {};
      s := Start();
      new;
      StartStands(Contents());
    }

    method DeviceConsume()
      requires Valid() && devSeen != availIdx
      modifies this
      ensures Valid() && old(s).consumed < |old(s).avail| && s == Consume(old(s))
    {
      ConsumeStands(Contents(), s);
      var id := availRing[devSeen % QNUM];
      held := held + {id};
      devSeen := Next(devSeen);
      s := Consume(s);
      assert Contents() == old(Contents()).(held := held, devSeen := devSeen);
    }

    method DevicePublish(id: U32)
      requires Valid() && id in held
      modifies this, usedRing
      ensures Valid() && id in old(s).held && s == Publish(old(s), id)
    {
      PublishStands(Contents(), s, id);
      usedRing[usedIdx % QNUM] := id;
      usedIdx := Next(usedIdx);
      held := held - {id};
      s := Publish(s, id);
      assert usedRing[..] == old(usedRing[..])[old(usedIdx) % QNUM := id];
      assert Contents() == old(Contents()).(usedRing := usedRing[..], usedIdx := usedIdx, held := held);
    }

    // `u16 idx = ru->idx;`
    method DriverReadIdx()
      requires Valid() && s.phase.Idle?
      modifies this
      ensures Valid() && s == ReadUsedIdx(old(s))
    {
      ReadIdxStands(Contents(), s);
      idx := usedIdx;
      s := ReadUsedIdx(s);
      assert Contents() == old(Contents()).(idx := usedIdx);
    }

    // `while (last_used != idx)`
    method MoreToTake() returns (more: bool)
      requires Valid()
      ensures more <==> s.recycled < s.seen
    {
      WrappedDistance(s.recycled, s.seen);
      more := lastUsed != idx;
    }

    // `struct used_elem e = ru->ring[last_used % QNUM];`
    method DriverTake()
      requires Valid() && s.phase.Idle? && s.recycled < s.seen
      modifies this
      ensures Valid() && s == Take(old(s))
    {
      TakeStands(Contents(), s);
      current := usedRing[lastUsed % QNUM];
      s := Take(s);
      assert Contents() == old(Contents()).(current := current);
    }

    // One of the three stores that reset the descriptor in the driver's hand.
    method DriverResetField(field: DescField)
      requires Valid() && s.phase.Taken?
      modifies desc
      ensures Valid() && s == old(s) && desc[..] == old(desc[..])
    {
      ghost var before := desc[..];
      desc[current] := match field
        case Addr => desc[current].(addr := RX_BUFS + current * BUF_SZ)
        case Len => desc[current].(len := BUF_SZ)
        case Flags => desc[current].(write := true);
      assert desc[..] == before[current := FreshDesc(current)] == before;
      assert Contents() == old(Contents());
    }

    // `av->ring[rx_avail_idx % QNUM] = e.id;` What the device has yet to consume stays.
    method DriverWriteSlot()
      requires Valid() && s.phase.Taken?
      modifies this, availRing
      ensures Valid() && s == WriteSlot(old(s))
    {
      WriteSlotStands(Contents(), s);
      availRing[rxAvailIdx % QNUM] := current;
      s := WriteSlot(s);
      assert availRing[..] == old(availRing[..])[rxAvailIdx % QNUM := current];
      assert Contents() == old(Contents()).(availRing := availRing[..]);
    }

    // `rx_avail_idx++; av->idx = rx_avail_idx; last_used++;`
    method DriverPublishSlot()
      requires Valid() && s.phase.SlotWritten?
      modifies this
      ensures Valid() && s == PublishSlot(old(s))
      ensures Apart(rxAvailIdx, lastUsed) == QNUM
    {
      rxAvailIdx := Next(rxAvailIdx);
      availIdx := rxAvailIdx;
      lastUsed := Next(lastUsed);
      s := PublishSlot(s);
      PublishSlotStands(old(Contents()), old(s), Contents());
    }
  }

  lemma StartStands(v: View)
    requires |v.desc| == QNUM && forall i :: 0 <= i < QNUM ==> v.desc[i] == FreshDesc(i)
    requires v.availRing == [0, 1, 2, 3, 4, 5, 6, 7] && |v.usedRing| == QNUM
    requires v.availIdx == v.rxAvailIdx == 8 && v.usedIdx == v.lastUsed == v.idx == v.devSeen == 0
    requires v.current == 0 && v.held == {}
    ensures Stands(v, Start())
  {
    StartInv();
    FirstRing(v.availRing);
  }

  lemma FirstRing(ring: seq<U32>)
    requires ring == [0, 1, 2, 3, 4, 5, 6, 7]
    ensures RingHolds(ring, Start().avail, 0)
  {
    assert Start().avail == ring;
    assert forall k :: 0 <= k < 8 ==> k % QNUM == k;
  }
}
