/**
 The packet cache as a value: a ring of slots addressed by wrapping sixteen-bit numbers
 counted back from the newest one, and what it promises over whole runs, compared with a
 map from true, unbounded numbers to packets.
 */
module PacketRing {
  import opened Words

  type Packet = seq<uint8>

  /** A packet fits a slot and carries its own number in bytes two and three. */
  predicate Cacheable(p: Packet) { 4 <= |p| <= 1458 }

  function OwnNumber(p: Packet): uint16
    requires Cacheable(p)
  {
    U16At(p, 2)
  }

  /** What each slot holds, where the next in-order packet goes, and the newest number. */
  datatype Ring = Ring(init: bool, headSN: uint16, step: nat, slots: seq<Option<Packet>>)

  predicate WellFormed(r: Ring) {
    && 1 <= |r.slots| <= 65534 && r.step < |r.slots|
    && forall i :: 0 <= i < |r.slots| ==> r.slots[i].Some? ==> Cacheable(r.slots[i].value)
  }

  /** The first packet ever makes the number before it the newest. */
  function Started(r: Ring, sn: uint16): Ring {
    if r.init then r else r.(headSN := Wrap16(sn - 1), init := true)
  }

  /** Moving the write position past k slots. */
  function Skipped(r: Ring, k: nat): Ring
    requires |r.slots| > 0
  {
    r.(step := (r.step + k) % |r.slots|)
  }

  function Stored(r: Ring, p: Packet): Ring
    requires r.step < |r.slots|
  {
    r.(slots := r.slots[r.step := Some(p)], step := (r.step + 1) % |r.slots|)
  }

  function Gap(r: Ring, sn: uint16): nat { Wrap16(sn - r.headSN) }

  /** An in-order packet: the numbers it skips keep their slots. */
  function AddLatest(r: Ring, p: Packet, sn: uint16): Ring
    requires |r.slots| > 0
  {
    var skipped := if Gap(r, sn) == 0 then 0 else Gap(r, sn) - 1;
    Stored(Skipped(r.(headSN := sn), skipped), p)
  }

  /** The slot of a late packet: none when it is too old, or would lie before the buffer. */
  function LateSlot(r: Ring, sn: uint16): Option<nat>
    requires r.step < |r.slots|
  {
    var d := Wrap16(r.headSN - sn);
    if d >= |r.slots| + 1 then None
    else
      var pos := r.step - Wrap16(d + 1);
      if pos >= 0 then Some(pos)
      else if pos + |r.slots| >= 0 then Some(pos + |r.slots|)
      else None
  }

  function AddLate(r: Ring, p: Packet, sn: uint16): Ring
    requires r.step < |r.slots|
  {
    match LateSlot(r, sn)
    case Some(pos) => r.(slots := r.slots[pos := Some(p)])
    case None => r
  }

  function AddPacket(r: Ring, p: Packet, sn: uint16, latest: bool): Ring
    requires r.step < |r.slots|
  {
    if latest then AddLatest(Started(r, sn), p, sn) else AddLate(Started(r, sn), p, sn)
  }

  /** The slot a lookup reads. */
  function LookupSlot(r: Ring, sn: uint16): Option<nat>
    requires WellFormed(r)
  {
    var pos := r.step - Wrap16(r.headSN - sn + 1);
    if pos >= 0 then Some(pos)
    else if -pos > |r.slots| then None
    else Some(pos + |r.slots|)
  }

  /** A slot that was never written reads as an empty packet numbered zero. */
  function ReadAs(slot: Option<Packet>, sn: uint16): Option<Packet>
    requires slot.Some? ==> Cacheable(slot.value)
  {
    match slot
    case None => if sn == 0 then Some([]) else None
    case Some(p) => if OwnNumber(p) == sn then Some(p) else None
  }

  function Get(r: Ring, sn: uint16): Option<Packet>
    requires WellFormed(r)
  {
    match LookupSlot(r, sn)
    case None => None
    case Some(pos) => ReadAs(r.slots[pos], sn)
  }

  // ---------------------------------------------------------------- the map

  /** One call: the packet's true number, its bytes, and whether it is the newest. */
  datatype Add = Add(number: nat, packet: Packet, latest: bool)

  /**
   The newest number, every packet last added under its number, which number each slot
   was last written for, and the rotation that ties numbers to slots.
   */
  datatype Model = Model(head: int, cache: map<int, Packet>, owner: seq<Option<int>>, origin: int)

  function SlotOf(m: Model, u: int): nat
    requires |m.owner| > 0
  {
    (m.origin + u) % |m.owner|
  }

  /** Calls the ring is meant for: in order by less than a cycle, or late by less than the ring. */
  predicate Proper(m: Model, a: Add) {
    && Cacheable(a.packet) && OwnNumber(a.packet) == Wrap16(a.number)
    && if a.latest then m.head < a.number < m.head + 0x1_0000
       else m.head - |m.owner| < a.number <= m.head
  }

  function Follow(m: Model, a: Add): Model
    requires |m.owner| > 0
  {
    Model(if a.latest then a.number else m.head,
          m.cache[a.number as int := a.packet],
          m.owner[SlotOf(m, a.number) := Some(a.number as int)],
          m.origin)
  }

  predicate Agrees(r: Ring, m: Model) {
    && Stores(r, m)
    && r.init && r.headSN == Wrap16(m.head) && r.step == SlotOf(m, m.head + 1)
  }

  /** What the slots and the map say of each other, apart from the write position. */
  predicate Stores(r: Ring, m: Model) {
    && WellFormed(r) && |m.owner| == |r.slots|
    && (forall u :: u in m.cache ==> u <= m.head)
    && (forall s :: 0 <= s < |m.owner| ==> OwnerAgrees(r, m, s))
    && (forall u :: u in m.cache && m.head - |m.owner| < u <= m.head ==> m.owner[SlotOf(m, u)] == Some(u))
  }

  predicate OwnerAgrees(r: Ring, m: Model, s: nat)
    requires s < |m.owner| && |m.owner| == |r.slots|
  {
    match m.owner[s]
    case None => r.slots[s] == None
    case Some(u) =>
      && u <= m.head && SlotOf(m, u) == s
      && u in m.cache && r.slots[s] == Some(m.cache[u])
      && Cacheable(m.cache[u]) && OwnNumber(m.cache[u]) == Wrap16(u)
  }

  lemma {:induction false} Multiples(n: int, k: int)
    requires n > 0
    ensures k >= 1 ==> n * k >= n
    ensures k <= -1 ==> n * k <= -n
  {
    if k >= 1 {
      assert n * k == n + n * (k - 1);
    } else if k <= -1 {
      assert n * k == -n + n * (k + 1);
    }
  }

  lemma {:induction false} ModUnique(x: int, q: int, r: int, n: int)
    requires n > 0 && x == n * q + r && 0 <= r < n
    ensures x % n == r
  {
    var q', r' := x / n, x % n;
    assert x == n * q' + r';
    assert n * (q - q') == n * q - n * q';
    Multiples(n, q - q');
  }

  lemma {:induction false} ModAdd(a: int, b: int, n: int)
    requires n > 0
    ensures (a % n + b) % n == (a + b) % n
  {
    var q, x := a / n, a % n + b;
    var k, r := x / n, x % n;
    assert a == n * q + a % n && x == n * k + r;
    assert n * (q + k) == n * q + n * k;
    ModUnique(a + b, q + k, r, n);
  }

  lemma {:induction false} ResiduesDiffer(a: int, b: int, n: int)
    requires n > 0 && a < b < a + n
    ensures a % n != b % n
  {
    var k := b / n - a / n;
    assert a == n * (a / n) + a % n && b == n * (b / n) + b % n;
    assert n * k == n * (b / n) - n * (a / n);
    Multiples(n, k);
  }

  /** Numbers less than a ring apart have different slots. */
  lemma {:induction false} SlotsDiffer(m: Model, u: int, v: int)
    requires |m.owner| > 0 && u < v < u + |m.owner|
    ensures SlotOf(m, u) != SlotOf(m, v)
  {
    ResiduesDiffer(m.origin + u, m.origin + v, |m.owner|);
  }

  lemma {:induction false} BackFrom(x: int, d: nat, n: int)
    requires n > 0 && d < n
    ensures var pos := (x + 1) % n - (d + 1);
            (x - d) % n == if pos >= 0 then pos else pos + n
  {
    var s := (x + 1) % n;
    var pos := s - (d + 1);
    ModAdd(x + 1, -(d + 1), n);
    if pos >= 0 {
      ModUnique(pos, 0, pos, n);
    } else {
      ModUnique(pos, -1, pos + n, n);
    }
  }

  lemma {:induction false} Distance(head: int, u: int)
    requires 0 <= head - u < 65534
    ensures Wrap16(Wrap16(head) - Wrap16(u)) == head - u
    ensures Wrap16(Wrap16(head) - Wrap16(u) + 1) == head - u + 1
    ensures Wrap16(head - u + 1) == head - u + 1
  {
  }

  /** A number back from the newest by less than a ring is looked up in its own slot. */
  lemma {:induction false} LookupOwnSlot(r: Ring, m: Model, u: int)
    requires WellFormed(r) && Placed(r, m) && m.head - |m.owner| < u <= m.head
    ensures LookupSlot(r, Wrap16(u)) == Some(SlotOf(m, u))
    ensures LateSlot(r, Wrap16(u)) == Some(SlotOf(m, u))
  {
    hide SlotOf, Wrap16;
    Distance(m.head, u);
    SlotBack(m, m.head, m.head - u);
  }

  lemma {:induction false} SlotBack(m: Model, head: int, d: nat)
    requires d < |m.owner|
    ensures var pos := SlotOf(m, head + 1) - (d + 1);
            SlotOf(m, head - d) == if pos >= 0 then pos else pos + |m.owner|
  {
    BackFrom(m.origin + head, d, |m.owner|);
  }

  // ---------------------------------------------------------------- every call keeps the agreement

  lemma {:induction false} LateKeeps(r: Ring, m: Model, a: Add)
    requires Agrees(r, m) && Proper(m, a) && !a.latest
    ensures Agrees(AddPacket(r, a.packet, Wrap16(a.number), false), Follow(m, a))
  {
    LookupOwnSlot(r, m, a.number);
    StoreKeeps(r, m, a.number, a.packet);
  }

  /** Writing a packet into its own slot, once the head is at least its number. */
  lemma {:induction false} StoreKeeps(r: Ring, m: Model, n: int, p: Packet)
    requires Stores(r, m) && Cacheable(p) && OwnNumber(p) == Wrap16(n)
    requires m.head - |m.owner| < n <= m.head
    ensures Stores(r.(slots := r.slots[SlotOf(m, n) := Some(p)]),
                   m.(cache := m.cache[n := p], owner := m.owner[SlotOf(m, n) := Some(n)]))
  {
    var pos := SlotOf(m, n);
    var r', m' := r.(slots := r.slots[pos := Some(p)]), m.(cache := m.cache[n := p], owner := m.owner[pos := Some(n)]);
    forall s | 0 <= s < |m'.owner| ensures OwnerAgrees(r', m', s) {
      assert OwnerAgrees(r, m, s);
    }
    forall u | u in m'.cache && m'.head - |m'.owner| < u <= m'.head ensures m'.owner[SlotOf(m', u)] == Some(u) {
      assert SlotOf(m', u) == SlotOf(m, u);
      if u < n {
        SlotsDiffer(m, u, n);
      } else if u > n {
        SlotsDiffer(m, n, u);
      }
    }
  }

  lemma {:induction false} SkipTo(x: int, k: nat, n: int)
    requires n > 0
    ensures ((x + 1) % n + k) % n == (x + k + 1) % n
    ensures ((x + k + 1) % n + 1) % n == (x + k + 2) % n
  {
    ModAdd(x + 1, k, n);
    ModAdd(x + k + 1, 1, n);
  }

  lemma {:induction false} GapForward(head: int, n: int)
    requires head < n < head + 0x1_0000
    ensures Wrap16(Wrap16(n) - Wrap16(head)) == n - head
  {
  }

  lemma {:induction false} StoredAt(r: Ring, k: nat, p: Packet, here: nat, next: nat)
    requires |r.slots| > 0 && here < |r.slots|
    requires (r.step + k) % |r.slots| == here && (here + 1) % |r.slots| == next
    ensures Stored(Skipped(r, k), p) == r.(slots := r.slots[here := Some(p)], step := next)
  {
  }

  /** The newest number and the write position are the model's. */
  predicate Placed(r: Ring, m: Model) {
    r.init && r.headSN == Wrap16(m.head) && 0 < |m.owner| == |r.slots| && r.step == SlotOf(m, m.head + 1)
  }

  /** Where an in-order packet goes, and where the next one will. */
  lemma {:induction false} LatestPlaces(r: Ring, m: Model, p: Packet, n: int)
    requires Placed(r, m) && m.head < n < m.head + 0x1_0000
    ensures AddLatest(r, p, Wrap16(n)) ==
            Ring(true, Wrap16(n), SlotOf(m, n + 1), r.slots[SlotOf(m, n) := Some(p)])
  {
    hide Stored, Skipped, SlotOf;
    var k: nat := n - m.head - 1;
    GapForward(m.head, n);
    SlotAhead(m, m.head, k);
    StoredAt(r.(headSN := Wrap16(n)), k, p, SlotOf(m, n), SlotOf(m, n + 1));
  }

  lemma {:induction false} SlotAhead(m: Model, head: int, k: nat)
    requires |m.owner| > 0
    ensures (SlotOf(m, head + 1) + k) % |m.owner| == SlotOf(m, head + 1 + k)
    ensures (SlotOf(m, head + 1 + k) + 1) % |m.owner| == SlotOf(m, head + 2 + k)
  {
    SkipTo(m.origin + head, k, |m.owner|);
  }

  lemma {:induction false} LatestKeeps(r: Ring, m: Model, a: Add)
    requires Agrees(r, m) && Proper(m, a) && a.latest
    ensures Agrees(AddPacket(r, a.packet, Wrap16(a.number), true), Follow(m, a))
  {
    var n: int, p := a.number, a.packet;
    LatestPlaces(r, m, p, n);
    var r1, m1 := Ring(true, Wrap16(n), SlotOf(m, n + 1), r.slots), m.(head := n);
    NewHeadStores(r, r1, m, n);
    StoreKeeps(r1, m1, n, p);
  }

  /** Raising the head only narrows what is promised, and its own number is not cached yet. */
  lemma {:induction false} NewHeadStores(r: Ring, r1: Ring, m: Model, head: int)
    requires Stores(r, m) && head > m.head && r1.slots == r.slots && WellFormed(r1)
    ensures Stores(r1, m.(head := head))
  {
    var m1 := m.(head := head);
    forall s | 0 <= s < |m1.owner| ensures OwnerAgrees(r1, m1, s) {
      assert OwnerAgrees(r, m, s);
    }
  }

  // ---------------------------------------------------------------- whole runs

  function EmptyRing(maxSteps: nat): Ring {
    Ring(false, 0, 0, seq(maxSteps, _ => None))
  }

  function AddAll(r: Ring, adds: seq<Add>): Ring
    requires r.step < |r.slots|
    ensures |AddAll(r, adds).slots| == |r.slots| && AddAll(r, adds).step < |r.slots|
  {
    if adds == [] then r
    else
      var front, a := adds[..|adds| - 1], adds[|adds| - 1];
      AddPacket(AddAll(r, front), a.packet, Wrap16(a.number), a.latest)
  }

  /** The map and the newest number after a run that starts with the packet `first`. */
  function Followed(maxSteps: nat, first: nat, adds: seq<Add>): (m: Model)
    requires maxSteps > 0
    ensures |m.owner| == maxSteps
  {
    if adds == [] then Model(first as int - 1, map[], seq(maxSteps, _ => None), -(first as int))
    else Follow(Followed(maxSteps, first, adds[..|adds| - 1]), adds[|adds| - 1])
  }

  predicate ProperRun(maxSteps: nat, first: nat, adds: seq<Add>)
    requires maxSteps > 0
  {
    adds == [] ||
    (&& ProperRun(maxSteps, first, adds[..|adds| - 1])
     && Proper(Followed(maxSteps, first, adds[..|adds| - 1]), adds[|adds| - 1])
     && (|adds| == 1 ==> adds[0].latest && adds[0].number == first))
  }

  lemma {:induction false} FirstAgrees(maxSteps: nat, first: nat)
    requires 1 <= maxSteps <= 65534
    ensures Agrees(Started(EmptyRing(maxSteps), Wrap16(first)), Followed(maxSteps, first, []))
  {
    hide Wrap16, OwnNumber;
    ModUnique(0, 0, 0, maxSteps);
    var m := Followed(maxSteps, first, []);
    NothingCached(maxSteps, first);
    hide Followed;
    assert forall s :: 0 <= s < maxSteps ==> OwnerAgrees(Started(EmptyRing(maxSteps), Wrap16(first)), m, s);
    FirstHead(first);
  }

  lemma {:induction false} NothingCached(maxSteps: nat, first: nat)
    requires maxSteps > 0
    ensures var m := Followed(maxSteps, first, []);
            && m.head == first as int - 1 && m.cache == map[] && m.origin == -(first as int)
            && |m.owner| == maxSteps && forall s :: 0 <= s < maxSteps ==> m.owner[s] == None
  {
  }

  lemma {:induction false} FirstHead(first: nat)
    ensures Wrap16(Wrap16(first) - 1) == Wrap16(first - 1)
  {
  }

  /** Over every proper run the ring agrees with the map. */
  lemma {:induction false} RunAgrees(maxSteps: nat, first: nat, adds: seq<Add>)
    requires 1 <= maxSteps <= 65534 && adds != [] && ProperRun(maxSteps, first, adds)
    ensures Agrees(AddAll(EmptyRing(maxSteps), adds), Followed(maxSteps, first, adds))
  {
    var front, a := adds[..|adds| - 1], adds[|adds| - 1];
    if front == [] {
      FirstAgrees(maxSteps, first);
      LatestKeeps(Started(EmptyRing(maxSteps), Wrap16(first)), Followed(maxSteps, first, []), a);
    } else {
      RunAgrees(maxSteps, first, front);
      var r, m := AddAll(EmptyRing(maxSteps), front), Followed(maxSteps, first, front);
      if a.latest {
        LatestKeeps(r, m, a);
      } else {
        LateKeeps(r, m, a);
      }
    }
  }

  /** What a lookup of a number in the window returns, cached or not. */
  lemma {:induction false} GetInWindow(r: Ring, m: Model, u: int)
    requires Agrees(r, m) && m.head - |m.owner| < u <= m.head
    ensures u in m.cache ==> Get(r, Wrap16(u)) == Some(m.cache[u])
    ensures u !in m.cache ==>
              (Get(r, Wrap16(u)) == None <==>
               match m.owner[SlotOf(m, u)]
               case None => Wrap16(u) != 0
               case Some(v) => Wrap16(v) != Wrap16(u))
  {
    LookupOwnSlot(r, m, u);
    assert OwnerAgrees(r, m, SlotOf(m, u));
  }

  lemma {:induction false} SkippedNotFound(r: Ring, m: Model, u: int)
    requires Agrees(r, m) && m.head - |m.owner| < u <= m.head && u !in m.cache
    requires m.owner[SlotOf(m, u)].Some? && u - m.owner[SlotOf(m, u)].value < 0x1_0000
    ensures Get(r, Wrap16(u)) == None
  {
    hide Get, Wrap16;
    var v := m.owner[SlotOf(m, u)].value;
    assert OwnerAgrees(r, m, SlotOf(m, u));
    GetInWindow(r, m, u);
    OwnerOlder(r, m, u, v);
    LowBitsDiffer(v, u);
  }

  lemma {:induction false} LowBitsDiffer(v: int, u: int)
    requires v < u < v + 0x1_0000
    ensures Wrap16(v) != Wrap16(u)
  {
  }

  /**
   The ring refines the map: after any proper run, across wraps and jumps of any length
   below a cycle, a number among the last maxSteps is found exactly as last added, and
   one that was skipped is not found while its slot's last write is under 65536 numbers old.
   */
  lemma {:induction false} RingRefinesMap(maxSteps: nat, first: nat, adds: seq<Add>, u: int)
    requires 1 <= maxSteps <= 65534 && adds != [] && ProperRun(maxSteps, first, adds)
    requires Followed(maxSteps, first, adds).head - maxSteps < u <= Followed(maxSteps, first, adds).head
    ensures WellFormed(AddAll(EmptyRing(maxSteps), adds))
    ensures var r, m := AddAll(EmptyRing(maxSteps), adds), Followed(maxSteps, first, adds);
            && (u in m.cache ==> Get(r, Wrap16(u)) == Some(m.cache[u]))
            && (u !in m.cache && m.owner[SlotOf(m, u)].Some? && u - m.owner[SlotOf(m, u)].value < 0x1_0000 ==>
                Get(r, Wrap16(u)) == None)
  {
    RunAgrees(maxSteps, first, adds);
    RefinesIn(AddAll(EmptyRing(maxSteps), adds), Followed(maxSteps, first, adds), u);
  }

  lemma {:induction false} RefinesIn(r: Ring, m: Model, u: int)
    requires Agrees(r, m) && m.head - |m.owner| < u <= m.head
    ensures u in m.cache ==> Get(r, Wrap16(u)) == Some(m.cache[u])
    ensures u !in m.cache && m.owner[SlotOf(m, u)].Some? && u - m.owner[SlotOf(m, u)].value < 0x1_0000 ==>
              Get(r, Wrap16(u)) == None
  {
    GetInWindow(r, m, u);
    if u !in m.cache && m.owner[SlotOf(m, u)].Some? && u - m.owner[SlotOf(m, u)].value < 0x1_0000 {
      SkippedNotFound(r, m, u);
    }
  }

  /** A slot's owner other than the number that maps to it lies before the window. */
  lemma {:induction false} OwnerOlder(r: Ring, m: Model, u: int, v: int)
    requires Agrees(r, m) && m.head - |m.owner| < u <= m.head
    requires m.owner[SlotOf(m, u)] == Some(v) && u != v
    ensures v < u
  {
    assert OwnerAgrees(r, m, SlotOf(m, u));
    if v > u {
      SlotsDiffer(m, u, v);
      assert false;
    }
  }

  // ---------------------------------------------------------------- where the ring departs from the map

  lemma {:induction false} Behind(head: uint16, sn: uint16)
    requires sn != head
    ensures Wrap16(head - head + 1) == 1
    ensures var d := Wrap16(head - sn);
            d > 0 && (d < 0xffff ==> Wrap16(d + 1) == d + 1)
  {
  }

  /**
   A late packet is refused exactly when it is more slots behind the newest than there are,
   or just as many while the write position is zero; then nothing changes.
   */
  lemma {:induction false} LateRefused(r: Ring, p: Packet, sn: uint16)
    requires WellFormed(r)
    ensures var d := Wrap16(r.headSN - sn);
            LateSlot(r, sn) == None <==> d > |r.slots| || (d == |r.slots| && r.step == 0)
    ensures LateSlot(r, sn) == None ==> AddLate(r, p, sn) == r
  {
    var d: int := Wrap16(r.headSN - sn);
    assert d < |r.slots| + 1 ==> Wrap16(d + 1) == d + 1;
  }

  /**
   A late packet exactly maxSteps behind is let in and lands on the newest packet's slot:
   a lookup of the newest number survives a late add of a different number unless the
   distance is exactly that and the write position is not at the start of the buffer.
   */
  lemma {:induction false} LateAtTheLimit(r: Ring, p: Packet, sn: uint16)
    requires WellFormed(r) && r.init && sn != r.headSN
    requires Cacheable(p) && OwnNumber(p) == sn
    requires Get(r, r.headSN).Some? && Get(r, r.headSN).value != []
    ensures Get(AddPacket(r, p, sn, false), r.headSN) == Get(r, r.headSN)
            <==> !(Wrap16(r.headSN - sn) == |r.slots| && r.step > 0)
  {
    var head := if r.step >= 1 then r.step - 1 else |r.slots| - 1;
    Behind(r.headSN, sn);
    hide Wrap16;
    assert LookupSlot(r, r.headSN) == Some(head);
  }

  /** The number after sn is one place nearer to the head. */
  lemma {:induction false} StepBack(head: uint16, sn: uint16)
    requires 0 < Wrap16(head - sn) < 0xffff
    ensures Wrap16(head - Wrap16(sn + 1)) == Wrap16(head - sn) - 1
    ensures Wrap16(head - Wrap16(sn + 1) + 1) == Wrap16(head - sn)
    ensures Wrap16(head - sn + 1) == Wrap16(head - sn) + 1
  {
    if head > sn {
      assert Wrap16(sn + 1) == sn + 1 && Wrap16(head - sn) == head - sn;
    } else {
      assert Wrap16(head - sn) == head - sn + 0x1_0000;
      assert Wrap16(sn + 1) == if sn == 0xffff then 0 else sn + 1;
    }
  }

  /**
   A repeat of the newest packet moves the write position but not the newest number, so
   every older number is then looked up one slot too far.
   */
  lemma {:induction false} RepeatedHeadShifts(r: Ring, p: Packet, sn: uint16)
    requires WellFormed(r) && r.init && Cacheable(p)
    requires 0 < Wrap16(r.headSN - sn) < |r.slots|
    ensures var r' := AddPacket(r, p, r.headSN, true);
            && WellFormed(r') && r'.headSN == r.headSN && r'.slots == r.slots[r.step := Some(p)]
            && LookupSlot(r', sn) == LookupSlot(r, Wrap16(sn + 1))
  {
    var n := |r.slots|;
    StepBack(r.headSN, sn);
    hide Wrap16;
    ModUnique(r.step, 0, r.step, n);
    if r.step + 1 == n {
      ModUnique(r.step + 1, 1, 0, n);
    } else {
      ModUnique(r.step + 1, 0, r.step + 1, n);
    }
  }

  /**
   What a reader sees of it: every older packet is missed although it is cached, as long
   as the slot after its own holds another number of the last 65536, or, never written,
   is not taken for the number zero.
   */
  lemma {:induction false} RepeatedHeadLoses(r: Ring, m: Model, p: Packet, u: int)
    requires Agrees(r, m) && Cacheable(p) && m.head - |m.owner| < u < m.head
    requires match m.owner[SlotOf(m, u + 1)]
             case None => Wrap16(u) != 0
             case Some(v) => u - v < 0x1_0000
    ensures WellFormed(AddPacket(r, p, r.headSN, true))
    ensures u in m.cache ==> Get(r, Wrap16(u)) == Some(m.cache[u])
    ensures Get(AddPacket(r, p, r.headSN, true), Wrap16(u)) == None
  {
    hide AddPacket, SlotOf, Wrap16, LookupSlot;
    GetInWindow(r, m, u);
    Distance(m.head, u);
    RepeatedHeadShifts(r, p, Wrap16(u));
    NextLow(u);
    LookupOwnSlot(r, m, u + 1);
    SlotsDiffer(m, u, u + 1);
    SlotsDiffer(m, u + 1, m.head + 1);
    var s := SlotOf(m, u + 1);
    assert OwnerAgrees(r, m, s);
    if m.owner[s].Some? {
      var v := m.owner[s].value;
      if v > u + 1 {
        SlotsDiffer(m, u + 1, v);
        assert false;
      } else if v == u + 1 {
        LowBitsDiffer(u, v);
      } else {
        LowBitsDiffer(v, u);
      }
    }
  }

  lemma {:induction false} NextLow(u: int)
    ensures Wrap16(Wrap16(u) + 1) == Wrap16(u + 1)
  {
  }
}
