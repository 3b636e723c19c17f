/** The receive-packet-steering tables VSE writes: one flow table per receive queue of every device,
    and the socket flow table they share. Specification over values. */
module Rps {
  import opened Wrappers

  /** A hash table of CPU numbers; the kernel rounds sizes up to a power of two and keeps the mask. */
  datatype CpuTable = CpuTable(mask: bv32, ents: seq<bv16>)

  predicate PowerMask(mask: bv32) { mask & (mask + 1) == 0 }

  predicate ValidTable(t: CpuTable) {
    PowerMask(t.mask) && |t.ents| == t.mask as nat + 1
  }

  function Slot(mask: bv32, irq: bv8): nat { (irq as bv32 & mask) as nat }

  /** Masked indices are in range. */
  lemma {:induction false} SlotInRange(mask: bv32, irq: bv8)
    ensures Slot(mask, irq) <= mask as nat
  {
    assert irq as bv32 & mask <= mask;
  }

  /** Masking by 2^k - 1 is the remainder modulo 2^k. */
  lemma {:induction false} SlotIsRemainder(mask: bv32, irq: bv8)
    requires PowerMask(mask)
    ensures Slot(mask, irq) == irq as nat % (mask as nat + 1)
  {
    if mask >= 255 {
      LargeTable(mask, irq);
      SmallDividend(irq as nat, mask as nat + 1);
    } else {
      MaskCases(mask);
      SmallTable(mask, irq);
    }
  }

  lemma {:induction false} LargeTable(mask: bv32, irq: bv8)
    requires PowerMask(mask) && mask >= 255
    ensures mask as nat >= 255 && Slot(mask, irq) == irq as nat
  {
    WholeByte(mask, irq);
  }

  lemma {:induction false} SmallDividend(a: nat, n: nat)
    requires a < n
    ensures a % n == a
  {
  }

  lemma {:induction false} MaskCases(mask: bv32)
    requires PowerMask(mask) && mask < 255
    ensures mask == 0 || mask == 1 || mask == 3 || mask == 7 || mask == 15 || mask == 31 || mask == 63 || mask == 127
  {
  }

  lemma {:induction false} WholeByte(mask: bv32, irq: bv8)
    requires PowerMask(mask) && mask >= 255
    ensures irq as bv32 & mask == irq as bv32
  {
  }

  lemma {:induction false} SmallTable(mask: bv32, irq: bv8)
    requires mask == 0 || mask == 1 || mask == 3 || mask == 7 || mask == 15 || mask == 31 || mask == 63 || mask == 127
    ensures Slot(mask, irq) == irq as nat % (mask as nat + 1)
  {
    if mask == 0 { By1(irq); }
    else if mask == 1 { By2(irq); }
    else if mask == 3 { By4(irq); }
    else if mask == 7 { By8(irq); }
    else if mask == 15 { By16(irq); }
    else if mask == 31 { By32(irq); }
    else if mask == 63 { By64(irq); }
    else { By128(irq); }
  }

  lemma {:induction false} By1(irq: bv8) ensures Slot(0, irq) == irq as nat % 1 {}
  lemma {:induction false} By2(irq: bv8) ensures Slot(1, irq) == irq as nat % 2 {}
  lemma {:induction false} By4(irq: bv8) ensures Slot(3, irq) == irq as nat % 4 {}
  lemma {:induction false} By8(irq: bv8) ensures Slot(7, irq) == irq as nat % 8 {}
  lemma {:induction false} By16(irq: bv8) ensures Slot(15, irq) == irq as nat % 16 {}
  lemma {:induction false} By32(irq: bv8) ensures Slot(31, irq) == irq as nat % 32 {}
  lemma {:induction false} By64(irq: bv8) ensures Slot(63, irq) == irq as nat % 64 {}
  lemma {:induction false} By128(irq: bv8) ensures Slot(127, irq) == irq as nat % 128 {}

  // ---------- One table ----------

  function Write(t: CpuTable, irq: bv8): (r: CpuTable)
    requires ValidTable(t)
    ensures ValidTable(r) && r.mask == t.mask
  {
    SlotInRange(t.mask, irq);
    t.(ents := t.ents[Slot(t.mask, irq) := irq as bv16])
  }

  function WriteAll(t: CpuTable, irqs: seq<bv8>): (r: CpuTable)
    requires ValidTable(t)
    ensures ValidTable(r) && r.mask == t.mask
  {
    if irqs == [] then t else Write(WriteAll(t, irqs[..|irqs| - 1]), irqs[|irqs| - 1])
  }

  /** The irq was the last of those written to the slot. */
  predicate LastTo(mask: bv32, irqs: seq<bv8>, i: nat, x: nat) {
    && i < |irqs| && Slot(mask, irqs[i]) == x
    && forall j :: i < j < |irqs| ==> Slot(mask, irqs[j]) != x
  }

  lemma {:induction false} WriteOne(t: CpuTable, irq: bv8, x: nat)
    requires ValidTable(t) && x < |t.ents|
    ensures Write(t, irq).ents[x] == if Slot(t.mask, irq) == x then irq as bv16 else t.ents[x]
  {
  }

  /** After any writes, each slot holds the last irq written to it, and the others hold what they
      held. */
  lemma {:induction false} SlotHoldsLast(t: CpuTable, irqs: seq<bv8>, x: nat)
    requires ValidTable(t) && x < |t.ents|
    ensures forall i: nat :: LastTo(t.mask, irqs, i, x) ==> WriteAll(t, irqs).ents[x] == irqs[i] as bv16
    ensures (forall i :: 0 <= i < |irqs| ==> Slot(t.mask, irqs[i]) != x) ==> WriteAll(t, irqs).ents[x] == t.ents[x]
  {
    if irqs != [] {
      var n := |irqs| - 1;
      var before := irqs[..n];
      SlotHoldsLast(t, before, x);
      WriteOne(WriteAll(t, before), irqs[n], x);
      forall i: nat | LastTo(t.mask, irqs, i, x)
        ensures WriteAll(t, irqs).ents[x] == irqs[i] as bv16
      {
        if i < n {
          assert LastTo(t.mask, before, i, x);
          assert Slot(t.mask, irqs[n]) != x;
        }
      }
    }
  }

  /** So a slot that has been written holds an irq congruent to it modulo the table size. */
  lemma {:induction false} WrittenSlotIsCongruent(t: CpuTable, irqs: seq<bv8>, i: nat, x: nat)
    requires ValidTable(t) && x < |t.ents| && LastTo(t.mask, irqs, i, x)
    ensures WriteAll(t, irqs).ents[x] == irqs[i] as bv16 && irqs[i] as nat % |t.ents| == x
  {
    SlotHoldsLast(t, irqs, x);
    SlotIsRemainder(t.mask, irqs[i]);
  }

  /** Two irqs share a slot exactly when they are congruent modulo the table size. */
  lemma {:induction false} CollideIffCongruent(mask: bv32, a: bv8, b: bv8)
    requires PowerMask(mask)
    ensures Slot(mask, a) == Slot(mask, b) <==> a as nat % (mask as nat + 1) == b as nat % (mask as nat + 1)
  {
    SlotIsRemainder(mask, a);
    SlotIsRemainder(mask, b);
  }

  /** Routes to different CPUs never collide exactly when the table has at least 256 slots. */
  lemma {:induction false} NoCollisionsIffLarge(mask: bv32)
    requires PowerMask(mask)
    ensures (forall a: bv8, b: bv8 :: Slot(mask, a) == Slot(mask, b) ==> a == b) <==> mask >= 255
  {
    if mask >= 255 {
      forall a: bv8, b: bv8 | Slot(mask, a) == Slot(mask, b)
        ensures a == b
      {
        LargeTable(mask, a);
        LargeTable(mask, b);
        SameByte(a, b);
      }
    } else {
      MaskCases(mask);
      SmallCollision(mask);
    }
  }

  lemma {:induction false} SameByte(a: bv8, b: bv8)
    requires a as nat == b as nat
    ensures a == b
  {
  }

  lemma {:induction false} SmallCollision(mask: bv32)
    requires mask == 0 || mask == 1 || mask == 3 || mask == 7 || mask == 15 || mask == 31 || mask == 63 || mask == 127
    ensures exists a: bv8, b: bv8 :: a != b && Slot(mask, a) == Slot(mask, b)
  {
    var b: bv8 := 128;
    assert b as bv32 & mask == 0 && (0 as bv8) as bv32 & mask == 0;
    assert Slot(mask, 0) == Slot(mask, b);
  }

  /** Every write still stands at the end, whatever is written. */
  ghost predicate NeverUndone(t: CpuTable)
    requires ValidTable(t)
  {
    forall irqs: seq<bv8>, i :: 0 <= i < |irqs| ==> Stands(t, irqs, i)
  }

  /** The i-th write still stands after all of them. */
  predicate Stands(t: CpuTable, irqs: seq<bv8>, i: nat)
    requires ValidTable(t) && i < |irqs|
  {
    SlotInRange(t.mask, irqs[i]);
    WriteAll(t, irqs).ents[Slot(t.mask, irqs[i])] == irqs[i] as bv16
  }

  lemma {:induction false} LastToSlot(mask: bv32, irqs: seq<bv8>, i: nat) returns (k: nat)
    requires i < |irqs|
    ensures LastTo(mask, irqs, k, Slot(mask, irqs[i]))
  {
    var n := |irqs| - 1;
    if Slot(mask, irqs[n]) == Slot(mask, irqs[i]) {
      k := n;
    } else {
      k := LastToSlot(mask, irqs[..n], i);
    }
  }

  /** In a table of any size, a write stands exactly if the last write to its slot was of the same
      CPU number. */
  lemma {:induction false} StandsIffLastIsSame(t: CpuTable, irqs: seq<bv8>, i: nat, k: nat)
    requires ValidTable(t) && i < |irqs| && LastTo(t.mask, irqs, k, Slot(t.mask, irqs[i]))
    ensures Stands(t, irqs, i) <==> irqs[k] == irqs[i]
  {
    SlotInRange(t.mask, irqs[i]);
    SlotHoldsLast(t, irqs, Slot(t.mask, irqs[i]));
    SameWord(irqs[k], irqs[i]);
  }

  lemma {:induction false} SameWord(a: bv8, b: bv8)
    ensures a as bv16 == b as bv16 <==> a == b
  {
  }

  /** Where CPU numbers do not share slots, every write stands. */
  lemma {:induction false} RouteKept(t: CpuTable, irqs: seq<bv8>, i: nat)
    requires ValidTable(t) && i < |irqs|
    requires forall a: bv8, b: bv8 :: Slot(t.mask, a) == Slot(t.mask, b) ==> a == b
    ensures Stands(t, irqs, i)
  {
    var k := LastToSlot(t.mask, irqs, i);
    assert irqs[k] == irqs[i];
    StandsIffLastIsSame(t, irqs, i, k);
  }

  /** In a table of 256 slots or more every slot written holds its own number, so that no later
      route undoes an earlier one. */
  lemma {:induction false} RouteStays(t: CpuTable, irqs: seq<bv8>, i: nat)
    requires ValidTable(t) && t.mask >= 255 && i < |irqs|
    ensures irqs[i] as nat < |t.ents|
    ensures WriteAll(t, irqs).ents[irqs[i] as nat] == irqs[i] as bv16
  {
    NoCollisionsIffLarge(t.mask);
    RouteKept(t, irqs, i);
    LargeTable(t.mask, irqs[i]);
  }

  /** Routes are never undone exactly in tables of 256 slots or more: in a smaller one, writing two
      CPU numbers that share a slot undoes the first. */
  lemma {:induction false} NeverUndoneIffLarge(t: CpuTable)
    requires ValidTable(t)
    ensures NeverUndone(t) <==> t.mask >= 255
  {
    NoCollisionsIffLarge(t.mask);
    if t.mask >= 255 {
      forall irqs: seq<bv8>, i | 0 <= i < |irqs|
        ensures Stands(t, irqs, i)
      {
        RouteKept(t, irqs, i);
      }
    } else {
      var a: bv8, b: bv8 :| Slot(t.mask, a) == Slot(t.mask, b) && a != b;
      assert LastTo(t.mask, [a, b], 1, Slot(t.mask, a));
      StandsIffLastIsSame(t, [a, b], 0, 1);
    }
  }

  // ---------- All tables ----------

  datatype Queue = Queue(dev: nat, index: nat)

  /** The flow tables of the queues that have one, and the socket flow table if it is set up. */
  datatype Tables = Tables(flows: map<Queue, CpuTable>, sock: Option<CpuTable>)

  predicate ValidTables(ts: Tables) {
    && (forall q :: q in ts.flows ==> ValidTable(ts.flows[q]))
    && (ts.sock.Some? ==> ValidTable(ts.sock.value))
  }

  /** The queue a packet is accounted to: the recorded one if it is in use, the first if none is
      recorded, and none if the recorded one is out of range. */
  function RxQueueOf(dev: nat, inUse: nat, recorded: Option<bv16>): Option<Queue> {
    if recorded.None? then Some(Queue(dev, 0))
    else if recorded.value as nat >= inUse then None
    else Some(Queue(dev, recorded.value as nat))
  }

  /** One packet's request: its queue, if it has one, and the CPU it is to go to. */
  datatype Request = Request(q: Option<Queue>, irq: bv8)

  /** Both tables are there, so the request writes them. */
  predicate Effective(ts: Tables, r: Request) {
    r.q.Some? && r.q.value in ts.flows && ts.sock.Some?
  }

  function Route(ts: Tables, r: Request): (ts': Tables)
    requires ValidTables(ts)
    ensures ValidTables(ts')
  {
    if Effective(ts, r)
    then Tables(ts.flows[r.q.value := Write(ts.flows[r.q.value], r.irq)], Some(Write(ts.sock.value, r.irq)))
    else ts
  }

  function RouteAll(ts: Tables, rs: seq<Request>): (ts': Tables)
    requires ValidTables(ts)
    ensures ValidTables(ts')
  {
    if rs == [] then ts else Route(RouteAll(ts, rs[..|rs| - 1]), rs[|rs| - 1])
  }

  /** The irqs that reach the socket flow table. */
  function SockIrqs(ts: Tables, rs: seq<Request>): seq<bv8> {
    if rs == [] then []
    else
      var r := rs[|rs| - 1];
      var before := SockIrqs(ts, rs[..|rs| - 1]);
      if Effective(ts, r) then before + [r.irq] else before
  }

  /** The irqs that reach the flow table of one queue. */
  function QueueIrqs(ts: Tables, rs: seq<Request>, q: Queue): seq<bv8> {
    if rs == [] then []
    else
      var r := rs[|rs| - 1];
      var before := QueueIrqs(ts, rs[..|rs| - 1], q);
      if Effective(ts, r) && r.q == Some(q) then before + [r.irq] else before
  }

  lemma {:induction false} SockIrqStays(ts: Tables, rs: seq<Request>, k: nat) returns (j: nat)
    requires k < |rs| && Effective(ts, rs[k])
    ensures j < |SockIrqs(ts, rs)| && SockIrqs(ts, rs)[j] == rs[k].irq
  {
    if k < |rs| - 1 {
      j := SockIrqStays(ts, rs[..|rs| - 1], k);
    } else {
      j := |SockIrqs(ts, rs)| - 1;
    }
  }

  lemma {:induction false} QueueIrqStays(ts: Tables, rs: seq<Request>, k: nat) returns (j: nat)
    requires k < |rs| && Effective(ts, rs[k])
    ensures j < |QueueIrqs(ts, rs, rs[k].q.value)| && QueueIrqs(ts, rs, rs[k].q.value)[j] == rs[k].irq
  {
    if k < |rs| - 1 {
      j := QueueIrqStays(ts, rs[..|rs| - 1], k);
    } else {
      j := |QueueIrqs(ts, rs, rs[k].q.value)| - 1;
    }
  }

  lemma {:induction false} WriteAllSnoc(t: CpuTable, irqs: seq<bv8>, irq: bv8)
    requires ValidTable(t)
    ensures WriteAll(t, irqs + [irq]) == Write(WriteAll(t, irqs), irq)
  {
    assert (irqs + [irq])[..|irqs|] == irqs;
  }

  lemma {:induction false} SameTables(ts: Tables, rs: seq<Request>)
    requires ValidTables(ts)
    ensures RouteAll(ts, rs).flows.Keys == ts.flows.Keys
    ensures RouteAll(ts, rs).sock.Some? <==> ts.sock.Some?
  {
    if rs != [] {
      SameTables(ts, rs[..|rs| - 1]);
    }
  }

  /** After any sequence of packets over any queues of any devices, the socket flow table is what the
      effective requests alone make of it, in order, */
  lemma {:induction false} SockFollowsRequests(ts: Tables, rs: seq<Request>)
    requires ValidTables(ts) && ts.sock.Some?
    ensures RouteAll(ts, rs).sock == Some(WriteAll(ts.sock.value, SockIrqs(ts, rs)))
  {
    if rs != [] {
      var before, r := rs[..|rs| - 1], rs[|rs| - 1];
      SockFollowsRequests(ts, before);
      SameTables(ts, before);
      if Effective(ts, r) {
        WriteAllSnoc(ts.sock.value, SockIrqs(ts, before), r.irq);
      }
    }
  }

  /** and the flow table of each queue what the effective requests for that queue make of it. */
  lemma {:induction false} QueueFollowsRequests(ts: Tables, rs: seq<Request>, q: Queue)
    requires ValidTables(ts) && q in ts.flows
    ensures q in RouteAll(ts, rs).flows
    ensures RouteAll(ts, rs).flows[q] == WriteAll(ts.flows[q], QueueIrqs(ts, rs, q))
  {
    if rs != [] {
      var before, r := rs[..|rs| - 1], rs[|rs| - 1];
      QueueFollowsRequests(ts, before, q);
      SameTables(ts, before);
      if Effective(ts, r) && r.q == Some(q) {
        WriteAllSnoc(ts.flows[q], QueueIrqs(ts, before, q), r.irq);
      }
    }
  }
}
