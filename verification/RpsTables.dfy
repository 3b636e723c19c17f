/** vse_rps.c on the heap: the tables as arrays that a packet's route is written into. */
module RpsTables {
  import opened Wrappers
  import opened Packets
  import opened Rps

  /** struct rps_dev_flow_table and struct rps_sock_flow_table: a mask and the CPU numbers. */
  class HashTable {
    const mask: bv32
    const ents: array<bv16>

    ghost predicate Valid() {
      PowerMask(mask) && ents.Length == mask as nat + 1
    }

    ghost function View(): CpuTable
      reads ents
    {
      CpuTable(mask, ents[..])
    }

    constructor (mask: bv32, ents: array<bv16>)
      requires PowerMask(mask) && ents.Length == mask as nat + 1
      ensures this.mask == mask && this.ents == ents && Valid()
    {
      this.mask, this.ents := mask, ents;
    }

    method Store(irq: bv8)
      requires Valid()
      modifies ents
      ensures View() == Write(old(View()), irq)
      ensures ents[..] == old(ents[..])[irq as nat % ents.Length := irq as bv16]
    {
      SlotInRange(mask, irq);
      ents[Slot(mask, irq)] := irq as bv16;
      SlotIsRemainder(mask, irq);
    }
  }

  /** The two writes of a route. */
  method StorePair(flowTable: HashTable, sockTable: HashTable, irq: bv8)
    requires flowTable.Valid() && sockTable.Valid() && flowTable.ents != sockTable.ents
    modifies flowTable.ents, sockTable.ents
    ensures flowTable.View() == Write(old(flowTable.View()), irq)
    ensures sockTable.View() == Write(old(sockTable.View()), irq)
    ensures flowTable.ents[..] == old(flowTable.ents[..])[irq as nat % flowTable.ents.Length := irq as bv16]
    ensures sockTable.ents[..] == old(sockTable.ents[..])[irq as nat % sockTable.ents.Length := irq as bv16]
  {
    flowTable.Store(irq);
    sockTable.Store(irq);
  }

  class RxQueue {
    const flowTable: HashTable?

    constructor (flowTable: HashTable?)
      ensures this.flowTable == flowTable
    {
      this.flowTable := flowTable;
    }
  }

  /** The receive side of a network device; the first queues are in use. */
  class NetDevice {
    const rx: seq<RxQueue>
    const inUse: nat

    ghost predicate Valid() {
      0 < |rx| && inUse <= |rx|
    }

    constructor (rx: seq<RxQueue>, inUse: nat)
      requires 0 < |rx| && inUse <= |rx|
      ensures this.rx == rx && this.inUse == inUse && Valid()
    {
      this.rx, this.inUse := rx, inUse;
    }
  }

  /** vse_get_rxqueue: the queue that is recorded, if it is in use; the first one if none is recorded. */
  method GetRxQueue(skb: SkBuff, dev: NetDevice, ghost id: nat) returns (q: RxQueue?)
    requires dev.Valid()
    ensures q == null <==> RxQueueOf(id, dev.inUse, skb.rxQueue) == None
    ensures q != null ==>
      var index := RxQueueOf(id, dev.inUse, skb.rxQueue).value.index;
      index < |dev.rx| && q == dev.rx[index]
    ensures skb.rxQueue.None? ==> q == dev.rx[0]
    ensures skb.rxQueue.Some? && skb.rxQueue.value as nat < dev.inUse ==> q == dev.rx[skb.rxQueue.value as nat]
    ensures skb.rxQueue.Some? && skb.rxQueue.value as nat >= dev.inUse ==> q == null
  {
    if skb.rxQueue.Some? {
      var index := skb.rxQueue.value as nat;
      if index >= dev.inUse {
        return null;
      }
      return dev.rx[index];
    }
    return dev.rx[0];
  }

  /** The flow table a packet's route goes to: that of the recorded queue if this is in use, that of the
      first queue if none is recorded. */
  ghost function TableFor(recorded: Option<bv16>, dev: NetDevice): HashTable?
    requires dev.Valid()
  {
    if recorded.None? then dev.rx[0].flowTable
    else if (recorded.value as nat) < dev.inUse then dev.rx[recorded.value as nat].flowTable
    else null
  }

  /** The tables of every device and the one socket flow table. Which tables exist is fixed; null
      stands for a table that has not been set up. */
  class RpsState {
    const devs: seq<NetDevice>
    const sock: HashTable?

    constructor (devs: seq<NetDevice>, sock: HashTable?)
      ensures this.devs == devs && this.sock == sock
    {
      this.devs, this.sock := devs, sock;
    }

    ghost predicate Has(q: Queue) {
      q.dev < |devs| && q.index < |devs[q.dev].rx| && devs[q.dev].rx[q.index].flowTable != null
    }

    ghost function TableOf(q: Queue): HashTable
      requires Has(q)
    {
      devs[q.dev].rx[q.index].flowTable
    }

    ghost function Queues(): set<Queue> {
      set d, i | 0 <= d < |devs| && 0 <= i < |devs[d].rx| && devs[d].rx[i].flowTable != null :: Queue(d, i)
    }

    lemma {:induction false} QueuesHave(q: Queue)
      ensures q in Queues() <==> Has(q)
    {
    }

    ghost function Arrays(): set<array<bv16>> {
      (set q | q in Queues() :: TableOf(q).ents) + if sock == null then {} else {sock.ents}
    }

    /** Every table is well-formed and has an array of its own. */
    ghost predicate Valid() {
      && (forall d :: 0 <= d < |devs| ==> devs[d].Valid())
      && (forall q :: q in Queues() ==> TableOf(q).Valid())
      && (forall p, q :: p in Queues() && q in Queues() && p != q ==> TableOf(p).ents != TableOf(q).ents)
      && (sock != null ==> sock.Valid() && forall q :: q in Queues() ==> TableOf(q).ents != sock.ents)
    }

    ghost function View(): (ts: Tables)
      requires Valid()
      reads Arrays()
      ensures ValidTables(ts)
    {
      Tables(map q | q in Queues() :: TableOf(q).View(), if sock == null then None else Some(sock.View()))
    }

    /** What every array holds. */
    ghost function Contents(): map<array<bv16>, seq<bv16>>
      reads Arrays()
    {
      map a | a in Arrays() :: a[..]
    }

    /** What a route through a queue with the given table does to the arrays: if both tables are there, each
        holds the CPU number at its remainder modulo the size, and no other place has changed. */
    ghost predicate ArraysRouted(was: map<array<bv16>, seq<bv16>>, now: map<array<bv16>, seq<bv16>>,
                                 flowTable: HashTable?, irq: bv8)
    {
      && was.Keys == now.Keys
      && forall a :: a in was ==>
           if flowTable != null && sock != null && (a == flowTable.ents || a == sock.ents) && |was[a]| > 0
           then now[a] == was[a][irq as nat % |was[a]| := irq as bv16]
           else now[a] == was[a]
    }

    lemma {:induction false} InArrays(q: Queue)
      requires q in Queues()
      ensures TableOf(q).ents in Arrays()
    {
    }

    lemma {:induction false} RoutedView(was: Tables, now: Tables, q: Queue, irq: bv8)
      requires ValidTables(was) && q in was.flows && was.sock.Some?
      requires now.flows.Keys == was.flows.Keys
      requires now.flows[q] == Write(was.flows[q], irq)
      requires forall p :: p in was.flows && p != q ==> now.flows[p] == was.flows[p]
      requires now.sock == Some(Write(was.sock.value, irq))
      ensures now == Route(was, Request(Some(q), irq))
    {
      assert now.flows == was.flows[q := Write(was.flows[q], irq)];
    }

    method StoreBoth(flowTable: HashTable, sockTable: HashTable, irq: bv8, ghost q: Queue)
      requires Valid() && q in Queues() && TableOf(q) == flowTable && sock == sockTable
      modifies flowTable.ents, sockTable.ents
      ensures ArraysRouted(old(Contents()), Contents(), flowTable, irq)
      ensures View().flows[q] == Write(old(View().flows[q]), irq)
      ensures forall p :: p in View().flows && p != q ==> View().flows[p] == old(View().flows[p])
      ensures View().sock == Some(Write(old(View().sock.value), irq))
    {
      InArrays(q);
      StorePair(flowTable, sockTable, irq);
    }

    /** Writes the route into the queue's table and the socket table, provided both are there. */
    method StoreRoute(rxqueue: RxQueue, irq: bv8, ghost q: Queue)
      requires Valid() && q.dev < |devs| && q.index < |devs[q.dev].rx| && devs[q.dev].rx[q.index] == rxqueue
      modifies Arrays()
      ensures View() == Route(old(View()), Request(Some(q), irq))
      ensures ArraysRouted(old(Contents()), Contents(), rxqueue.flowTable, irq)
    {
      QueuesHave(q);
      var flowTable := rxqueue.flowTable;
      if flowTable != null && sock != null {
        InArrays(q);
        StoreBoth(flowTable, sock, irq, q);
        RoutedView(old(View()), View(), q, irq);
      }
    }

    /** vse_set_sock_flow_table: fails if the packet has no queue, and otherwise stores its route. */
    method SetSockFlowTable(skb: SkBuff, d: nat, irq: bv8) returns (ok: bool)
      requires Valid() && d < |devs|
      modifies Arrays()
      ensures ok <==> RxQueueOf(d, devs[d].inUse, skb.rxQueue).Some?
      ensures View() == Route(old(View()), Request(RxQueueOf(d, devs[d].inUse, skb.rxQueue), irq))
      ensures ArraysRouted(old(Contents()), Contents(), TableFor(skb.rxQueue, devs[d]), irq)
    {
      var rxqueue := GetRxQueue(skb, devs[d], d);
      ghost var q := RxQueueOf(d, devs[d].inUse, skb.rxQueue);
      ViewKept();
      if rxqueue == null {
        return false;
      }
      StoreRoute(rxqueue, irq, q.value);
      return true;
    }

    /** While no table array is written, the tables stay as they are. */
    twostate lemma {:induction false} ViewKept()
      requires Valid()
      requires forall a :: a in Arrays() ==> unchanged(a)
      ensures View() == old(View()) && Contents() == old(Contents())
    {
    }

    /** vse_do_rps: writes the route and marks the packet. The branch for an unassigned CPU has no
        effect, so NO_IRQ is written like any other number. */
    method DoRps(skb: SkBuff, d: nat, irq: bv8)
      requires Valid() && d < |devs|
      modifies Arrays(), skb`rxhash
      ensures View() == Route(old(View()), Request(RxQueueOf(d, devs[d].inUse, skb.rxQueue), irq))
      ensures ArraysRouted(old(Contents()), Contents(), TableFor(skb.rxQueue, devs[d]), irq)
      ensures skb.rxhash == irq as bv32
    {
      var ok := SetSockFlowTable(skb, d, irq);
      label L:
      skb.rxhash := irq as bv32;
      ViewKept@L();
    }
  }
}
