/** vse_main.c: receiving a packet, and whole runs in which control calls and packets mix. */
module Steering {
  import opened Integers
  import opened Wrappers
  import opened Packets
  import opened FlowSpec
  import opened FlowTable
  import opened Staging
  import opened Device
  import opened Rps
  import opened RpsTables

  class Vse {
    const dev: VseDevice
    const rps: RpsState
    var handler: bool

    ghost predicate Valid()
      reads this, dev, dev.table, dev.table.head, dev.table.ring
    {
      dev.Valid() && rps.Valid()
    }

    /** Module load: the receive hook is installed. */
    constructor (host: Host, rps: RpsState)
      requires rps.Valid()
      ensures Valid() && this.rps == rps && handler && dev.history == [] && dev.table.host == host
    {
      this.rps := rps;
      handler := true;
      dev := new VseDevice(host);
    }

    /** The lookup: the entry found is the newest one whose declared criteria the packet meets. */
    method FindEntry(skb: SkBuff) returns (entry: ListNode?)
      requires Valid() && skb.Valid()
      modifies skb`networkHeader
      ensures NewestMetIrq(dev.table.host, dev.history, skb.View()) == if entry == null then None else Some(entry.irq)
    {
      entry := dev.table.LookUp(skb);
      SteeringIsNewestMet(dev.table.host, dev.history, skb.View());
    }

    /** The first half of vse_handle_data: headers settled and the entry looked up; nothing that a
        route consists of is touched. */
    method Classify(skb: SkBuff) returns (entry: ListNode?)
      requires Valid() && skb.Valid()
      modifies skb`macHeader, skb`networkHeader
      ensures Valid() && skb.Valid() && skb.View() == old(skb.View())
      ensures NewestMetIrq(dev.table.host, dev.history, skb.View()) == if entry == null then None else Some(entry.irq)
    {
      skb.SettleMacHeader();
      entry := FindEntry(skb);
    }

    /** vse_handle_data: a packet that meets the declared criteria of some published entry leaves with
        the CPU of the newest such entry and has its route written; any other leaves as it came. */
    method HandleData(skb: SkBuff, d: nat)
      requires Valid() && skb.Valid() && d < |rps.devs|
      modifies skb, rps.Arrays()
      ensures Valid() && skb.Valid() && skb.View() == old(skb.View())
      ensures var irq := NewestMetIrq(dev.table.host, dev.history, skb.View());
        && skb.rxhash == (if irq.Some? then irq.value.bits as bv32 else old(skb.rxhash))
        && rps.View() == if irq.Some?
             then Route(old(rps.View()), Request(RxQueueOf(d, rps.devs[d].inUse, skb.rxQueue), irq.value.bits))
             else old(rps.View())
    {
      var entry := Classify(skb);
      rps.ViewKept();
      ghost var irq := NewestMetIrq(dev.table.host, dev.history, skb.View());
      assert irq == if entry == null then None else Some(entry.irq);
      Deliver(skb, d, entry);
    }

    /** The second half: the route of the entry found, if any. */
    method Deliver(skb: SkBuff, d: nat, entry: ListNode?)
      requires Valid() && skb.Valid() && d < |rps.devs|
      modifies skb`rxhash, rps.Arrays()
      ensures Valid() && skb.Valid() && skb.View() == old(skb.View()) && dev.history == old(dev.history)
      ensures entry != null ==> entry.irq == old(entry.irq)
      ensures skb.rxhash == if entry == null then old(skb.rxhash) else entry.irq.bits as bv32
      ensures rps.View() == if entry == null then old(rps.View())
        else Route(old(rps.View()), Request(RxQueueOf(d, rps.devs[d].inUse, skb.rxQueue), entry.irq.bits))
    {
      if entry != null {
        rps.DoRps(skb, d, entry.irq.bits);
      }
    }

    /** vse_cleanup: the hook is removed, then the table drained. */
    method Cleanup()
      requires Valid()
      modifies this, dev.table, dev.table.head, dev.table.ring
      ensures !handler
      ensures dev.table.Valid() && dev.table.ring == []
      ensures dev.table.freed == old(dev.table.freed) + old(dev.table.ring)
    {
      handler := false;
      dev.table.CleanUp();
    }
  }

  // ---------- Runs in which control calls and packets mix ----------

  datatype Event =
    | Control(call: Call)
    | Receive(p: Packet, q: Option<Queue>, rxhash: bv32)

  datatype Machine = Machine(dev: Dev, rps: Tables)

  /** The hash a packet leaves with. */
  ghost function Leaves(host: Host, m: Machine, e: Event): bv32
    requires e.Receive?
  {
    var irq := Steer(host, m.dev.table, e.p);
    if irq.Some? then irq.value.bits as bv32 else e.rxhash
  }

  ghost function Step(host: Host, m: Machine, e: Event): (m': Machine)
    requires ValidTables(m.rps)
    ensures ValidTables(m'.rps)
  {
    match e
    case Control(c) => m.(dev := Exec(m.dev, c))
    case Receive(p, q, _) =>
      var irq := Steer(host, m.dev.table, p);
      if irq.Some? then m.(rps := Route(m.rps, Request(q, irq.value.bits))) else m
  }

  ghost function RunAll(host: Host, ts: Tables, es: seq<Event>): (m: Machine)
    requires ValidTables(ts)
    ensures ValidTables(m.rps)
  {
    if es == [] then Machine(BOOT, ts) else Step(host, RunAll(host, ts, es[..|es| - 1]), es[|es| - 1])
  }

  /** The control calls of a run. */
  function Calls(es: seq<Event>): seq<Call> {
    if es == [] then []
    else Calls(es[..|es| - 1]) + if es[|es| - 1].Control? then [es[|es| - 1].call] else []
  }

  /** The routes the run asks for: one for each packet that meets a published entry, to its CPU. */
  ghost function Requests(host: Host, es: seq<Event>): seq<Request> {
    if es == [] then []
    else
      var before, e := es[..|es| - 1], es[|es| - 1];
      if e.Receive? && NewestMetIrq(host, Calls(before), e.p).Some?
      then Requests(host, before) + [Request(e.q, NewestMetIrq(host, Calls(before), e.p).value.bits)]
      else Requests(host, before)
  }

  lemma {:induction false} RunSplits(host: Host, ts: Tables, es: seq<Event>)
    requires ValidTables(ts)
    ensures RunAll(host, ts, es) == Machine(Run(BOOT, Calls(es)), RouteAll(ts, Requests(host, es)))
  {
    if es != [] {
      var before, e := es[..|es| - 1], es[|es| - 1];
      RunSplits(host, ts, before);
      match e {
        case Control(c) =>
          RunExtends(Calls(before), c);
        case Receive(p, q, _) =>
          SteeringIsNewestMet(host, Calls(before), p);
          assert Calls(es) == Calls(before);
          if NewestMetIrq(host, Calls(before), p).Some? {
            var r := Request(q, NewestMetIrq(host, Calls(before), p).value.bits);
            assert (Requests(host, before) + [r])[..|Requests(host, before)|] == Requests(host, before);
          }
      }
    }
  }

  /** In any mixed run, the packet at step i leaves with the CPU of the newest entry published so far
      whose declared criteria it meets, and with its own hash, all tables untouched, if there is
      none. */
  lemma {:induction false} PacketsFollowHistory(host: Host, ts: Tables, es: seq<Event>, i: nat)
    requires ValidTables(ts) && i < |es| && es[i].Receive?
    ensures var m := RunAll(host, ts, es[..i]);
      match NewestMetIrq(host, Calls(es[..i]), es[i].p)
      case Some(irq) =>
        && Leaves(host, m, es[i]) == irq.bits as bv32
        && Step(host, m, es[i]).rps == Route(m.rps, Request(es[i].q, irq.bits))
      case None =>
        Leaves(host, m, es[i]) == es[i].rxhash && Step(host, m, es[i]) == m
  {
    RunSplits(host, ts, es[..i]);
    SteeringIsNewestMet(host, Calls(es[..i]), es[i].p);
  }

  lemma {:induction false} RequestStays(host: Host, es: seq<Event>, i: nat, r: Request) returns (k: nat)
    requires i < |es| && es[i].Receive?
    requires NewestMetIrq(host, Calls(es[..i]), es[i].p) == Some(U8(r.irq)) && r.q == es[i].q
    ensures k < |Requests(host, es)| && Requests(host, es)[k] == r
  {
    if i < |es| - 1 {
      assert es[..|es| - 1][..i] == es[..i];
      k := RequestStays(host, es[..|es| - 1], i, r);
    } else {
      k := |Requests(host, es)| - 1;
    }
  }

  /** With tables of 256 slots or more, as the setup script makes them, the route of a packet stands
      to the end of the run in its queue's table and in the socket table, whatever is published and
      received later. */
  lemma {:induction false} RouteStandsToTheEnd(host: Host, ts: Tables, es: seq<Event>, i: nat, irq: bv8, q: Queue)
    requires ValidTables(ts) && i < |es| && es[i].Receive? && es[i].q == Some(q)
    requires NewestMetIrq(host, Calls(es[..i]), es[i].p) == Some(U8(irq))
    requires q in ts.flows && ts.sock.Some? && ts.flows[q].mask >= 255 && ts.sock.value.mask >= 255
    ensures var m := RunAll(host, ts, es);
      && q in m.rps.flows && irq as nat < |m.rps.flows[q].ents|
      && m.rps.flows[q].ents[irq as nat] == irq as bv16
      && m.rps.sock.Some? && irq as nat < |m.rps.sock.value.ents|
      && m.rps.sock.value.ents[irq as nat] == irq as bv16
  {
    var rs := Requests(host, es);
    RunSplits(host, ts, es);
    var k := RequestStays(host, es, i, Request(Some(q), irq));
    var j := SockIrqStays(ts, rs, k);
    SockFollowsRequests(ts, rs);
    RouteStays(ts.sock.value, SockIrqs(ts, rs), j);
    var l := QueueIrqStays(ts, rs, k);
    QueueFollowsRequests(ts, rs, q);
    RouteStays(ts.flows[q], QueueIrqs(ts, rs, q), l);
  }
}
