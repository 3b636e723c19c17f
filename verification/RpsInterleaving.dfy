/** Packets routed by several CPUs at once. A route takes two writes, first into the flow table of the
    packet's queue and then into the socket flow table, and the writes of different routes interleave in
    any order (memory is sequentially consistent). */
module RpsInterleaving {
  import opened Wrappers
  import opened Rps

  /** The tables, and the CPU numbers of the routes whose second write is outstanding. */
  datatype State = State(tables: Tables, pending: map<nat, bv8>)

  /** The writes of route t; only routes that find both tables write at all. */
  datatype Step = WriteFlow(t: nat, q: Queue, irq: bv8) | WriteSock(t: nat)

  predicate Enabled(s: State, e: Step) {
    match e
    case WriteFlow(t, q, _) => t !in s.pending && q in s.tables.flows && s.tables.sock.Some?
    case WriteSock(t) => t in s.pending && s.tables.sock.Some?
  }

  function Next(s: State, e: Step): (s': State)
    requires ValidTables(s.tables) && Enabled(s, e)
    ensures ValidTables(s'.tables)
  {
    match e
    case WriteFlow(t, q, irq) =>
      State(s.tables.(flows := s.tables.flows[q := Write(s.tables.flows[q], irq)]), s.pending[t := irq])
    case WriteSock(t) =>
      State(s.tables.(sock := Some(Write(s.tables.sock.value, s.pending[t]))), s.pending - {t})
  }

  predicate Possible(ts: Tables, es: seq<Step>)
    requires ValidTables(ts)
    decreases es, 0
  {
    es == [] || (Possible(ts, es[..|es| - 1]) && Enabled(After(ts, es[..|es| - 1]), es[|es| - 1]))
  }

  function After(ts: Tables, es: seq<Step>): (s: State)
    requires ValidTables(ts) && Possible(ts, es)
    ensures ValidTables(s.tables)
    decreases es, 1
  {
    if es == [] then State(ts, map[]) else Next(After(ts, es[..|es| - 1]), es[|es| - 1])
  }

  // ---------- What each table receives ----------

  /** The routes, in the order of their first writes. */
  function Begun(es: seq<Step>): seq<Request> {
    if es == [] then []
    else
      var e, before := es[|es| - 1], Begun(es[..|es| - 1]);
      if e.WriteFlow? then before + [Request(Some(e.q), e.irq)] else before
  }

  /** The CPU numbers written to the socket flow table, in the order of the writes. */
  function SockWrites(ts: Tables, es: seq<Step>): seq<bv8>
    requires ValidTables(ts) && Possible(ts, es)
  {
    if es == [] then []
    else
      var n := |es| - 1;
      var before := SockWrites(ts, es[..n]);
      if es[n].WriteSock? then before + [After(ts, es[..n]).pending[es[n].t]] else before
  }

  lemma {:induction false} SameTablesThere(ts: Tables, es: seq<Step>)
    requires ValidTables(ts) && Possible(ts, es)
    ensures After(ts, es).tables.flows.Keys == ts.flows.Keys
    ensures After(ts, es).tables.sock.Some? <==> ts.sock.Some?
    ensures es != [] ==> ts.sock.Some?
  {
    if es != [] {
      SameTablesThere(ts, es[..|es| - 1]);
    }
  }

  lemma {:induction false} BegunEffective(ts: Tables, es: seq<Step>)
    requires ValidTables(ts) && Possible(ts, es)
    ensures forall i :: 0 <= i < |Begun(es)| ==> Effective(ts, Begun(es)[i])
  {
    if es != [] {
      BegunEffective(ts, es[..|es| - 1]);
      SameTablesThere(ts, es[..|es| - 1]);
    }
  }

  /** A queue's table is what the routes begun on it make of it, in the order of their first writes. */
  lemma {:induction false} FlowFollowsBegun(ts: Tables, es: seq<Step>, q: Queue)
    requires ValidTables(ts) && Possible(ts, es) && q in ts.flows
    ensures q in After(ts, es).tables.flows
    ensures After(ts, es).tables.flows[q] == WriteAll(ts.flows[q], QueueIrqs(ts, Begun(es), q))
  {
    if es != [] {
      var n := |es| - 1;
      var before := Begun(es[..n]);
      FlowFollowsBegun(ts, es[..n], q);
      SameTablesThere(ts, es[..n]);
      if es[n].WriteFlow? {
        QueueIrqsSnoc(ts, before, Request(Some(es[n].q), es[n].irq), q);
        if es[n].q == q {
          WriteAllSnoc(ts.flows[q], QueueIrqs(ts, before, q), es[n].irq);
        }
      }
    }
  }

  lemma {:induction false} QueueIrqsSnoc(ts: Tables, rs: seq<Request>, r: Request, q: Queue)
    ensures QueueIrqs(ts, rs + [r], q) ==
      if Effective(ts, r) && r.q == Some(q) then QueueIrqs(ts, rs, q) + [r.irq] else QueueIrqs(ts, rs, q)
  {
    assert (rs + [r])[..|rs|] == rs;
  }

  lemma {:induction false} SockIrqsSnoc(ts: Tables, rs: seq<Request>, r: Request)
    ensures SockIrqs(ts, rs + [r]) == if Effective(ts, r) then SockIrqs(ts, rs) + [r.irq] else SockIrqs(ts, rs)
  {
    assert (rs + [r])[..|rs|] == rs;
  }

  /** The socket flow table is what the second writes make of it, in their own order. */
  lemma {:induction false} SockFollowsWrites(ts: Tables, es: seq<Step>)
    requires ValidTables(ts) && Possible(ts, es) && ts.sock.Some?
    ensures After(ts, es).tables.sock == Some(WriteAll(ts.sock.value, SockWrites(ts, es)))
  {
    if es != [] {
      var n := |es| - 1;
      SockFollowsWrites(ts, es[..n]);
      if es[n].WriteSock? {
        WriteAllSnoc(ts.sock.value, SockWrites(ts, es[..n]), After(ts, es[..n]).pending[es[n].t]);
      }
    }
  }

  /** What has been begun has reached the socket flow table or is outstanding, and nothing else has. */
  predicate Accounted(irqs: seq<bv8>, written: seq<bv8>, pending: map<nat, bv8>) {
    && |irqs| == |written| + |pending|
    && (forall v :: v in irqs ==> v in written || v in pending.Values)
    && (forall v :: v in written ==> v in irqs)
    && (forall t :: t in pending ==> pending[t] in irqs)
  }

  lemma {:induction false} BegunAccounted(ts: Tables, es: seq<Step>)
    requires ValidTables(ts) && Possible(ts, es)
    ensures Accounted(SockIrqs(ts, Begun(es)), SockWrites(ts, es), After(ts, es).pending)
  {
    if es != [] {
      var n := |es| - 1;
      var s := After(ts, es[..n]);
      BegunAccounted(ts, es[..n]);
      SameTablesThere(ts, es[..n]);
      match es[n] {
        case WriteFlow(t, q, irq) =>
          SockIrqsSnoc(ts, Begun(es[..n]), Request(Some(q), irq));
          RouteBegins(SockIrqs(ts, Begun(es[..n])), SockWrites(ts, es[..n]), s.pending, t, irq);
        case WriteSock(t) =>
          RouteEnds(SockIrqs(ts, Begun(es[..n])), SockWrites(ts, es[..n]), s.pending, t);
      }
    }
  }

  lemma {:induction false} RouteBegins(irqs: seq<bv8>, written: seq<bv8>, pending: map<nat, bv8>, t: nat, irq: bv8)
    requires Accounted(irqs, written, pending) && t !in pending
    ensures Accounted(irqs + [irq], written, pending[t := irq])
  {
    var later := pending[t := irq];
    assert later.Keys == pending.Keys + {t};
    forall v | v in irqs + [irq]
      ensures v in written || v in later.Values
    {
      if v in pending.Values {
        var u :| u in pending && pending[u] == v;
        assert later[u] == v;
      } else if v !in written {
        assert later[t] == v;
      }
    }
  }

  lemma {:induction false} RouteEnds(irqs: seq<bv8>, written: seq<bv8>, pending: map<nat, bv8>, t: nat)
    requires Accounted(irqs, written, pending) && t in pending
    ensures Accounted(irqs, written + [pending[t]], pending - {t})
  {
    var later := pending - {t};
    assert later.Keys == pending.Keys - {t};
    forall v | v in irqs
      ensures v in written + [pending[t]] || v in later.Values
    {
      if v in pending.Values && v != pending[t] {
        var u :| u in pending && pending[u] == v;
        assert u in later && later[u] == v;
      }
    }
  }

  // ---------- Large tables: every interleaving is as good as a serial order ----------

  /** Without collisions the order of writes does not matter, and neither does repetition. */
  lemma {:induction false} OrderDoesNotMatter(t: CpuTable, a: seq<bv8>, b: seq<bv8>)
    requires ValidTable(t) && t.mask >= 255
    requires forall v :: v in a <==> v in b
    ensures WriteAll(t, a) == WriteAll(t, b)
  {
    var x, y := WriteAll(t, a), WriteAll(t, b);
    forall k | 0 <= k < |t.ents|
      ensures x.ents[k] == y.ents[k]
    {
      SlotContent(t, a, b, k);
    }
    assert x.ents == y.ents;
  }

  lemma {:induction false} SlotContent(t: CpuTable, a: seq<bv8>, b: seq<bv8>, k: nat)
    requires ValidTable(t) && t.mask >= 255 && k < |t.ents|
    requires forall v :: v in a <==> v in b
    ensures WriteAll(t, a).ents[k] == WriteAll(t, b).ents[k]
  {
    if i :| 0 <= i < |a| && Slot(t.mask, a[i]) == k {
      assert a[i] in a;
      var j :| 0 <= j < |b| && b[j] == a[i];
      RouteStays(t, a, i);
      RouteStays(t, b, j);
      LargeTable(t.mask, a[i]);
    } else {
      forall j | 0 <= j < |b|
        ensures Slot(t.mask, b[j]) != k
      {
        assert b[j] in b;
      }
      SlotHoldsLast(t, a, k);
      SlotHoldsLast(t, b, k);
    }
  }

  lemma {:induction false} TablesEqual(x: Tables, y: Tables)
    requires x.flows.Keys == y.flows.Keys && x.sock == y.sock
    requires forall q :: q in x.flows ==> x.flows[q] == y.flows[q]
    ensures x == y
  {
    assert x.flows == y.flows;
  }

  /** With a socket flow table of 256 slots or more, however many routes interleave in whatever way, once
      all are complete every table is as if the packets had been routed one after another, in the order of
      their first writes. */
  lemma {:induction false} InterleavingIsSerial(ts: Tables, es: seq<Step>)
    requires ValidTables(ts) && Possible(ts, es) && After(ts, es).pending == map[]
    requires ts.sock.Some? ==> ts.sock.value.mask >= 255
    ensures After(ts, es).tables == RouteAll(ts, Begun(es))
  {
    var x, y := After(ts, es).tables, RouteAll(ts, Begun(es));
    SameTablesThere(ts, es);
    SameTables(ts, Begun(es));
    forall q | q in x.flows
      ensures x.flows[q] == y.flows[q]
    {
      FlowFollowsBegun(ts, es, q);
      QueueFollowsRequests(ts, Begun(es), q);
    }
    if ts.sock.Some? {
      SockFollowsWrites(ts, es);
      SockFollowsRequests(ts, Begun(es));
      BegunAccounted(ts, es);
      OrderDoesNotMatter(ts.sock.value, SockWrites(ts, es), SockIrqs(ts, Begun(es)));
    }
    TablesEqual(x, y);
  }

  /** And each route that is complete stands in both tables, whatever else is under way or comes later. */
  lemma {:induction false} CompleteRouteStands(ts: Tables, es: seq<Step>, i: nat, k: nat)
    requires ValidTables(ts) && Possible(ts, es) && i < k < |es|
    requires es[i].WriteFlow? && es[k] == WriteSock(es[i].t)
    requires forall j :: i < j < k ==> es[j] != WriteSock(es[i].t)
    requires es[i].q in ts.flows && ts.flows[es[i].q].mask >= 255
    requires ts.sock.Some? && ts.sock.value.mask >= 255
    ensures var s, q, irq := After(ts, es).tables, es[i].q, es[i].irq;
      && q in s.flows && irq as nat < |s.flows[q].ents| && s.flows[q].ents[irq as nat] == irq as bv16
      && s.sock.Some? && irq as nat < |s.sock.value.ents| && s.sock.value.ents[irq as nat] == irq as bv16
  {
    var q := es[i].q;
    var m := BegunAt(es, i);
    var j := QueueIrqStays(ts, Begun(es), m);
    FlowFollowsBegun(ts, es, q);
    RouteStays(ts.flows[q], QueueIrqs(ts, Begun(es), q), j);
    var l := InSockWrites(ts, es, i, k);
    SockFollowsWrites(ts, es);
    RouteStays(ts.sock.value, SockWrites(ts, es), l);
  }

  lemma {:induction false} BegunAt(es: seq<Step>, i: nat) returns (m: nat)
    requires i < |es| && es[i].WriteFlow?
    ensures m < |Begun(es)| && Begun(es)[m] == Request(Some(es[i].q), es[i].irq)
  {
    var n := |es| - 1;
    if i < n {
      m := BegunAt(es[..n], i);
    } else {
      m := |Begun(es[..n])|;
    }
  }

  lemma {:induction false} StillPending(ts: Tables, es: seq<Step>, i: nat)
    requires ValidTables(ts) && Possible(ts, es) && i < |es| && es[i].WriteFlow?
    requires forall j :: i < j < |es| ==> es[j] != WriteSock(es[i].t)
    ensures es[i].t in After(ts, es).pending && After(ts, es).pending[es[i].t] == es[i].irq
  {
    if i < |es| - 1 {
      StillPending(ts, es[..|es| - 1], i);
    }
  }

  lemma {:induction false} InSockWrites(ts: Tables, es: seq<Step>, i: nat, k: nat) returns (l: nat)
    requires ValidTables(ts) && Possible(ts, es) && i < k < |es|
    requires es[i].WriteFlow? && es[k] == WriteSock(es[i].t)
    requires forall j :: i < j < k ==> es[j] != WriteSock(es[i].t)
    ensures l < |SockWrites(ts, es)| && SockWrites(ts, es)[l] == es[i].irq
  {
    var n := |es| - 1;
    if k < n {
      l := InSockWrites(ts, es[..n], i, k);
    } else {
      StillPending(ts, es[..n], i);
      l := |SockWrites(ts, es)| - 1;
    }
  }

  // ---------- Small tables: when two routes end in no serial order ----------

  /** Two CPU numbers share a slot. */
  predicate Collide(t: CpuTable, a: bv8, b: bv8) {
    a != b && Slot(t.mask, a) == Slot(t.mask, b)
  }

  function Both(t: CpuTable, a: bv8, b: bv8): (r: CpuTable)
    requires ValidTable(t)
    ensures ValidTable(r) && r.mask == t.mask
  {
    Write(Write(t, a), b)
  }

  lemma {:induction false} TwoUpdates<T>(s: seq<T>, i: nat, j: nat, x: T, y: T)
    requires i < |s| && j < |s|
    ensures s[i := x][j := y] == s[j := y][i := x] <==> (i != j || x == y)
  {
    assert s[i := x][j := y][j] == y && s[j := y][i := x][i] == x;
  }

  lemma {:induction false} WritesCommute(t: CpuTable, a: bv8, b: bv8)
    requires ValidTable(t)
    ensures Both(t, a, b) == Both(t, b, a) <==> !Collide(t, a, b)
  {
    SlotInRange(t.mask, a);
    SlotInRange(t.mask, b);
    SameWord(a, b);
    TwoUpdates(t.ents, Slot(t.mask, a), Slot(t.mask, b), a as bv16, b as bv16);
  }

  /** The tables after two complete routes on one queue: the flow table and the socket table each hold the
      two writes in one order or the other. */
  predicate Mixed(ts: Tables, q: Queue, a: bv8, b: bv8, x: Tables)
    requires ValidTables(ts) && q in ts.flows && ts.sock.Some?
  {
    x == Tables(ts.flows[q := Both(ts.flows[q], a, b)], Some(Both(ts.sock.value, b, a)))
  }

  predicate InOrder(ts: Tables, q: Queue, a: bv8, b: bv8, x: Tables)
    requires ValidTables(ts) && q in ts.flows && ts.sock.Some?
  {
    x == Tables(ts.flows[q := Both(ts.flows[q], a, b)], Some(Both(ts.sock.value, a, b)))
  }

  function Two(q: Queue, a: bv8, b: bv8): seq<Request> { [Request(Some(q), a), Request(Some(q), b)] }

  lemma {:induction false} SerialIsInOrder(ts: Tables, q: Queue, a: bv8, b: bv8)
    requires ValidTables(ts) && q in ts.flows && ts.sock.Some?
    ensures InOrder(ts, q, a, b, RouteAll(ts, Two(q, a, b)))
  {
    var r, r' := Request(Some(q), a), Request(Some(q), b);
    assert [r, r'][..1] == [r] && [r][..0] == [];
    var one := Route(ts, r);
    assert RouteAll(ts, [r]) == one;
    assert one.flows[q := Both(ts.flows[q], a, b)] == ts.flows[q := Both(ts.flows[q], a, b)];
  }

  lemma {:induction false} TwoQueueIrqs(ts: Tables, q: Queue, a: bv8, b: bv8, r: Queue)
    requires q in ts.flows && ts.sock.Some?
    ensures QueueIrqs(ts, Two(q, a, b), r) == if r == q then [a, b] else []
    ensures SockIrqs(ts, Two(q, a, b)) == [a, b]
  {
    var one := [Request(Some(q), a)];
    assert Two(q, a, b) == one + [Request(Some(q), b)];
    assert one == [] + [Request(Some(q), a)];
    QueueIrqsSnoc(ts, [], Request(Some(q), a), r);
    QueueIrqsSnoc(ts, one, Request(Some(q), b), r);
    SockIrqsSnoc(ts, [], Request(Some(q), a));
    SockIrqsSnoc(ts, one, Request(Some(q), b));
  }

  lemma {:induction false} WriteTwo(t: CpuTable, a: bv8, b: bv8)
    requires ValidTable(t)
    ensures WriteAll(t, [a, b]) == Both(t, a, b)
  {
    assert [a, b] == [a] + [b] && [a] == [] + [a];
    WriteAllSnoc(t, [], a);
    WriteAllSnoc(t, [a], b);
  }

  /** The second writes of two routes come in one order or the other. */
  lemma {:induction false} TwoOrders(written: seq<bv8>, a: bv8, b: bv8)
    requires Accounted([a, b], written, map[])
    ensures written == [a, b] || written == [b, a]
  {
    var w0, w1 := written[0], written[1];
    assert w0 in written && w1 in written;
    assert w0 in [a, b] && w1 in [a, b];
    var none: map<nat, bv8> := map[];
    assert none.Values == {};
    assert a in [a, b] && b in [a, b];
    assert a in written && b in written;
    assert written == [w0, w1];
  }

  /** Two routes begun on one queue, a first, end in that order in both tables, or else with the socket
      table written the other way round. */
  lemma {:induction false} TwoRoutesEnd(ts: Tables, es: seq<Step>, q: Queue, a: bv8, b: bv8)
    requires ValidTables(ts) && Possible(ts, es) && q in ts.flows && ts.sock.Some?
    requires Begun(es) == Two(q, a, b) && After(ts, es).pending == map[]
    ensures InOrder(ts, q, a, b, After(ts, es).tables) || Mixed(ts, q, a, b, After(ts, es).tables)
  {
    var x := After(ts, es).tables;
    SameTablesThere(ts, es);
    forall r | r in ts.flows
      ensures x.flows[r] == if r == q then Both(ts.flows[q], a, b) else ts.flows[r]
    {
      FlowFollowsBegun(ts, es, r);
      TwoQueueIrqs(ts, q, a, b, r);
      WriteTwo(ts.flows[q], a, b);
    }
    assert x.flows == ts.flows[q := Both(ts.flows[q], a, b)];
    SockFollowsWrites(ts, es);
    BegunAccounted(ts, es);
    TwoQueueIrqs(ts, q, a, b, q);
    TwoOrders(SockWrites(ts, es), a, b);
    WriteTwo(ts.sock.value, a, b);
    WriteTwo(ts.sock.value, b, a);
  }

  /** The second of the two routes overtakes the first between the two tables. */
  function Overtaking(q: Queue, a: bv8, b: bv8): seq<Step> {
    [WriteFlow(0, q, a), WriteFlow(1, q, b), WriteSock(1), WriteSock(0)]
  }

  lemma {:induction false} OvertakingIsMixed(ts: Tables, q: Queue, a: bv8, b: bv8)
    requires ValidTables(ts) && q in ts.flows && ts.sock.Some?
    ensures var es := Overtaking(q, a, b);
      && Possible(ts, es) && Begun(es) == Two(q, a, b) && After(ts, es).pending == map[]
      && Mixed(ts, q, a, b, After(ts, es).tables)
  {
    var begun := [WriteFlow(0, q, a), WriteFlow(1, q, b)];
    BothBegun(ts, q, a, b);
    assert (begun + [WriteSock(1)]) + [WriteSock(0)] == Overtaking(q, a, b);
    OneMoreStep(ts, begun, WriteSock(1));
    OneMoreStep(ts, begun + [WriteSock(1)], WriteSock(0));
    assert After(ts, Overtaking(q, a, b)).pending == map[];
  }

  lemma {:induction false} BothBegun(ts: Tables, q: Queue, a: bv8, b: bv8)
    requires ValidTables(ts) && q in ts.flows && ts.sock.Some?
    ensures var es := [WriteFlow(0, q, a), WriteFlow(1, q, b)];
      && Possible(ts, es) && Begun(es) == Two(q, a, b)
      && After(ts, es) ==
           State(Tables(ts.flows[q := Both(ts.flows[q], a, b)], ts.sock), map[][0 := a][1 := b])
  {
    var e0, e1 := WriteFlow(0, q, a), WriteFlow(1, q, b);
    var flow := Write(ts.flows[q], a);
    FlowStep(ts, [], e0);
    assert [] + [e0] == [e0];
    assert After(ts, [e0]) == State(Tables(ts.flows[q := flow], ts.sock), map[][0 := a]);
    FlowStep(ts, [e0], e1);
    assert [e0] + [e1] == [e0, e1];
    OverwriteFlow(ts.flows, q, flow, Write(flow, b));
  }

  lemma {:induction false} FlowStep(ts: Tables, es: seq<Step>, e: Step)
    requires ValidTables(ts) && Possible(ts, es) && e.WriteFlow?
    requires var s := After(ts, es); e.t !in s.pending && e.q in s.tables.flows && s.tables.sock.Some?
    ensures Possible(ts, es + [e]) && Begun(es + [e]) == Begun(es) + [Request(Some(e.q), e.irq)]
    ensures var s := After(ts, es);
      After(ts, es + [e]) ==
        State(Tables(s.tables.flows[e.q := Write(s.tables.flows[e.q], e.irq)], s.tables.sock), s.pending[e.t := e.irq])
  {
    OneMoreStep(ts, es, e);
  }

  lemma {:induction false} OverwriteFlow(flows: map<Queue, CpuTable>, q: Queue, x: CpuTable, y: CpuTable)
    ensures flows[q := x][q := y] == flows[q := y]
  {
  }

  lemma {:induction false} OneMoreStep(ts: Tables, es: seq<Step>, e: Step)
    requires ValidTables(ts) && Possible(ts, es) && Enabled(After(ts, es), e)
    ensures Possible(ts, es + [e]) && After(ts, es + [e]) == Next(After(ts, es), e)
    ensures Begun(es + [e]) == if e.WriteFlow? then Begun(es) + [Request(Some(e.q), e.irq)] else Begun(es)
  {
    assert (es + [e])[..|es|] == es;
  }

  /** Overtaking gives the result of a serial order unless the two routes collide in both tables. */
  lemma {:induction false} MixedIsSerial(ts: Tables, q: Queue, a: bv8, b: bv8, x: Tables)
    requires ValidTables(ts) && q in ts.flows && ts.sock.Some? && Mixed(ts, q, a, b, x)
    ensures InOrder(ts, q, a, b, x) || InOrder(ts, q, b, a, x)
       <==> !(Collide(ts.flows[q], a, b) && Collide(ts.sock.value, a, b))
  {
    WritesCommute(ts.flows[q], a, b);
    WritesCommute(ts.sock.value, a, b);
    assert x.flows[q] == Both(ts.flows[q], a, b);
    assert InOrder(ts, q, b, a, x) ==> x.flows[q] == Both(ts.flows[q], b, a);
  }

  /** A run in which two complete routes on one queue end in neither serial order. */
  ghost predicate EndsUnserially(ts: Tables, es: seq<Step>, q: Queue, a: bv8, b: bv8)
    requires ValidTables(ts)
  {
    && Possible(ts, es) && Begun(es) == Two(q, a, b) && After(ts, es).pending == map[]
    && After(ts, es).tables != RouteAll(ts, Two(q, a, b))
    && After(ts, es).tables != RouteAll(ts, Two(q, b, a))
  }

  /** Two routes on one queue can end so that the queue's table holds one and the socket table the other,
      as after no serial order, exactly if their CPU numbers collide in both tables. */
  lemma {:induction false} UnserialIffCollide(ts: Tables, q: Queue, a: bv8, b: bv8)
    requires ValidTables(ts) && q in ts.flows && ts.sock.Some?
    ensures (exists es :: EndsUnserially(ts, es, q, a, b))
       <==> Collide(ts.flows[q], a, b) && Collide(ts.sock.value, a, b)
  {
    SerialIsInOrder(ts, q, a, b);
    SerialIsInOrder(ts, q, b, a);
    if Collide(ts.flows[q], a, b) && Collide(ts.sock.value, a, b) {
      var es := Overtaking(q, a, b);
      OvertakingIsMixed(ts, q, a, b);
      MixedIsSerial(ts, q, a, b, After(ts, es).tables);
      assert EndsUnserially(ts, es, q, a, b);
    }
    forall es | EndsUnserially(ts, es, q, a, b)
      ensures Collide(ts.flows[q], a, b) && Collide(ts.sock.value, a, b)
    {
      TwoRoutesEnd(ts, es, q, a, b);
      MixedIsSerial(ts, q, a, b, After(ts, es).tables);
    }
  }
}
