/** The objects of the kernel module driven through whole sequences of events: what their methods do one
    call after another is what the models of sessions and of mixed runs say. */
module Executions {
  import opened Packets
  import opened Staging
  import opened Device
  import opened Rps
  import Cli
  import Rules
  import Sessions
  import opened Steering

  // ---------- Sessions ----------

  /** What the session model sees of the device and of what the clients have been told. */
  ghost function SysOf(dev: VseDevice, phase: map<nat, Sessions.Phase>): Sessions.Sys
    reads dev, dev.table
  {
    Sessions.Sys(dev.View(), dev.deviceOpen, phase)
  }

  method AnswerOpen(dev: VseDevice, scripts: Sessions.Scripts, told: map<nat, Sessions.Phase>, c: nat)
    returns (phase: map<nat, Sessions.Phase>)
    requires dev.Valid() && Sessions.Enabled(scripts, SysOf(dev, told), Sessions.Open(c))
    modifies dev`deviceOpen
    ensures dev.Valid()
    ensures SysOf(dev, phase) == Sessions.Step(scripts, old(SysOf(dev, told)), Sessions.Open(c))
  {
    var ret := dev.Open();
    phase := told[c := if ret == SUCCESS then Sessions.Running(0) else Sessions.Refused];
  }

  lemma {:induction false} StepOfRun(scripts: Sessions.Scripts, s: Sessions.Sys, h: seq<Call>, c: nat, memory: bool)
    requires Sessions.Enabled(scripts, s, Sessions.Ioctl(c, memory)) && s.dev == Run(BOOT, h)
    ensures var k := s.phase[c].k;
      Sessions.Step(scripts, s, Sessions.Ioctl(c, memory)) ==
        Sessions.Sys(Run(BOOT, h + [Call(scripts(c)[k], memory)]), s.opens, s.phase[c := Sessions.Running(k + 1)])
  {
    RunExtends(h, Call(scripts(c)[s.phase[c].k], memory));
  }

  method AnswerIoctl(dev: VseDevice, scripts: Sessions.Scripts, told: map<nat, Sessions.Phase>, c: nat, memory: bool)
    returns (phase: map<nat, Sessions.Phase>)
    requires dev.Valid() && Sessions.Enabled(scripts, SysOf(dev, told), Sessions.Ioctl(c, memory))
    modifies dev`entryMatch, dev`irq, dev`history
    modifies dev.table`ring, dev.table`contents, dev.table.head, dev.table.ring
    ensures dev.Valid() && fresh(dev.table.Nodes() - old(dev.table.Nodes()))
    ensures SysOf(dev, phase) == Sessions.Step(scripts, old(SysOf(dev, told)), Sessions.Ioctl(c, memory))
  {
    var k := told[c].k;
    ghost var s, h := SysOf(dev, told), dev.history + [Call(scripts(c)[k], memory)];
    StepOfRun(scripts, s, dev.history, c, memory);
    phase := told[c := Sessions.Running(k + 1)];
    ghost var target := Sessions.Sys(Run(BOOT, h), s.opens, phase);
    assert target == Sessions.Step(scripts, s, Sessions.Ioctl(c, memory));
    var ret := dev.Ioctl(scripts(c)[k], memory);
    assert SysOf(dev, phase) == target;
  }

  method AnswerClose(dev: VseDevice, scripts: Sessions.Scripts, told: map<nat, Sessions.Phase>, c: nat)
    returns (phase: map<nat, Sessions.Phase>)
    requires dev.Valid() && Sessions.Enabled(scripts, SysOf(dev, told), Sessions.Close(c))
    modifies dev`deviceOpen
    ensures dev.Valid()
    ensures SysOf(dev, phase) == Sessions.Step(scripts, old(SysOf(dev, told)), Sessions.Close(c))
  {
    var ret := dev.Release();
    phase := told[c := Sessions.Closed(told[c].k)];
  }

  /** One event of the clients, answered by the device; told records what each client has been told. */
  method AnswerClient(dev: VseDevice, scripts: Sessions.Scripts, told: map<nat, Sessions.Phase>, e: Sessions.Event)
    returns (phase: map<nat, Sessions.Phase>)
    requires dev.Valid() && Sessions.Enabled(scripts, SysOf(dev, told), e)
    modifies dev`entryMatch, dev`irq, dev`deviceOpen, dev`history
    modifies dev.table`ring, dev.table`contents, dev.table.head, dev.table.ring
    ensures dev.Valid() && fresh(dev.table.Nodes() - old(dev.table.Nodes()))
    ensures SysOf(dev, phase) == Sessions.Step(scripts, old(SysOf(dev, told)), e)
  {
    match e {
      case Open(c) => phase := AnswerOpen(dev, scripts, told, c);
      case Ioctl(c, memory) => phase := AnswerIoctl(dev, scripts, told, c, memory);
      case Close(c) => phase := AnswerClose(dev, scripts, told, c);
    }
  }

  lemma {:induction false} PossiblePrefix(scripts: Sessions.Scripts, es: seq<Sessions.Event>, i: nat)
    requires Sessions.Possible(scripts, es) && i <= |es|
    ensures Sessions.Possible(scripts, es[..i])
  {
    if i < |es| {
      PossiblePrefix(scripts, es[..|es| - 1], i);
      assert es[..|es| - 1][..i] == es[..i];
    } else {
      assert es[..i] == es;
    }
  }

  lemma {:induction false} AfterNext(scripts: Sessions.Scripts, es: seq<Sessions.Event>, i: nat)
    requires Sessions.Possible(scripts, es) && i < |es|
    ensures Sessions.Possible(scripts, es[..i]) && Sessions.Possible(scripts, es[..i + 1])
    ensures Sessions.Enabled(scripts, Sessions.After(scripts, es[..i]), es[i])
    ensures Sessions.After(scripts, es[..i + 1]) == Sessions.Step(scripts, Sessions.After(scripts, es[..i]), es[i])
  {
    PossiblePrefix(scripts, es, i + 1);
    assert es[..i + 1][..i] == es[..i];
  }

  /** A freshly loaded device under any interleaving of clients: at the end its globals, its list, its
      counter and the answers it gave are those of the session model. */
  method RunClients(dev: VseDevice, scripts: Sessions.Scripts, es: seq<Sessions.Event>)
    returns (phase: map<nat, Sessions.Phase>)
    requires dev.Valid() && dev.history == [] && dev.deviceOpen == 0
    requires Sessions.Possible(scripts, es)
    modifies dev`entryMatch, dev`irq, dev`deviceOpen, dev`history
    modifies dev.table`ring, dev.table`contents, dev.table.head, dev.table.ring
    ensures dev.Valid()
    ensures SysOf(dev, phase) == Sessions.After(scripts, es)
  {
    phase := map[];
    var i := 0;
    while i < |es|
      invariant 0 <= i <= |es| && dev.Valid()
      invariant fresh(dev.table.Nodes() - old(dev.table.Nodes()))
      invariant Sessions.Possible(scripts, es[..i])
      invariant SysOf(dev, phase) == Sessions.After(scripts, es[..i])
    {
      AfterNext(scripts, es, i);
      phase := AnswerClient(dev, scripts, phase, es[i]);
      i := i + 1;
    }
    assert es[..i] == es;
  }

  // ---------- Control calls and packets ----------

  datatype Input = Command(cmd: Cmd, memory: bool) | Arrive(skb: SkBuff, d: nat)

  predicate Fits(vse: Vse, x: Input) {
    x.Arrive? ==> x.d < |vse.rps.devs|
  }

  /** What the model of mixed runs sees of an input. */
  ghost function EventOf(vse: Vse, x: Input): Event
    requires Fits(vse, x) && (x.Arrive? ==> x.skb.Valid())
    reads if x.Arrive? then {x.skb} else {}
  {
    match x
    case Command(cmd, memory) => Control(Call(cmd, memory))
    case Arrive(skb, d) => Receive(skb.View(), RxQueueOf(d, vse.rps.devs[d].inUse, skb.rxQueue), skb.rxhash)
  }

  ghost function MachineOf(vse: Vse): Machine
    requires vse.rps.Valid()
    reads vse.dev, vse.dev.table, vse.rps.Arrays()
  {
    Machine(vse.dev.View(), vse.rps.View())
  }

  method OneCommand(vse: Vse, cmd: Cmd, memory: bool)
    requires vse.Valid()
    modifies vse.dev`entryMatch, vse.dev`irq, vse.dev`history
    modifies vse.dev.table`ring, vse.dev.table`contents, vse.dev.table.head, vse.dev.table.ring
    ensures vse.Valid() && fresh(vse.dev.table.Nodes() - old(vse.dev.table.Nodes()))
    ensures vse.dev.View() == Exec(old(vse.dev.View()), Call(cmd, memory)) && vse.rps.View() == old(vse.rps.View())
  {
    RunExtends(vse.dev.history, Call(cmd, memory));
    var ret := vse.dev.Ioctl(cmd, memory);
    vse.rps.ViewKept();
  }

  method OnePacket(vse: Vse, skb: SkBuff, d: nat)
    requires vse.Valid() && skb.Valid() && d < |vse.rps.devs|
    modifies skb, vse.rps.Arrays()
    ensures vse.Valid() && skb.Valid() && skb.View() == old(skb.View())
    ensures skb.rxhash == Leaves(vse.dev.table.host, old(MachineOf(vse)), old(EventOf(vse, Arrive(skb, d))))
    ensures MachineOf(vse) == Step(vse.dev.table.host, old(MachineOf(vse)), old(EventOf(vse, Arrive(skb, d))))
  {
    SteeringIsNewestMet(vse.dev.table.host, vse.dev.history, skb.View());
    vse.HandleData(skb, d);
  }

  ghost function Buffers(inputs: seq<Input>): set<SkBuff> {
    set i | 0 <= i < |inputs| && inputs[i].Arrive? :: inputs[i].skb
  }

  predicate AllFit(vse: Vse, inputs: seq<Input>) {
    forall i :: 0 <= i < |inputs| ==> Fits(vse, inputs[i])
  }

  /** What a buffer holds between two arrivals: how the packet in it reads, and its hash. */
  datatype Content = Content(view: Packet, hash: bv32)

  type Contents = map<SkBuff, Content>

  ghost function ContentOf(b: SkBuff): Content
    requires b.Valid()
    reads b
  {
    Content(b.View(), b.rxhash)
  }

  ghost predicate Holding(inputs: seq<Input>, held: Contents)
    reads Buffers(inputs)
  {
    forall b :: b in Buffers(inputs) ==> b in held && b.Valid() && ContentOf(b) == held[b]
  }

  /** Once the input is handled, its buffer holds the same packet and the hash it left with. */
  function Left(held: Contents, x: Input, hash: bv32): Contents {
    if x.Arrive? && x.skb in held then held[x.skb := Content(held[x.skb].view, hash)] else held
  }

  /** What the buffers hold when the first inputs have been handled and left with the given hashes. */
  function HeldAfter(inputs: seq<Input>, held: Contents, hashes: seq<bv32>): Contents
    requires |hashes| <= |inputs|
    decreases hashes
  {
    if hashes == [] then held
    else
      var n := |hashes| - 1;
      Left(HeldAfter(inputs, held, hashes[..n]), inputs[n], hashes[n])
  }

  /** A buffer holds the hash it left with the last time it arrived, and the packet it came with. */
  lemma {:induction false} HeldSinceLast(inputs: seq<Input>, held: Contents, hashes: seq<bv32>, b: SkBuff, j: nat)
    requires |hashes| <= |inputs| && j < |hashes| && inputs[j].Arrive? && inputs[j].skb == b && b in held
    requires forall k :: j < k < |hashes| && inputs[k].Arrive? ==> inputs[k].skb != b
    ensures b in HeldAfter(inputs, held, hashes)
    ensures HeldAfter(inputs, held, hashes)[b] == Content(held[b].view, hashes[j])
    decreases hashes
  {
    var n := |hashes| - 1;
    SamePackets(inputs, held, hashes[..n], b);
    if j < n {
      HeldSinceLast(inputs, held, hashes[..n], b, j);
    }
  }

  lemma {:induction false} SamePackets(inputs: seq<Input>, held: Contents, hashes: seq<bv32>, b: SkBuff)
    requires |hashes| <= |inputs| && b in held
    ensures b in HeldAfter(inputs, held, hashes) && HeldAfter(inputs, held, hashes)[b].view == held[b].view
    decreases hashes
  {
    if hashes != [] {
      SamePackets(inputs, held, hashes[..|hashes| - 1], b);
    }
  }

  /** As long as it has not arrived, it holds what it came with. */
  lemma {:induction false} HeldFromStart(inputs: seq<Input>, held: Contents, hashes: seq<bv32>, b: SkBuff)
    requires |hashes| <= |inputs| && b in held
    requires forall k :: 0 <= k < |hashes| && inputs[k].Arrive? ==> inputs[k].skb != b
    ensures b in HeldAfter(inputs, held, hashes) && HeldAfter(inputs, held, hashes)[b] == held[b]
    decreases hashes
  {
    if hashes != [] {
      HeldFromStart(inputs, held, hashes[..|hashes| - 1], b);
    }
  }

  /** The event is the input: the same call, or the packet and the hash that its buffer holds, and its
      queue. */
  predicate Seen(vse: Vse, x: Input, held: Contents, e: Event) {
    && Fits(vse, x)
    && match x
       case Command(cmd, memory) => e == Control(Call(cmd, memory))
       case Arrive(skb, d) =>
         && skb in held
         && e == Receive(held[skb].view, RxQueueOf(d, vse.rps.devs[d].inUse, skb.rxQueue), held[skb].hash)
  }

  lemma {:induction false} SeenNow(vse: Vse, inputs: seq<Input>, held: Contents, i: nat)
    requires AllFit(vse, inputs) && Holding(inputs, held) && i < |inputs|
    ensures inputs[i].Arrive? ==> inputs[i].skb in held && inputs[i].skb.Valid()
    ensures Seen(vse, inputs[i], held, EventOf(vse, inputs[i]))
  {
    assert inputs[i].Arrive? ==> inputs[i].skb in Buffers(inputs);
  }

  method CommandInput(vse: Vse, inputs: seq<Input>, ghost held: Contents, i: nat)
    returns (ghost e: Event)
    requires vse.Valid() && AllFit(vse, inputs) && Holding(inputs, held)
    requires i < |inputs| && inputs[i].Command?
    modifies vse.dev`entryMatch, vse.dev`irq, vse.dev`history
    modifies vse.dev.table`ring, vse.dev.table`contents, vse.dev.table.head, vse.dev.table.ring
    ensures vse.Valid() && AllFit(vse, inputs) && Holding(inputs, held)
    ensures fresh(vse.dev.table.Nodes() - old(vse.dev.table.Nodes()))
    ensures Seen(vse, inputs[i], held, e)
    ensures MachineOf(vse) == Step(vse.dev.table.host, old(MachineOf(vse)), e)
  {
    SeenNow(vse, inputs, held, i);
    e := EventOf(vse, inputs[i]);
    OneCommand(vse, inputs[i].cmd, inputs[i].memory);
  }

  method ArrivalInput(vse: Vse, inputs: seq<Input>, ghost held: Contents, i: nat)
    returns (hash: bv32, ghost e: Event)
    requires vse.Valid() && AllFit(vse, inputs) && Holding(inputs, held)
    requires i < |inputs| && inputs[i].Arrive?
    modifies inputs[i].skb, vse.rps.Arrays()
    ensures vse.Valid() && AllFit(vse, inputs) && Holding(inputs, Left(held, inputs[i], hash))
    ensures Seen(vse, inputs[i], held, e)
    ensures MachineOf(vse) == Step(vse.dev.table.host, old(MachineOf(vse)), e)
    ensures hash == Leaves(vse.dev.table.host, old(MachineOf(vse)), e)
  {
    SeenNow(vse, inputs, held, i);
    e := EventOf(vse, inputs[i]);
    var skb := inputs[i].skb;
    OnePacket(vse, skb, inputs[i].d);
    hash := skb.rxhash;
  }

  /** The events are the first inputs, seen as they were when their turn came. */
  ghost predicate AllSeen(vse: Vse, inputs: seq<Input>, held: Contents, hashes: seq<bv32>,
                          es: seq<Event>) {
    && |hashes| == |es| <= |inputs|
    && forall i :: 0 <= i < |es| ==>
         Seen(vse, inputs[i], HeldAfter(inputs, held, hashes[..i]), es[i])
  }

  /** Each packet left with the hash that the model gives for its turn. */
  ghost predicate Hashed(host: Host, ts: Tables, hashes: seq<bv32>, es: seq<Event>)
    requires ValidTables(ts)
  {
    && |hashes| == |es|
    && forall i :: 0 <= i < |es| && es[i].Receive? ==>
         hashes[i] == Leaves(host, RunAll(host, ts, es[..i]), es[i])
  }

  lemma {:induction false} SeenNext(vse: Vse, inputs: seq<Input>, held: Contents,
                                    hashes: seq<bv32>, es: seq<Event>, hash: bv32, e: Event)
    requires AllSeen(vse, inputs, held, hashes, es) && |es| < |inputs|
    requires Seen(vse, inputs[|es|], HeldAfter(inputs, held, hashes), e)
    ensures AllSeen(vse, inputs, held, hashes + [hash], es + [e])
    ensures HeldAfter(inputs, held, hashes + [hash]) == Left(HeldAfter(inputs, held, hashes), inputs[|es|], hash)
  {
    var hs, fs := hashes + [hash], es + [e];
    assert hs[..|hashes|] == hashes;
    forall i | 0 <= i < |fs|
      ensures Seen(vse, inputs[i], HeldAfter(inputs, held, hs[..i]), fs[i])
    {
      if i < |es| {
        assert hs[..i] == hashes[..i] && fs[i] == es[i];
      }
    }
  }

  lemma {:induction false} HashedNext(host: Host, ts: Tables, hashes: seq<bv32>, es: seq<Event>,
                                      hash: bv32, e: Event)
    requires ValidTables(ts) && Hashed(host, ts, hashes, es)
    requires e.Receive? ==> hash == Leaves(host, RunAll(host, ts, es), e)
    ensures Hashed(host, ts, hashes + [hash], es + [e])
  {
    var longer := es + [e];
    assert longer[..|es|] == es;
    assert forall i :: 0 <= i < |es| ==> longer[..i] == es[..i];
  }

  lemma {:induction false} RunAllNext(host: Host, ts: Tables, es: seq<Event>, e: Event)
    requires ValidTables(ts)
    ensures RunAll(host, ts, es + [e]) == Step(host, RunAll(host, ts, es), e)
  {
    assert (es + [e])[..|es|] == es;
  }

  /** The run so far is one of the model: the events are the first inputs, the packets left with the hashes
      of their turns, and globals, list and tables are where the model is. */
  ghost predicate OnTrack(vse: Vse, inputs: seq<Input>, held: Contents, ts: Tables,
                          hashes: seq<bv32>, es: seq<Event>)
    requires ValidTables(ts)
    reads vse, vse.dev, vse.dev.table, vse.dev.table.head, vse.dev.table.ring, vse.rps.Arrays(), Buffers(inputs)
  {
    && vse.Valid() && AllFit(vse, inputs)
    && AllSeen(vse, inputs, held, hashes, es)
    && Hashed(vse.dev.table.host, ts, hashes, es)
    && MachineOf(vse) == RunAll(vse.dev.table.host, ts, es)
    && Holding(inputs, HeldAfter(inputs, held, hashes))
  }

  lemma {:induction false} StartsOnTrack(vse: Vse, inputs: seq<Input>, held: Contents)
    requires vse.Valid() && vse.dev.history == [] && AllFit(vse, inputs) && Holding(inputs, held)
    ensures OnTrack(vse, inputs, held, vse.rps.View(), [], [])
  {
  }

  lemma {:induction false} StaysOnTrack(vse: Vse, inputs: seq<Input>, held: Contents, ts: Tables,
                                        hashes: seq<bv32>, es: seq<Event>, hash: bv32, e: Event)
    requires ValidTables(ts) && vse.Valid() && AllFit(vse, inputs)
    requires AllSeen(vse, inputs, held, hashes, es) && Hashed(vse.dev.table.host, ts, hashes, es)
    requires |es| < |inputs| && Seen(vse, inputs[|es|], HeldAfter(inputs, held, hashes), e)
    requires MachineOf(vse) == Step(vse.dev.table.host, RunAll(vse.dev.table.host, ts, es), e)
    requires e.Receive? ==> hash == Leaves(vse.dev.table.host, RunAll(vse.dev.table.host, ts, es), e)
    requires Holding(inputs, Left(HeldAfter(inputs, held, hashes), inputs[|es|], hash))
    ensures OnTrack(vse, inputs, held, ts, hashes + [hash], es + [e])
  {
    SeenNext(vse, inputs, held, hashes, es, hash, e);
    HashedNext(vse.dev.table.host, ts, hashes, es, hash, e);
    RunAllNext(vse.dev.table.host, ts, es, e);
  }

  /** One more input. */
  method NextInput(vse: Vse, inputs: seq<Input>, ghost held: Contents, ghost ts: Tables,
                   hashes: seq<bv32>, ghost es: seq<Event>)
    returns (hashes': seq<bv32>, ghost es': seq<Event>)
    requires ValidTables(ts) && OnTrack(vse, inputs, held, ts, hashes, es) && |hashes| < |inputs|
    modifies vse.dev`entryMatch, vse.dev`irq, vse.dev`history
    modifies vse.dev.table`ring, vse.dev.table`contents, vse.dev.table.head, vse.dev.table.ring
    modifies Buffers(inputs), vse.rps.Arrays()
    ensures OnTrack(vse, inputs, held, ts, hashes', es') && |hashes'| == |hashes| + 1
    ensures fresh(vse.dev.table.Nodes() - old(vse.dev.table.Nodes()))
  {
    ghost var e, holds := Control(Call(Unknown, false)), HeldAfter(inputs, held, hashes);
    var i, hash := |hashes|, 0;
    if inputs[i].Command? {
      e := CommandInput(vse, inputs, holds, i);
    } else {
      hash, e := ArrivalInput(vse, inputs, holds, i);
    }
    StaysOnTrack(vse, inputs, held, ts, hashes, es, hash, e);
    hashes', es' := hashes + [hash], es + [e];
  }

  /** A freshly loaded module under any mixture of control calls and packets, the same buffer perhaps
      received more than once: at the end its globals, its list and all RPS tables are those of the
      model of mixed runs, and every packet left with the hash that the model gives for its turn. */
  method RunMixed(vse: Vse, inputs: seq<Input>, ghost held: Contents)
    returns (hashes: seq<bv32>, ghost es: seq<Event>)
    requires vse.Valid() && vse.dev.history == [] && AllFit(vse, inputs) && Holding(inputs, held)
    modifies vse.dev`entryMatch, vse.dev`irq, vse.dev`history
    modifies vse.dev.table`ring, vse.dev.table`contents, vse.dev.table.head, vse.dev.table.ring
    modifies Buffers(inputs), vse.rps.Arrays()
    ensures |es| == |inputs| && OnTrack(vse, inputs, held, old(vse.rps.View()), hashes, es)
  {
    hashes, es := [], [];
    ghost var ts := vse.rps.View();
    StartsOnTrack(vse, inputs, held);
    while |hashes| < |inputs|
      invariant OnTrack(vse, inputs, held, ts, hashes, es)
      invariant fresh(vse.dev.table.Nodes() - old(vse.dev.table.Nodes()))
      decreases |inputs| - |hashes|
    {
      hashes, es := NextInput(vse, inputs, held, ts, hashes, es);
    }
  }

  // ---------- A session and a packet ----------

  method RunCommands(vse: Vse, cmds: seq<Cmd>, memory: nat -> bool)
    requires vse.Valid()
    modifies vse.dev`entryMatch, vse.dev`irq, vse.dev`history
    modifies vse.dev.table`ring, vse.dev.table`contents, vse.dev.table.head, vse.dev.table.ring
    ensures vse.Valid()
    ensures vse.dev.history == old(vse.dev.history) + Cli.Calls(cmds, memory, 0)
  {
    ghost var before, calls := vse.dev.history, Cli.Calls(cmds, memory, 0);
    for i := 0 to |cmds|
      invariant vse.Valid() && fresh(vse.dev.table.Nodes() - old(vse.dev.table.Nodes()))
      invariant vse.dev.history == before + calls[..i]
    {
      ghost var earlier := vse.dev.history;
      var ret := vse.dev.Ioctl(cmds[i], memory(i));
      OneMore(before, calls, i);
      assert vse.dev.history == earlier + [calls[i]];
    }
    assert calls[..|cmds|] == calls;
  }

  lemma {:induction false} OneMore(before: seq<Call>, calls: seq<Call>, i: nat)
    requires i < |calls|
    ensures (before + calls[..i]) + [calls[i]] == before + calls[..i + 1]
  {
  }

  /** A client's session and then a packet: it leaves with the CPU of the newest publication of the session
      that it meets; with 255 if it meets the options and they name no CPU; and as it would have left
      before if it meets none. */
  method SessionThenPacket(vse: Vse, opts: seq<Cli.Opt>, memory: nat -> bool, skb: SkBuff, d: nat)
    requires vse.Valid() && skb.Valid() && d < |vse.rps.devs|
    modifies vse.dev`entryMatch, vse.dev`irq, vse.dev`history
    modifies vse.dev.table`ring, vse.dev.table`contents, vse.dev.table.head, vse.dev.table.ring
    modifies skb, vse.rps.Arrays()
    ensures var host, p := vse.dev.table.host, old(skb.View());
      var met, before := Rules.SessionMet(host, opts, memory, p), NewestMetIrq(host, old(vse.dev.history), p);
      skb.rxhash == if met.Some? then met.value.bits as bv32
                    else if before.Some? then before.value.bits as bv32 else old(skb.rxhash)
    ensures var host, p := vse.dev.table.host, old(skb.View());
      Cli.LastIrq(opts).None? && memory(Cli.Position(host, opts)) && Cli.MeetsOptions(host, opts, p) ==>
        skb.rxhash == 255
  {
    ghost var host, p := vse.dev.table.host, skb.View();
    Rules.SessionOverrides(host, vse.dev.history, opts, memory, p);
    RunCommands(vse, Cli.SessionCommands(vse.dev.table.host, opts), memory);
    vse.HandleData(skb, d);
    if Cli.LastIrq(opts).None? && memory(Cli.Position(host, opts)) && Cli.MeetsOptions(host, opts, p) {
      Rules.NoIrqSteersTo255(host, opts, memory, p);
    }
  }
}
