/** vse_set_entry.c: the command-line client, from its option list to the entries its session
    publishes and what those do to the steering of packets. */
module Cli {
  import opened Integers
  import opened Wrappers
  import opened OpenFlow
  import opened Packets
  import opened Matching
  import opened FlowSpec
  import opened Staging

  datatype Opt = Vni(v: U32) | Irq(v: U32) | IndstMac(mac: Mac) | DstMac(mac: Mac)

  /** The ioctls one option issues. The irq is passed as the address of an unsigned int, of which the
      device reads the first byte. */
  function Commands(host: Host, o: Opt): seq<Cmd> {
    match o
    case Vni(v) => [SetVni(v)]
    case Irq(v) => [SetIrq(FirstByte(host, v))]
    case IndstMac(m) => [SetDlIndst(0, m[0]), SetDlIndst(1, m[1]), SetDlIndst(2, m[2]),
                         SetDlIndst(3, m[3]), SetDlIndst(4, m[4]), SetDlIndst(5, m[5])]
    case DstMac(m) => [SetDlDst(0, m[0]), SetDlDst(1, m[1]), SetDlDst(2, m[2]),
                       SetDlDst(3, m[3]), SetDlDst(4, m[4]), SetDlDst(5, m[5])]
  }

  function FlatMap<T, U>(f: T -> seq<U>, s: seq<T>): seq<U> {
    if s == [] then [] else FlatMap(f, s[..|s| - 1]) + f(s[|s| - 1])
  }

  lemma {:induction false} FlatMapAppend<T, U>(f: T -> seq<U>, s: seq<T>, t: seq<T>)
    ensures FlatMap(f, s + t) == FlatMap(f, s) + FlatMap(f, t)
  {
    if t == [] {
      assert s + t == s;
    } else {
      assert (s + t)[..|s + t| - 1] == s + t[..|t| - 1];
      FlatMapAppend(f, s, t[..|t| - 1]);
    }
  }

  /** The ioctls of the options, in order. */
  function Body(host: Host, opts: seq<Opt>): seq<Cmd> {
    FlatMap(o => Commands(host, o), opts)
  }

  lemma {:induction false} BodyAppend(host: Host, a: seq<Opt>, b: seq<Opt>)
    ensures Body(host, a + b) == Body(host, a) + Body(host, b)
  {
    FlatMapAppend(o => Commands(host, o), a, b);
  }

  lemma {:induction false} BodyLast(host: Host, opts: seq<Opt>)
    requires opts != []
    ensures Body(host, opts) == Body(host, opts[..|opts| - 1]) + Commands(host, opts[|opts| - 1])
  {
  }

  lemma {:induction false} BodyOfOne(host: Host, o: Opt)
    ensures Body(host, [o]) == Commands(host, o)
  {
    BodyLast(host, [o]);
    assert [o][..0] == [];
    assert [] + Commands(host, o) == Commands(host, o);
  }

  /** A whole session: INIT, the options in order, and the final SET_ENTRY. */
  function SessionCommands(host: Host, opts: seq<Opt>): seq<Cmd> {
    [InitWildcards] + Body(host, opts) + [SetEntry]
  }

  /** The calls of a command sequence; memory(i) is the allocation outcome of the i-th. */
  function Calls(cmds: seq<Cmd>, memory: nat -> bool, from: nat): (r: seq<Call>)
    ensures |r| == |cmds|
    ensures forall i :: 0 <= i < |cmds| ==> r[i] == Call(cmds[i], memory(from + i))
  {
    seq(|cmds|, i requires 0 <= i < |cmds| => Call(cmds[i], memory(from + i)))
  }

  lemma {:induction false} CallsAppend(a: seq<Cmd>, b: seq<Cmd>, memory: nat -> bool, from: nat)
    ensures Calls(a + b, memory, from) == Calls(a, memory, from) + Calls(b, memory, from + |a|)
  {
  }

  /** How many calls a session makes for INIT and the given options. */
  function Position(host: Host, opts: seq<Opt>): nat {
    1 + |Body(host, opts)|
  }

  // ---------- The rule an option list spells out ----------

  function LastVni(opts: seq<Opt>): Option<U32> {
    if opts == [] then None
    else if opts[|opts| - 1].Vni? then Some(opts[|opts| - 1].v)
    else LastVni(opts[..|opts| - 1])
  }

  function LastIndst(opts: seq<Opt>): Option<Mac> {
    if opts == [] then None
    else if opts[|opts| - 1].IndstMac? then Some(opts[|opts| - 1].mac)
    else LastIndst(opts[..|opts| - 1])
  }

  function LastDst(opts: seq<Opt>): Option<Mac> {
    if opts == [] then None
    else if opts[|opts| - 1].DstMac? then Some(opts[|opts| - 1].mac)
    else LastDst(opts[..|opts| - 1])
  }

  function LastIrq(opts: seq<Opt>): Option<U32> {
    if opts == [] then None
    else if opts[|opts| - 1].Irq? then Some(opts[|opts| - 1].v)
    else LastIrq(opts[..|opts| - 1])
  }

  /** The packet carries every value the options name, the last one of each kind. */
  predicate MeetsOptions(host: Host, opts: seq<Opt>, p: Packet) {
    && (LastVni(opts).Some? ==> ExtractVni(host, p) == LastVni(opts).value.bits)
    && (LastIndst(opts).Some? ==> InnerDst(p) == LastIndst(opts).value)
    && (LastDst(opts).Some? ==> p.ethDst == LastDst(opts).value)
  }

  /** The CPU the options name, as it arrives in the device. */
  function IrqOf(host: Host, opts: seq<Opt>): U8 {
    if LastIrq(opts).Some? then FirstByte(host, LastIrq(opts).value) else NO_IRQ
  }

  /** The number that arrives is the number given exactly when it fits in a byte, and on a
      big-endian host only zero does. */
  lemma {:induction false} IrqArrives(host: Host, v: U32)
    ensures FirstByte(host, v).bits as bv32 == v.bits <==> (if host.LittleEndian? then v.bits < 0x100 else v.bits == 0)
  {
  }

  /** Without an irq option the CPU is 255, the number that stands for none. */
  lemma {:induction false} NoIrqIs255(host: Host, opts: seq<Opt>)
    requires LastIrq(opts).None?
    ensures IrqOf(host, opts).bits == 0xff
  {
  }

  function RuleWord(opts: seq<Opt>): U32 {
    var a := if LastVni(opts).Some? then Without(ALL_SET, OFPFW_VXLAN_VNI) else ALL_SET;
    var b := if LastIndst(opts).Some? then Without(a, OFPFW_DL_INDST) else a;
    if LastDst(opts).Some? then Without(b, OFPFW_DL_DST) else b
  }

  /** The record that says what MeetsOptions says. */
  function RuleOf(opts: seq<Opt>): Match {
    Match(RuleWord(opts), U8(0),
          if LastDst(opts).Some? then LastDst(opts).value else ZERO_MAC,
          if LastVni(opts).Some? then LastVni(opts).value else U32(0),
          if LastIndst(opts).Some? then LastIndst(opts).value else ZERO_MAC)
  }

  predicate Named(opts: seq<Opt>, f: Field) {
    || (f == OFPFW_VXLAN_VNI && LastVni(opts).Some?)
    || (f == OFPFW_DL_INDST && LastIndst(opts).Some?)
    || (f == OFPFW_DL_DST && LastDst(opts).Some?)
  }

  lemma {:induction false} RuleWordFields(opts: seq<Opt>)
    ensures Live(RuleWord(opts))
    ensures forall f: Field :: Constrained(RuleWord(opts), f) <==> Named(opts, f)
  {
    AllWildcards();
    ClearFlag(ALL_SET, OFPFW_VXLAN_VNI);
    var a := if LastVni(opts).Some? then Without(ALL_SET, OFPFW_VXLAN_VNI) else ALL_SET;
    ClearFlag(a, OFPFW_DL_INDST);
    var b := if LastIndst(opts).Some? then Without(a, OFPFW_DL_INDST) else a;
    ClearFlag(b, OFPFW_DL_DST);
  }

  lemma {:induction false} RuleMeaning(host: Host, opts: seq<Opt>, p: Packet)
    ensures Matches(host, RuleOf(opts), p) <==> MeetsOptions(host, opts, p)
  {
    RuleWordFields(opts);
    var m := RuleOf(opts);
    if Matches(host, m, p) {
      assert Named(opts, OFPFW_VXLAN_VNI) ==> Agrees(host, m, OFPFW_VXLAN_VNI, p);
      assert Named(opts, OFPFW_DL_INDST) ==> Agrees(host, m, OFPFW_DL_INDST, p);
      assert Named(opts, OFPFW_DL_DST) ==> Agrees(host, m, OFPFW_DL_DST, p);
    }
  }

  // ---------- What a session publishes ----------

  /** The entries the options publish on the way, newest first: one for each irq whose allocation
      succeeds, holding the rule of the options before it. */
  function PublishedBy(host: Host, opts: seq<Opt>, memory: nat -> bool): seq<Entry> {
    if opts == [] then []
    else
      var n := |opts| - 1;
      if opts[n].Irq? && memory(Position(host, opts[..n]))
      then [Entry(RuleOf(opts), IrqOf(host, opts))] + PublishedBy(host, opts[..n], memory)
      else PublishedBy(host, opts[..n], memory)
  }

  /** The entry of the final SET_ENTRY, if its allocation succeeds. */
  function Final(host: Host, opts: seq<Opt>, memory: nat -> bool): seq<Entry> {
    if memory(Position(host, opts)) then [Entry(RuleOf(opts), IrqOf(host, opts))] else []
  }

  /** All entries of a session: the final one in front of those. */
  function Publications(host: Host, opts: seq<Opt>, memory: nat -> bool): seq<Entry> {
    Final(host, opts, memory) + PublishedBy(host, opts, memory)
  }

  function IrqCount(opts: seq<Opt>): nat {
    if opts == [] then 0 else IrqCount(opts[..|opts| - 1]) + if opts[|opts| - 1].Irq? then 1 else 0
  }

  lemma {:induction false} OneEntryPerIrq(host: Host, opts: seq<Opt>, memory: nat -> bool)
    ensures |PublishedBy(host, opts, memory)| <= IrqCount(opts)
    ensures (forall i :: memory(i)) ==> |PublishedBy(host, opts, memory)| == IrqCount(opts)
  {
    if opts != [] {
      OneEntryPerIrq(host, opts[..|opts| - 1], memory);
    }
  }

  /** One call, unrolled. */
  lemma {:induction false} RunOne(d: Dev, c: Call)
    ensures Run(d, [c]) == Exec(d, c)
  {
    assert [c][..0] == [];
  }

  /** The octets before the last only write bytes. */
  lemma {:induction false} IndstOctets(host: Host, d: Dev, mac: Mac, memory: nat -> bool, from: nat, k: nat)
    requires k <= 5
    ensures var d' := Run(d, Calls(Commands(host, IndstMac(mac)), memory, from)[..k]);
      && d'.table == d.table && d'.stage.irq == d.stage.irq
      && d'.stage.m.(dlIndst := ZERO_MAC) == d.stage.m.(dlIndst := ZERO_MAC)
      && forall j :: 0 <= j < k ==> d'.stage.m.dlIndst[j] == mac[j]
  {
    var h := Calls(Commands(host, IndstMac(mac)), memory, from);
    if k > 0 {
      IndstOctets(host, d, mac, memory, from, k - 1);
      RunPrefix(d, h, k - 1);
      IndstOctet(Run(d, h[..k - 1]), k - 1, mac[k - 1], memory(from + (k - 1)));
    }
  }

  lemma {:induction false} IndstOctet(d: Dev, k: Octet, b: U8, memory: bool)
    ensures var d' := Exec(d, Call(SetDlIndst(k, b), memory));
      && d'.table == d.table && d'.stage.irq == d.stage.irq
      && d'.stage.m.dlIndst == d.stage.m.dlIndst[k := b]
      && d'.stage.m.(dlIndst := ZERO_MAC) == d.stage.m.(dlIndst := ZERO_MAC,
           wildcards := if k == 5 then Without(d.stage.m.wildcards, OFPFW_DL_INDST) else d.stage.m.wildcards)
  {
  }

  /** The six octet commands write the whole address and clear the wildcard bit once. */
  lemma {:induction false} SixIndst(host: Host, d: Dev, mac: Mac, memory: nat -> bool, from: nat)
    ensures Run(d, Calls(Commands(host, IndstMac(mac)), memory, from)) ==
      d.(stage := d.stage.(m := d.stage.m.(dlIndst := mac, wildcards := Without(d.stage.m.wildcards, OFPFW_DL_INDST))))
  {
    var h := Calls(Commands(host, IndstMac(mac)), memory, from);
    IndstOctets(host, d, mac, memory, from, 5);
    RunPrefix(d, h, 5);
    assert h[..6] == h;
    IndstOctet(Run(d, h[..5]), 5, mac[5], memory(from + 5));
    assert Run(d, h).stage.m.dlIndst == mac;
  }

  /** The octets before the last only write bytes. */
  lemma {:induction false} DstOctets(host: Host, d: Dev, mac: Mac, memory: nat -> bool, from: nat, k: nat)
    requires k <= 5
    ensures var d' := Run(d, Calls(Commands(host, DstMac(mac)), memory, from)[..k]);
      && d'.table == d.table && d'.stage.irq == d.stage.irq
      && d'.stage.m.(dlDst := ZERO_MAC) == d.stage.m.(dlDst := ZERO_MAC)
      && forall j :: 0 <= j < k ==> d'.stage.m.dlDst[j] == mac[j]
  {
    var h := Calls(Commands(host, DstMac(mac)), memory, from);
    if k > 0 {
      DstOctets(host, d, mac, memory, from, k - 1);
      RunPrefix(d, h, k - 1);
      DstOctet(Run(d, h[..k - 1]), k - 1, mac[k - 1], memory(from + (k - 1)));
    }
  }

  lemma {:induction false} DstOctet(d: Dev, k: Octet, b: U8, memory: bool)
    ensures var d' := Exec(d, Call(SetDlDst(k, b), memory));
      && d'.table == d.table && d'.stage.irq == d.stage.irq
      && d'.stage.m.dlDst == d.stage.m.dlDst[k := b]
      && d'.stage.m.(dlDst := ZERO_MAC) == d.stage.m.(dlDst := ZERO_MAC,
           wildcards := if k == 5 then Without(d.stage.m.wildcards, OFPFW_DL_DST) else d.stage.m.wildcards)
  {
  }

  /** The six octet commands write the whole address and clear the wildcard bit once. */
  lemma {:induction false} SixDst(host: Host, d: Dev, mac: Mac, memory: nat -> bool, from: nat)
    ensures Run(d, Calls(Commands(host, DstMac(mac)), memory, from)) ==
      d.(stage := d.stage.(m := d.stage.m.(dlDst := mac, wildcards := Without(d.stage.m.wildcards, OFPFW_DL_DST))))
  {
    var h := Calls(Commands(host, DstMac(mac)), memory, from);
    DstOctets(host, d, mac, memory, from, 5);
    RunPrefix(d, h, 5);
    assert h[..6] == h;
    DstOctet(Run(d, h[..5]), 5, mac[5], memory(from + 5));
    assert Run(d, h).stage.m.dlDst == mac;
  }

  /** One more option turns the rule of the options before it into the rule of all of them. */
  lemma {:induction false} OptionStages(host: Host, opts: seq<Opt>, older: seq<Entry>, memory: nat -> bool)
    requires opts != []
    ensures Run(Before(host, opts, older), LastCalls(host, opts, memory)) == AfterLast(host, opts, older, memory)
  {
    match opts[|opts| - 1] {
      case Vni(v) => VniStages(host, opts, older, memory);
      case Irq(v) => IrqStages(host, opts, older, memory);
      case IndstMac(mac) => IndstStages(host, opts, older, memory);
      case DstMac(mac) => DstStages(host, opts, older, memory);
    }
  }

  /** The calls of the last option. */
  function LastCalls(host: Host, opts: seq<Opt>, memory: nat -> bool): seq<Call>
    requires opts != []
  {
    Calls(Commands(host, opts[|opts| - 1]), memory, Position(host, opts[..|opts| - 1]))
  }

  /** The device before and after the last option, over a table of older entries. */
  function Before(host: Host, opts: seq<Opt>, older: seq<Entry>): Dev
    requires opts != []
  {
    var g := opts[..|opts| - 1];
    Dev(Stage(RuleOf(g), IrqOf(host, g)), older)
  }

  function AfterLast(host: Host, opts: seq<Opt>, older: seq<Entry>, memory: nat -> bool): Dev
    requires opts != []
  {
    var n := |opts| - 1;
    Dev(Stage(RuleOf(opts), IrqOf(host, opts)),
        if opts[n].Irq? && memory(Position(host, opts[..n]))
        then [Entry(RuleOf(opts), IrqOf(host, opts))] + older else older)
  }

  lemma {:induction false} VniStages(host: Host, opts: seq<Opt>, older: seq<Entry>, memory: nat -> bool)
    requires opts != [] && opts[|opts| - 1].Vni?
    ensures Run(Before(host, opts, older), LastCalls(host, opts, memory)) == AfterLast(host, opts, older, memory)
  {
    var at := Position(host, opts[..|opts| - 1]);
    var call := Call(SetVni(opts[|opts| - 1].v), memory(at));
    RuleWordGrows(opts, OFPFW_VXLAN_VNI);
    assert LastCalls(host, opts, memory) == [call];
    RunOne(Before(host, opts, older), call);
  }

  lemma {:induction false} IrqStages(host: Host, opts: seq<Opt>, older: seq<Entry>, memory: nat -> bool)
    requires opts != [] && opts[|opts| - 1].Irq?
    ensures Run(Before(host, opts, older), LastCalls(host, opts, memory)) == AfterLast(host, opts, older, memory)
  {
    var at := Position(host, opts[..|opts| - 1]);
    var call := Call(SetIrq(FirstByte(host, opts[|opts| - 1].v)), memory(at));
    RuleIsStored(opts);
    assert LastCalls(host, opts, memory) == [call];
    RunOne(Before(host, opts, older), call);
  }

  lemma {:induction false} IndstStages(host: Host, opts: seq<Opt>, older: seq<Entry>, memory: nat -> bool)
    requires opts != [] && opts[|opts| - 1].IndstMac?
    ensures Run(Before(host, opts, older), LastCalls(host, opts, memory)) == AfterLast(host, opts, older, memory)
  {
    var at := Position(host, opts[..|opts| - 1]);
    RuleWordGrows(opts, OFPFW_DL_INDST);
    SixIndst(host, Before(host, opts, older), opts[|opts| - 1].mac, memory, at);
  }

  lemma {:induction false} DstStages(host: Host, opts: seq<Opt>, older: seq<Entry>, memory: nat -> bool)
    requires opts != [] && opts[|opts| - 1].DstMac?
    ensures Run(Before(host, opts, older), LastCalls(host, opts, memory)) == AfterLast(host, opts, older, memory)
  {
    var at := Position(host, opts[..|opts| - 1]);
    RuleWordGrows(opts, OFPFW_DL_DST);
    SixDst(host, Before(host, opts, older), opts[|opts| - 1].mac, memory, at);
  }

  lemma {:induction false} RuleWordGrows(opts: seq<Opt>, f: Field)
    requires opts != []
    requires forall g: Field :: Named(opts, g) <==> (g == f || Named(opts[..|opts| - 1], g))
    ensures RuleWord(opts) == Without(RuleWord(opts[..|opts| - 1]), f)
  {
    RuleWordFields(opts);
    RuleWordFields(opts[..|opts| - 1]);
    ClearFlag(RuleWord(opts[..|opts| - 1]), f);
    LiveWordIsItsFields(RuleWord(opts), Without(RuleWord(opts[..|opts| - 1]), f));
  }

  /** The rule holds nothing in the fields it leaves open, so storing it changes nothing. */
  lemma {:induction false} RuleIsStored(opts: seq<Opt>)
    ensures Stored(RuleOf(opts)) == RuleOf(opts)
  {
    RuleWordFields(opts);
    var m := RuleOf(opts);
    assert Constrained(m.wildcards, OFPFW_VXLAN_VNI) <==> LastVni(opts).Some?;
    assert Constrained(m.wildcards, OFPFW_DL_INDST) <==> LastIndst(opts).Some?;
    assert Constrained(m.wildcards, OFPFW_DL_DST) <==> LastDst(opts).Some?;
  }

  /** The device once INIT and the options have run. */
  function AfterOptions(host: Host, opts: seq<Opt>, memory: nat -> bool, older: seq<Entry>): Dev {
    Dev(Stage(RuleOf(opts), IrqOf(host, opts)), PublishedBy(host, opts, memory) + older)
  }

  /** The calls of a session up to the final SET_ENTRY. */
  function Opening(host: Host, opts: seq<Opt>, memory: nat -> bool): seq<Call> {
    Calls([InitWildcards] + Body(host, opts), memory, 0)
  }

  lemma {:induction false} InitRuns(host: Host, d: Dev, memory: nat -> bool)
    ensures Run(d, Opening(host, [], memory)) == AfterOptions(host, [], memory, d.table)
  {
    var call := Call(InitWildcards, memory(0));
    assert Opening(host, [], memory) == [call];
    RunOne(d, call);
    assert [] + d.table == d.table;
  }

  lemma {:induction false} OpeningLast(host: Host, opts: seq<Opt>, memory: nat -> bool)
    requires opts != []
    ensures Opening(host, opts, memory) ==
      Opening(host, opts[..|opts| - 1], memory) + LastCalls(host, opts, memory)
  {
    var g, last := opts[..|opts| - 1], Commands(host, opts[|opts| - 1]);
    BodyLast(host, opts);
    assert [InitWildcards] + Body(host, opts) == ([InitWildcards] + Body(host, g)) + last;
    CallsAppend([InitWildcards] + Body(host, g), last, memory, 0);
  }

  lemma {:induction false} BodyPublishes(host: Host, d: Dev, opts: seq<Opt>, memory: nat -> bool)
    ensures Run(d, Opening(host, opts, memory)) == AfterOptions(host, opts, memory, d.table)
  {
    if opts == [] {
      InitRuns(host, d, memory);
    } else {
      BodyPublishes(host, d, opts[..|opts| - 1], memory);
      BodyStep(host, d, opts, memory);
    }
  }

  /** One more option, seen from the state after the options before it. */
  lemma {:induction false} StageStep(host: Host, opts: seq<Opt>, older: seq<Entry>, memory: nat -> bool)
    requires opts != []
    ensures Run(AfterOptions(host, opts[..|opts| - 1], memory, older), LastCalls(host, opts, memory))
         == AfterOptions(host, opts, memory, older)
  {
    var early := PublishedBy(host, opts[..|opts| - 1], memory) + older;
    OptionStages(host, opts, early, memory);
    PublishedStep(host, opts, older, memory);
    assert Before(host, opts, early) == AfterOptions(host, opts[..|opts| - 1], memory, older);
  }

  lemma {:induction false} RunChain(d: Dev, g: seq<Call>, h: seq<Call>, d1: Dev, d2: Dev)
    requires Run(d, g) == d1 && Run(d1, h) == d2
    ensures Run(d, g + h) == d2
  {
    RunAppend(d, g, h);
  }

  lemma {:induction false} BodyStep(host: Host, d: Dev, opts: seq<Opt>, memory: nat -> bool)
    requires opts != []
    requires Run(d, Opening(host, opts[..|opts| - 1], memory))
          == AfterOptions(host, opts[..|opts| - 1], memory, d.table)
    ensures Run(d, Opening(host, opts, memory)) == AfterOptions(host, opts, memory, d.table)
  {
    var g := opts[..|opts| - 1];
    OpeningLast(host, opts, memory);
    StageStep(host, opts, d.table, memory);
    RunChain(d, Opening(host, g, memory), LastCalls(host, opts, memory),
             AfterOptions(host, g, memory, d.table), AfterOptions(host, opts, memory, d.table));
  }

  lemma {:induction false} PublishedStep(host: Host, opts: seq<Opt>, older: seq<Entry>, memory: nat -> bool)
    requires opts != []
    ensures AfterLast(host, opts, PublishedBy(host, opts[..|opts| - 1], memory) + older, memory)
         == AfterOptions(host, opts, memory, older)
  {
    var n := |opts| - 1;
    var early := PublishedBy(host, opts[..n], memory);
    if opts[n].Irq? && memory(Position(host, opts[..n])) {
      InFront(Entry(RuleOf(opts), IrqOf(host, opts)), early, older);
    }
  }

  lemma {:induction false} InFront(e: Entry, newer: seq<Entry>, older: seq<Entry>)
    ensures [e] + (newer + older) == ([e] + newer) + older
  {
  }

  lemma {:induction false} FinalEntry(host: Host, opts: seq<Opt>, older: seq<Entry>, memory: nat -> bool)
    ensures Run(AfterOptions(host, opts, memory, older), [Call(SetEntry, memory(Position(host, opts)))]) ==
      Dev(Stage(RuleOf(opts), IrqOf(host, opts)), Publications(host, opts, memory) + older)
  {
    RunOne(AfterOptions(host, opts, memory, older), Call(SetEntry, memory(Position(host, opts))));
    RuleIsStored(opts);
    assert Final(host, opts, memory) + (PublishedBy(host, opts, memory) + older)
      == Publications(host, opts, memory) + older;
  }

  /** The calls of a whole session. */
  function SessionCalls(host: Host, opts: seq<Opt>, memory: nat -> bool): seq<Call> {
    Calls(SessionCommands(host, opts), memory, 0)
  }

  lemma {:induction false} SessionSplits(host: Host, opts: seq<Opt>, memory: nat -> bool)
    ensures SessionCalls(host, opts, memory) ==
      Opening(host, opts, memory) + [Call(SetEntry, memory(Position(host, opts)))]
  {
    CallsAppend([InitWildcards] + Body(host, opts), [SetEntry], memory, 0);
    assert |[InitWildcards] + Body(host, opts)| == Position(host, opts);
  }

  /** Whichever allocations succeed, a session stages the rule of its options, and publishes one entry
      for every irq option and a final one as far as their allocations succeed, in front of whatever
      table it finds: each is the rule of the options before it with the CPU they name. */
  lemma {:induction false} SessionPublishes(host: Host, d: Dev, opts: seq<Opt>, memory: nat -> bool)
    ensures Run(d, SessionCalls(host, opts, memory)) ==
      Dev(Stage(RuleOf(opts), IrqOf(host, opts)), Publications(host, opts, memory) + d.table)
  {
    var last := [Call(SetEntry, memory(Position(host, opts)))];
    BodyPublishes(host, d, opts, memory);
    SessionSplits(host, opts, memory);
    FinalEntry(host, opts, d.table, memory);
    RunChain(d, Opening(host, opts, memory), last, AfterOptions(host, opts, memory, d.table),
             Dev(Stage(RuleOf(opts), IrqOf(host, opts)), Publications(host, opts, memory) + d.table));
  }
}
