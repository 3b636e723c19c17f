/** The control device as a state machine over command histories: one shared staging record, a CPU
    number, and the table the publishing commands grow. */
module Staging {
  import opened Integers
  import opened Wrappers
  import opened OpenFlow
  import opened Packets
  import opened Matching
  import opened FlowSpec

  type Octet = k: nat | k < 6

  /** The ioctl commands, with the byte or word read from user memory. */
  datatype Cmd =
    | InitWildcards
    | SetVmId(b: U8)
    | SetDlIndst(k: Octet, b: U8)
    | SetDlDst(k: Octet, b: U8)
    | SetVni(v: U32)
    | SetIrq(b: U8)
    | SetEntry
    | Unknown

  /** One ioctl call; memory says whether an entry could be allocated if one was asked for. */
  datatype Call = Call(cmd: Cmd, memory: bool)

  datatype Stage = Stage(m: Match, irq: U8)
  datatype Dev = Dev(stage: Stage, table: seq<Entry>)

  /** The globals as the module loader leaves them: all zero, so every field looks constrained. */
  const BOOT := Dev(Stage(ZERO_MATCH, U8(0)), [])

  /** The field a command adds to the match: for an address, its sixth octet does. */
  function Completes(c: Cmd): Option<Field> {
    match c
    case SetVmId(_) => Some(OFPFW_VM_ID)
    case SetDlIndst(k, _) => if k == 5 then Some(OFPFW_DL_INDST) else None
    case SetDlDst(k, _) => if k == 5 then Some(OFPFW_DL_DST) else None
    case SetVni(_) => Some(OFPFW_VXLAN_VNI)
    case _ => None
  }

  /** What a command does to the staging record and the CPU number. */
  function Staged(s: Stage, c: Cmd): Stage {
    match c
    case InitWildcards => Stage(ZERO_MATCH.(wildcards := ALL_SET), NO_IRQ)
    case SetVmId(b) => s.(m := s.m.(vmId := b, wildcards := Without(s.m.wildcards, OFPFW_VM_ID)))
    case SetDlIndst(k, b) =>
      if k == 5
      then s.(m := s.m.(dlIndst := s.m.dlIndst[k := b], wildcards := Without(s.m.wildcards, OFPFW_DL_INDST)))
      else s.(m := s.m.(dlIndst := s.m.dlIndst[k := b]))
    case SetDlDst(k, b) =>
      if k == 5
      then s.(m := s.m.(dlDst := s.m.dlDst[k := b], wildcards := Without(s.m.wildcards, OFPFW_DL_DST)))
      else s.(m := s.m.(dlDst := s.m.dlDst[k := b]))
    case SetVni(v) => s.(m := s.m.(vxVni := v, wildcards := Without(s.m.wildcards, OFPFW_VXLAN_VNI)))
    case SetIrq(b) => s.(irq := b)
    case SetEntry => s
    case Unknown => s
  }

  /** SET_IRQ falls through into SET_ENTRY, so both publish. */
  predicate Publishes(c: Call) {
    (c.cmd.SetIrq? || c.cmd.SetEntry?) && c.memory
  }

  /** INIT leaves every field open, every octet and the network identifier zero, and 255 for the CPU. */
  lemma {:induction false} InitStages(s: Stage)
    ensures var s' := Staged(s, InitWildcards);
      && s'.m.wildcards.bits == 0x3f_ffff && s'.irq.bits == 0xff
      && s'.m.vmId.bits == 0 && s'.m.vxVni.bits == 0
      && forall k :: 0 <= k < 6 ==> s'.m.dlDst[k].bits == 0 && s'.m.dlIndst[k].bits == 0
  {
  }

  /** An octet goes to its own place, and only the sixth makes its address part of the match. */
  lemma {:induction false} OctetStages(s: Stage, k: Octet, b: U8)
    ensures var s' := Staged(s, SetDlIndst(k, b));
      && s'.m.dlIndst == s.m.dlIndst[k := b] && s'.m.dlDst == s.m.dlDst
      && (Constrained(s'.m.wildcards, OFPFW_DL_INDST) <==> k == 5 || Constrained(s.m.wildcards, OFPFW_DL_INDST))
    ensures var s' := Staged(s, SetDlDst(k, b));
      && s'.m.dlDst == s.m.dlDst[k := b] && s'.m.dlIndst == s.m.dlIndst
      && (Constrained(s'.m.wildcards, OFPFW_DL_DST) <==> k == 5 || Constrained(s.m.wildcards, OFPFW_DL_DST))
  {
    WithoutField(s.m.wildcards, OFPFW_DL_INDST, OFPFW_DL_INDST);
    WithoutField(s.m.wildcards, OFPFW_DL_DST, OFPFW_DL_DST);
  }

  /** The machine id and the network identifier are written whole and become part of the match at once;
      the CPU number is no part of it, and publishing stages nothing. */
  lemma {:induction false} OthersStage(s: Stage, b: U8, v: U32)
    ensures var s' := Staged(s, SetVmId(b));
      s'.m.vmId == b && Constrained(s'.m.wildcards, OFPFW_VM_ID) && s'.irq == s.irq
    ensures var s' := Staged(s, SetVni(v));
      s'.m.vxVni == v && Constrained(s'.m.wildcards, OFPFW_VXLAN_VNI) && s'.irq == s.irq
    ensures Staged(s, SetIrq(b)) == Stage(s.m, b)
    ensures Staged(s, SetEntry) == s && Staged(s, Unknown) == s
  {
    WithoutField(s.m.wildcards, OFPFW_VM_ID, OFPFW_VM_ID);
    WithoutField(s.m.wildcards, OFPFW_VXLAN_VNI, OFPFW_VXLAN_VNI);
  }

  function Exec(d: Dev, c: Call): Dev {
    var s := Staged(d.stage, c.cmd);
    Dev(s, if Publishes(c) then [Entry(Stored(s.m), s.irq)] + d.table else d.table)
  }

  function Run(d: Dev, h: seq<Call>): Dev {
    if h == [] then d else Exec(Run(d, h[..|h| - 1]), h[|h| - 1])
  }

  lemma {:induction false} RunAppend(d: Dev, g: seq<Call>, h: seq<Call>)
    ensures Run(d, g + h) == Run(Run(d, g), h)
  {
    if h == [] {
      assert g + h == g;
    } else {
      assert (g + h)[..|g + h| - 1] == g + h[..|h| - 1];
      RunAppend(d, g, h[..|h| - 1]);
    }
  }

  lemma {:induction false} RunPrefix(d: Dev, h: seq<Call>, k: nat)
    requires k < |h|
    ensures Run(d, h[..k + 1]) == Exec(Run(d, h[..k]), h[k])
  {
    assert h[..k + 1][..k] == h[..k];
  }

  // ---------- The staging record as a fold of history ----------

  /** The independently written places of the staging state. */
  datatype Slot = VmIdSlot | IndstSlot(k: Octet) | DstSlot(k: Octet) | VniSlot | IrqSlot

  datatype Datum = Byte(b: U8) | Vni(v: U32)

  function Zero(x: Slot): Datum { if x.VniSlot? then Vni(U32(0)) else Byte(U8(0)) }

  function Value(s: Stage, x: Slot): Datum {
    match x
    case VmIdSlot => Byte(s.m.vmId)
    case IndstSlot(k) => Byte(s.m.dlIndst[k])
    case DstSlot(k) => Byte(s.m.dlDst[k])
    case VniSlot => Vni(s.m.vxVni)
    case IrqSlot => Byte(s.irq)
  }

  /** What a command writes to a slot, if anything. INIT writes every slot. */
  function Writes(c: Cmd, x: Slot): Option<Datum> {
    match c
    case InitWildcards => Some(if x.IrqSlot? then Byte(NO_IRQ) else Zero(x))
    case SetVmId(b) => if x == VmIdSlot then Some(Byte(b)) else None
    case SetDlIndst(k, b) => if x == IndstSlot(k) then Some(Byte(b)) else None
    case SetDlDst(k, b) => if x == DstSlot(k) then Some(Byte(b)) else None
    case SetVni(v) => if x == VniSlot then Some(Vni(v)) else None
    case SetIrq(b) => if x == IrqSlot then Some(Byte(b)) else None
    case SetEntry => None
    case Unknown => None
  }

  lemma {:induction false} StagedValue(s: Stage, c: Cmd, x: Slot)
    ensures Value(Staged(s, c), x) == if Writes(c, x).Some? then Writes(c, x).value else Value(s, x)
  {
  }

  lemma {:induction false} StagedFields(s: Stage, c: Cmd)
    ensures forall f: Field :: Constrained(Staged(s, c).m.wildcards, f)
                          <==> !c.InitWildcards? && (Completes(c) == Some(f) || Constrained(s.m.wildcards, f))
    ensures Live(Staged(s, c).m.wildcards) <==> c.InitWildcards? || Live(s.m.wildcards)
  {
    AllWildcards();
    if Completes(c).Some? {
      ClearFlag(s.m.wildcards, Completes(c).value);
    }
  }

  /** The datum last written to a slot in the history, and zero if there is none. */
  function LastWritten(h: seq<Call>, x: Slot): (r: Datum)
    ensures r.Vni? <==> x.VniSlot?
  {
    if h == [] then Zero(x)
    else if Writes(h[|h| - 1].cmd, x).Some? then Writes(h[|h| - 1].cmd, x).value
    else LastWritten(h[..|h| - 1], x)
  }

  /** LastWritten is what the command at i wrote when no later command writes the slot. */
  lemma {:induction false} LastWrittenAt(h: seq<Call>, x: Slot, i: nat)
    requires i < |h| && Writes(h[i].cmd, x).Some?
    requires forall j :: i < j < |h| ==> Writes(h[j].cmd, x).None?
    ensures LastWritten(h, x) == Writes(h[i].cmd, x).value
  {
    if i < |h| - 1 {
      LastWrittenAt(h[..|h| - 1], x, i);
    }
  }

  lemma {:induction false} NeverWritten(h: seq<Call>, x: Slot)
    requires forall i :: 0 <= i < |h| ==> Writes(h[i].cmd, x).None?
    ensures LastWritten(h, x) == Zero(x)
  {
    if h != [] {
      NeverWritten(h[..|h| - 1], x);
    }
  }

  /** After any history every slot of the staging state holds the datum last written to it. */
  lemma {:induction false} SlotHoldsLastWritten(h: seq<Call>, x: Slot)
    ensures Value(Run(BOOT, h).stage, x) == LastWritten(h, x)
  {
    if h != [] {
      var n := |h| - 1;
      SlotHoldsLastWritten(h[..n], x);
      StagedValue(Run(BOOT, h[..n]).stage, h[n].cmd, x);
    }
  }

  predicate Initialised(h: seq<Call>) {
    exists i :: 0 <= i < |h| && h[i].cmd.InitWildcards?
  }

  /** A field has been completed since the last INIT. */
  predicate Declared(h: seq<Call>, f: Field) {
    exists i :: 0 <= i < |h| && Completes(h[i].cmd) == Some(f) && forall j :: i < j < |h| ==> !h[j].cmd.InitWildcards?
  }

  /** After an INIT the record constrains exactly the fields completed since, and is live; before
      the first INIT it constrains everything and is dead. */
  lemma {:induction false} WildcardsAreDeclarations(h: seq<Call>)
    ensures Initialised(h) <==> Live(Run(BOOT, h).stage.m.wildcards)
    ensures Initialised(h) ==>
      forall f: Field :: Constrained(Run(BOOT, h).stage.m.wildcards, f) <==> Declared(h, f)
    ensures !Initialised(h) ==> forall f: Field :: Constrained(Run(BOOT, h).stage.m.wildcards, f)
  {
    AllWildcards();
    if h != [] {
      var n := |h| - 1;
      var g := h[..n];
      WildcardsAreDeclarations(g);
      StagedFields(Run(BOOT, g).stage, h[n].cmd);
      assert Initialised(h) <==> Initialised(g) || h[n].cmd.InitWildcards?;
      forall f: Field
        ensures Declared(h, f) <==> !h[n].cmd.InitWildcards? && (Completes(h[n].cmd) == Some(f) || Declared(g, f))
      {
        DeclaredStep(h, f);
      }
    }
  }

  lemma {:induction false} DeclaredStep(h: seq<Call>, f: Field)
    requires h != []
    ensures Declared(h, f) <==>
      && !h[|h| - 1].cmd.InitWildcards?
      && (Completes(h[|h| - 1].cmd) == Some(f) || Declared(h[..|h| - 1], f))
  {
    var n := |h| - 1;
    var g := h[..n];
    if Declared(h, f) {
      var i :| 0 <= i < |h| && Completes(h[i].cmd) == Some(f) && forall j :: i < j < |h| ==> !h[j].cmd.InitWildcards?;
      if i < n {
        assert g[i] == h[i];
        assert !h[n].cmd.InitWildcards?;
      }
    }
    if Declared(g, f) && !h[n].cmd.InitWildcards? {
      var i :| 0 <= i < |g| && Completes(g[i].cmd) == Some(f) && forall j :: i < j < |g| ==> !g[j].cmd.InitWildcards?;
      assert h[i] == g[i];
      assert forall j :: i < j < |h| ==> !h[j].cmd.InitWildcards?;
    }
  }

  // ---------- What is published, and what packets do with it ----------

  /** The record that the last writes spell out. */
  function Record(h: seq<Call>): Match {
    Match(ALL_CLEAR,
          LastWritten(h, VmIdSlot).b,
          seq(6, k requires 0 <= k < 6 => LastWritten(h, DstSlot(k)).b),
          LastWritten(h, VniSlot).v,
          seq(6, k requires 0 <= k < 6 => LastWritten(h, IndstSlot(k)).b))
  }

  lemma {:induction false} RecordIsStaged(h: seq<Call>)
    ensures Record(h) == Run(BOOT, h).stage.m.(wildcards := ALL_CLEAR)
  {
    var m := Run(BOOT, h).stage.m;
    SlotHoldsLastWritten(h, VmIdSlot);
    SlotHoldsLastWritten(h, VniSlot);
    forall k: Octet
      ensures Record(h).dlDst[k] == m.dlDst[k] && Record(h).dlIndst[k] == m.dlIndst[k]
    {
      SlotHoldsLastWritten(h, DstSlot(k));
      SlotHoldsLastWritten(h, IndstSlot(k));
    }
    SameOctets(Record(h).dlDst, m.dlDst);
    SameOctets(Record(h).dlIndst, m.dlIndst);
  }

  lemma {:induction false} SameOctets(a: Mac, b: Mac)
    requires forall k: Octet :: a[k] == b[k]
    ensures a == b
  {
    forall k | 0 <= k < 6
      ensures a[k] == b[k]
    {
      var o: Octet := k;
      assert a[o] == b[o];
    }
  }

  /** The packet carries every value declared since the last INIT, and there has been one. */
  ghost predicate Meets(host: Host, h: seq<Call>, p: Packet) {
    && Initialised(h)
    && forall f: Field :: Declared(h, f) ==> Agrees(host, Record(h), f, p)
  }

  lemma {:induction false} StagedMeaning(host: Host, h: seq<Call>, p: Packet)
    ensures Matches(host, Stored(Run(BOOT, h).stage.m), p) <==> Meets(host, h, p)
  {
    var m := Run(BOOT, h).stage.m;
    StoringKeepsMeaning(host, m, p);
    WildcardsAreDeclarations(h);
    RecordIsStaged(h);
    forall f: Field
      ensures Agrees(host, Record(h), f, p) <==> Agrees(host, m, f, p)
    {
      AgreesIgnoresWildcards(host, m, f, p);
    }
  }

  lemma {:induction false} AgreesIgnoresWildcards(host: Host, m: Match, f: Field, p: Packet)
    ensures Agrees(host, m.(wildcards := ALL_CLEAR), f, p) <==> Agrees(host, m, f, p)
  {
  }

  /** Command j publishes the newest entry whose declared criteria the packet meets. */
  ghost predicate NewestMet(host: Host, h: seq<Call>, p: Packet, j: nat) {
    && j < |h| && Publishes(h[j])
    && Meets(host, h[..j + 1], p)
    && forall k :: j < k < |h| && Publishes(h[k]) ==> !Meets(host, h[..k + 1], p)
  }

  /** The CPU number of the newest entry met, read off the history alone. */
  ghost function NewestMetIrq(host: Host, h: seq<Call>, p: Packet): Option<U8> {
    if h == [] then None
    else if Publishes(h[|h| - 1]) && Meets(host, h, p) then Some(LastWritten(h, IrqSlot).b)
    else NewestMetIrq(host, h[..|h| - 1], p)
  }

  lemma {:induction false} NewestMetIrqIsNewest(host: Host, h: seq<Call>, p: Packet)
    ensures NewestMetIrq(host, h, p) == None
       <==> forall j :: 0 <= j < |h| && Publishes(h[j]) ==> !Meets(host, h[..j + 1], p)
    ensures forall j: nat :: NewestMet(host, h, p, j) ==>
      NewestMetIrq(host, h, p) == Some(LastWritten(h[..j + 1], IrqSlot).b)
  {
    if h != [] {
      var n := |h| - 1;
      var g := h[..n];
      NewestMetIrqIsNewest(host, g, p);
      assert h[..n + 1] == h;
      assert forall j :: 0 <= j < n ==> h[..j + 1] == g[..j + 1] && g[j] == h[j];
      forall j: nat | NewestMet(host, h, p, j)
        ensures NewestMetIrq(host, h, p) == Some(LastWritten(h[..j + 1], IrqSlot).b)
      {
        if j < n {
          assert NewestMet(host, g, p, j);
          assert Publishes(h[n]) ==> !Meets(host, h[..n + 1], p);
        }
      }
    }
  }

  /** A publication is one entry in front of the table. */
  lemma {:induction false} PublishesStaged(h: seq<Call>)
    requires h != []
    ensures Grown(Run(BOOT, h[..|h| - 1]), Run(BOOT, h), Publishes(h[|h| - 1]))
  {
  }

  predicate Grown(d: Dev, d': Dev, publishes: bool) {
    d'.table == if publishes then [Entry(Stored(d'.stage.m), d'.stage.irq)] + d.table else d.table
  }

  lemma {:induction false} SteeringAfter(host: Host, d: Dev, d': Dev, publishes: bool, p: Packet, met: bool)
    requires Grown(d, d', publishes) && (Matches(host, Stored(d'.stage.m), p) <==> met)
    ensures Steer(host, d'.table, p) == if publishes && met then Some(d'.stage.irq) else Steer(host, d.table, p)
  {
    assert publishes ==> d'.table[1..] == d.table;
  }

  /** The last command either claims the packets that meet its declarations or changes nothing. */
  lemma {:induction false} SteeringGrows(host: Host, h: seq<Call>, p: Packet)
    requires h != []
    ensures Steer(host, Run(BOOT, h).table, p) ==
      if Publishes(h[|h| - 1]) && Meets(host, h, p)
      then Some(Run(BOOT, h).stage.irq)
      else Steer(host, Run(BOOT, h[..|h| - 1]).table, p)
  {
    PublishesStaged(h);
    StagedMeaning(host, h, p);
    SteeringAfter(host, Run(BOOT, h[..|h| - 1]), Run(BOOT, h), Publishes(h[|h| - 1]), p, Meets(host, h, p));
  }

  lemma {:induction false} SteeringIsNewestMet(host: Host, h: seq<Call>, p: Packet)
    ensures Steer(host, Run(BOOT, h).table, p) == NewestMetIrq(host, h, p)
  {
    if h != [] {
      SteeringGrows(host, h, p);
      SlotHoldsLastWritten(h, IrqSlot);
      SteeringIsNewestMet(host, h[..|h| - 1], p);
    }
  }

  /** Where any packet goes after any history of commands: to the CPU number in force when the
      newest entry whose declared criteria it meets was published, and nowhere if it meets none. */
  lemma {:induction false} SteeringByHistory(host: Host, h: seq<Call>, p: Packet)
    ensures Steer(host, Run(BOOT, h).table, p) == None
       <==> forall j :: 0 <= j < |h| && Publishes(h[j]) ==> !Meets(host, h[..j + 1], p)
    ensures forall j: nat :: NewestMet(host, h, p, j) ==>
      Steer(host, Run(BOOT, h).table, p) == Some(LastWritten(h[..j + 1], IrqSlot).b)
  {
    SteeringIsNewestMet(host, h, p);
    NewestMetIrqIsNewest(host, h, p);
  }

  ghost predicate AllLive(t: seq<Entry>) {
    forall e :: e in t ==> Live(e.m.wildcards)
  }

  ghost predicate AllDead(t: seq<Entry>) {
    forall e :: e in t ==> !Live(e.m.wildcards)
  }

  lemma {:induction false} GrownParts(d: Dev, d': Dev, publishes: bool, live: seq<Entry>, dead: seq<Entry>)
    returns (live': seq<Entry>)
    requires Grown(d, d', publishes) && d.table == live + dead && AllLive(live)
    requires Live(d'.stage.m.wildcards)
    ensures d'.table == live' + dead && AllLive(live')
  {
    live' := if publishes then [Entry(Stored(d'.stage.m), d'.stage.irq)] + live else live;
  }

  /** Everything published before the first INIT is dead: it matches no packet. */
  lemma {:induction false} DeadBeforeInit(h: seq<Call>)
    requires !Initialised(h)
    ensures AllDead(Run(BOOT, h).table)
  {
    if h != [] {
      DeadBeforeInit(h[..|h| - 1]);
      WildcardsAreDeclarations(h);
      PublishesStaged(h);
    }
  }

  lemma {:induction false} LiveOnceInitialised(h: seq<Call>, i: nat)
    requires i < |h| && h[i].cmd.InitWildcards?
    ensures Live(Run(BOOT, h).stage.m.wildcards)
  {
    WildcardsAreDeclarations(h);
  }

  /** Everything published from the first INIT on is live, in front of the dead entries, which stay
      as they were. */
  lemma {:induction false} LiveAfterInit(h: seq<Call>, i: nat) returns (live: seq<Entry>)
    requires i < |h| && h[i].cmd.InitWildcards? && !Initialised(h[..i])
    ensures Run(BOOT, h).table == live + Run(BOOT, h[..i]).table
    ensures AllLive(live) && AllDead(Run(BOOT, h[..i]).table)
  {
    var n := |h| - 1;
    var g := h[..n];
    if i < n {
      assert g[..i] == h[..i];
      live := LiveAfterInit(g, i);
    } else {
      live := [];
      DeadBeforeInit(g);
    }
    LiveOnceInitialised(h, i);
    PublishesStaged(h);
    live := GrownParts(Run(BOOT, g), Run(BOOT, h), Publishes(h[n]), live, Run(BOOT, h[..i]).table);
  }

  // ---------- Commutation ----------

  predicate FieldSetter(c: Cmd) {
    c.SetVmId? || c.SetDlIndst? || c.SetDlDst? || c.SetVni?
  }

  predicate SameSlot(c: Cmd, d: Cmd)
    requires FieldSetter(c) && FieldSetter(d)
  {
    || (c.SetVmId? && d.SetVmId?)
    || (c.SetDlIndst? && d.SetDlIndst? && c.k == d.k)
    || (c.SetDlDst? && d.SetDlDst? && c.k == d.k)
    || (c.SetVni? && d.SetVni?)
  }

  /** Two field setters can be exchanged exactly when they write different places or the same
      datum. */
  lemma {:induction false} SettersCommute(s: Stage, c: Cmd, d: Cmd)
    requires FieldSetter(c) && FieldSetter(d)
    ensures Staged(Staged(s, c), d) == Staged(Staged(s, d), c) <==> (!SameSlot(c, d) || c == d)
  {
    WildcardsCommute(s, c, d);
    SettersData(s, c, d);
    ByParts(Staged(Staged(s, c), d).m, Staged(Staged(s, d), c).m);
  }

  function Data(m: Match): Match { m.(wildcards := ALL_CLEAR) }

  lemma {:induction false} ByParts(a: Match, b: Match)
    ensures a == b <==> a.wildcards == b.wildcards && Data(a) == Data(b)
  {
  }

  /** The commands without their effect on the wildcard word. */
  function DataWritten(m: Match, c: Cmd): Match
    requires FieldSetter(c)
  {
    match c
    case SetVmId(b) => m.(vmId := b)
    case SetDlIndst(k, b) => m.(dlIndst := m.dlIndst[k := b])
    case SetDlDst(k, b) => m.(dlDst := m.dlDst[k := b])
    case SetVni(v) => m.(vxVni := v)
  }

  lemma {:induction false} StagedData(s: Stage, c: Cmd)
    requires FieldSetter(c)
    ensures Data(Staged(s, c).m) == DataWritten(Data(s.m), c) && Staged(s, c).irq == s.irq
  {
  }

  lemma {:induction false} SettersData(s: Stage, c: Cmd, d: Cmd)
    requires FieldSetter(c) && FieldSetter(d)
    ensures Data(Staged(Staged(s, c), d).m) == Data(Staged(Staged(s, d), c).m) <==> (!SameSlot(c, d) || c == d)
    ensures Staged(Staged(s, c), d).irq == Staged(Staged(s, d), c).irq
  {
    StagedData(s, c);
    StagedData(s, d);
    StagedData(Staged(s, c), d);
    StagedData(Staged(s, d), c);
    DataCommutes(Data(s.m), c, d);
  }

  lemma {:induction false} DataCommutes(m: Match, c: Cmd, d: Cmd)
    requires FieldSetter(c) && FieldSetter(d)
    ensures DataWritten(DataWritten(m, c), d) == DataWritten(DataWritten(m, d), c) <==> (!SameSlot(c, d) || c == d)
  {
    var x, y := DataWritten(DataWritten(m, c), d), DataWritten(DataWritten(m, d), c);
    if SameSlot(c, d) && c.SetDlIndst? {
      assert x.dlIndst[c.k] == d.b && y.dlIndst[c.k] == c.b;
    } else if SameSlot(c, d) && c.SetDlDst? {
      assert x.dlDst[c.k] == d.b && y.dlDst[c.k] == c.b;
    } else if c.SetDlIndst? && d.SetDlIndst? {
      assert x.dlIndst == y.dlIndst;
    } else if c.SetDlDst? && d.SetDlDst? {
      assert x.dlDst == y.dlDst;
    }
  }

  /** The commands' effect on the wildcard word alone. */
  function Cleared(w: U32, c: Cmd): U32
    requires FieldSetter(c)
  {
    match c
    case SetVmId(_) => Without(w, OFPFW_VM_ID)
    case SetDlIndst(k, _) => if k == 5 then Without(w, OFPFW_DL_INDST) else w
    case SetDlDst(k, _) => if k == 5 then Without(w, OFPFW_DL_DST) else w
    case SetVni(_) => Without(w, OFPFW_VXLAN_VNI)
  }

  lemma {:induction false} StagedCleared(s: Stage, c: Cmd)
    requires FieldSetter(c)
    ensures Staged(s, c).m.wildcards == Cleared(s.m.wildcards, c)
  {
  }

  lemma {:induction false} ClearedCommutes(w: U32, c: Cmd, d: Cmd)
    requires FieldSetter(c) && FieldSetter(d)
    ensures Cleared(Cleared(w, c), d) == Cleared(Cleared(w, d), c)
  {
  }

  lemma {:induction false} WildcardsCommute(s: Stage, c: Cmd, d: Cmd)
    requires FieldSetter(c) && FieldSetter(d)
    ensures Staged(Staged(s, c), d).m.wildcards == Staged(Staged(s, d), c).m.wildcards
  {
    StagedCleared(s, c);
    StagedCleared(s, d);
    StagedCleared(Staged(s, c), d);
    StagedCleared(Staged(s, d), c);
    ClearedCommutes(s.m.wildcards, c, d);
  }

  /** A fully constrained record that differs from what the setter writes. */
  function Unlike(c: Cmd): Match
    requires FieldSetter(c)
  {
    match c
    case SetVmId(b) => ZERO_MATCH.(vmId := if b == U8(0) then U8(1) else U8(0))
    case SetDlIndst(k, b) => ZERO_MATCH.(dlIndst := ZERO_MAC[k := if b == U8(0) then U8(1) else U8(0)])
    case SetDlDst(k, b) => ZERO_MATCH.(dlDst := ZERO_MAC[k := if b == U8(0) then U8(1) else U8(0)])
    case SetVni(v) => ZERO_MATCH.(vxVni := if v == U32(0) then U32(1) else U32(0))
  }

  /** No field setter can be moved across either publishing command: from some state the two orders
      publish different entries. */
  lemma {:induction false} PublishingDoesNotCommute(c: Cmd, publish: Cmd)
    requires FieldSetter(c) && (publish.SetEntry? || publish.SetIrq?)
    ensures exists d: Dev ::
      Exec(Exec(d, Call(c, true)), Call(publish, true)).table
      != Exec(Exec(d, Call(publish, true)), Call(c, true)).table
  {
    var d := Dev(Stage(Unlike(c), U8(0)), []);
    BothOrders(d.stage, c, publish);
    SetterChanges(c);
  }

  /** The setter writes something new to the record it is unlike. */
  lemma {:induction false} SetterChanges(c: Cmd)
    requires FieldSetter(c)
    ensures Staged(Stage(Unlike(c), U8(0)), c).m != Unlike(c)
  {
    var m := Unlike(c);
    StagedData(Stage(m, U8(0)), c);
    if c.SetDlIndst? {
      assert DataWritten(Data(m), c).dlIndst[c.k] == c.b != m.dlIndst[c.k];
    } else if c.SetDlDst? {
      assert DataWritten(Data(m), c).dlDst[c.k] == c.b != m.dlDst[c.k];
    }
  }

  /** What the two orders publish from a fully constrained record. */
  lemma {:induction false} BothOrders(s: Stage, c: Cmd, publish: Cmd)
    requires FieldSetter(c) && (publish.SetEntry? || publish.SetIrq?)
    requires forall f: Field :: Constrained(s.m.wildcards, f)
    ensures var irq := Staged(s, publish).irq;
      && Exec(Exec(Dev(s, []), Call(publish, true)), Call(c, true)).table == [Entry(s.m, irq)]
      && Exec(Exec(Dev(s, []), Call(c, true)), Call(publish, true)).table == [Entry(Staged(s, c).m, irq)]
  {
    StoredWhole(s.m);
    StagedData(s, c);
    StagedFields(s, c);
    StoredWhole(Staged(s, c).m);
  }

  lemma {:induction false} StoredWhole(m: Match)
    requires forall f: Field :: Constrained(m.wildcards, f)
    ensures Stored(m) == m
  {
  }
}
