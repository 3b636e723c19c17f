/** Lookups running beside the control device. Memory is sequentially consistent and control calls are
    serialised (both are assumptions: the code takes no lock). A call that publishes makes one memory
    write per step, a reader takes one link read per step, and steps interleave in any order. */
module ConcurrentLookup {
  import opened Integers
  import opened Wrappers
  import opened Packets
  import opened Matching
  import opened FlowSpec
  import opened Staging

  type Addr = nat
  const NULL: Addr := 0
  const HEAD: Addr := 1

  /** A struct vse_flow_entry in memory; of the sentinel only the links are used. */
  datatype Cell = Cell(next: Addr, prev: Addr, m: Match, irq: U8)

  /** Where the one writer is inside vse_add_table_entry_and_irq. */
  datatype Writer =
    | Idle
    | Allocated(node: Addr, data: Match, irq: U8)
    | MatchFilled(node: Addr, data: Match, irq: U8)
    | EntryFilled(node: Addr, data: Match, irq: U8)
    | NextPrevWritten(node: Addr, data: Match, irq: U8, next: Addr)
    | NewNextWritten(node: Addr, data: Match, irq: U8, next: Addr)
    | NewPrevWritten(node: Addr, data: Match, irq: U8, next: Addr)

  /** Where a reader is inside vse_look_up_flow_entry: at a node it has yet to examine, or returned. */
  datatype Reader =
    | At(p: Packet, cursor: Addr)
    | Returned(p: Packet, result: Option<Entry>)

  /** Memory, the device's staging record, the calls made so far, and where everybody is. */
  datatype State = State(mem: map<Addr, Cell>, stage: Stage, history: seq<Call>,
                         writer: Writer, readers: map<nat, Reader>)

  datatype Step =
    | Control(call: Call, node: Addr)
    | Write
    | ReadHead(t: nat, p: Packet)
    | Examine(t: nat)

  predicate Init(s: State) {
    && s.mem == map[HEAD := Cell(HEAD, HEAD, ZERO_MATCH, U8(0))]
    && s.stage == BOOT.stage && s.history == []
    && s.writer == Idle
    && s.readers == map[]
  }

  /** The history of the calls whose effect on the table is complete: all but the one whose writes are
      still under way. */
  function Completed(s: State): seq<Call> {
    if s.writer.Idle? || s.history == [] then s.history else s.history[..|s.history| - 1]
  }

  /** The next write of the writer: the record, the CPU, then the four link writes of list_add, of
      which the write to the sentinel's next comes last. */
  predicate WriterStep(s: State, s': State) {
    match s.writer {
      case Idle => false
      case Allocated(n, data, irq) =>
        && n in s.mem
        && s' == s.(mem := s.mem[n := s.mem[n].(m := Stored(data))], writer := MatchFilled(n, data, irq))
      case MatchFilled(n, data, irq) =>
        && n in s.mem
        && s' == s.(mem := s.mem[n := s.mem[n].(irq := irq)], writer := EntryFilled(n, data, irq))
      case EntryFilled(n, data, irq) =>
        && HEAD in s.mem && s.mem[HEAD].next in s.mem
        && var next := s.mem[HEAD].next;
           s' == s.(mem := s.mem[next := s.mem[next].(prev := n)], writer := NextPrevWritten(n, data, irq, next))
      case NextPrevWritten(n, data, irq, next) =>
        && n in s.mem
        && s' == s.(mem := s.mem[n := s.mem[n].(next := next)], writer := NewNextWritten(n, data, irq, next))
      case NewNextWritten(n, data, irq, next) =>
        && n in s.mem
        && s' == s.(mem := s.mem[n := s.mem[n].(prev := HEAD)], writer := NewPrevWritten(n, data, irq, next))
      case NewPrevWritten(n, data, irq, next) =>
        && HEAD in s.mem
        && s' == s.(mem := s.mem[HEAD := s.mem[HEAD].(next := n)], writer := Idle)
    }
  }

  /** A control call begins: it updates the staging record, and if it publishes, it allocates an entry
      for what is staged now. */
  predicate ControlStep(s: State, c: Call, n: Addr, s': State) {
    var stage := Staged(s.stage, c.cmd);
    var called := s.(stage := stage, history := s.history + [c]);
    if Publishes(c) then
      && n !in s.mem && n != NULL
      && s' == called.(mem := s.mem[n := Cell(NULL, NULL, ZERO_MATCH, U8(0))],
                       writer := Allocated(n, stage.m, stage.irq))
    else s' == called
  }

  /** One step of the system. A reader may start a new lookup whenever it is not inside one. */
  ghost predicate Next(host: Host, s: State, e: Step, s': State) {
    match e
    case Control(c, n) => s.writer == Idle && ControlStep(s, c, n, s')
    case Write => WriterStep(s, s')
    case ReadHead(t, p) =>
      && HEAD in s.mem
      && (t in s.readers ==> !s.readers[t].At?)
      && s' == s.(readers := s.readers[t := At(p, s.mem[HEAD].next)])
    case Examine(t) =>
      && t in s.readers && s.readers[t].At?
      && var r := s.readers[t];
         if r.cursor == HEAD then
           s' == s.(readers := s.readers[t := Returned(r.p, None)])
         else
           && r.cursor in s.mem
           && var c := s.mem[r.cursor];
              s' == s.(readers := s.readers[t :=
                if Matches(host, c.m, r.p) then Returned(r.p, Some(Entry(c.m, c.irq)))
                else At(r.p, c.next)])
  }

  /** The new entry of a publishing call is zeroed and linked to nothing (kzalloc). */
  lemma {:induction false} NewEntryIsZero(s: State, c: Call, n: Addr, s': State)
    requires ControlStep(s, c, n, s') && Publishes(c)
    ensures n in s'.mem && s'.mem[n].next == 0 && s'.mem[n].prev == 0 && s'.mem[n].irq.bits == 0
    ensures var m := s'.mem[n].m;
      && m.wildcards.bits == 0 && m.vmId.bits == 0 && m.vxVni.bits == 0
      && forall k :: 0 <= k < 6 ==> m.dlDst[k].bits == 0 && m.dlIndst[k].bits == 0
  {
  }

  /** c lists the addresses met on the way from a to the sentinel along next. */
  predicate Chain(mem: map<Addr, Cell>, a: Addr, c: seq<Addr>)
    decreases c
  {
    if c == [] then a == HEAD
    else a == c[0] && a != HEAD && a in mem && Chain(mem, mem[a].next, c[1..])
  }

  function EntriesAt(mem: map<Addr, Cell>, c: seq<Addr>): seq<Entry>
    requires forall a :: a in c ==> a in mem
  {
    if c == [] then [] else [Entry(mem[c[0]].m, mem[c[0]].irq)] + EntriesAt(mem, c[1..])
  }

  lemma {:induction false} ChainMapped(mem: map<Addr, Cell>, a: Addr, c: seq<Addr>)
    requires Chain(mem, a, c)
    ensures forall x :: x in c ==> x in mem && x != HEAD
    decreases c
  {
    if c != [] {
      ChainMapped(mem, mem[a].next, c[1..]);
      assert c == [c[0]] + c[1..];
    }
  }

  /** The walk from an address is determined by memory. */
  lemma {:induction false} ChainUnique(mem: map<Addr, Cell>, a: Addr, c: seq<Addr>, d: seq<Addr>)
    requires Chain(mem, a, c) && Chain(mem, a, d)
    ensures c == d
    decreases c
  {
    if c != [] && d != [] {
      ChainUnique(mem, mem[a].next, c[1..], d[1..]);
    }
  }

  /** The table at a state: the entries along the forward walk from the sentinel. */
  ghost predicate TableIs(s: State, t: seq<Entry>) {
    exists c :: Walk(s, c) && t == EntriesAt(s.mem, c)
  }

  ghost predicate Walk(s: State, c: seq<Addr>) {
    && HEAD in s.mem && Chain(s.mem, s.mem[HEAD].next, c)
    && forall a :: a in c ==> a in s.mem
  }

  /** There is at most one such table. */
  lemma {:induction false} TableUnique(s: State, t: seq<Entry>, u: seq<Entry>)
    requires TableIs(s, t) && TableIs(s, u)
    ensures t == u
  {
    var c :| Walk(s, c) && t == EntriesAt(s.mem, c);
    var d :| Walk(s, d) && u == EntriesAt(s.mem, d);
    ChainUnique(s.mem, s.mem[HEAD].next, c, d);
  }

  // ---------- What the steps preserve ----------

  ghost predicate WriterOk(s: State, c: seq<Addr>)
    requires HEAD in s.mem
  {
    && (s.writer.Idle? || (s.writer.node in s.mem && s.writer.node != HEAD && s.writer.node !in c))
    && (s.writer.MatchFilled? ==> s.mem[s.writer.node].m == Stored(s.writer.data))
    && (s.writer.EntryFilled? || s.writer.NextPrevWritten? || s.writer.NewNextWritten? || s.writer.NewPrevWritten? ==>
      s.mem[s.writer.node].m == Stored(s.writer.data) && s.mem[s.writer.node].irq == s.writer.irq)
    && (s.writer.NextPrevWritten? || s.writer.NewNextWritten? || s.writer.NewPrevWritten? ==>
      s.writer.next == s.mem[HEAD].next)
    && (s.writer.NewNextWritten? || s.writer.NewPrevWritten? ==>
      s.mem[s.writer.node].next == s.writer.next)
  }

  /** The staging record is what the calls made so far staged, and an addition under way is that of
      the last of them. */
  predicate StagingOk(s: State) {
    && s.stage == Run(BOOT, s.history).stage
    && (!s.writer.Idle? ==>
      && s.history != [] && Publishes(s.history[|s.history| - 1])
      && s.writer.data == s.stage.m && s.writer.irq == s.stage.irq)
  }

  /** The forward walk c from the sentinel ends, and the writer's unpublished node is not on it. */
  ghost predicate Inv(s: State, c: seq<Addr>) {
    && HEAD in s.mem
    && Chain(s.mem, s.mem[HEAD].next, c)
    && WriterOk(s, c)
  }

  /** A reader that started on a table t of which it still has the part d ahead of it. */
  ghost predicate Reading(host: Host, s: State, t: nat, p: Packet, table: seq<Entry>, d: seq<Addr>) {
    && t in s.readers && s.readers[t].At? && s.readers[t].p == p
    && Chain(s.mem, s.readers[t].cursor, d)
    && (s.writer.Idle? || s.writer.node !in d)
    && (forall a :: a in d ==> a in s.mem)
    && Lookup(host, table, p) == Lookup(host, EntriesAt(s.mem, d), p)
  }

  /** The cells of a walk that hold no unpublished node keep everything a reader looks at. */
  predicate SameForReaders(mem: map<Addr, Cell>, mem': map<Addr, Cell>, c: seq<Addr>) {
    forall a :: a in c ==>
      (a in mem && a in mem' &&
       mem'[a].next == mem[a].next && mem'[a].m == mem[a].m && mem'[a].irq == mem[a].irq)
  }

  lemma {:induction false} ChainKept(mem: map<Addr, Cell>, mem': map<Addr, Cell>, a: Addr, c: seq<Addr>)
    requires Chain(mem, a, c) && SameForReaders(mem, mem', c)
    ensures Chain(mem', a, c) && EntriesAt(mem', c) == EntriesAt(mem, c)
    decreases c
  {
    if c != [] {
      assert SameForReaders(mem, mem', c[1..]);
      ChainKept(mem, mem', mem[a].next, c[1..]);
    }
  }

  /** The cell is as readers saw it, it is not the one being added, and its backward link is the same
      unless it is the table's first. */
  predicate CellKept(s: State, s': State, x: Addr) {
    && x in s.mem && x in s'.mem
    && s'.mem[x].next == s.mem[x].next && s'.mem[x].m == s.mem[x].m && s'.mem[x].irq == s.mem[x].irq
    && (s'.mem[x].prev != s.mem[x].prev ==> HEAD in s.mem && x == s.mem[HEAD].next)
    && (s'.writer.Idle? || s'.writer.node != x)
  }

  lemma {:induction false} StepKeepsCell(host: Host, s: State, e: Step, s': State, x: Addr)
    requires Next(host, s, e, s') && x in s.mem && x != HEAD && (s.writer.Idle? || s.writer.node != x)
    ensures CellKept(s, s', x)
  {
  }

  /** No step changes the forward links, the records or the CPU numbers on a walk without the
      unpublished node, and of the backward links only that of the table's first node. */
  lemma {:induction false} StepKeepsWalk(host: Host, s: State, e: Step, s': State, a: Addr, d: seq<Addr>)
    requires Next(host, s, e, s')
    requires Chain(s.mem, a, d) && (s.writer.Idle? || s.writer.node !in d)
    ensures SameForReaders(s.mem, s'.mem, d) && Chain(s'.mem, a, d)
    ensures s'.writer.Idle? || s'.writer.node !in d
    ensures EntriesAt(s'.mem, d) == EntriesAt(s.mem, d)
    ensures forall x :: x in d && s'.mem[x].prev != s.mem[x].prev ==> HEAD in s.mem && x == s.mem[HEAD].next
  {
    ChainMapped(s.mem, a, d);
    forall x | x in d
      ensures CellKept(s, s', x)
    {
      StepKeepsCell(host, s, e, s', x);
    }
    ChainKept(s.mem, s'.mem, a, d);
  }

  lemma {:induction false} ControlOnStaging(s: State, c: Call, n: Addr, s': State)
    requires StagingOk(s) && s.writer.Idle? && ControlStep(s, c, n, s')
    ensures StagingOk(s') && Completed(s') == if Publishes(c) then s.history else s.history + [c]
    ensures Run(BOOT, Completed(s')).table == Run(BOOT, s.history).table
  {
    var h := s'.history;
    assert h[..|h| - 1] == s.history && h[|h| - 1] == c;
    assert Run(BOOT, h) == Exec(Run(BOOT, s.history), c);
  }

  /** A write belongs to the addition of the same record, until the last one ends it. */
  lemma {:induction false} WriteKeepsCall(s: State, s': State)
    requires WriterStep(s, s')
    ensures s'.stage == s.stage && s'.history == s.history && !s.writer.Idle?
    ensures s'.writer.Idle? <==> s.writer.NewPrevWritten?
    ensures !s'.writer.Idle? ==> s'.writer.data == s.writer.data && s'.writer.irq == s.writer.irq
  {
  }

  lemma {:induction false} WriteOnStaging(s: State, s': State)
    requires StagingOk(s) && WriterStep(s, s')
    ensures StagingOk(s')
    ensures Run(BOOT, Completed(s')).table ==
      if s.writer.NewPrevWritten?
      then [Entry(Stored(s.writer.data), s.writer.irq)] + Run(BOOT, Completed(s)).table
      else Run(BOOT, Completed(s)).table
  {
    WriteKeepsCall(s, s');
    if s.writer.NewPrevWritten? {
      PublishesStaged(s.history);
    }
  }

  /** What a step makes of the completed calls is what StepOnTable says it makes of memory. */
  lemma {:induction false} StepOnStaging(host: Host, s: State, e: Step, s': State)
    requires StagingOk(s) && Next(host, s, e, s')
    ensures StagingOk(s')
    ensures Run(BOOT, Completed(s')).table ==
      if e.Write? && s.writer.NewPrevWritten?
      then [Entry(Stored(s.writer.data), s.writer.irq)] + Run(BOOT, Completed(s)).table
      else Run(BOOT, Completed(s)).table
  {
    match e {
      case Control(c, n) => ControlOnStaging(s, c, n, s');
      case Write => WriteOnStaging(s, s');
      case ReadHead(_, _) =>
      case Examine(_) =>
    }
  }

  /** Adding is atomic for readers: only the last write of an addition changes the table, and what it
      adds is one complete entry in front. */
  lemma {:induction false} StepOnTable(host: Host, s: State, e: Step, s': State, c: seq<Addr>) returns (c': seq<Addr>)
    requires Inv(s, c) && Next(host, s, e, s')
    ensures Inv(s', c')
    ensures c' == if e.Write? && s.writer.NewPrevWritten? then [s.writer.node] + c else c
    ensures forall a :: a in c' ==> a in s'.mem
    ensures forall a :: a in c ==> a in s.mem
    ensures EntriesAt(s'.mem, c') ==
      if e.Write? && s.writer.NewPrevWritten?
      then [Entry(Stored(s.writer.data), s.writer.irq)] + EntriesAt(s.mem, c)
      else EntriesAt(s.mem, c)
  {
    StepKeepsWalk(host, s, e, s', s.mem[HEAD].next, c);
    ChainMapped(s.mem, s.mem[HEAD].next, c);
    c' := c;
    if e.Write? && s.writer.NewPrevWritten? {
      c' := [s.writer.node] + c;
      assert c'[1..] == c;
    }
  }

  // ---------- The backward links ----------

  lemma {:induction false} ChainFrom(mem: map<Addr, Cell>, a: Addr, c: seq<Addr>, i: nat)
    requires Chain(mem, a, c) && i < |c|
    ensures Chain(mem, c[i], c[i..])
    decreases i
  {
    if i > 0 {
      ChainFrom(mem, mem[a].next, c[1..], i - 1);
      assert c[1..][i - 1..] == c[i..];
    }
  }

  lemma {:induction false} ChainNext(mem: map<Addr, Cell>, a: Addr, c: seq<Addr>, i: nat)
    requires Chain(mem, a, c) && i < |c|
    ensures c[i] in mem && mem[c[i]].next == if i + 1 < |c| then c[i + 1] else HEAD
  {
    ChainFrom(mem, a, c, i);
    var rest := c[i..][1..];
    assert Chain(mem, mem[c[i]].next, rest);
    if rest != [] {
      assert rest[0] == c[i + 1];
    }
  }

  /** A walk meets no cell twice. */
  lemma {:induction false} ChainDistinct(mem: map<Addr, Cell>, a: Addr, c: seq<Addr>, i: nat, j: nat)
    requires Chain(mem, a, c) && i < j < |c|
    ensures c[i] != c[j]
  {
    ChainFrom(mem, a, c, i);
    ChainFrom(mem, a, c, j);
    if c[i] == c[j] {
      ChainUnique(mem, c[i], c[i..], c[j..]);
    }
  }

  /** The backward links lead from the sentinel along the walk to its first cell, whose own is given. */
  predicate BackLinks(mem: map<Addr, Cell>, c: seq<Addr>, first: Addr) {
    && HEAD in mem && (forall a :: a in c ==> a in mem)
    && mem[HEAD].prev == (if c == [] then first else c[|c| - 1])
    && (c != [] ==> mem[c[0]].prev == first)
    && (forall i {:trigger c[i]} :: 0 < i < |c| ==> mem[c[i]].prev == c[i - 1])
  }

  /** Until the writer redirects it, the first backward link leads to the sentinel; then to the new node,
      and the new node's own, once written, to the sentinel. */
  predicate BackOk(s: State, c: seq<Addr>) {
    && BackLinks(s.mem, c,
         if s.writer.NextPrevWritten? || s.writer.NewNextWritten? || s.writer.NewPrevWritten? then s.writer.node
         else HEAD)
    && (s.writer.NewPrevWritten? ==> s.writer.node in s.mem && s.mem[s.writer.node].prev == HEAD)
  }

  lemma {:induction false} BackLinksKept(mem: map<Addr, Cell>, mem': map<Addr, Cell>, c: seq<Addr>, first: Addr)
    requires BackLinks(mem, c, first)
    requires HEAD in mem' && mem'[HEAD].prev == mem[HEAD].prev
    requires forall i :: 0 <= i < |c| ==> c[i] in mem' && mem'[c[i]].prev == mem[c[i]].prev
    ensures BackLinks(mem', c, first)
  {
  }

  /** The write to next->prev. */
  lemma {:induction false} FirstRedirected(mem: map<Addr, Cell>, c: seq<Addr>, first: Addr, n: Addr)
    requires BackLinks(mem, c, first) && Chain(mem, mem[HEAD].next, c)
    ensures mem[HEAD].next in mem
    ensures BackLinks(mem[mem[HEAD].next := mem[mem[HEAD].next].(prev := n)], c, n)
  {
    ChainMapped(mem, mem[HEAD].next, c);
    forall i | 1 <= i < |c|
      ensures c[i] != c[0]
    {
      ChainDistinct(mem, mem[HEAD].next, c, 0, i);
    }
  }

  /** The write that publishes the node. */
  lemma {:induction false} FirstPublished(mem: map<Addr, Cell>, c: seq<Addr>, n: Addr)
    requires BackLinks(mem, c, n) && n in mem && mem[n].prev == HEAD
    ensures BackLinks(mem[HEAD := mem[HEAD].(next := n)], [n] + c, HEAD)
    requires n != HEAD && HEAD !in c
  {
    var d, mem' := [n] + c, mem[HEAD := mem[HEAD].(next := n)];
    forall i | 0 <= i < |d|
      ensures d[i] in mem' && mem'[d[i]].prev == if i == 0 then HEAD else d[i - 1]
    {
      if i > 0 {
        assert d[i] == c[i - 1] && c[i - 1] in c;
        assert i > 1 ==> d[i - 1] == c[i - 2];
      }
    }
  }

  lemma {:induction false} StepOnBackLinks(host: Host, s: State, e: Step, s': State, c: seq<Addr>)
    requires Inv(s, c) && BackOk(s, c) && Next(host, s, e, s')
    ensures BackOk(s', if e.Write? && s.writer.NewPrevWritten? then [s.writer.node] + c else c)
  {
    ChainMapped(s.mem, s.mem[HEAD].next, c);
    if e.Write? && s.writer.EntryFilled? {
      FirstRedirected(s.mem, c, HEAD, s.writer.node);
    } else if e.Write? && s.writer.NewPrevWritten? {
      FirstPublished(s.mem, c, s.writer.node);
    } else {
      OtherPrevKept(host, s, e, s', c);
    }
  }

  lemma {:induction false} OtherPrevKept(host: Host, s: State, e: Step, s': State, c: seq<Addr>)
    requires Inv(s, c) && BackOk(s, c) && Next(host, s, e, s')
    requires !(e.Write? && (s.writer.EntryFilled? || s.writer.NewPrevWritten?))
    ensures BackOk(s', c)
  {
    ChainMapped(s.mem, s.mem[HEAD].next, c);
    forall x | x in s.mem && (x == HEAD || x in c)
      ensures x in s'.mem && s'.mem[x].prev == s.mem[x].prev
    {
    }
    BackLinksKept(s.mem, s'.mem, c,
      if s.writer.NextPrevWritten? || s.writer.NewNextWritten? || s.writer.NewPrevWritten? then s.writer.node
      else HEAD);
  }

  // ---------- Runs ----------

  ghost predicate Execution(host: Host, tr: seq<State>, es: seq<Step>) {
    && |tr| == |es| + 1
    && Init(tr[0])
    && forall i :: 0 <= i < |es| ==> Next(host, tr[i], es[i], tr[i + 1])
  }

  /** In every state of every run memory holds exactly the table that the completed calls lead to. */
  lemma {:induction false} MemoryHoldsTable(host: Host, tr: seq<State>, es: seq<Step>, k: nat)
    returns (c: seq<Addr>)
    requires Execution(host, tr, es) && k <= |es|
    ensures Inv(tr[k], c) && Walk(tr[k], c) && StagingOk(tr[k]) && BackOk(tr[k], c)
    ensures EntriesAt(tr[k].mem, c) == TableAt(tr, k)
  {
    if k == 0 {
      c := [];
    } else {
      var b := MemoryHoldsTable(host, tr, es, k - 1);
      var s, e, s' := tr[k - 1], es[k - 1], tr[k];
      assert Next(host, s, e, s');
      c := StepOnTable(host, s, e, s', b);
      StepOnStaging(host, s, e, s');
      StepOnBackLinks(host, s, e, s', b);
    }
  }

  /** Whenever no addition is under way, memory is one ring: the backward links lead from the sentinel
      along the very walk that the forward links make. */
  lemma {:induction false} RingBetweenCalls(host: Host, tr: seq<State>, es: seq<Step>, k: nat) returns (c: seq<Addr>)
    requires Execution(host, tr, es) && k <= |es| && tr[k].writer.Idle?
    ensures Walk(tr[k], c)
    ensures var mem := tr[k].mem;
      && mem[HEAD].next == (if c == [] then HEAD else c[0])
      && mem[HEAD].prev == (if c == [] then HEAD else c[|c| - 1])
      && forall i :: 0 <= i < |c| ==>
           && mem[c[i]].next == (if i + 1 < |c| then c[i + 1] else HEAD)
           && mem[c[i]].prev == (if i > 0 then c[i - 1] else HEAD)
  {
    c := MemoryHoldsTable(host, tr, es, k);
    var mem := tr[k].mem;
    forall i | 0 <= i < |c|
      ensures mem[c[i]].next == (if i + 1 < |c| then c[i + 1] else HEAD)
      ensures mem[c[i]].prev == (if i > 0 then c[i - 1] else HEAD)
    {
      ChainNext(mem, mem[HEAD].next, c, i);
      assert mem[c[i]].prev == if i == 0 then HEAD else c[i - 1];
    }
  }

  /** The table that the calls completed before step k lead to. */
  function TableAt(tr: seq<State>, k: nat): seq<Entry>
    requires k < |tr|
  {
    Run(BOOT, Completed(tr[k])).table
  }

  lemma {:induction false} TableIsCompleted(host: Host, tr: seq<State>, es: seq<Step>, k: nat)
    requires Execution(host, tr, es) && k <= |es|
    ensures TableIs(tr[k], TableAt(tr, k))
  {
    var c := MemoryHoldsTable(host, tr, es, k);
  }

  function Examinations(es: seq<Step>, t: nat, i: nat, k: nat): nat
    requires i <= k <= |es|
  {
    if i == k then 0 else Examinations(es, t, i, k - 1) + if es[k - 1] == Examine(t) then 1 else 0
  }

  /** Thread t runs one lookup from step i and is still inside it before step k. */
  ghost predicate InLookup(tr: seq<State>, es: seq<Step>, t: nat, p: Packet, i: nat, k: nat)
    requires |tr| == |es| + 1
  {
    && i < k <= |es| && es[i] == ReadHead(t, p)
    && forall x :: i < x <= k ==> t in tr[x].readers && tr[x].readers[t].At?
  }

  /** One step seen from a reader inside a lookup. */
  lemma {:induction false} ReaderStep(host: Host, s: State, e: Step, s': State, t: nat, p: Packet,
                                      table: seq<Entry>, d: seq<Addr>)
    returns (d': seq<Addr>)
    requires Next(host, s, e, s') && Reading(host, s, t, p, table, d)
    ensures t in s'.readers
    ensures s'.readers[t].At? ==> Reading(host, s', t, p, table, d')
    ensures s'.readers[t].At? ==> |d'| == |d| - if e == Examine(t) then 1 else 0
    ensures !s'.readers[t].At? ==> e == Examine(t) && s'.readers[t] == Returned(p, Lookup(host, table, p))
  {
    StepKeepsWalk(host, s, e, s', s.readers[t].cursor, d);
    d' := if e == Examine(t) && d != [] then d[1..] else d;
  }

  /** The step that reads the sentinel's next leaves the reader in front of the whole table. */
  lemma {:induction false} LookupBegins(host: Host, tr: seq<State>, es: seq<Step>, t: nat, p: Packet, i: nat)
    returns (d: seq<Addr>)
    requires Execution(host, tr, es) && i < |es| && es[i] == ReadHead(t, p)
    ensures Reading(host, tr[i + 1], t, p, TableAt(tr, i), d)
    ensures |d| == |TableAt(tr, i)|
  {
    assert Next(host, tr[i], es[i], tr[i + 1]);
    d := MemoryHoldsTable(host, tr, es, i);
    EntriesLength(tr[i].mem, d);
  }

  lemma {:induction false} LookupInProgress(host: Host, tr: seq<State>, es: seq<Step>, t: nat, p: Packet,
                                            i: nat, k: nat)
    returns (d: seq<Addr>)
    requires Execution(host, tr, es) && InLookup(tr, es, t, p, i, k)
    ensures Reading(host, tr[k], t, p, TableAt(tr, i), d)
    ensures |d| + Examinations(es, t, i + 1, k) == |TableAt(tr, i)|
  {
    if k == i + 1 {
      d := LookupBegins(host, tr, es, t, p, i);
    } else {
      assert InLookup(tr, es, t, p, i, k - 1);
      var b := LookupInProgress(host, tr, es, t, p, i, k - 1);
      assert Next(host, tr[k - 1], es[k - 1], tr[k]);
      d := ReaderStep(host, tr[k - 1], es[k - 1], tr[k], t, p, TableAt(tr, i), b);
    }
  }

  lemma {:induction false} EntriesLength(mem: map<Addr, Cell>, c: seq<Addr>)
    requires forall a :: a in c ==> a in mem
    ensures |EntriesAt(mem, c)| == |c|
  {
    if c != [] {
      EntriesLength(mem, c[1..]);
    }
  }

  /** A reader inside a lookup is never stuck: the node it is at is there to be examined. */
  lemma {:induction false} LookupCanGoOn(host: Host, tr: seq<State>, es: seq<Step>, t: nat, p: Packet,
                                         i: nat, k: nat)
    returns (s': State)
    requires Execution(host, tr, es) && InLookup(tr, es, t, p, i, k)
    ensures Next(host, tr[k], Examine(t), s')
  {
    var d := LookupInProgress(host, tr, es, t, p, i, k);
    var s, r := tr[k], tr[k].readers[t];
    if r.cursor == HEAD {
      s' := s.(readers := s.readers[t := Returned(r.p, None)]);
    } else {
      var c := s.mem[r.cursor];
      s' := s.(readers := s.readers[t :=
        if Matches(host, c.m, r.p) then Returned(r.p, Some(Entry(c.m, c.irq))) else At(r.p, c.next)]);
    }
  }

  /** Nor is a control call: the cell of its next write is there. */
  lemma {:induction false} WriterCanGoOn(host: Host, tr: seq<State>, es: seq<Step>, k: nat) returns (s': State)
    requires Execution(host, tr, es) && k <= |es| && !tr[k].writer.Idle?
    ensures Next(host, tr[k], Write, s')
  {
    var c := MemoryHoldsTable(host, tr, es, k);
    s' := AfterWrite(tr[k], c);
  }

  lemma {:induction false} AfterWrite(s: State, c: seq<Addr>) returns (s': State)
    requires Inv(s, c) && !s.writer.Idle?
    ensures WriterStep(s, s')
  {
    match s.writer {
      case Allocated(n, data, irq) =>
        s' := s.(mem := s.mem[n := s.mem[n].(m := Stored(data))], writer := MatchFilled(n, data, irq));
      case MatchFilled(n, data, irq) =>
        s' := s.(mem := s.mem[n := s.mem[n].(irq := irq)], writer := EntryFilled(n, data, irq));
      case EntryFilled(n, data, irq) =>
        var next := s.mem[HEAD].next;
        s' := s.(mem := s.mem[next := s.mem[next].(prev := n)], writer := NextPrevWritten(n, data, irq, next));
      case NextPrevWritten(n, data, irq, next) =>
        s' := s.(mem := s.mem[n := s.mem[n].(next := next)], writer := NewNextWritten(n, data, irq, next));
      case NewNextWritten(n, data, irq, next) =>
        s' := s.(mem := s.mem[n := s.mem[n].(prev := HEAD)], writer := NewPrevWritten(n, data, irq, next));
      case NewPrevWritten(n, data, irq, next) =>
        s' := s.(mem := s.mem[HEAD := s.mem[HEAD].(next := n)], writer := Idle);
    }
  }

  /** Concurrent lookup is linearizable, at its read of the sentinel's next: whatever the device and the
      other readers do meanwhile, a lookup that started at step i and returns at step k returns what a
      sequential scan gives on the table of the calls completed at step i. It has then examined no
      more nodes than that table has, plus the sentinel. */
  lemma {:induction false} LookupIsLinearizable(host: Host, tr: seq<State>, es: seq<Step>, t: nat, p: Packet,
                                                i: nat, k: nat)
    requires Execution(host, tr, es) && k < |es| && InLookup(tr, es, t, p, i, k)
    requires t !in tr[k + 1].readers || !tr[k + 1].readers[t].At?
    ensures t in tr[k + 1].readers
    ensures tr[k + 1].readers[t] == Returned(p, Lookup(host, TableAt(tr, i), p))
    ensures TableIs(tr[i], TableAt(tr, i))
    ensures Examinations(es, t, i + 1, k + 1) <= |TableAt(tr, i)| + 1
  {
    var d := LookupInProgress(host, tr, es, t, p, i, k);
    assert Next(host, tr[k], es[k], tr[k + 1]);
    var d' := ReaderStep(host, tr[k], es[k], tr[k + 1], t, p, TableAt(tr, i), d);
    TableIsCompleted(host, tr, es, i);
  }

  /** So every lookup, however its steps interleave with control calls, gives the CPU that the history
      of the calls completed at its start gives for the packet, and finds nothing if that gives none. */
  lemma {:induction false} LookupFollowsHistory(host: Host, tr: seq<State>, es: seq<Step>, t: nat, p: Packet,
                                                i: nat, k: nat)
    requires Execution(host, tr, es) && k < |es| && InLookup(tr, es, t, p, i, k)
    requires t !in tr[k + 1].readers || !tr[k + 1].readers[t].At?
    ensures t in tr[k + 1].readers && tr[k + 1].readers[t].Returned?
    ensures var found := tr[k + 1].readers[t].result;
      NewestMetIrq(host, Completed(tr[i]), p) == if found.Some? then Some(found.value.irq) else None
  {
    LookupIsLinearizable(host, tr, es, t, p, i, k);
    SteeringIsNewestMet(host, Completed(tr[i]), p);
  }
}
