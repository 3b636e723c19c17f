/** What client sessions do to the steering of packets: when a session acts as the one rule that its
    options spell out, and where packets go once any number of clients have been at work. */
module Rules {
  import opened Integers
  import opened Wrappers
  import opened OpenFlow
  import opened Packets
  import opened Matching
  import opened FlowSpec
  import opened Staging
  import opened Sessions
  import opened Cli

  // ---------- One session ----------

  /** The CPU of the newest entry published on the way whose options the packet meets. */
  function EarlyMet(host: Host, opts: seq<Opt>, memory: nat -> bool, p: Packet): Option<U8> {
    if opts == [] then None
    else
      var n := |opts| - 1;
      if opts[n].Irq? && memory(Position(host, opts[..n])) && MeetsOptions(host, opts, p)
      then Some(IrqOf(host, opts))
      else EarlyMet(host, opts[..n], memory, p)
  }

  /** The CPU a session sends the packet to, read off its options and the allocation outcomes. */
  function SessionMet(host: Host, opts: seq<Opt>, memory: nat -> bool, p: Packet): Option<U8> {
    if memory(Position(host, opts)) && MeetsOptions(host, opts, p) then Some(IrqOf(host, opts))
    else EarlyMet(host, opts, memory, p)
  }

  /** The irq option at i published an entry. */
  predicate EarlyEntryAt(host: Host, opts: seq<Opt>, memory: nat -> bool, i: nat) {
    i < |opts| && opts[i].Irq? && memory(Position(host, opts[..i]))
  }

  /** A publication that the packet meets: that of the irq option at i, or for i == |opts| the final one;
      the options in force at it are the first i, and for an irq option it itself. */
  predicate MetAt(host: Host, opts: seq<Opt>, memory: nat -> bool, p: Packet, i: nat) {
    if i < |opts| then EarlyEntryAt(host, opts, memory, i) && MeetsOptions(host, opts[..i + 1], p)
    else i == |opts| && memory(Position(host, opts)) && MeetsOptions(host, opts, p)
  }

  /** Of the publications before n that the packet meets, that at i is the newest. */
  predicate NewestAt(host: Host, opts: seq<Opt>, memory: nat -> bool, p: Packet, i: nat, n: nat) {
    i < n && MetAt(host, opts, memory, p, i) && forall j :: i < j < n ==> !MetAt(host, opts, memory, p, j)
  }

  /** The CPU that the publication at i carries. */
  function IrqAt(host: Host, opts: seq<Opt>, i: nat): U8 {
    IrqOf(host, if i < |opts| then opts[..i + 1] else opts)
  }

  /** An early publication does not depend on the options after it. */
  lemma {:induction false} MetInPrefix(host: Host, opts: seq<Opt>, memory: nat -> bool, p: Packet, i: nat)
    requires i < |opts| - 1
    ensures MetAt(host, opts, memory, p, i) <==> MetAt(host, opts[..|opts| - 1], memory, p, i)
    ensures IrqAt(host, opts, i) == IrqAt(host, opts[..|opts| - 1], i)
  {
    var g := opts[..|opts| - 1];
    assert opts[..i] == g[..i] && opts[..i + 1] == g[..i + 1] && opts[i] == g[i];
  }

  lemma {:induction false} EarlyMetLast(host: Host, opts: seq<Opt>, memory: nat -> bool, p: Packet)
    requires opts != []
    ensures var n := |opts| - 1;
      EarlyMet(host, opts, memory, p) ==
        if MetAt(host, opts, memory, p, n) then Some(IrqAt(host, opts, n)) else EarlyMet(host, opts[..n], memory, p)
  {
    assert opts[..|opts| - 1 + 1] == opts;
  }

  lemma {:induction false} EarlyMetIsNewest(host: Host, opts: seq<Opt>, memory: nat -> bool, p: Packet, i: nat)
    requires NewestAt(host, opts, memory, p, i, |opts|)
    ensures EarlyMet(host, opts, memory, p) == Some(IrqAt(host, opts, i))
  {
    var n := |opts| - 1;
    EarlyMetLast(host, opts, memory, p);
    if i < n {
      assert !MetAt(host, opts, memory, p, n);
      forall j | i <= j < n
        ensures MetAt(host, opts, memory, p, j) <==> MetAt(host, opts[..n], memory, p, j)
      {
        MetInPrefix(host, opts, memory, p, j);
      }
      EarlyMetIsNewest(host, opts[..n], memory, p, i);
      MetInPrefix(host, opts, memory, p, i);
    }
  }

  lemma {:induction false} EarlyMetMisses(host: Host, opts: seq<Opt>, memory: nat -> bool, p: Packet)
    ensures EarlyMet(host, opts, memory, p) == None
       <==> forall i :: 0 <= i < |opts| ==> !MetAt(host, opts, memory, p, i)
  {
    if opts != [] {
      var n := |opts| - 1;
      EarlyMetLast(host, opts, memory, p);
      EarlyMetMisses(host, opts[..n], memory, p);
      forall j | 0 <= j < n
        ensures MetAt(host, opts, memory, p, j) <==> MetAt(host, opts[..n], memory, p, j)
      {
        MetInPrefix(host, opts, memory, p, j);
      }
    }
  }

  /** The CPU a session sends the packet to is that of the newest of its publications that the packet
      meets. */
  lemma {:induction false} SessionMetIsNewest(host: Host, opts: seq<Opt>, memory: nat -> bool, p: Packet, i: nat)
    requires NewestAt(host, opts, memory, p, i, |opts| + 1)
    ensures SessionMet(host, opts, memory, p) == Some(IrqAt(host, opts, i))
  {
    if i < |opts| {
      assert !MetAt(host, opts, memory, p, |opts|);
      EarlyMetIsNewest(host, opts, memory, p, i);
    }
  }

  /** And the session sends it nowhere exactly if it meets none of them. */
  lemma {:induction false} SessionMetMisses(host: Host, opts: seq<Opt>, memory: nat -> bool, p: Packet)
    ensures SessionMet(host, opts, memory, p) == None
       <==> forall i :: 0 <= i <= |opts| ==> !MetAt(host, opts, memory, p, i)
  {
    EarlyMetMisses(host, opts, memory, p);
    assert MetAt(host, opts, memory, p, |opts|) <==> memory(Position(host, opts)) && MeetsOptions(host, opts, p);
  }

  lemma {:induction false} SteerCons(host: Host, e: Entry, t: seq<Entry>, p: Packet)
    ensures Steer(host, [e] + t, p) == if Matches(host, e.m, p) then Some(e.irq) else Steer(host, t, p)
  {
    assert ([e] + t)[1..] == t;
  }

  lemma {:induction false} EarlySteers(host: Host, opts: seq<Opt>, memory: nat -> bool, p: Packet)
    ensures Steer(host, PublishedBy(host, opts, memory), p) == EarlyMet(host, opts, memory, p)
  {
    if opts != [] {
      var g := opts[..|opts| - 1];
      EarlySteers(host, g, memory, p);
      RuleMeaning(host, opts, p);
      SteerCons(host, Entry(RuleOf(opts), IrqOf(host, opts)), PublishedBy(host, g, memory), p);
    }
  }

  lemma {:induction false} SessionSteers(host: Host, opts: seq<Opt>, memory: nat -> bool, p: Packet)
    ensures Steer(host, Publications(host, opts, memory), p) == SessionMet(host, opts, memory, p)
  {
    EarlySteers(host, opts, memory, p);
    RuleMeaning(host, opts, p);
    var early := PublishedBy(host, opts, memory);
    SteerCons(host, Entry(RuleOf(opts), IrqOf(host, opts)), early, p);
    assert [] + early == early;
  }

  // ---------- When a session is the one rule it spells out ----------

  /** What a user expects of the option list: packets that meet it go to its CPU, the others go
      where they went before. */
  ghost predicate IsOneRule(host: Host, opts: seq<Opt>, memory: nat -> bool) {
    forall t: seq<Entry>, p: Packet ::
      Steer(host, Publications(host, opts, memory) + t, p)
      == if MeetsOptions(host, opts, p) then Some(IrqOf(host, opts)) else Steer(host, t, p)
  }

  /** The first entry with record m sits at k and carries the CPU. */
  predicate FirstWith(t: seq<Entry>, m: Match, irq: U8, k: nat) {
    k < |t| && t[k] == Entry(m, irq) && forall j :: 0 <= j < k ==> t[j].m != m
  }

  /** Checkable on what the session published: every entry that can match at all holds the final rule,
      and if that can match, its first entry is there and carries the final CPU. */
  ghost predicate Settled(host: Host, opts: seq<Opt>, memory: nat -> bool) {
    var t := Publications(host, opts, memory);
    && (forall e :: e in t && CanMatch(host, e.m) ==> e.m == RuleOf(opts))
    && (CanMatch(host, RuleOf(opts)) ==> exists k :: FirstWith(t, RuleOf(opts), IrqOf(host, opts), k))
  }

  lemma {:induction false} EarlyEntry(host: Host, opts: seq<Opt>, memory: nat -> bool, e: Entry) returns (i: nat)
    requires e in PublishedBy(host, opts, memory)
    ensures i < |opts| && opts[i].Irq? && memory(Position(host, opts[..i])) && e.m == RuleOf(opts[..i])
  {
    var n := |opts| - 1;
    if e in PublishedBy(host, opts[..n], memory) {
      i := EarlyEntry(host, opts[..n], memory, e);
      assert opts[..n][..i] == opts[..i];
    } else {
      i := n;
    }
  }

  lemma {:induction false} IrqKeepsRule(opts: seq<Opt>)
    requires opts != [] && opts[|opts| - 1].Irq?
    ensures RuleOf(opts[..|opts| - 1]) == RuleOf(opts)
  {
  }

  lemma {:induction false} EarlierStays(host: Host, opts: seq<Opt>, memory: nat -> bool, e: Entry)
    requires opts != [] && e in PublishedBy(host, opts[..|opts| - 1], memory)
    ensures e in PublishedBy(host, opts, memory)
  {
  }

  lemma {:induction false} EntryOfIrq(host: Host, opts: seq<Opt>, memory: nat -> bool, i: nat) returns (e: Entry)
    requires i < |opts| && opts[i].Irq? && memory(Position(host, opts[..i]))
    ensures e in PublishedBy(host, opts, memory) && e.m == RuleOf(opts[..i])
  {
    var n := |opts| - 1;
    if i < n {
      assert opts[..n][..i] == opts[..i];
      e := EntryOfIrq(host, opts[..n], memory, i);
      EarlierStays(host, opts, memory, e);
    } else {
      e := Entry(RuleOf(opts), IrqOf(host, opts));
      assert PublishedBy(host, opts, memory)[0] == e;
      IrqKeepsRule(opts);
    }
  }

  lemma {:induction false} EntryIsPrefixRule(host: Host, opts: seq<Opt>, memory: nat -> bool, e: Entry) returns (i: nat)
    requires e in Publications(host, opts, memory)
    ensures i <= |opts| && e.m == RuleOf(opts[..i])
  {
    if e in PublishedBy(host, opts, memory) {
      i := EarlyEntry(host, opts, memory, e);
    } else {
      i := |opts|;
      assert opts[..i] == opts;
    }
  }

  /** The final rule constrains at least what any earlier one did. */
  lemma {:induction false} NamedGrows(opts: seq<Opt>, i: nat, f: Field)
    requires i <= |opts| && Named(opts[..i], f)
    ensures Named(opts, f)
  {
    if i < |opts| {
      assert opts[..|opts| - 1][..i] == opts[..i];
      NamedGrows(opts[..|opts| - 1], i, f);
    } else {
      assert opts[..i] == opts;
    }
  }

  lemma {:induction false} CoveringRuleIsSame(opts: seq<Opt>, i: nat)
    requires i <= |opts| && Covers(RuleOf(opts), RuleOf(opts[..i]))
    ensures RuleOf(opts[..i]) == RuleOf(opts)
  {
    var a, b := RuleOf(opts), RuleOf(opts[..i]);
    RuleWordFields(opts);
    RuleWordFields(opts[..i]);
    forall f: Field
      ensures Constrained(a.wildcards, f) <==> Constrained(b.wildcards, f)
    {
      if Named(opts[..i], f) {
        NamedGrows(opts, i, f);
      }
    }
    LiveWordIsItsFields(a.wildcards, b.wildcards);
    assert Named(opts, OFPFW_VXLAN_VNI) ==> SameValue(a, b, OFPFW_VXLAN_VNI);
    assert Named(opts, OFPFW_DL_INDST) ==> SameValue(a, b, OFPFW_DL_INDST);
    assert Named(opts, OFPFW_DL_DST) ==> SameValue(a, b, OFPFW_DL_DST);
  }

  lemma {:induction false} OneRuleIfSettled(host: Host, opts: seq<Opt>, memory: nat -> bool)
    requires Settled(host, opts, memory)
    ensures IsOneRule(host, opts, memory)
  {
    forall t: seq<Entry>, p: Packet
      ensures Steer(host, Publications(host, opts, memory) + t, p)
        == if MeetsOptions(host, opts, p) then Some(IrqOf(host, opts)) else Steer(host, t, p)
    {
      SettledSteers(host, opts, memory, p);
      LookupAppend(host, Publications(host, opts, memory), t, p);
    }
  }

  lemma {:induction false} SettledSteers(host: Host, opts: seq<Opt>, memory: nat -> bool, p: Packet)
    requires Settled(host, opts, memory)
    ensures Steer(host, Publications(host, opts, memory), p)
         == if MeetsOptions(host, opts, p) then Some(IrqOf(host, opts)) else None
  {
    var t := Publications(host, opts, memory);
    RuleMeaning(host, opts, p);
    forall e | e in t && Matches(host, e.m, p)
      ensures e.m == RuleOf(opts)
    {
      MatchableIsExact(host, e.m);
    }
    if MeetsOptions(host, opts, p) {
      MatchableIsExact(host, RuleOf(opts));
      var k: nat :| FirstWith(t, RuleOf(opts), IrqOf(host, opts), k);
      assert Newest(host, t, p, k);
      LookupFindsNewest(host, t, p, k);
    } else {
      LookupMisses(host, t, p);
    }
  }

  /** A session that acts as one rule sends the packets that meet it to its CPU and has no entry for
      the others. */
  lemma {:induction false} OneRuleAlone(host: Host, opts: seq<Opt>, memory: nat -> bool, p: Packet)
    requires IsOneRule(host, opts, memory)
    ensures Steer(host, Publications(host, opts, memory), p)
         == if MeetsOptions(host, opts, p) then Some(IrqOf(host, opts)) else None
  {
    var t := Publications(host, opts, memory);
    assert t + [] == t;
    assert Steer(host, t + [], p)
      == if MeetsOptions(host, opts, p) then Some(IrqOf(host, opts)) else Steer(host, [], p);
  }

  lemma {:induction false} EntriesHoldFinalRule(host: Host, opts: seq<Opt>, memory: nat -> bool, e: Entry)
    requires IsOneRule(host, opts, memory) && e in Publications(host, opts, memory) && CanMatch(host, e.m)
    ensures e.m == RuleOf(opts)
  {
    var t := Publications(host, opts, memory);
    forall p: Packet | Matches(host, e.m, p)
      ensures Matches(host, RuleOf(opts), p)
    {
      OneRuleAlone(host, opts, memory, p);
      RuleMeaning(host, opts, p);
      var k :| 0 <= k < |t| && t[k] == e;
      LookupMisses(host, t, p);
    }
    CoverageIsExact(host, RuleOf(opts), e.m);
    var i := EntryIsPrefixRule(host, opts, memory, e);
    CoveringRuleIsSame(opts, i);
  }

  lemma {:induction false} FinalRuleIsThere(host: Host, opts: seq<Opt>, memory: nat -> bool) returns (k: nat)
    requires IsOneRule(host, opts, memory) && CanMatch(host, RuleOf(opts))
    ensures FirstWith(Publications(host, opts, memory), RuleOf(opts), IrqOf(host, opts), k)
  {
    var t := Publications(host, opts, memory);
    var p := Specimen(RuleOf(opts));
    SpecimenMatches(host, RuleOf(opts));
    RuleMeaning(host, opts, p);
    OneRuleAlone(host, opts, memory, p);
    k := NewestExists(host, t, p);
    LookupFindsNewest(host, t, p, k);
    MatchableIsExact(host, t[k].m);
    EntriesHoldFinalRule(host, opts, memory, t[k]);
  }

  /** A session acts as the one rule its options spell out, on every table and every packet, exactly
      when every entry it published that can match holds the final rule and the newest of those
      carries the final CPU, whichever allocations succeed. */
  lemma {:induction false} SessionIsOneRule(host: Host, opts: seq<Opt>, memory: nat -> bool)
    ensures IsOneRule(host, opts, memory) <==> Settled(host, opts, memory)
  {
    if Settled(host, opts, memory) {
      OneRuleIfSettled(host, opts, memory);
    }
    if IsOneRule(host, opts, memory) {
      forall e | e in Publications(host, opts, memory) && CanMatch(host, e.m)
        ensures e.m == RuleOf(opts)
      {
        EntriesHoldFinalRule(host, opts, memory, e);
      }
      if CanMatch(host, RuleOf(opts)) {
        var k := FinalRuleIsThere(host, opts, memory);
      }
    }
  }

  /** If every allocation succeeds that is a condition on the options alone: no option after an irq
      changes the rule (an earlier rule no packet can meet is harmless). The duplicate publication of
      the final entry never matters. */
  lemma {:induction false} GrantedSessionIsOneRule(host: Host, opts: seq<Opt>, memory: nat -> bool)
    requires forall i :: memory(i)
    ensures IsOneRule(host, opts, memory) <==>
      forall i :: 0 <= i < |opts| && opts[i].Irq? ==>
        RuleOf(opts[..i]) == RuleOf(opts) || !CanMatch(host, RuleOf(opts[..i]))
  {
    SessionIsOneRule(host, opts, memory);
    var t := Publications(host, opts, memory);
    assert FirstWith(t, RuleOf(opts), IrqOf(host, opts), 0);
    if Settled(host, opts, memory) {
      forall i | 0 <= i < |opts| && opts[i].Irq?
        ensures RuleOf(opts[..i]) == RuleOf(opts) || !CanMatch(host, RuleOf(opts[..i]))
      {
        var e := EntryOfIrq(host, opts, memory, i);
        assert e in t;
      }
    } else {
      var e :| e in t && CanMatch(host, e.m) && e.m != RuleOf(opts);
      var i := EarlyEntry(host, opts, memory, e);
    }
  }

  lemma {:induction false} NoIrqNoEntry(host: Host, opts: seq<Opt>, memory: nat -> bool)
    requires forall i :: 0 <= i < |opts| ==> !opts[i].Irq?
    ensures PublishedBy(host, opts, memory) == []
  {
    if opts != [] {
      NoIrqNoEntry(host, opts[..|opts| - 1], memory);
    }
  }

  /** The documented use, a single irq as the last option, is one rule with that CPU exactly when one
      of the two allocations succeeds, of the irq option or of the final publication (or when no
      packet can meet the rule anyway). */
  lemma {:induction false} IrqLastIsOneRule(host: Host, opts: seq<Opt>, irq: U32, memory: nat -> bool)
    requires forall i :: 0 <= i < |opts| ==> !opts[i].Irq?
    ensures var n := Position(host, opts);
      IsOneRule(host, opts + [Irq(irq)], memory) <==> memory(n) || memory(n + 1) || !CanMatch(host, RuleOf(opts))
    ensures IrqOf(host, opts + [Irq(irq)]) == FirstByte(host, irq)
    ensures forall p: Packet :: MeetsOptions(host, opts + [Irq(irq)], p) <==> MeetsOptions(host, opts, p)
  {
    var all, n := opts + [Irq(irq)], Position(host, opts);
    IrqLastMeaning(host, opts, irq);
    IrqLastPublishes(host, opts, irq, memory);
    SessionIsOneRule(host, all, memory);
    if memory(n) || memory(n + 1) {
      assert FirstWith(Publications(host, all, memory), RuleOf(all), IrqOf(host, all), 0);
    }
  }

  lemma {:induction false} IrqLastMeaning(host: Host, opts: seq<Opt>, irq: U32)
    ensures var all := opts + [Irq(irq)];
      && RuleOf(all) == RuleOf(opts) && IrqOf(host, all) == FirstByte(host, irq)
      && forall p: Packet :: MeetsOptions(host, all, p) <==> MeetsOptions(host, opts, p)
  {
    assert (opts + [Irq(irq)])[..|opts|] == opts;
  }

  lemma {:induction false} IrqLastPublishes(host: Host, opts: seq<Opt>, irq: U32, memory: nat -> bool)
    requires forall i :: 0 <= i < |opts| ==> !opts[i].Irq?
    ensures var n, e := Position(host, opts), Entry(RuleOf(opts), FirstByte(host, irq));
      Publications(host, opts + [Irq(irq)], memory) ==
        (if memory(n + 1) then [e] else []) + (if memory(n) then [e] else [])
  {
    var all := opts + [Irq(irq)];
    assert all[..|opts|] == opts;
    IrqLastMeaning(host, opts, irq);
    NoIrqNoEntry(host, opts, memory);
    BodyLast(host, all);
    assert Position(host, all) == Position(host, opts) + 1;
  }

  /** With the irq first the session is not one rule: the entry published by the irq option
      constrains nothing and claims every packet. */
  lemma {:induction false} IrqFirstIsNot(host: Host, memory: nat -> bool)
    requires memory(1)
    ensures !IsOneRule(host, [Irq(U32(3)), Opt.Vni(U32(10))], memory)
  {
    var opts := [Irq(U32(3)), Opt.Vni(U32(10))];
    assert opts[..0] == [] && opts[..1] == [Irq(U32(3))];
    assert LastVni(opts) == Some(U32(10));
    RuleWordFields([]);
    RuleWordFields(opts);
    assert Named(opts, OFPFW_VXLAN_VNI) && !Named([], OFPFW_VXLAN_VNI);
    assert Constrained(RuleOf(opts).wildcards, OFPFW_VXLAN_VNI);
    assert !Constrained(RuleOf([]).wildcards, OFPFW_VXLAN_VNI);
    assert CanMatch(host, RuleOf([]));
    assert Body(host, opts[..0]) == [];
    var e := EntryOfIrq(host, opts, memory, 0);
    assert e in Publications(host, opts, memory);
    SessionIsOneRule(host, opts, memory);
  }

  /** On a little-endian machine the session of --vni 65536 --irq 3 claims no packet. */
  lemma {:induction false} HighVniClaimsNothing(memory: nat -> bool, p: Packet)
    ensures SessionMet(LittleEndian, [Opt.Vni(U32(0x1_0000)), Irq(U32(3))], memory, p) == None
  {
    var opts := [Opt.Vni(U32(0x1_0000)), Irq(U32(3))];
    assert opts[..1] == [Opt.Vni(U32(0x1_0000))] && opts[..1][..0] == [];
    assert LastVni(opts[..1]) == Some(U32(0x1_0000));
    ExtractedVniInImage(LittleEndian, p);
    Bit16NotInImage(ExtractVni(LittleEndian, p));
    assert LastVni(opts) == Some(U32(0x1_0000));
    assert !MeetsOptions(LittleEndian, opts, p);
    assert EarlyMet(LittleEndian, opts[..1], memory, p) == None;
  }

  lemma {:induction false} Bit16NotInImage(v: bv32)
    requires InVniImage(LittleEndian, v)
    ensures v != 0x1_0000
  {
  }

  /** --irq 256 arrives as CPU 0. */
  lemma {:induction false} HighIrqIsLost()
    ensures IrqOf(LittleEndian, [Irq(U32(0x100))]) == U8(0)
  {
    assert LastIrq([Irq(U32(0x100))]) == Some(U32(0x100));
  }

  /** The TOS byte, which the matcher reads from a header it never set, makes no difference to what any
      session does: the client cannot constrain the machine id. */
  lemma {:induction false} SessionsIgnoreTos(host: Host, opts: seq<Opt>, memory: nat -> bool, p: Packet, tos: U8)
    ensures SessionMet(host, opts, memory, WithTos(p, tos)) == SessionMet(host, opts, memory, p)
  {
    OptionsIgnoreTos(host, opts, p, tos);
    EarlyIgnoresTos(host, opts, memory, p, tos);
  }

  lemma {:induction false} OptionsIgnoreTos(host: Host, opts: seq<Opt>, p: Packet, tos: U8)
    ensures MeetsOptions(host, opts, WithTos(p, tos)) <==> MeetsOptions(host, opts, p)
  {
    var q := WithTos(p, tos);
    assert q.net[32..36] == p.net[32..36] && q.net[36..42] == p.net[36..42];
    VniFromBytes(host, p, q);
  }

  lemma {:induction false} EarlyIgnoresTos(host: Host, opts: seq<Opt>, memory: nat -> bool, p: Packet, tos: U8)
    ensures EarlyMet(host, opts, memory, WithTos(p, tos)) == EarlyMet(host, opts, memory, p)
  {
    if opts != [] {
      OptionsIgnoreTos(host, opts, p, tos);
      EarlyIgnoresTos(host, opts[..|opts| - 1], memory, p, tos);
    }
  }

  /** After a session, from whatever history, packets that meet one of its publications go where it sends
      them, and all others where they went before. */
  lemma {:induction false} SessionOverrides(host: Host, h: seq<Call>, opts: seq<Opt>, memory: nat -> bool, p: Packet)
    ensures NewestMetIrq(host, h + SessionCalls(host, opts, memory), p) ==
      if SessionMet(host, opts, memory, p).Some? then SessionMet(host, opts, memory, p) else NewestMetIrq(host, h, p)
  {
    var calls := SessionCalls(host, opts, memory);
    SteeringIsNewestMet(host, h + calls, p);
    SteeringIsNewestMet(host, h, p);
    RunAppend(BOOT, h, calls);
    SessionPublishes(host, Run(BOOT, h), opts, memory);
    SteerAppend(host, Publications(host, opts, memory), Run(BOOT, h).table, p);
    SessionSteers(host, opts, memory, p);
  }

  /** A session without an irq option sends the packets that meet it to CPU 255. */
  lemma {:induction false} NoIrqSteersTo255(host: Host, opts: seq<Opt>, memory: nat -> bool, p: Packet)
    requires LastIrq(opts).None? && memory(Position(host, opts)) && MeetsOptions(host, opts, p)
    ensures SessionMet(host, opts, memory, p) == Some(U8(0xff))
  {
    NoIrqIs255(host, opts);
  }

  // ---------- Many clients ----------

  function Scripts(host: Host, args: nat -> seq<Opt>): Sessions.Scripts {
    (c: nat) => SessionCommands(host, args(c))
  }

  /** Which of a client's allocations succeeded; for calls it never made, none. */
  function Outcomes(log: seq<Call>): nat -> bool {
    (i: nat) => i < |log| && log[i].memory
  }

  lemma {:induction false} FailedCallsAddNothing(d: Dev, h: seq<Call>)
    requires forall i :: 0 <= i < |h| ==> !h[i].memory
    ensures Run(d, h).table == d.table
  {
    if h != [] {
      FailedCallsAddNothing(d, h[..|h| - 1]);
    }
  }

  /** The calls of a session cut short, completed by calls whose allocations fail. */
  lemma {:induction false} CutShort(cmds: seq<Cmd>, log: seq<Call>) returns (rest: seq<Call>)
    requires |log| <= |cmds| && forall i :: 0 <= i < |log| ==> log[i].cmd == cmds[i]
    ensures Calls(cmds, Outcomes(log), 0) == log + rest
    ensures forall i :: 0 <= i < |rest| ==> !rest[i].memory
  {
    rest := Calls(cmds, Outcomes(log), 0)[|log|..];
    assert forall i :: 0 <= i < |log| ==> Calls(cmds, Outcomes(log), 0)[i] == log[i];
  }

  /** A client's contribution to the table, however far it got and whatever failed: a session cut short
      adds what the whole session adds when all later allocations fail. */
  lemma {:induction false} ContributionIsPublications(host: Host, opts: seq<Opt>, log: seq<Call>)
    requires |log| <= |SessionCommands(host, opts)|
    requires forall i :: 0 <= i < |log| ==> log[i].cmd == SessionCommands(host, opts)[i]
    ensures Contribution(log) == Publications(host, opts, Outcomes(log))
  {
    var rest := CutShort(SessionCommands(host, opts), log);
    RunAppend(BOOT, log, rest);
    FailedCallsAddNothing(Run(BOOT, log), rest);
    SessionPublishes(host, BOOT, opts, Outcomes(log));
    assert Publications(host, opts, Outcomes(log)) + [] == Publications(host, opts, Outcomes(log));
  }

  /** Where the sessions of the clients send the packet, the last in open order first. */
  function LatestMet(host: Host, args: nat -> seq<Opt>, es: seq<Event>, order: seq<nat>, p: Packet): Option<U8> {
    if order == [] then None
    else
      var c := order[|order| - 1];
      var own := MetBy(host, args, es, c, p);
      if own.Some? then own else LatestMet(host, args, es, order[..|order| - 1], p)
  }

  /** Where the session of client c sends the packet. */
  function MetBy(host: Host, args: nat -> seq<Opt>, es: seq<Event>, c: nat, p: Packet): Option<U8> {
    SessionMet(host, args(c), Outcomes(Log(Scripts(host, args), es, c)), p)
  }

  /** The client at i is the last in the order whose session sends the packet anywhere. */
  predicate LastBy(host: Host, args: nat -> seq<Opt>, es: seq<Event>, order: seq<nat>, p: Packet, i: nat) {
    && i < |order| && MetBy(host, args, es, order[i], p).Some?
    && forall j :: i < j < |order| ==> MetBy(host, args, es, order[j], p) == None
  }

  /** That client decides. */
  lemma {:induction false} LatestMetIsLast(host: Host, args: nat -> seq<Opt>, es: seq<Event>, order: seq<nat>,
                                           p: Packet, i: nat)
    requires LastBy(host, args, es, order, p, i)
    ensures LatestMet(host, args, es, order, p) == MetBy(host, args, es, order[i], p)
  {
    var n := |order| - 1;
    if i < n {
      assert MetBy(host, args, es, order[n], p) == None;
      assert LastBy(host, args, es, order[..n], p, i);
      LatestMetIsLast(host, args, es, order[..n], p, i);
    }
  }

  /** And the packet is sent nowhere exactly if there is no such client. */
  lemma {:induction false} LatestMetMisses(host: Host, args: nat -> seq<Opt>, es: seq<Event>, order: seq<nat>,
                                           p: Packet)
    ensures LatestMet(host, args, es, order, p) == None
       <==> forall i :: 0 <= i < |order| ==> MetBy(host, args, es, order[i], p) == None
  {
    if order != [] {
      var n := |order| - 1;
      LatestMetMisses(host, args, es, order[..n], p);
      assert forall i :: 0 <= i < n ==> order[..n][i] == order[i];
    }
  }

  lemma {:induction false} SteerAppend(host: Host, newer: seq<Entry>, older: seq<Entry>, p: Packet)
    ensures Steer(host, newer + older, p)
         == if Steer(host, newer, p).Some? then Steer(host, newer, p) else Steer(host, older, p)
  {
    LookupAppend(host, newer, older, p);
  }

  lemma {:induction false} ContributionsSteer(host: Host, args: nat -> seq<Opt>, es: seq<Event>, order: seq<nat>,
                                              p: Packet)
    requires Possible(Scripts(host, args), es)
    ensures Steer(host, Contributions(Scripts(host, args), es, order), p) == LatestMet(host, args, es, order, p)
  {
    if order != [] {
      var scripts := Scripts(host, args);
      var c, earlier := order[|order| - 1], order[..|order| - 1];
      var log := Log(scripts, es, c);
      ContributionsSteer(host, args, es, earlier, p);
      LogFollowsPhase(scripts, es, c);
      ContributionIsPublications(host, args(c), log);
      SessionSteers(host, args(c), Outcomes(log), p);
      SteerAppend(host, Contribution(log), Contributions(scripts, es, earlier), p);
    }
  }

  /** Any number of clients in any interleaving, some killed half-way and with any allocations failing:
      each packet goes to the CPU that the last client, in open order, with a publication it meets
      names in the newest such publication, and nowhere if there is no such client. */
  lemma {:induction false} ClientsSteer(host: Host, args: nat -> seq<Opt>, es: seq<Event>, p: Packet)
    requires Possible(Scripts(host, args), es)
    ensures Steer(host, After(Scripts(host, args), es).dev.table, p)
         == LatestMet(host, args, es, OpenOrder(Scripts(host, args), es), p)
  {
    var scripts := Scripts(host, args);
    assert forall c: nat :: scripts(c) == SessionCommands(host, args(c));
    SessionsAreSerialisable(scripts, es);
    ContributionsSteer(host, args, es, OpenOrder(scripts, es), p);
  }

  /** The rule of the last client, in open order, whose options the packet meets. */
  function LatestRule(host: Host, args: nat -> seq<Opt>, order: seq<nat>, p: Packet): Option<U8> {
    if order == [] then None
    else
      var c := order[|order| - 1];
      if MeetsOptions(host, args(c), p) then Some(IrqOf(host, args(c)))
      else LatestRule(host, args, order[..|order| - 1], p)
  }

  /** If each of these sessions is one rule, the packet goes to the CPU of the last client whose
      options it meets. */
  lemma {:induction false} OneRuleClientsSteer(host: Host, args: nat -> seq<Opt>, es: seq<Event>, order: seq<nat>,
                                               p: Packet)
    requires forall c :: c in order ==>
      IsOneRule(host, args(c), Outcomes(Log(Scripts(host, args), es, c)))
    ensures LatestMet(host, args, es, order, p) == LatestRule(host, args, order, p)
  {
    if order != [] {
      var c := order[|order| - 1];
      var memory := Outcomes(Log(Scripts(host, args), es, c));
      OneRuleClientsSteer(host, args, es, order[..|order| - 1], p);
      OneRuleAlone(host, args(c), memory, p);
      SessionSteers(host, args(c), memory, p);
    }
  }
}
